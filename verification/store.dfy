/** The storage driver: a database root directory holding one directory per
    collection and one `<resource>.json` file per record, plus the per-
    collection lock registry. Every operation is a pure function of the
    driver and the filesystem; mutating operations return the new state. */
module Store {
  import opened Results
  import opened Fs
  import Locks

  const Newline: byte := 10

  /** The JSON serializer, left uninterpreted: indented encoding of a value,
      and decoding of a stored document; either may fail. */
  datatype Codec<!V> = Codec(encode: V -> Option<Bytes>, decode: Bytes -> Option<V>)

  /** The decoder reads back what the encoder wrote, trailing newline included. */
  ghost predicate RoundTrips<V(!new)>(codec: Codec<V>)
  {
    forall v :: codec.encode(v).Some? ==> codec.decode(codec.encode(v).value + [Newline]) == Some(v)
  }

  datatype Driver = Driver(root: Path, locks: Locks.Table)

  datatype State = State(driver: Driver, fs: Tree)

  datatype Error =
    | Io(cause: IoError)
    | MissingCollection
    | UnableToFind(name: Path)
    | MarshalFailed
    | UnmarshalFailed

  /** The state after a mutating operation and the error it returned, if any. */
  datatype Step = Step(state: State, result: Result<(), Error>)

  /** The collection's directory, or the root itself for an empty name. */
  function CollectionDir(d: Driver, c: string): (p: Path)
    ensures c == "" ==> p == d.root
    ensures c != "" ==> |p| > 0 && Parent(p) == d.root && p[|p| - 1] == c
  {
    Join(d.root, c)
  }

  /** Where Write stores resource `r` of collection `c`. */
  function RecordPath(d: Driver, c: string, r: string): (p: Path)
    ensures |p| > 0 && Parent(p) == CollectionDir(d, c) && p[|p| - 1] == r + ".json"
  {
    CollectionDir(d, c) + [r + ".json"]
  }

  /** The temporary sibling Write creates before renaming it onto RecordPath. */
  function TempPath(d: Driver, c: string, r: string): (p: Path)
    ensures |p| > 0 && Parent(p) == CollectionDir(d, c) && p[|p| - 1] == r + ".json.tmp"
    ensures p != RecordPath(d, c, r)
  {
    AddSuffix(RecordPath(d, c, r), ".tmp")
  }

  /** The path Read, Delete and the existence checks start from. */
  function Target(d: Driver, c: string, r: string): (p: Path)
    ensures r == "" ==> p == CollectionDir(d, c)
    ensures r != "" ==> |p| > 0 && Parent(p) == CollectionDir(d, c) && p[|p| - 1] == r
  {
    Join(CollectionDir(d, c), r)
  }

  /** Neither `p` nor `p + ".json"` exists. */
  predicate NeitherExists(fs: Tree, p: Path)
  {
    p !in fs && AddSuffix(p, ".json") !in fs
  }

  /** Entry `k` of the listing is the first that cannot be read. */
  predicate FirstUnreadable(fs: Tree, dir: Path, names: seq<string>, k: int)
    requires 0 <= k < |names|
  {
    && (forall i :: 0 <= i < k ==> ReadFile(fs, dir + [names[i]]).Ok?)
    && ReadFile(fs, dir + [names[k]]).Err?
  }

  /** The driver's stat helper: stat `p`, and only when `p` does not exist,
      stat `p + ".json"` instead. */
  function StatOrJson(fs: Tree, p: Path): (r: Result<Node, IoError>)
    ensures p in fs ==> r == Ok(fs[p])
    ensures p !in fs && !BlockedByFile(fs, p) ==>
      (r.Ok? <==> AddSuffix(p, ".json") in fs) && (r.Ok? ==> r.value == fs[AddSuffix(p, ".json")])
    ensures p !in fs && BlockedByFile(fs, p) ==> r == Err(PathError(StatOp, p, ENOTDIR))
    ensures r.Ok? ==> p in fs || AddSuffix(p, ".json") in fs
    ensures NeitherExists(fs, p) && !BlockedByFile(fs, p) ==>
      r == Err(PathError(StatOp, AddSuffix(p, ".json"), ENOENT))
  {
    SiblingsBlockedTogether(fs, p, ".json");
    match Stat(fs, p)
    case Err(PathError(_, _, ENOENT)) => Stat(fs, AddSuffix(p, ".json"))
    case other => other
  }

  /** Opens a database at `root`: the directory is created only when nothing
      exists there yet; the lock registry starts empty. */
  function New(root: Path, fs: Tree): (out: Step)
    ensures out.state.driver.root == root && out.state.driver.locks.mutexes == map[]
    ensures root in fs ==> out.state.fs == fs && out.result.Ok?
    ensures root !in fs ==> (out.result.Ok? <==> DirsAlong(fs, root))
    ensures out.result.Ok? ==> root in out.state.fs
    ensures out.result.Ok? && root !in fs ==> out.state.fs[root].Dir?
    ensures forall q :: q in fs ==> q in out.state.fs && out.state.fs[q] == fs[q]
    ensures forall q :: q in out.state.fs && q !in fs ==> Under(q, root) && out.state.fs[q].Dir?
    ensures out.result.Err? ==> out.state.fs == fs && out.result.error.Io?
  {
    var d := Driver(root, Locks.Empty());
    if Stat(fs, root).Ok? then Step(State(d, fs), Ok(()))
    else
      match MkdirAll(fs, root)
      case Err(e) => Step(State(d, fs), Err(Io(e)))
      case Ok(made) => Step(State(d, made), Ok(()))
  }

  /** The driver after `c`'s mutex has been looked up or created. */
  function Locked(st: State, c: string): (st': State)
    ensures st'.fs == st.fs && st'.driver.root == st.driver.root
    ensures c in st'.driver.locks.mutexes
    ensures st'.driver.locks.mutexes.Keys == st.driver.locks.mutexes.Keys + {c}
    ensures forall k :: k in st.driver.locks.mutexes ==>
      st'.driver.locks.mutexes[k] == st.driver.locks.mutexes[k]
  {
    st.(driver := st.driver.(locks := Locks.GetOrCreateMutex(st.driver.locks, c).0))
  }

  /** Driver.Write: takes the collection's mutex, creates the collection
      directory, encodes the value with a trailing newline, writes it to the
      temporary sibling and renames that onto `<resource>.json`. Empty names
      are not rejected. */
  function Write<V>(st: State, codec: Codec<V>, c: string, r: string, v: V): (out: Step)
    ensures out.state == Locked(st, c).(fs := out.state.fs)
    ensures out.result.Err? ==> out.result.error.Io? || out.result.error == MarshalFailed
  {
    var locked := Locked(st, c);
    var dir := CollectionDir(st.driver, c);
    var fnl := RecordPath(st.driver, c, r);
    var tmp := TempPath(st.driver, c, r);
    match MkdirAll(st.fs, dir)
    case Err(e) => Step(locked, Err(Io(e)))
    case Ok(withDir) =>
      match codec.encode(v)
      case None => Step(locked.(fs := withDir), Err(MarshalFailed))
      case Some(b) =>
        match WriteFile(withDir, tmp, b + [Newline])
        case Err(e) => Step(locked.(fs := withDir), Err(Io(e)))
        case Ok(written) =>
          match Rename(written, tmp, fnl)
          case Err(e) => Step(locked.(fs := written), Err(Io(e)))
          case Ok(renamed) => Step(locked.(fs := renamed), Ok(()))
  }

  /** Driver.Read: checks that `r` or `r.json` exists in the collection, then
      decodes the contents of `r.json`. Takes no lock and changes nothing;
      empty names are not rejected. */
  function Read<V>(st: State, codec: Codec<V>, c: string, r: string): (out: Result<V, Error>)
    ensures out.Ok? ==>
      var json := AddSuffix(Target(st.driver, c, r), ".json");
      json in st.fs && st.fs[json].File? && codec.decode(st.fs[json].data) == Some(out.value)
    ensures NeitherExists(st.fs, Target(st.driver, c, r)) ==> out.Err?
    ensures NeitherExists(st.fs, Target(st.driver, c, r)) && !BlockedByFile(st.fs, Target(st.driver, c, r)) ==>
      out == Err(Io(PathError(StatOp, AddSuffix(Target(st.driver, c, r), ".json"), ENOENT)))
    ensures Target(st.driver, c, r) !in st.fs && BlockedByFile(st.fs, Target(st.driver, c, r)) ==>
      out == Err(Io(PathError(StatOp, Target(st.driver, c, r), ENOTDIR)))
    ensures out.Err? ==> out.error != MissingCollection
  {
    var record := Target(st.driver, c, r);
    match StatOrJson(st.fs, record)
    case Err(e) => Err(Io(e))
    case Ok(_) =>
      match ReadFile(st.fs, AddSuffix(record, ".json"))
      case Err(e) => Err(Io(e))
      case Ok(b) =>
        match codec.decode(b)
        case None => Err(UnmarshalFailed)
        case Some(x) => Ok(x)
  }

  /** Reads the entries `names` of `dir` in order, stopping at the first one
      that cannot be read. */
  function ReadEntries(fs: Tree, dir: Path, names: seq<string>): (out: Result<seq<Bytes>, Error>)
    ensures out.Ok? <==> forall i :: 0 <= i < |names| ==> ReadFile(fs, dir + [names[i]]).Ok?
    ensures out.Ok? ==> |out.value| == |names|
    ensures out.Ok? ==> forall i :: 0 <= i < |names| ==> ReadFile(fs, dir + [names[i]]) == Ok(out.value[i])
    ensures out.Err? ==>
      exists k :: 0 <= k < |names| && FirstUnreadable(fs, dir, names, k)
             && out.error == Io(ReadFile(fs, dir + [names[k]]).error)
    decreases |names|
  {
    if names == [] then Ok([])
    else
      match ReadFile(fs, dir + [names[0]])
      case Err(e) => Err(Io(e))
      case Ok(b) =>
        match ReadEntries(fs, dir, names[1..])
        case Err(e) => Err(e)
        case Ok(rest) => Ok([b] + rest)
  }

  /** Driver.ReadAll: rejects an empty collection name, checks that the
      collection (or `<collection>.json`) exists, then returns the raw
      contents of every entry of the collection directory in listing order;
      a listing that fails yields no entries. Takes no lock. */
  function ReadAll(st: State, c: string): (out: Result<seq<Bytes>, Error>)
    ensures c == "" ==> out == Err(MissingCollection)
    ensures c != "" && NeitherExists(st.fs, CollectionDir(st.driver, c)) ==> out.Err? && out.error.Io?
    ensures c != "" && NeitherExists(st.fs, CollectionDir(st.driver, c)) && !BlockedByFile(st.fs, CollectionDir(st.driver, c)) ==>
      out == Err(Io(PathError(StatOp, AddSuffix(CollectionDir(st.driver, c), ".json"), ENOENT)))
    ensures c != "" && CollectionDir(st.driver, c) !in st.fs && BlockedByFile(st.fs, CollectionDir(st.driver, c)) ==>
      out == Err(Io(PathError(StatOp, CollectionDir(st.driver, c), ENOTDIR)))
    ensures out.Ok? ==> c != ""
    ensures out.Ok? && !IsDirAt(st.fs, CollectionDir(st.driver, c)) ==>
      out.value == []
    ensures out.Ok? && IsDirAt(st.fs, CollectionDir(st.driver, c)) ==>
      var dir := CollectionDir(st.driver, c);
      var names := ReadDir(st.fs, dir).value;
      && |out.value| == |names|
      && forall i :: 0 <= i < |names| ==> dir + [names[i]] in st.fs && st.fs[dir + [names[i]]] == File(out.value[i])
    ensures out.Err? && c != "" && IsDirAt(st.fs, CollectionDir(st.driver, c)) ==>
      var dir := CollectionDir(st.driver, c);
      var names := ReadDir(st.fs, dir).value;
      exists k :: 0 <= k < |names| && FirstUnreadable(st.fs, dir, names, k)
             && out.error == Io(ReadFile(st.fs, dir + [names[k]]).error)
  {
    if c == "" then Err(MissingCollection)
    else
      var dir := CollectionDir(st.driver, c);
      match StatOrJson(st.fs, dir)
      case Err(e) => Err(Io(e))
      case Ok(_) =>
        var names := match ReadDir(st.fs, dir) case Ok(ns) => ns case Err(_) => [];
        ReadEntries(st.fs, dir, names)
  }

  /** Driver.Delete: rejects an empty collection name, takes the collection's
      mutex, and classifies `<collection>/<resource>` through the stat
      helper: missing is an error, a directory is removed with everything
      beneath it, and for a regular file `<collection>/<resource>.json` is
      removed. Errors of the removal are ignored. */
  function Delete(st: State, c: string, r: string): (out: Step)
    ensures c == "" ==> out == Step(st, Err(MissingCollection))
    ensures c != "" ==> out.state == Locked(st, c).(fs := out.state.fs)
    ensures forall q :: q in out.state.fs ==> q in st.fs && out.state.fs[q] == st.fs[q]
    ensures c != "" && NeitherExists(st.fs, Target(st.driver, c, r)) ==>
      out.result == Err(UnableToFind(Join([c], r))) && out.state.fs == st.fs
  {
    if c == "" then Step(st, Err(MissingCollection))
    else
      var name := Join([c], r);
      var locked := Locked(st, c);
      var target := Target(st.driver, c, r);
      match StatOrJson(st.fs, target)
      case Err(_) => Step(locked, Err(UnableToFind(name)))
      case Ok(Dir) => Step(locked.(fs := RemoveAll(st.fs, target)), Ok(()))
      case Ok(File(_)) => Step(locked.(fs := RemoveAll(st.fs, AddSuffix(target, ".json"))), Ok(()))
  }
}
