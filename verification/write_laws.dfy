/** What a Write does to the filesystem: when it succeeds, when it fails,
    what it leaves behind in each case, and that repeating it changes
    nothing more. */
module WriteLaws {
  import opened Results
  import opened Fs
  import opened Store

  /** Every entry of `before` is kept as it was, and every entry added is a
      directory on the way down to `dir`. */
  predicate OnlyDirsAdded(before: map<Path, Node>, after: map<Path, Node>, dir: Path)
  {
    && (forall q :: q in before ==> q in after && after[q] == before[q])
    && (forall q :: q in after && q !in before ==> Under(q, dir) && after[q].Dir?)
  }

  /** The record file and the temporary file are distinct entries directly
      inside the collection directory. */
  lemma RecordPathsInCollection(d: Driver, c: string, r: string)
    ensures var dir := CollectionDir(d, c);
      && |RecordPath(d, c, r)| == |dir| + 1 && Parent(RecordPath(d, c, r)) == dir
      && |TempPath(d, c, r)| == |dir| + 1 && Parent(TempPath(d, c, r)) == dir
      && RecordPath(d, c, r) != TempPath(d, c, r)
  {
    var fnl := RecordPath(d, c, r);
    var tmp := TempPath(d, c, r);
    assert |tmp[|tmp| - 1]| == |fnl[|fnl| - 1]| + 4;
  }

  /** A Write succeeds exactly when no regular file stands on the way to the
      collection directory, the value encodes, and neither the temporary
      path nor the record path is a directory. */
  lemma WriteSucceedsIff<V>(st: State, codec: Codec<V>, c: string, r: string, v: V)
    ensures Write(st, codec, c, r, v).result.Ok? <==>
      && DirsAlong(st.fs, CollectionDir(st.driver, c))
      && codec.encode(v).Some?
      && !IsDirAt(st.fs, TempPath(st.driver, c, r))
      && !IsDirAt(st.fs, RecordPath(st.driver, c, r))
  {
    RecordPathsInCollection(st.driver, c, r);
    var dir := CollectionDir(st.driver, c);
    var tmp := TempPath(st.driver, c, r);
    var fnl := RecordPath(st.driver, c, r);
    var m := MkdirAll(st.fs, dir);
    if m.Ok? && codec.encode(v).Some? {
      assert !Under(tmp, dir) && !Under(fnl, dir);
      assert IsDirAt(m.value, tmp) <==> IsDirAt(st.fs, tmp);
      assert IsDirAt(m.value, fnl) <==> IsDirAt(st.fs, fnl);
      var w := WriteFile(m.value, tmp, codec.encode(v).value + [Newline]);
      if w.Ok? {
        assert IsDirAt(w.value, fnl) <==> IsDirAt(m.value, fnl);
      }
    }
  }

  /** After a successful Write the record file holds the encoded value and a
      newline, the temporary file is gone, the collection directory exists,
      and every other entry is as it was, apart from directories created on
      the way to the collection. */
  lemma WriteEffects<V>(st: State, codec: Codec<V>, c: string, r: string, v: V)
    requires Write(st, codec, c, r, v).result.Ok?
    ensures codec.encode(v).Some?
    ensures var after := Write(st, codec, c, r, v).state.fs;
      var dir := CollectionDir(st.driver, c);
      var fnl := RecordPath(st.driver, c, r);
      var tmp := TempPath(st.driver, c, r);
      && fnl in after && after[fnl] == File(codec.encode(v).value + [Newline])
      && tmp !in after
      && IsDirAt(after, dir)
      && (forall q :: q in st.fs && q != fnl && q != tmp ==> q in after && after[q] == st.fs[q])
      && (forall q :: q in after && q !in st.fs && q != fnl ==> Under(q, dir) && after[q].Dir?)
  {
    RecordPathsInCollection(st.driver, c, r);
  }

  /** A failed Write leaves the record file as it was. When it fails before
      the rename, its only effect is the directories it created on the way to
      the collection; when the rename fails, the temporary file is left
      behind as well. */
  lemma WriteFailure<V>(st: State, codec: Codec<V>, c: string, r: string, v: V)
    requires Write(st, codec, c, r, v).result.Err?
    ensures var out := Write(st, codec, c, r, v);
      var after := out.state.fs;
      var dir := CollectionDir(st.driver, c);
      var fnl := RecordPath(st.driver, c, r);
      var tmp := TempPath(st.driver, c, r);
      && (fnl in after <==> fnl in st.fs)
      && (fnl in st.fs ==> after[fnl] == st.fs[fnl])
      && (out.result.error != Io(LinkError(RenameOp, tmp, fnl, EEXIST)) ==> OnlyDirsAdded(st.fs, after, dir))
      && (out.result.error == Io(LinkError(RenameOp, tmp, fnl, EEXIST)) ==>
            && codec.encode(v).Some?
            && tmp in after && after[tmp] == File(codec.encode(v).value + [Newline])
            && OnlyDirsAdded(st.fs - {tmp}, after - {tmp}, dir))
  {
    RecordPathsInCollection(st.driver, c, r);
    var dir := CollectionDir(st.driver, c);
    var tmp := TempPath(st.driver, c, r);
    var fnl := RecordPath(st.driver, c, r);
    assert !Under(tmp, dir) && !Under(fnl, dir);
  }

  /** A Write onto a record that already holds the value's encoding, with
      the collection's mutex registered and no temporary file, changes
      nothing. */
  lemma WriteOverSameRecord<V>(st: State, codec: Codec<V>, c: string, r: string, v: V)
    requires c in st.driver.locks.mutexes
    requires codec.encode(v).Some?
    requires IsDirAt(st.fs, CollectionDir(st.driver, c))
    requires TempPath(st.driver, c, r) !in st.fs
    requires RecordPath(st.driver, c, r) in st.fs
    requires st.fs[RecordPath(st.driver, c, r)] == File(codec.encode(v).value + [Newline])
    ensures Write(st, codec, c, r, v) == Step(st, Ok(()))
  {
    RecordPathsInCollection(st.driver, c, r);
    var dir := CollectionDir(st.driver, c);
    var tmp := TempPath(st.driver, c, r);
    var fnl := RecordPath(st.driver, c, r);
    var data := codec.encode(v).value + [Newline];
    assert MkdirAll(st.fs, dir) == Ok(st.fs);
    var w := WriteFile(st.fs, tmp, data);
    assert w == Ok(st.fs[tmp := File(data)]);
    var rn := Rename(w.value, tmp, fnl);
    assert rn == Ok((w.value - {tmp})[fnl := File(data)]);
    assert (w.value - {tmp}) == st.fs;
    assert st.fs[fnl := File(data)] == st.fs;
    assert Locked(st, c) == st;
  }

  /** Writing the same value again after a successful Write leaves the
      driver and the filesystem exactly as they are. */
  lemma WriteIdempotent<V>(st: State, codec: Codec<V>, c: string, r: string, v: V)
    requires Write(st, codec, c, r, v).result.Ok?
    ensures var once := Write(st, codec, c, r, v);
      Write(once.state, codec, c, r, v) == once
  {
    var once := Write(st, codec, c, r, v);
    WriteEffects(st, codec, c, r, v);
    assert CollectionDir(once.state.driver, c) == CollectionDir(st.driver, c);
    WriteOverSameRecord(once.state, codec, c, r, v);
  }
}
