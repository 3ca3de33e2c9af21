/** What Read and ReadAll return, in particular after a Write. */
module ReadLaws {
  import opened Results
  import opened Fs
  import opened Store
  import WriteLaws

  /** Where Read looks for resource `r`, given a non-empty `r`: the bare
      name inside the collection, and the record file Write produces. */
  lemma TargetOfResource(d: Driver, c: string, r: string)
    requires r != ""
    ensures Target(d, c, r) == CollectionDir(d, c) + [r]
    ensures AddSuffix(Target(d, c, r), ".json") == RecordPath(d, c, r)
  {
  }

  /** The stat helper finds a record file whose bare name is absent from an
      existing directory. */
  lemma StatFindsRecord(fs: Tree, dir: Path, r: string)
    requires IsDirAt(fs, dir)
    ensures StatOrJson(fs, dir + [r]).Ok? <==> (dir + [r] in fs || dir + [r + ".json"] in fs)
  {
    var p := dir + [r];
    assert Parent(p) == dir;
    if p !in fs {
      BlockedStep(fs, p);
      InTreeNotBlocked(fs, dir);
      assert AddSuffix(p, ".json") == dir + [r + ".json"];
    }
  }

  /** Read of a non-empty resource name whose record file is a regular file
      in an existing collection directory decodes that file. */
  lemma ReadRecord<V>(st: State, codec: Codec<V>, c: string, r: string)
    requires r != ""
    requires IsDirAt(st.fs, CollectionDir(st.driver, c))
    requires RecordPath(st.driver, c, r) in st.fs && st.fs[RecordPath(st.driver, c, r)].File?
    ensures var got := Read(st, codec, c, r);
      var stored := st.fs[RecordPath(st.driver, c, r)].data;
      && (got.Ok? <==> codec.decode(stored).Some?)
      && (got.Ok? ==> codec.decode(stored) == Some(got.value))
      && (got.Err? ==> got.error == UnmarshalFailed)
  {
    TargetOfResource(st.driver, c, r);
    var record := Target(st.driver, c, r);
    var json := RecordPath(st.driver, c, r);
    StatFindsRecord(st.fs, CollectionDir(st.driver, c), r);
    assert StatOrJson(st.fs, record).Ok?;
    assert ReadFile(st.fs, json) == Ok(st.fs[json].data);
  }

  /** After a successful Write of `v` to a non-empty resource name, Read
      returns the decoding of the bytes Write stored. */
  lemma WriteThenRead<V>(st: State, codec: Codec<V>, c: string, r: string, v: V)
    requires r != ""
    requires Write(st, codec, c, r, v).result.Ok?
    ensures codec.encode(v).Some?
    ensures var got := Read(Write(st, codec, c, r, v).state, codec, c, r);
      var stored := codec.encode(v).value + [Newline];
      && (got.Ok? <==> codec.decode(stored).Some?)
      && (got.Ok? ==> codec.decode(stored) == Some(got.value))
      && (got.Err? ==> got.error == UnmarshalFailed)
  {
    WriteLaws.WriteEffects(st, codec, c, r, v);
    var after := Write(st, codec, c, r, v).state;
    assert after.driver.root == st.driver.root;
    ReadRecord(after, codec, c, r);
  }

  /** With a codec that reads back what it writes, Write then Read returns
      the value written. */
  lemma WriteThenReadRoundTrip<V(!new)>(st: State, codec: Codec<V>, c: string, r: string, v: V)
    requires RoundTrips(codec)
    requires r != ""
    requires Write(st, codec, c, r, v).result.Ok?
    ensures Read(Write(st, codec, c, r, v).state, codec, c, r) == Ok(v)
  {
    WriteThenRead(st, codec, c, r, v);
  }

  /** Write stores an empty resource name as `<collection>/.json`, but Read
      of the empty name reads `<collection>.json`: unless that file exists,
      the record written cannot be read back. */
  lemma EmptyResourceNotReadBack<V>(st: State, codec: Codec<V>, c: string, v: V)
    requires Write(st, codec, c, "", v).result.Ok?
    requires AddSuffix(CollectionDir(st.driver, c), ".json") !in st.fs
    ensures Read(Write(st, codec, c, "", v).state, codec, c, "").Err?
  {
    CollectionJsonUntouched(st, codec, c, v);
  }

  /** A Write under the empty resource name does not create
      `<collection>.json`. */
  lemma CollectionJsonUntouched<V>(st: State, codec: Codec<V>, c: string, v: V)
    requires Write(st, codec, c, "", v).result.Ok?
    requires AddSuffix(CollectionDir(st.driver, c), ".json") !in st.fs
    ensures AddSuffix(CollectionDir(st.driver, c), ".json") !in Write(st, codec, c, "", v).state.fs
  {
    WriteLaws.WriteEffects(st, codec, c, "", v);
    var dir := CollectionDir(st.driver, c);
    var json := AddSuffix(dir, ".json");
    assert !Under(json, dir);
    assert json != RecordPath(st.driver, c, "") by {
      if |dir| == 0 {
        assert json[0] != RecordPath(st.driver, c, "")[0] by {
          assert |json[0]| == 6 && |RecordPath(st.driver, c, "")[0]| == 5;
        }
      }
    }
  }

  /** ReadAll of a collection directory succeeds exactly when every entry is
      a regular file, returns every entry's contents, and otherwise fails on
      a subdirectory. */
  lemma ReadAllOfDirectory(st: State, c: string)
    requires c != ""
    requires IsDirAt(st.fs, CollectionDir(st.driver, c))
    ensures var dir := CollectionDir(st.driver, c);
      var out := ReadAll(st, c);
      && (out.Ok? <==> forall n :: dir + [n] in st.fs ==> st.fs[dir + [n]].File?)
      && (out.Ok? ==> forall n :: dir + [n] in st.fs ==> st.fs[dir + [n]].data in out.value)
      && (out.Err? ==> exists n :: IsDirAt(st.fs, dir + [n])
                                  && out.error == Io(PathError(ReadOp, dir + [n], EISDIR)))
  {
    var dir := CollectionDir(st.driver, c);
    var names := ReadDir(st.fs, dir).value;
    var out := ReadAll(st, c);
    assert out == ReadEntries(st.fs, dir, names);
    if out.Ok? {
      forall n | dir + [n] in st.fs
        ensures st.fs[dir + [n]].File? && st.fs[dir + [n]].data in out.value
      {
        var i :| 0 <= i < |names| && names[i] == n;
        assert ReadFile(st.fs, dir + [names[i]]).Ok?;
      }
    } else {
      var k :| 0 <= k < |names| && FirstUnreadable(st.fs, dir, names, k)
             && out.error == Io(ReadFile(st.fs, dir + [names[k]]).error);
      assert dir + [names[k]] in st.fs;
    }
  }

  /** When the collection exists only as a regular file, or only as
      `<collection>.json`, ReadAll succeeds with no records. */
  lemma ReadAllWithoutDirectory(st: State, c: string)
    requires c != ""
    requires !IsDirAt(st.fs, CollectionDir(st.driver, c))
    requires CollectionDir(st.driver, c) in st.fs
          || (!BlockedByFile(st.fs, CollectionDir(st.driver, c))
              && AddSuffix(CollectionDir(st.driver, c), ".json") in st.fs)
    ensures ReadAll(st, c) == Ok([])
  {
  }

  /** After a successful Write into a named collection, ReadAll either
      returns the stored bytes among its records or fails because the
      collection holds a subdirectory. */
  lemma WriteThenReadAll<V>(st: State, codec: Codec<V>, c: string, r: string, v: V)
    requires c != ""
    requires Write(st, codec, c, r, v).result.Ok?
    ensures codec.encode(v).Some?
    ensures var after := Write(st, codec, c, r, v).state;
      var dir := CollectionDir(st.driver, c);
      var out := ReadAll(after, c);
      && (out.Ok? ==> codec.encode(v).value + [Newline] in out.value)
      && (out.Err? ==> exists n :: IsDirAt(after.fs, dir + [n]))
  {
    WriteLaws.WriteEffects(st, codec, c, r, v);
    var after := Write(st, codec, c, r, v).state;
    var dir := CollectionDir(st.driver, c);
    assert CollectionDir(after.driver, c) == dir;
    ReadAllOfDirectory(after, c);
    assert RecordPath(st.driver, c, r) == dir + [r + ".json"];
  }
}
