/** What Delete removes in each case of its classification, and what Read
    sees afterwards. */
module DeleteLaws {
  import opened Results
  import opened Fs
  import opened Store
  import WriteLaws
  import ReadLaws

  /** When `<collection>/<resource>` is a directory, Delete succeeds and
      removes it with everything beneath it, and nothing else. */
  lemma DeleteDirectory(st: State, c: string, r: string)
    requires c != ""
    requires IsDirAt(st.fs, Target(st.driver, c, r))
    ensures var out := Delete(st, c, r);
      && out.result.Ok?
      && forall q :: q in out.state.fs <==> q in st.fs && !Under(Target(st.driver, c, r), q)
  {
  }

  /** Delete with an empty resource name removes the whole collection
      directory: the empty name is dropped when the path is joined. */
  lemma DeleteCollection(st: State, c: string)
    requires c != ""
    requires IsDirAt(st.fs, CollectionDir(st.driver, c))
    ensures var out := Delete(st, c, "");
      && out.result.Ok?
      && forall q :: q in out.state.fs <==> q in st.fs && !Under(CollectionDir(st.driver, c), q)
  {
    DeleteDirectory(st, c, "");
  }

  /** After a collection has been deleted, Read of any non-empty resource
      name in it reports that `<resource>.json` does not exist. */
  lemma DeleteCollectionThenRead<V>(st: State, codec: Codec<V>, c: string, r: string)
    requires c != "" && r != ""
    requires IsDirAt(st.fs, CollectionDir(st.driver, c))
    ensures Read(Delete(st, c, "").state, codec, c, r)
         == Err(Io(PathError(StatOp, RecordPath(st.driver, c, r), ENOENT)))
  {
    DeleteCollection(st, c);
    var after := Delete(st, c, "").state;
    var dir := CollectionDir(st.driver, c);
    ReadLaws.TargetOfResource(after.driver, c, r);
    assert CollectionDir(after.driver, c) == dir;
    assert Under(dir, dir + [r]) && Under(dir, dir + [r + ".json"]);
    assert NeitherExists(after.fs, Target(after.driver, c, r));
    var root := st.driver.root;
    AncestorsAreDirs(st.fs, dir, |root|);
    assert dir[..|root|] == root;
    assert !Under(dir, root);
    assert root in after.fs;
    InTreeNotBlocked(after.fs, root);
    BlockedStep(after.fs, dir);
    BlockedStep(after.fs, dir + [r]);
  }

  /** When `<collection>/<resource>` is itself a regular file, Delete
      succeeds but removes only `<collection>/<resource>.json` (with
      everything beneath it, should that be a directory); the bare file
      stays. */
  lemma DeleteBareFile(st: State, c: string, r: string)
    requires c != ""
    requires Target(st.driver, c, r) in st.fs && st.fs[Target(st.driver, c, r)].File?
    ensures var out := Delete(st, c, r);
      var json := AddSuffix(Target(st.driver, c, r), ".json");
      && out.result.Ok?
      && Target(st.driver, c, r) in out.state.fs
      && (forall q :: q in out.state.fs <==> q in st.fs && !Under(json, q))
      && (!IsDirAt(st.fs, json) ==> out.state.fs == st.fs - {json})
  {
    var t := Target(st.driver, c, r);
    var json := AddSuffix(t, ".json");
    assert !Under(json, t);
    if json in st.fs && st.fs[json].File? {
      RemoveFile(st.fs, json);
    } else if json !in st.fs {
      RemoveMissing(st.fs, json);
    }
  }

  /** The ordinary case: only `<resource>.json` exists, and Delete removes
      exactly that file. */
  lemma DeleteStoredRecord(st: State, c: string, r: string)
    requires c != ""
    requires Target(st.driver, c, r) !in st.fs
    requires AddSuffix(Target(st.driver, c, r), ".json") in st.fs
    requires st.fs[AddSuffix(Target(st.driver, c, r), ".json")].File?
    ensures var out := Delete(st, c, r);
      && out.result.Ok?
      && out.state.fs == st.fs - {AddSuffix(Target(st.driver, c, r), ".json")}
  {
    var t := Target(st.driver, c, r);
    var json := AddSuffix(t, ".json");
    SiblingsBlockedTogether(st.fs, t, ".json");
    InTreeNotBlocked(st.fs, json);
    RemoveFile(st.fs, json);
  }

  /** When the bare name is absent and `<resource>.json` is a directory, the
      stat helper classifies the target as a directory, and removing the
      absent bare path does nothing: Delete reports success and changes no
      entry. */
  lemma DeleteJsonDirectoryIsNoOp(st: State, c: string, r: string)
    requires c != ""
    requires Target(st.driver, c, r) !in st.fs
    requires IsDirAt(st.fs, AddSuffix(Target(st.driver, c, r), ".json"))
    ensures var out := Delete(st, c, r);
      out.result.Ok? && out.state.fs == st.fs
  {
    var t := Target(st.driver, c, r);
    SiblingsBlockedTogether(st.fs, t, ".json");
    InTreeNotBlocked(st.fs, AddSuffix(t, ".json"));
    RemoveMissing(st.fs, t);
  }

  /** Write a record under a fresh name, delete it, and Read reports that
      the record file does not exist. */
  lemma WriteDeleteRead<V>(st: State, codec: Codec<V>, c: string, r: string, v: V)
    requires c != "" && r != ""
    requires Target(st.driver, c, r) !in st.fs
    requires Write(st, codec, c, r, v).result.Ok?
    ensures var written := Write(st, codec, c, r, v).state;
      var deleted := Delete(written, c, r);
      && deleted.result.Ok?
      && RecordPath(st.driver, c, r) !in deleted.state.fs
      && Read(deleted.state, codec, c, r) == Err(Io(PathError(StatOp, RecordPath(st.driver, c, r), ENOENT)))
  {
    WriteLaws.WriteEffects(st, codec, c, r, v);
    var written := Write(st, codec, c, r, v).state;
    var dir := CollectionDir(st.driver, c);
    ReadLaws.TargetOfResource(st.driver, c, r);
    ReadLaws.TargetOfResource(written.driver, c, r);
    var t := Target(st.driver, c, r);
    assert !Under(t, dir);
    assert t != TempPath(st.driver, c, r);
    assert t !in written.fs;
    DeleteStoredRecord(written, c, r);
    var deleted := Delete(written, c, r).state;
    assert NeitherExists(deleted.fs, Target(deleted.driver, c, r));
    assert dir != RecordPath(st.driver, c, r);
    assert dir in deleted.fs;
    InTreeNotBlocked(deleted.fs, dir);
    BlockedStep(deleted.fs, t);
  }
}
