# simple-database storage driver, modelled in Dafny

The Go program is a small document store. It has a database root directory,
one sub-directory per collection and one `<resource>.json` file per record. A
write serializes the value as indented JSON with a trailing newline. It writes
that to `<resource>.json.tmp` and renames it onto `<resource>.json`. Mutating
operations take a mutex per collection. The driver keeps those mutexes in a
registry that it fills lazily and never empties.

This project models the driver (`New`, `Write`, `Read`, `ReadAll`, `Delete`,
`getOrCreateMutex` and the `stat` helper) over an abstract filesystem:

- `Fs` holds the filesystem. A `Tree` maps a path (a sequence of components;
  `[]` is the working directory ".") to a `File(bytes)` or a `Dir`. Every
  entry sits inside a directory. The OS calls the driver makes are pure
  functions on a tree: `Stat`, `MkdirAll`, `WriteFile`, `ReadFile`, `Rename`,
  `RemoveAll` and `ReadDir`. Each reports the Unix error its arguments would
  get on that tree: `ENOENT`, `ENOTDIR`, `EISDIR`, or `EEXIST` when renaming
  onto a directory.
- `Names` defines the order in which `os.ReadDir` lists a directory: by name,
  in code point order, which is the byte order of UTF-8.
- `Locks` is the mutex registry. A mutex is represented by its identity; the
  `Table` type guarantees that two collections never share a mutex.
- `Store` is the driver. Each operation takes the driver and the filesystem
  (`State`). It returns the new state and the error (`Step`), or, for the
  reads, which change nothing, a `Result`. The JSON serializer is a `Codec`,
  a pair of uninterpreted encode/decode functions that may fail.
  `RoundTrips(codec)` states the decoding law as a hypothesis.
- `WriteLaws`, `ReadLaws` and `DeleteLaws` state and prove the properties
  that relate the operations.

The model follows the code as written. In these places the code does
something that its own error messages, or a caller, might not expect:

- `Write` and `Read` do not reject empty collection or resource names. The
  errors they build are discarded (main.go:64-70, main.go:99-105).
  `Store.Write` and `Store.Read` never return `MissingCollection`.
- `Write` stores an empty resource name as `<collection>/.json`. `Read` of
  the empty name checks `<collection>` and reads `<collection>.json`, so such
  a record cannot be read back (`ReadLaws.EmptyResourceNotReadBack`).
- `ReadAll` checks existence with the `stat` helper, so a `<collection>.json`
  file alone passes the check. The listing that follows then fails, its error
  is ignored, and the result is an empty list.
- `Delete` classifies the bare path `<collection>/<resource>`. A regular file
  there makes it remove `<resource>.json` and keep the bare file. When only
  `<resource>.json` exists and is a directory, `Delete` removes the absent
  bare path, which does nothing, and reports success.
- `os.ReadDir` returns entries sorted by name, so `ReadAll` returns records
  in name order.

## Model

| member | source | states |
|---|---|---|
| `Store.StatOrJson` | main.go:183-188 | An existing path yields its own entry. An absent path that can be reached yields the entry of `path.json` and succeeds exactly when that exists. When neither exists, the error is ENOENT naming `path.json`. A path blocked by a regular file (ENOTDIR) fails with that error and has no fallback. Success means one of the two paths exists. |
| `Store.New` | main.go:36-61 | The registry starts empty and the root is kept. If anything already exists at the root, even a regular file, the filesystem is unchanged and the result is success. Otherwise it succeeds exactly when no regular file lies on the way to the root, and then the root is a directory. It adds only directories on the way to the root and changes no existing entry. On error the filesystem is unchanged. |
| `Fs.Join` | main.go:76-77 | Joining a directory and a name adds the name as one more component under the directory. An empty name leaves the directory unchanged, because `filepath.Join` drops empty elements. |
| `Fs.AddSuffix` | main.go:185 | Appending an extension changes only the last component and keeps its parent. On the working directory "." it gives the single name "." followed by the extension. |
| `Store.CollectionDir` | main.go:76 | The collection directory is a child of the root named after the collection. An empty collection name resolves to the root itself. |
| `Store.RecordPath` | main.go:77 | The record file is the child `<resource>.json` of the collection directory. |
| `Store.TempPath` | main.go:78 | The temporary file is the sibling `<resource>.json.tmp` of the record file, in the same directory, and differs from it. |
| `Store.Target` | main.go:107 | The bare path of a record is the child `<resource>` of the collection directory. An empty resource name resolves to the collection directory itself. |
| `Locks.Empty` | main.go:50 | A new driver's registry holds no mutex. |
| `Locks.GetOrCreateMutex` | main.go:170-181 | The returned mutex is registered under the name. The registry's names grow by exactly that name, and existing entries keep their mutex. A known name returns its mutex and leaves the registry as it was. A new name gets a mutex that no other collection has. |
| `Locks.GetOrCreateMutexIdempotent` | main.go:174-180 | A second call with the same name returns the same mutex and the same registry. |
| `Store.Locked` | main.go:72-74 | Taking a collection's mutex registers the name, keeps every other registry entry, and changes neither the root nor the filesystem. |
| `Store.Write` | main.go:63-96 | Write registers the collection's mutex, even for an empty name, and changes nothing else in the driver. Its only errors are filesystem and encoding errors: empty names are never rejected. |
| `WriteLaws.WriteSucceedsIff` | main.go:76-95 | Write succeeds exactly when four things hold: no regular file lies on the way to the collection directory, the value encodes, the temporary path is not a directory, and the record path is not a directory. |
| `WriteLaws.WriteEffects` | main.go:76-95 | After a successful Write, `<resource>.json` holds the encoding followed by a newline, the `.tmp` file is absent, and the collection directory exists. Every other previous entry is unchanged. Every new entry is a directory on the way to the collection. |
| `WriteLaws.WriteFailure` | main.go:80-95 | After a failed Write the record file is exactly as before. If the failure is not the rename's, the only change is new directories on the way to the collection. If the rename fails, the `.tmp` file holding the encoding is also left behind. |
| `WriteLaws.RecordPathsInCollection` | main.go:76-78 | The record path and the temporary path are distinct entries directly inside the collection directory. |
| `WriteLaws.WriteOverSameRecord` | main.go:76-95 | Suppose the mutex is registered, the collection directory exists, there is no `.tmp` file, and the record already holds the value's encoding. Then Write returns success and leaves the state unchanged. |
| `WriteLaws.WriteIdempotent` | main.go:63-96 | Repeating a successful Write with the same value returns the same result and state. |
| `Store.Read` | main.go:98-118 | A successful Read means `<resource>.json` is a regular file whose contents decode to the returned value. When neither the bare name nor `<resource>.json` exists and no regular file blocks the way, Read fails with the stat error ENOENT naming `<resource>.json`. When a regular file blocks the bare name, it fails with ENOTDIR naming the bare name. It never rejects empty names. |
| `ReadLaws.TargetOfResource` | main.go:107-112 | For a non-empty resource name, Read's bare path is the resource inside the collection directory, and its `.json` path is exactly the file Write stores. |
| `ReadLaws.StatFindsRecord` | main.go:183-188 | Inside an existing directory, the stat helper finds a name exactly when the bare name or `name.json` exists. |
| `ReadLaws.ReadRecord` | main.go:107-117 | Take a non-empty resource name whose record file is a regular file in an existing collection directory. Read succeeds exactly when the file's bytes decode, and it returns the decoded value. Otherwise the error is `UnmarshalFailed`. |
| `ReadLaws.WriteThenRead` | main.go:107-117 | After a successful Write of `v` under a non-empty resource name, Read returns `decode(encode(v) ++ "\n")`. It fails with `UnmarshalFailed` exactly when that decoding fails. |
| `ReadLaws.WriteThenReadRoundTrip` | main.go:84-117 | If the codec reads back what it writes, Read after a successful Write returns the value written. |
| `ReadLaws.EmptyResourceNotReadBack` | main.go:76-112 | A record written under an empty resource name cannot be read back when `<collection>.json` does not exist. |
| `ReadLaws.CollectionJsonUntouched` | main.go:76-95 | A Write under the empty resource name never creates `<collection>.json`. It stores the record inside the collection directory instead. |
| `Store.ReadEntries` | main.go:133-143 | Reading the listed entries succeeds exactly when every entry can be read, and then it returns their contents in listing order. Otherwise the error is that of the first entry that cannot be read. |
| `Store.ReadAll` | main.go:120-144 | An empty name is rejected. The call fails when neither the collection nor `<collection>.json` exists. If no regular file blocks the way, the error is the stat error ENOENT naming `<collection>.json`. If one blocks the collection path, it is ENOTDIR naming that path. Success without a collection directory yields no records. Success with one yields one record per listed entry, holding that entry's file contents, in listing order. On failure inside an existing collection directory, the error is that of the first listed entry that cannot be read. |
| `ReadLaws.ReadAllOfDirectory` | main.go:131-143 | For an existing collection directory, ReadAll succeeds exactly when every entry is a regular file, and then every entry's contents are among the records. On failure some entry is a directory, and the error is the read error for that entry. |
| `ReadLaws.ReadAllWithoutDirectory` | main.go:127-131 | A collection that exists only as a regular file, or only as `<collection>.json`, passes the existence check, and ReadAll returns no records. |
| `ReadLaws.WriteThenReadAll` | main.go:120-144 | After a successful Write into a named collection, ReadAll either returns the stored bytes among its records or fails because the collection holds a subdirectory. |
| `Store.Delete` | main.go:146-168 | An empty collection name is rejected and nothing changes. Otherwise the collection's mutex is registered. Delete only ever removes entries and never alters one. When neither the bare path nor `.json` exists, it reports "unable to find" with the joined name and leaves the filesystem unchanged. |
| `DeleteLaws.DeleteDirectory` | main.go:158-162 | When the bare path is a directory, Delete succeeds and removes exactly that directory and everything beneath it. |
| `DeleteLaws.DeleteCollection` | main.go:151-162 | With an empty resource name the joined path is the collection itself, and Delete removes the whole collection subtree and nothing else. |
| `DeleteLaws.DeleteCollectionThenRead` | main.go:156-162 | After a collection is deleted, Read of any non-empty resource name in it fails with the stat error ENOENT naming the record file `<resource>.json`. |
| `DeleteLaws.DeleteBareFile` | main.go:163-164 | When the bare path is a regular file, Delete succeeds but removes only `<resource>.json` and its subtree. The bare file remains. If `.json` is not a directory, exactly that one entry goes. |
| `DeleteLaws.DeleteStoredRecord` | main.go:158-165 | When only `<resource>.json` exists and it is a regular file, Delete succeeds and the result is the old filesystem minus that one file. |
| `DeleteLaws.DeleteJsonDirectoryIsNoOp` | main.go:158-162 | When the bare path is absent and `<resource>.json` is a directory, Delete reports success and changes nothing. |
| `DeleteLaws.WriteDeleteRead` | main.go:146-168 | Take a successful Write under a fresh name. A Delete of that name then succeeds and removes the record file. A later Read fails with the stat error ENOENT naming that record file. |
| `Fs.Lookup` | main.go:184 | Path resolution succeeds exactly for existing paths and returns their entry. It fails with ENOTDIR exactly when a regular file blocks the way, and with ENOENT otherwise. |
| `Fs.Stat` | main.go:54 | `os.Stat` succeeds exactly for existing paths. Its error names the path and is ENOTDIR exactly when a regular file blocks the way. |
| `Fs.MkdirAll` | main.go:80 | `os.MkdirAll` succeeds exactly when every existing prefix of the path is a directory. It then leaves the path a directory, keeps every entry, and adds only directories on the way. On failure the error is ENOTDIR. |
| `Fs.WriteFile` | main.go:91 | `os.WriteFile` succeeds exactly on an existing regular file, or on an absent path whose parent is a directory. It sets that one entry and keeps the others. |
| `Fs.Rename` | main.go:95 | Renaming a file within its directory succeeds exactly when the target is not a directory. The source then disappears and the target holds the source's contents. Otherwise the error is EEXIST naming both paths. |
| `Fs.ReadFile` | main.go:112 | `os.ReadFile` succeeds exactly on a regular file and returns its contents. A directory fails with EISDIR and an absent path with ENOENT or ENOTDIR. |
| `Fs.RemoveAll` | main.go:162 | `os.RemoveAll` keeps exactly the entries that are not beneath the path, with their contents unchanged. |
| `Fs.SiblingsBlockedTogether` | main.go:183-188 | A path and the path with an extension appended (such as its `.json` sibling) are blocked by a regular file together or not at all. |
| `Fs.RemoveMissing` | main.go:162 | Removing a path that does not exist changes nothing. |
| `Fs.RemoveFile` | main.go:164 | Removing a regular file removes that entry only. |
| `Fs.ReadDir` | main.go:131 | `os.ReadDir` succeeds exactly on a directory. It lists every entry of the directory once, sorted by name. |
| `Names.Sorted` | main.go:131 | The listing holds exactly the names of the set, strictly increasing in name order. |
| `Names.Least` | main.go:131 | The chosen name is in the set and sorts no later than any other. |

## Left out

- Concurrency: the blocking of `sync.Mutex` and the registry's own mutex are not modelled. Only the registry's contents are. Operations are sequential state transitions.
- Crash atomicity: the rename is one atomic map update, and a crash between the steps of a write is not modelled.
- Permission bits 0755/0644 and OS failures that the shape of the tree does not decide (permissions, full disk, I/O errors) are not modelled. Each OS call fails only with the error the tree determines.
- JSON: `json.MarshalIndent` and `json.Unmarshal` are the uninterpreted `Codec`. The round-trip law is the hypothesis `RoundTrips` and is not proved. Decoding into the caller's variable becomes returning the decoded value.
- Path syntax: `filepath.Clean`/`Join` normalisation of `.`, `..` and separators is not modelled. Names are opaque single components. The only `Join` behaviour kept is that it drops an empty name. The root is a path relative to the working directory `[]`, and absolute roots are not modelled.
- Names are Dafny strings of Unicode scalar values, while Go file, collection and resource names are byte strings. A name that is not valid UTF-8 cannot be represented. The listing order is the byte order of the UTF-8 encoding only for names the model can represent.
- File types other than regular files and directories (symlinks, devices) are not modelled, so `Delete`'s fall-through case, which is neither a directory nor a regular file, cannot occur.
- `Fs.Rename`: only renaming a regular file to a sibling in the same directory is modelled, because that is the driver's only use of `os.Rename`.
- `Fs.RemoveAll`: it never removes the working directory itself, and its errors are not modelled, because `Delete` ignores them.
- `ReadAll`'s `nil` and empty slices are both the empty sequence, and records are returned as bytes, which is what `string(b)` carries.
- The `lumber` logger, the `Logger` interface, `Options`, the `Address`/`User` demo types and `main` (main.go:190-260) are demo and logging glue.
