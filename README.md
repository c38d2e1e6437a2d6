# repoSpanner client core, modelled in Dafny

This project models the client side of repoSpanner inside libgit2. It has three parts:

- **The reference backend** (`src/refdb_repospanner.c`). The server's reference list is a
  stream of `type NUL name NUL value` lines. It is read chunk by chunk into one growable
  buffer, parsed line by line into a reference cache kept sorted by `strcmp` of the names,
  and installed in the backend only when the whole load succeeds. `exists` and `lookup` are
  exact-name lookups into that cache. An iterator walks a private copy of the cache by
  position, skipping the names its glob rejects. Every other backend entry point is a stub.
- **The shared client** (`src/repospanner.c`). It decides whether a repository uses
  repoSpanner, keeps a process-wide registry with one client per repository directory, and
  reads the four required settings in order. It also builds request URLs and classifies the
  outcome of a transfer as success, "not found" (HTTP 404, section 15.5.5 of RFC 9110) or
  error.
- **The object backend** (`src/odb_repospanner.c`). It computes the request path and the
  loose-object staging path of an object and fetches the object into that file. The file is
  removed when the transfer fails. Reads go to the local object store only after a
  successful fetch.

The model follows the code as written, including three guards that do not do what they
appear to do:

- The type guard at `src/refdb_repospanner.c:120` asks for a type equal to both `"real"` and
  `"symb"`, so it never rejects anything.
- The length check at `src/refdb_repospanner.c:128` applies only to types other than
  `"real"`. The model ends a record's value at the line's '\n' (see "Left out"). Under that
  reading, a record of an unknown type with a 40-byte value is stored like a `"real"` one. In
  the C code the value runs on past the '\n', and such a record fails.
- The trailing-slash test at `src/repospanner.c:182` reads the string's terminator, so the
  base URL is never shortened.

A `"real"` record is read from its value's first 40 bytes; whatever follows them on the line is
ignored (`RefParse.DirectRecord`). `has_log` answers 0 ("no log") without an error, and
`compress` succeeds; every other reference-backend stub fails (`RefdbRepoSpanner.Stub`).

Structure:

- `RefParse` holds the reference-list parser as functions.
- `RefdbRepoSpanner` holds the objects the C code mutates, as classes whose methods are proved
  against those functions:
  - the retriever, which consumes its buffer in place;
  - the backend, whose cache field is set by the first successful load;
  - the iterator, which advances its position field.
- `SortedCaches` models `git_sortedcache` as a strictly sorted sequence of items. It is used
  for both the reference cache and the client registry.
- `CStrings` models `strcmp` order and the C-string view of a buffer.
- `Oids` models object ids and their hexadecimal forms.
- `Glob` models `fnmatch` without flags.

The network, the configuration store and the file system are inputs:

- The reference transfer is a `RefsResponse`: the body as a list of chunks, curl's result
  code and the HTTP status.
- An object transfer is a `Response`: curl's result code and the HTTP status.
- The configuration is a map from key to setting.
- The file system is a set of paths, with the results of `mkdir` and `fopen` passed in.

## Model

| member | source | states |
|---|---|---|
| CStrings.StrCmp | src/refdb_repospanner.c:206-210 | `strcmp`'s sign: negative exactly when the first name sorts before the second, zero exactly when they are equal, positive exactly when the second sorts first |
| CStrings.LessIrreflexive | src/refdb_repospanner.c:209 | no name sorts before itself in `strcmp` order |
| CStrings.LessAsymmetric | src/refdb_repospanner.c:209 | two names never sort before each other |
| CStrings.LessTransitive | src/refdb_repospanner.c:209 | `strcmp` order is transitive |
| CStrings.LessTotal | src/refdb_repospanner.c:209 | any two distinct names are ordered one way or the other |
| CStrings.IndexOf | src/refdb_repospanner.c:164-169 | the position found holds the byte searched for and no earlier byte does; when nothing is found, no byte is it |
| CStrings.IndexOfPrefix | src/refdb_repospanner.c:194 | appending bytes to a buffer that already holds a '\n' does not move its first '\n' |
| CStrings.CStr | src/refdb_repospanner.c:128 | the string a pointer into a buffer denotes is the buffer's prefix up to its first NUL, and holds no NUL |
| Glob.StarMatchesAll | src/refdb_repospanner.c:336 | the glob `*` matches every name, '/' included |
| Glob.PrefixStarMatches | src/refdb_repospanner.c:336 | a literal prefix followed by `*` matches exactly the names that start with that prefix |
| Oids.Encode | src/odb_repospanner.c:73 | bytes are written as twice as many hexadecimal digits |
| Oids.Decode | src/refdb_repospanner.c:144 | a digit string decodes exactly when it has even length and only hexadecimal digits, into half as many bytes |
| Oids.DecodeEncode | src/refdb_repospanner.c:144 | decoding the encoding of any bytes gives the bytes back |
| Oids.EncodeDecode | src/refdb_repospanner.c:144 | encoding decoded digits gives the digits back in lower case |
| Oids.FromHex | src/refdb_repospanner.c:144 | `git_oid_fromstrn(…, 40)` succeeds exactly on 40 hexadecimal digits of either case |
| Oids.ToHex | src/odb_repospanner.c:73 | an id is written as 40 hexadecimal digits |
| Oids.FromHexToHex | src/odb_repospanner.c:73 | an id written out and read back is the same id |
| Oids.ToHexFromHex | src/refdb_repospanner.c:144 | 40 digits read and written back are the same digits in lower case |
| Oids.PathFmt | src/odb_repospanner.c:50-52 | the loose-object name is 41 bytes: the id's first two digits, '/', then the other 38 |
| SortedCaches.Find | src/refdb_repospanner.c:74 | a lookup finds nothing exactly when no item has the key |
| SortedCaches.FindAt | src/refdb_repospanner.c:279 | in a sorted cache every item is what a lookup of its key returns |
| SortedCaches.Upserted | src/refdb_repospanner.c:139 | after an upsert the cache holds the new item, keeps every item with another key, gains nothing else, and grows by at most one |
| SortedCaches.UpsertSorted | src/refdb_repospanner.c:223-225 | upserting keeps the cache in strictly increasing `strcmp` order of its keys |
| SortedCaches.FindUpsert | src/refdb_repospanner.c:139-142 | after an upsert the key finds the new value and every other key finds what it found before |
| SortedCaches.SortedCache.constructor | src/refdb_repospanner.c:223-227 | a new cache is empty |
| SortedCaches.SortedCache.Lookup | src/refdb_repospanner.c:279 | the lookup loop returns exactly what `Find` gives for the cache's items |
| SortedCaches.SortedCache.Upsert | src/refdb_repospanner.c:139 | the upsert updates the items in place to `Upserted` of the old items, and the cache stays sorted |
| SortedCaches.SortedCache.Copy | src/refdb_repospanner.c:397 | the copy is a new cache object with the same items |
| RepoSpanner.GetString | src/repospanner.c:143 | reading a key succeeds exactly when it is set to a readable text; an absent key is ENOTFOUND |
| RepoSpanner.CheckRepoSpanner | src/repospanner.c:63-82 | OK exactly when a configuration exists and its enablement flag reads true; ENOTFOUND with no configuration or a false flag; a failed read's error unchanged |
| RepoSpanner.ReadRequired | src/repospanner.c:143-149 | a required setting is read as stored; an absent one becomes GIT_ERROR naming the option; any other failure passes through unchanged |
| RepoSpanner.ReadSettings | src/repospanner.c:143-179 | the settings are read in the order url, cert, key, cacert; success exactly when all four are read, with each value as stored; otherwise the error of the first failing read |
| RepoSpanner.NormaliseAsWritten | src/repospanner.c:181-183 | the test reads the terminator, so the base URL is kept exactly as read |
| RepoSpanner.Client.constructor | src/repospanner.c:109 | a registry item is created for the repository directory with its fields empty |
| RepoSpanner.ClientCmp | src/repospanner.c:48-52 | clients are ordered by `strcmp` of their repository directories |
| RepoSpanner.RegistryKeysUnique | src/repospanner.c:48-52 | a registry ordered by `client_cmp` holds at most one client per directory |
| RepoSpanner.GetClient | src/repospanner.c:89-198 | not enabled: the check's error, and the registry is unchanged. Already registered: that same client, and the registry is unchanged. Otherwise a new client is registered under the directory; on success its URL and TLS files are the settings as read, and on failure the first failing read's code and the missing option are returned |
| RepoSpanner.JoinPath | src/repospanner.c:206 | the joined path starts with the base; an empty base gives the path itself |
| RepoSpanner.PrepareRequest | src/repospanner.c:200-218 | the request URL is the base URL joined with the path, with one '/' between a base without a trailing '/' and a path without a leading one |
| RepoSpanner.CheckCurl | src/repospanner.c:220-241 | OK exactly when the transfer succeeded; ENOTFOUND exactly for an HTTP error with status 404; GIT_ERROR otherwise |
| RefParse.SplitFieldsParts | src/refdb_repospanner.c:102-118 | the fields found are the bytes before the first NUL, the bytes between the first and second NUL, and the rest; the first two hold no NUL |
| RefParse.SplitFieldsFails | src/refdb_repospanner.c:115-118 | a line fails to split exactly when it holds fewer than two NULs |
| RefParse.SplitFieldsOf | src/refdb_repospanner.c:102-113 | a line built from a NUL-free type and name and any value splits back into exactly those three fields |
| RefParse.RecordKindOf | src/refdb_repospanner.c:120-131 | a record is symbolic exactly when its type is "symb"; it is rejected exactly when its type is neither "symb" nor "real" and its value (ended at the '\n', see "Left out") is not 40 bytes long |
| RefParse.ValueOid | src/refdb_repospanner.c:144-147 | the value yields an id exactly when its first 40 bytes are hexadecimal digits, and the id is what they spell |
| RefParse.ResolveSymbolic | src/refdb_repospanner.c:68-94 | an absent target leaves the cache unchanged; a present one makes the name find the target's id, and every other name finds what it found before |
| RefParse.ParseRef | src/refdb_repospanner.c:96-152 | a line answers OK or GIT_ERROR, and a line without two NULs fails without touching the cache |
| RefParse.ParseFields | src/refdb_repospanner.c:120-151 | once split, a line answers OK or GIT_ERROR |
| RefParse.RealRecordStored | src/refdb_repospanner.c:133-151 | a "real" record upserts its name with exactly the id written in the line |
| RefParse.DirectRecord | src/refdb_repospanner.c:128-147 | a "real" record, or any non-"symb" record whose value is 40 bytes long, upserts its name with the id of the value's first 40 bytes; a value that does not start with 40 digits fails the parse |
| RefParse.UnknownTypeRejected | src/refdb_repospanner.c:128-131 | a record of an unknown type whose value is not 40 bytes long fails and leaves the cache unchanged |
| RefParse.SymbolicRecord | src/refdb_repospanner.c:125-126 | a "symb" record answers OK; its name gets the target's id when the target is present, and the cache is unchanged otherwise |
| RefParse.LaterRecordWins | src/refdb_repospanner.c:139-147 | of two "real" records for one name, the later one's id is the one kept |
| RefParse.ParseRefSorted | src/refdb_repospanner.c:96-152 | parsing one line keeps the cache in `strcmp` order |
| RefParse.ParseLines | src/refdb_repospanner.c:154-187 | the parse answers OK or GIT_ERROR. On OK nothing buffered holds a '\n', and a final OK leaves nothing buffered. A failure leaves something buffered. Without a '\n' nothing changes, and the answer is OK exactly when the call is not final or the buffer is empty |
| RefParse.ParseLinesStopsAtFailure | src/refdb_repospanner.c:171-183 | on failure, either the first line left in the buffer is one that fails whatever the cache, or no '\n' is left and the call is final with bytes still buffered |
| RefParse.ParseLinesConsumesLines | src/refdb_repospanner.c:182-185 | what stays buffered is a suffix of the buffer that starts right after a '\n' (or is all of it), so only whole lines are consumed |
| RefParse.ParseLinesSorted | src/refdb_repospanner.c:160-186 | parsing a buffer keeps the cache in `strcmp` order |
| RefParse.ParseMore | src/refdb_repospanner.c:194-198 | appending bytes to the buffer leaves the complete lines before them parsed as before; the appended bytes join what a non-final parse left buffered |
| RefParse.Feed | src/refdb_repospanner.c:189-203 | when every chunk is accepted, what stays buffered holds no '\n' |
| RefParse.FeedConcat | src/refdb_repospanner.c:189-203 | if every chunk is accepted, a final parse of what is left ends exactly as a final parse of the whole stream; if one is refused, parsing the whole stream fails with the same cache |
| RefParse.LoadRefs | src/refdb_repospanner.c:213-261 | a load succeeds only after a successful transfer; it fails with GIT_ERROR or ENOTFOUND, and with ENOTFOUND exactly when every chunk was accepted and the server answered 404 |
| RefParse.LoadIsChunkIndependent | src/refdb_repospanner.c:239-248 | after a successful transfer the load is one final parse of the whole body from an empty cache, however the body was cut into chunks |
| RefParse.LoadedSorted | src/refdb_repospanner.c:223-250 | a loaded cache is in `strcmp` order |
| RefParse.FeedSorted | src/refdb_repospanner.c:189-203 | feeding chunks keeps the cache in `strcmp` order |
| RefParse.ParseRecord | src/refdb_repospanner.c:96-152 | the line of a well-formed record parses, keeps the cache sorted, and does to the cache what the record means for the name-to-id map |
| RefParse.ParseRealRecord | src/refdb_repospanner.c:133-151 | the line of a "real" record upserts the name with its id, and the cache then agrees with the map updated at that name |
| RefParse.ParseSymbRecord | src/refdb_repospanner.c:68-94 | the line of a "symb" record resolves its target, keeps the cache sorted, and agrees with the map after the record |
| RefParse.ParseRendered | src/refdb_repospanner.c:154-187 | the body of well-formed records parses completely, in either mode, into a sorted cache agreeing with replaying the records in order |
| RefParse.LoadRendered | src/refdb_repospanner.c:213-251 | a successful transfer of well-formed records loads, in any chunking, a sorted cache that finds for each name the id replaying the records gives it |
| RefdbRepoSpanner.PackRefCmp | src/refdb_repospanner.c:206-210 | references compare by `strcmp` of their names |
| RefdbRepoSpanner.ParseSymbRef | src/refdb_repospanner.c:68-94 | the lookup-then-upsert leaves the cache as `ResolveSymbolic` says, and always answers OK |
| RefdbRepoSpanner.FindFields | src/refdb_repospanner.c:102-118 | the byte scan that notes where the name and the value start finds exactly the split `SplitFields` defines |
| RefdbRepoSpanner.ParseRef | src/refdb_repospanner.c:96-152 | the in-place parse of one line answers and changes the cache as `RefParse.ParseRef` says |
| RefdbRepoSpanner.FindNewline | src/refdb_repospanner.c:164-169 | the scan finds the buffer's first '\n', or none |
| RefdbRepoSpanner.RefRetrieve.constructor | src/refdb_repospanner.c:232-237 | a retriever starts with an empty buffer and the new cache as its target |
| RefdbRepoSpanner.RefRetrieve.WriteParse | src/refdb_repospanner.c:154-187 | the loop's answer, the buffer it leaves and the cache it leaves are exactly `ParseLines` of the old buffer and cache |
| RefdbRepoSpanner.RefRetrieve.WriteCallback | src/refdb_repospanner.c:189-203 | the chunk is appended and parsed non-finally; the callback accepts it (returns its length) exactly when that parse succeeds, and answers -1 otherwise |
| RefdbRepoSpanner.Deliver | src/refdb_repospanner.c:239-243 | delivering the chunks leaves the buffer and cache `Feed` gives; the transfer reports a write error exactly when a chunk is refused |
| RefdbRepoSpanner.NextMatch | src/refdb_repospanner.c:331-342 | the next position returned holds a selected name, and every position skipped holds a rejected one |
| RefdbRepoSpanner.RemainingStep | src/refdb_repospanner.c:331-344 | one step returns the first name of what remains and leaves the rest |
| RefdbRepoSpanner.RemainingSorted | src/refdb_repospanner.c:324-368 | an iterator returns exactly the selected names of the cache from its position, each once, in strictly increasing `strcmp` order |
| RefdbRepoSpanner.GlobPrefixWalk | src/refdb_repospanner.c:336 | over "feat/a", "feat/b" and "main", a `feat/` glob ending in '*' yields "feat/a" then "feat/b" |
| RefdbRepoSpanner.RefIterator.constructor | src/refdb_repospanner.c:395-403 | a new iterator holds the copy and the glob, at position 0 |
| RefdbRepoSpanner.RefIterator.Next | src/refdb_repospanner.c:324-345 | `next` returns the reference at the next selected position and moves just past it, or returns ITEROVER with the position at the entry count |
| RefdbRepoSpanner.RefIterator.NextName | src/refdb_repospanner.c:347-368 | `next_name` does the same and returns only the name |
| RefdbRepoSpanner.RefdbBackend.constructor | src/refdb_repospanner.c:549-554 | a backend starts with its client and no cache |
| RefdbRepoSpanner.RefdbBackend.EnsureRefsLoaded | src/refdb_repospanner.c:213-261 | an installed cache is kept without a request. Otherwise a new cache is installed exactly when the load succeeds; a failed load installs nothing and returns its error. OK exactly when a cache is then installed |
| RefdbRepoSpanner.RefdbBackend.Exists | src/refdb_repospanner.c:263-286 | after loading, `exists` is true exactly when the cache holds the name |
| RefdbRepoSpanner.RefdbBackend.Lookup | src/refdb_repospanner.c:294-322 | after loading, the lookup returns the name with its id, or ENOTFOUND when the cache does not hold it; a failed load returns its error |
| RefdbRepoSpanner.RefdbBackend.Iterator | src/refdb_repospanner.c:379-416 | after loading, the iterator gets a fresh copy of the cache and the glob, at position 0; a failed load returns its error and no iterator |
| RefdbRepoSpanner.Stub | src/refdb_repospanner.c:418-525 | `compress` and `has_log` answer 0; every other stub fails with EINVALID and the message "function <name> not implemented for repoSpanner" |
| OdbRepoSpanner.ObjectRequestPath | src/odb_repospanner.c:71-74 | the request path is "simple/object/" followed by 40 digits that read back as the id |
| OdbRepoSpanner.GetRequestForObject | src/odb_repospanner.c:67-77 | the request URL is the client's base URL joined with the object's request path |
| OdbRepoSpanner.ToDir | src/odb_repospanner.c:48 | a non-empty directory ends in '/' afterwards; a '/' is added only when missing |
| OdbRepoSpanner.StagingPath | src/odb_repospanner.c:41-53 | the staging path is the directory as a directory, then the first two digits, '/', and the other 38; with its NUL it fits the buffer grown to the directory's length plus 43 |
| OdbRepoSpanner.StagingPathInjective | src/odb_repospanner.c:50-53 | distinct objects are staged at distinct paths |
| OdbRepoSpanner.ObjectFileName | src/odb_repospanner.c:35-58 | the successive appends build exactly the staging path; the result is what creating its directories returned |
| OdbRepoSpanner.RetrieveOutcome | src/odb_repospanner.c:94-126 | a fetch succeeds exactly when the directories were made, the file opened and the transfer succeeded. A failed mkdir returns its own error, a file that cannot be opened gives GIT_ERROR, and otherwise the transfer's classification is returned |
| OdbRepoSpanner.FilesAfter | src/odb_repospanner.c:107-125 | only the staging path can change; once the file is opened, it exists afterwards exactly when the fetch succeeded |
| OdbRepoSpanner.FailedFetchLeavesNoFile | src/odb_repospanner.c:113-125 | a failed fetch never leaves a staging file that was not there before, and removes it when it was opened |
| OdbRepoSpanner.FileSystem.Open | src/odb_repospanner.c:107 | opening for writing creates the file exactly when the environment allows it |
| OdbRepoSpanner.FileSystem.Unlink | src/odb_repospanner.c:123 | unlinking removes just that path |
| OdbRepoSpanner.RetrieveFile | src/odb_repospanner.c:94-126 | `retrieve_file` answers `RetrieveOutcome` and leaves the files `FilesAfter` describes |
| OdbRepoSpanner.ExistsResult | src/odb_repospanner.c:134-141 | `exists` is 1 exactly for a successful fetch and 0 exactly for ENOTFOUND; any other error is passed on |
| OdbRepoSpanner.ExistsFromResponse | src/odb_repospanner.c:129-142 | once the file is opened: 1 exactly when the transfer succeeds, 0 exactly for a 404, GIT_ERROR otherwise |
| OdbRepoSpanner.Exists | src/odb_repospanner.c:129-142 | `impl__exists` answers `ExistsResult` of the fetch and leaves the files the fetch leaves |
| OdbRepoSpanner.ReadResult | src/odb_repospanner.c:149-152 | a failed fetch returns its error; only a successful one returns what the local store reads |
| OdbRepoSpanner.ReadIgnoresStoreOnFailure | src/odb_repospanner.c:144-164 | after a failed fetch, `read` and `read_header` return the fetch's error whatever the local store holds |
| OdbRepoSpanner.Read | src/odb_repospanner.c:144-153 | `impl__read` answers `ReadResult` of the fetch and leaves the files the fetch leaves |
| OdbRepoSpanner.ReadHeaderResult | src/odb_repospanner.c:160-163 | a failed fetch returns its error; only a successful one returns what the local store's header read returns |
| OdbRepoSpanner.ReadHeader | src/odb_repospanner.c:155-164 | `impl__read_header` answers `ReadHeaderResult` of the fetch and leaves the files the fetch leaves |
| OdbRepoSpanner.Write | src/odb_repospanner.c:79-92 | writing an object always fails with EINVALID and the message "function write not implemented for repoSpanner" |

## Left out

- RefParse.ParseRef: the value is taken to end at the line's '\n'. In the C code the value is a
  C string that runs past the '\n' into the rest of the buffer, up to the next NUL
  (src/refdb_repospanner.c:74, 110, 128). The two agree when the value holds a NUL before the
  '\n'. When it holds none, the C code differs from the model in two ways:
  - A `"symb"` record looks up a name that contains the '\n'. No cached name contains one,
    because names are cut from within a line, so the C code never resolves such a record and
    skips it. The model resolves it when the target is present (`RefParse.SymbolicRecord`,
    `RefParse.ParseRendered`, `RefParse.LoadRendered`).
  - A record of an unknown type always fails. Its `strlen` is at least the value's length plus
    one, so a 40-byte value fails the check at :128. A value short enough to pass has the '\n'
    within its first 40 bytes, so `git_oid_fromstrn` at :144 fails. The model stores such a
    record when its value is exactly 40 hexadecimal digits (`RefParse.RecordKindOf`,
    `RefParse.DirectRecord`).
  `"real"` records behave the same under both readings: the id is read from the first 40 bytes,
  and a shorter value meets the '\n' and fails.
- RefParse.ParseFields: when the value does not start with 40 hexadecimal digits, the item is
  already upserted. The model stores the zero id in it. The digits `git_oid_fromstrn` may have
  decoded before it stopped are not modelled.
- RepoSpanner.GetClient: on failure the C code frees the client but leaves it registered
  (src/repospanner.c:191-197). The model leaves the entry registered with the fields set so
  far; the dangling pointer is not modelled.
- RepoSpanner.GetClient: curl handle and share creation, all `setopt` policy, the user agent and
  the debug variable are not modelled (src/repospanner.c:112-139). A failed handle
  initialisation, which returns 0, is left out for the same reason.
- RepoSpanner.GetBool: only the spellings "true", "yes", "on", "1", "false", "no", "off", "0"
  and the empty string are read. Git's other integer spellings are not modelled.
- RepoSpanner.PrepareRequest: the duplication of the base handle and the failure of that
  duplication or of setting the URL are not modelled; only the URL is.
- RepoSpanner.JoinPath: states only how the URL begins, not the full `git_buf_joinpath` behaviour
  for paths with several leading '/'.
- RefdbRepoSpanner.RefIterator.Next: a `git_reference__alloc` failure (GIT_ERROR) and the NULL
  entry branch for a cache entry that is missing (src/refdb_repospanner.c:333) are not modelled.
  Entries of a sequence always exist.
- RefdbRepoSpanner.RefdbBackend.Lookup: a `git_reference__alloc` failure (-1) is not modelled.
- RefdbRepoSpanner.RefdbBackend.Exists: a failure to take the cache's read lock is not modelled;
  all locking is left out, as the model is sequential.
- RefdbRepoSpanner.RefdbBackend.EnsureRefsLoaded: failures of `git_sortedcache_new`, of
  `git__calloc` and of buffer initialisation, and the freeing of the request and buffer, are not
  modelled. The fail path's uninitialised `req` and `retriever` are not modelled either.
- OdbRepoSpanner.RetrieveFile: the `fclose` failure path (src/odb_repospanner.c:117-123), which
  closes twice and returns OK after unlinking, is not modelled. A failed request preparation is
  not modelled either.
- OdbRepoSpanner.ObjectFileName: the directories `git_futils_mkdir_relative` creates are not
  modelled; its result is an input.
- Glob.Matches: `fnmatch` bracket expressions and backslash escapes are not modelled; only `*`,
  `?` and literal bytes are.
- The backend constructors `git_refdb_backend_repospanner` and `git_odb_backend_repospanner`
  are not modelled. They only wire function tables and copy the objects directory;
  `RefdbBackend.constructor` gives their state once the client is obtained.
- `repospanner_global_init` is the empty registry (`SortedCache.constructor`). Registry locking
  is not modelled.
- The internals of `git_sortedcache` (its binary search, pool and locks) are not modelled. It is
  a strictly sorted sequence with a linear lookup.
- Peeled ids and reference flags are not modelled; the code leaves them unset.
- Object payloads are not parsed by this code. The local store is a pair of functions.
- src/repospanner.h holds declarations only.
