/**
 * The object database backend of src/odb_repospanner.c. An object is
 * fetched from the server into its loose-object path under the objects
 * directory, and the local store then reads it from there. The transfer is
 * an abstract outcome, the file system a set of file paths, and the local
 * store a pair of functions.
 */
module OdbRepoSpanner {
  import opened Wrappers
  import opened Codes
  import opened Oids
  import RepoSpanner

  const OBJECT_PREFIX: string := "simple/object/"

  /** The path an object is requested at: the prefix, then the id in hexadecimal. */
  function ObjectRequestPath(id: Oid): (r: string)
    ensures |r| == |OBJECT_PREFIX| + HEXSZ
    ensures r[..|OBJECT_PREFIX|] == OBJECT_PREFIX
    ensures FromHex(r[|OBJECT_PREFIX|..]) == Some(id)
  {
    var r := OBJECT_PREFIX + ToHex(id);
    assert r[|OBJECT_PREFIX|..] == ToHex(id);
    FromHexToHex(id);
    r
  }

  /** `get_request_for_object`: build the path by two appends and prepare the request for it. */
  method GetRequestForObject(client: RepoSpanner.Client, id: Oid) returns (url: string)
    ensures url == RepoSpanner.JoinPath(client.baseurl, ObjectRequestPath(id))
  {
    var path := [];
    path := path + OBJECT_PREFIX;
    path := path + ToHex(id);
    url := RepoSpanner.PrepareRequest(client, path);
  }

  /** `git_path_to_dir`: a non-empty path gets a trailing '/' unless it has one. */
  function ToDir(dir: string): (r: string)
    ensures |dir| == 0 ==> r == dir
    ensures |dir| > 0 ==> |r| > 0 && r[|r| - 1] == '/'
    ensures r == dir || (r == dir + "/" && dir[|dir| - 1] != '/')
  {
    if |dir| > 0 && dir[|dir| - 1] != '/' then dir + "/" else dir
  }

  /**
   * The loose-object path of `id`: the objects directory as a directory,
   * the first two hex digits, '/', and the other 38. With its terminating
   * NUL it fits the buffer grown to the directory's length plus 43.
   */
  function StagingPath(dir: string, id: Oid): (r: string)
    ensures var d := ToDir(dir);
            && |r| == |d| + HEXSZ + 1
            && r[..|d|] == d
            && r[|d| + 2] == '/'
            && r[|d|..|d| + 2] + r[|d| + 3..] == ToHex(id)
    ensures |r| + 1 <= |dir| + HEXSZ + 3
  {
    var d := ToDir(dir);
    var r := d + PathFmt(id);
    assert r[|d|..] == PathFmt(id);
    assert r[|d|..|d| + 2] == PathFmt(id)[..2] && r[|d| + 3..] == PathFmt(id)[3..];
    r
  }

  /** Distinct objects are staged at distinct paths. */
  lemma StagingPathInjective(dir: string, a: Oid, b: Oid)
    requires StagingPath(dir, a) == StagingPath(dir, b)
    ensures a == b
  {
    var d := ToDir(dir);
    var p := StagingPath(dir, a);
    assert ToHex(a) == p[|d|..|d| + 2] + p[|d| + 3..] == ToHex(b);
    FromHexToHex(a);
    FromHexToHex(b);
  }

  /**
   * `object_file_name`: set the buffer to the directory, make it a
   * directory, append the object's two-level name; then report what
   * creating the leading directories returned (`mkdirResult`).
   */
  method ObjectFileName(dir: string, id: Oid, mkdirResult: Code) returns (err: Code, name: string)
    ensures name == StagingPath(dir, id)
    ensures err == mkdirResult
  {
    name := dir;
    if |name| > 0 && name[|name| - 1] != '/' {
      name := name + "/";
    }
    name := name + PathFmt(id);
    err := mkdirResult;
  }

  /** What the local environment does when an object is staged. */
  datatype LocalEnv = LocalEnv(mkdirResult: Code, canOpen: bool)

  /** What the server's answer to the object request comes to. */
  datatype Response = Response(curlCode: int, responseCode: int)

  /**
   * The result of `retrieve_file`: a failed directory creation, a file that
   * cannot be opened (GIT_ERROR), or else the classified transfer.
   */
  function RetrieveOutcome(env: LocalEnv, response: Response): (r: Code)
    ensures r == OK <==> env.mkdirResult == OK && env.canOpen && response.curlCode == CURLE_OK
    ensures env.mkdirResult != OK ==> r == env.mkdirResult
    ensures env.mkdirResult == OK && !env.canOpen ==> r == ERROR
    ensures env.mkdirResult == OK && env.canOpen ==> r == RepoSpanner.CheckCurl(response.curlCode, response.responseCode)
  {
    if env.mkdirResult != OK then env.mkdirResult
    else if !env.canOpen then ERROR
    else RepoSpanner.CheckCurl(response.curlCode, response.responseCode)
  }

  /** The files there are once `retrieve_file` returns. */
  function FilesAfter(files: set<string>, path: string, env: LocalEnv, response: Response): (r: set<string>)
    ensures forall other :: other != path ==> (other in r <==> other in files)
    ensures env.mkdirResult == OK && env.canOpen ==> (path in r <==> RetrieveOutcome(env, response) == OK)
    ensures env.mkdirResult != OK || !env.canOpen ==> r == files
  {
    if env.mkdirResult != OK || !env.canOpen then files
    else if RepoSpanner.CheckCurl(response.curlCode, response.responseCode) == OK then files + {path}
    else files - {path}
  }

  /** A failed fetch never leaves a file at the object's path that was not there before. */
  lemma FailedFetchLeavesNoFile(files: set<string>, path: string, env: LocalEnv, response: Response)
    requires RetrieveOutcome(env, response) != OK
    ensures path in FilesAfter(files, path, env, response) ==> path in files
    ensures env.mkdirResult == OK && env.canOpen ==> path !in FilesAfter(files, path, env, response)
  {
  }

  /** The file system, as the set of paths of its files. */
  class FileSystem {
    var files: set<string>

    constructor (files: set<string>)
      ensures this.files == files
    {
      this.files := files;
    }

    /** `fopen(path, "wb")`: create (or truncate) the file, when the environment allows it. */
    method Open(path: string, canOpen: bool) returns (created: bool)
      modifies this
      ensures created == canOpen
      ensures files == if canOpen then old(files) + {path} else old(files)
    {
      created := canOpen;
      if canOpen {
        files := files + {path};
      }
    }

    /** `unlink(path)`. */
    method Unlink(path: string)
      modifies this
      ensures files == old(files) - {path}
    {
      files := files - {path};
    }
  }

  /** A raw object as the local store returns it: its type and its bytes. */
  datatype RawObject = RawObject(otype: int, data: seq<Byte>)

  /** An object header: its type and its length. */
  datatype Header = Header(otype: int, length: nat)

  /** The loose-object backend the objects are handed to once fetched (`backend->fsdb`). */
  datatype LocalStore = LocalStore(read: Oid -> Result<RawObject, Code>, readHeader: Oid -> Result<Header, Code>)

  /** `struct repospanner_odb`: the client, the local store and the objects directory. */
  datatype OdbBackend = OdbBackend(client: RepoSpanner.Client, fsdb: LocalStore, objectsDir: string)

  /**
   * `retrieve_file`: prepare the request, compute the staging path, open
   * the file and run the transfer into it; when the transfer fails, close
   * the file, unlink it and return the transfer's error.
   */
  method RetrieveFile(backend: OdbBackend, fs: FileSystem, id: Oid, env: LocalEnv, response: Response)
    returns (err: Code)
    modifies fs
    ensures err == RetrieveOutcome(env, response)
    ensures fs.files == FilesAfter(old(fs.files), StagingPath(backend.objectsDir, id), env, response)
  {
    var url := GetRequestForObject(backend.client, id);
    var path;
    err, path := ObjectFileName(backend.objectsDir, id, env.mkdirResult);
    if err != OK {
      return;
    }
    var created := fs.Open(path, env.canOpen);
    if !created {
      return ERROR;
    }
    err := RepoSpanner.CheckCurl(response.curlCode, response.responseCode);
    if err != OK {
      fs.Unlink(path);
      return;
    }
  }

  /** `impl__exists` on the fetch's result: 1 when fetched, 0 when not found, the error otherwise. */
  function ExistsResult(outcome: Code): (r: int)
    ensures r == 1 <==> outcome == OK
    ensures r == 0 <==> outcome == ENOTFOUND
    ensures r < 0 ==> r == outcome
    ensures r == 0 || r == 1 || r < 0
  {
    if outcome != OK then (if outcome == ENOTFOUND then 0 else outcome) else 1
  }

  /**
   * How the server's answer decides `exists`: 1 exactly when the transfer
   * succeeds, 0 for a 404, GIT_ERROR for every other transfer failure;
   * a failure before the transfer is reported as it is.
   */
  lemma ExistsFromResponse(env: LocalEnv, response: Response)
    requires env.mkdirResult == OK && env.canOpen
    ensures var r := ExistsResult(RetrieveOutcome(env, response));
            && (r == 1 <==> response.curlCode == CURLE_OK)
            && (r == 0 <==> response.curlCode == CURLE_HTTP_RETURNED_ERROR && response.responseCode == HTTP_NOT_FOUND)
            && (r != 0 && r != 1 ==> r == ERROR)
  {
  }

  /** `impl__exists`. */
  method Exists(backend: OdbBackend, fs: FileSystem, id: Oid, env: LocalEnv, response: Response) returns (r: int)
    modifies fs
    ensures r == ExistsResult(RetrieveOutcome(env, response))
    ensures fs.files == FilesAfter(old(fs.files), StagingPath(backend.objectsDir, id), env, response)
  {
    var err := RetrieveFile(backend, fs, id, env, response);
    if err != OK {
      if err == ENOTFOUND {
        return 0;
      } else {
        return err;
      }
    }
    return 1;
  }

  /** `impl__read` on the fetch's result: the local store is read only after a successful fetch. */
  function ReadResult(outcome: Code, store: LocalStore, id: Oid): (r: Result<RawObject, Code>)
    ensures outcome != OK ==> r == Failure(outcome)
    ensures outcome == OK ==> r == store.read(id)
  {
    if outcome != OK then Failure(outcome) else store.read(id)
  }

  /** A read whose fetch failed reports the fetch's error, whatever the local store would answer. */
  lemma ReadIgnoresStoreOnFailure(outcome: Code, a: LocalStore, b: LocalStore, id: Oid)
    requires outcome != OK
    ensures ReadResult(outcome, a, id) == ReadResult(outcome, b, id) == Failure(outcome)
    ensures ReadHeaderResult(outcome, a, id) == ReadHeaderResult(outcome, b, id) == Failure(outcome)
  {
  }

  /** `impl__read`. */
  method Read(backend: OdbBackend, fs: FileSystem, id: Oid, env: LocalEnv, response: Response)
    returns (r: Result<RawObject, Code>)
    modifies fs
    ensures r == ReadResult(RetrieveOutcome(env, response), backend.fsdb, id)
    ensures fs.files == FilesAfter(old(fs.files), StagingPath(backend.objectsDir, id), env, response)
  {
    var err := RetrieveFile(backend, fs, id, env, response);
    if err != OK {
      return Failure(err);
    }
    return backend.fsdb.read(id);
  }

  /** `impl__read_header` on the fetch's result. */
  function ReadHeaderResult(outcome: Code, store: LocalStore, id: Oid): (r: Result<Header, Code>)
    ensures outcome != OK ==> r == Failure(outcome)
    ensures outcome == OK ==> r == store.readHeader(id)
  {
    if outcome != OK then Failure(outcome) else store.readHeader(id)
  }

  /** `impl__read_header`. */
  method ReadHeader(backend: OdbBackend, fs: FileSystem, id: Oid, env: LocalEnv, response: Response)
    returns (r: Result<Header, Code>)
    modifies fs
    ensures r == ReadHeaderResult(RetrieveOutcome(env, response), backend.fsdb, id)
    ensures fs.files == FilesAfter(old(fs.files), StagingPath(backend.objectsDir, id), env, response)
  {
    var err := RetrieveFile(backend, fs, id, env, response);
    if err != OK {
      return Failure(err);
    }
    return backend.fsdb.readHeader(id);
  }

  /** `impl__write`: writing objects is not supported; the message names the function. */
  function Write(id: Oid, data: seq<Byte>): (r: (Code, string))
    ensures r.0 == EINVALID
    ensures r.1 == "function write not implemented for repoSpanner"
  {
    (EINVALID, "function write not implemented for repoSpanner")
  }
}
