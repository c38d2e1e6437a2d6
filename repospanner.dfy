/**
 * The shared client (src/repospanner.c): whether a repository uses the remote
 * store, the process-wide registry of one client per repository, building a
 * request URL from a client, and classifying the outcome of a transfer.
 *
 * The transport handles (curl easy and share handles and their options) are
 * not modelled; a client keeps the values the code hands to them.
 */
module RepoSpanner {
  import opened Wrappers
  import opened Codes
  import opened CStrings
  import opened SortedCaches

  /** What the configuration holds under one key. */
  datatype Setting = Text(text: string) | Unreadable(code: ErrorCode)

  /** A repository's configuration; a key that is absent is not set. */
  type Config = map<string, Setting>

  /** The repository as the client layer sees it: its directory and its configuration, if loaded. */
  datatype Repo = Repo(gitdir: string, config: Option<Config>)

  /** `git_config_get_string_buf`. */
  function GetString(cfg: Config, key: string): (r: Result<string, ErrorCode>)
    ensures r.Failure? && r.error == ENOTFOUND <== key !in cfg
    ensures r.Success? <==> key in cfg && cfg[key].Text?
  {
    if key !in cfg then Failure(ENOTFOUND)
    else match cfg[key]
      case Text(t) => Success(t)
      case Unreadable(c) => Failure(c)
  }

  /** The spellings of a boolean that git's configuration parser accepts. */
  function ParseBool(s: string): Option<bool> {
    if s == "true" || s == "yes" || s == "on" || s == "1" then Some(true)
    else if s == "false" || s == "no" || s == "off" || s == "0" || s == "" then Some(false)
    else None
  }

  /** `git_config_get_bool`: an unparsable value is an error. */
  function GetBool(cfg: Config, key: string): Result<bool, ErrorCode> {
    match GetString(cfg, key)
    case Failure(e) => Failure(e)
    case Success(t) =>
      match ParseBool(t)
      case Some(b) => Success(b)
      case None => Failure(ERROR)
  }

  const ENABLED_KEY: string := "repospanner.enabled"

  /**
   * `repo_check_repospanner`: OK exactly when the repository has a
   * configuration whose enablement flag reads as true; ENOTFOUND when there
   * is no configuration or the flag is false; a failed read's error unchanged.
   */
  function CheckRepoSpanner(repo: Repo): (r: Code)
    ensures r == OK <==> repo.config.Some? && GetBool(repo.config.value, ENABLED_KEY) == Success(true)
    ensures repo.config.None? ==> r == ENOTFOUND
    ensures repo.config.Some? && GetBool(repo.config.value, ENABLED_KEY).Failure? ==>
              r == GetBool(repo.config.value, ENABLED_KEY).error
    ensures repo.config.Some? && GetBool(repo.config.value, ENABLED_KEY) == Success(false) ==> r == ENOTFOUND
  {
    if repo.config.None? then ENOTFOUND
    else match GetBool(repo.config.value, ENABLED_KEY)
      case Failure(e) => e
      case Success(enabled) => if !enabled then ENOTFOUND else OK
  }

  /** The four settings a client needs, in the order they are read. */
  const REQUIRED: seq<string> := ["url", "cert", "key", "cacert"]

  function OptionKey(option: string): string {
    "repospanner." + option
  }

  datatype Settings = Settings(url: string, cert: string, key: string, cacert: string)

  /** A failed read: its code and, when the key was absent, the option named in the error message. */
  datatype SetupError = SetupError(code: ErrorCode, missing: Option<string>)

  /**
   * One required read: an absent key becomes GIT_ERROR with a message naming
   * the option; any other failure is passed on unchanged.
   */
  function ReadRequired(cfg: Config, option: string): (r: Result<string, SetupError>)
    ensures r.Success? <==> GetString(cfg, OptionKey(option)).Success?
    ensures r.Success? ==> OptionKey(option) in cfg && cfg[OptionKey(option)] == Text(r.value)
    ensures GetString(cfg, OptionKey(option)) == Failure(ENOTFOUND) ==> r == Failure(SetupError(ERROR, Some(option)))
    ensures GetString(cfg, OptionKey(option)).Failure? && GetString(cfg, OptionKey(option)).error != ENOTFOUND ==>
              r == Failure(SetupError(GetString(cfg, OptionKey(option)).error, None))
  {
    match GetString(cfg, OptionKey(option))
    case Success(t) => Success(t)
    case Failure(e) =>
      if e == ENOTFOUND then Failure(SetupError(ERROR, Some(option)))
      else Failure(SetupError(e, None))
  }

  /**
   * The required-settings sequence of `repospanner_get_client`: url, cert,
   * key, cacert; the first failing read decides the error.
   */
  function ReadSettings(cfg: Config): (r: Result<Settings, SetupError>)
    ensures r.Success? <==> forall i :: 0 <= i < |REQUIRED| ==> ReadRequired(cfg, REQUIRED[i]).Success?
    ensures r.Success? ==> OptionKey("url") in cfg && cfg[OptionKey("url")] == Text(r.value.url)
    ensures r.Success? ==> OptionKey("cert") in cfg && cfg[OptionKey("cert")] == Text(r.value.cert)
    ensures r.Success? ==> OptionKey("key") in cfg && cfg[OptionKey("key")] == Text(r.value.key)
    ensures r.Success? ==> OptionKey("cacert") in cfg && cfg[OptionKey("cacert")] == Text(r.value.cacert)
    ensures r.Failure? ==> exists i :: 0 <= i < |REQUIRED| && ReadRequired(cfg, REQUIRED[i]) == Failure(r.error) &&
                                      forall j :: 0 <= j < i ==> ReadRequired(cfg, REQUIRED[j]).Success?
  {
    var url, cert, key, cacert := ReadRequired(cfg, "url"), ReadRequired(cfg, "cert"),
                                  ReadRequired(cfg, "key"), ReadRequired(cfg, "cacert");
    assert REQUIRED[0] == "url" && REQUIRED[1] == "cert" && REQUIRED[2] == "key" && REQUIRED[3] == "cacert";
    if url.Failure? then Failure(url.error)
    else if cert.Failure? then Failure(cert.error)
    else if key.Failure? then Failure(key.error)
    else if cacert.Failure? then Failure(cacert.error)
    else Success(Settings(url.value, cert.value, key.value, cacert.value))
  }

  /**
   * The normalisation step as written: it tests the byte at index `len`,
   * which is the buffer's terminating NUL, so a trailing '/' is never
   * stripped and the base URL is kept exactly as read.
   */
  function NormaliseAsWritten(url: string): (r: string)
    ensures r == url
  {
    var terminated := url + [NUL];
    if terminated[|url|] == '/' then Shorten(url, 1) else url
  }

  /**
   * One client per repository. The curl handles are not modelled; the
   * fields hold the base URL and the TLS file names set on the base handle.
   */
  class Client {
    const gitdir: string
    var baseurl: string
    var sslCert: string
    var sslKey: string
    var caInfo: string

    /** The zeroed item `git_sortedcache_upsert` allocates under `gitdir`. */
    constructor (gitdir: string)
      ensures this.gitdir == gitdir
      ensures baseurl == [] && sslCert == [] && sslKey == [] && caInfo == []
    {
      this.gitdir := gitdir;
      baseurl, sslCert, sslKey, caInfo := [], [], [], [];
    }
  }

  /** `client_cmp`: the registry's order, `strcmp` of the repository directories. */
  function ClientCmp(a: Client, b: Client): (r: int)
    requires NoNul(a.gitdir) && NoNul(b.gitdir)
    ensures r < 0 <==> Less(a.gitdir, b.gitdir)
    ensures r == 0 <==> a.gitdir == b.gitdir
    ensures r > 0 <==> Less(b.gitdir, a.gitdir)
  {
    StrCmp(a.gitdir, b.gitdir)
  }

  /** A registry ordered by `client_cmp` holds at most one client per directory. */
  lemma RegistryKeysUnique(clients: seq<Item<Client>>, i: nat, j: nat)
    requires Sorted(clients) && i < |clients| && j < |clients|
    requires clients[i].key == clients[j].key
    ensures i == j
  {
    if i != j {
      LessIrreflexive(clients[i].key);
    }
  }

  /**
   * `repospanner_get_client` on the registry `clients` (the process-wide
   * `global_clients`). Locking is not modelled.
   */
  method GetClient(clients: SortedCache<Client>, repo: Repo) returns (err: Code, client: Client?, missing: Option<string>)
    requires clients.Valid()
    modifies clients
    ensures clients.Valid()
    ensures err == OK <==> client != null
    ensures CheckRepoSpanner(repo) != OK ==>
              err == CheckRepoSpanner(repo) && missing == None && clients.entries == old(clients.entries)
    ensures CheckRepoSpanner(repo) == OK && Find(old(clients.entries), repo.gitdir).Some? ==>
              err == OK && missing == None && client == Find(old(clients.entries), repo.gitdir).value &&
              clients.entries == old(clients.entries)
    ensures CheckRepoSpanner(repo) == OK && Find(old(clients.entries), repo.gitdir).None? ==>
              var added := Find(clients.entries, repo.gitdir);
              && added.Some? && fresh(added.value) && added.value.gitdir == repo.gitdir
              && clients.entries == Upserted(old(clients.entries), repo.gitdir, added.value)
              && match ReadSettings(repo.config.value)
                 case Success(s) =>
                   && err == OK && missing == None && client == added.value
                   && client.baseurl == s.url && client.sslCert == s.cert
                   && client.sslKey == s.key && client.caInfo == s.cacert
                 case Failure(e) => err == e.code && missing == e.missing
  {
    client, missing := null, None;
    err := CheckRepoSpanner(repo);
    if err != OK {
      return;
    }

    var existing := clients.Lookup(repo.gitdir);
    if existing.Some? {
      client := existing.value;
      return;
    }

    var c := new Client(repo.gitdir);
    clients.Upsert(repo.gitdir, c);
    FindUpsert(old(clients.entries), repo.gitdir, c);
    var cfg := repo.config.value;

    var url := ReadRequired(cfg, "url");
    if url.Failure? {
      err, missing := url.error.code, url.error.missing;
      return;
    }
    c.baseurl := url.value;

    var cert := ReadRequired(cfg, "cert");
    if cert.Failure? {
      err, missing := cert.error.code, cert.error.missing;
      return;
    }
    c.sslCert := cert.value;

    var key := ReadRequired(cfg, "key");
    if key.Failure? {
      err, missing := key.error.code, key.error.missing;
      return;
    }
    c.sslKey := key.value;

    var cacert := ReadRequired(cfg, "cacert");
    if cacert.Failure? {
      err, missing := cacert.error.code, cacert.error.missing;
      return;
    }
    c.caInfo := cacert.value;

    c.baseurl := NormaliseAsWritten(c.baseurl);
    client := c;
  }

  /** `git_buf_joinpath`: a '/' between the parts unless the first is empty or ends in one. */
  function JoinPath(a: string, b: string): (r: string)
    ensures |r| >= |a| && r[..|a|] == a
    ensures |a| == 0 ==> r == b
    decreases |b|
  {
    if |a| == 0 then b
    else if |b| > 0 && b[0] == '/' then JoinPath(a, b[1..])
    else if a[|a| - 1] == '/' then a + b
    else a + "/" + b
  }

  /**
   * `repospanner_prepare_request`: the URL the new request handle is given.
   * Duplicating the base handle is not modelled.
   */
  method PrepareRequest(client: Client, path: string) returns (url: string)
    ensures url == JoinPath(client.baseurl, path)
    ensures |client.baseurl| > 0 && client.baseurl[|client.baseurl| - 1] != '/' && (|path| == 0 || path[0] != '/') ==>
              url == client.baseurl + "/" + path
  {
    url := JoinPath(client.baseurl, path);
  }

  /**
   * `repospanner_check_curl`, given what `curl_easy_perform` returned and the
   * HTTP status it recorded: success, ENOTFOUND for an HTTP error whose status
   * is 404, and GIT_ERROR for every other failure.
   */
  function CheckCurl(curlCode: int, responseCode: int): (r: Code)
    ensures r == OK <==> curlCode == CURLE_OK
    ensures r == ENOTFOUND <==> curlCode == CURLE_HTTP_RETURNED_ERROR && responseCode == HTTP_NOT_FOUND
    ensures r != OK && r != ENOTFOUND ==> r == ERROR
  {
    if curlCode == CURLE_OK then OK
    else if curlCode == CURLE_HTTP_RETURNED_ERROR && responseCode == HTTP_NOT_FOUND then ENOTFOUND
    else ERROR
  }
}
