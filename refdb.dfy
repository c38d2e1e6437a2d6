/**
 * The reference database backend of src/refdb_repospanner.c, as the code
 * runs it: the retriever that consumes its buffer in place, the backend
 * whose cache is installed by the first successful load, and the iterator
 * that walks a private copy of the cache by position. Each method is proved
 * to do what the functions of RefParse and the functions below say.
 */
module RefdbRepoSpanner {
  import opened Wrappers
  import opened Codes
  import opened CStrings
  import opened Oids
  import opened SortedCaches
  import opened Glob
  import RefParse
  import RepoSpanner

  /** `packref_cmp`: references are ordered by `strcmp` of their names. */
  function PackRefCmp(a: Item<Oid>, b: Item<Oid>): (r: int)
    requires NoNul(a.key) && NoNul(b.key)
    ensures r < 0 <==> Less(a.key, b.key)
    ensures r == 0 <==> a.key == b.key
    ensures r > 0 <==> Less(b.key, a.key)
  {
    StrCmp(a.key, b.key)
  }

  /** The first `c` in `s` is at `k` when `s[k]` is `c` and no earlier byte is. */
  lemma IndexOfIs(s: string, c: char, k: nat)
    requires k < |s| && s[k] == c
    requires forall i :: 0 <= i < k ==> s[i] != c
    ensures IndexOf(s, c) == Some(k)
  {
  }

  /** `parse_symb_ref`: copy the target's id under `name` when the target is present. */
  method ParseSymbRef(target: SortedCache<Oid>, name: string, val: string) returns (err: Code)
    requires target.Valid()
    modifies target
    ensures target.Valid()
    ensures err == OK
    ensures target.entries == RefParse.ResolveSymbolic(old(target.entries), name, val)
  {
    var realref := target.Lookup(val);
    if realref.None? {
      return OK;
    }
    target.Upsert(name, realref.value);
    return OK;
  }

  /**
   * The field split at the head of `parse_ref`: walk the line byte by byte,
   * noting where the name starts (after the first NUL) and where the value
   * starts (after the second), and stop at the second.
   */
  method FindFields(line: string) returns (fields: Option<RefParse.Fields>)
    ensures fields == RefParse.SplitFields(line)
  {
    var nameAt: Option<nat> := None;
    var valAt: Option<nat> := None;
    var pos := 0;
    while pos < |line|
      invariant 0 <= pos <= |line|
      invariant valAt.None?
      invariant nameAt.None? ==> forall k :: 0 <= k < pos ==> line[k] != NUL
      invariant nameAt.Some? ==> 0 < nameAt.value <= pos && IndexOf(line, NUL) == Some(nameAt.value - 1)
      invariant nameAt.Some? ==> forall k :: nameAt.value <= k < pos ==> line[k] != NUL
    {
      if line[pos] == NUL {
        if nameAt.None? {
          IndexOfIs(line, NUL, pos);
          nameAt := Some(pos + 1);
        } else {
          valAt := Some(pos + 1);
          break;
        }
      }
      pos := pos + 1;
    }

    if nameAt.None? {
      return None;
    }
    var i := nameAt.value - 1;
    if valAt.None? {
      NoNulFrom(line, i + 1);
      return None;
    }
    var k := valAt.value - 1 - (i + 1);
    IndexOfIs(line[i + 1..], NUL, k);
    RefParse.SplitFieldsAt(line, i, k);
    var tail := line[i + 1..];
    return Some(RefParse.Fields(line[..i], tail[..k], tail[k + 1..]));
  }

  lemma NoNulFrom(line: string, start: nat)
    requires start <= |line|
    requires forall k :: start <= k < |line| ==> line[k] != NUL
    ensures IndexOf(line[start..], NUL).None?
  {
  }

  /** `parse_ref` on one line, its '\n' excluded: split it, then apply the type checks as written. */
  method ParseRef(target: SortedCache<Oid>, line: string) returns (err: Code)
    requires target.Valid()
    modifies target
    ensures target.Valid()
    ensures RefParse.Step(err, target.entries) == RefParse.ParseRef(old(target.entries), line)
  {
    var fields := FindFields(line);
    if fields.None? {
      return ERROR;
    }
    var rtype, name, val := fields.value.rtype, fields.value.name, fields.value.rest;

    if rtype == RefParse.REAL && rtype == RefParse.SYMB {
      return ERROR;
    }
    if rtype == RefParse.SYMB {
      err := ParseSymbRef(target, name, CStr(val));
      return;
    }
    if rtype != RefParse.REAL && |CStr(val)| != HEXSZ {
      return ERROR;
    }
    // The item is upserted first and the id written into it afterwards; an
    // id that does not parse leaves the item as allocated, all zero.
    var id := RefParse.ValueOid(val);
    if id.None? {
      target.Upsert(name, ZERO_OID);
      return ERROR;
    }
    target.Upsert(name, id.value);
    return OK;
  }

  /** The scan of `ref_write_parse` for the first '\n' of the buffer. */
  method FindNewline(buffer: string) returns (newline: Option<nat>)
    ensures newline == IndexOf(buffer, NEWLINE)
  {
    var pos := 0;
    while pos < |buffer|
      invariant 0 <= pos <= |buffer|
      invariant forall k :: 0 <= k < pos ==> buffer[k] != NEWLINE
    {
      if buffer[pos] == NEWLINE {
        IndexOfIs(buffer, NEWLINE, pos);
        return Some(pos);
      }
      pos := pos + 1;
    }
    return None;
  }

  /** `struct refretrieve`: the growable buffer and the cache the records go into. */
  class RefRetrieve {
    var buffer: string
    const target: SortedCache<Oid>

    constructor (target: SortedCache<Oid>)
      ensures this.target == target && buffer == []
    {
      this.target := target;
      buffer := [];
    }

    /**
     * `ref_write_parse`: find the first '\n', parse the line before it,
     * consume the line and its '\n', and repeat until no '\n' is left or a
     * line fails.
     */
    method WriteParse(final: bool) returns (err: Code)
      requires target.Valid()
      modifies this, target
      ensures target.Valid()
      ensures RefParse.Parsed(err, buffer, target.entries) == RefParse.ParseLines(old(buffer), old(target.entries), final)
    {
      while true
        invariant target.Valid()
        invariant RefParse.ParseLines(buffer, target.entries, final) == RefParse.ParseLines(old(buffer), old(target.entries), final)
        decreases |buffer|
      {
        var newline := FindNewline(buffer);
        if newline.None? {
          if !final {
            return OK;
          } else if |buffer| == 0 {
            return OK;
          } else {
            return ERROR;
          }
        }

        var pos := newline.value;
        err := ParseRef(target, buffer[..pos]);
        if err != OK {
          return;
        }
        buffer := buffer[pos + 1..];
      }
    }

    /**
     * `ref_write_callback`: append the chunk and parse non-finally. The
     * chunk is accepted by returning its length, refused by returning -1
     * (GIT_ERROR, which curl reads as a short write).
     */
    method WriteCallback(chunk: string) returns (r: int)
      requires target.Valid()
      modifies this, target
      ensures target.Valid()
      ensures var p := RefParse.ParseLines(old(buffer) + chunk, old(target.entries), false);
              && buffer == p.rest && target.entries == p.cache
              && r == if p.status == OK then |chunk| else ERROR
    {
      buffer := buffer + chunk;
      var err := WriteParse(false);
      if err == OK {
        return |chunk|;
      } else {
        return ERROR;
      }
    }
  }

  /**
   * The transfer as the write callback sees it: curl hands over the body
   * chunk by chunk and stops with a write error at the first chunk the
   * callback does not accept in full; otherwise it ends with `transferCode`.
   */
  method Deliver(retriever: RefRetrieve, chunks: seq<string>, transferCode: int) returns (curlCode: int)
    requires retriever.target.Valid()
    modifies retriever, retriever.target
    ensures retriever.target.Valid()
    ensures var fed := RefParse.Feed(old(retriever.buffer), old(retriever.target.entries), chunks);
            && retriever.buffer == fed.buffer && retriever.target.entries == fed.cache
            && curlCode == if fed.accepted then transferCode else CURLE_WRITE_ERROR
  {
    var i := 0;
    while i < |chunks|
      invariant 0 <= i <= |chunks|
      invariant retriever.target.Valid()
      invariant RefParse.Feed(retriever.buffer, retriever.target.entries, chunks[i..])
             == RefParse.Feed(old(retriever.buffer), old(retriever.target.entries), chunks)
    {
      var written := retriever.WriteCallback(chunks[i]);
      if written != |chunks[i]| {
        return CURLE_WRITE_ERROR;
      }
      assert chunks[i..][1..] == chunks[i + 1..];
      i := i + 1;
    }
    return transferCode;
  }

  /** What `git_reference__alloc` is given: the name and the id. */
  datatype Reference = Reference(name: string, target: Oid)

  /** An iterator walks every reference without a glob, and those the glob matches with one. */
  predicate Selected(glob: Option<string>, name: string) {
    glob.None? || Matches(glob.value, name)
  }

  /** The position of the next selected entry at or after `pos`, or the entry count when none is left. */
  function NextMatch(entries: seq<Item<Oid>>, glob: Option<string>, pos: nat): (k: nat)
    requires pos <= |entries|
    ensures pos <= k <= |entries|
    ensures k < |entries| ==> Selected(glob, entries[k].key)
    ensures forall i :: pos <= i < k ==> !Selected(glob, entries[i].key)
    decreases |entries| - pos
  {
    if pos == |entries| then pos
    else if Selected(glob, entries[pos].key) then pos
    else NextMatch(entries, glob, pos + 1)
  }

  /** The names an iterator at `pos` has still to return, in order. */
  function Remaining(entries: seq<Item<Oid>>, glob: Option<string>, pos: nat): seq<string>
    requires pos <= |entries|
    decreases |entries| - pos
  {
    if pos == |entries| then []
    else if Selected(glob, entries[pos].key) then [entries[pos].key] + Remaining(entries, glob, pos + 1)
    else Remaining(entries, glob, pos + 1)
  }

  /** One step of the iterator returns the head of what remains and leaves the rest. */
  lemma {:induction false} RemainingStep(entries: seq<Item<Oid>>, glob: Option<string>, pos: nat)
    requires pos <= |entries|
    ensures var k := NextMatch(entries, glob, pos);
            if k < |entries| then Remaining(entries, glob, pos) == [entries[k].key] + Remaining(entries, glob, k + 1)
            else Remaining(entries, glob, pos) == []
    decreases |entries| - pos
  {
    if pos < |entries| && !Selected(glob, entries[pos].key) {
      RemainingStep(entries, glob, pos + 1);
    }
  }

  /**
   * The iterator's names are exactly the selected names of the cache, each
   * once, in strictly increasing `strcmp` order.
   */
  lemma {:induction false} RemainingSorted(entries: seq<Item<Oid>>, glob: Option<string>, pos: nat)
    requires Sorted(entries) && pos <= |entries|
    ensures var names := Remaining(entries, glob, pos);
            && (forall i, j :: 0 <= i < j < |names| ==> Less(names[i], names[j]))
            && (forall name :: name in names <==>
                  exists i :: pos <= i < |entries| && entries[i].key == name && Selected(glob, name))
    decreases |entries| - pos
  {
    if pos < |entries| {
      RemainingSorted(entries, glob, pos + 1);
      var rest := Remaining(entries, glob, pos + 1);
      if Selected(glob, entries[pos].key) {
        var names := [entries[pos].key] + rest;
        forall i, j | 0 <= i < j < |names| ensures Less(names[i], names[j]) {
          if i == 0 {
            assert names[j] in rest;
            var m :| pos + 1 <= m < |entries| && entries[m].key == names[j];
          } else {
            assert names[i] == rest[i - 1] && names[j] == rest[j - 1];
          }
        }
      }
    }
  }

  // A glob ending in '*' walks the names under its prefix: over "feat/a",
  // "feat/b" and "main", the glob "feat/" followed by '*' yields "feat/a"
  // then "feat/b".
  lemma GlobPrefixWalk(a: Oid, b: Oid, c: Oid)
    ensures Remaining([Item("feat/a", a), Item("feat/b", b), Item("main", c)], Some("feat/*"), 0) == ["feat/a", "feat/b"]
  {
    var entries := [Item("feat/a", a), Item("feat/b", b), Item("main", c)];
    assert "feat/*" == "feat/" + "*";
    PrefixStarMatches("feat/", "feat/a");
    PrefixStarMatches("feat/", "feat/b");
    PrefixStarMatches("feat/", "main");
    var glob := Some("feat/*");
    assert Selected(glob, entries[0].key) && Selected(glob, entries[1].key);
    assert !Selected(glob, entries[2].key);
    assert Remaining(entries, glob, 2) == [];
    assert Remaining(entries, glob, 1) == ["feat/b"];
  }

  /**
   * `refdb_rs_iter`: a private copy of the cache, the glob (absent for a
   * plain iterator) and the position of the next entry to look at.
   */
  class RefIterator {
    const refcache: SortedCache<Oid>
    const glob: Option<string>
    var currentPos: nat

    ghost predicate Valid()
      reads this, refcache
    {
      refcache.Valid() && currentPos <= |refcache.entries|
    }

    constructor (refcache: SortedCache<Oid>, glob: Option<string>)
      requires refcache.Valid()
      ensures Valid() && this.refcache == refcache && this.glob == glob && currentPos == 0
    {
      this.refcache := refcache;
      this.glob := glob;
      currentPos := 0;
    }

    /**
     * `refdb_rs__iterator_next`: skip the entries the glob rejects and
     * return the next one, or ITEROVER once the position reaches the count.
     */
    method Next() returns (err: Code, ref: Option<Reference>)
      requires Valid()
      modifies this
      ensures Valid()
      ensures var k := NextMatch(refcache.entries, glob, old(currentPos));
              if k < |refcache.entries| then
                err == OK && ref == Some(Reference(refcache.entries[k].key, refcache.entries[k].value))
                && currentPos == k + 1
              else
                err == ITEROVER && ref.None? && currentPos == |refcache.entries|
    {
      err, ref := ITEROVER, None;
      while currentPos < |refcache.entries|
        invariant old(currentPos) <= currentPos <= |refcache.entries|
        invariant NextMatch(refcache.entries, glob, currentPos) == NextMatch(refcache.entries, glob, old(currentPos))
        decreases |refcache.entries| - currentPos
      {
        var item := refcache.entries[currentPos];
        currentPos := currentPos + 1;
        if glob.Some? && !Matches(glob.value, item.key) {
          continue;
        }
        err, ref := OK, Some(Reference(item.key, item.value));
        break;
      }
    }

    /** `refdb_rs__iterator_next_name`: as `Next`, returning only the name. */
    method NextName() returns (err: Code, name: Option<string>)
      requires Valid()
      modifies this
      ensures Valid()
      ensures var k := NextMatch(refcache.entries, glob, old(currentPos));
              if k < |refcache.entries| then
                err == OK && name == Some(refcache.entries[k].key) && currentPos == k + 1
              else
                err == ITEROVER && name.None? && currentPos == |refcache.entries|
    {
      err, name := ITEROVER, None;
      while currentPos < |refcache.entries|
        invariant old(currentPos) <= currentPos <= |refcache.entries|
        invariant NextMatch(refcache.entries, glob, currentPos) == NextMatch(refcache.entries, glob, old(currentPos))
        decreases |refcache.entries| - currentPos
      {
        var item := refcache.entries[currentPos];
        currentPos := currentPos + 1;
        if glob.Some? && !Matches(glob.value, item.key) {
          continue;
        }
        err, name := OK, Some(item.key);
        break;
      }
    }
  }

  /**
   * `refdb_rs_backend`: the client it fetches through and the reference
   * cache, absent until a load succeeds.
   */
  class RefdbBackend {
    const client: RepoSpanner.Client
    var refcache: SortedCache?<Oid>

    ghost predicate Valid()
      reads this, refcache
    {
      refcache != null ==> refcache.Valid()
    }

    /** `git_refdb_backend_repospanner` once the client is obtained: no cache yet. */
    constructor (client: RepoSpanner.Client)
      ensures Valid() && this.client == client && refcache == null
    {
      this.client := client;
      refcache := null;
    }

    /**
     * The load-or-nothing rule: an installed cache stays as it is; otherwise
     * the cache is installed exactly when the load succeeds, and a failed
     * load leaves none and reports the load's error.
     */
    twostate predicate Loaded(response: RefParse.RefsResponse, err: Code)
      reads this, refcache
    {
      if old(refcache) != null then
        err == OK && refcache == old(refcache)
      else match RefParse.LoadRefs(response)
        case Success(cache) => err == OK && refcache != null && fresh(refcache) && refcache.entries == cache
        case Failure(e) => err == e && refcache == null
    }

    /**
     * `_ensure_refs_loaded`. `response` is what the server answers to
     * `simple/refs` when asked; it is not asked when a cache is installed.
     */
    method EnsureRefsLoaded(response: RefParse.RefsResponse) returns (err: Code)
      requires Valid()
      modifies this
      ensures Valid() && Loaded(response, err)
      ensures err == OK <==> refcache != null
    {
      if refcache != null {
        return OK;
      }
      var newcache := new SortedCache<Oid>();
      var retriever := new RefRetrieve(newcache);
      var curlCode := Deliver(retriever, response.chunks, response.curlCode);
      err := RepoSpanner.CheckCurl(curlCode, response.responseCode);
      if err != OK {
        return;
      }
      var parsed := retriever.WriteParse(true);
      if parsed != OK {
        return ERROR;
      }
      RefParse.LoadedSorted(response);
      refcache := newcache;
    }

    /** `refdb_rs__exists`: whether the loaded cache holds `name`. */
    method Exists(response: RefParse.RefsResponse, name: string) returns (err: Code, found: bool)
      requires Valid()
      modifies this
      ensures Valid() && Loaded(response, err)
      ensures err == OK ==> refcache != null && (found <==> Find(refcache.entries, name).Some?)
    {
      found := false;
      err := EnsureRefsLoaded(response);
      if err != OK {
        return;
      }
      var entry := refcache.Lookup(name);
      found := entry.Some?;
    }

    /** `refdb_rs__lookup`: the reference named `name`, or ENOTFOUND. */
    method Lookup(response: RefParse.RefsResponse, name: string) returns (err: Code, ref: Option<Reference>)
      requires Valid()
      modifies this
      ensures Valid()
      ensures refcache == null ==> Loaded(response, err) && ref.None?
      ensures refcache != null ==> Loaded(response, OK) && match Find(refcache.entries, name)
                case None => err == ENOTFOUND && ref.None?
                case Some(id) => err == OK && ref == Some(Reference(name, id))
    {
      ref := None;
      err := EnsureRefsLoaded(response);
      if err != OK {
        return;
      }
      var entry := refcache.Lookup(name);
      if entry.None? {
        return ENOTFOUND, None;
      }
      return OK, Some(Reference(name, entry.value));
    }

    /** `refdb_rs__iterator`: an iterator over a fresh copy of the loaded cache, at position 0. */
    method Iterator(response: RefParse.RefsResponse, glob: Option<string>) returns (err: Code, iter: RefIterator?)
      requires Valid()
      modifies this
      ensures Valid() && Loaded(response, err)
      ensures err != OK ==> iter == null
      ensures err == OK ==> && refcache != null && iter != null && fresh(iter) && fresh(iter.refcache)
                            && iter.Valid() && iter.refcache.entries == refcache.entries
                            && iter.glob == glob && iter.currentPos == 0
    {
      iter := null;
      err := EnsureRefsLoaded(response);
      if err != OK {
        return;
      }
      var copy := refcache.Copy();
      iter := new RefIterator(copy, glob);
    }
  }

  /** The backend entry points that do nothing useful. */
  datatype StubOp =
    | Write | Rename | Del | Compress | Lock | Unlock
    | HasLog | EnsureLog | ReflogRead | ReflogWrite | ReflogRename | ReflogDelete

  /** The name `rs_not_implemented` puts in its message. */
  function OpName(op: StubOp): string {
    match op
    case Write => "write"
    case Rename => "rename"
    case Del => "del"
    case Compress => "compress"
    case Lock => "lock"
    case Unlock => "unlock"
    case HasLog => "has_log"
    case EnsureLog => "ensure_log"
    case ReflogRead => "reflog_read"
    case ReflogWrite => "reflog_write"
    case ReflogRename => "reflog_rename"
    case ReflogDelete => "reflog_delete"
  }

  /**
   * `compress` succeeds and `has_log` answers 0 (no log); every other stub
   * fails with EINVALID and a message naming the function.
   */
  function Stub(op: StubOp): (r: (Code, Option<string>))
    ensures r.0 == OK <==> op == Compress || op == HasLog
    ensures r.0 != OK ==> r.0 == EINVALID
    ensures r.1.Some? <==> r.0 == EINVALID
    ensures r.1.Some? ==> r.1.value == "function " + OpName(op) + " not implemented for repoSpanner"
  {
    if op == Compress || op == HasLog then (OK, None)
    else (EINVALID, Some("function " + OpName(op) + " not implemented for repoSpanner"))
  }
}
