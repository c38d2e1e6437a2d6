/**
 * What src/refdb_repospanner.c does with the bytes of the reference list,
 * stated as functions: splitting one line into its fields (`parse_ref`),
 * resolving a symbolic record (`parse_symb_ref`), draining the complete lines
 * of the buffer (`ref_write_parse`), feeding chunk after chunk
 * (`ref_write_callback`) and the whole load (`_ensure_refs_loaded`).
 * The methods in refdb.dfy are proved to do exactly this.
 *
 * Wire format: records end with '\n'; a record is type NUL name NUL value.
 */
module RefParse {
  import opened Wrappers
  import opened Codes
  import opened CStrings
  import opened Oids
  import opened SortedCaches
  import RepoSpanner

  /** The reference cache: each name with its id, in `strcmp` order of the names. */
  type RefCache = seq<Item<Oid>>

  const REAL: string := "real"
  const SYMB: string := "symb"

  /**
   * The three fields of a line: the type (before the first NUL), the name
   * (between the first and the second NUL) and the bytes after the second NUL.
   */
  datatype Fields = Fields(rtype: string, name: string, rest: string)

  /** The field split of `parse_ref`: it needs two NULs before the line's end. */
  function SplitFields(line: string): (r: Option<Fields>)
  {
    var first := IndexOf(line, NUL);
    if first.None? then None
    else
      var i := first.value;
      var second := IndexOf(line[i + 1..], NUL);
      if second.None? then None
      else
        var j := i + 1 + second.value;
        Some(Fields(line[..i], line[i + 1..j], line[j + 1..]))
  }

  /** The fields found are the line's bytes around its first two NULs, which they do not contain. */
  lemma SplitFieldsParts(line: string)
    requires SplitFields(line).Some?
    ensures var f := SplitFields(line).value;
            line == f.rtype + [NUL] + f.name + [NUL] + f.rest && NoNul(f.rtype) && NoNul(f.name)
  {
    var i := IndexOf(line, NUL).value;
    var tail := line[i + 1..];
    var k := IndexOf(tail, NUL).value;
    SplitFieldsAt(line, i, k);
    BeforeFirstNul(line, i);
    BeforeFirstNul(tail, k);
    Joined(line[..i], tail[..k], tail[k + 1..], line, tail);
  }

  /** The bytes before the first NUL hold none, and the line is them, the NUL and the rest. */
  lemma BeforeFirstNul(s: string, i: nat)
    requires IndexOf(s, NUL) == Some(i)
    ensures NoNul(s[..i]) && s == s[..i] + [NUL] + s[i + 1..]
  {
  }

  lemma Joined(a: string, b: string, c: string, line: string, tail: string)
    requires tail == b + [NUL] + c && line == a + [NUL] + tail
    ensures line == a + [NUL] + b + [NUL] + c
  {
  }

  /** `parse_ref` fails on a line unless two of its bytes are NUL. */
  lemma SplitFieldsFails(line: string)
    ensures SplitFields(line).None? <==>
            forall i, j :: 0 <= i < j < |line| && line[i] == NUL ==> line[j] != NUL
  {
    var first := IndexOf(line, NUL);
    if first.Some? {
      var i := first.value;
      var second := IndexOf(line[i + 1..], NUL);
      if second.None? {
        forall a, b | 0 <= a < b < |line| && line[a] == NUL ensures line[b] != NUL {
          assert i <= a;
          assert line[b] == line[i + 1..][b - i - 1];
        }
      } else {
        assert line[i + 1 + second.value] == NUL;
      }
    }
  }

  /** A line built from a type, a name and a value splits back into them. */
  lemma SplitFieldsOf(rtype: string, name: string, rest: string)
    requires NoNul(rtype) && NoNul(name)
    ensures SplitFields(rtype + [NUL] + name + [NUL] + rest) == Some(Fields(rtype, name, rest))
  {
    var tail := name + [NUL] + rest;
    var line := rtype + [NUL] + tail;
    assert line == rtype + [NUL] + name + [NUL] + rest;
    FirstNulAt(rtype, tail);
    FirstNulAt(name, rest);
    assert line[|rtype| + 1..] == tail;
    assert line[..|rtype|] == rtype;
    assert tail[..|name|] == name && tail[|name| + 1..] == rest;
    SplitFieldsAt(line, |rtype|, |name|);
  }

  /** The fields as found from the positions of the two NULs. */
  lemma SplitFieldsAt(line: string, i: nat, k: nat)
    requires IndexOf(line, NUL) == Some(i)
    requires IndexOf(line[i + 1..], NUL) == Some(k)
    ensures SplitFields(line) == Some(Fields(line[..i], line[i + 1..][..k], line[i + 1..][k + 1..]))
  {
    assert line[i + 1..i + 1 + k] == line[i + 1..][..k];
    assert line[i + 1 + k + 1..] == line[i + 1..][k + 1..];
  }

  lemma FirstNulAt(head: string, tail: string)
    requires NoNul(head)
    ensures IndexOf(head + [NUL] + tail, NUL) == Some(|head|)
  {
    FirstAt(head, NUL, tail);
  }

  /** The first `c` of `head + [c] + tail` is the one after `head`. */
  lemma FirstAt(head: string, c: char, tail: string)
    requires forall k :: 0 <= k < |head| ==> head[k] != c
    ensures IndexOf(head + [c] + tail, c) == Some(|head|)
  {
    var s := head + [c] + tail;
    assert s[|head|] == c;
    assert forall k :: 0 <= k < |head| ==> s[k] == head[k];
  }

  /** How lines 120-131 of src/refdb_repospanner.c treat a record. */
  datatype RecordKind = Rejected | Symbolic | Direct

  /**
   * The type checks as written. The guard at line 120 asks for a type equal
   * to both "real" and "symb" and so never rejects; the length check at line
   * 128 applies only to types other than "real". Here `value` ends at the
   * line's '\n', and under that reading a record of any other type with a
   * 40-byte value is stored like a "real" one. In the C code the value runs
   * on past the '\n' unless it holds a NUL, and such a record then fails.
   */
  function RecordKindOf(rtype: string, value: string): (r: RecordKind)
    ensures r == Symbolic <==> rtype == SYMB
    ensures r == Rejected <==> rtype != SYMB && rtype != REAL && |value| != HEXSZ
  {
    if rtype == REAL && rtype == SYMB then Rejected
    else if rtype == SYMB then Symbolic
    else if rtype != REAL && |value| != HEXSZ then Rejected
    else Direct
  }

  /** The id `git_oid_fromstrn(&oid, val, 40)` reads: the first 40 bytes, all hexadecimal digits. */
  function ValueOid(rest: string): (r: Option<Oid>)
    ensures r.None? <==> |rest| < HEXSZ || !IsHex(rest[..HEXSZ])
    ensures r.Some? ==> FromHex(rest[..HEXSZ]) == r
  {
    if |rest| < HEXSZ then None else FromHex(rest[..HEXSZ])
  }

  /**
   * `parse_symb_ref`: when `target` is present, `name` is upserted with the
   * target's id; when it is absent the record is skipped.
   */
  function ResolveSymbolic(cache: RefCache, name: string, target: string): (r: RefCache)
    ensures Find(cache, target).None? ==> r == cache
    ensures Find(cache, target).Some? ==>
              forall other :: Find(r, other) == if other == name then Find(cache, target) else Find(cache, other)
  {
    if Find(cache, target).None? then cache
    else
      FindUpsert(cache, name, Find(cache, target).value);
      Upserted(cache, name, Find(cache, target).value)
  }

  /** A status and the cache it leaves. */
  datatype Step = Step(status: Code, cache: RefCache)

  /**
   * `parse_ref` on one line without its '\n'. The value as a C string is
   * taken up to the end of the line (see README). When the id does not
   * parse, the item has already been upserted; the model leaves it holding
   * the zero id.
   */
  function ParseRef(cache: RefCache, line: string): (r: Step)
    ensures r.status == OK || r.status == ERROR
    ensures SplitFields(line).None? ==> r == Step(ERROR, cache)
  {
    if SplitFields(line).None? then Step(ERROR, cache)
    else ParseFields(cache, SplitFields(line).value)
  }

  /** `parse_ref` once the three fields are found. */
  function ParseFields(cache: RefCache, f: Fields): (r: Step)
    ensures r.status == OK || r.status == ERROR
  {
    if RecordKindOf(f.rtype, CStr(f.rest)) == Rejected then Step(ERROR, cache)
    else if RecordKindOf(f.rtype, CStr(f.rest)) == Symbolic then Step(OK, ResolveSymbolic(cache, f.name, CStr(f.rest)))
    else if ValueOid(f.rest).None? then Step(ERROR, Upserted(cache, f.name, ZERO_OID))
    else Step(OK, Upserted(cache, f.name, ValueOid(f.rest).value))
  }

  /** The line a "real" record for `name` and `id` is sent as, without its '\n'. */
  function RealRecord(name: string, id: Oid): string {
    REAL + [NUL] + name + [NUL] + ToHex(id)
  }

  lemma HexHasNoNul(s: string)
    requires IsHex(s)
    ensures NoNul(s) && IndexOf(s, NEWLINE).None?
  {
    forall i | 0 <= i < |s| ensures s[i] != NUL && s[i] != NEWLINE {
      assert HexValue(s[i]).Some?;
    }
  }

  /** A "real" record stores its name with exactly the id written in the stream. */
  lemma RealRecordStored(cache: RefCache, name: string, id: Oid)
    requires NoNul(name)
    ensures ParseRef(cache, RealRecord(name, id)) == Step(OK, Upserted(cache, name, id))
  {
    SplitFieldsOf(REAL, name, ToHex(id));
    HexHasNoNul(ToHex(id));
    FromHexToHex(id);
    assert ToHex(id)[..HEXSZ] == ToHex(id);
  }

  /**
   * A "real" record, and a record of any type but "symb" whose value is 40
   * bytes long, upserts its name with the id read from the value's first 40
   * bytes; a value that does not begin with 40 digits fails the load.
   */
  lemma DirectRecord(cache: RefCache, rtype: string, name: string, value: string)
    requires NoNul(rtype) && NoNul(name) && rtype != SYMB
    requires rtype == REAL || |CStr(value)| == HEXSZ
    ensures var r := ParseRef(cache, rtype + [NUL] + name + [NUL] + value);
            match ValueOid(value)
            case Some(id) => r == Step(OK, Upserted(cache, name, id))
            case None => r.status == ERROR
  {
    SplitFieldsOf(rtype, name, value);
  }

  /** A record of an unknown type whose value is not 40 bytes long fails and changes nothing. */
  lemma UnknownTypeRejected(cache: RefCache, rtype: string, name: string, value: string)
    requires NoNul(rtype) && NoNul(name) && rtype != SYMB && rtype != REAL
    requires |CStr(value)| != HEXSZ
    ensures ParseRef(cache, rtype + [NUL] + name + [NUL] + value) == Step(ERROR, cache)
  {
    SplitFieldsOf(rtype, name, value);
  }

  /** A "symb" record copies the id of a target already present, and is skipped otherwise. */
  lemma SymbolicRecord(cache: RefCache, name: string, target: string)
    requires NoNul(name) && NoNul(target)
    ensures var r := ParseRef(cache, SYMB + [NUL] + name + [NUL] + target);
            && r.status == OK
            && (Find(cache, target).None? ==> r.cache == cache)
            && (Find(cache, target).Some? ==> Find(r.cache, name) == Find(cache, target))
  {
    SplitFieldsOf(SYMB, name, target);
  }

  /** Of two records for one name, the later one's id is the one kept. */
  lemma LaterRecordWins(cache: RefCache, name: string, first: Oid, second: Oid)
    requires NoNul(name)
    ensures var once := ParseRef(cache, RealRecord(name, first));
            var twice := ParseRef(once.cache, RealRecord(name, second));
            twice.status == OK && Find(twice.cache, name) == Some(second)
  {
    RealRecordStored(cache, name, first);
    RealRecordStored(Upserted(cache, name, first), name, second);
    FindUpsert(Upserted(cache, name, first), name, second);
  }

  /** The cache keeps its `strcmp` order through one record. */
  lemma ParseRefSorted(cache: RefCache, line: string)
    requires Sorted(cache)
    ensures Sorted(ParseRef(cache, line).cache)
  {
    var f := SplitFields(line);
    if f.Some? {
      var target := CStr(f.value.rest);
      if RecordKindOf(f.value.rtype, target) == Symbolic {
        if Find(cache, target).Some? {
          UpsertSorted(cache, f.value.name, Find(cache, target).value);
        }
      } else if RecordKindOf(f.value.rtype, target) == Direct {
        if ValueOid(f.value.rest).None? {
          UpsertSorted(cache, f.value.name, ZERO_OID);
        } else {
          UpsertSorted(cache, f.value.name, ValueOid(f.value.rest).value);
        }
      }
    }
  }

  /** What `ref_write_parse` returns, the bytes it leaves buffered and the cache it leaves. */
  datatype Parsed = Parsed(status: Code, rest: string, cache: RefCache)

  /**
   * `ref_write_parse`: parse the complete lines at the front of the buffer,
   * consuming each with its '\n', and stop at the first failing line (left
   * in the buffer) or when no '\n' remains. Without a '\n', a non-final call
   * succeeds and a final call succeeds only on an empty buffer.
   */
  function ParseLines(buffer: string, cache: RefCache, final: bool): (r: Parsed)
    ensures r.status == OK || r.status == ERROR
    ensures r.status == OK ==> IndexOf(r.rest, NEWLINE).None?
    ensures r.status == OK && final ==> r.rest == []
    ensures r.status == ERROR ==> r.rest != []
    ensures IndexOf(buffer, NEWLINE).None? ==>
              r.rest == buffer && r.cache == cache && (r.status == OK <==> !final || buffer == [])
    decreases |buffer|
  {
    match IndexOf(buffer, NEWLINE)
    case None =>
      if !final || |buffer| == 0 then Parsed(OK, buffer, cache) else Parsed(ERROR, buffer, cache)
    case Some(n) =>
      var step := ParseRef(cache, buffer[..n]);
      if step.status != OK then Parsed(step.status, buffer, step.cache)
      else
        ParseLines(buffer[n + 1..], step.cache, final)
  }

  /** `rest` is what is left of `buffer` once some whole lines, '\n' included, are dropped from its front. */
  predicate AfterLines(rest: string, buffer: string) {
    && |rest| <= |buffer| && rest == buffer[|buffer| - |rest|..]
    && (|rest| < |buffer| ==> buffer[|buffer| - |rest| - 1] == NEWLINE)
  }

  /** What stays buffered is what follows the lines consumed: only whole lines are dropped. */
  lemma {:induction false} ParseLinesConsumesLines(buffer: string, cache: RefCache, final: bool)
    ensures AfterLines(ParseLines(buffer, cache, final).rest, buffer)
    decreases |buffer|
  {
    var newline := IndexOf(buffer, NEWLINE);
    if newline.Some? {
      var n := newline.value;
      var step := ParseRef(cache, buffer[..n]);
      if step.status == OK {
        var tail := buffer[n + 1..];
        ParseLinesConsumesLines(tail, step.cache, final);
        ParseLinesNext(buffer, cache, final, n);
        LineSuffix(buffer, n, ParseLines(tail, step.cache, final).rest);
      }
    }
  }

  /**
   * A failing parse stops at the failing line and leaves it at the front of
   * the buffer: either the first line left fails whatever the cache, or no
   * '\n' is left and the call is a final one with bytes still buffered.
   */
  lemma {:induction false} ParseLinesStopsAtFailure(buffer: string, cache: RefCache, final: bool)
    ensures var r := ParseLines(buffer, cache, final);
            r.status == ERROR ==>
              match IndexOf(r.rest, NEWLINE)
              case None => final && r.rest != []
              case Some(n) => forall c :: ParseRef(c, r.rest[..n]).status == ERROR
    decreases |buffer|
  {
    match IndexOf(buffer, NEWLINE)
    case None =>
    case Some(n) =>
      var step := ParseRef(cache, buffer[..n]);
      if step.status == OK {
        ParseLinesStopsAtFailure(buffer[n + 1..], step.cache, final);
        ParseLinesNext(buffer, cache, final, n);
      } else {
        forall c { ParseRefStatus(c, cache, buffer[..n]); }
      }
  }

  /** Whether a line parses does not depend on the cache. */
  lemma ParseRefStatus(c: RefCache, d: RefCache, line: string)
    ensures ParseRef(c, line).status == ParseRef(d, line).status
  {
  }

  /** After a line that parses, parsing goes on with the bytes after its '\n'. */
  lemma ParseLinesNext(buffer: string, cache: RefCache, final: bool, n: nat)
    requires IndexOf(buffer, NEWLINE) == Some(n)
    requires ParseRef(cache, buffer[..n]).status == OK
    ensures ParseLines(buffer, cache, final) == ParseLines(buffer[n + 1..], ParseRef(cache, buffer[..n]).cache, final)
  {
  }

  /** Whole lines dropped after the line ending at `n` are whole lines dropped from the buffer. */
  lemma LineSuffix(buffer: string, n: nat, rest: string)
    requires n < |buffer| && buffer[n] == NEWLINE
    requires AfterLines(rest, buffer[n + 1..])
    ensures AfterLines(rest, buffer)
  {
    var tail := buffer[n + 1..];
    assert tail[|tail| - |rest|..] == buffer[|buffer| - |rest|..];
    if |rest| < |tail| {
      assert buffer[|buffer| - |rest| - 1] == tail[|tail| - |rest| - 1];
    }
  }

  /** Parsing keeps the cache in `strcmp` order. */
  lemma {:induction false} ParseLinesSorted(buffer: string, cache: RefCache, final: bool)
    requires Sorted(cache)
    ensures Sorted(ParseLines(buffer, cache, final).cache)
    decreases |buffer|
  {
    match IndexOf(buffer, NEWLINE)
    case None =>
    case Some(n) =>
      ParseRefSorted(cache, buffer[..n]);
      var step := ParseRef(cache, buffer[..n]);
      if step.status == OK {
        ParseLinesSorted(buffer[n + 1..], step.cache, final);
      }
  }

  /**
   * Appending bytes to the buffer does not change what happens to the lines
   * already complete: they are parsed as before, and the appended bytes join
   * whatever a non-final parse left buffered.
   */
  lemma {:induction false} ParseMore(buffer: string, more: string, cache: RefCache, final: bool)
    ensures var p := ParseLines(buffer, cache, false);
            ParseLines(buffer + more, cache, final) ==
              if p.status == OK then ParseLines(p.rest + more, p.cache, final)
              else Parsed(p.status, p.rest + more, p.cache)
    decreases |buffer|
  {
    match IndexOf(buffer, NEWLINE)
    case None =>
    case Some(n) =>
      IndexOfPrefix(buffer, more, NEWLINE);
      assert (buffer + more)[..n] == buffer[..n];
      assert (buffer + more)[n + 1..] == buffer[n + 1..] + more;
      var step := ParseRef(cache, buffer[..n]);
      if step.status == OK {
        ParseMore(buffer[n + 1..], more, step.cache, final);
      }
  }

  /** The outcome of handing the chunks to `ref_write_callback` one by one. */
  datatype Fed = Fed(accepted: bool, buffer: string, cache: RefCache)

  /**
   * `ref_write_callback` for each chunk in turn: append it and parse
   * non-finally. The first chunk whose parse fails is refused and the
   * transfer stops there.
   */
  function Feed(buffer: string, cache: RefCache, chunks: seq<string>): (r: Fed)
    ensures r.accepted ==> IndexOf(r.buffer, NEWLINE).None? || (chunks == [] && r.buffer == buffer)
    decreases |chunks|
  {
    if chunks == [] then Fed(true, buffer, cache)
    else
      var p := ParseLines(buffer + chunks[0], cache, false);
      if p.status != OK then Fed(false, p.rest, p.cache)
      else Feed(p.rest, p.cache, chunks[1..])
  }

  /** All the chunks, one after the other. */
  function Concat(chunks: seq<string>): string
    decreases |chunks|
  {
    if chunks == [] then [] else chunks[0] + Concat(chunks[1..])
  }

  /**
   * Chunk boundaries do not matter: when every chunk is accepted, a final
   * parse of what is left ends as a final parse of the whole stream would;
   * when one is refused, parsing the whole stream fails too.
   */
  lemma {:induction false} FeedConcat(buffer: string, cache: RefCache, chunks: seq<string>, final: bool)
    ensures var fed := Feed(buffer, cache, chunks);
            var whole := ParseLines(buffer + Concat(chunks), cache, final);
            && (fed.accepted ==> whole == ParseLines(fed.buffer, fed.cache, final))
            && (!fed.accepted ==> whole.status == ERROR && whole.cache == fed.cache)
    decreases |chunks|
  {
    if chunks == [] {
      assert buffer + Concat(chunks) == buffer;
    } else {
      assert buffer + Concat(chunks) == (buffer + chunks[0]) + Concat(chunks[1..]);
      ParseMore(buffer + chunks[0], Concat(chunks[1..]), cache, final);
      var p := ParseLines(buffer + chunks[0], cache, false);
      if p.status == OK {
        FeedConcat(p.rest, p.cache, chunks[1..], final);
      }
    }
  }

  /** The reference list as the server answers it: the body in chunks and curl's outcome. */
  datatype RefsResponse = RefsResponse(chunks: seq<string>, curlCode: int, responseCode: int)

  /**
   * `_ensure_refs_loaded` after the request: feed the body, check the
   * transfer (a refused chunk makes curl report a write error), then parse
   * the residue finally. A failed parse reports GIT_ERROR.
   */
  function LoadRefs(response: RefsResponse): (r: Result<RefCache, ErrorCode>)
    ensures r.Success? ==> response.curlCode == CURLE_OK
    ensures r.Failure? ==> r.error == ERROR || r.error == ENOTFOUND
    ensures r == Failure(ENOTFOUND) <==>
              && Feed([], [], response.chunks).accepted
              && response.curlCode == CURLE_HTTP_RETURNED_ERROR
              && response.responseCode == HTTP_NOT_FOUND
  {
    var fed := Feed([], [], response.chunks);
    var code := RepoSpanner.CheckCurl(if fed.accepted then response.curlCode else CURLE_WRITE_ERROR,
                                      response.responseCode);
    if code != OK then Failure(code)
    else
      var p := ParseLines(fed.buffer, fed.cache, true);
      if p.status != OK then Failure(ERROR) else Success(p.cache)
  }

  /**
   * When the transfer succeeds, the load is one parse of the whole body, in
   * final mode, from an empty cache, however the body was cut into chunks.
   */
  lemma LoadIsChunkIndependent(response: RefsResponse)
    requires response.curlCode == CURLE_OK
    ensures var whole := ParseLines(Concat(response.chunks), [], true);
            LoadRefs(response) == if whole.status == OK then Success(whole.cache) else Failure(ERROR)
  {
    FeedConcat([], [], response.chunks, true);
    assert [] + Concat(response.chunks) == Concat(response.chunks);
  }

  /** A loaded cache is in `strcmp` order, as the sorted cache requires. */
  lemma LoadedSorted(response: RefsResponse)
    requires LoadRefs(response).Success?
    ensures Sorted(LoadRefs(response).value)
  {
    FeedSorted([], [], response.chunks);
    var fed := Feed([], [], response.chunks);
    ParseLinesSorted(fed.buffer, fed.cache, true);
  }

  lemma {:induction false} FeedSorted(buffer: string, cache: RefCache, chunks: seq<string>)
    requires Sorted(cache)
    ensures Sorted(Feed(buffer, cache, chunks).cache)
    decreases |chunks|
  {
    if chunks != [] {
      ParseLinesSorted(buffer + chunks[0], cache, false);
      var p := ParseLines(buffer + chunks[0], cache, false);
      if p.status == OK {
        FeedSorted(p.rest, p.cache, chunks[1..]);
      }
    }
  }

  /** A record of the reference list, as the server means it. */
  datatype Record = Real(name: string, id: Oid) | Symb(name: string, target: string)

  /** Names and targets hold neither NUL nor '\n', so the record survives the wire format. */
  predicate WellFormed(rec: Record) {
    && NoNul(rec.name) && NEWLINE !in rec.name
    && (rec.Symb? ==> NoNul(rec.target) && NEWLINE !in rec.target)
  }

  /** The line of a record, without its '\n'. */
  function Line(rec: Record): string {
    match rec
    case Real(name, id) => RealRecord(name, id)
    case Symb(name, target) => SYMB + [NUL] + name + [NUL] + target
  }

  /** The body the server sends for a list of records. */
  function Render(recs: seq<Record>): string
    decreases |recs|
  {
    if recs == [] then [] else Line(recs[0]) + [NEWLINE] + Render(recs[1..])
  }

  /** The references as a plain map from name to id. */
  type Table = map<string, Oid>

  /**
   * One record's meaning: a direct record sets its name; a symbolic record
   * copies its target's id when the target is already known and is ignored
   * otherwise.
   */
  function Apply(t: Table, rec: Record): Table {
    match rec
    case Real(name, id) => t[name := id]
    case Symb(name, target) => if target in t then t[name := t[target]] else t
  }

  /** The records applied in stream order. */
  function Replay(t: Table, recs: seq<Record>): Table
    decreases |recs|
  {
    if recs == [] then t else Replay(Apply(t, recs[0]), recs[1..])
  }

  /** The cache answers every lookup as the table does. */
  ghost predicate Agrees(cache: RefCache, t: Table) {
    forall k :: Find(cache, k) == if k in t then Some(t[k]) else None
  }

  lemma LineHasNoNewline(rec: Record)
    requires WellFormed(rec)
    ensures forall k :: 0 <= k < |Line(rec)| ==> Line(rec)[k] != NEWLINE
  {
    match rec
    case Real(name, id) =>
      HexHasNoNul(ToHex(id));
      var line := Line(rec);
      forall k | 0 <= k < |line| ensures line[k] != NEWLINE {
        if k >= |REAL| + 1 + |name| + 1 {
          assert line[k] == ToHex(id)[k - (|REAL| + 1 + |name| + 1)];
        } else if k >= |REAL| + 1 && k < |REAL| + 1 + |name| {
          assert line[k] == name[k - (|REAL| + 1)];
        }
      }
    case Symb(name, target) =>
      var line := Line(rec);
      forall k | 0 <= k < |line| ensures line[k] != NEWLINE {
        if k >= |SYMB| + 1 + |name| + 1 {
          assert line[k] == target[k - (|SYMB| + 1 + |name| + 1)];
        } else if k >= |SYMB| + 1 && k < |SYMB| + 1 + |name| {
          assert line[k] == name[k - (|SYMB| + 1)];
        }
      }
  }

  /** Parsing the line of a well-formed record does to the cache what `Apply` does to the table. */
  lemma ParseRecord(cache: RefCache, t: Table, rec: Record)
    requires Sorted(cache) && Agrees(cache, t) && WellFormed(rec)
    ensures var step := ParseRef(cache, Line(rec));
            step.status == OK && Sorted(step.cache) && Agrees(step.cache, Apply(t, rec))
  {
    match rec
    case Real(name, id) => ParseRealRecord(cache, t, name, id);
    case Symb(name, target) => ParseSymbRecord(cache, t, name, target);
  }

  lemma ParseRealRecord(cache: RefCache, t: Table, name: string, id: Oid)
    requires Sorted(cache) && Agrees(cache, t) && NoNul(name)
    ensures ParseRef(cache, RealRecord(name, id)) == Step(OK, Upserted(cache, name, id))
    ensures Sorted(Upserted(cache, name, id)) && Agrees(Upserted(cache, name, id), t[name := id])
  {
    RealRecordStored(cache, name, id);
    UpsertSorted(cache, name, id);
    FindUpsert(cache, name, id);
  }

  lemma ParseSymbRecord(cache: RefCache, t: Table, name: string, target: string)
    requires Sorted(cache) && Agrees(cache, t) && NoNul(name) && NoNul(target)
    ensures var step := ParseRef(cache, SYMB + [NUL] + name + [NUL] + target);
            && step == Step(OK, ResolveSymbolic(cache, name, target))
            && Sorted(step.cache)
            && Agrees(step.cache, Apply(t, Symb(name, target)))
  {
    SplitFieldsOf(SYMB, name, target);
    assert CStr(target) == target;
    assert Find(cache, target).Some? <==> target in t;
    if Find(cache, target).Some? {
      UpsertSorted(cache, name, Find(cache, target).value);
    }
  }

  /**
   * The rendered body of well-formed records parses, in either mode, to a
   * sorted cache that agrees with replaying the records.
   */
  lemma {:induction false} ParseRendered(cache: RefCache, t: Table, recs: seq<Record>, final: bool)
    requires Sorted(cache) && Agrees(cache, t)
    requires forall i :: 0 <= i < |recs| ==> WellFormed(recs[i])
    ensures var p := ParseLines(Render(recs), cache, final);
            p.status == OK && p.rest == [] && Sorted(p.cache) && Agrees(p.cache, Replay(t, recs))
    decreases |recs|
  {
    if recs != [] {
      var line, more := Line(recs[0]), Render(recs[1..]);
      LineHasNoNewline(recs[0]);
      FirstAt(line, NEWLINE, more);
      var body := Render(recs);
      assert body == line + [NEWLINE] + more;
      assert body[..|line|] == line && body[|line| + 1..] == more;
      ParseRecord(cache, t, recs[0]);
      var step := ParseRef(cache, line);
      ParseLinesNext(body, cache, final, |line|);
      ParseRendered(step.cache, Apply(t, recs[0]), recs[1..], final);
    }
  }

  /**
   * A body made of well-formed records, delivered in any chunks with a
   * successful transfer, loads: the cache is sorted and holds, for each
   * name, the id that replaying the records gives it.
   */
  lemma LoadRendered(response: RefsResponse, recs: seq<Record>)
    requires response.curlCode == CURLE_OK
    requires Concat(response.chunks) == Render(recs)
    requires forall i :: 0 <= i < |recs| ==> WellFormed(recs[i])
    ensures LoadRefs(response).Success?
    ensures Sorted(LoadRefs(response).value)
    ensures Agrees(LoadRefs(response).value, Replay(map[], recs))
  {
    LoadIsChunkIndependent(response);
    ParseRendered([], map[], recs, true);
  }
}
