/**
 * NUL-terminated strings as the C code sees them: `strcmp`'s order, the
 * string a `char *` denotes when it points into a buffer, and byte search.
 * A byte is modelled as a `char`; the C code handles every byte as `char`.
 */
module CStrings {
  import opened Wrappers

  const NUL: char := '\0'
  const NEWLINE: char := '\n'

  /** A value a C string can hold: no byte inside it is NUL. */
  predicate NoNul(s: string) {
    forall i :: 0 <= i < |s| ==> s[i] != NUL
  }

  /** `strcmp(a, b) < 0`: byte-wise lexicographic order, a proper prefix first. */
  predicate Less(a: string, b: string)
    decreases |a|
  {
    if |a| == 0 then |b| > 0
    else if |b| == 0 then false
    else if a[0] != b[0] then a[0] < b[0]
    else Less(a[1..], b[1..])
  }

  lemma {:induction false} LessIrreflexive(a: string)
    ensures !Less(a, a)
  {
    if |a| > 0 {
      LessIrreflexive(a[1..]);
    }
  }

  lemma {:induction false} LessAsymmetric(a: string, b: string)
    requires Less(a, b)
    ensures !Less(b, a)
  {
    if |a| > 0 && |b| > 0 && a[0] == b[0] {
      LessAsymmetric(a[1..], b[1..]);
    }
  }

  lemma {:induction false} LessTransitive(a: string, b: string, c: string)
    requires Less(a, b) && Less(b, c)
    ensures Less(a, c)
  {
    if |a| > 0 && a[0] == b[0] && b[0] == c[0] {
      LessTransitive(a[1..], b[1..], c[1..]);
    }
  }

  lemma {:induction false} LessTotal(a: string, b: string)
    ensures a == b || Less(a, b) || Less(b, a)
  {
    if |a| > 0 && |b| > 0 && a[0] == b[0] {
      LessTotal(a[1..], b[1..]);
      if a[1..] == b[1..] {
        assert a == [a[0]] + a[1..] && b == [b[0]] + b[1..];
      }
    }
  }

  /** The code of the byte a C string pointer reads first (the terminator reads as 0). */
  function FirstByte(s: string): int {
    if |s| == 0 then 0 else s[0] as int
  }

  /**
   * `strcmp`: the difference of the first two bytes that differ, the
   * terminating NUL counting as 0. Only its sign is meaningful to callers.
   */
  function StrCmp(a: string, b: string): (r: int)
    requires NoNul(a) && NoNul(b)
    ensures r < 0 <==> Less(a, b)
    ensures r == 0 <==> a == b
    ensures r > 0 <==> Less(b, a)
    decreases |a|
  {
    if |a| == 0 || |b| == 0 || a[0] != b[0] then FirstByte(a) - FirstByte(b)
    else
      assert a == [a[0]] + a[1..] && b == [b[0]] + b[1..];
      StrCmp(a[1..], b[1..])
  }

  /** The position of the first `c` in `s`, if any. */
  function IndexOf(s: string, c: char): (r: Option<nat>)
    ensures r.Some? ==> r.value < |s| && s[r.value] == c
    ensures r.Some? ==> forall k :: 0 <= k < r.value ==> s[k] != c
    ensures r.None? ==> forall k :: 0 <= k < |s| ==> s[k] != c
    decreases |s|
  {
    if |s| == 0 then None
    else if s[0] == c then Some(0)
    else match IndexOf(s[1..], c)
      case None => None
      case Some(i) => Some(i + 1)
  }

  /** Searching a longer buffer finds the same first `c` when the prefix holds one. */
  lemma IndexOfPrefix(s: string, more: string, c: char)
    requires IndexOf(s, c).Some?
    ensures IndexOf(s + more, c) == IndexOf(s, c)
  {
    var i := IndexOf(s, c).value;
    assert (s + more)[i] == c;
    assert forall k :: 0 <= k < i ==> (s + more)[k] == s[k];
  }

  /** The string a `char *` into `s` denotes: the bytes before the first NUL. */
  function CStr(s: string): (r: string)
    ensures NoNul(r) && |r| <= |s| && r == s[..|r|]
    ensures |r| < |s| ==> s[|r|] == NUL
    ensures NoNul(s) ==> r == s
  {
    match IndexOf(s, NUL)
    case None => s
    case Some(i) => s[..i]
  }

  /** `git_buf_shorten(buf, n)`: drop the last `n` bytes. */
  function Shorten(s: string, n: int): string {
    if 0 <= n <= |s| then s[..|s| - n] else []
  }
}
