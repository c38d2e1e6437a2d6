/**
 * The glob test the reference iterator applies (`p_fnmatch(glob, name, 0)`,
 * which returns 0 on a match). With no flags, '*' matches any run of bytes,
 * '/' included, and '?' any single byte; every other byte matches itself.
 */
module Glob {

  predicate Matches(pattern: string, name: string)
    decreases |pattern| + |name|
  {
    if |pattern| == 0 then |name| == 0
    else if pattern[0] == '*' then
      Matches(pattern[1..], name) || (|name| > 0 && Matches(pattern, name[1..]))
    else
      |name| > 0 && (pattern[0] == '?' || pattern[0] == name[0]) && Matches(pattern[1..], name[1..])
  }

  /** A lone '*' matches every name. */
  lemma {:induction false} StarMatchesAll(name: string)
    ensures Matches("*", name)
    decreases |name|
  {
    if |name| > 0 {
      StarMatchesAll(name[1..]);
    }
  }

  predicate Literal(s: string) {
    forall i :: 0 <= i < |s| ==> s[i] != '*' && s[i] != '?'
  }

  /** `prefix*` matches exactly the names that start with `prefix`. */
  lemma {:induction false} PrefixStarMatches(prefix: string, name: string)
    requires Literal(prefix)
    ensures Matches(prefix + "*", name) <==> |prefix| <= |name| && name[..|prefix|] == prefix
    decreases |prefix|
  {
    if |prefix| == 0 {
      assert prefix + "*" == "*";
      StarMatchesAll(name);
    } else {
      assert (prefix + "*")[1..] == prefix[1..] + "*";
      if |name| > 0 {
        PrefixStarMatches(prefix[1..], name[1..]);
        if |prefix| <= |name| && name[..|prefix|] == prefix {
          assert name[1..][..|prefix| - 1] == prefix[1..];
        } else if |prefix| <= |name| && name[0] == prefix[0] {
          assert name[..|prefix|] == [name[0]] + name[1..][..|prefix| - 1];
          assert prefix == [prefix[0]] + prefix[1..];
        }
      }
    }
  }
}
