/** Route names and middleware patterns (router.go): joining a group's prefix to a name, and
    deciding whether a pattern covers a route. */
module Patterns {

  function TrimLeft(s: string): (t: string)
    ensures t == "" || t[0] != '.'
    ensures |t| <= |s| && t == s[|s| - |t|..]
    ensures t != s ==> s[0] == '.'
  {
    if s != "" && s[0] == '.' then
      var t := TrimLeft(s[1..]);
      assert s[1..][|s| - 1 - |t|..] == s[|s| - |t|..];
      t
    else s
  }

  function TrimRight(s: string): (t: string)
    ensures t == "" || t[|t| - 1] != '.'
    ensures t <= s
    ensures t != s ==> s[|s| - 1] == '.'
  {
    if s != "" && s[|s| - 1] == '.' then TrimRight(s[..|s| - 1]) else s
  }

  /** Go's `strings.Trim(s, ".")`. */
  function Trim(s: string): (t: string)
    ensures t == "" || (t[0] != '.' && t[|t| - 1] != '.')
  {
    TrimRight(TrimLeft(s))
  }

  function JoinPattern(prefix: string, pattern: string): string {
    var p, n := Trim(prefix), Trim(pattern);
    if p == "" then n else if n == "" then p else p + "." + n
  }

  function MatchPattern(pattern: string, event: string): bool {
    if pattern == "*" then true
    else if |pattern| >= 2 && pattern[|pattern| - 2..] == ".*" then pattern[..|pattern| - 2] + "." <= event
    else pattern == event
  }

  /** `scopedMiddlewarePattern`. */
  function ScopedPattern(prefix: string, pattern: string): string {
    if pattern == "" || pattern == "*" then if prefix == "" then "*" else prefix + ".*"
    else JoinPattern(prefix, pattern)
  }

  lemma TrimKeepsIff(s: string)
    ensures Trim(s) == s <==> s == "" || (s[0] != '.' && s[|s| - 1] != '.')
  {
    if s != "" && s[0] != '.' && s[|s| - 1] != '.' {
      assert TrimLeft(s) == s;
    }
  }

  /** `Use("*")` is documented to cover every route of the current group. It does so without a
      prefix. With one it covers a route exactly if the prefix has no dots at its ends and the
      route has a name of its own. */
  lemma WildcardCoversIff(prefix: string, name: string)
    ensures MatchPattern(ScopedPattern(prefix, "*"), JoinPattern(prefix, name))
       <==> prefix == "" || (Trim(prefix) == prefix && Trim(name) != "")
  {
    if prefix != "" {
      var pattern := prefix + ".*";
      assert pattern[|pattern| - 2..] == ".*" && pattern[..|pattern| - 2] == prefix;
      assert |pattern| > |"*"|;
      var t, n := Trim(prefix), Trim(name);
      var event := JoinPattern(prefix, name);
      if t == prefix {
        assert n != "" ==> event == prefix + "." + n;
      } else {
        TrimKeepsIff(prefix);
        NotCovered(prefix, t, n);
      }
    }
  }

  lemma NotCovered(prefix: string, t: string, n: string)
    requires prefix != "" && t == Trim(prefix) != prefix && (n != "" ==> n[0] != '.')
    ensures !(prefix + "." <= if t == "" then n else if n == "" then t else t + "." + n)
  {
    if prefix[0] == '.' {
      StartsOtherwise(prefix, if t == "" then n else if n == "" then t else t + "." + n);
    } else {
      assert TrimLeft(prefix) == prefix;
      if t == "" {
        DotsBehind(prefix, 0);
      }
      DotsBehind(prefix, |t| + 1);
      DifferAt(prefix, t, n);
    }
  }

  lemma StartsOtherwise(prefix: string, event: string)
    requires prefix != "" && prefix[0] == '.' && (event != "" ==> event[0] != '.')
    ensures !(prefix + "." <= event)
  {
    assert (prefix + ".")[0] == '.';
  }

  lemma DifferAt(prefix: string, t: string, n: string)
    requires t != "" && t < prefix && (|t| + 1 < |prefix| ==> prefix[|t| + 1] == '.') && (n != "" ==> n[0] != '.')
    ensures !(prefix + "." <= if n == "" then t else t + "." + n)
  {
    var p := prefix + ".";
    assert p[|t| + 1] == '.';
    if n != "" {
      assert (t + "." + n)[|t| + 1] == n[0];
    }
  }

  /** Everything behind what `TrimRight` leaves is a dot. */
  lemma {:induction false} DotsBehind(s: string, i: nat)
    requires |TrimRight(s)| <= i
    ensures i < |s| ==> s[i] == '.'
    decreases |s|
  {
    if TrimRight(s) != s && i < |s| - 1 {
      DotsBehind(s[..|s| - 1], i);
    }
  }

  /** The failing family with a dot in front: nothing is covered. */
  lemma LeadingDotCoversNothing(prefix: string, name: string)
    requires prefix != "" && prefix[0] == '.'
    ensures !MatchPattern(ScopedPattern(prefix, "*"), JoinPattern(prefix, name))
  {
    hide MatchPattern, ScopedPattern, JoinPattern;
    TrimKeepsIff(prefix);
    WildcardCoversIff(prefix, name);
  }

  /** A group under the prefix ".a": its wildcard does not cover the route "x" registered in it. */
  lemma WildcardCounterexample()
    ensures !MatchPattern(ScopedPattern(".a", "*"), JoinPattern(".a", "x"))
  {
    hide *;
    LeadingDotCoversNothing(".a", "x");
  }

  /** A pattern that ends in ".*" covers exactly the names that go on after its dot. */
  lemma PrefixPatternCoversIff(group: string, event: string)
    ensures MatchPattern(group + ".*", event) <==> exists rest :: event == group + "." + rest
  {
    var pattern := group + ".*";
    assert pattern[|pattern| - 2..] == ".*" && pattern[..|pattern| - 2] == group;
    assert |pattern| > |"*"|;
    if group + "." <= event {
      assert event == group + "." + event[|group| + 1..];
    }
  }

  predicate Wildcard(pattern: string) {
    pattern == "*" || (|pattern| >= 2 && pattern[|pattern| - 2..] == ".*")
  }

  /** A middleware registered under a plain name covers exactly the routes of its group with that
      name, dots at the ends aside. */
  lemma PlainNameCoversIff(prefix: string, name: string, route: string)
    requires name != "" && name != "*" && !Wildcard(JoinPattern(prefix, name))
    ensures MatchPattern(ScopedPattern(prefix, name), JoinPattern(prefix, route)) <==> Trim(name) == Trim(route)
  {
    var p, n, m := Trim(prefix), Trim(name), Trim(route);
    hide TrimLeft, TrimRight, Trim;
    if p != "" && n != "" && m != "" && p + "." + n == p + "." + m {
      assert n == (p + "." + n)[|p| + 1..] == (p + "." + m)[|p| + 1..] == m;
    }
    assert n != "" ==> |p + "." + n| > |p|;
    assert m != "" ==> |p + "." + m| > |p|;
  }
}
