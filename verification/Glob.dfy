/** The backtracking pattern matcher of the embedded web server: `?` for one character, `*`
    for any characters up to a slash, `**` for any characters, `$` for the end of the string,
    `|` between alternatives, letters matched without regard to case. */
module Glob {

  /** The lower-case form of an ASCII letter. */
  function Lower(c: char): char {
    if 'A' <= c <= 'Z' then (c as int + 32) as char else c
  }

  /** How many characters precede the first slash. */
  function Span(s: string): (n: nat)
    ensures n <= |s|
  {
    if s == "" || s[0] == '/' then 0 else 1 + Span(s[1..])
  }

  /** How far a star at the front of p reaches into s, and the pattern behind it. */
  function Reach(p: string, s: string): (r: (nat, string))
    requires p != "" && p[0] == '*'
    ensures r.0 <= |s| && |r.1| < |p|
  {
    if |p| > 1 && p[1] == '*' then (|s|, p[2..]) else (Span(s), p[1..])
  }

  // ---- What a pattern means ----------------------------------------------------------------

  /** One alternative matches the first n characters of s.  Everything behind a `$` is ignored. */
  ghost predicate Matches(p: string, s: string, n: nat)
    decreases |p|
  {
    if p == "" then n == 0
    else if p[0] == '$' then s == "" && n == 0
    else if p[0] == '*' then
      var (len, rest) := Reach(p, s);
      exists k: nat :: k <= len && k <= n && Matches(rest, s[k..], n - k)
    else
      s != "" && n > 0 && (p[0] == '?' || Lower(p[0]) == Lower(s[0])) && Matches(p[1..], s[1..], n - 1)
  }

  lemma {:induction false} MatchesWithin(p: string, s: string, n: nat)
    requires Matches(p, s, n)
    ensures n <= |s|
    decreases |p|
  {
    if p != "" && p[0] == '*' {
      var (len, rest) := Reach(p, s);
      var k: nat :| k <= len && k <= n && Matches(rest, s[k..], n - k);
      MatchesWithin(rest, s[k..], n - k);
    } else if p != "" && p[0] != '$' {
      MatchesWithin(p[1..], s[1..], n - 1);
    }
  }

  const CAPITALS := "ABCDEFGHIJKLMNOPQRSTUVWXYZ"

  const LETTERS := "abcdefghijklmnopqrstuvwxyz"

  /** Characters are compared without regard to the case of the letters A to Z. */
  lemma LowerIs(i: nat)
    requires i < 26
    ensures Lower(CAPITALS[i]) == LETTERS[i]
  {
  }

  lemma LowerOther(c: char)
    ensures Lower(c) == c || c in CAPITALS
  {
    if 'A' <= c <= 'Z' {
      assert CAPITALS[c as int - 'A' as int] == c;
    }
  }

  lemma {:induction false} SpanIs(s: string, k: nat)
    requires k <= |s|
    ensures k <= Span(s) <==> '/' !in s[..k]
  {
    if k > 0 && s[0] != '/' {
      SpanIs(s[1..], k - 1);
      assert s[1..][..k - 1] == s[1..k] && s[..k] == [s[0]] + s[1..k];
    } else if k > 0 {
      assert s[..k][0] == '/';
    }
  }

  /** What each piece of a pattern stands for. */
  lemma PiecesAre(c: char, p: string, s: string, n: nat)
    ensures Matches("", s, n) <==> n == 0
    ensures Matches("$" + p, s, n) <==> s == "" && n == 0
    ensures Matches("?" + p, s, n) <==> s != "" && n > 0 && Matches(p, s[1..], n - 1)
    ensures c !in "$?*" ==> (Matches([c] + p, s, n)
                             <==> s != "" && n > 0 && Lower(c) == Lower(s[0]) && Matches(p, s[1..], n - 1))
    ensures Matches("**" + p, s, n) <==> exists k: nat :: k <= |s| && k <= n && Matches(p, s[k..], n - k)
    ensures (p == "" || p[0] != '*') ==>
              (Matches("*" + p, s, n)
               <==> exists k: nat :: k <= |s| && k <= n && '/' !in s[..k] && Matches(p, s[k..], n - k))
  {
    assert ("$" + p)[1..] == ("?" + p)[1..] == ("*" + p)[1..] == ([c] + p)[1..] == p && ("**" + p)[2..] == p;
    assert Reach("**" + p, s) == (|s|, p);
    if p == "" || p[0] != '*' {
      assert Reach("*" + p, s) == (Span(s), p);
      forall k: nat | k <= |s|
        ensures k <= Span(s) <==> '/' !in s[..k]
      {
        SpanIs(s, k);
      }
    }
  }

  // ---- What the matcher computes -------------------------------------------------------------

  function Shift(j: nat, r: int): int {
    if r == -1 then -1 else j + r
  }

  /** The matcher on one alternative. */
  function MatchOne(p: string, s: string): (r: int)
    ensures r >= -1
    decreases |p|, 0
  {
    if p == "" then 0
    else if p[0] == '?' && s != "" then Shift(1, MatchOne(p[1..], s[1..]))
    else if p[0] == '$' then (if s == "" then 0 else -1)
    else if p[0] == '*' then
      var (len, rest) := Reach(p, s);
      if rest == "" then len else Backtrack(rest, s, len)
    else if s == "" || Lower(p[0]) != Lower(s[0]) then -1
    else Shift(1, MatchOne(p[1..], s[1..]))
  }

  /** Lets the star take len characters, then ever fewer, until the rest matches. */
  function Backtrack(rest: string, s: string, len: nat): (r: int)
    requires len <= |s|
    ensures r >= -1
    decreases |rest|, len + 1
  {
    var res := MatchOne(rest, s[len..]);
    if res != -1 then len + res
    else if len == 0 then -1
    else Backtrack(rest, s, len - 1)
  }

  lemma {:induction false} MatchOneSound(p: string, s: string)
    ensures MatchOne(p, s) >= 0 ==> Matches(p, s, MatchOne(p, s))
    decreases |p|, 0
  {
    if p != "" && p[0] == '*' {
      var (len, rest) := Reach(p, s);
      if rest == "" {
        assert Matches(rest, s[len..], len - len);
      } else {
        BacktrackSound(rest, s, len);
        if MatchOne(p, s) >= 0 {
          var k: nat :| k <= len && k <= MatchOne(p, s) && Matches(rest, s[k..], MatchOne(p, s) - k);
        }
      }
    } else if p != "" && p[0] != '$' && s != "" {
      MatchOneSound(p[1..], s[1..]);
    }
  }

  lemma {:induction false} BacktrackSound(rest: string, s: string, len: nat)
    requires len <= |s|
    ensures var r := Backtrack(rest, s, len);
            r >= 0 ==> exists k: nat :: k <= len && k <= r && Matches(rest, s[k..], r - k)
    decreases |rest|, len + 1
  {
    MatchOneSound(rest, s[len..]);
    if MatchOne(rest, s[len..]) == -1 && len > 0 {
      BacktrackSound(rest, s, len - 1);
    } else if MatchOne(rest, s[len..]) >= 0 {
      assert Matches(rest, s[len..], Backtrack(rest, s, len) - len);
    }
  }

  /** If some prefix matches, the matcher finds one; if some non-empty prefix does, it finds a
      non-empty one. */
  lemma {:induction false} MatchOneComplete(p: string, s: string, n: nat)
    requires Matches(p, s, n)
    ensures MatchOne(p, s) >= 0 && (n > 0 ==> MatchOne(p, s) > 0)
    decreases |p|, 0
  {
    if p != "" && p[0] == '*' {
      var (len, rest) := Reach(p, s);
      var k: nat :| k <= len && k <= n && Matches(rest, s[k..], n - k);
      if rest != "" {
        BacktrackComplete(rest, s, len, k, n);
      }
    } else if p != "" && p[0] != '$' {
      MatchOneComplete(p[1..], s[1..], n - 1);
    }
  }

  lemma {:induction false} BacktrackComplete(rest: string, s: string, len: nat, k: nat, n: nat)
    requires k <= len <= |s| && k <= n && Matches(rest, s[k..], n - k)
    ensures Backtrack(rest, s, len) >= 0 && (n > 0 ==> Backtrack(rest, s, len) > 0)
    decreases |rest|, len + 1
  {
    if k == len {
      MatchOneComplete(rest, s[len..], n - k);
    } else if MatchOne(rest, s[len..]) == -1 {
      BacktrackComplete(rest, s, len - 1, k, n);
    }
  }

  /** Some prefix of s matches. */
  ghost predicate CanMatch(p: string, s: string) {
    exists n: nat :: Matches(p, s, n)
  }

  /** Some non-empty prefix of s matches. */
  ghost predicate CanMatchSome(p: string, s: string) {
    exists n: nat :: Matches(p, s, n) && n > 0
  }

  /** For one alternative: -1 means that no prefix matches, a positive result means that a
      non-empty prefix matches, and the result is the length of a prefix that matches. */
  lemma MatchOneExact(p: string, s: string)
    ensures MatchOne(p, s) == -1 <==> !CanMatch(p, s)
    ensures MatchOne(p, s) > 0 <==> CanMatchSome(p, s)
    ensures MatchOne(p, s) >= 0 ==> Matches(p, s, MatchOne(p, s)) && MatchOne(p, s) <= |s|
  {
    MatchOneSound(p, s);
    if MatchOne(p, s) >= 0 {
      var n: nat := MatchOne(p, s);
      MatchesWithin(p, s, n);
    }
    forall n: nat | Matches(p, s, n)
      ensures MatchOne(p, s) >= 0 && (n > 0 ==> MatchOne(p, s) > 0)
    {
      MatchOneComplete(p, s, n);
    }
  }

  // ---- Alternatives ----------------------------------------------------------------------------

  function FirstBar(p: string): (i: nat)
    ensures i <= |p| && '|' !in p[..i] && (i < |p| ==> p[i] == '|')
  {
    if p == "" || p[0] == '|' then 0 else
    var i := FirstBar(p[1..]);
    assert p[..1 + i] == [p[0]] + p[1..][..i];
    1 + i
  }

  function Alternatives(p: string): (a: seq<string>)
    ensures |a| > 0
    decreases |p|
  {
    var i := FirstBar(p);
    if i < |p| then [p[..i]] + Alternatives(p[i + 1..]) else [p]
  }

  function Join(parts: seq<string>): string {
    if parts == [] then "" else if |parts| == 1 then parts[0] else parts[0] + "|" + Join(parts[1..])
  }

  lemma JoinNext(part: string, parts: seq<string>)
    requires parts != []
    ensures Join([part] + parts) == part + "|" + Join(parts)
  {
    assert ([part] + parts)[1..] == parts;
  }

  /** The alternatives are what the bars of the pattern separate. */
  lemma {:induction false} AlternativesAre(p: string)
    ensures Join(Alternatives(p)) == p && forall a <- Alternatives(p) :: '|' !in a
    decreases |p|
  {
    var i := FirstBar(p);
    if i < |p| {
      var others := Alternatives(p[i + 1..]);
      AlternativesAre(p[i + 1..]);
      JoinNext(p[..i], others);
      assert p == p[..i] + "|" + p[i + 1..];
    } else {
      assert p[..i] == p;
    }
  }

  /** The matcher on a whole pattern. */
  function Match(p: string, s: string): (r: int)
    ensures r >= -1
    decreases |p|
  {
    var i := FirstBar(p);
    if i < |p| then
      var res := MatchOne(p[..i], s);
      if res > 0 then res else Match(p[i + 1..], s)
    else MatchOne(p, s)
  }

  lemma SplitAlternatives(p: string)
    ensures var b := FirstBar(p);
            if b < |p| then
              var others := Alternatives(p[b + 1..]);
              && |Alternatives(p)| == |others| + 1 && Alternatives(p)[0] == p[..b]
              && forall i | 1 <= i < |Alternatives(p)| :: Alternatives(p)[i] == others[i - 1]
            else Alternatives(p) == [p]
  {
  }

  /** A positive result is exact over all alternatives; this is the test the callers make.
      A result n >= 0 is always the length of a prefix that some alternative matches. */
  lemma {:induction false} MatchExact(p: string, s: string)
    ensures Match(p, s) > 0 <==>
            exists i | 0 <= i < |Alternatives(p)| :: CanMatchSome(Alternatives(p)[i], s)
    ensures Match(p, s) >= 0 ==>
            exists i | 0 <= i < |Alternatives(p)| :: Matches(Alternatives(p)[i], s, Match(p, s))
    decreases |p|
  {
    var b, all := FirstBar(p), Alternatives(p);
    SplitAlternatives(p);
    if b < |p| {
      MatchOneExact(p[..b], s);
      MatchExact(p[b + 1..], s);
      var others := Alternatives(p[b + 1..]);
      if i :| 0 <= i < |others| && CanMatchSome(others[i], s) {
        assert CanMatchSome(all[i + 1], s);
      }
      if Match(p[b + 1..], s) >= 0 {
        var i :| 0 <= i < |others| && Matches(others[i], s, Match(p[b + 1..], s));
        assert Matches(all[i + 1], s, Match(p[b + 1..], s));
      }
      assert MatchOne(p[..b], s) > 0 ==> CanMatchSome(all[0], s) && Matches(all[0], s, Match(p, s));
    } else {
      MatchOneExact(p, s);
      assert all[0] == p;
    }
  }

  /** A zero result of an earlier alternative is given up in favour of the next one, so -1 does
      not mean that no alternative matches: here the first one matches the empty prefix. */
  lemma EmptyMatchLost()
    ensures Match("*|x", "/") == -1 && Matches(Alternatives("*|x")[0], "/", 0)
  {
    var p := "*|x";
    assert p[1..] == "|x" && FirstBar(p[1..]) == 0 && FirstBar(p) == 1;
    assert p[..1] == "*" && p[2..] == "x";
    assert FirstBar("x"[1..]) == 0 && FirstBar("x") == 1;
    assert Reach("*", "/") == (0, "");
    assert Matches("", "/"[0..], 0);
  }

  /** The last alternative matches no prefix at all and no other one matches a non-empty prefix. */
  ghost predicate AllFail(all: seq<string>, s: string)
    requires all != []
  {
    !CanMatch(all[|all| - 1], s) && forall i | 0 <= i < |all| :: !CanMatchSome(all[i], s)
  }

  lemma AllFailNext(first: string, others: seq<string>, s: string)
    requires others != []
    ensures AllFail([first] + others, s) <==> !CanMatchSome(first, s) && AllFail(others, s)
  {
    var all := [first] + others;
    assert all[|all| - 1] == others[|others| - 1] && all[0] == first;
    forall i | 0 <= i < |others|
      ensures others[i] == all[i + 1]
    {
    }
    if AllFail(all, s) {
      assert forall i | 0 <= i < |others| :: CanMatchSome(others[i], s) ==> CanMatchSome(all[i + 1], s);
    }
  }

  /** That is when the result is -1, and only then. */
  lemma {:induction false} MatchFails(p: string, s: string)
    ensures Match(p, s) == -1 <==> AllFail(Alternatives(p), s)
    decreases |p|
  {
    var b := FirstBar(p);
    if b < |p| {
      MatchOneExact(p[..b], s);
      MatchFails(p[b + 1..], s);
      AllFailNext(p[..b], Alternatives(p[b + 1..]), s);
    } else {
      MatchOneExact(p, s);
      assert Alternatives(p) == [p];
    }
  }

  // ---- The code ---------------------------------------------------------------------------------

  method MatchPrefix(pattern: string, str: string) returns (res: int)
    ensures res == Match(pattern, str)
    decreases |pattern|
  {
    var bar := FirstBar(pattern);
    if bar < |pattern| {
      SingleAlternative(pattern[..bar], str);
      res := MatchPrefix(pattern[..bar], str);
      if res <= 0 {
        res := MatchPrefix(pattern[bar + 1..], str);
      }
      return;
    }
    assert pattern[..|pattern|] == pattern;
    var i, j := 0, 0;
    while i < |pattern|
      invariant i <= |pattern| && j <= |str|
      invariant MatchOne(pattern, str) == Shift(j, MatchOne(pattern[i..], str[j..]))
    {
      if pattern[i] == '?' && j < |str| {
      } else if pattern[i] == '$' {
        return if j == |str| then j else -1;
      } else if pattern[i] == '*' {
        res := MatchStar(pattern, i, str, j);
        return;
      } else if j == |str| || Lower(pattern[i]) != Lower(str[j]) {
        return -1;
      }
      assert pattern[i..][1..] == pattern[i + 1..] && str[j..][1..] == str[j + 1..];
      i, j := i + 1, j + 1;
    }
    return j;
  }

  /** The branch for a star: the longest reach first, backing off one character at a time. */
  method MatchStar(pattern: string, at: nat, str: string, j: nat) returns (res: int)
    requires at < |pattern| && pattern[at] == '*' && '|' !in pattern && j <= |str|
    ensures res == Shift(j, MatchOne(pattern[at..], str[j..]))
    decreases |pattern|, 0
  {
    var i := at + 1;
    var len: nat;
    if i < |pattern| && pattern[i] == '*' {
      i := i + 1;
      len := |str| - j;
    } else {
      len := Span(str[j..]);
    }
    ghost var rest := pattern[i..];
    assert Reach(pattern[at..], str[j..]) == (len, rest);
    if i == |pattern| {
      return j + len;
    }
    ghost var goal := Backtrack(rest, str[j..], len);
    SingleAlternative(rest, str[j..][len..]);
    assert str[j..][len..] == str[j + len..];
    res := MatchPrefix(pattern[i..], str[j + len..]);
    while res == -1 && len > 0
      invariant len <= |str| - j && Backtrack(rest, str[j..], len) == goal
      invariant res == MatchOne(rest, str[j..][len..])
    {
      len := len - 1;
      SingleAlternative(rest, str[j..][len..]);
      assert str[j..][len..] == str[j + len..];
      res := MatchPrefix(pattern[i..], str[j + len..]);
    }
    return if res == -1 then -1 else j + res + len;
  }

  lemma SingleAlternative(p: string, s: string)
    requires '|' !in p
    ensures Match(p, s) == MatchOne(p, s)
  {
    assert forall i | 0 <= i < |p| :: p[i] in p;
  }
}
