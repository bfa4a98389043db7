/** Rewriting certificate texts: replacing a pattern, and removing a character in place. */
module StringRewriting {
  import opened Collections

  // ---- Leftmost, non-overlapping replacement ---------------------------------------------------------

  predicate OccursAt(s: string, p: string, i: int) {
    0 <= i && i + |p| <= |s| && s[i..i + |p|] == p
  }

  /** The first occurrence from index i on, or -1. */
  function FirstFrom(s: string, p: string, i: nat): (r: int)
    ensures r == -1 || (i <= r && OccursAt(s, p, r))
    decreases |s| - i
  {
    if i + |p| > |s| then -1 else if s[i..i + |p|] == p then i else FirstFrom(s, p, i + 1)
  }

  function First(s: string, p: string): int {
    FirstFrom(s, p, 0)
  }

  /** The parts of s between the occurrences found from left to right. */
  function Parts(s: string, p: string): (r: seq<string>)
    requires p != []
    ensures |r| >= 1
    decreases |s|
  {
    var i := First(s, p);
    if i < 0 then [s] else [s[..i]] + Parts(s[i + |p|..], p)
  }

  function Join(parts: seq<string>, sep: string): string
    requires |parts| >= 1
  {
    if |parts| == 1 then parts[0] else parts[0] + sep + Join(parts[1..], sep)
  }

  function Replaced(s: string, p: string, r: string): string
    requires p != []
  {
    Join(Parts(s, p), r)
  }

  lemma {:induction false} FirstIsFirst(s: string, p: string, i: nat, k: int)
    requires i <= k && OccursAt(s, p, k)
    ensures i <= FirstFrom(s, p, i) <= k
    decreases |s| - i
  {
    if s[i..i + |p|] != p {
      FirstIsFirst(s, p, i + 1, k);
    }
  }

  /** Every cut is at the leftmost occurrence of what is left, and the last part has none. */
  ghost predicate LeftmostCuts(parts: seq<string>, p: string)
    requires |parts| >= 1
    decreases |parts|
  {
    var s := Join(parts, p);
    if |parts| == 1 then forall k :: !OccursAt(s, p, k)
    else (forall k | k < |parts[0]| :: !OccursAt(s, p, k)) && LeftmostCuts(parts[1..], p)
  }

  /** The parts make up the original and are cut leftmost, without overlap. */
  lemma {:induction false} PartsAre(s: string, p: string)
    requires p != []
    ensures Join(Parts(s, p), p) == s && LeftmostCuts(Parts(s, p), p)
    decreases |s|
  {
    var i := First(s, p);
    if i < 0 {
      forall k | OccursAt(s, p, k)
        ensures false
      {
        FirstIsFirst(s, p, 0, k);
      }
    } else {
      var rest := Parts(s[i + |p|..], p);
      PartsAre(s[i + |p|..], p);
      assert Parts(s, p)[1..] == rest;
      assert s == s[..i] + p + s[i + |p|..];
      forall k | k < i && OccursAt(s, p, k)
        ensures false
      {
        FirstIsFirst(s, p, 0, k);
      }
    }
  }

  lemma FirstCut(first: string, p: string, rest: string)
    requires p != [] && forall k | k < |first| :: !OccursAt(first + p + rest, p, k)
    ensures var s := first + p + rest;
            First(s, p) == |first| && s[..|first|] == first && s[|first| + |p|..] == rest
  {
    var s, n := first + p + rest, |first|;
    assert s[n..n + |p|] == p;
    FirstIsFirst(s, p, 0, n);
  }

  /** Leftmost cuts are unique, so nothing but this replacement fits that description. */
  lemma {:induction false} PartsUnique(parts: seq<string>, p: string)
    requires p != [] && |parts| >= 1 && LeftmostCuts(parts, p)
    ensures Parts(Join(parts, p), p) == parts
    decreases |parts|
  {
    if |parts| > 1 {
      FirstCut(parts[0], p, Join(parts[1..], p));
      PartsUnique(parts[1..], p);
      assert parts == [parts[0]] + parts[1..];
    } else {
      assert First(parts[0], p) < 0;
    }
  }

  // ---- Its length in wrapping arithmetic --------------------------------------------------------------

  const M := 0x1_0000_0000_0000_0000

  function Wrap(x: int): nat {
    x % M
  }

  lemma {:induction false} JoinLength(parts: seq<string>, p: string, r: string)
    requires |parts| >= 1
    ensures |Join(parts, r)| == |Join(parts, p)| + (|parts| - 1) * (|r| - |p|)
  {
    if |parts| > 1 {
      JoinLength(parts[1..], p, r);
      assert (|parts| - 1) * (|r| - |p|) == (|parts| - 2) * (|r| - |p|) + (|r| - |p|);
    }
  }

  lemma WrapAdd(a: int, b: int)
    ensures Wrap(a + Wrap(b)) == Wrap(a + b)
  {
    var q := b / M;
    assert b == q * M + Wrap(b);
    WrapMultiple(a + Wrap(b), q);
  }

  lemma {:induction false} WrapMultiple(x: int, q: int)
    ensures Wrap(x + q * M) == Wrap(x)
    decreases if q < 0 then -q else q
  {
    if q > 0 {
      WrapMultiple(x, q - 1);
      assert x + q * M == (x + (q - 1) * M) + M;
    } else if q < 0 {
      WrapMultiple(x, q + 1);
      assert x + (q + 1) * M == (x + q * M) + M;
    }
  }

  /** A product of wrapped factors is as good as the product. */
  lemma WrapProduct(c: nat, d: int)
    ensures Wrap(c * Wrap(d)) == Wrap(c * d)
  {
    var q := d / M;
    assert d == Wrap(d) + q * M;
    assert c * d == c * Wrap(d) + (c * q) * M by {
      assert c * (Wrap(d) + q * M) == c * Wrap(d) + c * (q * M);
      assert c * (q * M) == (c * q) * M;
    }
    WrapMultiple(c * Wrap(d), c * q);
  }

  /** The length as the code computes it, every operation wrapping. */
  function RetLen(original: nat, count: nat, replacement: nat, pattern: nat): nat {
    Wrap(original + Wrap(count * Wrap(replacement - pattern)))
  }

  /** It is the length of the result, also when the replacement is the shorter one. */
  lemma RetLenExact(s: string, p: string, r: string)
    requires p != [] && |Replaced(s, p, r)| < M
    ensures RetLen(|s|, |Parts(s, p)| - 1, |r|, |p|) == |Replaced(s, p, r)|
  {
    PartsAre(s, p);
    JoinLength(Parts(s, p), p, r);
    RetLenArithmetic(|s|, |Parts(s, p)| - 1, |r|, |p|);
  }

  lemma RetLenArithmetic(original: nat, count: nat, replacement: nat, pattern: nat)
    requires 0 <= original + count * (replacement - pattern) < M
    ensures RetLen(original, count, replacement, pattern) == original + count * (replacement - pattern)
  {
    var d := replacement - pattern;
    WrapProduct(count, d);
    WrapAdd(original, count * d);
  }

  // ---- The two functions ------------------------------------------------------------------------------------

  method CountPattern(s: string, p: string) returns (count: nat)
    requires p != []
    ensures count == |Parts(s, p)| - 1
  {
    count := 0;
    var rest := s;
    var i := First(rest, p);
    while i >= 0
      invariant i == First(rest, p) && count + |Parts(rest, p)| == |Parts(s, p)|
      decreases |rest|
    {
      count := count + 1;
      rest := rest[i + |p|..];
      i := First(rest, p);
    }
  }

  method Copy(buf: array<char>, at: nat, data: string)
    requires at + |data| <= buf.Length
    modifies buf
    ensures buf[..at + |data|] == old(buf[..at]) + data
  {
    for i := 0 to |data|
      invariant buf[..at + i] == old(buf[..at]) + data[..i]
    {
      buf[at + i] := data[i];
      assert data[..i + 1] == data[..i] + [data[i]];
    }
    assert data[..|data|] == data;
  }

  lemma JoinNext(done: string, s: string, p: string, r: string)
    requires p != [] && First(s, p) >= 0
    ensures var i := First(s, p);
            done + Replaced(s, p, r) == done + s[..i] + r + Replaced(s[i + |p|..], p, r)
  {
    var i := First(s, p);
    assert Parts(s, p)[1..] == Parts(s[i + |p|..], p);
  }

  /** Returns null when no memory is to be had; otherwise a buffer that the result and its
      terminator fill exactly. */
  method Replace(original: string, pattern: string, replacement: string) returns (returned: array?<char>)
    requires pattern != [] && |Replaced(original, pattern, replacement)| + 1 < M
    ensures returned != null ==> fresh(returned) && returned[..] == Replaced(original, pattern, replacement) + ['\0']
  {
    var count := CountPattern(original, pattern);
    RetLenExact(original, pattern, replacement);
    var retLen := RetLen(|original|, count, |replacement|, |pattern|);
    var noMemory: bool := *;
    if noMemory {
      return null;
    }
    returned := new char[retLen + 1];
    Fill(returned, original, pattern, replacement);
    assert returned[..] == returned[..retLen + 1];
  }

  /** Copies the original, replacing every occurrence found from left to right. */
  method Fill(buf: array<char>, original: string, pattern: string, replacement: string)
    requires pattern != [] && buf.Length == |Replaced(original, pattern, replacement)| + 1
    modifies buf
    ensures buf[..] == Replaced(original, pattern, replacement) + ['\0']
  {
    ghost var goal := Replaced(original, pattern, replacement);
    var at: nat, rest := 0, original;
    var i := First(rest, pattern);
    while i >= 0
      invariant i == First(rest, pattern) && at < buf.Length
      invariant goal == buf[..at] + Replaced(rest, pattern, replacement)
      decreases |rest|
    {
      at := FillTurn(buf, at, rest, i, pattern, replacement, goal);
      rest := rest[i + |pattern|..];
      i := First(rest, pattern);
    }
    JoinLast(rest, pattern, replacement);
    Copy(buf, at, rest + ['\0']);
    assert buf[..] == buf[..buf.Length];
  }

  lemma JoinLast(s: string, p: string, r: string)
    requires p != [] && First(s, p) < 0
    ensures Replaced(s, p, r) == s
  {
  }

  /** One occurrence: what precedes it, then the replacement. */
  method FillTurn(
      buf: array<char>, at: nat, rest: string, i: nat, pattern: string, replacement: string, ghost goal: string)
      returns (next: nat)
    requires pattern != [] && i == First(rest, pattern) && at <= |goal| && buf.Length == |goal| + 1
    requires goal == buf[..at] + Replaced(rest, pattern, replacement)
    modifies buf
    ensures next < buf.Length && goal == buf[..next] + Replaced(rest[i + |pattern|..], pattern, replacement)
  {
    JoinNext(buf[..at], rest, pattern, replacement);
    CopyTwo(buf, at, rest[..i], replacement);
    next := at + i + |replacement|;
  }

  method CopyTwo(buf: array<char>, at: nat, a: string, b: string)
    requires at + |a| + |b| <= buf.Length
    modifies buf
    ensures buf[..at + |a| + |b|] == old(buf[..at]) + a + b
  {
    Copy(buf, at, a);
    Copy(buf, at + |a|, b);
  }

  // ---- Removing a character --------------------------------------------------------------------------------

  /** Nothing but the character goes, and all of it does. */
  lemma {:induction false} WithoutIs(s: string, c: char)
    ensures c !in Without(s, c) && |Without(s, c)| <= |s|
    ensures multiset(Without(s, c)) == multiset(s)[c := 0]
  {
    if s != [] {
      WithoutIs(s[1..], c);
      assert s == [s[0]] + s[1..];
    }
  }

  method RemoveChar(str: array<char>, garbage: char, ghost n: nat)
    requires n < str.Length && str[n] == '\0' && '\0' !in str[..n]
    modifies str
    ensures var r := Without(old(str[..n]), garbage);
            |r| <= n && str[..|r|] == r && str[|r|] == '\0'
    ensures str[n + 1..] == old(str[n + 1..])
  {
    var src, dst := 0, 0;
    ghost var s := str[..n];
    while str[src] != '\0'
      invariant dst <= src <= n && str[src..] == old(str[src..])
      invariant dst == |Without(s[..src], garbage)| && str[..dst] == Without(s[..src], garbage)
      decreases n - src
    {
      assert src < n && str[src] == s[src];
      assert s[..src + 1] == s[..src] + [s[src]];
      WithoutAppend(s[..src], s[src], garbage);
      str[dst] := str[src];
      if str[dst] != garbage {
        dst := dst + 1;
      }
      src := src + 1;
    }
    assert src == n && s[..n] == s;
    str[dst] := '\0';
  }
}
