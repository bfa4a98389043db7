/** Finding the end of a request head in a buffer that fills up piece by piece. */
module RequestReader {
  import opened Bytes
  import opened Ascii
  import opened Connections

  /** Control characters are not allowed, anything from 128 on is. */
  predicate Bad(c: byte) {
    (c < 32 || c == 127) && c != CR && c != LF
  }

  /** A blank line that begins at index i: its end, or 0. */
  function BlankLine(b: seq<byte>, i: nat): nat
    requires i + 1 < |b|
  {
    if b[i] == LF && b[i + 1] == LF then i + 2
    else if i + 2 < |b| && b[i] == LF && b[i + 1] == CR && b[i + 2] == LF then i + 3
    else 0
  }

  /** What the byte at index i decides: -1 for malformed, the length, or 0 for nothing. */
  function Verdict(b: seq<byte>, i: nat): int
    requires i + 1 < |b|
  {
    if Bad(b[i]) then -1 else BlankLine(b, i)
  }

  /** The first decision, if any. */
  function FirstVerdict(b: seq<byte>, i: nat): int
    decreases |b| - i
  {
    if i + 1 >= |b| then 0 else if Verdict(b, i) != 0 then Verdict(b, i) else FirstVerdict(b, i + 1)
  }

  function RequestLen(b: seq<byte>): int {
    FirstVerdict(b, 0)
  }

  // ---- What the answer means ----------------------------------------------------------------------

  /** Every index before i is undecided. */
  predicate Undecided(b: seq<byte>, i: nat) {
    forall j | 0 <= j < i && j + 1 < |b| :: Verdict(b, j) == 0
  }

  lemma {:induction false} FirstVerdictIs(b: seq<byte>, i: nat)
    ensures var r := FirstVerdict(b, i);
            if r == 0 then forall j | i <= j && j + 1 < |b| :: Verdict(b, j) == 0
            else exists k :: i <= k && k + 1 < |b| && Verdict(b, k) == r && forall j | i <= j < k :: Verdict(b, j) == 0
    decreases |b| - i
  {
    if i + 1 < |b| && Verdict(b, i) == 0 {
      FirstVerdictIs(b, i + 1);
      var r := FirstVerdict(b, i + 1);
      if r != 0 {
        var k :| i + 1 <= k && k + 1 < |b| && Verdict(b, k) == r && forall j | i + 1 <= j < k :: Verdict(b, j) == 0;
        assert forall j | i <= j < k :: Verdict(b, j) == 0;
      }
    }
  }

  /** An answer that is not zero is the decision of the first index that decides anything. */
  lemma Answer(b: seq<byte>)
    ensures RequestLen(b) == 0 <==> Undecided(b, |b|)
    ensures RequestLen(b) != 0 ==>
              exists k :: 0 <= k && k + 1 < |b| && Verdict(b, k) == RequestLen(b) && Undecided(b, k)
  {
    FirstVerdictIs(b, 0);
    if RequestLen(b) != 0 {
      var k :| 0 <= k && k + 1 < |b| && Verdict(b, k) == RequestLen(b) && forall j | 0 <= j < k :: Verdict(b, j) == 0;
      assert Undecided(b, k);
    }
  }

  /** An empty line that begins with the line feed at index k and ends before index `end`. */
  predicate EmptyLine(b: seq<byte>, k: int, end: int) {
    0 <= k < end <= |b| && b[k..end] in {[10, 10], [10, 13, 10]}
  }

  /** None of the first n octets is a control character other than carriage return and line feed. */
  predicate Printable(b: seq<byte>, n: int)
    requires n <= |b|
  {
    forall j | 0 <= j < n :: 32 <= b[j] < 127 || 128 <= b[j] || b[j] == 13 || b[j] == 10
  }

  lemma EmptyLineIs(b: seq<byte>, k: nat, end: int)
    ensures EmptyLine(b, k, end) <==> k + 1 < |b| && end > 0 && BlankLine(b, k) == end
  {
    assert k + 2 <= |b| ==> b[k..k + 2] == [b[k], b[k + 1]];
    assert k + 3 <= |b| ==> b[k..k + 3] == [b[k], b[k + 1], b[k + 2]];
  }

  /** Nothing is decided before an index if and only if no empty line begins and no control character
      stands there. */
  lemma UndecidedIs(b: seq<byte>, n: nat)
    requires n < |b|
    ensures Undecided(b, n) <==> Printable(b, n) && forall k, end | k < n :: !EmptyLine(b, k, end)
  {
    forall k: nat, end
      ensures EmptyLine(b, k, end) <==> k + 1 < |b| && end > 0 && BlankLine(b, k) == end
    {
      EmptyLineIs(b, k, end);
    }
    if Undecided(b, n) {
      forall k, end | k < n
        ensures !EmptyLine(b, k, end)
      {
        assert 0 <= k ==> Verdict(b, k) == 0;
      }
      forall j | 0 <= j < n
        ensures !Bad(b[j])
      {
        assert Verdict(b, j) == 0;
      }
    }
    if Printable(b, n) && forall k, end | k < n :: !EmptyLine(b, k, end) {
      forall k | 0 <= k < n
        ensures Verdict(b, k) == 0
      {
        assert !EmptyLine(b, k, BlankLine(b, k));
      }
    }
  }

  /** The end of a request head, in octets: it is found if and only if an empty line begins somewhere
      with no control character at or before it, and the first such line is the one that counts. */
  lemma HeadFound(b: seq<byte>, r: nat)
    requires r > 0
    ensures RequestLen(b) == r
       <==> exists k: nat :: EmptyLine(b, k, r) && Printable(b, k) && forall j, end | j < k :: !EmptyLine(b, j, end)
  {
    Answer(b);
    if RequestLen(b) == r {
      var k :| 0 <= k && k + 1 < |b| && Verdict(b, k) == r && Undecided(b, k);
      EmptyLineIs(b, k, r);
      UndecidedIs(b, k);
    }
    if k: nat :| EmptyLine(b, k, r) && Printable(b, k) && forall j, end | j < k :: !EmptyLine(b, j, end) {
      EmptyLineIs(b, k, r);
      UndecidedIs(b, k);
      FirstVerdictAt(b, 0, k);
    }
  }

  lemma {:induction false} FirstVerdictAt(b: seq<byte>, i: nat, k: nat)
    requires i <= k && k + 1 < |b| && Undecided(b, k) && Verdict(b, k) != 0
    ensures FirstVerdict(b, i) == Verdict(b, k)
    decreases k - i
  {
    if i < k {
      FirstVerdictAt(b, i + 1, k);
    }
  }

  /** A head is malformed if and only if a control character stands before the last byte, with no empty
      line that begins before it. */
  lemma HeadMalformed(b: seq<byte>)
    ensures RequestLen(b) == -1
       <==> exists k: nat :: k + 1 < |b| && (b[k] < 32 || b[k] == 127) && b[k] != 13 && b[k] != 10
                             && forall j, end | j < k :: !EmptyLine(b, j, end)
  {
    Answer(b);
    if RequestLen(b) == -1 {
      var k :| 0 <= k && k + 1 < |b| && Verdict(b, k) == -1 && Undecided(b, k);
      UndecidedIs(b, k);
    }
    if k: nat :| k + 1 < |b| && (b[k] < 32 || b[k] == 127) && b[k] != 13 && b[k] != 10
                 && forall j, end | j < k :: !EmptyLine(b, j, end) {
      var i := FirstBad(b, k);
      UndecidedIs(b, i);
      FirstVerdictAt(b, 0, i);
    }
  }

  /** The first control character. */
  lemma FirstBad(b: seq<byte>, k: nat) returns (i: nat)
    requires k < |b| && Bad(b[k])
    ensures i <= k && Bad(b[i]) && Printable(b, i)
  {
    i := 0;
    while !Bad(b[i])
      invariant i <= k && Printable(b, i)
      decreases k - i
    {
      i := i + 1;
    }
  }

  lemma {:induction false} VerdictStable(b: seq<byte>, more: seq<byte>, i: nat)
    requires FirstVerdict(b, i) != 0
    ensures FirstVerdict(b + more, i) == FirstVerdict(b, i)
    decreases |b| - i
  {
    if Verdict(b, i) == 0 {
      VerdictStable(b, more, i + 1);
    }
  }

  /** An answer that is not zero is final: no further byte changes it. */
  lemma Stable(b: seq<byte>, more: seq<byte>)
    requires RequestLen(b) != 0
    ensures RequestLen(b + more) == RequestLen(b)
  {
    VerdictStable(b, more, 0);
  }

  lemma HeadWithin(b: seq<byte>)
    requires RequestLen(b) > 0
    ensures RequestLen(b) <= |b|
  {
    HeadFound(b, RequestLen(b));
  }

  method GetRequestLen(buf: array<byte>, n: nat) returns (len: int)
    requires n <= buf.Length
    ensures len == RequestLen(buf[..n])
  {
    len := 0;
    var s := 0;
    ghost var b := buf[..n];
    while len <= 0 && s < n - 1
      invariant s <= n
      invariant len == 0 ==> FirstVerdict(b, s) == RequestLen(b)
      invariant len != 0 ==> len > 0 && len == RequestLen(b)
      decreases n - s
    {
      if Bad(buf[s]) {
        len := -1;
        break;
      } else if buf[s] == LF && buf[s + 1] == LF {
        len := s + 2;
      } else if buf[s] == LF && s + 1 < n - 1 && buf[s + 1] == CR && buf[s + 2] == LF {
        len := s + 3;
      }
      s := s + 1;
    }
  }

  // ---- Reading until the head is complete -------------------------------------------------------------

  /** The part of the stream that fits the buffer. */
  function Window(stream: seq<byte>, size: nat): seq<byte> {
    if |stream| <= size then stream else stream[..size]
  }

  /** What the reader answers on a stream: the verdict on the window if there is one; without one,
      0 when pulling filled the buffer and -1 when the stream ran dry. */
  function Outcome(stream: seq<byte>, buffered: nat, size: nat): int {
    var r := RequestLen(Window(stream, size));
    if r != 0 then r else if buffered < size <= |stream| then 0 else -1
  }

  lemma WindowDecides(stream: seq<byte>, n: nat, size: nat)
    requires n <= size && n <= |stream| && RequestLen(stream[..n]) != 0
    ensures RequestLen(Window(stream, size)) == RequestLen(stream[..n])
  {
    var w := Window(stream, size);
    assert w == stream[..n] + w[n..];
    Stable(stream[..n], w[n..]);
  }

  /** One pull at the end of what is buffered. */
  method PullMore(c: Connection, size: nat, ghost stream: seq<byte>) returns (n: int)
    requires c.dataLen < size <= c.buf.Length && c.buf[..c.dataLen] + c.incoming == stream
    modifies c`incoming, c`interrupted, c`dataLen, c.buf
    ensures c.dataLen <= size && c.buf[..c.dataLen] <= stream && Suffix(c.incoming, stream[c.dataLen..])
    ensures n > 0 || !c.interrupted ==> c.buf[..c.dataLen] + c.incoming == stream
    ensures n > 0 ==> old(c.dataLen) < c.dataLen && c.interrupted == old(c.interrupted)
    ensures n <= 0 ==> c.dataLen == old(c.dataLen) && (!c.interrupted ==> c.incoming == [])
    ensures old(c.interrupted) ==> c.interrupted
  {
    ghost var head, tail := c.buf[..c.dataLen], c.incoming;
    n := c.Pull(c.buf, c.dataLen, size - c.dataLen);
    assert stream[|head|..] == tail;
    if n > 0 {
      assert head + tail[..n] + tail[n..] == head + tail;
      c.dataLen := c.dataLen + n;
    }
  }

  /** However the transport cuts the stream, the answer is the same, and no byte is lost.  Time-outs
      and a server stop count as interruptions; what is buffered then is still a prefix of the stream,
      but bytes behind it may have been received and dropped. */
  method ReadRequest(c: Connection, size: nat) returns (r: int)
    requires c.dataLen <= size <= c.buf.Length
    modifies c`incoming, c`interrupted, c`dataLen, c.buf
    ensures c.dataLen <= size && c.buf[..c.dataLen] <= old(c.buf[..c.dataLen] + c.incoming)
    ensures !c.interrupted ==> c.buf[..c.dataLen] + c.incoming == old(c.buf[..c.dataLen] + c.incoming)
    ensures !c.interrupted ==>
              r == Outcome(old(c.buf[..c.dataLen] + c.incoming), old(c.dataLen), size)
    ensures r > 0 ==> r <= c.dataLen && r == RequestLen(c.buf[..c.dataLen])
  {
    ghost var stream, start := c.buf[..c.dataLen] + c.incoming, c.dataLen;
    var n := 0;
    var len := GetRequestLen(c.buf, c.dataLen);
    while c.dataLen < size && len == 0
      invariant c.dataLen <= size && c.buf[..c.dataLen] + c.incoming == stream
      invariant len == RequestLen(c.buf[..c.dataLen]) && start <= c.dataLen
      invariant n >= 0 && (n == 0 <==> c.dataLen == start)
      decreases size - c.dataLen
    {
      var stops := *;
      if stops {
        c.interrupted := true;
        break;
      }
      n := PullMore(c, size, stream);
      if n <= 0 {
        break;
      }
      len := GetRequestLen(c.buf, c.dataLen);
    }
    r := if len <= 0 && n <= 0 then -1 else len;
    if len > 0 {
      HeadWithin(c.buf[..c.dataLen]);
    }
    if !c.interrupted {
      Conclude(stream, c.buf[..c.dataLen], start, size, n, len);
    }
  }

  /** What the loop leaves behind: a verdict, a full buffer, or all there is. */
  lemma Conclude(stream: seq<byte>, b: seq<byte>, start: nat, size: nat, n: int, len: int)
    requires b <= stream && start <= |b| <= size && len == RequestLen(b)
    requires len == 0 ==> (|b| == size && (n > 0 <==> start < size)) || (b == stream && |b| < size && n <= 0)
    ensures (if len <= 0 && n <= 0 then -1 else len) == Outcome(stream, start, size)
  {
    assert b == stream[..|b|];
    if len != 0 {
      WindowDecides(stream, |b|, size);
      NegativeIsOne(b, 0);
    } else {
      assert b == Window(stream, size);
    }
  }

  lemma {:induction false} NegativeIsOne(b: seq<byte>, i: nat)
    ensures FirstVerdict(b, i) >= -1
    decreases |b| - i
  {
    if i + 1 < |b| {
      NegativeIsOne(b, i + 1);
    }
  }
}
