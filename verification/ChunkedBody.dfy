/** Reading a request body: the length-delimited reader over the already buffered bytes and
    the socket, and the chunked transfer coding on top of it (section 4.1 of RFC 7230). */
module ChunkedBody {
  import opened Bytes
  import opened Ascii
  import opened Connections
  import opened Collections

  const CRLF: seq<byte> := [13, 10]
  const INT64_MAX := 0x7FFF_FFFF_FFFF_FFFF
  const ULONG_MAX := 0xFFFF_FFFF_FFFF_FFFF
  const LENBUF := 64

  // ---- Bytes still unread ------------------------------------------------------------

  /** The part of the body that was received together with the request head. */
  ghost function Buffered(conn: Connection): seq<byte>
    requires conn.Valid() && conn.consumedContent >= 0
    reads conn`requestLen, conn`dataLen, conn`consumedContent, conn.buf
  {
    if conn.requestLen + conn.consumedContent < conn.dataLen
    then conn.buf[conn.requestLen + conn.consumedContent..conn.dataLen] else []
  }

  /** What is unread is the buffered rest, then what the socket still delivers. */
  ghost predicate Ready(conn: Connection)
    reads conn`requestLen, conn`dataLen, conn`consumedContent, conn`incoming, conn`unread, conn.buf
  {
    && conn.Valid() && conn.consumedContent >= 0
    && conn.unread == Buffered(conn) + conn.incoming
  }

  /** Nothing more will ever come. */
  ghost predicate Dead(conn: Connection)
    requires Ready(conn)
    reads conn, conn.buf
  {
    Buffered(conn) == [] && (conn.interrupted || conn.incoming == [])
  }

  /** The bytes a C read result stands for: none when it is negative. */
  function Count(nread: int): nat {
    if nread < 0 then 0 else nread
  }

  /** Reads from the socket until `len` bytes have arrived or the socket fails. */
  method PullAll(conn: Connection, dst: array<byte>, off: nat, len: nat) returns (nread: int)
    requires off + len <= dst.Length
    modifies conn`incoming, conn`interrupted, conn`consumedContent, dst
    ensures Count(nread) <= len && Count(nread) <= |old(conn.incoming)|
    ensures dst[..off + Count(nread)] == old(dst[..off]) + old(conn.incoming)[..Count(nread)]
    ensures !conn.interrupted ==> conn.incoming == old(conn.incoming)[Count(nread)..]
    ensures conn.consumedContent == old(conn.consumedContent) + Count(nread)
    ensures Count(nread) < len ==> conn.interrupted || conn.incoming == []
    ensures old(conn.interrupted) ==> conn.interrupted && Count(nread) == 0
  {
    nread := 0;
    var left := len;
    while left > 0
      invariant 0 <= nread && 0 <= left && nread + left == len && nread <= |old(conn.incoming)|
      invariant dst[..off + nread] == old(dst[..off]) + old(conn.incoming)[..nread]
      invariant conn.incoming == old(conn.incoming)[nread..]
      invariant conn.consumedContent == old(conn.consumedContent) + nread
      invariant old(conn.interrupted) ==> conn.interrupted && nread == 0
    {
      var stops: bool := *;
      if stops {
        conn.interrupted := true;
        return;
      }
      var n := conn.Pull(dst, off + nread, left);
      if n <= 0 {
        nread := if nread == 0 then n else nread;
        return;
      }
      ghost var all := old(conn.incoming);
      assert all[..nread + n] == all[..nread] + all[nread..][..n];
      conn.consumedContent := conn.consumedContent + n;
      nread := nread + n;
      left := left - n;
    }
  }

  /** Copies out at most `want` of the buffered bytes. */
  method TakeBuffered(conn: Connection, dst: array<byte>, off: nat, want: nat) returns (k: nat)
    requires Ready(conn) && off + want <= dst.Length && dst != conn.buf
    modifies conn`consumedContent, conn`unread, dst
    ensures k <= want && k <= |old(Buffered(conn))|
    ensures Ready(conn) && conn.consumedContent == old(conn.consumedContent) + k
    ensures dst[..off + k] == old(dst[..off]) + old(Buffered(conn))[..k]
    ensures Buffered(conn) == old(Buffered(conn))[k..]
    ensures k < want ==> Buffered(conn) == []
  {
    k := 0;
    var bufferedLen := conn.dataLen - conn.requestLen - conn.consumedContent;
    if bufferedLen > 0 {
      if want < bufferedLen {
        bufferedLen := want;
      }
      var body := conn.buf[conn.requestLen + conn.consumedContent..conn.dataLen];
      CopyTo(dst, off, body[..bufferedLen]);
      Consume(conn, bufferedLen);
      k := bufferedLen;
    }
  }

  /** Moves on behind k buffered bytes. */
  method Consume(conn: Connection, k: nat)
    requires Ready(conn) && k <= |Buffered(conn)|
    modifies conn`consumedContent, conn`unread
    ensures Ready(conn) && conn.consumedContent == old(conn.consumedContent) + k
    ensures Buffered(conn) == old(Buffered(conn))[k..]
  {
    conn.consumedContent := conn.consumedContent + k;
    conn.unread := Buffered(conn) + conn.incoming;
  }

  lemma Glue(b: seq<byte>, rest: seq<byte>, k: nat, m: nat)
    requires k <= |b| && m <= |rest| && (k < |b| ==> m == 0)
    ensures (b + rest)[..k + m] == b[..k] + rest[..m]
    ensures (b + rest)[k + m..] == b[k..] + rest[m..]
  {
  }

  /** Copies out `want` bytes: first what is buffered, then what the socket delivers. */
  method Fetch(conn: Connection, dst: array<byte>, off: nat, want: nat) returns (nread: int)
    requires Ready(conn) && off + want <= dst.Length && dst != conn.buf
    modifies conn`incoming, conn`unread, conn`interrupted, conn`consumedContent, dst
    ensures Ready(conn) && (old(conn.interrupted) ==> conn.interrupted)
    ensures Count(nread) <= want && Count(nread) <= |old(conn.unread)|
    ensures dst[..off + Count(nread)] == old(dst[..off]) + old(conn.unread)[..Count(nread)]
    ensures !conn.interrupted ==> conn.unread == old(conn.unread)[Count(nread)..]
    ensures conn.consumedContent == old(conn.consumedContent) + Count(nread)
    ensures Count(nread) < want ==> Dead(conn)
    ensures old(Dead(conn)) ==> Count(nread) == 0
  {
    ghost var b, rest := Buffered(conn), conn.incoming;
    var k := TakeBuffered(conn, dst, off, want);
    if k == want {
      Glue(b, rest, k, 0);
      return k;
    }
    var n := FetchRest(conn, dst, off + k, want - k);
    Glue(b, rest, k, Count(n));
    nread := if n >= 0 then k + n else if k > 0 then k else n;
  }

  /** With the buffer empty, everything comes from the socket. */
  method FetchRest(conn: Connection, dst: array<byte>, off: nat, want: nat) returns (n: int)
    requires Ready(conn) && off + want <= dst.Length && dst != conn.buf && Buffered(conn) == []
    modifies conn`incoming, conn`unread, conn`interrupted, conn`consumedContent, dst
    ensures Ready(conn) && Buffered(conn) == [] && (old(conn.interrupted) ==> conn.interrupted && Count(n) == 0)
    ensures Count(n) <= want && Count(n) <= |old(conn.incoming)|
    ensures dst[..off + Count(n)] == old(dst[..off]) + old(conn.incoming)[..Count(n)]
    ensures !conn.interrupted ==> conn.unread == old(conn.incoming)[Count(n)..]
    ensures conn.consumedContent == old(conn.consumedContent) + Count(n)
    ensures Count(n) < want ==> Dead(conn)
  {
    n := PullAll(conn, dst, off, want);
    conn.unread := conn.incoming;
  }

  /** Hands out at most `len` bytes, never more than the content length leaves. */
  method ReadInner(conn: Connection, dst: array<byte>, off: nat, len: nat) returns (nread: int)
    requires Ready(conn) && off + len <= dst.Length && dst != conn.buf
    modifies conn`incoming, conn`unread, conn`interrupted, conn`consumedContent, conn`contentLen, dst
    ensures Ready(conn) && (old(conn.interrupted) ==> conn.interrupted)
    ensures Count(nread) <= len && Count(nread) <= |old(conn.unread)|
    ensures dst[..off + Count(nread)] == old(dst[..off]) + old(conn.unread)[..Count(nread)]
    ensures !conn.interrupted ==> conn.unread == old(conn.unread)[Count(nread)..]
    ensures conn.consumedContent == old(conn.consumedContent) + Count(nread)
    ensures old(Dead(conn)) ==> Count(nread) == 0
    ensures old(conn.consumedContent <= conn.contentLen)
            ==> conn.consumedContent <= conn.contentLen == old(conn.contentLen)
    ensures old(conn.consumedContent + len <= conn.contentLen) && Count(nread) < len <= INT_MAX
            ==> Dead(conn)
  {
    var len64 := if len > INT_MAX then INT_MAX else len;
    if conn.consumedContent == 0 && conn.contentLen == -1 {
      conn.contentLen := INT64_MAX;
    }
    nread := 0;
    if conn.consumedContent < conn.contentLen {
      var leftToRead := conn.contentLen - conn.consumedContent;
      if leftToRead < len64 {
        len64 := leftToRead;
      }
      nread := Fetch(conn, dst, off, len64);
    }
  }

  /** One character of the chunk framing, or 0 when there is none. */
  method GetC(conn: Connection) returns (c: byte)
    requires Ready(conn) && conn.consumedContent <= conn.contentLen
    modifies conn`incoming, conn`unread, conn`interrupted, conn`consumedContent, conn`contentLen
    ensures Ready(conn) && conn.consumedContent <= conn.contentLen
    ensures old(conn.interrupted) ==> conn.interrupted
    ensures (c == 0 && Dead(conn)) || (|old(conn.unread)| > 0 && c == old(conn.unread)[0])
    ensures !conn.interrupted ==>
              conn.unread == if |old(conn.unread)| > 0 then old(conn.unread)[1..] else old(conn.unread)
    ensures !conn.interrupted && |old(conn.unread)| > 0 ==> c == old(conn.unread)[0]
    ensures old(Dead(conn)) ==> Dead(conn) && c == 0
  {
    conn.contentLen := conn.contentLen + 1;
    var one := new byte[1];
    var n := ReadInner(conn, one, 0, 1);
    if n <= 0 {
      return 0;
    }
    assert one[0] == one[..1][0];
    return one[0];
  }

  // ---- Chunk sizes -------------------------------------------------------------------

  /** The number of leading hexadecimal digits. */
  function HexRun(s: seq<byte>): (n: nat)
    ensures n <= |s|
  {
    if s != [] && IsHex(s[0]) then 1 + HexRun(s[1..]) else 0
  }

  function HexValue(s: seq<byte>): nat
    requires forall c <- s :: IsHex(c)
  {
    if s == [] then 0 else 16 * HexValue(s[..|s| - 1]) + Digit(s[|s| - 1])
  }

  lemma {:induction false} HexRunHex(s: seq<byte>)
    ensures forall c <- s[..HexRun(s)] :: IsHex(c)
  {
    if s != [] && IsHex(s[0]) {
      HexRunHex(s[1..]);
      assert s[..HexRun(s)] == [s[0]] + s[1..][..HexRun(s[1..])];
    }
  }

  lemma {:induction false} HexRunExact(digits: seq<byte>, rest: seq<byte>)
    requires forall c <- digits :: IsHex(c)
    requires rest != [] && !IsHex(rest[0])
    ensures HexRun(digits + rest) == |digits|
  {
    if digits != [] {
      HexRunExact(digits[1..], rest);
      assert (digits + rest)[1..] == digits[1..] + rest;
    } else {
      assert digits + rest == rest;
    }
  }

  /** The value of the leading digits, which saturates, and their number. */
  function Converted(s: seq<byte>): (r: (nat, nat))
    ensures r.1 <= |s|
  {
    HexRunHex(s);
    var v := HexValue(s[..HexRun(s)]);
    (if v > ULONG_MAX then ULONG_MAX else v, HexRun(s))
  }

  /** How many characters of a leading 0x are passed over. */
  function Prefix(s: seq<byte>): nat {
    if |s| >= 3 && s[0] == '0' as int && s[1] in {'x' as int, 'X' as int} && IsHex(s[2]) then 2 else 0
  }

  /** strtoul in base 16 on a string that starts with a letter or digit: the value and the index of the
      first character not used. */
  function Strtoul16(s: seq<byte>): (r: (nat, nat))
    ensures r.1 <= |s|
  {
    var (v, n) := Converted(s[Prefix(s)..]);
    (v, Prefix(s) + n)
  }

  /** A chunk-size field the length buffer can hold. */
  predicate SizeField(digits: seq<byte>) {
    1 <= |digits| <= LENBUF - 3 && (forall c <- digits :: IsHex(c)) && HexValue(digits) <= ULONG_MAX
  }

  /** Digits up to the first character that is none, with a value of at most 64 bits. */
  lemma ConvertedIs(digits: seq<byte>, rest: seq<byte>)
    requires (forall c <- digits :: IsHex(c)) && rest != [] && !IsHex(rest[0])
    ensures var v := HexValue(digits);
            Converted(digits + rest) == (if v < 0x1_0000_0000_0000_0000 then v else 0xFFFF_FFFF_FFFF_FFFF, |digits|)
  {
    HexRunExact(digits, rest);
    assert (digits + rest)[..|digits|] == digits;
  }

  /** No 0x that a digit follows. */
  predicate Unprefixed(digits: seq<byte>, rest: seq<byte>) {
    digits != [48] || |rest| < 2 || rest[0] !in {'x' as int, 'X' as int} || !IsHex(rest[1])
  }

  lemma NoPrefix(digits: seq<byte>, rest: seq<byte>)
    requires (forall c <- digits :: IsHex(c)) && rest != [] && !IsHex(rest[0]) && Unprefixed(digits, rest)
    ensures Prefix(digits + rest) == 0
  {
    var s := digits + rest;
    assert |digits| > 1 ==> IsHex(s[1]);
    assert |digits| > 0 ==> s[0] == digits[0];
    assert |digits| == 1 && |rest| >= 2 ==> s[1] == rest[0] && s[2] == rest[1] && digits == [digits[0]];
    assert |digits| == 0 ==> s[0] == rest[0];
  }

  lemma ConvertedAt(s: seq<byte>, digits: seq<byte>, rest: seq<byte>, prefix: nat)
    requires (forall c <- digits :: IsHex(c)) && rest != [] && !IsHex(rest[0])
    requires prefix == Prefix(s) && s[prefix..] == digits + rest
    ensures var v := HexValue(digits);
            Strtoul16(s) == (if v < 0x1_0000_0000_0000_0000 then v else 0xFFFF_FFFF_FFFF_FFFF, |digits| + prefix)
  {
    ConvertedIs(digits, rest);
  }

  /** strtoul takes the leading digits, at most 2^64 - 1. */
  lemma StrtoulIs(digits: seq<byte>, rest: seq<byte>)
    requires (forall c <- digits :: IsHex(c)) && rest != [] && !IsHex(rest[0]) && Unprefixed(digits, rest)
    ensures var v := HexValue(digits);
            Strtoul16(digits + rest)
            == (if v < 0x1_0000_0000_0000_0000 then v else 0xFFFF_FFFF_FFFF_FFFF, |digits|)
  {
    NoPrefix(digits, rest);
    assert (digits + rest)[0..] == digits + rest;
    ConvertedAt(digits + rest, digits, rest, 0);
  }

  lemma SizeFieldParsed(digits: seq<byte>)
    requires SizeField(digits)
    ensures Strtoul16(digits + CRLF) == (HexValue(digits), |digits|)
  {
    StrtoulIs(digits, CRLF);
  }

  /** A leading 0x is passed over if a digit follows. */
  lemma PrefixParsed(s: seq<byte>, digits: seq<byte>, rest: seq<byte>)
    requires |s| > 2 && s[0] == 48 && (s[1] == 120 || s[1] == 88) && s[2..] == digits + rest
    requires digits != [] && (forall c <- digits :: IsHex(c)) && rest != [] && !IsHex(rest[0])
    ensures var v := HexValue(digits);
            Strtoul16(s) == (if v < 0x1_0000_0000_0000_0000 then v else 0xFFFF_FFFF_FFFF_FFFF, |digits| + 2)
  {
    assert s[2] == s[2..][0] == digits[0];
    ConvertedAt(s, digits, rest, 2);
  }

  datatype Verdict = More | Complete | Illegal

  /** What the reader decides after storing one more character in the length buffer. */
  function Judge(lenbuf: seq<byte>): (v: Verdict)
    requires lenbuf != []
  {
    var i := |lenbuf| - 1;
    if i > 0 && lenbuf[i] == CR && lenbuf[i - 1] != CR then More
    else if i > 1 && lenbuf[i] == LF && lenbuf[i - 1] == CR then Complete
    else if !IsAlnum(lenbuf[i]) then Illegal
    else More
  }

  /** The lines the reader collects: letters and digits, begun by one of them and perhaps interspersed
      with single carriage returns, then CR LF, short enough for the length buffer. */
  predicate IsLine(line: seq<byte>) {
    && 3 <= |line| < LENBUF && line[|line| - 2] == 13 && line[|line| - 1] == 10
    && forall i | 0 <= i < |line| - 1 :: IsAlnum(line[i]) || (i > 0 && line[i] == 13 && line[i - 1] != 13)
  }

  /** The reader wants more after every character before index n. */
  predicate Unfinished(all: seq<byte>, n: nat)
    requires n <= |all|
  {
    forall k | 1 <= k <= n :: Judge(all[..k]) == More
  }

  /** A line is complete with its last character and not before; nothing else is. */
  lemma IsLineJudged(all: seq<byte>, n: nat)
    requires n <= |all|
    ensures IsLine(all[..n]) <==> 1 <= n < LENBUF && Unfinished(all, n - 1) && Judge(all[..n]) == Complete
  {
    forall k | 1 <= k <= n
      ensures all[..k][k - 1] == all[k - 1] && (k >= 2 ==> all[..k][k - 2] == all[k - 2])
      ensures k < n ==> all[..n][k - 1] == all[k - 1] && (k >= 2 ==> all[..n][k - 2] == all[k - 2])
    {
    }
    if IsLine(all[..n]) {
      forall k | 1 <= k < n
        ensures Judge(all[..k]) == More
      {
        assert IsAlnum(all[..n][k - 1]) || (k - 1 > 0 && all[..n][k - 1] == 13 && all[..n][k - 2] != 13);
      }
    }
    if 1 <= n < LENBUF && Unfinished(all, n - 1) && Judge(all[..n]) == Complete {
      forall i | 0 <= i < n - 1
        ensures IsAlnum(all[..n][i]) || (i > 0 && all[..n][i] == 13 && all[..n][i - 1] != 13)
      {
        assert Judge(all[..i + 1]) == More;
      }
    }
  }

  /** A byte stream begins with a line of the given length. */
  predicate Begins(all: seq<byte>, n: nat) {
    n <= |all| && IsLine(all[..n])
  }

  /** The first verdict other than "more" settles where the line ends, if it does. */
  lemma LineSettled(all: seq<byte>, n: nat, verdict: Verdict)
    requires 1 <= n <= |all| && n < LENBUF && Unfinished(all, n - 1) && verdict == Judge(all[..n])
    ensures verdict == Complete ==> Begins(all, n)
    ensures verdict == Complete ==> forall k: nat :: Begins(all, k) ==> k == n
    ensures verdict == Illegal ==> forall k: nat :: !Begins(all, k)
  {
    IsLineJudged(all, n);
    forall k: nat | Begins(all, k) && verdict != More
      ensures verdict == Complete && k == n
    {
      IsLineJudged(all, k);
    }
  }

  lemma NoLine(all: seq<byte>, n: nat)
    requires n <= |all| && Unfinished(all, n) && (n == |all| || n == LENBUF - 1)
    ensures forall k: nat :: !Begins(all, k)
  {
    forall k: nat | Begins(all, k)
      ensures false
    {
      IsLineJudged(all, k);
    }
  }

  /** Reads one character into the length buffer and judges it. */
  method StoreChar(conn: Connection, buf: seq<byte>, ghost all: seq<byte>)
    returns (lenbuf: seq<byte>, verdict: Verdict)
    requires Ready(conn) && conn.consumedContent <= conn.contentLen
    requires (!conn.interrupted ==> all == buf + conn.unread) && (buf != [] ==> IsAlnum(buf[0]))
    requires buf == [] ==> all == conn.unread
    requires |buf| < LENBUF - 1 && Unfinished(buf, |buf|)
    modifies conn`incoming, conn`unread, conn`interrupted, conn`consumedContent, conn`contentLen
    ensures Ready(conn) && conn.consumedContent <= conn.contentLen
    ensures old(conn.interrupted) ==> conn.interrupted
    ensures |lenbuf| == |buf| + 1 && buf <= lenbuf
    ensures verdict == More ==> Unfinished(lenbuf, |lenbuf|)
    ensures verdict == Complete ==> IsLine(lenbuf)
    ensures verdict != Illegal ==> IsAlnum(lenbuf[0]) && (buf == [] ==> all != [] && lenbuf[0] == all[0])
    ensures verdict != Illegal && !conn.interrupted ==> all == lenbuf + conn.unread
    ensures !conn.interrupted && verdict == Complete ==> forall k: nat :: Begins(all, k) <==> k == |lenbuf|
    ensures !conn.interrupted && verdict == Illegal ==> forall k: nat :: !Begins(all, k)
  {
    ghost var unread := conn.unread;
    var c := GetC(conn);
    if unread != [] {
      MoveOne(buf, unread);
    }
    lenbuf := buf + [c];
    verdict := Judge(lenbuf);
    JudgedNext(buf, c);
    if !conn.interrupted {
      Stored(all, buf, lenbuf, verdict);
    }
  }

  lemma JudgedNext(buf: seq<byte>, c: byte)
    requires |buf| < LENBUF - 1 && Unfinished(buf, |buf|)
    ensures var lenbuf := buf + [c];
            && (Judge(lenbuf) == More ==> Unfinished(lenbuf, |lenbuf|))
            && (Judge(lenbuf) == Complete ==> IsLine(lenbuf))
  {
    var lenbuf := buf + [c];
    assert lenbuf[..|lenbuf|] == lenbuf;
    assert forall k | 1 <= k <= |buf| :: lenbuf[..k] == buf[..k];
    IsLineJudged(lenbuf, |lenbuf|);
  }

  /** Collects a chunk-size line character by character in the length buffer: it succeeds if and only
      if the unread bytes begin with a line. */
  method ReadLine(conn: Connection) returns (ok: bool, lenbuf: seq<byte>)
    requires Ready(conn) && conn.consumedContent <= conn.contentLen
    modifies conn`incoming, conn`unread, conn`interrupted, conn`consumedContent, conn`contentLen
    ensures Ready(conn) && conn.consumedContent <= conn.contentLen
    ensures old(conn.interrupted) ==> conn.interrupted
    ensures ok ==> IsLine(lenbuf) && old(conn.unread) != [] && lenbuf[0] == old(conn.unread)[0]
    ensures ok && !conn.interrupted ==> old(conn.unread) == lenbuf + conn.unread
    ensures !conn.interrupted ==> forall k: nat :: Begins(old(conn.unread), k) <==> ok && k == |lenbuf|
  {
    lenbuf := [];
    ghost var all := conn.unread;
    while |lenbuf| < LENBUF - 1
      invariant Ready(conn) && conn.consumedContent <= conn.contentLen && |lenbuf| < LENBUF
      invariant old(conn.interrupted) ==> conn.interrupted
      invariant !conn.interrupted ==> all == lenbuf + conn.unread
      invariant if lenbuf == [] then all == conn.unread else IsAlnum(lenbuf[0]) && all != [] && lenbuf[0] == all[0]
      invariant Unfinished(lenbuf, |lenbuf|)
    {
      var verdict;
      lenbuf, verdict := StoreChar(conn, lenbuf, all);
      if verdict == Illegal {
        return false, lenbuf;
      }
      if verdict == Complete {
        return true, lenbuf;
      }
    }
    if !conn.interrupted {
      FullBuffer(all, lenbuf);
    }
    return false, lenbuf;
  }

  lemma FullBuffer(all: seq<byte>, lenbuf: seq<byte>)
    requires lenbuf <= all && |lenbuf| == LENBUF - 1 && Unfinished(lenbuf, |lenbuf|)
    ensures forall k: nat :: !Begins(all, k)
  {
    assert forall k | 1 <= k <= |lenbuf| :: all[..k] == lenbuf[..k];
    NoLine(all, |lenbuf|);
  }

  /** What one more character means for the line. */
  lemma Stored(all: seq<byte>, had: seq<byte>, lenbuf: seq<byte>, verdict: Verdict)
    requires had <= all && |had| < LENBUF - 1 && Unfinished(had, |had|)
    requires if |had| < |all| then lenbuf == all[..|had| + 1] else |lenbuf| == |had| + 1 && had <= lenbuf
    requires verdict == Judge(lenbuf) && (verdict != Illegal ==> lenbuf <= all)
    ensures verdict == Complete ==> forall k: nat :: Begins(all, k) <==> k == |lenbuf|
    ensures verdict == Illegal ==> forall k: nat :: !Begins(all, k)
  {
    assert forall k | 1 <= k <= |had| :: all[..k] == had[..k];
    if |had| < |all| {
      LineSettled(all, |lenbuf|, verdict);
    } else {
      NoLine(all, |had|);
    }
  }

  /** The line holds a size that ends at a carriage return. */
  predicate IsSizeLine(line: seq<byte>) {
    IsLine(line) && line[Strtoul16(line).1] == 13
  }

  /** No size line is at the front of the stream. */
  predicate NoSizeLine(all: seq<byte>) {
    forall k | 0 <= k <= |all| :: !IsSizeLine(all[..k])
  }

  /** Reads a chunk-size line and converts it; it succeeds if and only if there is one. */
  method ReadSize(conn: Connection) returns (ok: bool, size: nat, ghost line: seq<byte>)
    requires Ready(conn) && conn.consumedContent <= conn.contentLen
    modifies conn`incoming, conn`unread, conn`interrupted, conn`consumedContent, conn`contentLen
    ensures Ready(conn) && conn.consumedContent <= conn.contentLen
    ensures old(conn.interrupted) ==> conn.interrupted
    ensures !conn.interrupted ==> (ok <==> !NoSizeLine(old(conn.unread)))
    ensures ok && !conn.interrupted ==> IsSizeLine(line) && old(conn.unread) == line + conn.unread
    ensures ok ==> size == Strtoul16(line).0
    ensures |old(conn.unread)| > 0 && !IsAlnum(old(conn.unread)[0]) ==> !ok
  {
    ghost var all := conn.unread;
    var lenbuf: seq<byte>;
    ok, lenbuf := ReadLine(conn);
    line := lenbuf;
    if !conn.interrupted {
      SizeLineBegins(all, lenbuf, ok);
    }
    if !ok {
      return false, 0, line;
    }
    var (value, end) := Strtoul16(lenbuf);
    LineEnd(lenbuf);
    return lenbuf[end] == CR, value, line;
  }

  lemma SizeLineBegins(all: seq<byte>, line: seq<byte>, ok: bool)
    requires forall k: nat :: Begins(all, k) <==> ok && k == |line|
    requires ok ==> line <= all
    ensures NoSizeLine(all) <==> !(ok && IsSizeLine(line))
  {
    forall k | 0 <= k <= |all|
      ensures IsSizeLine(all[..k]) ==> ok && all[..k] == line
    {
      assert IsLine(all[..k]) ==> Begins(all, k);
    }
    if ok {
      assert all[..|line|] == line;
    }
  }

  /** A size field and its line end are a size line, the only one at the front. */
  lemma SizeFieldRead(all: seq<byte>, digits: seq<byte>)
    requires SizeField(digits) && digits + CRLF <= all
    ensures !NoSizeLine(all)
    ensures forall line | line <= all && IsSizeLine(line) :: line == digits + CRLF
    ensures Strtoul16(digits + CRLF).0 == HexValue(digits)
  {
    var field := digits + CRLF;
    SizeFieldLine(digits);
    SizeFieldParsed(digits);
    assert all[..|field|] == field && IsSizeLine(field);
    forall line | line <= all && IsSizeLine(line)
      ensures line == field
    {
      assert all[..|line|] == line;
      IsLineJudged(all, |line|);
      IsLineJudged(all, |field|);
    }
  }

  lemma SizeFieldLine(digits: seq<byte>)
    requires SizeField(digits)
    ensures IsLine(digits + CRLF)
  {
    assert forall i | 0 <= i < |digits| :: (digits + CRLF)[i] in digits;
  }

  /** The conversion stops within the line, at its CR LF at the latest. */
  lemma LineEnd(line: seq<byte>)
    requires IsLine(line)
    ensures Strtoul16(line).1 < |line|
  {
    HexRunShort(line[Prefix(line)..]);
  }

  /** A run of digits ends before a line feed. */
  lemma {:induction false} HexRunShort(s: seq<byte>)
    ensures s != [] && s[|s| - 1] == LF ==> HexRun(s) < |s|
  {
    if |s| > 1 {
      HexRunShort(s[1..]);
    }
  }

  /** n in hexadecimal digits. */
  function HexText(n: nat, capitals: bool): seq<byte> {
    var digit := if capitals then "0123456789ABCDEF"[n % 16] else "0123456789abcdef"[n % 16];
    (if n < 16 then [] else HexText(n / 16, capitals)) + [digit as int]
  }

  /** A size is read as the number it was written for, in either case. */
  lemma {:induction false} HexTextRead(n: nat, capitals: bool)
    ensures (forall c <- HexText(n, capitals) :: IsHex(c)) && HexValue(HexText(n, capitals)) == n
  {
    var t := HexText(n, capitals);
    var last := t[|t| - 1];
    assert IsHex(last) && Digit(last) == n % 16;
    if n >= 16 {
      HexTextRead(n / 16, capitals);
      assert t[..|t| - 1] == HexText(n / 16, capitals);
    } else {
      assert t[..0] == [];
    }
  }

  // ---- Bodies ------------------------------------------------------------------------

  type SizeDigits = d: seq<byte> | SizeField(d) witness [48]

  type LastDigits = d: SizeDigits | HexValue(d) == 0 witness [48]

  datatype RawChunk = RawChunk(digits: SizeDigits, data: seq<byte>)

  /** A chunk that is not empty and whose size field says how long it is. */
  type Chunk = c: RawChunk | c.data != [] && HexValue(c.digits) == |c.data| witness RawChunk([49], [0])

  /** What is left of a chunked body: the rest of the chunk being read, the chunks after it
      and the size field of the final, empty chunk. */
  datatype Body = Body(current: seq<byte>, chunks: seq<Chunk>, last: LastDigits)

  /** The wire form of whole chunks, the last size line and what follows the body. */
  function ChunksWire(cs: seq<Chunk>, last: seq<byte>, tail: seq<byte>): seq<byte> {
    if cs == [] then last + CRLF + tail
    else cs[0].digits + CRLF + (cs[0].data + (CRLF + ChunksWire(cs[1..], last, tail)))
  }

  function Wire(b: Body, tail: seq<byte>): (w: seq<byte>) {
    var rest := ChunksWire(b.chunks, b.last, tail);
    if b.current == [] then rest else b.current + (CRLF + rest)
  }

  function ChunksData(cs: seq<Chunk>): seq<byte> {
    if cs == [] then [] else cs[0].data + ChunksData(cs[1..])
  }

  function Payload(b: Body): seq<byte> {
    b.current + ChunksData(b.chunks)
  }

  /** Begins the next chunk. */
  function Open(b: Body): Body
    requires b.current == [] && b.chunks != []
  {
    Body(b.chunks[0].data, b.chunks[1..], b.last)
  }

  /** The connection stands at the beginning of body b, which `tail` follows on the wire. */
  ghost predicate At(conn: Connection, b: Body, tail: seq<byte>)
    reads conn, conn.buf
  {
    && Ready(conn) && conn.consumedContent <= conn.contentLen
    && conn.chunkRemainder == |b.current| && conn.unread == Wire(b, tail)
  }

  /** Reading k bytes of the current chunk; its CR LF follows when that exhausts it. */
  lemma WireCurrent(b: Body, tail: seq<byte>, k: nat)
    requires 0 < k <= |b.current|
    ensures k <= |Wire(b, tail)| && Wire(b, tail)[..k] == b.current[..k]
    ensures k < |b.current| ==> Wire(b, tail)[k..] == Wire(b.(current := b.current[k..]), tail)
    ensures k == |b.current| ==> CRLF <= Wire(b, tail)[k..]
                                 && Wire(b, tail)[k..][2..] == Wire(b.(current := b.current[k..]), tail)
  {
  }

  /** Handing out k bytes of the current chunk takes them off the front of the payload. */
  lemma PayloadStep(got: seq<byte>, b: Body, k: nat)
    requires k <= |b.current|
    ensures got + b.current[..k] + Payload(b.(current := b.current[k..])) == got + Payload(b)
  {
    assert b.current == b.current[..k] + b.current[k..];
  }

  /** Reads the CR LF that ends a chunk. */
  method EndOfChunk(conn: Connection) returns (ok: bool)
    requires Ready(conn) && conn.consumedContent <= conn.contentLen
    modifies conn`incoming, conn`unread, conn`interrupted, conn`consumedContent, conn`contentLen
    ensures Ready(conn) && conn.consumedContent <= conn.contentLen
    ensures old(conn.interrupted) ==> conn.interrupted
    ensures old(Dead(conn)) ==> !ok
    ensures CRLF <= old(conn.unread) ==> conn.interrupted || (ok && conn.unread == old(conn.unread)[2..])
  {
    ghost var u := conn.unread;
    var c := GetC(conn);
    if c != CR {
      return false;
    }
    assert CRLF <= u ==> u[1..][0] == LF;
    c := GetC(conn);
    ok := c == LF;
  }

  /** Copies from the chunk being read and, when that exhausts it, reads its CR LF.  What
      goes into the caller's buffer is returned as `piece`. */
  method ReadPart(conn: Connection, left: nat) returns (ok: bool, got: int, readNow: nat, piece: seq<byte>)
    requires Ready(conn) && conn.consumedContent <= conn.contentLen && conn.chunkRemainder > 0
    requires 0 < left <= INT_MAX
    modifies conn`incoming, conn`unread, conn`interrupted, conn`consumedContent, conn`contentLen
    modifies conn`chunkRemainder
    ensures Ready(conn) && conn.consumedContent <= conn.contentLen
    ensures readNow == if old(conn.chunkRemainder) > left then left else old(conn.chunkRemainder)
    ensures conn.chunkRemainder == old(conn.chunkRemainder) - readNow
    ensures |piece| == Count(got) <= readNow && (ok && readNow < left ==> got >= 0)
    ensures old(conn.interrupted) ==> conn.interrupted
    ensures readNow <= |old(conn.unread)| && (conn.chunkRemainder == 0 ==> CRLF <= old(conn.unread)[readNow..])
            ==> conn.interrupted || (
                ok && got == readNow && piece == old(conn.unread)[..readNow]
                && conn.unread == if conn.chunkRemainder > 0 then old(conn.unread)[readNow..]
                                  else old(conn.unread)[readNow..][2..])
  {
    readNow := if conn.chunkRemainder > left then left else conn.chunkRemainder;
    conn.contentLen := conn.contentLen + readNow;
    var dst := new byte[readNow];
    got := ReadInner(conn, dst, 0, readNow);
    piece := dst[..Count(got)];
    conn.chunkRemainder := conn.chunkRemainder - readNow;
    ok := true;
    if conn.chunkRemainder == 0 {
      ok := EndOfChunk(conn);
    }
  }

  /** The size line that comes next and the body behind it. */
  function NextDigits(b: Body): SizeDigits {
    if b.chunks != [] then b.chunks[0].digits else b.last
  }

  lemma NextLine(b: Body, tail: seq<byte>)
    requires b.current == []
    ensures var d := NextDigits(b);
            SizeField(d) && d + CRLF <= Wire(b, tail)
            && Wire(b, tail)[|d| + 2..] == (if b.chunks != [] then Wire(Open(b), tail) else tail)
            && HexValue(d) == (if b.chunks != [] then |Open(b).current| else 0)
            && (b.chunks != [] ==> Open(b).current != [] && Payload(b) == Payload(Open(b)))
  {
    if b.chunks == [] {
      LineThen(b.last, tail);
    } else {
      var c, more := b.chunks[0], ChunksWire(b.chunks[1..], b.last, tail);
      LineThen(c.digits, c.data + (CRLF + more));
      assert [] + (c.data + ChunksData(b.chunks[1..])) == c.data + ChunksData(b.chunks[1..]);
    }
  }

  lemma LineAhead(b: Body, tail: seq<byte>)
    requires b.current == []
    ensures !NoSizeLine(Wire(b, tail))
  {
    NextLine(b, tail);
    SizeFieldRead(Wire(b, tail), NextDigits(b));
  }

  /** Taking the size line off the wire. */
  lemma LineTaken(b: Body, tail: seq<byte>, line: seq<byte>, rest: seq<byte>)
    requires b.current == [] && Wire(b, tail) == line + rest && IsSizeLine(line)
    ensures if b.chunks != [] then
              && rest == Wire(Open(b), tail) && Strtoul16(line).0 == |Open(b).current| > 0
              && Payload(Open(b)) == Payload(b)
            else rest == tail && Strtoul16(line).0 == 0 && Payload(b) == []
  {
    NextLine(b, tail);
    SizeFieldRead(Wire(b, tail), NextDigits(b));
    assert line <= Wire(b, tail) && line == NextDigits(b) + CRLF;
    assert Wire(b, tail)[|line|..] == rest;
  }

  lemma LineThen(digits: seq<byte>, rest: seq<byte>)
    ensures digits + CRLF <= digits + CRLF + rest && (digits + CRLF + rest)[|digits| + 2..] == rest
  {
  }

  /** The bytes `got` of the payload `total` are delivered; the connection stands behind them. */
  ghost predicate Reading(conn: Connection, got: seq<byte>, b: Body, tail: seq<byte>, total: seq<byte>)
    reads conn, conn.buf
  {
    At(conn, b, tail) && total == got + Payload(b)
  }

  /** One turn of the read loop inside a chunk. */
  method PartTurn(conn: Connection, left: nat, data: seq<byte>,
                  ghost b: Body, ghost tail: seq<byte>, ghost total: seq<byte>)
    returns (ok: bool, got: int, readNow: nat, piece: seq<byte>, ghost after: Body)
    requires Ready(conn) && conn.consumedContent <= conn.contentLen && conn.chunkRemainder > 0
    requires 0 < left <= INT_MAX
    modifies conn`incoming, conn`unread, conn`interrupted, conn`consumedContent, conn`contentLen
    modifies conn`chunkRemainder
    ensures Ready(conn) && conn.consumedContent <= conn.contentLen
    ensures 0 < readNow <= left && |piece| == Count(got) <= readNow && (ok && readNow < left ==> got >= 0)
    ensures old(conn.interrupted) ==> conn.interrupted
    ensures old(Reading(conn, data, b, tail, total)) && !conn.interrupted
            ==> ok && got == readNow && Reading(conn, data + piece, after, tail, total)
  {
    ghost var k := if conn.chunkRemainder > left then left else conn.chunkRemainder;
    after := b;
    if At(conn, b, tail) {
      WireCurrent(b, tail, k);
      PayloadStep(data, b, k);
      after := b.(current := b.current[k..]);
    }
    ok, got, readNow, piece := ReadPart(conn, left);
  }

  /** The next thing on the wire is not a size line. */
  ghost predicate Stuck(conn: Connection)
    reads conn`chunkRemainder, conn`unread
  {
    conn.chunkRemainder == 0 && conn.unread != [] && !IsAlnum(conn.unread[0])
  }

  /** One turn of the read loop between chunks: begins the next chunk or marks the end. */
  method ChunkTurn(conn: Connection, ghost b: Body, ghost tail: seq<byte>)
    returns (ok: bool, ghost after: Body)
    requires Ready(conn) && conn.consumedContent <= conn.contentLen && conn.chunkRemainder == 0
    modifies conn`incoming, conn`unread, conn`interrupted, conn`consumedContent, conn`contentLen
    modifies conn`isChunked, conn`chunkRemainder
    ensures Ready(conn) && conn.consumedContent <= conn.contentLen
    ensures old(conn.interrupted) ==> conn.interrupted
    ensures conn.isChunked == if ok && conn.chunkRemainder == 0 then 2 else old(conn.isChunked)
    ensures old(At(conn, b, tail)) && !conn.interrupted ==> ok && Payload(after) == Payload(b)
    ensures old(At(conn, b, tail)) && !conn.interrupted && conn.chunkRemainder > 0 ==> At(conn, after, tail)
    ensures old(At(conn, b, tail)) && !conn.interrupted && conn.chunkRemainder == 0
            ==> conn.unread == tail && Payload(b) == []
    ensures |old(conn.unread)| > 0 && !IsAlnum(old(conn.unread)[0]) ==> !ok
    ensures NoSizeLine(old(conn.unread)) && !conn.interrupted ==> !ok
  {
    ghost var at := At(conn, b, tail);
    after := if b.current == [] && b.chunks != [] then Open(b) else b;
    if b.current == [] {
      LineAhead(b, tail);
    }
    var size;
    ghost var line;
    ok, size, line := ReadSize(conn);
    if at && !conn.interrupted {
      LineTaken(b, tail, line, conn.unread);
    }
    if ok {
      conn.chunkRemainder := size;
      if size == 0 {
        conn.isChunked := 2;
      }
    }
  }

  datatype Outcome = Running | Ended | Failed

  /** One turn of the read loop.  At the CR LF behind the last size line it fails, so a read
      after the end of the body reports an error, not an empty result. */
  method Turn(conn: Connection, left: nat, data: seq<byte>,
              ghost b: Body, ghost tail: seq<byte>, ghost total: seq<byte>)
    returns (outcome: Outcome, got: int, readNow: nat, piece: seq<byte>, ghost after: Body)
    requires Ready(conn) && conn.consumedContent <= conn.contentLen && 0 < left <= INT_MAX
    modifies conn`incoming, conn`unread, conn`interrupted, conn`consumedContent, conn`contentLen
    modifies conn`isChunked, conn`chunkRemainder
    ensures Ready(conn) && conn.consumedContent <= conn.contentLen
    ensures |piece| == Count(got) <= readNow <= left
    ensures outcome != Failed && readNow < left ==> got >= 0
    ensures outcome == Running ==> readNow > 0 || (old(conn.chunkRemainder) == 0 < conn.chunkRemainder)
    ensures outcome == Ended ==> got == readNow == 0
    ensures old(conn.interrupted) ==> conn.interrupted
    ensures conn.isChunked == if outcome == Ended then 2 else old(conn.isChunked)
    ensures old(Reading(conn, data, b, tail, total)) && !conn.interrupted
            ==> outcome != Failed && got == readNow
    ensures old(Reading(conn, data, b, tail, total)) && !conn.interrupted && outcome == Running
            ==> Reading(conn, data + piece, after, tail, total)
    ensures old(Reading(conn, data, b, tail, total)) && !conn.interrupted && outcome == Ended
            ==> total == data && conn.chunkRemainder == 0 && conn.unread == tail
    ensures old(Stuck(conn)) ==> outcome == Failed
    ensures old(conn.chunkRemainder) == 0 && NoSizeLine(old(conn.unread)) && !conn.interrupted ==> outcome == Failed
  {
    var ok;
    if conn.chunkRemainder > 0 {
      ok, got, readNow, piece, after := PartTurn(conn, left, data, b, tail, total);
      outcome := if ok then Running else Failed;
    } else {
      ok, after := ChunkTurn(conn, b, tail);
      got, readNow, piece := 0, 0, [];
      assert data + piece == data;
      outcome := if !ok then Failed else if conn.chunkRemainder == 0 then Ended else Running;
    }
  }

  /** A read never asks for more than an int can count. */
  function Clamp(len: nat): nat {
    if len > INT_MAX then INT_MAX else len
  }

  /** The chunked read.  Standing at a well-formed body, it hands out the next `len` payload
      bytes, or all that are left; it meets the final chunk, and then marks the end, exactly
      when it is asked for more bytes than are left.  Between chunks, where no size line follows, as
      behind the final chunk, it reports an error. */
  method Read(conn: Connection, len: nat, ghost b: Body, ghost tail: seq<byte>)
    returns (n: int, data: seq<byte>, ghost after: Body)
    requires Ready(conn) && conn.consumedContent <= conn.contentLen && conn.isChunked != 0
    modifies conn`incoming, conn`unread, conn`interrupted, conn`consumedContent, conn`contentLen
    modifies conn`isChunked, conn`chunkRemainder
    ensures Ready(conn) && conn.consumedContent <= conn.contentLen && conn.isChunked != 0
    ensures |data| <= len && (old(conn.interrupted) ==> conn.interrupted)
    ensures old(At(conn, b, tail)) && !conn.interrupted && Clamp(len) <= |Payload(b)|
            ==> n == |data| == Clamp(len) && Reading(conn, data, after, tail, Payload(b))
                && conn.isChunked == old(conn.isChunked)
    ensures old(At(conn, b, tail)) && !conn.interrupted && |Payload(b)| < Clamp(len)
            ==> n == |data| && data == Payload(b)
                && conn.isChunked == 2 && conn.chunkRemainder == 0 && conn.unread == tail
    ensures old(Stuck(conn)) ==> n == (if len == 0 then 0 else -1) && data == []
    ensures old(conn.chunkRemainder) == 0 && NoSizeLine(old(conn.unread)) && !conn.interrupted && len > 0
            ==> n == -1 && data == []
  {
    var left := Clamp(len);
    ghost var want, good, stuck, total := left, At(conn, b, tail), Stuck(conn), Payload(b);
    ghost var barren := conn.chunkRemainder == 0 && NoSizeLine(conn.unread);
    n, data, after := 0, [], b;
    assert total == [] + Payload(b);
    while left > 0
      invariant left >= 0 && |data| + left <= want && (left > 0 ==> 0 <= n)
      invariant Ready(conn) && conn.consumedContent <= conn.contentLen
      invariant old(conn.interrupted) ==> conn.interrupted
      invariant conn.isChunked == old(conn.isChunked)
      invariant good && !conn.interrupted ==> n == |data| && n + left == want
      invariant good && !conn.interrupted ==> Reading(conn, data, after, tail, total)
      invariant stuck ==> Stuck(conn) && n == 0 && data == [] && left == want
      invariant barren && !conn.interrupted ==> left == want && data == [] && conn.chunkRemainder == 0
      invariant barren && !conn.interrupted ==> conn.unread == old(conn.unread)
      decreases left, conn.chunkRemainder == 0
    {
      var outcome, got, readNow, piece;
      outcome, got, readNow, piece, after := Turn(conn, left, data, after, tail, total);
      if outcome == Failed {
        return -1, data, after;
      }
      if outcome == Ended {
        return;
      }
      n := n + got;
      data := data + piece;
      left := left - readNow;
    }
  }

  // ---- Sequences of reads --------------------------------------------------------------

  /** What a sequence of reads asks for altogether. */
  function Sum(lens: seq<nat>): nat {
    if lens == [] then 0 else Sum(lens[..|lens| - 1]) + Clamp(lens[|lens| - 1])
  }

  /** Every length counts, as far as an int can. */
  lemma {:induction false} SumIs(a: seq<nat>, b: seq<nat>, len: nat)
    ensures Sum([len]) == (if len < 0x8000_0000 then len else 0x7FFF_FFFF) && Sum(a + b) == Sum(a) + Sum(b)
    decreases |b|
  {
    assert [len][..0] == [];
    if b == [] {
      assert a + b == a;
    } else {
      SumIs(a, b[..|b| - 1], len);
      assert (a + b)[..|a + b| - 1] == a + b[..|b| - 1];
    }
  }

  lemma {:induction false} SumMonotone(lens: seq<nat>, i: nat)
    requires i <= |lens|
    ensures Sum(lens[..i]) <= Sum(lens)
  {
    if i == |lens| {
      assert lens[..i] == lens;
    } else {
      assert lens[..|lens| - 1][..i] == lens[..i];
      SumMonotone(lens[..|lens| - 1], i);
    }
  }

  lemma SumStep(lens: seq<nat>, i: nat)
    requires i < |lens|
    ensures Sum(lens[..i + 1]) == Sum(lens[..i]) + Clamp(lens[i]) <= Sum(lens)
  {
    assert lens[..i + 1][..i] == lens[..i];
    SumMonotone(lens, i + 1);
  }

  /** Any sequence of reads, until one of them meets the end: together they hand out exactly
      a prefix of the payload, as long as was asked for, and the end is marked exactly when
      more was asked for than there is. */
  method ReadMany(conn: Connection, lens: seq<nat>, ghost b: Body, ghost tail: seq<byte>)
    returns (data: seq<byte>, ghost after: Body)
    requires At(conn, b, tail) && conn.isChunked == 1
    modifies conn`incoming, conn`unread, conn`interrupted, conn`consumedContent, conn`contentLen
    modifies conn`isChunked, conn`chunkRemainder
    ensures Sum(lens) <= |Payload(b)| && !conn.interrupted
            ==> |data| == Sum(lens) && Reading(conn, data, after, tail, Payload(b)) && conn.isChunked == 1
    ensures Sum(lens) > |Payload(b)| && !conn.interrupted
            ==> data == Payload(b) && conn.isChunked == 2 && conn.unread == tail
  {
    ghost var total := Payload(b);
    data, after := [], b;
    assert total == [] + Payload(b);
    for i := 0 to |lens|
      invariant Ready(conn) && conn.consumedContent <= conn.contentLen && conn.isChunked != 0
      invariant !conn.interrupted ==> conn.isChunked == 1 && |data| == Sum(lens[..i])
      invariant !conn.interrupted ==> Reading(conn, data, after, tail, total)
    {
      SumStep(lens, i);
      ghost var got, rest := data, Payload(after);
      assert !conn.interrupted ==> total == got + rest;
      var n, piece;
      n, piece, after := Read(conn, lens[i], after, tail);
      data := data + piece;
      if n < 0 || conn.isChunked == 2 {
        assert !conn.interrupted ==> piece == rest && Clamp(lens[i]) > |rest|;
        return;
      }
      Regroup(got, piece, Payload(after));
      assert !conn.interrupted ==> rest == piece + Payload(after);
    }
    assert lens[..|lens|] == lens;
  }
}
