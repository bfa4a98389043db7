/** WebSocket framing: the frame writer, the masking routine and the frame reader of the
    embedded web server (sections 5.2 and 5.3 of RFC 6455). */
module WebSocket {
  import opened Bytes
  import opened Connections

  /** What the data callback receives: the first header byte and the unmasked payload. */
  datatype Frame = Frame(mop: byte, data: seq<byte>)

  /** The masking key as it lies in memory. */
  type Key = k: seq<byte> | |k| == 4 witness [0, 0, 0, 0]

  const NO_KEY: Key := [0, 0, 0, 0]

  /** A message handed to the writer: opcode, plain payload, masking key (NO_KEY = unmasked). */
  datatype Message = Message(opcode: nat, payload: seq<byte>, key: Key)

  /** The callback's answer after the frames received so far; false ends the loop. */
  type Handler = seq<Frame> -> bool

  const INT_LIMIT := 0x8000_0000
  const OPCODE_CLOSE := 8

  // ---- Masking ---------------------------------------------------------------------

  /** Section 5.3 of RFC 6455: octet i is xor-ed with octet i mod 4 of the key. */
  function Mask(data: seq<byte>, key: seq<byte>): (r: seq<byte>)
    requires |key| == 4
  {
    seq(|data|, i requires 0 <= i < |data| => XorByte(data[i], key[i % 4]))
  }

  /** Bit j of octet i is turned over where bit j of octet i mod 4 of the key is set. */
  lemma MaskIs(data: seq<byte>, key: seq<byte>)
    requires |key| == 4
    ensures |Mask(data, key)| == |data|
    ensures forall i, j: nat | 0 <= i < |data| ::
              Bit(Mask(data, key)[i], j) <==> (Bit(data[i], j) <==> !Bit(key[i % 4], j))
  {
    forall i, j: nat | 0 <= i < |data|
      ensures Bit(Mask(data, key)[i], j) <==> (Bit(data[i], j) <==> !Bit(key[i % 4], j))
    {
      XorBit(data[i], key[i % 4], j);
    }
  }

  /** Masking twice with the same key gives back the payload. */
  lemma MaskInvolution(data: seq<byte>, key: seq<byte>)
    requires |key| == 4
    ensures Mask(Mask(data, key), key) == data
  {
    forall i | 0 <= i < |data|
      ensures Mask(Mask(data, key), key)[i] == data[i]
    {
      XorInvolution(data[i], key[i % 4]);
    }
  }

  /** A zero key leaves the payload alone, so leaving the mask bit out is harmless. */
  lemma ZeroKey(data: seq<byte>)
    ensures Mask(data, NO_KEY) == data
  {
    forall i | 0 <= i < |data|
      ensures Mask(data, NO_KEY)[i] == data[i]
    {
      XorZero(data[i]);
    }
  }

  lemma MaskFour(input: seq<byte>, key: Key, i: nat)
    requires i + 4 <= |input| && i % 4 == 0
    ensures Mask(input, key)[i..i + 4] == Mask(input[i..i + 4], key)
  {
    assert (i + 1) % 4 == 1 && (i + 2) % 4 == 2 && (i + 3) % 4 == 3;
  }

  /** Masks four bytes at a time when the input is word aligned, and the rest bytewise. */
  method MaskData(input: seq<byte>, aligned: bool, key: Key) returns (out: array<byte>)
    ensures fresh(out) && out[..] == Mask(input, key)
  {
    out := new byte[|input|];
    var i := 0;
    if |input| > 3 && aligned {
      i := MaskWords(out, input, key);
    }
    ghost var masked := Mask(input, key);
    while i < |input|
      invariant 0 <= i <= |input|
      invariant out[..i] == masked[..i]
    {
      CopyTo(out, i, [XorByte(input[i], key[i % 4])]);
      assert masked[..i + 1] == masked[..i] + [masked[i]];
      i := i + 1;
    }
    assert out[..] == out[..|input|] && masked == masked[..|input|];
  }

  /** The word-at-a-time loop; stops at the last word boundary of the input. */
  method MaskWords(out: array<byte>, input: seq<byte>, key: Key) returns (i: nat)
    requires out.Length == |input| > 3
    modifies out
    ensures i <= |input| && out[..i] == Mask(input, key)[..i]
  {
    i := 0;
    ghost var masked := Mask(input, key);
    while i < |input| - 3
      invariant 0 <= i <= |input| && i % 4 == 0
      invariant out[..i] == masked[..i]
    {
      MaskFour(input, key, i);
      var four := XorFour(input[i..i + 4], key);
      assert four == Mask(input[i..i + 4], key);
      CopyTo(out, i, four);
      assert masked[..i + 4] == masked[..i] + masked[i..i + 4];
      i := i + 4;
    }
  }

  // ---- Writing ---------------------------------------------------------------------

  /** The `width` low octets of n in network byte order. */
  function BigEndian(n: nat, width: nat): (b: seq<byte>)
    ensures |b| == width
    decreases width, n
  {
    if width == 0 then [] else BigEndian(n / 256, width - 1) + [n % 256]
  }

  function Value(b: seq<byte>): nat {
    if b == [] then 0 else 256 * Value(b[..|b| - 1]) + b[|b| - 1]
  }

  function Pow256(width: nat): nat {
    if width == 0 then 1 else 256 * Pow256(width - 1)
  }

  /** Reading back a field that is wide enough gives the number stored. */
  lemma {:induction false} BigEndianValue(n: nat, width: nat)
    requires n < Pow256(width)
    ensures Value(BigEndian(n, width)) == n
  {
    if width > 0 {
      BigEndianValue(n / 256, width - 1);
      assert BigEndian(n, width)[..width - 1] == BigEndian(n / 256, width - 1);
    }
  }

  lemma {:induction false} BigEndianJoin(hi: nat, lo: nat, width: nat, low: nat)
    requires lo < Pow256(low)
    ensures BigEndian(hi * Pow256(low) + lo, width + low) == BigEndian(hi, width) + BigEndian(lo, low)
    decreases low
  {
    if low == 0 {
      assert BigEndian(lo, 0) == [] && Pow256(0) == 1;
    } else {
      var n := hi * Pow256(low) + lo;
      assert hi * Pow256(low) == 256 * (hi * Pow256(low - 1));
      assert n / 256 == hi * Pow256(low - 1) + lo / 256 && n % 256 == lo % 256;
      BigEndianJoin(hi, lo / 256, width, low - 1);
    }
  }

  /** The payload length as the header carries it; `bit` is 128 when a key follows. */
  function LengthField(n: nat, bit: nat): (h: seq<byte>)
    requires bit == 0 || bit == 128
  {
    if n < 126 then [n + bit]
    else if n <= 0xFFFF then [126 + bit] + BigEndian(n, 2)
    else [127 + bit] + BigEndian(n, 8)
  }

  /** Everything before the payload. */
  function HeaderBytes(opcode: nat, n: nat, key: Key): (h: seq<byte>) {
    if key == NO_KEY then [128 + opcode % 16] + LengthField(n, 0)
    else [128 + opcode % 16] + LengthField(n, 128) + key
  }

  /** The bytes of one message on the wire. */
  function Wire(m: Message): (w: seq<byte>) {
    HeaderBytes(m.opcode, |m.payload|, m.key) + Mask(m.payload, m.key)
  }

  /** Two words in network byte order make up the 64-bit field. */
  lemma WideField(n: nat)
    ensures BigEndian(n, 8) == BigEndian(n / WORD, 4) + BigEndian(n % WORD, 4)
  {
    assert Pow256(2) == 0x1_0000 && Pow256(4) == WORD;
    BigEndianJoin(n / WORD, n % WORD, 4, 4);
  }

  /** Fills the second header byte and the extended length; returns the header length. */
  method PutLength(header: array<byte>, n: nat) returns (headerLen: nat)
    requires header.Length == 14 && n < WORD * WORD
    modifies header
    ensures 2 <= headerLen <= 10 && header[1..headerLen] == LengthField(n, 0)
    ensures header[0] == old(header[0])
  {
    var h0 := header[0];
    if n < 126 {
      header[1] := n;
      headerLen := 2;
    } else if n <= 0xFFFF {
      header[1] := 126;
      assert header[..2] == [h0, 126];
      CopyTo(header, 2, BigEndian(n, 2));
      headerLen := 4;
      assert header[..4] == [h0, 126] + BigEndian(n, 2);
    } else {
      header[1] := 127;
      assert header[..2] == [h0, 127];
      CopyTo(header, 2, BigEndian(n / WORD, 4));
      CopyTo(header, 6, BigEndian(n % WORD, 4));
      WideField(n);
      headerLen := 10;
      assert header[..10] == [h0, 127] + BigEndian(n, 8);
    }
    assert header[1..headerLen] == header[..headerLen][1..];
  }

  /** Sets the mask bit and appends the key. */
  method AddKey(header: array<byte>, headerLen: nat, key: Key, ghost n: nat)
    requires header.Length == 14 && 2 <= headerLen <= 10 && header[1..headerLen] == LengthField(n, 0)
    modifies header
    ensures header[..headerLen + 4] == [old(header[0])] + LengthField(n, 128) + key
  {
    ghost var plain := header[1..headerLen];
    assert header[1] == plain[0];
    header[1] := header[1] + 128;
    assert header[1..headerLen] == [plain[0] + 128] + plain[1..] == LengthField(n, 128);
    assert header[..headerLen] == [header[0]] + header[1..headerLen];
    CopyTo(header, headerLen, key);
  }

  /** Writes the frame header and then the data, which the caller has masked. */
  method WriteExec(conn: Connection, opcode: nat, data: seq<byte>, key: Key) returns (retval: int)
    requires |data| < WORD * WORD
    modifies conn`outgoing
    ensures conn.outgoing == old(conn.outgoing) + HeaderBytes(opcode, |data|, key) + data && retval >= 0
  {
    var header := new byte[14];
    header[0] := 128 + opcode % 16;
    var headerLen := PutLength(header, |data|);
    assert header[..headerLen] == [header[0]] + header[1..headerLen];
    if key != NO_KEY {
      AddKey(header, headerLen, key, |data|);
      headerLen := headerLen + 4;
    }
    conn.Write(header[..headerLen]);
    retval := headerLen;
    if |data| > 0 {
      conn.Write(data);
      retval := |data|;
    }
  }

  /** The server's write: no key, so the payload travels as it is. */
  method ServerWrite(conn: Connection, opcode: nat, data: seq<byte>) returns (retval: int)
    requires |data| < WORD * WORD
    modifies conn`outgoing
    ensures conn.outgoing == old(conn.outgoing) + Wire(Message(opcode, data, NO_KEY))
  {
    retval := WriteExec(conn, opcode, data, NO_KEY);
    ZeroKey(data);
  }

  /** The client's write: masks with a random key, which may happen to be zero.  Without memory for
      the masked copy nothing is written. */
  method ClientWrite(conn: Connection, opcode: nat, data: seq<byte>, aligned: bool, key: Key)
    returns (retval: int)
    requires |data| < WORD * WORD
    modifies conn`outgoing
    ensures conn.outgoing
         == if retval < 0 then old(conn.outgoing) else old(conn.outgoing) + Wire(Message(opcode, data, key))
  {
    var noMemory: bool := *;
    if noMemory {
      return -1;
    }
    var masked := MaskData(data, aligned, key);
    retval := WriteExec(conn, opcode, masked[..], key);
  }

  // ---- Reading ---------------------------------------------------------------------

  /** A frame header at the front of the queue, once all of it has arrived. */
  datatype Header = Incomplete | Header(len: nat, key: seq<byte>, dataLen: nat)

  /** The header and payload lengths, or (0, 0) while the length field is incomplete. */
  function Lengths(q: seq<byte>, maskLen: nat): (nat, nat)
    requires |q| >= 2
  {
    var len := q[1] % 128;
    if len < 126 && |q| >= maskLen then (2 + maskLen, len as nat)
    else if len == 126 && |q| >= 4 + maskLen then (4 + maskLen, Value(q[2..4]))
    else if |q| >= 10 + maskLen then (10 + maskLen, Value(q[2..10]))
    else (0, 0)
  }

  /** The reader's decoding of the queue, branch for branch. */
  function ParseHeader(q: seq<byte>): (h: Header)
    ensures h.Header? ==> 2 <= h.len <= |q| && h.len <= 14 && |h.key| in {0, 4}
    ensures |q| >= 14 ==> h.Header?
  {
    if |q| < 2 then Incomplete else
    var maskLen := if q[1] >= 128 then 4 else 0;
    var (headerLen, dataLen) := Lengths(q, maskLen);
    if headerLen > 0 && |q| >= headerLen
    then Header(headerLen, q[headerLen - maskLen..headerLen], dataLen)
    else Incomplete
  }

  function Unmask(data: seq<byte>, key: seq<byte>): seq<byte>
    requires |key| in {0, 4}
  {
    if key == [] then data else Mask(data, key)
  }

  datatype Step = Starved | Next(frame: Frame, rest: seq<byte>)

  /** The first frame of a byte stream and what follows it. */
  function First(bytes: seq<byte>): (r: Step)
    ensures r.Next? ==> |r.rest| < |bytes|
  {
    var h := ParseHeader(bytes);
    if h.Incomplete? || |bytes| < h.len + h.dataLen then Starved else
    Next(Frame(bytes[0], Unmask(bytes[h.len..h.len + h.dataLen], h.key)), bytes[h.len + h.dataLen..])
  }

  predicate Continues(f: Frame, got: seq<Frame>, handler: Handler) {
    handler(got + [f]) && f.mop % 16 != OPCODE_CLOSE
  }

  /** The first frame, complete or not, announces fewer payload bytes than the limit. */
  predicate Short(bytes: seq<byte>, limit: nat) {
    var h := ParseHeader(bytes);
    h.Header? ==> h.dataLen < limit
  }

  /** The frames a byte stream holds, in order, up to the first one after which the handler
      declines or the peer closes, or before which a frame is as long as the limit.  It mentions
      neither the buffer nor how bytes arrive. */
  function Deliver(bytes: seq<byte>, handler: Handler, got: seq<Frame>, limit: nat): (r: seq<Frame>)
    ensures got <= r
    decreases |bytes|
  {
    match First(bytes)
    case Starved => got
    case Next(f, rest) =>
      if !Short(bytes, limit) then got
      else if Continues(f, got, handler) then Deliver(rest, handler, got + [f], limit)
      else got + [f]
  }

  /** Bytes that arrive later never change a header that is already complete. */
  lemma HeaderStable(q: seq<byte>, more: seq<byte>)
    requires ParseHeader(q).Header?
    ensures ParseHeader(q + more) == ParseHeader(q)
  {
    var h := ParseHeader(q);
    if |q| >= 4 {
      PrefixSlice(q, more, 2, 4);
    }
    if |q| >= 10 {
      PrefixSlice(q, more, 2, 10);
    }
    PrefixSlice(q, more, h.len - |h.key|, h.len);
  }

  /** The number a C cast from size_t to int yields. */
  function AsInt(n: nat): (r: int)
    ensures -0x8000_0000 <= r < 0x8000_0000
    ensures n < INT_LIMIT <==> r == n
    ensures r == n % WORD || (r == n % WORD - WORD && r < 0 && n % WORD >= INT_LIMIT)
  {
    var low := n % WORD;
    if low < INT_LIMIT then low else low - WORD
  }

  /** The number of missing payload bytes from which on the reader cannot get them. */
  function Limit(tls: bool): nat {
    if tls then INT_LIMIT else WORD
  }

  /** What a request for m missing bytes asks the transport for. */
  lemma AskedFor(conn: Connection, m: nat)
    requires m > 0
    ensures var a := conn.Asked(AsInt(m));
            && a <= m && (m < Limit(conn.tls) ==> 0 < a)
            && (m >= Limit(conn.tls) ==> m - a >= Limit(conn.tls))
  {
    assert m == WORD * (m / WORD) + m % WORD;
    assert m >= WORD ==> m - m % WORD >= WORD;
    assert m < WORD ==> m % WORD == m;
  }

  /** Fetches the missing part of a payload.  Each request is cast to int.  If what is missing can
      arrive, it is fetched if and only if fewer than 2^31 bytes are missing, or on a plain socket
      fewer than 2^32: a request for a multiple of 2^32 becomes a request for nothing, and TLS
      refuses the negative numbers in between, which the plain socket takes for large ones. */
  method FetchPayload(conn: Connection, data: array<byte>, have: nat) returns (ok: bool)
    requires have < data.Length
    modifies conn`incoming, conn`interrupted, data
    ensures old(conn.interrupted) ==> conn.interrupted
    ensures ok ==> data.Length - have <= |old(conn.incoming)| && data.Length - have < Limit(conn.tls)
    ensures ok ==> data[..] == old(data[..have]) + old(conn.incoming)[..data.Length - have]
    ensures ok ==> conn.incoming == old(conn.incoming)[data.Length - have..]
    ensures !conn.interrupted && data.Length - have <= |old(conn.incoming)|
            ==> (ok <==> data.Length - have < Limit(conn.tls))
  {
    var len := have;
    while len < data.Length
      invariant have <= len <= data.Length && len - have <= |old(conn.incoming)|
      invariant conn.incoming == old(conn.incoming)[len - have..]
      invariant data[..len] == old(data[..have]) + old(conn.incoming)[..len - have]
      invariant old(conn.interrupted) ==> conn.interrupted
      invariant data.Length - have >= Limit(conn.tls) ==> data.Length - len >= Limit(conn.tls)
    {
      ghost var before := data[..len];
      AskedFor(conn, data.Length - len);
      var n := conn.Pull(data, len, AsInt(data.Length - len));
      if n <= 0 {
        return false;
      }
      assert data[..len + n] == before + old(conn.incoming)[len - have..][..n];
      len := len + n;
    }
    assert data[..] == data[..len];
    return true;
  }

  lemma Straddle(q: seq<byte>, rest: seq<byte>, start: nat, end: nat)
    requires start <= |q| <= end <= |q| + |rest|
    ensures (q + rest)[start..end] == q[start..] + rest[..end - |q|]
    ensures (q + rest)[end..] == rest[end - |q|..]
  {
  }

  lemma Within(q: seq<byte>, rest: seq<byte>, start: nat, end: nat)
    requires start <= end <= |q|
    ensures (q + rest)[start..end] == q[start..end]
    ensures (q + rest)[end..] == q[end..] + rest
  {
  }

  /** Copies the payload out of the queue, fetching what is missing, and moves the queue up. */
  method TakePayload(conn: Connection, h: Header) returns (ok: bool, data: array<byte>)
    requires conn.Valid() && h.Header? && 2 <= h.len <= |conn.Queue()|
    modifies conn`incoming, conn`interrupted, conn`dataLen, conn.buf
    ensures conn.Valid() && (old(conn.interrupted) ==> conn.interrupted)
    ensures var all := old(conn.Queue() + conn.incoming);
            var end := h.len + h.dataLen;
            && (ok ==> |all| >= end && conn.Queue() + conn.incoming == all[end..]
                       && fresh(data) && data[..] == all[h.len..end] && h.dataLen < Limit(conn.tls) + conn.buf.Length)
            && (!ok && h.dataLen < Limit(conn.tls) && |all| >= end ==> conn.interrupted)
  {
    var granted: bool := *;
    if h.dataLen > 4096 && !granted {
      conn.interrupted := true;
      return false, new byte[0];
    }
    data := new byte[h.dataLen];
    if h.dataLen + h.len > conn.dataLen - conn.requestLen {
      ok := TakeStraddling(conn, h, data);
    } else {
      TakeWithin(conn, h, data);
      ok := true;
    }
  }

  /** The payload extends beyond the queue: the missing part is fetched. */
  method TakeStraddling(conn: Connection, h: Header, data: array<byte>) returns (ok: bool)
    requires conn.Valid() && h.Header? && h.len <= |conn.Queue()| < h.len + h.dataLen
    requires data.Length == h.dataLen && data != conn.buf
    modifies conn`incoming, conn`interrupted, conn`dataLen, data
    ensures conn.Valid() && (old(conn.interrupted) ==> conn.interrupted)
    ensures var all := old(conn.Queue() + conn.incoming);
            var end := h.len + h.dataLen;
            && (ok ==> |all| >= end && conn.Queue() + conn.incoming == all[end..] && data[..] == all[h.len..end])
            && (ok ==> h.dataLen < Limit(conn.tls) + conn.buf.Length)
            && (!ok && h.dataLen < Limit(conn.tls) && |all| >= end ==> conn.interrupted)
  {
    ghost var q, rest := conn.Queue(), conn.incoming;
    var have := conn.dataLen - conn.requestLen - h.len;
    var queue := conn.buf[conn.requestLen..conn.dataLen];
    CopyTo(data, 0, queue[h.len..]);
    assert data[..have] == q[h.len..];
    ok := FetchPayload(conn, data, have);
    if ok {
      conn.dataLen := conn.requestLen;
      Straddle(q, rest, h.len, h.len + h.dataLen);
    }
  }

  /** The payload lies within the queue. */
  method TakeWithin(conn: Connection, h: Header, data: array<byte>)
    requires conn.Valid() && h.Header? && h.len + h.dataLen <= |conn.Queue()|
    requires data.Length == h.dataLen && data != conn.buf
    modifies conn`dataLen, conn.buf, data
    ensures conn.Valid()
    ensures var all, end := old(conn.Queue() + conn.incoming), h.len + h.dataLen;
            conn.Queue() + conn.incoming == all[end..] && data[..] == all[h.len..end]
  {
    ghost var q, rest := conn.Queue(), conn.incoming;
    var queue := conn.buf[conn.requestLen..conn.dataLen];
    CopyAll(data, queue[h.len..h.len + h.dataLen]);
    Within(q, rest, h.len, h.len + h.dataLen);
    MoveUp(conn, h.len + h.dataLen);
  }

  /** Drops the first n bytes of the queue by moving the rest to its front. */
  method MoveUp(conn: Connection, n: nat)
    requires conn.Valid() && n <= |conn.Queue()|
    modifies conn`dataLen, conn.buf
    ensures conn.Valid() && conn.Queue() == old(conn.Queue())[n..]
  {
    ghost var q := conn.Queue();
    CopyTo(conn.buf, conn.requestLen, conn.buf[conn.requestLen + n..conn.dataLen]);
    conn.dataLen := conn.dataLen - n;
    assert conn.Queue() == conn.buf[..conn.dataLen][conn.requestLen..];
  }

  /** Takes the frame whose header is complete out of the queue and removes its mask. */
  method TakeFrame(conn: Connection, h: Header) returns (ok: bool, f: Frame)
    requires conn.Valid() && h == ParseHeader(conn.Queue()) && h.Header?
    modifies conn`incoming, conn`interrupted, conn`dataLen, conn.buf
    ensures conn.Valid() && (old(conn.interrupted) ==> conn.interrupted)
    ensures ok ==> First(old(conn.Queue() + conn.incoming)) == Next(f, conn.Queue() + conn.incoming)
    ensures ok ==> Short(old(conn.Queue() + conn.incoming), Limit(conn.tls) + conn.buf.Length)
    ensures !ok && Short(old(conn.Queue() + conn.incoming), Limit(conn.tls))
            ==> conn.interrupted || First(old(conn.Queue() + conn.incoming)).Starved?
  {
    HeaderStable(conn.Queue(), conn.incoming);
    var mop := conn.buf[conn.requestLen];
    var data: array<byte>;
    ok, data := TakePayload(conn, h);
    if ok && h.key != [] {
      Unscramble(data, h.key);
    }
    f := Frame(mop, data[..]);
  }

  /** The reader's own unmasking loop, one byte after the other. */
  method Unscramble(data: array<byte>, key: Key)
    modifies data
    ensures data[..] == Mask(old(data[..]), key)
  {
    for i := 0 to data.Length
      invariant data[..i] == Mask(old(data[..]), key)[..i]
      invariant data[i..] == old(data[i..])
    {
      assert data[i] == data[i..][0] == old(data[..])[i];
      data[i] := XorByte(data[i], key[i % 4]);
      assert data[..i + 1] == data[..i] + [data[i]];
    }
    assert data[..] == data[..data.Length];
  }

  /** Appends to the queue whatever the transport delivers next. */
  method FillQueue(conn: Connection) returns (ok: bool)
    requires conn.Valid()
    modifies conn`incoming, conn`interrupted, conn`dataLen, conn.buf
    ensures conn.Valid() && (old(conn.interrupted) ==> conn.interrupted)
    ensures ok || !conn.interrupted ==> conn.Queue() + conn.incoming == old(conn.Queue() + conn.incoming)
    ensures ok ==> |conn.incoming| < |old(conn.incoming)|
    ensures !ok ==> conn.interrupted || conn.dataLen == conn.buf.Length || conn.incoming == []
    ensures !ok ==> conn.Queue() == old(conn.Queue()) && Suffix(conn.incoming, old(conn.incoming))
  {
    ghost var q, rest := conn.Queue(), conn.incoming;
    var n := conn.Pull(conn.buf, conn.dataLen, conn.buf.Length - conn.dataLen);
    if n <= 0 {
      assert conn.Queue() == conn.buf[..conn.dataLen][conn.requestLen..];
      return false;
    }
    conn.dataLen := conn.dataLen + n;
    assert conn.Queue() == conn.buf[..conn.dataLen][conn.requestLen..] == q + rest[..n];
    return true;
  }

  /** What was got is part of the stream up to the higher limit, and all of it up to the lower one
      if reading ran its course. */
  ghost predicate Settled(
      all: seq<byte>, handler: Handler, got: seq<Frame>, low: nat, high: nat, complete: bool)
  {
    got <= Deliver(all, handler, [], high) && (complete ==> Deliver(all, handler, [], low) <= got)
  }

  /** Whatever pieces the transport delivers, only frames of the stream reach the callback, in order
      and unmasked; and unless the connection is interrupted all of them do, up to a frame that is too
      long to be fetched.  Between the two limits it depends on how much of a frame was buffered. */
  method ReadWebsocket(conn: Connection, handler: Handler) returns (got: seq<Frame>)
    requires conn.Valid()
    modifies conn`incoming, conn`interrupted, conn`dataLen, conn.buf
    ensures Settled(
              old(conn.Queue() + conn.incoming), handler, got, Limit(conn.tls), Limit(conn.tls) + conn.buf.Length,
              conn.requestLen + 14 <= conn.buf.Length && !conn.interrupted)
  {
    got := [];
    ghost var all, low := conn.Queue() + conn.incoming, Limit(conn.tls);
    ghost var high := low + conn.buf.Length;
    var more := true;
    while more
      invariant conn.Valid()
      invariant more ==> OnTrack(all, conn.Queue() + conn.incoming, handler, got, low, high)
      invariant !more ==>
        Settled(all, handler, got, low, high, conn.requestLen + 14 <= conn.buf.Length && !conn.interrupted)
      decreases more, |conn.Queue()| + |conn.incoming|, |conn.incoming|
    {
      more, got := FrameTurn(conn, handler, got, all, low, high);
    }
  }

  /** One turn of the loop: a frame is taken, or more bytes are received. */
  method FrameTurn(
      conn: Connection, handler: Handler, had: seq<Frame>, ghost all: seq<byte>, ghost low: nat, ghost high: nat)
    returns (more: bool, got: seq<Frame>)
    requires conn.Valid() && low == Limit(conn.tls) && high == low + conn.buf.Length
    requires OnTrack(all, conn.Queue() + conn.incoming, handler, had, low, high)
    modifies conn`incoming, conn`interrupted, conn`dataLen, conn.buf
    ensures conn.Valid()
    ensures more ==> OnTrack(all, conn.Queue() + conn.incoming, handler, got, low, high)
    ensures var left, before := |conn.Queue()| + |conn.incoming|, |old(conn.Queue())| + |old(conn.incoming)|;
            more ==> left < before || (left == before && |conn.incoming| < |old(conn.incoming)|)
    ensures !more ==>
              Settled(all, handler, got, low, high, conn.requestLen + 14 <= conn.buf.Length && !conn.interrupted)
  {
    var stopped: bool := *;
    if stopped {
      Halted(all, conn.Queue() + conn.incoming, handler, had, low, high);
      conn.interrupted := true;
      return false, had;
    }
    var h := ParseHeader(conn.buf[conn.requestLen..conn.dataLen]);
    if h.Header? {
      more, got := TakeTurn(conn, handler, had, h, all, low, high);
    } else {
      got := had;
      more := FillTurn(conn, handler, had, all, low, high);
    }
  }

  method TakeTurn(
      conn: Connection, handler: Handler, had: seq<Frame>, h: Header,
      ghost all: seq<byte>, ghost low: nat, ghost high: nat)
    returns (more: bool, got: seq<Frame>)
    requires conn.Valid() && low == Limit(conn.tls) && high == low + conn.buf.Length
    requires h == ParseHeader(conn.Queue()) && h.Header?
    requires OnTrack(all, conn.Queue() + conn.incoming, handler, had, low, high)
    modifies conn`incoming, conn`interrupted, conn`dataLen, conn.buf
    ensures conn.Valid()
    ensures more ==> OnTrack(all, conn.Queue() + conn.incoming, handler, got, low, high)
    ensures more ==> |conn.Queue()| + |conn.incoming| < |old(conn.Queue())| + |old(conn.incoming)|
    ensures !more ==> Settled(all, handler, got, low, high, !conn.interrupted)
  {
    got := had;
    ghost var now := conn.Queue() + conn.incoming;
    Halted(all, now, handler, got, low, high);
    var ok, f := TakeFrame(conn, h);
    if !ok {
      return false, got;
    }
    Advanced(all, now, handler, got, low, high);
    got := got + [f];
    more := handler(got) && f.mop % 16 != OPCODE_CLOSE;
  }

  method FillTurn(
      conn: Connection, handler: Handler, got: seq<Frame>, ghost all: seq<byte>, ghost low: nat, ghost high: nat)
    returns (more: bool)
    requires conn.Valid() && ParseHeader(conn.Queue()).Incomplete?
    requires OnTrack(all, conn.Queue() + conn.incoming, handler, got, low, high)
    modifies conn`incoming, conn`interrupted, conn`dataLen, conn.buf
    ensures conn.Valid()
    ensures more ==> conn.Queue() + conn.incoming == old(conn.Queue() + conn.incoming)
    ensures more ==> |conn.incoming| < |old(conn.incoming)|
    ensures !more ==>
              Settled(all, handler, got, low, high, conn.requestLen + 14 <= conn.buf.Length && !conn.interrupted)
  {
    ghost var now := conn.Queue() + conn.incoming;
    Halted(all, now, handler, got, low, high);
    more := FillQueue(conn);
    assert !more && conn.incoming == [] && !conn.interrupted ==> now == conn.Queue();
  }

  /** With `now` still unread, nothing that was owed is missing from `got` and nothing is in excess. */
  ghost predicate OnTrack(
      all: seq<byte>, now: seq<byte>, handler: Handler, got: seq<Frame>, low: nat, high: nat)
  {
    && Deliver(now, handler, got, high) == Deliver(all, handler, [], high)
    && Deliver(all, handler, [], low) <= Deliver(now, handler, got, low)
  }

  lemma Halted(all: seq<byte>, now: seq<byte>, handler: Handler, got: seq<Frame>, low: nat, high: nat)
    requires OnTrack(all, now, handler, got, low, high)
    ensures got <= Deliver(all, handler, [], high)
    ensures First(now).Starved? || !Short(now, low) ==> Deliver(all, handler, [], low) <= got
  {
  }

  lemma Advanced(all: seq<byte>, now: seq<byte>, handler: Handler, got: seq<Frame>, low: nat, high: nat)
    requires OnTrack(all, now, handler, got, low, high) && low <= high && First(now).Next? && Short(now, high)
    ensures var f, rest := First(now).frame, First(now).rest;
            if Continues(f, got, handler) then OnTrack(all, rest, handler, got + [f], low, high)
            else got + [f] <= Deliver(all, handler, [], high) && Deliver(all, handler, [], low) <= got + [f]
  {
  }

  // ---- Frames as the standard lays them out -------------------------------------------

  /** A frame of any sender: its first octet, the extended length, the key if the mask bit is set, and
      the plain payload. */
  datatype Sent = Sent(first: byte, length: seq<byte>, key: seq<byte>, payload: seq<byte>)

  /** Two or eight octets in network byte order. */
  function Number(b: seq<byte>): nat
    requires |b| in {2, 8}
  {
    if |b| == 2 then b[0] as int * 0x100 + b[1]
    else
      b[0] as int * 0x100_0000_0000_0000 + b[1] as int * 0x1_0000_0000_0000 + b[2] as int * 0x100_0000_0000
      + b[3] as int * 0x1_0000_0000 + b[4] as int * 0x100_0000 + b[5] as int * 0x1_0000 + b[6] as int * 0x100 + b[7]
  }

  /** The payload is as long as the length octets say. */
  predicate Framed(f: Sent) {
    && |f.key| in {0, 4} && |f.length| in {0, 2, 8}
    && (if f.length == [] then |f.payload| < 126 else |f.payload| == Number(f.length))
  }

  /** The second octet: the mask bit, and a short length or which extended one follows. */
  function SecondOctet(f: Sent): byte
    requires Framed(f)
  {
    (if f.key == [] then 0 else 128)
    + (if f.length == [] then |f.payload| else if |f.length| == 2 then 126 else 127)
  }

  function Body(f: Sent): seq<byte>
    requires Framed(f)
  {
    if f.key == [] then f.payload else Mask(f.payload, f.key)
  }

  /** The frame on the wire (section 5.2 of RFC 6455). */
  function Octets(f: Sent): seq<byte>
    requires Framed(f)
  {
    [f.first, SecondOctet(f)] + f.length + f.key + Body(f)
  }

  /** What the callback is to receive for a frame. */
  function Meant(f: Sent): Frame {
    Frame(f.first, f.payload)
  }

  lemma ValueTwo(b: seq<byte>)
    requires |b| == 2
    ensures Value(b) == b[0] as int * 0x100 + b[1]
  {
    assert b[..1] == [b[0]] && b[..1][..0] == [];
    assert Value(b[..1]) == 256 * Value(b[..1][..0]) + b[0];
  }

  lemma ValueFour(b: seq<byte>)
    requires |b| == 4
    ensures Value(b) == b[0] as int * 0x100_0000 + b[1] as int * 0x1_0000 + b[2] as int * 0x100 + b[3]
  {
    ValueTwo(b[..2]);
    assert b[..3][..2] == b[..2];
  }

  lemma ValueSix(b: seq<byte>)
    requires |b| == 6
    ensures Value(b) == b[0] as int * 0x100_0000_0000 + b[1] as int * 0x1_0000_0000 + b[2] as int * 0x100_0000
                        + b[3] as int * 0x1_0000 + b[4] as int * 0x100 + b[5]
  {
    ValueFour(b[..4]);
    assert b[..5][..4] == b[..4];
  }

  lemma ValueIs(b: seq<byte>)
    requires |b| in {2, 8}
    ensures Value(b) == Number(b)
  {
    if |b| == 2 {
      ValueTwo(b);
    } else {
      ValueSix(b[..6]);
      assert b[..7][..6] == b[..6];
    }
  }

  lemma LengthsRead(f: Sent, q: seq<byte>)
    requires Framed(f) && |q| >= 2 + |f.length| + |f.key| && q[1] == SecondOctet(f)
    requires q[2..2 + |f.length|] == f.length
    ensures Lengths(q, |f.key|) == (2 + |f.length| + |f.key|, |f.payload|)
  {
    if f.length != [] {
      ValueIs(f.length);
    }
  }

  /** The header of any frame is read as its lengths and key say, whatever follows. */
  lemma HeaderRead(f: Sent, rest: seq<byte>)
    requires Framed(f)
    ensures ParseHeader([f.first, SecondOctet(f)] + f.length + f.key + rest)
         == Header(2 + |f.length| + |f.key|, f.key, |f.payload|)
  {
    var q, n := [f.first, SecondOctet(f)] + f.length + f.key + rest, 2 + |f.length|;
    assert q[1] == SecondOctet(f);
    assert q[2..n] == f.length && q[n..n + |f.key|] == f.key;
    LengthsRead(f, q);
  }

  /** The reader takes every frame as it was meant, whatever its first octet, length form and key, and
      whatever follows it. */
  lemma FrameRead(f: Sent, tail: seq<byte>)
    requires Framed(f)
    ensures First(Octets(f) + tail) == Next(Meant(f), tail)
    ensures forall limit: nat :: Short(Octets(f) + tail, limit) <==> |f.payload| < limit
  {
    var head := [f.first, SecondOctet(f)] + f.length + f.key;
    var all := Octets(f) + tail;
    assert all == head + (Body(f) + tail);
    HeaderRead(f, Body(f) + tail);
    assert all[|head|..|head| + |Body(f)|] == Body(f) && all[|head| + |Body(f)|..] == tail;
    if f.key != [] {
      MaskInvolution(f.payload, f.key);
    }
  }

  /** It waits for the last octet of a frame. */
  lemma FrameStarves(f: Sent, k: nat)
    requires Framed(f) && k < |Octets(f)|
    ensures First(Octets(f)[..k]).Starved?
  {
    var part, more := Octets(f)[..k], Octets(f)[k..];
    if ParseHeader(part).Header? {
      HeaderStable(part, more);
      assert part + more == Octets(f);
      HeaderRead(f, Body(f));
      assert Octets(f) == [f.first, SecondOctet(f)] + f.length + f.key + Body(f);
    }
  }

  /** The frame at the front of a byte stream from which the reader takes one. */
  function Front(bytes: seq<byte>): Sent
    requires First(bytes).Next?
  {
    var h, len := ParseHeader(bytes), bytes[1] % 128;
    Sent(bytes[0], if len < 126 then [] else if len == 126 then bytes[2..4] else bytes[2..10], h.key,
         First(bytes).frame.data)
  }

  lemma UnmaskBack(data: seq<byte>, key: seq<byte>)
    requires |key| in {0, 4}
    ensures key != [] ==> Mask(Unmask(data, key), key) == data
  {
    if key != [] {
      MaskInvolution(data, key);
    }
  }

  lemma FrontFramed(bytes: seq<byte>)
    requires First(bytes).Next?
    ensures Framed(Front(bytes)) && SecondOctet(Front(bytes)) == bytes[1]
    ensures ParseHeader(bytes).len == 2 + |Front(bytes).length| + |Front(bytes).key|
  {
    var f := Front(bytes);
    if f.length != [] {
      ValueIs(f.length);
    }
  }

  lemma FrontIs(bytes: seq<byte>)
    requires First(bytes).Next?
    ensures Framed(Front(bytes)) && bytes == Octets(Front(bytes)) + First(bytes).rest
  {
    var f, h := Front(bytes), ParseHeader(bytes);
    FrontFramed(bytes);
    var raw, split := bytes[h.len..h.len + h.dataLen], 2 + |f.length|;
    UnmaskBack(raw, h.key);
    assert Body(f) == raw;
    assert bytes[..2] == [f.first, SecondOctet(f)] && bytes[2..split] == f.length && bytes[split..h.len] == f.key;
    InFive(bytes, 2, split, h.len, h.len + h.dataLen);
  }

  lemma InFive(s: seq<byte>, a: nat, b: nat, c: nat, d: nat)
    requires a <= b <= c <= d <= |s|
    ensures s == s[..a] + s[a..b] + s[b..c] + s[c..d] + s[d..]
  {
  }

  /** The reader takes a frame off a byte stream if and only if the stream begins with that frame. */
  lemma FrameExactly(bytes: seq<byte>, frame: Frame, rest: seq<byte>)
    ensures First(bytes) == Next(frame, rest)
       <==> exists f :: Framed(f) && bytes == Octets(f) + rest && frame == Meant(f)
  {
    if First(bytes) == Next(frame, rest) {
      FrontIs(bytes);
    }
    if f :| Framed(f) && bytes == Octets(f) + rest && frame == Meant(f) {
      FrameRead(f, rest);
    }
  }

  // ---- Streams of frames ----------------------------------------------------------------

  predicate AllFramed(fs: seq<Sent>) {
    forall f <- fs :: Framed(f)
  }

  function OctetsAll(fs: seq<Sent>): seq<byte>
    requires AllFramed(fs)
  {
    if fs == [] then [] else Octets(fs[0]) + OctetsAll(fs[1..])
  }

  function Frames(fs: seq<Sent>): seq<Frame> {
    seq(|fs|, i requires 0 <= i < |fs| => Meant(fs[i]))
  }

  /** The frames the callback is owed: up to and including the first close frame or the first one the
      handler declines after, and up to the first one as long as the limit. */
  function Owed(fs: seq<Frame>, handler: Handler, got: seq<Frame>, limit: nat): seq<Frame> {
    if fs == [] || |fs[0].data| >= limit then got
    else if Continues(fs[0], got, handler) then Owed(fs[1..], handler, got + [fs[0]], limit)
    else got + [fs[0]]
  }

  /** Among the first n frames none is too long; none but the last is a close frame (opcode 8) or one
      after which the handler declines; and there is a reason why no more than these are owed. */
  predicate OwedTo(fs: seq<Frame>, handler: Handler, had: seq<Frame>, limit: nat, n: nat)
    requires n <= |fs|
  {
    && (forall i | 0 <= i < n :: |fs[i].data| < limit)
    && (forall i | 0 < i < n :: handler(had + fs[..i]) && fs[i - 1].mop % 16 != 8)
    && (n == |fs| || |fs[n].data| >= limit
        || (n > 0 && (!handler(had + fs[..n]) || fs[n - 1].mop % 16 == 8)))
  }

  lemma {:induction false} OwedExactly(fs: seq<Frame>, handler: Handler, had: seq<Frame>, limit: nat)
    ensures var n := |Owed(fs, handler, had, limit)| - |had|;
            0 <= n <= |fs| && Owed(fs, handler, had, limit) == had + fs[..n] && OwedTo(fs, handler, had, limit, n)
  {
    if fs == [] || |fs[0].data| >= limit {
      assert had + fs[..0] == had;
    } else if Continues(fs[0], had, handler) {
      var now, rest := had + [fs[0]], fs[1..];
      OwedExactly(rest, handler, now, limit);
      var m := |Owed(rest, handler, now, limit)| - |now|;
      OwedFurther(fs, handler, had, limit, m);
      OneMore(fs, had, m);
    } else {
      assert had + fs[..1] == had + [fs[0]];
    }
  }

  lemma OneMore(fs: seq<Frame>, had: seq<Frame>, i: nat)
    requires i < |fs|
    ensures had + fs[..i + 1] == had + [fs[0]] + fs[1..][..i]
  {
    assert fs[..i + 1] == [fs[0]] + fs[1..][..i];
  }

  lemma OwedFurther(fs: seq<Frame>, handler: Handler, had: seq<Frame>, limit: nat, m: nat)
    requires m < |fs| && |fs[0].data| < limit && Continues(fs[0], had, handler)
    requires OwedTo(fs[1..], handler, had + [fs[0]], limit, m)
    ensures OwedTo(fs, handler, had, limit, m + 1)
  {
    var now, rest := had + [fs[0]], fs[1..];
    forall i | 0 < i < m + 1
      ensures handler(had + fs[..i]) && fs[i - 1].mop % 16 != 8
    {
      OneMore(fs, had, i - 1);
      assert i == 1 ==> now + rest[..0] == now;
      assert i > 1 ==> fs[i - 1] == rest[i - 2];
    }
    OneMore(fs, had, m);
    if 0 < m {
      assert fs[m] == rest[m - 1];
    } else {
      assert now + rest[..0] == now;
    }
  }

  predicate AllShort(fs: seq<Frame>, limit: nat) {
    forall f <- fs :: |f.data| < limit
  }

  /** A limit that no frame reaches does not matter. */
  lemma {:induction false} OwedUnlimited(fs: seq<Frame>, handler: Handler, got: seq<Frame>, limit: nat, other: nat)
    requires AllShort(fs, limit) && AllShort(fs, other)
    ensures Owed(fs, handler, got, limit) == Owed(fs, handler, got, other)
  {
    if fs != [] {
      OwedUnlimited(fs[1..], handler, got + [fs[0]], limit, other);
    }
  }

  lemma FirstDelivered(f: Sent, tail: seq<byte>, handler: Handler, got: seq<Frame>, limit: nat)
    requires Framed(f)
    ensures Deliver(Octets(f) + tail, handler, got, limit)
         == if |f.payload| >= limit then got
            else if Continues(Meant(f), got, handler) then Deliver(tail, handler, got + [Meant(f)], limit)
            else got + [Meant(f)]
  {
    FrameRead(f, tail);
  }

  lemma FirstOwed(f: Sent, fs: seq<Sent>, handler: Handler, got: seq<Frame>, limit: nat)
    ensures Owed(Frames([f] + fs), handler, got, limit)
         == if |f.payload| >= limit then got
            else if Continues(Meant(f), got, handler) then Owed(Frames(fs), handler, got + [Meant(f)], limit)
            else got + [Meant(f)]
  {
    assert Frames([f] + fs)[1..] == Frames(fs);
  }

  /** A stream of frames of any sender carries exactly what the callback is owed. */
  lemma {:induction false} FramesDelivered(fs: seq<Sent>, handler: Handler, got: seq<Frame>, limit: nat)
    requires AllFramed(fs)
    ensures Deliver(OctetsAll(fs), handler, got, limit) == Owed(Frames(fs), handler, got, limit)
  {
    if fs != [] {
      var f, rest := fs[0], fs[1..];
      FirstDelivered(f, OctetsAll(rest), handler, got, limit);
      FramesDelivered(rest, handler, got + [Meant(f)], limit);
      FirstOwed(f, rest, handler, got, limit);
      assert [f] + rest == fs;
    }
  }

  /** However the transport cuts a stream of frames between buffer and socket, the callback gets exactly
      the frames it is owed, given room for a header behind the request, up to the first one that is too
      long to be fetched. */
  method ReadFrames(conn: Connection, ghost fs: seq<Sent>, handler: Handler) returns (got: seq<Frame>)
    requires conn.Valid() && AllFramed(fs) && conn.Queue() + conn.incoming == OctetsAll(fs)
    modifies conn`incoming, conn`interrupted, conn`dataLen, conn.buf
    ensures GetsOwed(
              Frames(fs), handler, got, Limit(conn.tls), Limit(conn.tls) + conn.buf.Length,
              conn.requestLen + 14 <= conn.buf.Length && !conn.interrupted)
  {
    ghost var all, low := conn.Queue() + conn.incoming, Limit(conn.tls);
    OwedBounds(fs, handler, low, low + conn.buf.Length);
    got := ReadWebsocket(conn, handler);
  }

  /** What settles a stream of frames. */
  lemma OwedBounds(fs: seq<Sent>, handler: Handler, low: nat, high: nat)
    requires AllFramed(fs) && low <= high
    ensures forall got, complete :: Settled(OctetsAll(fs), handler, got, low, high, complete) ==>
              GetsOwed(Frames(fs), handler, got, low, high, complete)
  {
    FramesDelivered(fs, handler, [], low);
    FramesDelivered(fs, handler, [], high);
    if AllShort(Frames(fs), low) {
      OwedUnlimited(Frames(fs), handler, [], low, high);
    }
    forall got, complete | Settled(OctetsAll(fs), handler, got, low, high, complete)
      ensures GetsOwed(Frames(fs), handler, got, low, high, complete)
    {
      if complete && AllShort(Frames(fs), low) {
        Squeeze(got, Owed(Frames(fs), handler, [], low));
      }
    }
  }

  /** All frames below the lower limit were got if reading ran its course, and none beyond the higher
      one; exactly the owed ones if none reaches the lower limit. */
  ghost predicate GetsOwed(
      fs: seq<Frame>, handler: Handler, got: seq<Frame>, low: nat, high: nat, complete: bool)
  {
    && got <= Owed(fs, handler, [], high) && (complete ==> Owed(fs, handler, [], low) <= got)
    && (complete && AllShort(fs, low) ==> got == Owed(fs, handler, [], low))
  }

  lemma Squeeze<T>(a: seq<T>, b: seq<T>)
    requires a <= b <= a
    ensures a == b
  {
  }

  // ---- Writer and reader together -----------------------------------------------------

  function WireAll(ms: seq<Message>): (w: seq<byte>) {
    if ms == [] then [] else Wire(ms[0]) + WireAll(ms[1..])
  }

  /** The frame a message is written as: final, of the opcode's low four bits, with the shortest length
      form, and masked unless the key is zero. */
  function Sending(m: Message): Sent {
    var n := |m.payload|;
    Sent(0x80 + m.opcode % 0x10, if n < 126 then [] else if n <= 0xFFFF then BigEndian(n, 2) else BigEndian(n, 8),
         if m.key == NO_KEY then [] else m.key, m.payload)
  }

  function SendingAll(ms: seq<Message>): seq<Sent> {
    seq(|ms|, i requires 0 <= i < |ms| => Sending(ms[i]))
  }

  lemma FieldRoundTrip(n: nat, width: nat)
    requires (width == 2 && n <= 0xFFFF) || (width == 8 && n < WORD * WORD)
    ensures Value(BigEndian(n, width)) == n
  {
    assert Pow256(2) == 0x1_0000;
    assert Pow256(4) == 0x1_0000 * Pow256(2);
    assert Pow256(6) == 0x1_0000 * Pow256(4);
    assert Pow256(8) == 0x1_0000 * Pow256(6);
    BigEndianValue(n, width);
  }

  lemma SendingFramed(m: Message)
    requires |m.payload| < WORD * WORD
    ensures Framed(Sending(m))
  {
    var n, f := |m.payload|, Sending(m);
    if n >= 126 {
      FieldRoundTrip(n, |f.length|);
      ValueIs(f.length);
    }
  }

  /** A written message is that frame. */
  lemma WireIs(m: Message)
    requires |m.payload| < WORD * WORD
    ensures Framed(Sending(m)) && Wire(m) == Octets(Sending(m))
  {
    var f, n := Sending(m), |m.payload|;
    SendingFramed(m);
    ZeroKey(m.payload);
    assert HeaderBytes(m.opcode, n, m.key) == [f.first, SecondOctet(f)] + f.length + f.key;
  }

  lemma WireFrame(m: Message, tail: seq<byte>)
    requires |m.payload| < WORD * WORD
    ensures First(Wire(m) + tail) == Next(Frame(0x80 + m.opcode % 0x10, m.payload), tail)
  {
    WireIs(m);
    FrameRead(Sending(m), tail);
  }

  /** A written header, whatever follows it, is read back with the same length and key. */
  lemma HeaderRoundTrip(opcode: nat, n: nat, key: Key, rest: seq<byte>)
    requires n < WORD * WORD
    ensures var b := HeaderBytes(opcode, n, key);
            ParseHeader(b + rest) == Header(|b|, if key == NO_KEY then [] else key, n)
            && b[0] == 128 + opcode % 16
  {
    var f, b := Sending(Message(opcode, seq(n, _ => 0), key)), HeaderBytes(opcode, n, key);
    SendingFramed(Message(opcode, seq(n, _ => 0), key));
    assert b == [f.first, SecondOctet(f)] + f.length + f.key;
    HeaderRead(f, rest);
  }

  lemma SendingFirst(ms: seq<Message>)
    requires ms != []
    ensures SendingAll(ms) == [Sending(ms[0])] + SendingAll(ms[1..])
  {
  }

  lemma OctetsFirst(f: Sent, fs: seq<Sent>)
    requires Framed(f) && AllFramed(fs)
    ensures AllFramed([f] + fs) && OctetsAll([f] + fs) == Octets(f) + OctetsAll(fs)
  {
    assert ([f] + fs)[1..] == fs;
  }

  lemma {:induction false} WireAllIs(ms: seq<Message>)
    requires forall m <- ms :: |m.payload| < WORD * WORD
    ensures AllFramed(SendingAll(ms)) && WireAll(ms) == OctetsAll(SendingAll(ms))
  {
    if ms != [] {
      WireIs(ms[0]);
      WireAllIs(ms[1..]);
      SendingFirst(ms);
      OctetsFirst(Sending(ms[0]), SendingAll(ms[1..]));
    }
  }

  /** Over any list of messages, of any opcode, key and 64-bit length, the stream carries
      exactly the opcodes and plain payloads the callback is owed. */
  lemma WireDelivered(ms: seq<Message>, handler: Handler, got: seq<Frame>, limit: nat)
    requires forall m <- ms :: |m.payload| < WORD * WORD
    ensures Deliver(WireAll(ms), handler, got, limit) == Owed(Frames(SendingAll(ms)), handler, got, limit)
  {
    WireAllIs(ms);
    FramesDelivered(SendingAll(ms), handler, got, limit);
  }

  /** Written messages reach the callback as the frames they were written as. */
  method ReadWritten(conn: Connection, ghost ms: seq<Message>, handler: Handler) returns (got: seq<Frame>)
    requires conn.Valid() && conn.Queue() + conn.incoming == WireAll(ms)
    requires forall m <- ms :: |m.payload| < WORD * WORD
    modifies conn`incoming, conn`interrupted, conn`dataLen, conn.buf
    ensures GetsOwed(
              Frames(SendingAll(ms)), handler, got, Limit(conn.tls), Limit(conn.tls) + conn.buf.Length,
              conn.requestLen + 14 <= conn.buf.Length && !conn.interrupted)
  {
    WireAllIs(ms);
    got := ReadFrames(conn, SendingAll(ms), handler);
  }
}
