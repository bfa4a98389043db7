/** The streaming part of SHA-1: buffering of partial blocks, the two-word bit counter and
    the padding (section 5.1.1 of FIPS 180-4).  The block transform is a parameter here. */
module Sha1 {
  import opened Bytes

  const BLOCK := 64

  type Hash = h: seq<bv32> | |h| == 5 witness [0, 0, 0, 0, 0]

  type Transform = (Hash, seq<byte>) -> Hash

  // ---- Specification -------------------------------------------------------------------

  /** The transform folded over the complete blocks of a message. */
  function Fold(f: Transform, h: Hash, m: seq<byte>): Hash
    decreases |m|
  {
    if |m| < BLOCK then h else Fold(f, f(h, m[..BLOCK]), m[BLOCK..])
  }

  /** The bytes behind the last complete block. */
  function Rest(m: seq<byte>): (r: seq<byte>)
    ensures |r| == |m| % BLOCK
  {
    m[|m| - |m| % BLOCK..]
  }

  function Zeros(n: nat): (z: seq<byte>)
    ensures |z| == n
  {
    seq(n, _ => 0)
  }

  /** The octets of a word, most significant first. */
  function WordBytes(w: nat): (b: seq<byte>)
    ensures |b| == 4
  {
    [w / 0x100_0000 % 256, w / 0x1_0000 % 256, w / 0x100 % 256, w % 256]
  }

  /** n modulo 2^64 as eight octets in network byte order. */
  function BigEndian64(n: nat): (b: seq<byte>)
    ensures |b| == 8
  {
    WordBytes(High(n)) + WordBytes(Low(n))
  }

  function WordValue(b: seq<byte>): nat
    requires |b| == 4
  {
    b[0] as int * 0x100_0000 + b[1] as int * 0x1_0000 + b[2] as int * 0x100 + b[3]
  }

  /** Below 2^61 message bytes the length field holds the exact number of bits. */
  lemma LengthField(n: nat)
    requires n < WORD * WORD
    ensures WORD * WordValue(BigEndian64(n)[..4]) + WordValue(BigEndian64(n)[4..]) == n
  {
    WordBytesValue(n / WORD);
    WordBytesValue(n % WORD);
    assert BigEndian64(n)[..4] == WordBytes(n / WORD) && BigEndian64(n)[4..] == WordBytes(n % WORD);
  }

  lemma WordBytesValue(w: nat)
    requires w < WORD
    ensures WordValue(WordBytes(w)) == w
  {
    var a := w / 0x100;
    var b := a / 0x100;
    assert w / 0x1_0000 == b && w / 0x100_0000 == b / 0x100;
  }

  /** How many zero bytes the padding needs. */
  function PadZeros(len: nat): (z: nat)
    ensures z < BLOCK && (len + 1 + z) % BLOCK == 56
  {
    (55 - len) % BLOCK
  }

  /** A one bit, as many zero bits as needed, and the message length in bits. */
  function Pad(m: seq<byte>): (p: seq<byte>)
    ensures |p| % BLOCK == 0
  {
    assert (|m| + 1 + PadZeros(|m|) + 8) % BLOCK == 0;
    m + [0x80] + Zeros(PadZeros(|m|)) + BigEndian64(8 * |m|)
  }

  /** What eight octets stand for, most significant first. */
  function Number64(b: seq<byte>): nat
    requires |b| == 8
  {
    b[0] as int * 0x100_0000_0000_0000 + b[1] as int * 0x1_0000_0000_0000 + b[2] as int * 0x100_0000_0000
    + b[3] as int * 0x1_0000_0000 + b[4] as int * 0x100_0000 + b[5] as int * 0x1_0000 + b[6] as int * 0x100 + b[7]
  }

  /** The padded message, octet by octet (section 5.1.1 of FIPS 180-4): a one bit, the fewest zero bits
      that do, and the length in bits. */
  predicate IsPadded(m: seq<byte>, p: seq<byte>) {
    && |p| % 64 == 0 && |m| + 9 <= |p| < |m| + 73
    && p[..|m|] == m && p[|m|] == 0x80 && (forall i | |m| < i < |p| - 8 :: p[i] == 0)
    && Number64(p[|p| - 8..]) == 8 * |m| % 0x1_0000_0000_0000_0000
  }

  lemma Modulo64(n: nat)
    ensures n % (WORD * WORD) == WORD * High(n) + Low(n)
  {
    var q, r := n / WORD, n % WORD;
    assert n == WORD * WORD * (q / WORD) + (WORD * (q % WORD) + r);
  }

  lemma PadIs(m: seq<byte>)
    ensures IsPadded(m, Pad(m))
  {
    var n, p := 8 * |m|, Pad(m);
    var field := BigEndian64(n);
    assert p[|p| - 8..] == field;
    WordBytesValue(High(n));
    WordBytesValue(Low(n));
    assert field[..4] == WordBytes(High(n)) && field[4..] == WordBytes(Low(n));
    assert Number64(field) == WORD * WordValue(field[..4]) + WordValue(field[4..]);
    Modulo64(n);
  }

  /** Blocks may be folded in any number of instalments that end on a block boundary. */
  lemma {:induction false} FoldAppend(f: Transform, h: Hash, a: seq<byte>, b: seq<byte>)
    requires |a| % BLOCK == 0
    ensures Fold(f, h, a + b) == Fold(f, Fold(f, h, a), b)
    decreases |a|
  {
    if a == [] {
      assert a + b == b;
    } else {
      assert |a| >= BLOCK;
      assert (a + b)[..BLOCK] == a[..BLOCK] && (a + b)[BLOCK..] == a[BLOCK..] + b;
      FoldAppend(f, f(h, a[..BLOCK]), a[BLOCK..], b);
    }
  }

  /** Only complete blocks count. */
  lemma FoldRest(f: Transform, h: Hash, m: seq<byte>)
    ensures Fold(f, h, m) == Fold(f, h, m[..|m| - |m| % BLOCK])
  {
    var cut := |m| - |m| % BLOCK;
    assert m == m[..cut] + m[cut..];
    FoldAppend(f, h, m[..cut], m[cut..]);
  }

  lemma FoldBlock(f: Transform, h: Hash, m: seq<byte>, block: seq<byte>)
    requires |m| % BLOCK == 0 && |block| == BLOCK
    ensures Fold(f, h, m + block) == f(Fold(f, h, m), block)
  {
    FoldAppend(f, h, m, block);
    assert block[..BLOCK] == block && block[BLOCK..] == [];
  }

  /** What remains when all but fewer than a block of a message has been folded. */
  lemma FoldDone(f: Transform, h: Hash, m: seq<byte>, done: nat)
    requires done <= |m| < done + BLOCK && done % BLOCK == 0
    ensures Fold(f, h, m) == Fold(f, h, m[..done]) && Rest(m) == m[done..]
  {
    assert |m| % BLOCK == |m| - done;
    FoldRest(f, h, m);
  }

  // ---- The bit counter ---------------------------------------------------------------------

  /** The counter words that stand for n bits. */
  function Low(n: nat): nat { n % WORD }

  function High(n: nat): nat { n / WORD % WORD }

  /** The two counter words after len more bytes, as SHA1Update computes them. */
  function NextLow(low: nat, len: nat): nat {
    (low + len * 8 % WORD) % WORD
  }

  function NextHigh(low: nat, high: nat, len: nat): nat {
    ((if NextLow(low, len) < low then (high + 1) % WORD else high) + len / 0x2000_0000) % WORD
  }

  /** The carry between the two words is detected exactly, whatever the lengths. */
  lemma CounterStep(n: nat, len: nat)
    requires len < WORD
    ensures NextLow(Low(n), len) == Low(n + 8 * len)
    ensures NextHigh(Low(n), High(n), len) == High(n + 8 * len)
  {
    var q, a := n / WORD, n % WORD;
    var p, b := 8 * len / WORD, 8 * len % WORD;
    var c := if a + b >= WORD then 1 else 0;
    Quotient(n + 8 * len, q + p + c, a + b - WORD * c);
    Quotient(a + b, c, a + b - WORD * c);
    AddMod(q, c, p);
  }

  lemma AddMod(q: nat, c: nat, p: nat)
    ensures ((q % WORD + c) % WORD + p) % WORD == (q + p + c) % WORD
    ensures (q % WORD + p) % WORD == (q + p) % WORD
  {
  }

  lemma Quotient(n: nat, q: nat, r: nat)
    requires n == WORD * q + r && r < WORD
    ensures n / WORD == q && n % WORD == r
  {
  }

  /** The 32-bit test of SHA1Update takes the right branch if and only if its sum does not
      wrap; a length that makes it wrap overruns the buffer. */
  lemma GuardExact(j: nat, len: nat)
    requires j < BLOCK && len < WORD
    ensures ((j + len) % WORD > 63 <==> j + len > 63) <==> j + len < WORD
  {
  }

  /** The condition of the block loop, in 32-bit arithmetic. */
  predicate BlockLeft(i: nat, len: nat) {
    (i + 63) % WORD < len
  }

  /** Where the guard is right, the index of the block loop does not wrap. */
  lemma NoWrap(j: nat, i: nat, len: nat, blocks: nat)
    requires j < BLOCK && i <= len && j + i == BLOCK * blocks && j + len < WORD
    ensures BlockLeft(i, len) <==> i + BLOCK <= len
  {
    assert blocks < WORD / BLOCK;
    assert i + 63 < WORD;
  }

  lemma Aligned(before: nat, j: nat, i: nat, blocks: nat)
    requires j == before % BLOCK && j + i == BLOCK * blocks
    ensures (before + i) % BLOCK == 0
  {
    assert before + i == BLOCK * (before / BLOCK + blocks);
  }

  // ---- Implementation --------------------------------------------------------------------

  class Context {
    const transform: Transform
    const initial: Hash
    const buffer: array<byte>
    var state: Hash
    var count0: nat
    var count1: nat
    ghost var message: seq<byte>

    ghost predicate Valid()
      reads this, buffer
    {
      && buffer.Length == BLOCK
      && count0 == Low(8 * |message|) && count1 == High(8 * |message|)
      && state == Fold(transform, initial, message)
      && buffer[..|message| % BLOCK] == Rest(message)
    }

    constructor (f: Transform, h: Hash)
      ensures Valid() && message == [] && transform == f && initial == h && fresh(buffer)
    {
      transform, initial, state := f, h, h;
      buffer := new byte[BLOCK];
      count0, count1, message := 0, 0, [];
    }

    /** Completes the buffered block and transforms all further blocks of the data. */
    method Blocks(data: seq<byte>, j: nat) returns (i: nat)
      requires buffer.Length == BLOCK && j == |message| % BLOCK && 63 < j + |data| < WORD
      requires state == Fold(transform, initial, message) && buffer[..j] == Rest(message)
      modifies this`state, buffer
      ensures i <= |data| < i + BLOCK && (|message| + i) % BLOCK == 0
      ensures state == Fold(transform, initial, message + data[..i])
    {
      FirstBlock(data, j);
      i := FurtherBlocks(data, j);
    }

    method FurtherBlocks(data: seq<byte>, j: nat) returns (i: nat)
      requires j == |message| % BLOCK && 63 < j + |data| < WORD
      requires state == Fold(transform, initial, message + data[..BLOCK - j])
      modifies this`state
      ensures i <= |data| < i + BLOCK && (|message| + i) % BLOCK == 0
      ensures state == Fold(transform, initial, message + data[..i])
    {
      i := BLOCK - j;
      ghost var blocks := 1;
      while BlockLeft(i, |data|)
        invariant i <= |data| && j + i == BLOCK * blocks
        invariant state == Fold(transform, initial, message + data[..i])
        decreases |data| - i
      {
        NoWrap(j, i, |data|, blocks);
        Aligned(|message|, j, i, blocks);
        NextBlock(data, i);
        i, blocks := i + BLOCK, blocks + 1;
      }
      NoWrap(j, i, |data|, blocks);
      Aligned(|message|, j, i, blocks);
    }

    method FirstBlock(data: seq<byte>, j: nat)
      requires buffer.Length == BLOCK && j == |message| % BLOCK && 63 < j + |data|
      requires state == Fold(transform, initial, message) && buffer[..j] == Rest(message)
      modifies this`state, buffer
      ensures state == Fold(transform, initial, message + data[..BLOCK - j])
    {
      ghost var cut := |message| - j;
      var i := BLOCK - j;
      ghost var block := Rest(message) + data[..i];
      Fill(j, data[..i]);
      assert buffer[..] == buffer[..BLOCK] == block;
      FoldRest(transform, initial, message);
      FoldBlock(transform, initial, message[..cut], block);
      assert message[..cut] + block == message + data[..i];
      state := transform(state, buffer[..]);
    }

    method NextBlock(data: seq<byte>, i: nat)
      requires i + BLOCK <= |data| && (|message| + i) % BLOCK == 0
      requires state == Fold(transform, initial, message + data[..i])
      modifies this`state
      ensures state == Fold(transform, initial, message + data[..i + BLOCK])
    {
      FoldBlock(transform, initial, message + data[..i], data[i..i + BLOCK]);
      assert message + data[..i] + data[i..i + BLOCK] == message + data[..i + BLOCK];
      state := transform(state, data[i..i + BLOCK]);
    }

    /** Copies bytes into the buffer from position j on. */
    method Fill(j: nat, bytes: seq<byte>)
      requires j + |bytes| <= buffer.Length
      modifies buffer
      ensures buffer[..j + |bytes|] == old(buffer[..j]) + bytes
    {
      forall k | 0 <= k < |bytes| {
        buffer[j + k] := bytes[k];
      }
    }

    /** Absorbs more of the message, however it is cut, as long as the 32-bit guard holds. */
    method Update(data: seq<byte>)
      requires Valid() && |message| % BLOCK + |data| < WORD
      modifies this, buffer
      ensures Valid() && message == old(message) + data
    {
      var j := Count(|data|);
      var i := 0;
      GuardExact(j, |data|);
      Settled(transform, initial, message, data);
      if (j + |data|) % WORD > 63 {
        i := Blocks(data, j);
        Finished(transform, initial, message, data, i);
        j := 0;
      }
      Fill(j, data[i..]);
      message := message + data;
    }

    /** Appends zero bytes up to position 56 of a block.  The loop stops because the number
        of bytes still missing shrinks. */
    method PadBlock(ghost m: seq<byte>)
      requires Valid() && message == m + [0x80]
      modifies this, buffer
      ensures Valid() && message == m + [0x80] + Zeros(PadZeros(|m|))
    {
      ghost var zeros := 0;
      Position(|m| + 1);
      while count0 / 8 % 64 != 56
        invariant Valid() && message == m + [0x80] + Zeros(zeros)
        invariant zeros <= PadZeros(|m|) && (|m| + 1 + zeros) % BLOCK == count0 / 8 % 64
        decreases PadZeros(|m|) - zeros
      {
        PadProgress(|m|, zeros);
        Update([0]);
        ZerosNext(m + [0x80], zeros);
        zeros := zeros + 1;
        Position(|m| + 1 + zeros);
      }
      PadProgress(|m|, zeros);
    }

    /** Pads the message, absorbs its length and returns the digest words as octets. */
    method Final() returns (digest: seq<byte>)
      requires Valid()
      modifies this, buffer
      ensures digest == DigestBytes(Fold(transform, initial, Pad(old(message)))) && |digest| == 20
    {
      ghost var m := message;
      var finalcount := WordBytes(count1) + WordBytes(count0);
      assert finalcount == BigEndian64(8 * |m|);
      Update([0x80]);
      PadBlock(m);
      Update(finalcount);
      digest := DigestBytes(state);
    }

    /** Adds to the bit counter and returns the old position in the buffer. */
    method Count(len: nat) returns (j: nat)
      requires count0 == Low(8 * |message|) && count1 == High(8 * |message|) && len < WORD
      modifies this`count0, this`count1
      ensures count0 == Low(8 * (|message| + len)) && count1 == High(8 * (|message| + len))
      ensures j == |message| % BLOCK
    {
      CounterStep(8 * |message|, len);
      Position(|message|);
      ghost var low, high := NextLow(count0, len), NextHigh(count0, count1, len);
      j := count0;
      count0 := (count0 + len * 8 % WORD) % WORD;
      if count0 < j {
        count1 := (count1 + 1) % WORD;
      }
      count1 := (count1 + len / 0x2000_0000) % WORD;
      assert count0 == low && count1 == high && 8 * |message| + 8 * len == 8 * (|message| + len);
      j := j / 8 % 64;
    }
  }

  /** Data that does not fill the block joins the rest and changes no state. */
  lemma Settled(f: Transform, h: Hash, m: seq<byte>, data: seq<byte>)
    ensures |m| % BLOCK + |data| < BLOCK
            ==> Fold(f, h, m + data) == Fold(f, h, m) && Rest(m + data) == Rest(m) + data
  {
    if |m| % BLOCK + |data| < BLOCK {
      var cut := |m| - |m| % BLOCK;
      FoldDone(f, h, m + data, cut);
      FoldRest(f, h, m);
      assert (m + data)[..cut] == m[..cut];
    }
  }

  lemma Finished(f: Transform, h: Hash, m: seq<byte>, data: seq<byte>, i: nat)
    requires i <= |data| < i + BLOCK && (|m| + i) % BLOCK == 0
    ensures Fold(f, h, m + data) == Fold(f, h, m + data[..i]) && Rest(m + data) == data[i..]
  {
    FoldDone(f, h, m + data, |m| + i);
    assert (m + data)[..|m| + i] == m + data[..i] && (m + data)[|m| + i..] == data[i..];
  }

  /** The byte position in the buffer can be read off the low counter word. */
  lemma Position(len: nat)
    ensures Low(8 * len) / 8 % 64 == len % BLOCK
  {
    var q, r := len / BLOCK, len % BLOCK;
    assert 8 * len == 512 * q + 8 * r;
    var p, s := 8 * len / WORD, 8 * len % WORD;
    assert s == 512 * (q - 0x80_0000 * p) + 8 * r;
  }

  lemma ZerosNext(p: seq<byte>, n: nat)
    ensures p + Zeros(n) + [0] == p + Zeros(n + 1)
  {
  }

  /** The zero bytes appended so far are enough exactly when the block position is 56. */
  lemma PadProgress(len: nat, zeros: nat)
    requires zeros <= PadZeros(len)
    ensures (len + 1 + zeros) % BLOCK == 56 <==> zeros == PadZeros(len)
  {
    Shifted(len + 1 + zeros, PadZeros(len) - zeros);
  }

  lemma Shifted(a: nat, d: nat)
    requires d < BLOCK
    ensures (a + d) % BLOCK == a % BLOCK <==> d == 0
  {
  }

  function StateOctet(w: bv32, i: nat): byte
    requires i < 4
  {
    if i == 0 then (w >> 24) as int
    else if i == 1 then ((w >> 16) & 0xFF) as int
    else if i == 2 then ((w >> 8) & 0xFF) as int
    else (w & 0xFF) as int
  }

  /** The five words of the hash, most significant octet first. */
  function DigestBytes(h: Hash): (d: seq<byte>)
    ensures |d| == 20
  {
    seq(20, i requires 0 <= i < 20 => StateOctet(h[i / 4], i % 4))
  }
}
