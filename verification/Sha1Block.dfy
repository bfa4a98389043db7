/** The SHA-1 block transform: rounds that rename five registers instead of moving them, over
    a schedule kept in a sixteen-word circular buffer, against sections 6.1.1 and 6.1.2 of
    FIPS 180-4.  How words are combined is a parameter of the round machinery; the last
    section supplies it twice, as the standard writes it and as the code does. */
module Sha1Block {
  import opened Bytes
  import Sha1

  // ---- The standard's machinery --------------------------------------------------------

  datatype Working<W> = Working(a: W, b: W, c: W, d: W, e: W)

  /** How words are combined: the schedule recurrence, the logical function and constant of
      a round, the two rotations, and the sum of five words. */
  datatype Recipe<!W> = Recipe(
    expand: (W, W, W, W) -> W, mix: (nat, W, W, W) -> W, constant: nat -> W,
    spin: W -> W, turn: W -> W, sum: (W, W, W, W, W) -> W)

  /** The message schedule over the sixteen words of a block. */
  function Schedule<W>(alg: Recipe<W>, m: seq<W>, t: nat): W
    requires |m| == 16
  {
    if t < 16 then m[t]
    else alg.expand(Schedule(alg, m, t - 3), Schedule(alg, m, t - 8),
                    Schedule(alg, m, t - 14), Schedule(alg, m, t - 16))
  }

  function Temp<W>(alg: Recipe<W>, v: Working<W>, t: nat, w: W): W {
    alg.sum(alg.spin(v.a), alg.mix(t, v.b, v.c, v.d), v.e, alg.constant(t), w)
  }

  function Round<W>(alg: Recipe<W>, v: Working<W>, t: nat, w: W): Working<W> {
    Working(Temp(alg, v, t, w), v.a, alg.turn(v.b), v.c, v.d)
  }

  /** The working variables after the first t rounds. */
  function Rounds<W>(alg: Recipe<W>, v: Working<W>, m: seq<W>, t: nat): Working<W>
    requires |m| == 16
  {
    if t == 0 then v else Round(alg, Rounds(alg, v, m, t - 1), t - 1, Schedule(alg, m, t - 1))
  }

  /** Recipes that combine words alike. */
  ghost predicate Alike<W(!new)>(p: Recipe<W>, q: Recipe<W>) {
    && (forall a, b, c, d :: p.expand(a, b, c, d) == q.expand(a, b, c, d))
    && (forall t, x, y, z :: p.mix(t, x, y, z) == q.mix(t, x, y, z))
    && (forall a, f, e, k, w :: p.sum(a, f, e, k, w) == q.sum(a, f, e, k, w))
    && p.constant == q.constant && p.spin == q.spin && p.turn == q.turn
  }

  lemma {:induction false} SameSchedule<W(!new)>(p: Recipe<W>, q: Recipe<W>, m: seq<W>, t: nat)
    requires |m| == 16 && Alike(p, q)
    ensures Schedule(p, m, t) == Schedule(q, m, t)
  {
    if t >= 16 {
      SameSchedule(p, q, m, t - 3);
      SameSchedule(p, q, m, t - 8);
      SameSchedule(p, q, m, t - 14);
      SameSchedule(p, q, m, t - 16);
    }
  }

  lemma {:induction false} SameRounds<W(!new)>(p: Recipe<W>, q: Recipe<W>, v: Working<W>, m: seq<W>, t: nat)
    requires |m| == 16 && Alike(p, q)
    ensures Rounds(p, v, m, t) == Rounds(q, v, m, t)
  {
    if t > 0 {
      SameRounds(p, q, v, m, t - 1);
      SameSchedule(p, q, m, t - 1);
    }
  }

  // ---- The code's machinery --------------------------------------------------------------

  /** The circular buffer holds the last sixteen schedule words; before round sixteen, the
      words not yet used are still in host order. */
  ghost predicate Holds<W>(l: seq<W>, alg: Recipe<W>, m: seq<W>, raw: seq<W>, i: nat)
    requires |m| == |raw| == 16
  {
    && |l| == 16
    && (forall j | i <= j < 16 :: l[j] == raw[j])
    && (forall j | 0 <= j < i <= j + 16 :: l[j % 16] == Schedule(alg, m, j))
  }

  lemma SameSlot(i: nat, j: nat)
    requires j <= i < j + 16
    ensures j % 16 == i % 16 <==> j == i
  {
  }

  lemma Window(i: nat)
    requires i >= 16
    ensures (i + 13) % 16 == (i - 3) % 16 && (i + 8) % 16 == (i - 8) % 16
    ensures (i + 2) % 16 == (i - 14) % 16 && i % 16 == (i - 16) % 16
  {
  }

  lemma HoldsNext<W>(l: seq<W>, alg: Recipe<W>, m: seq<W>, raw: seq<W>, i: nat, w: W)
    requires |m| == |raw| == 16 && Holds(l, alg, m, raw, i) && w == Schedule(alg, m, i)
    ensures Holds(l[i % 16 := w], alg, m, raw, i + 1)
  {
    var l' := l[i % 16 := w];
    forall j | 0 <= j < i + 1 <= j + 16
      ensures l'[j % 16] == Schedule(alg, m, j)
    {
      SameSlot(i, j);
    }
  }

  /** Produces the schedule word of round i in place. */
  method NextWord<W>(l: array<W>, swap: W -> W, alg: Recipe<W>, ghost m: seq<W>, ghost raw: seq<W>, i: nat)
    returns (w: W)
    requires |m| == |raw| == 16 && Holds(l[..], alg, m, raw, i)
    requires forall j | 0 <= j < 16 :: m[j] == swap(raw[j])
    modifies l
    ensures w == Schedule(alg, m, i) && Holds(l[..], alg, m, raw, i + 1)
  {
    ghost var was := l[..];
    if i < 16 {
      w := swap(l[i]);
      assert was[i] == raw[i];
    } else {
      Window(i);
      w := alg.expand(l[(i + 13) % 16], l[(i + 8) % 16], l[(i + 2) % 16], l[i % 16]);
      assert was[(i - 3) % 16] == Schedule(alg, m, i - 3) && was[(i - 8) % 16] == Schedule(alg, m, i - 8);
      assert was[(i - 14) % 16] == Schedule(alg, m, i - 14) && was[(i - 16) % 16] == Schedule(alg, m, i - 16);
    }
    HoldsNext(was, alg, m, raw, i, w);
    l[i % 16] := w;
    assert l[..] == was[i % 16 := w];
  }

  /** The register that plays role k in round i. */
  function Role(i: nat, k: nat): (r: nat)
    ensures r < 5
  {
    (k + 4 * i) % 5
  }

  ghost function InRole<W>(r: seq<W>, i: nat): Working<W>
    requires |r| == 5
  {
    Working(r[Role(i, 0)], r[Role(i, 1)], r[Role(i, 2)], r[Role(i, 3)], r[Role(i, 4)])
  }

  lemma RoleMoves(i: nat, k: nat)
    ensures Role(i + 1, k + 1) == Role(i, k) && Role(i, k + 5) == Role(i, k)
  {
    Cycle(k + 4 * i);
  }

  lemma Cycle(n: nat)
    ensures (n + 5) % 5 == n % 5
  {
  }

  lemma RolesApart(i: nat, j: nat, k: nat)
    requires j < k < j + 5
    ensures Role(i, j) != Role(i, k)
  {
  }

  lemma Roles(i: nat)
    ensures Role(i + 1, 0) == Role(i, 4) && Role(i + 1, 1) == Role(i, 0) && Role(i + 1, 2) == Role(i, 1)
    ensures Role(i + 1, 3) == Role(i, 2) && Role(i + 1, 4) == Role(i, 3)
    ensures forall j, k | 0 <= j < k < 5 :: Role(i, j) != Role(i, k)
  {
    RoleMoves(i, 0);
    RoleMoves(i, 1);
    RoleMoves(i, 2);
    RoleMoves(i, 3);
    RoleMoves(i, 4);
    RoleMoves(i + 1, 0);
    forall j, k | 0 <= j < k < 5
      ensures Role(i, j) != Role(i, k)
    {
      RolesApart(i, j, k);
    }
  }

  /** One round: two registers change, the others only change their names. */
  method CodeRound<W>(r: array<W>, alg: Recipe<W>, i: nat, w: W)
    requires r.Length == 5
    modifies r
    ensures InRole(r[..], i + 1) == Round(alg, InRole(old(r[..]), i), i, w)
  {
    Roles(i);
    var z, x := Role(i, 4), Role(i, 1);
    var f := alg.mix(i, r[x], r[Role(i, 2)], r[Role(i, 3)]);
    r[z] := alg.sum(alg.spin(r[Role(i, 0)]), f, r[z], alg.constant(i), w);
    r[x] := alg.turn(r[x]);
  }

  /** The first n rounds. */
  method CodeRounds<W>(r: array<W>, l: array<W>, swap: W -> W, alg: Recipe<W>, ghost m: seq<W>, n: nat)
    requires r.Length == 5 && l.Length == |m| == 16 && r != l
    requires forall j | 0 <= j < 16 :: m[j] == swap(l[j])
    modifies r, l
    ensures InRole(r[..], n) == Rounds(alg, old(InRole(r[..], 0)), m, n)
  {
    ghost var v, raw := InRole(r[..], 0), l[..];
    assert forall j | 0 <= j < 16 :: m[j] == swap(raw[j]);
    ReachedFirst(r[..], raw, alg, m);
    for i := 0 to n
      invariant Reached(r[..], l[..], alg, v, m, raw, i)
    {
      RoundTurn(r, l, swap, alg, v, m, raw, i);
    }
  }

  /** The state of the computation before round i. */
  ghost predicate Reached<W>(
      r: seq<W>, l: seq<W>, alg: Recipe<W>, v: Working<W>, m: seq<W>, raw: seq<W>, i: nat)
    requires |m| == |raw| == 16
  {
    |r| == 5 && Holds(l, alg, m, raw, i) && InRole(r, i) == Rounds(alg, v, m, i)
  }

  lemma ReachedFirst<W>(r: seq<W>, raw: seq<W>, alg: Recipe<W>, m: seq<W>)
    requires |r| == 5 && |m| == |raw| == 16
    ensures Reached(r, raw, alg, InRole(r, 0), m, raw, 0)
  {
  }

  lemma RoundsNext<W>(alg: Recipe<W>, v: Working<W>, m: seq<W>, i: nat)
    requires |m| == 16
    ensures Rounds(alg, v, m, i + 1) == Round(alg, Rounds(alg, v, m, i), i, Schedule(alg, m, i))
  {
  }

  /** One round with the schedule word it needs. */
  method RoundTurn<W>(
      r: array<W>, l: array<W>, swap: W -> W, alg: Recipe<W>,
      ghost v: Working<W>, ghost m: seq<W>, ghost raw: seq<W>, i: nat)
    requires |m| == |raw| == 16 && r != l && Reached(r[..], l[..], alg, v, m, raw, i)
    requires forall j | 0 <= j < 16 :: m[j] == swap(raw[j])
    modifies r, l
    ensures Reached(r[..], l[..], alg, v, m, raw, i + 1)
  {
    RoundsNext(alg, v, m, i);
    var w := NextWord(l, swap, alg, m, raw, i);
    CodeRound(r, alg, i, w);
  }

  // ---- Words -------------------------------------------------------------------------------

  function Rol1(x: bv32): bv32 { (x << 1) | (x >> 31) }

  function Rol5(x: bv32): bv32 { (x << 5) | (x >> 27) }

  function Rol30(x: bv32): bv32 { (x << 30) | (x >> 2) }

  function Expand(a: bv32, b: bv32, c: bv32, d: bv32): bv32 { Rol1(a ^ b ^ c ^ d) }

  function Constant(t: nat): bv32 {
    if t < 20 then 0x5A827999 else if t < 40 then 0x6ED9EBA1
    else if t < 60 then 0x8F1BBCDC else 0xCA62C1D6
  }

  /** The functions Ch, Parity and Maj of the standard. */
  function Mix(t: nat, x: bv32, y: bv32, z: bv32): bv32 {
    if t < 20 then (x & y) ^ ((x ^ 0xFFFF_FFFF) & z)
    else if 40 <= t < 60 then (x & y) ^ (x & z) ^ (y & z)
    else x ^ y ^ z
  }

  function Sum(a: bv32, f: bv32, e: bv32, k: bv32, w: bv32): bv32 { a + f + e + k + w }

  /** The code's cheaper forms of the same functions. */
  function CodeMix(t: nat, w: bv32, x: bv32, y: bv32): bv32 {
    if t < 20 then (w & (x ^ y)) ^ y
    else if 40 <= t < 60 then ((w | x) & y) | (w & x)
    else w ^ x ^ y
  }

  function CodeSum(a: bv32, f: bv32, e: bv32, k: bv32, w: bv32): bv32 { e + (f + w + k + a) }

  function Standard(): Recipe<bv32> { Recipe(Expand, Mix, Constant, Rol5, Rol30, Sum) }

  function Code(): Recipe<bv32> { Recipe(Expand, CodeMix, Constant, Rol5, Rol30, CodeSum) }

  lemma MixForms(w: bv32, x: bv32, y: bv32)
    ensures (w & (x ^ y)) ^ y == (w & x) ^ ((w ^ 0xFFFF_FFFF) & y)
    ensures ((w | x) & y) | (w & x) == (w & x) ^ (w & y) ^ (x & y)
  {
  }

  lemma SumForms(a: bv32, f: bv32, e: bv32, k: bv32, w: bv32)
    ensures CodeSum(a, f, e, k, w) == Sum(a, f, e, k, w)
  {
  }

  lemma RecipesAlike()
    ensures Alike(Code(), Standard())
  {
    forall t: nat, x, y, z
      ensures Code().mix(t, x, y, z) == Standard().mix(t, x, y, z)
    {
      MixForms(x, y, z);
    }
    forall a, f, e, k, w
      ensures Code().sum(a, f, e, k, w) == Standard().sum(a, f, e, k, w)
    {
      SumForms(a, f, e, k, w);
    }
  }

  lemma CodeRoundsAgree(v: Working<bv32>, m: seq<bv32>)
    requires |m| == 16
    ensures Rounds(Code(), v, m, 80) == Rounds(Standard(), v, m, 80)
  {
    RecipesAlike();
    SameRounds(Code(), Standard(), v, m, 80);
  }

  /** The word formed by four octets, most significant first. */
  function BigEndianWord(a: bv8, b: bv8, c: bv8, d: bv8): bv32 {
    ((a as bv32) << 24) | ((b as bv32) << 16) | ((c as bv32) << 8) | (d as bv32)
  }

  /** A 32-bit load of four octets on a little-endian host. */
  function HostWord(a: bv8, b: bv8, c: bv8, d: bv8): bv32 {
    (a as bv32) | ((b as bv32) << 8) | ((c as bv32) << 16) | ((d as bv32) << 24)
  }

  /** The octet swap of the first sixteen rounds. */
  function Swap(x: bv32): bv32 {
    (((x << 24) | (x >> 8)) & 0xFF00FF00) | (((x << 8) | (x >> 24)) & 0x00FF00FF)
  }

  lemma SwapLoads(a: bv8, b: bv8, c: bv8, d: bv8)
    ensures Swap(HostWord(a, b, c, d)) == BigEndianWord(a, b, c, d)
  {
  }

  type Block = b: seq<bv8> | |b| == 64 witness seq(64, _ => 0)

  function BlockWords(b: Block): (m: seq<bv32>)
    ensures |m| == 16
  {
    seq(16, i requires 0 <= i < 16 => BigEndianWord(b[4 * i], b[4 * i + 1], b[4 * i + 2], b[4 * i + 3]))
  }

  function Words(v: Working<bv32>): (w: seq<bv32>)
    ensures |w| == 5
  {
    [v.a, v.b, v.c, v.d, v.e]
  }

  /** The hash computation for one block (section 6.1.2 of FIPS 180-4). */
  function Compress(h: Sha1.Hash, b: Block): Sha1.Hash {
    var v := Rounds(Standard(), Working(h[0], h[1], h[2], h[3], h[4]), BlockWords(b), 80);
    AddWords(h, Words(v))
  }

  // ---- The standard, word by word -----------------------------------------------------------

  /** The octets of a word, most significant first. */
  predicate OctetsAre(w: bv32, a: bv8, b: bv8, c: bv8, d: bv8) {
    && w >> 24 == a as bv32 && (w >> 16) & 0xFF == b as bv32
    && (w >> 8) & 0xFF == c as bv32 && w & 0xFF == d as bv32
  }

  lemma BigEndianOctets(a: bv8, b: bv8, c: bv8, d: bv8)
    ensures OctetsAre(BigEndianWord(a, b, c, d), a, b, c, d)
  {
  }

  /** The message schedule (section 6.1.2 of FIPS 180-4, step 1). */
  predicate IsSchedule(w: seq<bv32>, b: Block) {
    && |w| == 80
    && (forall t | 0 <= t < 16 :: OctetsAre(w[t], b[4 * t], b[4 * t + 1], b[4 * t + 2], b[4 * t + 3]))
    && (forall t | 16 <= t < 80 :: w[t] == (w[t - 3] ^ w[t - 8] ^ w[t - 14] ^ w[t - 16]).RotateLeft(1))
  }

  /** The logical function of round t and its constant (section 5 of RFC 3174). */
  function Logical(t: nat, b: bv32, c: bv32, d: bv32): bv32 {
    if t < 20 then (b & c) | (!b & d)
    else if t < 40 then b ^ c ^ d
    else if t < 60 then (b & c) | (b & d) | (c & d)
    else b ^ c ^ d
  }

  predicate IsSum(x: bv32, a: bv32, f: bv32, e: bv32, k: bv32, w: bv32) {
    x == a + f + e + k + w
  }

  /** Round t (section 6.1.2 of FIPS 180-4, step 3). */
  predicate IsRound(v: Working<bv32>, u: Working<bv32>, t: nat, w: bv32) {
    && IsSum(u.a, v.a.RotateLeft(5), Logical(t, v.b, v.c, v.d), v.e, Constant(t), w)
    && u.b == v.a && u.c == v.b.RotateLeft(30) && u.d == v.c && u.e == v.d
  }

  predicate AreRounds(v: seq<Working<bv32>>, w: seq<bv32>)
    requires |w| == 80
  {
    |v| == 81 && forall t | 0 <= t < 80 :: IsRound(v[t], v[t + 1], t, w[t])
  }

  /** The constants are the square roots of 2, 3, 5 and 10, times 2^30 and rounded down. */
  lemma ConstantIs(t: nat)
    ensures var k := Constant(t) as int;
            var n := if t < 20 then 2 else if t < 40 then 3 else if t < 60 then 5 else 10;
            k * k <= n * 0x1000_0000_0000_0000 < (k + 1) * (k + 1)
  {
    assert 0x5A827999 as bv32 as int == 0x5A827999;
    assert 0x6ED9EBA1 as bv32 as int == 0x6ED9EBA1;
    assert 0x8F1BBCDC as bv32 as int == 0x8F1BBCDC;
    assert 0xCA62C1D6 as bv32 as int == 0xCA62C1D6;
  }

  /** The initial hash value: stored least significant octet first, the octets of the first four words
      count up in steps of 0x22 and down again, those of the last one down in steps of 0x0F. */
  lemma InitialIs()
    ensures INITIAL[0] == HostWord(0x01, 0x23, 0x45, 0x67) && INITIAL[1] == HostWord(0x89, 0xAB, 0xCD, 0xEF)
    ensures INITIAL[2] == HostWord(0xFE, 0xDC, 0xBA, 0x98) && INITIAL[3] == HostWord(0x76, 0x54, 0x32, 0x10)
    ensures INITIAL[4] == HostWord(0xF0, 0xE1, 0xD2, 0xC3)
  {
  }

  lemma ShiftIs(x: bv32)
    ensures Rol1(x) == x.RotateLeft(1)
  {
  }

  lemma SpinIs(x: bv32)
    ensures Rol5(x) == x.RotateLeft(5)
  {
  }

  lemma TurnIs(x: bv32)
    ensures Rol30(x) == x.RotateLeft(30)
  {
  }

  lemma ChoiceIs(b: bv32, c: bv32, d: bv32)
    ensures (b & c) ^ ((b ^ 0xFFFF_FFFF) & d) == (b & c) | (!b & d)
  {
  }

  lemma MajorityIs(b: bv32, c: bv32, d: bv32)
    ensures (b & c) ^ (b & d) ^ (c & d) == (b & c) | (b & d) | (c & d)
  {
  }

  lemma LogicalIs(t: nat, b: bv32, c: bv32, d: bv32)
    ensures Mix(t, b, c, d) == Logical(t, b, c, d)
  {
    ChoiceIs(b, c, d);
    MajorityIs(b, c, d);
  }

  lemma RoundOf(v: Working<bv32>, t: nat, w: bv32)
    ensures Round(Standard(), v, t, w)
         == Working(Sum(Rol5(v.a), Mix(t, v.b, v.c, v.d), v.e, Constant(t), w), v.a, Rol30(v.b), v.c, v.d)
  {
  }

  lemma SumIs(a: bv32, f: bv32, e: bv32, k: bv32, w: bv32)
    ensures IsSum(Sum(a, f, e, k, w), a, f, e, k, w)
  {
  }

  lemma TempIs(v: Working<bv32>, t: nat, w: bv32)
    ensures IsSum(Sum(Rol5(v.a), Mix(t, v.b, v.c, v.d), v.e, Constant(t), w),
                  v.a.RotateLeft(5), Logical(t, v.b, v.c, v.d), v.e, Constant(t), w)
  {
    SumIs(Rol5(v.a), Mix(t, v.b, v.c, v.d), v.e, Constant(t), w);
    SpinIs(v.a);
    LogicalIs(t, v.b, v.c, v.d);
  }

  lemma RoundIs(v: Working<bv32>, t: nat, w: bv32)
    ensures IsRound(v, Round(Standard(), v, t, w), t, w)
  {
    RoundOf(v, t, w);
    TempIs(v, t, w);
    TurnIs(v.b);
  }

  lemma ExpandIs(a: bv32, b: bv32, c: bv32, d: bv32)
    ensures Expand(a, b, c, d) == (a ^ b ^ c ^ d).RotateLeft(1)
  {
    ShiftIs(a ^ b ^ c ^ d);
  }

  lemma ScheduleNext<W>(alg: Recipe<W>, m: seq<W>, w: seq<W>, t: nat)
    requires |m| == 16 <= t < |w| && forall j | 0 <= j < |w| :: w[j] == Schedule(alg, m, j)
    ensures w[t] == alg.expand(w[t - 3], w[t - 8], w[t - 14], w[t - 16])
  {
  }

  lemma Schedules<W>(alg: Recipe<W>, m: seq<W>, n: nat) returns (w: seq<W>)
    requires |m| == 16
    ensures |w| == n && forall t | 0 <= t < n :: w[t] == Schedule(alg, m, t)
  {
    w := seq(n, t requires 0 <= t < n => Schedule(alg, m, t));
  }

  lemma ScheduleAt(m: seq<bv32>, w: seq<bv32>, t: nat)
    requires |m| == 16 <= t < |w| && forall j | 0 <= j < |w| :: w[j] == Schedule(Standard(), m, j)
    ensures w[t] == (w[t - 3] ^ w[t - 8] ^ w[t - 14] ^ w[t - 16]).RotateLeft(1)
  {
    ScheduleNext(Standard(), m, w, t);
    ExpandIs(w[t - 3], w[t - 8], w[t - 14], w[t - 16]);
  }

  lemma ScheduleIs(b: Block, w: seq<bv32>)
    requires |w| == 80 && forall t | 0 <= t < 80 :: w[t] == Schedule(Standard(), BlockWords(b), t)
    ensures IsSchedule(w, b)
  {
    forall t | 0 <= t < 16
      ensures OctetsAre(w[t], b[4 * t], b[4 * t + 1], b[4 * t + 2], b[4 * t + 3])
    {
      BigEndianOctets(b[4 * t], b[4 * t + 1], b[4 * t + 2], b[4 * t + 3]);
    }
    forall t | 16 <= t < 80
      ensures w[t] == (w[t - 3] ^ w[t - 8] ^ w[t - 14] ^ w[t - 16]).RotateLeft(1)
    {
      ScheduleAt(BlockWords(b), w, t);
    }
  }

  /** What the standard computes from a hash value and a block. */
  ghost predicate Compressed(h: Sha1.Hash, b: Block, r: Sha1.Hash) {
    exists w, v :: Computes(h, b, w, v) && IsFinal(h, Words(v[80]), r)
  }

  predicate Computes(h: Sha1.Hash, b: Block, w: seq<bv32>, v: seq<Working<bv32>>) {
    IsSchedule(w, b) && AreRounds(v, w) && v[0] == Working(h[0], h[1], h[2], h[3], h[4])
  }

  predicate IsFinal(h: Sha1.Hash, v: seq<bv32>, r: Sha1.Hash)
    requires |v| == 5
  {
    r[0] == h[0] + v[0] && r[1] == h[1] + v[1] && r[2] == h[2] + v[2] && r[3] == h[3] + v[3] && r[4] == h[4] + v[4]
  }

  lemma FinalIs(h: Sha1.Hash, v: seq<bv32>)
    requires |v| == 5
    ensures IsFinal(h, v, AddWords(h, v))
  {
  }

  lemma AllRounds<W>(alg: Recipe<W>, v0: Working<W>, m: seq<W>, n: nat) returns (v: seq<Working<W>>)
    requires |m| == 16
    ensures |v| == n + 1 && forall t | 0 <= t <= n :: v[t] == Rounds(alg, v0, m, t)
  {
    v := seq(n + 1, t requires 0 <= t <= n => Rounds(alg, v0, m, t));
  }

  lemma RoundAt(v0: Working<bv32>, m: seq<bv32>, v: seq<Working<bv32>>, w: seq<bv32>, t: nat)
    requires |m| == 16 && t < |w| < |v| && w[t] == Schedule(Standard(), m, t)
    requires v[t] == Rounds(Standard(), v0, m, t) && v[t + 1] == Rounds(Standard(), v0, m, t + 1)
    ensures IsRound(v[t], v[t + 1], t, w[t])
  {
    RoundsNext(Standard(), v0, m, t);
    RoundIs(v[t], t, w[t]);
  }

  lemma ComputesTo(h: Sha1.Hash, b: Block, n: nat) returns (w: seq<bv32>, v: seq<Working<bv32>>)
    requires n == 80
    ensures Computes(h, b, w, v)
    ensures v[n] == Rounds(Standard(), Working(h[0], h[1], h[2], h[3], h[4]), BlockWords(b), n)
  {
    var m, v0 := BlockWords(b), Working(h[0], h[1], h[2], h[3], h[4]);
    w := Schedules(Standard(), m, n);
    ScheduleIs(b, w);
    v := AllRounds(Standard(), v0, m, n);
    forall t | 0 <= t < n
      ensures IsRound(v[t], v[t + 1], t, w[t])
    {
      RoundAt(v0, m, v, w, t);
    }
  }

  /** The compression function is the standard's. */
  lemma CompressIs(h: Sha1.Hash, b: Block)
    ensures Compressed(h, b, Compress(h, b))
  {
    var w, v := ComputesTo(h, b, 80);
    FinalIs(h, Words(v[80]));
  }

  /** The host-order words of a block swap into its big-endian words. */
  lemma Swapped(b: Block, l: seq<bv32>)
    requires |l| == 16
    requires forall i | 0 <= i < 16 :: l[i] == HostWord(b[4 * i], b[4 * i + 1], b[4 * i + 2], b[4 * i + 3])
    ensures forall j | 0 <= j < 16 :: BlockWords(b)[j] == Swap(l[j])
  {
    forall j | 0 <= j < 16
      ensures BlockWords(b)[j] == Swap(l[j])
    {
      SwapLoads(b[4 * j], b[4 * j + 1], b[4 * j + 2], b[4 * j + 3]);
    }
  }

  method LoadBlock(b: Block) returns (l: array<bv32>)
    ensures fresh(l) && l.Length == 16 && forall j | 0 <= j < 16 :: BlockWords(b)[j] == Swap(l[j])
  {
    l := new bv32[16](i requires 0 <= i < 16 => HostWord(b[4 * i], b[4 * i + 1], b[4 * i + 2], b[4 * i + 3]));
    Swapped(b, l[..]);
    assert forall j | 0 <= j < 16 :: l[..][j] == l[j];
  }

  method Transform(state: Sha1.Hash, b: Block) returns (h: Sha1.Hash)
    ensures h == Compress(state, b) && Compressed(state, b, h)
  {
    var l := LoadBlock(b);
    var r := new bv32[5](i requires 0 <= i < 5 => state[i]);
    ghost var v := Working(state[0], state[1], state[2], state[3], state[4]);
    FullCircle(r[..]);
    assert InRole(r[..], 0) == v;
    CodeRounds(r, l, Swap, Code(), BlockWords(b), 80);
    CodeRoundsAgree(v, BlockWords(b));
    FullCircle(r[..]);
    ghost var u := Rounds(Standard(), v, BlockWords(b), 80);
    Registers(r[..], u);
    h := AddWords(state, r[..]);
    CompressIs(state, b);
  }

  lemma Registers(r: seq<bv32>, u: Working<bv32>)
    requires |r| == 5 && u == Working(r[0], r[1], r[2], r[3], r[4])
    ensures r == Words(u)
  {
  }

  /** Eighty being a multiple of five, the register names end where they began. */
  lemma FullCircle(r: seq<bv32>)
    requires |r| == 5
    ensures InRole(r, 80) == InRole(r, 0) == Working(r[0], r[1], r[2], r[3], r[4])
  {
  }

  function AddWords(h: Sha1.Hash, v: seq<bv32>): Sha1.Hash
    requires |v| == 5
  {
    [h[0] + v[0], h[1] + v[1], h[2] + v[2], h[3] + v[3], h[4] + v[4]]
  }

  // ---- Messages ----------------------------------------------------------------------------

  const INITIAL: Sha1.Hash := [0x67452301, 0xEFCDAB89, 0x98BADCFE, 0x10325476, 0xC3D2E1F0]

  function CompressBytes(h: Sha1.Hash, block: seq<byte>): Sha1.Hash {
    if |block| == 64 then Compress(h, Octets(block)) else h
  }

  /** The SHA-1 digest of a message (section 6.1 of FIPS 180-4). */
  function Digest(m: seq<byte>): seq<byte> {
    Sha1.DigestBytes(Sha1.Fold(CompressBytes, INITIAL, Sha1.Pad(m)))
  }

  function Octets(block: seq<byte>): Block
    requires |block| == 64
  {
    seq(64, i requires 0 <= i < 64 => block[i] as bv8)
  }

  /** The hash values block by block (section 6.1.2 of FIPS 180-4). */
  ghost predicate IsChain(p: seq<byte>, hs: seq<Sha1.Hash>) {
    && |hs| == |p| / 64 + 1 && hs[0] == INITIAL
    && forall i | 0 <= i < |p| / 64 :: Compressed(hs[i], Octets(p[64 * i..64 * i + 64]), hs[i + 1])
  }

  /** The digest of a message as the standard has it. */
  ghost predicate Digested(m: seq<byte>, d: seq<byte>) {
    exists p, hs :: Sha1.IsPadded(m, p) && IsChain(p, hs) && IsDigest(hs[|p| / 64], d)
  }

  predicate IsDigest(h: Sha1.Hash, d: seq<byte>) {
    |d| == 20 && forall i | 0 <= i < 5 :: IsStored(h[i], d[4 * i..4 * i + 4])
  }

  /** Four octets hold a word, most significant octet first. */
  predicate IsStored(w: bv32, d: seq<byte>)
    requires |d| == 4
  {
    && d[0] == (w >> 24) as int && d[1] == ((w >> 16) & 0xFF) as int
    && d[2] == ((w >> 8) & 0xFF) as int && d[3] == (w & 0xFF) as int
  }

  lemma WordStored(w: bv32)
    ensures IsStored(w, seq(4, j requires 0 <= j < 4 => Sha1.StateOctet(w, j)))
  {
  }

  lemma FourAt(i: nat, j: nat)
    requires j < 4
    ensures (4 * i + j) / 4 == i && (4 * i + j) % 4 == j
  {
  }

  lemma DigestBytesAre(h: Sha1.Hash)
    ensures IsDigest(h, Sha1.DigestBytes(h))
  {
    var d := Sha1.DigestBytes(h);
    forall i | 0 <= i < 5
      ensures IsStored(h[i], d[4 * i..4 * i + 4])
    {
      WordStored(h[i]);
      forall j | 0 <= j < 4
        ensures d[4 * i..4 * i + 4][j] == Sha1.StateOctet(h[i], j)
      {
        FourAt(i, j);
      }
      assert d[4 * i..4 * i + 4] == seq(4, j requires 0 <= j < 4 => Sha1.StateOctet(h[i], j));
    }
  }

  lemma ChainNext(p: seq<byte>, hs: seq<Sha1.Hash>, block: seq<byte>, h: Sha1.Hash)
    requires |p| % 64 == 0 && |block| == 64 && IsChain(p, hs) && Compressed(hs[|p| / 64], Octets(block), h)
    ensures IsChain(p + block, hs + [h])
  {
    var q, gs, n := p + block, hs + [h], |p| / 64;
    assert |q| / 64 == n + 1;
    forall i | 0 <= i < n + 1
      ensures Compressed(gs[i], Octets(q[64 * i..64 * i + 64]), gs[i + 1])
    {
      if i < n {
        assert q[64 * i..64 * i + 64] == p[64 * i..64 * i + 64];
      } else {
        assert q[64 * i..64 * i + 64] == block;
      }
    }
  }

  lemma {:induction false} FoldChain(p: seq<byte>) returns (hs: seq<Sha1.Hash>)
    requires |p| % 64 == 0
    ensures IsChain(p, hs) && hs[|p| / 64] == Sha1.Fold(CompressBytes, INITIAL, p)
    decreases |p|
  {
    if p == [] {
      hs := [INITIAL];
    } else {
      var before, block := p[..|p| - 64], p[|p| - 64..];
      var gs := FoldChain(before);
      CompressIs(gs[|before| / 64], Octets(block));
      ChainNext(before, gs, block, CompressBytes(gs[|before| / 64], block));
      Sha1.FoldBlock(CompressBytes, INITIAL, before, block);
      assert p == before + block;
      hs := gs + [CompressBytes(gs[|before| / 64], block)];
    }
  }

  /** The digest is the standard's. */
  lemma DigestIs(m: seq<byte>)
    ensures Digested(m, Digest(m))
  {
    var p := Sha1.Pad(m);
    Sha1.PadIs(m);
    var hs := FoldChain(p);
    DigestBytesAre(hs[|p| / 64]);
  }

  function Concat(pieces: seq<seq<byte>>): seq<byte> {
    if pieces == [] then [] else Concat(pieces[..|pieces| - 1]) + pieces[|pieces| - 1]
  }

  /** The pieces, one behind the other. */
  lemma {:induction false} ConcatIs(p: seq<seq<byte>>, q: seq<seq<byte>>, piece: seq<byte>)
    ensures Concat([piece]) == piece && Concat(p + q) == Concat(p) + Concat(q)
    decreases |q|
  {
    assert [piece][..0] == [] && Concat([]) + piece == piece;
    if q == [] {
      assert p + q == p;
    } else {
      var before, last := q[..|q| - 1], q[|q| - 1];
      ConcatIs(p, before, piece);
      assert (p + q)[..|p + q| - 1] == p + before;
      assert Concat(p) + Concat(before) + last == Concat(p) + (Concat(before) + last);
    }
  }

  /** The guard of every update call is right. */
  predicate Guarded(pieces: seq<seq<byte>>) {
    pieces == [] || (
      var before, last := pieces[..|pieces| - 1], pieces[|pieces| - 1];
      Guarded(before) && |Concat(before)| % 64 + |last| < WORD)
  }

  lemma {:induction false} GuardedAt(pieces: seq<seq<byte>>, i: nat)
    requires Guarded(pieces) && i < |pieces|
    ensures |Concat(pieces[..i])| % 64 + |pieces[i]| < WORD
  {
    if i < |pieces| - 1 {
      GuardedAt(pieces[..|pieces| - 1], i);
      assert pieces[..|pieces| - 1][..i] == pieces[..i];
    }
  }

  /** However a message is cut into update calls, the digest is that of the whole message, as long as
      the 32-bit guard of every call holds. */
  method HashPieces(pieces: seq<seq<byte>>) returns (digest: seq<byte>)
    requires Guarded(pieces)
    ensures digest == Digest(Concat(pieces)) && Digested(Concat(pieces), digest)
  {
    var context := new Sha1.Context(CompressBytes, INITIAL);
    for i := 0 to |pieces|
      invariant context.Valid() && fresh(context) && fresh(context.buffer)
      invariant context.transform == CompressBytes && context.initial == INITIAL
      invariant context.message == Concat(pieces[..i])
    {
      assert pieces[..i + 1][..i] == pieces[..i];
      GuardedAt(pieces, i);
      context.Update(pieces[i]);
    }
    assert pieces[..|pieces|] == pieces;
    digest := context.Final();
    DigestIs(Concat(pieces));
  }
}
