/** Percent encoding of URIs and form data (section 2.1 of RFC 3986), and its decoding, also
    in place. */
module PercentEncoding {
  import opened Bytes
  import opened Ascii
  import opened Collections

  // ---- Specification ------------------------------------------------------------------------------

  /** The punctuation "._-$,;~()" that is not escaped. */
  predicate IsPlainMark(c: byte) {
    c in {46, 95, 45, 36, 44, 59, 126, 40, 41}
  }

  predicate Plain(c: byte) {
    IsAlnum(c) || IsPlainMark(c)
  }

  const PERCENT: byte := '%' as int

  const PLUS: byte := '+' as int

  const SPACE: byte := ' ' as int

  function HexDigit(d: int): byte
    requires 0 <= d < 16
  {
    if d < 10 then '0' as int + d else 'a' as int + (d - 10)
  }

  function EncodeOne(c: byte): seq<byte> {
    if Plain(c) then [c] else [PERCENT, HexDigit(c / 16), HexDigit(c % 16)]
  }

  function Encoded(s: seq<byte>): seq<byte> {
    if s == [] then [] else EncodeOne(s[0]) + Encoded(s[1..])
  }

  predicate Triple(s: seq<byte>) {
    |s| > 2 && s[0] == PERCENT && IsHex(s[1]) && IsHex(s[2])
  }

  function DecodeOne(s: seq<byte>, form: bool): byte
    requires s != []
  {
    if Triple(s) then 16 * Digit(s[1]) + Digit(s[2])
    else if form && s[0] == PLUS then SPACE
    else s[0]
  }

  function Width(s: seq<byte>): nat {
    if Triple(s) then 3 else 1
  }

  function Decoded(s: seq<byte>, form: bool): seq<byte> {
    if s == [] then [] else [DecodeOne(s, form)] + Decoded(s[Width(s)..], form)
  }

  // ---- Character by character ---------------------------------------------------------------------

  const HEX := "0123456789abcdef"

  const HEX_CAPITALS := "0123456789ABCDEF"

  /** Letters, digits and nine marks stand for themselves; anything else becomes a percent sign and two
      lower-case hexadecimal digits. */
  lemma EncodedIs(c: byte)
    ensures EncodeOne(c)
         == if c as char in DIGITS || c as char in LETTERS || c as char in CAPITALS || c as char in "._-$,;~()" then [c]
            else ['%' as int, HEX[c / 16] as int, HEX[c % 16] as int]
  {
    AlnumIs(c);
  }

  /** A percent sign and two hexadecimal digits of either case stand for one character. */
  lemma DecodedTriple(i: nat, j: nat, h: byte, l: byte, rest: seq<byte>, form: bool)
    requires i < 16 && (h as char == HEX[i] || h as char == HEX_CAPITALS[i])
    requires j < 16 && (l as char == HEX[j] || l as char == HEX_CAPITALS[j])
    ensures Decoded(['%' as int, h, l] + rest, form) == [16 * i + j] + Decoded(rest, form)
  {
    var s := ['%' as int, h, l] + rest;
    HexDigitIs(i, h);
    HexDigitIs(j, l);
    assert s[3..] == rest;
  }

  lemma HexDigitIs(i: nat, c: byte)
    requires i < 16 && (c as char == HEX[i] || c as char == HEX_CAPITALS[i])
    ensures IsHex(c) && Digit(c) == i
  {
  }

  /** Anything else stands for itself, except that a plus sign is a blank in form data. */
  lemma DecodedOne(c: byte, rest: seq<byte>, form: bool)
    requires c == '%' as int && |rest| >= 2 ==>
               !(forall d <- rest[..2] :: d as char in HEX || d as char in HEX_CAPITALS)
    ensures Decoded([c] + rest, form)
         == [if form && c == '+' as int then ' ' as int else c] + Decoded(rest, form)
  {
    var s := [c] + rest;
    if c == '%' as int && |rest| >= 2 {
      var d :| d in rest[..2] && !(d as char in HEX || d as char in HEX_CAPITALS);
      HexIs(d);
      assert s[1..3] == rest[..2];
      assert d == s[1] || d == s[2];
    }
    assert s[1..] == rest;
  }

  // ---- Decoding undoes encoding -----------------------------------------------------------------------

  lemma HexBack(c: byte)
    ensures IsHex(HexDigit(c / 16)) && IsHex(HexDigit(c % 16))
    ensures 16 * Digit(HexDigit(c / 16)) + Digit(HexDigit(c % 16)) == c
  {
  }

  lemma DecodeEncodedOne(c: byte, rest: seq<byte>, form: bool)
    ensures Decoded(EncodeOne(c) + rest, form) == [c] + Decoded(rest, form)
  {
    var s := EncodeOne(c) + rest;
    if Plain(c) {
      assert s[0] == c && s[1..] == rest;
    } else {
      HexBack(c);
      assert s[0] == PERCENT && s[1] == HexDigit(c / 16) && s[2] == HexDigit(c % 16);
      assert s[3..] == rest;
    }
  }

  /** Decoding, in form mode or not, undoes encoding. */
  lemma {:induction false} RoundTrip(s: seq<byte>, form: bool)
    ensures Decoded(Encoded(s), form) == s
  {
    if s != [] {
      RoundTrip(s[1..], form);
      DecodeEncodedOne(s[0], Encoded(s[1..]), form);
    }
  }

  /** Decoding never lengthens, so a buffer as long as the source and its terminator suffices. */
  lemma {:induction false} DecodingShrinks(s: seq<byte>, form: bool)
    ensures |Decoded(s, form)| <= |s|
  {
    if s != [] {
      DecodingShrinks(s[Width(s)..], form);
    }
  }

  // ---- The two functions over buffers -------------------------------------------------------------------

  /** Encodes `src` into the first `dstLen` bytes of `dst`.  It succeeds if and only if the result
      and its terminator fit; otherwise whole characters are written as far as they fit. */
  method UrlEncode(src: seq<byte>, dst: array<byte>, dstLen: nat) returns (r: int)
    requires 1 <= dstLen <= dst.Length && 0 !in src
    modifies dst
    ensures r >= 0 <==> |Encoded(src)| < dstLen
    ensures r >= 0 ==> r == |Encoded(src)| && dst[..r] == Encoded(src) && dst[r] == 0
    ensures r < 0 ==> exists k, p :: 0 <= k < |src| && 0 <= p < dstLen && dst[..p] == Encoded(src[..k]) && dst[p] == 0
                                     && p + |EncodeOne(src[k])| >= dstLen
    ensures dst[dstLen..] == old(dst[dstLen..])
  {
    var pos, i := 0, 0;
    while i < |src| && pos < dstLen - 1
      invariant i <= |src| && 0 <= pos < dstLen
      invariant dst[..pos] == Encoded(src[..i]) && dst[dstLen..] == old(dst[dstLen..])
    {
      var fits := EncodeTurn(src[i], dst, pos, dstLen);
      if !fits {
        break;
      }
      EncodedNext(src, i);
      pos := pos + |EncodeOne(src[i])|;
      i := i + 1;
    }
    dst[pos] := 0;
    if i < |src| {
      EncodedNext(src, i);
      EncodedPrefix(src, i + 1);
      return -1;
    }
    assert src[..i] == src;
    return pos;
  }

  /** One turn: the character is written if its encoding fits before the terminator. */
  method EncodeTurn(c: byte, dst: array<byte>, pos: nat, dstLen: nat) returns (fits: bool)
    requires pos < dstLen - 1 < dst.Length
    modifies dst
    ensures fits <==> pos + |EncodeOne(c)| < dstLen
    ensures fits ==> dst[..pos + |EncodeOne(c)|] == old(dst[..pos]) + EncodeOne(c)
    ensures !fits ==> dst[..] == old(dst[..])
    ensures dst[dstLen..] == old(dst[dstLen..])
  {
    if Plain(c) {
      dst[pos] := c;
    } else if pos + 2 < dstLen - 1 {
      dst[pos], dst[pos + 1], dst[pos + 2] := PERCENT, HexDigit(c / 16), HexDigit(c % 16);
    } else {
      return false;
    }
    return true;
  }

  lemma {:induction false} EncodedPrefix(src: seq<byte>, i: nat)
    requires i <= |src|
    ensures |Encoded(src[..i])| <= |Encoded(src)|
    decreases |src| - i
  {
    if i < |src| {
      EncodedNext(src, i);
      EncodedPrefix(src, i + 1);
    } else {
      assert src[..i] == src;
    }
  }

  lemma EncodedNext(src: seq<byte>, i: nat)
    requires i < |src|
    ensures Encoded(src[..i + 1]) == Encoded(src[..i]) + EncodeOne(src[i])
  {
    assert src[..i + 1] == src[..i] + [src[i]];
    EncodedAppend(src[..i], src[i]);
  }

  lemma {:induction false} EncodedAppend(s: seq<byte>, c: byte)
    ensures Encoded(s + [c]) == Encoded(s) + EncodeOne(c)
  {
    if s == [] {
      assert [c][1..] == [] && s + [c] == [c];
    } else {
      EncodedAppend(s[1..], c);
      assert (s + [c])[1..] == s[1..] + [c];
      Regroup(EncodeOne(s[0]), Encoded(s[1..]), EncodeOne(c));
    }
  }

  /** One character of the decoded form, read before anything is written. */
  method DecodeNext(src: array<byte>, i: nat, srcLen: nat, form: bool) returns (c: byte, width: nat)
    requires i < srcLen <= src.Length
    ensures c == DecodeOne(src[i..srcLen], form) && width == Width(src[i..srcLen])
  {
    ghost var tail := src[i..srcLen];
    if i < srcLen - 2 && src[i] == PERCENT && IsHex(src[i + 1]) && IsHex(src[i + 2]) {
      assert src[i] == tail[0] && src[i + 1] == tail[1] && src[i + 2] == tail[2];
      return 16 * Digit(src[i + 1]) + Digit(src[i + 2]), 3;
    }
    assert !Triple(tail);
    if form && src[i] == PLUS {
      return SPACE, 1;
    }
    return src[i], 1;
  }

  /** One turn: the character is written at or before the place it was read from. */
  method DecodeTurn(
      src: array<byte>, i: nat, srcLen: nat, dst: array<byte>, j: nat, ghost dstLen: nat,
      form: bool, ghost s: seq<byte>)
      returns (next: nat, ghost c: byte)
    requires j <= i < srcLen <= src.Length && j < dstLen <= dst.Length
    requires |s| == srcLen && src[i..srcLen] == s[i..]
    modifies dst
    ensures i < next <= srcLen && src[next..srcLen] == s[next..]
    ensures Decoded(s[i..], form) == [c] + Decoded(s[next..], form)
    ensures dst[..j + 1] == old(dst[..j]) + [c] && dst[dstLen..] == old(dst[dstLen..])
  {
    var d, width := DecodeNext(src, i, srcLen, form);
    c := d;
    DecodedNext(s, i, form, c, width);
    next := i + width;
    assert src[next..srcLen] == src[i..srcLen][width..] && s[next..] == s[i..][width..];
    dst[j] := d;
  }

  /** Decodes `srcLen` bytes of `src` into the first `dstLen` bytes of `dst`, which may be the same
      array: either way the outcome is that for the original source. */
  method UrlDecode(src: array<byte>, srcLen: nat, dst: array<byte>, dstLen: nat, form: bool) returns (r: int)
    requires srcLen <= src.Length && 1 <= dstLen <= dst.Length
    modifies dst
    ensures var d := Decoded(old(src[..srcLen]), form);
            && (r >= 0 <==> |d| < dstLen)
            && (r >= 0 ==> r == |d| && dst[..r] == d && dst[r] == 0)
            && (r < 0 ==> dst[..dstLen - 1] == d[..dstLen - 1] && dst[dstLen - 1] == 0)
    ensures dst[dstLen..] == old(dst[dstLen..])
  {
    ghost var s := src[..srcLen];
    ghost var d := Decoded(s, form);
    var i, j := 0, 0;
    ghost var todo := d;
    while i < srcLen && j < dstLen - 1
      invariant 0 <= j < dstLen && j <= i <= srcLen
      invariant src[i..srcLen] == s[i..] && todo == Decoded(s[i..], form)
      invariant d == dst[..j] + todo
      invariant dst[dstLen..] == old(dst[dstLen..])
    {
      ghost var before, c := dst[..j], 0;
      i, c := DecodeTurn(src, i, srcLen, dst, j, dstLen, form, s);
      todo := Decoded(s[i..], form);
      Regroup(before, [c], todo);
      j := j + 1;
    }
    dst[j] := 0;
    return if i >= srcLen then j else -1;
  }

  lemma DecodedNext(s: seq<byte>, i: nat, form: bool, c: byte, width: nat)
    requires i < |s| && width == Width(s[i..]) && c == DecodeOne(s[i..], form)
    ensures i + width <= |s| && Decoded(s[i..], form) == [c] + Decoded(s[i + width..], form)
  {
    assert s[i..][width..] == s[i + width..];
  }

  /** The request handler's use: the URI is decoded where it stands, which always succeeds. */
  method DecodeInPlace(uri: array<byte>, len: nat) returns (r: int)
    requires len < uri.Length
    modifies uri
    ensures 0 <= r <= len
    ensures r == |Decoded(old(uri[..len]), false)| && uri[..r] == Decoded(old(uri[..len]), false) && uri[r] == 0
    ensures uri[len + 1..] == old(uri[len + 1..])
  {
    DecodingShrinks(uri[..len], false);
    r := UrlDecode(uri, len, uri, len + 1, false);
  }
}
