/** The octets that the wire formats give a meaning to. */
module Ascii {
  import opened Bytes

  const LF: byte := 10

  const CR: byte := 13

  predicate IsDigit(c: byte) {
    '0' as int <= c <= '9' as int
  }

  predicate IsLetter(c: byte) {
    'a' as int <= c <= 'z' as int || 'A' as int <= c <= 'Z' as int
  }

  predicate IsAlnum(c: byte) {
    IsDigit(c) || IsLetter(c)
  }

  predicate IsHex(c: byte) {
    IsDigit(c) || 'a' as int <= c <= 'f' as int || 'A' as int <= c <= 'F' as int
  }

  function Lower(c: byte): byte {
    if 'A' as int <= c <= 'Z' as int then c + 32 else c
  }

  /** The number a hexadecimal digit of either case stands for. */
  function Digit(c: byte): (d: int)
    requires IsHex(c)
    ensures 0 <= d < 16
  {
    if IsDigit(Lower(c)) then Lower(c) - '0' as int else Lower(c) - 'W' as int
  }

  const DIGITS := "0123456789"

  const LETTERS := "abcdefghijklmnopqrstuvwxyz"

  const CAPITALS := "ABCDEFGHIJKLMNOPQRSTUVWXYZ"

  lemma DigitIs(c: byte)
    ensures IsDigit(c) <==> c as char in DIGITS
  {
  }

  lemma SmallIs(c: byte)
    ensures 'a' as int <= c <= 'z' as int <==> c as char in LETTERS
  {
    if 'a' as int <= c <= 'z' as int {
      assert LETTERS[c - 'a' as int] == c as char;
    }
  }

  lemma CapitalIs(c: byte)
    ensures 'A' as int <= c <= 'Z' as int <==> c as char in CAPITALS
  {
    if 'A' as int <= c <= 'Z' as int {
      assert CAPITALS[c - 'A' as int] == c as char;
    }
  }

  lemma AlnumIs(c: byte)
    ensures IsAlnum(c) <==> c as char in DIGITS || c as char in LETTERS || c as char in CAPITALS
  {
    DigitIs(c);
    SmallIs(c);
    CapitalIs(c);
  }

  /** The hexadecimal digits of both cases, and what they stand for. */
  lemma HexIs(c: byte)
    ensures IsHex(c) <==> c as char in "0123456789abcdef" || c as char in "0123456789ABCDEF"
    ensures IsHex(c) ==> "0123456789abcdef"[Digit(c)] == c as char || "0123456789ABCDEF"[Digit(c)] == c as char
  {
  }
}
