/**
 * Octets, 16-bit attribute handles, the C character classes and the
 * hexadecimal digits that the cache text is written in.
 */
module Bytes {
  type byte = x: int | 0 <= x < 0x100
  type u16 = x: int | 0 <= x < 0x1_0000

  /**
   * att_get_u16: a 16-bit field of an Attribute Protocol PDU. The protocol
   * is little-endian, so the low octet comes first.
   */
  function U16At(s: seq<byte>, i: nat): u16
    requires i + 2 <= |s|
  {
    s[i] as int + 0x100 * (s[i + 1] as int)
  }

  /** The field's low octet is the first one, its high octet the second. */
  lemma U16AtOctets(s: seq<byte>, i: nat)
    requires i + 2 <= |s|
    ensures U16At(s, i) % 0x100 == s[i] && U16At(s, i) / 0x100 == s[i + 1]
  {
  }

  /** C's isspace in the "C" locale: space, \t, \n, \v, \f and \r. */
  predicate IsSpace(c: char) {
    c == ' ' || 9 <= c as int <= 13
  }

  /** C's isxdigit. */
  predicate IsHexDigit(c: char) {
    '0' <= c <= '9' || 'A' <= c <= 'F' || 'a' <= c <= 'f'
  }

  /** The value of one hexadecimal digit, either case. */
  function HexValue(c: char): (n: nat)
    requires IsHexDigit(c)
    ensures n < 16
  {
    if c <= '9' then c as int - '0' as int
    else if c <= 'F' then c as int - 'A' as int + 10
    else c as int - 'a' as int + 10
  }

  /** The digit printf's %X writes for a value below 16. */
  function UpperDigit(n: nat): (c: char)
    requires n < 16
    ensures IsHexDigit(c) && !IsSpace(c) && c != '#' && HexValue(c) == n
  {
    if n < 10 then ('0' as int + n) as char else ('A' as int + n - 10) as char
  }

  /** printf's "%02X" of an octet. */
  function Hex2(b: byte): (s: string)
    ensures |s| == 2
  {
    [UpperDigit(b / 16), UpperDigit(b % 16)]
  }

  /** printf's "%04X" of a 16-bit value: always four digits, upper case. */
  function Hex4(h: u16): (s: string)
    ensures |s| == 4
  {
    Hex2(h / 0x100) + Hex2(h % 0x100)
  }

  predicate AllHex(s: string) {
    forall k | 0 <= k < |s| :: IsHexDigit(s[k])
  }

  /** The number a run of hexadecimal digits denotes, most significant first. */
  function HexNumber(s: string): nat
    requires AllHex(s)
  {
    if s == [] then 0 else 16 * HexNumber(s[..|s| - 1]) + HexValue(s[|s| - 1])
  }

  lemma Hex2Digits(b: byte)
    ensures AllHex(Hex2(b)) && HexNumber(Hex2(b)) == b
    ensures forall k | 0 <= k < 2 :: !IsSpace(Hex2(b)[k]) && Hex2(b)[k] != '#'
  {
    var s := Hex2(b);
    assert s[..1] == [UpperDigit(b / 16)];
    assert s[..1][..0] == [];
    assert HexNumber(s[..1]) == b / 16;
    assert HexNumber(s) == 16 * (b / 16) + b % 16;
  }

  /** Reading back what "%04X" wrote gives the value that was written. */
  lemma Hex4Digits(h: u16)
    ensures AllHex(Hex4(h)) && HexNumber(Hex4(h)) == h
    ensures forall k | 0 <= k < 4 :: !IsSpace(Hex4(h)[k]) && Hex4(h)[k] != '#'
  {
    var hi, lo := Hex2(h / 0x100), Hex2(h % 0x100);
    Hex2Digits(h / 0x100);
    Hex2Digits(h % 0x100);
    var s := Hex4(h);
    assert s == hi + lo;
    assert s[..3] == hi + [lo[0]];
    assert s[..3][..2] == hi;
    assert HexNumber(s[..3]) == 16 * HexNumber(hi) + HexValue(lo[0]);
    assert HexNumber(s) == 16 * HexNumber(s[..3]) + HexValue(lo[1]);
    assert HexNumber(lo) == 16 * HexValue(lo[0]) + HexValue(lo[1]) by {
      assert lo[..1] == [lo[0]];
      assert lo[..1][..0] == [];
    }
  }
}
