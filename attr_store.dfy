/**
 * Descriptor values cached per attribute handle (attrib/client.c,
 * store_attribute, attr_data_from_string and load_attribute_data): the
 * record text is the 36-character UUID of the descriptor type, a '#', and
 * the value as "%02X" pairs; the record key is "<address>#<handle>".
 */
module AttrStore {
  import opened Bytes
  import opened Wrappers
  import opened Scan
  import opened Uuids

  /** The value octets as consecutive "%02X" pairs. */
  function HexBytes(v: seq<byte>): (s: string)
    ensures |s| == 2 * |v|
  {
    if v == [] then "" else Hex2(v[0]) + HexBytes(v[1..])
  }

  lemma {:induction false} HexBytesSnoc(v: seq<byte>, b: byte)
    ensures HexBytes(v + [b]) == HexBytes(v) + Hex2(b)
  {
    if v != [] {
      assert (v + [b])[1..] == v[1..] + [b];
      HexBytesSnoc(v[1..], b);
    }
  }

  /** Octet i of the value sits at characters 2i and 2i + 1 of its hex text. */
  lemma {:induction false} HexBytesAt(v: seq<byte>, i: nat)
    requires i < |v|
    ensures HexBytes(v)[2 * i] == Hex2(v[i])[0] && HexBytes(v)[2 * i + 1] == Hex2(v[i])[1]
  {
    if i > 0 {
      HexBytesAt(v[1..], i - 1);
    }
  }

  /** The C string a character buffer holds: everything before its first NUL. */
  function CString(buf: seq<char>): (s: seq<char>)
    ensures |s| <= |buf| && s == buf[..|s|]
    ensures forall k | 0 <= k < |s| :: s[k] != '\0'
    ensures |s| < |buf| ==> buf[|s|] == '\0'
  {
    if buf == [] || buf[0] == '\0' then [] else [buf[0]] + CString(buf[1..])
  }

  lemma {:induction false} CStringOfTerminated(s: seq<char>, rest: seq<char>)
    requires forall k | 0 <= k < |s| :: s[k] != '\0'
    ensures CString(s + ['\0'] + rest) == s
  {
    if s != [] {
      assert (s + ['\0'] + rest)[1..] == s[1..] + ['\0'] + rest;
      CStringOfTerminated(s[1..], rest);
    } else {
      assert (s + ['\0'] + rest)[0] == '\0';
    }
  }

  /** The record text store_attribute files: UUID text, '#', then the value in hex. */
  function AttributeText(uuidText: string, value: seq<byte>): string {
    uuidText + "#" + HexBytes(value)
  }

  /**
   * store_attribute's buffer work: a zeroed buffer of MAX_LEN_UUID_STR +
   * 2 * len + 1 characters, the UUID text copied to its head, '#' at index
   * MAX_LEN_UUID_STR - 1 over the copy's terminator, and sprintf "%02X" of
   * each octet from index MAX_LEN_UUID_STR on. The result is the C string
   * the buffer then holds.
   */
  method StoreAttributeText(uuidText: string, value: seq<byte>) returns (str: string)
    requires IsUuidText(uuidText)
    ensures str == AttributeText(uuidText, value)
    ensures |str| == MaxLenUuidStr + 2 * |value| && str[MaxLenUuidStr - 1] == '#'
  {
    var size := MaxLenUuidStr + |value| * 2 + 1;
    var buf := new char[size](_ => '\0');
    for k := 0 to |uuidText|
      invariant buf[..k] == uuidText[..k]
      invariant forall m | k <= m < size :: buf[m] == '\0'
    {
      buf[k] := uuidText[k];
    }
    buf[MaxLenUuidStr - 1] := '#';
    assert buf[..MaxLenUuidStr] == uuidText + "#";
    WriteHexAt(buf, MaxLenUuidStr, value);
    ghost var text := AttributeText(uuidText, value);
    assert buf[..] == buf[..MaxLenUuidStr] + buf[MaxLenUuidStr..size - 1] + [buf[size - 1]];
    assert buf[..] == text + ['\0'] + [];
    RecordHasNoNul(uuidText, value);
    CStringOfTerminated(text, []);
    str := CString(buf[..]);
  }

  /** The loop of store_attribute: sprintf "%02X" of each octet, from index at of a zeroed tail on. */
  method WriteHexAt(buf: array<char>, at: nat, value: seq<byte>)
    requires at + 2 * |value| < buf.Length
    requires forall m | at <= m < buf.Length :: buf[m] == '\0'
    modifies buf
    ensures buf[..at] == old(buf[..at])
    ensures buf[at..at + 2 * |value|] == HexBytes(value)
    ensures forall m | at + 2 * |value| <= m < buf.Length :: buf[m] == '\0'
  {
    ghost var hex := HexBytes(value);
    for i := 0 to |value|
      invariant forall m | 0 <= m < at :: buf[m] == old(buf[m])
      invariant forall m | at <= m < at + 2 * i :: buf[m] == hex[m - at]
      invariant forall m | at + 2 * i <= m < buf.Length :: buf[m] == '\0'
    {
      var d := Hex2(value[i]);
      var here := at + 2 * i;
      buf[here] := d[0];
      buf[here + 1] := d[1];
      buf[here + 2] := '\0';
      HexBytesAt(value, i);
    }
    assert forall m | 0 <= m < 2 * |value| :: buf[at..at + 2 * |value|][m] == hex[m];
  }

  /** A record holds no NUL: UUID text has none, and neither do hex digits or the '#'. */
  lemma RecordHasNoNul(uuidText: string, value: seq<byte>)
    requires IsUuidText(uuidText)
    ensures forall k | 0 <= k < |AttributeText(uuidText, value)| :: AttributeText(uuidText, value)[k] != '\0'
  {
    var text := AttributeText(uuidText, value);
    forall k | 0 <= k < |text| ensures text[k] != '\0' {
      if k >= MaxLenUuidStr {
        var i := (k - MaxLenUuidStr) / 2;
        HexBytesAt(value, i);
        assert text[k] == HexBytes(value)[k - MaxLenUuidStr];
      } else if k < MaxLenUuidStr - 1 {
        assert text[k] == uuidText[k];
      }
    }
  }

  /**
   * strtol(tmp, NULL, 16) on the two characters of tmp, cast to uint8_t:
   * leading white space and one sign are accepted, digits are read while
   * they are hexadecimal, and a text without digits reads as 0.
   */
  function Strtol2(a: char, b: char): byte {
    if IsHexDigit(a) then
      if IsHexDigit(b) then 16 * HexValue(a) + HexValue(b) else HexValue(a)
    else if IsSpace(a) || a == '+' then
      if IsHexDigit(b) then HexValue(b) else 0
    else if a == '-' then
      if IsHexDigit(b) then (0 - HexValue(b)) % 0x100 else 0
    else 0
  }

  /** Every pair of characters decoded, an odd last character ignored. */
  function DecodeHex(s: string): (r: seq<byte>)
    ensures |r| == |s| / 2
  {
    seq(|s| / 2, i requires 0 <= i < |s| / 2 => Strtol2(s[2 * i], s[2 * i + 1]))
  }

  /** attr_data_from_string's result: NULL (g_try_malloc0 of zero octets) when no pair is present. */
  function AttrData(s: string): Option<seq<byte>> {
    if |s| / 2 == 0 then None else Some(DecodeHex(s))
  }

  /** attr_data_from_string: strlen / 2 octets, octet i decoded from characters 2i and 2i + 1. */
  method AttrDataFromString(s: string) returns (data: Option<seq<byte>>)
    ensures data == AttrData(s)
  {
    var size := |s| / 2;
    if size == 0 {
      return None;
    }
    var buf := new byte[size](_ => 0);
    for i := 0 to size
      invariant buf[..i] == DecodeHex(s)[..i]
    {
      buf[i] := Strtol2(s[2 * i], s[2 * i + 1]);
      assert buf[..i + 1] == buf[..i] + [buf[i]];
      assert DecodeHex(s)[..i + 1] == DecodeHex(s)[..i] + [DecodeHex(s)[i]];
    }
    assert buf[..] == buf[..size];
    assert DecodeHex(s)[..size] == DecodeHex(s);
    data := Some(buf[..]);
  }

  lemma Strtol2OfHex2(b: byte)
    ensures Strtol2(Hex2(b)[0], Hex2(b)[1]) == b
  {
    Hex2Digits(b);
    var s := Hex2(b);
    assert s[..1] == [s[0]] && s[..1][..0] == [];
  }

  /** The hex text store_attribute writes decodes back to the same octets. */
  lemma DecodeHexBytes(v: seq<byte>)
    ensures DecodeHex(HexBytes(v)) == v
  {
    var s := HexBytes(v);
    forall i | 0 <= i < |v| ensures DecodeHex(s)[i] == v[i] {
      HexBytesAt(v, i);
      Strtol2OfHex2(v[i]);
    }
  }

  /** A non-empty value read back from its record is the value stored, and an empty one reads as NULL. */
  lemma AttrDataRoundTrip(v: seq<byte>)
    ensures v != [] ==> AttrData(HexBytes(v)) == Some(v)
    ensures v == [] ==> AttrData(HexBytes(v)) == None
  {
    DecodeHexBytes(v);
  }

  /** An odd trailing character is ignored, and a single character is no data at all. */
  lemma AttrDataIgnoresOddTail(s: string, c: char)
    requires |s| % 2 == 0
    ensures AttrData(s + [c]) == AttrData(s)
  {
    var t := s + [c];
    assert |t| / 2 == |s| / 2;
    forall i | 0 <= i < |s| / 2 ensures DecodeHex(t)[i] == DecodeHex(s)[i] {
      assert t[2 * i] == s[2 * i] && t[2 * i + 1] == s[2 * i + 1];
    }
    assert DecodeHex(t) == DecodeHex(s);
  }

  // ---------------------------------------------------------------- record keys

  /** The key a record for one handle of one device is filed under: "<address>#%04X". */
  function AttributeKey(addr: string, handle: u16): string {
    addr + "#" + Hex4(handle)
  }

  /** sscanf(key, "%17s#%04hX", addr, &handle) == 2: the device address and the handle of a key. */
  function ParseAttributeKey(key: string): (r: Option<(string, u16)>)
    ensures r.Some? ==> 0 < |r.value.0| <= 17
  {
    var addr := ScanWord(key, 0, 17);
    if addr.None? then None else
    var handle := HexAfterHash4(key, addr.value.next);
    if handle.None? then None else
    Some((addr.value.value, handle.value.value))
  }

  function HexAfterHash4(t: string, i: nat): (r: Option<Field<nat>>)
    ensures r.Some? ==> r.value.value < 0x1_0000
  {
    if Literal(t, i, '#') then ScanHex(t, i + 1, 4) else None
  }

  /** A key written for a 17-character address (the text ba2str writes) reads back as that address and handle. */
  lemma AttributeKeyRoundTrip(addr: string, handle: u16)
    requires |addr| == 17 && forall k | 0 <= k < 17 :: !IsSpace(addr[k])
    ensures ParseAttributeKey(AttributeKey(addr, handle)) == Some((addr, handle))
  {
    var key := AttributeKey(addr, handle);
    assert key[0..17] == addr;
    ScanWordExact(key, 0, addr, 17);
    assert key[17] == '#';
    assert key[18..22] == Hex4(handle);
    Hex4Digits(handle);
    ScanHexDigits(key, 18, Hex4(handle));
  }

  /** A key whose address is followed by anything but '#' is ignored. */
  lemma KeyNeedsSeparator(addr: string, c: char, rest: string)
    requires |addr| == 17 && forall k | 0 <= k < 17 :: !IsSpace(addr[k])
    requires c != '#'
    ensures ParseAttributeKey(addr + [c] + rest) == None
  {
    var key := addr + [c] + rest;
    assert key[0..17] == addr;
    ScanWordExact(key, 0, addr, 17);
    assert key[17] == c;
  }

  // ---------------------------------------------------------------- applying a record

  /** The two descriptor kinds the client caches. */
  datatype Descriptor = UserDescription | PresentationFormat

  /** The 16-bit UUID of a descriptor kind. */
  function DescriptorUuid(d: Descriptor): (u: u16)
    ensures u == UserDescriptionUuid || u == PresentationFormatUuid
  {
    match d
    case UserDescription => UserDescriptionUuid
    case PresentationFormat => PresentationFormatUuid
  }

  /** Which descriptor a UUID names, compared as sdp_uuid_cmp does (by 128-bit form). */
  function DescriptorOf(u: Uuid): Option<Descriptor> {
    if SameUuid(u, Uuid16(UserDescriptionUuid)) then Some(UserDescription)
    else if SameUuid(u, Uuid16(PresentationFormatUuid)) then Some(PresentationFormat)
    else None
  }

  lemma DescriptorOfShort(d: Descriptor)
    ensures DescriptorOf(Uuid16(DescriptorUuid(d))) == Some(d)
  {
    SameShortUuid(UserDescriptionUuid, PresentationFormatUuid);
    SameShortUuid(DescriptorUuid(d), DescriptorUuid(d));
  }

  /** What one record gives a characteristic: the descriptor it fills and the data it fills it with. */
  datatype AttrUpdate = AttrUpdate(kind: Descriptor, data: Option<seq<byte>>)

  /**
   * The value half of load_attribute_data: the text before index
   * MAX_LEN_UUID_STR - 1 is parsed as a UUID; a user description or a
   * presentation format takes the hex data after the '#'. A record that
   * does not reach the data (shorter than MAX_LEN_UUID_STR) is not applied.
   */
  function RecordUpdate(value: string, codec: UuidCodec): (r: Option<AttrUpdate>)
    ensures r.Some? ==> |value| >= MaxLenUuidStr
    ensures r.Some? ==> r.value.data == AttrData(value[MaxLenUuidStr..])
  {
    if |value| < MaxLenUuidStr then None
    else match codec.parse(value[..MaxLenUuidStr - 1])
      case None => None
      case Some(u) =>
        match DescriptorOf(u)
        case None => None
        case Some(d) => Some(AttrUpdate(d, AttrData(value[MaxLenUuidStr..])))
  }

  /**
   * A record written by store_attribute for a descriptor kind, read back by
   * a UUID parser that inverts the formatter, fills that descriptor with the
   * stored octets, or with NULL when none were stored.
   */
  lemma StoredAttributeLoadsBack(d: Descriptor, value: seq<byte>, codec: UuidCodec)
    requires IsUuidText(codec.text(Uuid16(DescriptorUuid(d))))
    requires codec.parse(codec.text(Uuid16(DescriptorUuid(d)))) == Some(Uuid16(DescriptorUuid(d)))
    ensures RecordUpdate(AttributeText(codec.text(Uuid16(DescriptorUuid(d))), value), codec)
         == Some(AttrUpdate(d, if value == [] then None else Some(value)))
  {
    var t := codec.text(Uuid16(DescriptorUuid(d)));
    var s := AttributeText(t, value);
    assert s[..MaxLenUuidStr - 1] == t;
    assert s[MaxLenUuidStr..] == HexBytes(value);
    DescriptorOfShort(d);
    AttrDataRoundTrip(value);
  }
}
