/**
 * UUIDs as the attribute client handles them: 16-bit or 128-bit values from
 * the wire, or the zeroed uuid_t a failed text parse leaves behind. Turning a
 * UUID into text and back is a collaborator (UuidCodec), not modelled here.
 */
module Uuids {
  import opened Bytes
  import opened Wrappers

  datatype Uuid = Unset | Uuid16(short: u16) | Uuid128(full: seq<byte>)

  /** GATT_CHARAC_USER_DESC_UUID: the Characteristic User Description descriptor. */
  const UserDescriptionUuid: u16 := 0x2901
  /** GATT_CHARAC_FMT_UUID: the Characteristic Presentation Format descriptor. */
  const PresentationFormatUuid: u16 := 0x2904
  /** MAX_LEN_UUID_STR: 36 characters of UUID text and the C terminator. */
  const MaxLenUuidStr: nat := 37

  /** The Bluetooth Base UUID 00000000-0000-1000-8000-00805F9B34FB, in network order. */
  const BaseUuid: seq<byte> := [0x00, 0x00, 0x00, 0x00, 0x00, 0x00, 0x10, 0x00,
                                0x80, 0x00, 0x00, 0x80, 0x5F, 0x9B, 0x34, 0xFB]

  /** The 128-bit form of a UUID: a 16-bit value goes into octets 2 and 3 of the base UUID. */
  function Expand(u: Uuid): seq<byte> {
    match u
    case Unset => []
    case Uuid16(v) => BaseUuid[..2] + [v / 0x100, v % 0x100] + BaseUuid[4..]
    case Uuid128(b) => b
  }

  /** sdp_uuid_cmp(a, b) == 0: the two UUIDs agree once both are in 128-bit form. */
  predicate SameUuid(a: Uuid, b: Uuid) {
    a != Unset && b != Unset && Expand(a) == Expand(b)
  }

  lemma SameShortUuid(a: u16, b: u16)
    ensures SameUuid(Uuid16(a), Uuid16(b)) <==> a == b
  {
    if SameUuid(Uuid16(a), Uuid16(b)) {
      assert Expand(Uuid16(a))[2] == Expand(Uuid16(b))[2];
      assert Expand(Uuid16(a))[3] == Expand(Uuid16(b))[3];
    }
  }

  /** UUID text as sdp_uuid2strn and bt_uuid2string write it: 36 characters, no white space, no NUL. */
  predicate IsUuidText(s: string) {
    |s| == MaxLenUuidStr - 1 && forall k | 0 <= k < |s| :: !IsSpace(s[k]) && s[k] != '\0'
  }

  /**
   * The UUID text collaborator: text stands for sdp_uuid2strn of the 128-bit
   * form (and bt_uuid2string), parse for bt_string2uuid, None when it fails.
   */
  datatype UuidCodec = UuidCodec(text: Uuid -> string, parse: string -> Option<Uuid>)
}
