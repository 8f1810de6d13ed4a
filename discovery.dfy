/**
 * The per-response rules of the three discovery callbacks of
 * attrib/client.c: primary_cb (Read by Group Type responses),
 * char_discovered_cb (Read by Type responses for characteristic
 * declarations) and descriptor_cb (Find Information responses). The
 * callbacks themselves, which create objects and issue requests, are
 * methods of the client classes; these functions say what each response
 * yields and what the callback does next.
 */
module Discovery {
  import opened Bytes
  import opened Wrappers
  import opened Uuids
  import opened AttrStore

  /** ATT_ECODE_ATTR_NOT_FOUND: the status that ends a discovery sub-procedure. */
  const AttrNotFound: byte := 0x0A

  /** struct att_data_list: num entries of len octets each. */
  datatype AttDataList = AttDataList(len: nat, data: seq<seq<byte>>)

  predicate Uniform(l: AttDataList) {
    forall i | 0 <= i < |l.data| :: |l.data[i]| == l.len
  }

  // ---------------------------------------------------------------- primary services

  /** What a discovered service records: its handle range and its UUID. */
  datatype ServiceInfo = ServiceInfo(start: u16, end: u16, uuid: Uuid)

  /** An entry length primary_cb accepts: a 16-bit UUID (6) or a 128-bit UUID (20). */
  predicate ServiceLen(len: nat) {
    len == 6 || len == 20
  }

  /** One Read by Group Type entry: start and end group handle, then the UUID value. */
  function ServiceOfEntry(info: seq<byte>): (s: ServiceInfo)
    requires |info| == 6 || |info| == 20
    ensures s.start == U16At(info, 0) && s.end == U16At(info, 2)
    ensures |info| == 6 ==> s.uuid == Uuid16(U16At(info, 4))
    ensures |info| == 20 ==> s.uuid == Uuid128(info[4..20])
  {
    ServiceInfo(U16At(info, 0), U16At(info, 2),
      if |info| == 6 then Uuid16(U16At(info, 4)) else Uuid128(info[4..20]))
  }

  function ServicesOfEntries(data: seq<seq<byte>>): (r: seq<ServiceInfo>)
    requires forall i | 0 <= i < |data| :: |data[i]| == 6 || |data[i]| == 20
    ensures |r| == |data|
    ensures forall i | 0 <= i < |r| :: r[i] == ServiceOfEntry(data[i])
  {
    if data == [] then [] else [ServiceOfEntry(data[0])] + ServicesOfEntries(data[1..])
  }

  /** The services a successful response adds to the list: all entries, or none when the length is invalid. */
  function ServicesFound(list: AttDataList): (r: seq<ServiceInfo>)
    requires Uniform(list)
    ensures ServiceLen(list.len) ==> r == ServicesOfEntries(list.data)
    ensures !ServiceLen(list.len) ==> r == []
  {
    if ServiceLen(list.len) then ServicesOfEntries(list.data) else []
  }

  /** What primary_cb does after a response. */
  datatype PrimaryStep =
    | RequestFrom(start: u16)   // another Read by Group Type request from start to 0xFFFF
    | Complete                  // store services, export them, discover their characteristics
    | Stop                      // nothing further

  /**
   * The step after a response, as the code decides it: Attribute Not Found
   * completes once some service is known; another error, an undecodable
   * response, an invalid entry length, an empty list or a last end handle
   * of 0 stop; otherwise the next request starts after the last end handle,
   * computed in 16 bits.
   */
  function PrimaryStepAsWritten(status: byte, list: Option<AttDataList>, known: bool): PrimaryStep
    requires list.Some? ==> Uniform(list.value)
  {
    if status == AttrNotFound then (if known then Complete else Stop)
    else if status != 0 || list.None? then Stop
    else if list.value.data != [] && !ServiceLen(list.value.len) then Stop
    else
      var found := ServicesFound(list.value);
      if found == [] || found[|found| - 1].end == 0 then Stop
      else RequestFrom((found[|found| - 1].end + 1) % 0x1_0000)
  }

  /**
   * The corrected step: as written, except that a last end handle of
   * 0xFFFF (the last handle there is) completes the discovery instead of
   * asking again from handle 0.
   */
  function PrimaryStepOf(status: byte, list: Option<AttDataList>, known: bool): (r: PrimaryStep)
    requires list.Some? ==> Uniform(list.value)
    ensures status == AttrNotFound ==> (r == Complete <==> known) && (r == Stop <==> !known)
    ensures status != AttrNotFound && status != 0 ==> r == Stop
    ensures list.None? && status != AttrNotFound ==> r == Stop
    ensures r.RequestFrom? ==>
      status == 0 && list.Some? && ServicesFound(list.value) != [] &&
      var last := ServicesFound(list.value)[|ServicesFound(list.value)| - 1];
      0 < last.end < 0xFFFF && r.start == last.end + 1
    ensures (status == 0 && list.Some? && ServicesFound(list.value) != [] &&
             ServicesFound(list.value)[|ServicesFound(list.value)| - 1].end == 0xFFFF) ==> r == Complete
    ensures (status == 0 && list.Some? && ServicesFound(list.value) != [] &&
             ServicesFound(list.value)[|ServicesFound(list.value)| - 1].end == 0) ==> r == Stop
    ensures (status == 0 && list.Some? && ServicesFound(list.value) != [] &&
             0 < ServicesFound(list.value)[|ServicesFound(list.value)| - 1].end < 0xFFFF) ==>
      r == RequestFrom(ServicesFound(list.value)[|ServicesFound(list.value)| - 1].end + 1)
    ensures status == 0 && list.Some? && list.value.data == [] ==> r == Stop
  {
    if status == AttrNotFound then (if known then Complete else Stop)
    else if status != 0 || list.None? then Stop
    else if list.value.data != [] && !ServiceLen(list.value.len) then Stop
    else
      var found := ServicesFound(list.value);
      if found == [] || found[|found| - 1].end == 0 then Stop
      else if found[|found| - 1].end == 0xFFFF then Complete
      else RequestFrom(found[|found| - 1].end + 1)
  }

  /** A response whose entry length is neither 6 nor 20 adds no service and ends discovery. */
  lemma InvalidServiceLengthStops(list: AttDataList, known: bool)
    requires Uniform(list) && list.data != [] && !ServiceLen(list.len)
    ensures ServicesFound(list) == []
    ensures PrimaryStepOf(0, Some(list), known) == Stop
  {
  }

  /** The two step functions differ only when the last service ends at handle 0xFFFF. */
  lemma PrimaryStepsAgree(status: byte, list: Option<AttDataList>, known: bool)
    requires list.Some? ==> Uniform(list.value)
    requires !(status == 0 && list.Some? && ServicesFound(list.value) != [] &&
               ServicesFound(list.value)[|ServicesFound(list.value)| - 1].end == 0xFFFF)
    ensures PrimaryStepAsWritten(status, list, known) == PrimaryStepOf(status, list, known)
  {
  }

  /**
   * As written, a response whose last service ends at 0xFFFF makes the
   * client ask again from handle 0 rather than finish, so the services are
   * never stored and their characteristics never discovered.
   */
  lemma LastHandleWrapsToZero()
    ensures PrimaryStepAsWritten(0, Some(AttDataList(6, [[0x01, 0x00, 0xFF, 0xFF, 0x00, 0x18]])), true)
         == RequestFrom(0)
    ensures PrimaryStepOf(0, Some(AttDataList(6, [[0x01, 0x00, 0xFF, 0xFF, 0x00, 0x18]])), true)
         == Complete
  {
    var list := AttDataList(6, [[0x01, 0x00, 0xFF, 0xFF, 0x00, 0x18]]);
    assert ServiceOfEntry(list.data[0]).end == 0xFFFF;
  }

  /**
   * Discovery asks again exactly after a successful response that decodes
   * to at least one service whose last end handle lies strictly between 0
   * and 0xFFFF, and then from the handle right after it.
   */
  lemma PrimaryContinuesExactly(status: byte, list: Option<AttDataList>, known: bool)
    requires list.Some? ==> Uniform(list.value)
    ensures PrimaryStepOf(status, list, known).RequestFrom? <==>
      status == 0 && list.Some? && ServicesFound(list.value) != [] &&
      0 < ServicesFound(list.value)[|ServicesFound(list.value)| - 1].end < 0xFFFF
    ensures PrimaryStepOf(status, list, known).RequestFrom? ==>
      var found := ServicesFound(list.value);
      PrimaryStepOf(status, list, known).start == found[|found| - 1].end + 1
  {
  }

  // ---------------------------------------------------------------- characteristics

  /** A characteristic declaration as char_discovered_cb reads it. */
  datatype CharInfo = CharInfo(handle: u16, perm: byte, end: u16, uuid: Uuid)

  /** An entry length of a characteristic declaration: 16-bit UUID (7) or 128-bit UUID (21). */
  predicate CharLen(len: nat) {
    len == 7 || len == 21
  }

  /**
   * One declaration: properties at octet 2, value handle at octets 3..4,
   * the UUID from octet 5. The end handle is the declaration handle of the
   * next entry (octets 0..1), or the service's end for the last one.
   */
  function CharOfDecl(decl: seq<byte>, end: u16): (c: CharInfo)
    requires |decl| == 7 || |decl| == 21
    ensures c.perm == decl[2] && c.handle == U16At(decl, 3) && c.end == end
    ensures |decl| == 7 ==> c.uuid == Uuid16(U16At(decl, 5))
    ensures |decl| == 21 ==> c.uuid == Uuid128(decl[5..21])
  {
    CharInfo(U16At(decl, 3), decl[2], end,
      if |decl| == 7 then Uuid16(U16At(decl, 5)) else Uuid128(decl[5..21]))
  }

  function CharsOfDecls(data: seq<seq<byte>>, primEnd: u16): (r: seq<CharInfo>)
    requires forall i | 0 <= i < |data| :: |data[i]| == 7 || |data[i]| == 21
    ensures |r| == |data|
    ensures forall i | 0 <= i < |r| - 1 :: r[i] == CharOfDecl(data[i], U16At(data[i + 1], 0))
    ensures |r| > 0 ==> r[|r| - 1] == CharOfDecl(data[|r| - 1], primEnd)
  {
    if data == [] then []
    else if |data| == 1 then [CharOfDecl(data[0], primEnd)]
    else [CharOfDecl(data[0], U16At(data[1], 0))] + CharsOfDecls(data[1..], primEnd)
  }

  /** The characteristics a successful response adds: all entries, or none when the length is invalid. */
  function CharsFound(list: AttDataList, primEnd: u16): (r: seq<CharInfo>)
    requires Uniform(list)
    ensures CharLen(list.len) ==> r == CharsOfDecls(list.data, primEnd)
    ensures !CharLen(list.len) ==> r == []
  {
    if CharLen(list.len) then CharsOfDecls(list.data, primEnd) else []
  }

  /** What char_discovered_cb does after a response. */
  datatype CharStep =
    | CharsFrom(start: u16)   // another request, from start to the service's end
    | CharsDone               // store, export and read every characteristic of the service
    | CharsFailed             // nothing further

  /**
   * The step after a response: Attribute Not Found finishes; another
   * error, an undecodable response or an invalid entry length fails; a page
   * whose last value handle reaches the service's end finishes (an empty
   * page counts as last handle 0); otherwise the next request starts after
   * the last value handle.
   */
  function CharStepOf(status: byte, list: Option<AttDataList>, primEnd: u16): (r: CharStep)
    requires list.Some? ==> Uniform(list.value)
    ensures status == AttrNotFound ==> r == CharsDone
    ensures status != AttrNotFound && (status != 0 || list.None?) ==> r == CharsFailed
    ensures r.CharsFrom? ==> var found := CharsFound(list.value, primEnd);
      status == 0 && r.start <= primEnd &&
      (found == [] ==> r.start == 1) &&
      (found != [] ==> r.start == found[|found| - 1].handle + 1 && found[|found| - 1].handle < primEnd)
    ensures (status == 0 && list.Some? && CharLen(list.value.len) && list.value.data != [] &&
             CharsFound(list.value, primEnd)[|list.value.data| - 1].handle >= primEnd) ==> r == CharsDone
    ensures status == 0 && list.Some? && list.value.data != [] && !CharLen(list.value.len) ==> r == CharsFailed
    ensures (status == 0 && list.Some? && CharLen(list.value.len) && list.value.data != [] &&
             CharsFound(list.value, primEnd)[|list.value.data| - 1].handle < primEnd) ==>
      r == CharsFrom(CharsFound(list.value, primEnd)[|list.value.data| - 1].handle + 1)
    ensures status == 0 && list.Some? && list.value.data == [] ==> r == (if primEnd == 0 then CharsDone else CharsFrom(1))
  {
    if status == AttrNotFound then CharsDone
    else if status != 0 || list.None? then CharsFailed
    else if list.value.data != [] && !CharLen(list.value.len) then CharsFailed
    else
      var found := CharsFound(list.value, primEnd);
      var last := if found == [] then 0 else found[|found| - 1].handle;
      if last >= primEnd then CharsDone else CharsFrom(last + 1)
  }

  /** Every characteristic of a page ends where the next declaration starts; the last ends with the service. */
  lemma CharEndsChain(list: AttDataList, primEnd: u16)
    requires Uniform(list) && CharLen(list.len) && list.data != []
    ensures var found := CharsFound(list, primEnd);
      (forall i | 0 <= i < |found| - 1 :: found[i].end == U16At(list.data[i + 1], 0)) &&
      found[|found| - 1].end == primEnd
  {
  }

  /**
   * Characteristic discovery asks again exactly after a successful response
   * that is empty, or that has a valid entry length and a last value handle
   * below the service's end; an empty response needs a service end above 0.
   */
  lemma CharContinuesExactly(status: byte, list: Option<AttDataList>, primEnd: u16)
    requires list.Some? ==> Uniform(list.value)
    ensures CharStepOf(status, list, primEnd).CharsFrom? <==>
      status == 0 && list.Some? &&
      (list.value.data == [] ==> 0 < primEnd) &&
      (list.value.data != [] ==> CharLen(list.value.len) && CharsFound(list.value, primEnd)[|list.value.data| - 1].handle < primEnd)
  {
  }

  /** A response whose entry length is neither 7 nor 21 adds no characteristic and ends discovery. */
  lemma InvalidCharLengthFails(list: AttDataList, primEnd: u16)
    requires Uniform(list) && list.data != [] && !CharLen(list.len)
    ensures CharsFound(list, primEnd) == []
    ensures CharStepOf(0, Some(list), primEnd) == CharsFailed
  {
  }

  /**
   * One declaration as char_discovered_cb decodes it as written: length 7
   * gives a 16-bit UUID and every other length a 128-bit UUID copied from
   * octets 5..20. The precondition is exactly the octets that reading
   * touches, so an entry shorter than 21 octets of a length other than 7
   * cannot be decoded without reading past it.
   */
  function CharOfDeclAsWritten(decl: seq<byte>, end: u16): (c: CharInfo)
    requires |decl| == 7 || |decl| >= 21
    ensures c.perm == decl[2] && c.handle == U16At(decl, 3) && c.end == end
    ensures |decl| != 7 ==> c.uuid == Uuid128(decl[5..21])
  {
    CharInfo(U16At(decl, 3), decl[2], end,
      if |decl| == 7 then Uuid16(U16At(decl, 5)) else Uuid128(decl[5..21]))
  }

  /** On the two lengths the corrected rules accept, the decoder as written reads the same characteristic. */
  lemma CharDeclAgrees(decl: seq<byte>, end: u16)
    requires CharLen(|decl|)
    ensures CharOfDeclAsWritten(decl, end) == CharOfDecl(decl, end)
  {
  }

  /**
   * As written, a well-formed response whose entries have a length from 8
   * to 20 is decoded by reading octets 5..20 of each entry, past its end:
   * no entry meets the as-written decoder's precondition. The corrected
   * rules add nothing and end the discovery.
   */
  lemma ShortDeclarationOverreads(list: AttDataList, primEnd: u16)
    requires Uniform(list) && list.data != [] && 7 < list.len < 21
    ensures forall k | 0 <= k < |list.data| :: !(|list.data[k]| == 7 || |list.data[k]| >= 21)
    ensures CharsFound(list, primEnd) == [] && CharStepOf(0, Some(list), primEnd) == CharsFailed
  {
  }

  /** The smallest such response: one 8-octet entry. */
  lemma EightOctetDeclarationOverreads()
    ensures var list := AttDataList(8, [[0, 0, 0, 0, 0, 0, 0, 0]]);
      Uniform(list) && !(|list.data[0]| == 7 || |list.data[0]| >= 21) &&
      CharStepOf(0, Some(list), 10) == CharsFailed
  {
  }

  // ---------------------------------------------------------------- descriptors

  /** A descriptor read descriptor_cb issues: the descriptor's handle and what it holds. */
  datatype DescRead = DescRead(handle: u16, kind: Descriptor)

  /** The read for one Find Information entry, if any: only 16-bit entries (format 1) of the two known kinds. */
  function DescriptorRead(format: byte, info: seq<byte>): (r: Option<DescRead>)
    requires format == 1 ==> |info| >= 4
    ensures r.Some? <==> format == 1 && DescriptorOf(Uuid16(U16At(info, 2))).Some?
    ensures r.Some? ==> r.value.handle == U16At(info, 0)
  {
    if format != 1 then None
    else match DescriptorOf(Uuid16(U16At(info, 2)))
      case None => None
      case Some(k) => Some(DescRead(U16At(info, 0), k))
  }

  /** Only the user description (0x2901) and presentation format (0x2904) descriptors are read. */
  lemma DescriptorKinds(info: seq<byte>)
    requires |info| >= 4
    ensures DescriptorRead(1, info) == Some(DescRead(U16At(info, 0), UserDescription)) <==> U16At(info, 2) == UserDescriptionUuid
    ensures DescriptorRead(1, info) == Some(DescRead(U16At(info, 0), PresentationFormat)) <==> U16At(info, 2) == PresentationFormatUuid
  {
    SameShortUuid(U16At(info, 2), UserDescriptionUuid);
    SameShortUuid(U16At(info, 2), PresentationFormatUuid);
  }

  /** The reads a whole Find Information response gives, in entry order. */
  function DescriptorReads(format: byte, data: seq<seq<byte>>): (r: seq<DescRead>)
    requires format == 1 ==> forall i | 0 <= i < |data| :: |data[i]| >= 4
    ensures |r| <= |data|
    ensures format != 1 ==> r == []
  {
    if data == [] then [] else Present(DescriptorRead(format, data[0])) + DescriptorReads(format, data[1..])
  }

  /** A read is issued exactly for the entries that name a known descriptor kind. */
  lemma {:induction false} DescriptorReadsMembership(format: byte, data: seq<seq<byte>>, d: DescRead)
    requires format == 1 ==> forall i | 0 <= i < |data| :: |data[i]| >= 4
    ensures d in DescriptorReads(format, data) <==>
      exists i | 0 <= i < |data| :: DescriptorRead(format, data[i]) == Some(d)
  {
    if data != [] {
      DescriptorReadsMembership(format, data[1..], d);
      if d in DescriptorReads(format, data[1..]) {
        var i :| 0 <= i < |data[1..]| && DescriptorRead(format, data[1..][i]) == Some(d);
        assert DescriptorRead(format, data[i + 1]) == Some(d);
      }
      if exists i | 0 <= i < |data| :: DescriptorRead(format, data[i]) == Some(d) {
        var i :| 0 <= i < |data| && DescriptorRead(format, data[i]) == Some(d);
        if i > 0 {
          assert DescriptorRead(format, data[1..][i - 1]) == Some(d);
        }
      }
    }
  }

  lemma {:induction false} DescriptorReadsConcat(format: byte, a: seq<seq<byte>>, b: seq<seq<byte>>)
    requires format == 1 ==> forall i | 0 <= i < |a| :: |a[i]| >= 4
    requires format == 1 ==> forall i | 0 <= i < |b| :: |b[i]| >= 4
    ensures DescriptorReads(format, a + b) == DescriptorReads(format, a) + DescriptorReads(format, b)
  {
    if a == [] {
      assert a + b == b;
    } else {
      assert (a + b)[0] == a[0];
      assert (a + b)[1..] == a[1..] + b;
      DescriptorReadsConcat(format, a[1..], b);
    }
  }
}
