/**
 * The GATT client objects of attrib/client.c and the operations that
 * change them: characteristic values updated by notifications and
 * indications, value watchers registered over D-Bus, the reference count
 * of the ATT connection, the discovery callbacks and the loading of the
 * structure cache.
 *
 * The outside world is represented by its effects: every request sent to
 * the remote device, every D-Bus message and object export is appended to
 * the service's event log, and the device storage files are fields of the
 * service (the services record, one characteristics record per service
 * start handle, one attribute record per descriptor handle).
 */
module Client {
  import opened Bytes
  import opened Wrappers
  import opened Uuids
  import opened CacheCodec
  import opened AttrStore
  import opened Discovery
  import opened Lookups

  /** ENOMEM: the error characteristic_set_value returns, negated. */
  const ENOMEM: int := 12

  /** ATT_OP_HANDLE_NOTIFY, ATT_OP_HANDLE_IND and ATT_OP_HANDLE_CNF. */
  const AttOpHandleNotify: byte := 0x1B
  const AttOpHandleInd: byte := 0x1D
  const AttOpHandleCnf: byte := 0x1E

  // ---------------------------------------------------------------- values

  /**
   * A characteristic's value buffer and the length recorded beside it.
   * Where a new buffer is needed, memory says whether the allocator could
   * provide it.
   */
  datatype ValueSlot = ValueSlot(value: Option<seq<byte>>, vlen: nat)

  /**
   * characteristic_set_value as written: g_try_realloc to the new length,
   * which gives NULL both when memory is short and when the new length is 0;
   * the NULL is stored over the old buffer and -ENOMEM returned, leaving
   * vlen at the old length.
   */
  function SetValueAsWritten(slot: ValueSlot, v: seq<byte>, memory: bool): (ValueSlot, int) {
    if |v| == 0 || !memory then (ValueSlot(None, slot.vlen), -ENOMEM)
    else (ValueSlot(Some(v), |v|), 0)
  }

  /**
   * characteristic_set_value as intended: the value is replaced wholesale
   * (an empty one included); only a failed allocation reports -ENOMEM, and
   * then, as in the code, the buffer pointer has already been overwritten
   * with NULL while the recorded length stays the old one.
   */
  function SetValueResult(slot: ValueSlot, v: seq<byte>, memory: bool): (r: (ValueSlot, int))
    ensures r.1 == 0 || r.1 == -ENOMEM
    ensures r.1 == 0 ==> r.0 == ValueSlot(Some(v), |v|)
    ensures r.1 == -ENOMEM ==> r.0 == ValueSlot(None, slot.vlen) && |v| > 0 && !memory
    ensures memory || |v| == 0 ==> r.1 == 0
  {
    if |v| > 0 && !memory then (ValueSlot(None, slot.vlen), -ENOMEM)
    else (ValueSlot(Some(v), |v|), 0)
  }

  /**
   * As written, an empty value (a notification of 3 octets, a read
   * response of 1) is reported as out of memory and the old value is lost
   * while its length stays, so watchers are later sent NULL with that
   * length; as intended, the value becomes empty.
   */
  lemma EmptyValueIsLost()
    ensures SetValueAsWritten(ValueSlot(Some([0x2A]), 1), [], true) == (ValueSlot(None, 1), -ENOMEM)
    ensures SetValueResult(ValueSlot(Some([0x2A]), 1), [], true) == (ValueSlot(Some([]), 0), 0)
  {
  }

  /** The two agree on every non-empty value, whether or not memory is available. */
  lemma SetValueAgrees(slot: ValueSlot, v: seq<byte>, memory: bool)
    requires |v| > 0
    ensures SetValueAsWritten(slot, v, memory) == SetValueResult(slot, v, memory)
  {
  }

  // ---------------------------------------------------------------- objects

  /** struct characteristic. */
  class Characteristic {
    const handle: u16
    const perm: byte
    const uuid: Uuid
    var end: u16
    var desc: Option<seq<byte>>
    var format: Option<seq<byte>>
    var value: Option<seq<byte>>
    var vlen: nat

    /** g_new0 followed by setting the declaration fields. */
    constructor (handle: u16, perm: byte, uuid: Uuid, end: u16)
      ensures this.handle == handle && this.perm == perm && this.uuid == uuid && this.end == end
      ensures Blank(this)
    {
      this.handle := handle;
      this.perm := perm;
      this.uuid := uuid;
      this.end := end;
      desc := None;
      format := None;
      value := None;
      vlen := 0;
    }

    function Slot(): ValueSlot
      reads this
    {
      ValueSlot(value, vlen)
    }

    /** characteristic_set_value: replace the value wholesale, or report -ENOMEM. */
    method SetValue(v: seq<byte>, memory: bool) returns (r: int)
      modifies this
      ensures (Slot(), r) == SetValueResult(old(Slot()), v, memory)
      ensures end == old(end) && desc == old(desc) && format == old(format)
    {
      if |v| > 0 && !memory {
        value := None;
        return -ENOMEM;
      }
      value := Some(v);
      vlen := |v|;
      return 0;
    }
  }

  /** struct primary. */
  class Primary {
    const start: u16
    const end: u16
    const uuid: Uuid
    var chars: seq<Characteristic>
    var watchers: seq<Watcher>

    constructor (start: u16, end: u16, uuid: Uuid)
      ensures this.start == start && this.end == end && this.uuid == uuid
      ensures chars == [] && watchers == []
    {
      this.start := start;
      this.end := end;
      this.uuid := uuid;
      chars := [];
      watchers := [];
    }
  }

  /** struct watcher: a D-Bus client that asked to hear of value changes of one service. */
  class Watcher {
    const id: nat
    const name: string
    const path: string
    const prim: Primary

    constructor (id: nat, name: string, path: string, prim: Primary)
      ensures this.id == id && this.name == name && this.path == path && this.prim == prim
    {
      this.id := id;
      this.name := name;
      this.path := path;
      this.prim := prim;
    }
  }

  /** The value handles of a characteristic list, in order. */
  function Handles(cs: seq<Characteristic>): (r: seq<u16>)
    ensures |r| == |cs| && forall i | 0 <= i < |cs| :: r[i] == cs[i].handle
  {
    if cs == [] then [] else [cs[0].handle] + Handles(cs[1..])
  }

  /** The (name, path) pair of every watcher, in order. */
  function WatcherKeys(ws: seq<Watcher>): (r: seq<(string, string)>)
    ensures |r| == |ws| && forall i | 0 <= i < |ws| :: r[i] == (ws[i].name, ws[i].path)
  {
    if ws == [] then [] else [(ws[0].name, ws[0].path)] + WatcherKeys(ws[1..])
  }

  /** The watcher find_watcher picks is its own first occurrence, so g_slist_remove takes out exactly that one. */
  lemma RemoveFoundWatcher(ws: seq<Watcher>, name: string, path: string, i: nat)
    requires FindWatcher(WatcherKeys(ws), name, path) == Some(i)
    ensures i < |ws| && RemoveFirst(ws, ws[i]) == ws[..i] + ws[i + 1..]
  {
    forall k | 0 <= k < i ensures ws[k] != ws[i] {
      assert WatcherKeys(ws)[k] != (name, path);
    }
    RemoveFirstAt(ws, i);
  }

  /** The handle table events_handler searches: the handles of each service's characteristics. */
  function HandleTable(ps: seq<Primary>): (r: seq<seq<u16>>)
    reads set p | p in ps
    ensures |r| == |ps| && forall i | 0 <= i < |ps| :: r[i] == Handles(ps[i].chars)
  {
    if ps == [] then [] else [Handles(ps[0].chars)] + HandleTable(ps[1..])
  }

  /** Why a read request was sent, which decides the callback that handles its response. */
  datatype ReadPurpose = ReadValue | ReadDescriptor(kind: Descriptor)

  /** D-Bus replies of the watcher methods. */
  datatype Reply = Done | InvalidArguments | NotAuthorized | Failed

  /** The effects the client has on the outside world, in the order it has them. */
  datatype Event =
    | Connect(listen: bool)                         // bt_io_connect to the device
    | DiscoverPrimary(start: u16)                   // Read by Group Type from start to 0xFFFF
    | DiscoverChars(start: u16, end: u16)           // Read by Type for characteristic declarations
    | FindInfo(start: u16, end: u16, owner: u16)     // Find Information for a characteristic's descriptors
    | ReadChar(handle: u16, purpose: ReadPurpose, owner: u16)
    | Confirmation                                  // ATT_OP_HANDLE_CNF answering an indication
    | ValueChanged(name: string, path: string, owner: u16, value: Option<seq<byte>>)
    | ExportService(start: u16)                     // register_primary
    | ExportChar(handle: u16)                       // register_characteristics
    | RemoveWatch(id: nat)                          // g_dbus_remove_watch

  /** update_watchers over a watcher list: one ValueChanged call per watcher, in list order. */
  function Notices(ws: seq<Watcher>, owner: u16, value: Option<seq<byte>>): (r: seq<Event>)
    ensures |r| == |ws|
    ensures forall i | 0 <= i < |ws| :: r[i] == ValueChanged(ws[i].name, ws[i].path, owner, value)
  {
    if ws == [] then [] else [ValueChanged(ws[0].name, ws[0].path, owner, value)] + Notices(ws[1..], owner, value)
  }

  /** What a characteristic object records of its declaration. */
  function CharInfoOf(c: Characteristic): CharInfo
    reads c`end
  {
    CharInfo(c.handle, c.perm, c.end, c.uuid)
  }

  function CharInfos(cs: seq<Characteristic>): (r: seq<CharInfo>)
    reads cs`end
    ensures |r| == |cs| && forall i | 0 <= i < |cs| :: r[i] == CharInfoOf(cs[i])
  {
    if cs == [] then [] else [CharInfoOf(cs[0])] + CharInfos(cs[1..])
  }

  /** The characteristics' information depends on their own fields only. */
  twostate lemma CharInfosUnchanged(cs: seq<Characteristic>)
    requires unchanged(cs)
    ensures CharInfos(cs) == old(CharInfos(cs))
  {
  }

  /** No value, description or presentation format yet: what g_new0 leaves in a new characteristic. */
  predicate Blank(c: Characteristic)
    reads c`desc, c`format, c`value, c`vlen
  {
    c.desc == None && c.format == None && c.value == None && c.vlen == 0
  }

  /** Every characteristic of the list is still blank. */
  predicate Unfilled(cs: seq<Characteristic>)
    reads cs`desc, cs`format, cs`value, cs`vlen
  {
    forall c | c in cs :: Blank(c)
  }

  twostate lemma UnfilledUnchanged(cs: seq<Characteristic>)
    requires unchanged(cs)
    ensures Unfilled(cs) == old(Unfilled(cs))
  {
  }

  function ServiceInfos(ps: seq<Primary>): (r: seq<ServiceInfo>)
    ensures |r| == |ps| && forall i | 0 <= i < |ps| :: r[i] == ServiceInfo(ps[i].start, ps[i].end, ps[i].uuid)
  {
    if ps == [] then [] else [ServiceInfo(ps[0].start, ps[0].end, ps[0].uuid)] + ServiceInfos(ps[1..])
  }

  /** The cache tokens characteristic_list_to_string writes for a service's characteristics. */
  function StoredChars(cs: seq<CharInfo>, codec: UuidCodec): (r: seq<CharEntry>)
    ensures |r| == |cs|
    ensures forall i | 0 <= i < |cs| :: r[i] == CharEntry(cs[i].handle, cs[i].perm, cs[i].end, codec.text(cs[i].uuid))
  {
    if cs == [] then [] else [CharEntry(cs[0].handle, cs[0].perm, cs[0].end, codec.text(cs[0].uuid))] + StoredChars(cs[1..], codec)
  }

  /** The cache tokens primary_list_to_string writes for the services. */
  function StoredServices(ps: seq<ServiceInfo>, codec: UuidCodec): (r: seq<PrimaryEntry>)
    ensures |r| == |ps|
    ensures forall i | 0 <= i < |ps| :: r[i] == PrimaryEntry(ps[i].start, ps[i].end, codec.text(ps[i].uuid))
  {
    if ps == [] then [] else [PrimaryEntry(ps[0].start, ps[0].end, codec.text(ps[0].uuid))] + StoredServices(ps[1..], codec)
  }

  /** A characteristic read from the cache: bt_string2uuid's failure leaves the zeroed UUID. */
  function LoadedChar(e: CharEntry, codec: UuidCodec): CharInfo {
    CharInfo(e.handle, e.perm, e.end, codec.parse(e.uuid).GetOr(Unset))
  }

  function LoadedChars(es: seq<CharEntry>, codec: UuidCodec): (r: seq<CharInfo>)
    ensures |r| == |es| && forall i | 0 <= i < |es| :: r[i] == LoadedChar(es[i], codec)
  {
    if es == [] then [] else [LoadedChar(es[0], codec)] + LoadedChars(es[1..], codec)
  }

  function LoadedService(e: PrimaryEntry, codec: UuidCodec): ServiceInfo {
    ServiceInfo(e.start, e.end, codec.parse(e.uuid).GetOr(Unset))
  }

  function LoadedServices(es: seq<PrimaryEntry>, codec: UuidCodec): (r: seq<ServiceInfo>)
    ensures |r| == |es| && forall i | 0 <= i < |es| :: r[i] == LoadedService(es[i], codec)
  {
    if es == [] then [] else [LoadedService(es[0], codec)] + LoadedServices(es[1..], codec)
  }

  /**
   * A UUID formatter and parser pair that write cache-safe text and read
   * back a UUID with the same 128-bit form. The text is that of the 128-bit
   * form, so a 16-bit UUID may well come back as the equal 128-bit one.
   */
  predicate CodecKeeps(codec: UuidCodec, u: Uuid) {
    IsWord(codec.text(u)) && codec.parse(codec.text(u)).Some? && Expand(codec.parse(codec.text(u)).value) == Expand(u)
  }

  /**
   * Storing the services and loading them again gives every service back,
   * in order, with its range, and with a UUID of the same 128-bit form,
   * provided that form survives the formatter and parser.
   */
  lemma ServiceCacheRoundTrip(ps: seq<ServiceInfo>, codec: UuidCodec)
    requires forall i | 0 <= i < |ps| :: CodecKeeps(codec, ps[i].uuid)
    ensures var loaded := LoadedServices(ParsePrimaryList(FormatPrimaries(StoredServices(ps, codec))), codec);
      |loaded| == |ps| &&
      forall i | 0 <= i < |ps| :: loaded[i].start == ps[i].start && loaded[i].end == ps[i].end &&
        Expand(loaded[i].uuid) == Expand(ps[i].uuid)
  {
    PrimaryListRoundTrip(StoredServices(ps, codec));
  }

  /**
   * Storing a service's characteristics and loading them again gives every
   * characteristic back, in order, with its handle, properties and end
   * handle, and with a UUID of the same 128-bit form.
   */
  lemma CharCacheRoundTrip(cs: seq<CharInfo>, codec: UuidCodec)
    requires forall i | 0 <= i < |cs| :: CodecKeeps(codec, cs[i].uuid)
    ensures var loaded := LoadedChars(ParseCharList(FormatChars(StoredChars(cs, codec))), codec);
      |loaded| == |cs| &&
      forall i | 0 <= i < |cs| :: loaded[i].handle == cs[i].handle && loaded[i].perm == cs[i].perm &&
        loaded[i].end == cs[i].end && Expand(loaded[i].uuid) == Expand(cs[i].uuid)
  {
    CharListRoundTrip(StoredChars(cs, codec));
  }

  /** register_primary: each service exported in order. */
  function ExportServices(ps: seq<Primary>): (r: seq<Event>)
    ensures |r| == |ps| && forall i | 0 <= i < |ps| :: r[i] == ExportService(ps[i].start)
  {
    if ps == [] then [] else [ExportService(ps[0].start)] + ExportServices(ps[1..])
  }

  /** register_characteristics: each characteristic exported in order. */
  function ExportChars(cs: seq<Characteristic>): (r: seq<Event>)
    ensures |r| == |cs| && forall i | 0 <= i < |cs| :: r[i] == ExportChar(cs[i].handle)
  {
    if cs == [] then [] else [ExportChar(cs[0].handle)] + ExportChars(cs[1..])
  }

  /** discover_all_char over the services: one characteristic discovery per service range. */
  function CharDiscoveries(ps: seq<Primary>): (r: seq<Event>)
    ensures |r| == |ps| && forall i | 0 <= i < |ps| :: r[i] == DiscoverChars(ps[i].start, ps[i].end)
  {
    if ps == [] then [] else [DiscoverChars(ps[0].start, ps[0].end)] + CharDiscoveries(ps[1..])
  }

  /**
   * update_all_chars for one characteristic: a Find Information request
   * from the handle after its value handle (in 16 bits) to its end, then a
   * read of its value.
   */
  function CharQueries(c: CharInfo): seq<Event> {
    [FindInfo((c.handle + 1) % 0x1_0000, c.end, c.handle), ReadChar(c.handle, ReadValue, c.handle)]
  }

  function AllCharQueries(cs: seq<CharInfo>): (r: seq<Event>)
    ensures |r| == 2 * |cs|
  {
    if cs == [] then [] else CharQueries(cs[0]) + AllCharQueries(cs[1..])
  }

  /** The requests for characteristic i are the pair at positions 2i and 2i + 1, in list order. */
  lemma {:induction false} AllCharQueriesAt(cs: seq<CharInfo>, i: nat)
    requires i < |cs|
    ensures AllCharQueries(cs)[2 * i..2 * i + 2] == CharQueries(cs[i])
  {
    if i > 0 {
      AllCharQueriesAt(cs[1..], i - 1);
      assert AllCharQueries(cs) == CharQueries(cs[0]) + AllCharQueries(cs[1..]);
      assert AllCharQueries(cs)[2 * i..2 * i + 2] == AllCharQueries(cs[1..])[2 * (i - 1)..2 * (i - 1) + 2];
    }
  }

  /** descriptor_cb: the read requests for the descriptors found, each tied to its characteristic. */
  function DescriptorQueries(rs: seq<DescRead>, owner: u16): (r: seq<Event>)
    ensures |r| == |rs|
    ensures forall i | 0 <= i < |rs| :: r[i] == ReadChar(rs[i].handle, ReadDescriptor(rs[i].kind), owner)
  {
    if rs == [] then [] else [ReadChar(rs[0].handle, ReadDescriptor(rs[0].kind), owner)] + DescriptorQueries(rs[1..], owner)
  }

  lemma {:induction false} AllCharQueriesConcat(a: seq<CharInfo>, b: seq<CharInfo>)
    ensures AllCharQueries(a + b) == AllCharQueries(a) + AllCharQueries(b)
  {
    if a == [] {
      assert a + b == b;
    } else {
      assert (a + b)[0] == a[0];
      assert (a + b)[1..] == a[1..] + b;
      AllCharQueriesConcat(a[1..], b);
      assert AllCharQueries(a + b) == CharQueries(a[0]) + AllCharQueries(a[1..] + b);
    }
  }

  /** The services from position from on have no characteristics and no watchers yet. */
  predicate NewServicesEmpty(ps: seq<Primary>, from: nat)
    reads set p | p in ps
  {
    forall i | from <= i < |ps| :: ps[i].chars == [] && ps[i].watchers == []
  }

  lemma {:induction false} DescriptorQueriesConcat(a: seq<DescRead>, b: seq<DescRead>, owner: u16)
    ensures DescriptorQueries(a + b, owner) == DescriptorQueries(a, owner) + DescriptorQueries(b, owner)
  {
    if a == [] {
      assert a + b == b;
    } else {
      assert (a + b)[1..] == a[1..] + b;
      DescriptorQueriesConcat(a[1..], b, owner);
    }
  }

  lemma {:induction false} CharInfosConcat(a: seq<Characteristic>, b: seq<Characteristic>)
    ensures CharInfos(a + b) == CharInfos(a) + CharInfos(b)
  {
    if a == [] {
      assert a + b == b;
    } else {
      assert (a + b)[1..] == a[1..] + b;
      CharInfosConcat(a[1..], b);
    }
  }

  lemma {:induction false} ServiceInfosConcat(a: seq<Primary>, b: seq<Primary>)
    ensures ServiceInfos(a + b) == ServiceInfos(a) + ServiceInfos(b)
  {
    if a != [] {
      assert (a + b)[1..] == a[1..] + b;
      ServiceInfosConcat(a[1..], b);
    }
  }

  /** The handle ranges find_primary compares against, in list order. */
  function ServiceRanges(ps: seq<Primary>): (r: seq<(u16, u16)>)
    ensures |r| == |ps| && forall i | 0 <= i < |ps| :: r[i] == (ps[i].start, ps[i].end)
  {
    if ps == [] then [] else [(ps[0].start, ps[0].end)] + ServiceRanges(ps[1..])
  }

  /** The handle ranges find_characteristic compares against: value handle to end handle. */
  function CharRanges(cs: seq<Characteristic>): (r: seq<(u16, u16)>)
    reads cs`end
    ensures |r| == |cs| && forall i | 0 <= i < |cs| :: r[i] == (cs[i].handle, cs[i].end)
  {
    if cs == [] then [] else [(cs[0].handle, cs[0].end)] + CharRanges(cs[1..])
  }

  /** register_characteristics run on each service in turn: every service's exports, in service order. */
  function AllCharExports(ps: seq<Primary>): (r: seq<Event>)
    reads (set p | p in ps)`chars
  {
    if ps == [] then [] else ExportChars(ps[0].chars) + AllCharExports(ps[1..])
  }

  /** Where the loop loading each service's characteristics stands: the lists loaded so far, the log before it, the codec. */
  datatype LoadProgress = LoadProgress(loaded: seq<seq<Characteristic>>, base: seq<Event>, codec: UuidCodec)

  /** The exports of several characteristic lists, one after the other. */
  function ChainExports(css: seq<seq<Characteristic>>): (r: seq<Event>)
  {
    if css == [] then [] else ExportChars(css[0]) + ChainExports(css[1..])
  }

  lemma {:induction false} ChainExportsConcat(a: seq<seq<Characteristic>>, b: seq<seq<Characteristic>>)
    ensures ChainExports(a + b) == ChainExports(a) + ChainExports(b)
  {
    if a != [] {
      assert (a + b)[0] == a[0];
      assert (a + b)[1..] == a[1..] + b;
      ChainExportsConcat(a[1..], b);
    } else {
      assert a + b == b;
    }
  }

  /** The services' exports are those of their characteristic lists, in service order. */
  lemma {:induction false} AllCharExportsChain(ps: seq<Primary>, css: seq<seq<Characteristic>>)
    requires |css| == |ps| && forall j | 0 <= j < |ps| :: css[j] == ps[j].chars
    ensures AllCharExports(ps) == ChainExports(css)
  {
    if ps != [] {
      AllCharExportsChain(ps[1..], css[1..]);
    }
  }

  /** Appending one more list's exports to a log that holds the exports of the earlier lists. */
  lemma ChainExportsSnoc(base: seq<Event>, css: seq<seq<Characteristic>>, cs: seq<Characteristic>, sent: seq<Event>)
    requires sent == base + ChainExports(css)
    ensures sent + ExportChars(cs) == base + ChainExports(css + [cs])
  {
    ChainExportsConcat(css, [cs]);
    var one := [cs];
    assert one[1..] == [];
    var e := ExportChars(cs);
    assert ChainExports(one) == e;
    EventsAppend(base, ChainExports(css), e);
  }

  lemma EventsAppend(a: seq<Event>, b: seq<Event>, c: seq<Event>)
    ensures (a + b) + c == a + (b + c)
  {
  }

  /** Whether a stored record, whose key selected target, sets c's descriptor of the given kind. */
  predicate Hits(kind: Descriptor, record: (string, string), target: Option<Characteristic>, c: Characteristic, codec: UuidCodec) {
    var u := RecordUpdate(record.1, codec);
    target == Some(c) && u.Some? && u.value.kind == kind
  }

  /** The fields of a characteristic that loading the attribute records may touch, at one point in time. */
  datatype CharSnap = CharSnap(desc: Option<seq<byte>>, format: Option<seq<byte>>, end: u16, value: Option<seq<byte>>, vlen: nat)

  function Snap(c: Characteristic): CharSnap
    reads c
  {
    CharSnap(c.desc, c.format, c.end, c.value, c.vlen)
  }

  /**
   * read_device_attributes feeding load_attribute_data: the first n
   * records applied in turn, each to the characteristic its key selected
   * (targets), leave in c's descriptor of the given kind what the last of
   * them to set it wrote, or init.
   */
  function Applied(kind: Descriptor, records: seq<(string, string)>, targets: seq<Option<Characteristic>>, n: nat,
                   c: Characteristic, init: Option<seq<byte>>, codec: UuidCodec): Option<seq<byte>>
    requires |targets| == |records| && n <= |records|
  {
    if n == 0 then init
    else if Hits(kind, records[n - 1], targets[n - 1], c, codec) then RecordUpdate(records[n - 1].1, codec).value.data
    else Applied(kind, records, targets, n - 1, c, init, codec)
  }

  /** A descriptor none of the first n records sets keeps its initial contents. */
  lemma {:induction false} AppliedNoHit(kind: Descriptor, records: seq<(string, string)>, targets: seq<Option<Characteristic>>, n: nat,
                                        c: Characteristic, init: Option<seq<byte>>, codec: UuidCodec)
    requires |targets| == |records| && n <= |records|
    requires forall k | 0 <= k < n :: !Hits(kind, records[k], targets[k], c, codec)
    ensures Applied(kind, records, targets, n, c, init, codec) == init
  {
    if n > 0 {
      AppliedNoHit(kind, records, targets, n - 1, c, init, codec);
    }
  }

  /** A descriptor holds the data of the last record that sets it: later records for other targets or kinds do not matter. */
  lemma {:induction false} AppliedLastHit(kind: Descriptor, records: seq<(string, string)>, targets: seq<Option<Characteristic>>, n: nat,
                                          c: Characteristic, init: Option<seq<byte>>, codec: UuidCodec, k: nat)
    requires |targets| == |records| && k < n <= |records|
    requires Hits(kind, records[k], targets[k], c, codec)
    requires forall m | k < m < n :: !Hits(kind, records[m], targets[m], c, codec)
    ensures Applied(kind, records, targets, n, c, init, codec) == RecordUpdate(records[k].1, codec).value.data
  {
    if k < n - 1 {
      AppliedLastHit(kind, records, targets, n - 1, c, init, codec, k);
    }
  }

  /** A cached characteristic as string_to_characteristic_list allocates it. */
  method NewChars(entries: seq<CharEntry>, codec: UuidCodec) returns (cs: seq<Characteristic>)
    ensures forall i | 0 <= i < |cs| :: fresh(cs[i]) && Blank(cs[i])
    ensures CharInfos(cs) == LoadedChars(entries, codec)
  {
    cs := [];
    for i := 0 to |entries|
      invariant |cs| == i
      invariant forall k | 0 <= k < i :: fresh(cs[k]) && Blank(cs[k])
      invariant forall k | 0 <= k < i :: CharInfoOf(cs[k]) == LoadedChar(entries[k], codec)
    {
      var e := entries[i];
      var chr := new Characteristic(e.handle, e.perm, codec.parse(e.uuid).GetOr(Unset), e.end);
      cs := cs + [chr];
    }
  }

  /** A cached service as string_to_primary_list allocates it, with no characteristics yet. */
  method NewPrimaries(entries: seq<PrimaryEntry>, codec: UuidCodec) returns (ps: seq<Primary>)
    ensures forall i | 0 <= i < |ps| :: fresh(ps[i]) && ps[i].chars == [] && ps[i].watchers == []
    ensures forall i, j | 0 <= i < j < |ps| :: ps[i] != ps[j]
    ensures ServiceInfos(ps) == LoadedServices(entries, codec)
  {
    ps := [];
    for i := 0 to |entries|
      invariant |ps| == i
      invariant forall k | 0 <= k < i :: fresh(ps[k]) && ps[k].chars == [] && ps[k].watchers == []
      invariant forall j, k | 0 <= j < k < i :: ps[j] != ps[k]
      invariant forall k | 0 <= k < i :: ServiceInfo(ps[k].start, ps[k].end, ps[k].uuid) == LoadedService(entries[k], codec)
    {
      var e := entries[i];
      var prim := new Primary(e.start, e.end, codec.parse(e.uuid).GetOr(Unset));
      ps := ps + [prim];
    }
  }

  lemma DescriptorQueriesSnoc(format: byte, data: seq<seq<byte>>, i: nat, owner: u16)
    requires i < |data|
    requires format == 1 ==> forall k | 0 <= k < |data| :: |data[k]| >= 4
    ensures DescriptorQueries(DescriptorReads(format, data[..i + 1]), owner) ==
      DescriptorQueries(DescriptorReads(format, data[..i]), owner) +
      DescriptorQueries(Present(DescriptorRead(format, data[i])), owner)
  {
    assert data[..i + 1] == data[..i] + [data[i]];
    DescriptorReadsConcat(format, data[..i], [data[i]]);
    var one: seq<seq<byte>> := [data[i]];
    assert one[1..] == [];
    assert DescriptorReads(format, one) == Present(DescriptorRead(format, data[i])) + DescriptorReads(format, one[1..]);
    DescriptorQueriesConcat(DescriptorReads(format, data[..i]), Present(DescriptorRead(format, data[i])), owner);
  }

  /**
   * The entry loop of descriptor_cb: for each Find Information entry of
   * format 0x01 naming a user description or a presentation format, a read
   * of that descriptor on behalf of owner, in entry order.
   */
  method DescriptorRequests(format: byte, data: seq<seq<byte>>, owner: u16) returns (sent: seq<Event>)
    requires format == 1 ==> forall k | 0 <= k < |data| :: |data[k]| >= 4
    ensures sent == DescriptorQueries(DescriptorReads(format, data), owner)
  {
    sent := [];
    for i := 0 to |data|
      invariant sent == DescriptorQueries(DescriptorReads(format, data[..i]), owner)
    {
      DescriptorQueriesSnoc(format, data, i, owner);
      ghost var step := DescriptorQueries(Present(DescriptorRead(format, data[i])), owner);
      if format == 1 {
        var kind := DescriptorOf(Uuid16(U16At(data[i], 2)));
        if kind.Some? {
          assert step == [ReadChar(U16At(data[i], 0), ReadDescriptor(kind.value), owner)];
          sent := sent + [ReadChar(U16At(data[i], 0), ReadDescriptor(kind.value), owner)];
        } else {
          assert step == [];
        }
      } else {
        assert step == [];
      }
    }
    assert data[..|data|] == data;
  }

  /**
   * The entry loop of primary_cb: one new service per entry, in order; an
   * entry length other than 6 or 20 stops the loop at its first entry (ok
   * is then false). end is the last entry's end handle, 0 for an empty list.
   */
  method DeclaredServices(list: AttDataList) returns (ok: bool, created: seq<Primary>, end: u16)
    requires Uniform(list)
    ensures ok <==> list.data == [] || ServiceLen(list.len)
    ensures end == if ServicesFound(list) == [] then 0 else ServicesFound(list)[|ServicesFound(list)| - 1].end
    ensures ServiceInfos(created) == ServicesFound(list)
    ensures forall i | 0 <= i < |created| :: fresh(created[i]) && created[i].chars == [] && created[i].watchers == []
  {
    var data := list.data;
    end := 0;
    created := [];
    for i := 0 to |data|
      invariant |created| == i
      invariant i > 0 ==> ServiceLen(list.len)
      invariant forall k | 0 <= k < i ::
        ServiceInfo(created[k].start, created[k].end, created[k].uuid) == ServiceOfEntry(data[k])
      invariant forall k | 0 <= k < i :: fresh(created[k]) && created[k].chars == [] && created[k].watchers == []
      invariant end == if i == 0 then 0 else U16At(data[i - 1], 2)
    {
      var info := data[i];
      var uuid: Uuid;
      if list.len == 6 {
        uuid := Uuid16(U16At(info, 4));
      } else if list.len == 20 {
        uuid := Uuid128(info[4..20]);
      } else {
        return false, [], end;
      }
      var start := U16At(info, 0);
      end := U16At(info, 2);
      var p := new Primary(start, end, uuid);
      created := created + [p];
    }
    ok := true;
  }

  /**
   * The declaration loop of char_discovered_cb: a new characteristic per
   * entry, in order, with the previous one's end set to this entry's
   * declaration handle; after the loop the last one's end is the service's
   * end. last is the last value handle, 0 for an empty list.
   */
  method DeclaredChars(list: AttDataList, primEnd: u16) returns (created: seq<Characteristic>, last: u16)
    requires Uniform(list) && (list.data == [] || CharLen(list.len))
    ensures forall i | 0 <= i < |created| :: fresh(created[i])
    ensures Unfilled(created)
    ensures CharInfos(created) == CharsFound(list, primEnd)
    ensures last == if list.data == [] then 0 else CharsFound(list, primEnd)[|list.data| - 1].handle
  {
    var data := list.data;
    ghost var want := CharsFound(list, primEnd);
    last := 0;
    var prev: Option<Characteristic> := None;
    created := [];
    for i := 0 to |data|
      invariant |created| == i
      invariant forall k | 0 <= k < i :: fresh(created[k])
      invariant Unfilled(created)
      invariant forall k | 0 <= k < i - 1 :: created[k] != created[i - 1]
      invariant forall k | 0 <= k < i - 1 :: CharInfoOf(created[k]) == want[k]
      invariant i == 0 ==> prev.None? && last == 0
      invariant i > 0 ==> prev == Some(created[i - 1]) && last == created[i - 1].handle
      invariant i > 0 ==> CharInfoOf(created[i - 1]).(end := want[i - 1].end) == want[i - 1]
    {
      var decl := data[i];
      var uuid := if list.len == 7 then Uuid16(U16At(decl, 5)) else Uuid128(decl[5..21]);
      var chr := new Characteristic(U16At(decl, 3), decl[2], uuid, 0);
      assert want[i] == CharOfDecl(decl, if i < |data| - 1 then U16At(data[i + 1], 0) else primEnd);
      if prev.Some? {
        assert want[i - 1] == CharOfDecl(data[i - 1], U16At(decl, 0));
        prev.value.end := U16At(decl, 0);
      }
      last := chr.handle;
      prev := Some(chr);
      created := created + [chr];
    }
    if prev.Some? {
      prev.value.end := primEnd;
    }
    assert forall k | 0 <= k < |data| :: CharInfoOf(created[k]) == want[k];
  }

  /** struct gatt_service: one remote device's GATT client state. */
  class GattService {
    /** ba2str of the device's address. */
    const dst: string
    var primary: seq<Primary>
    /** References to the ATT connection; 0 when there is none. */
    var refs: nat
    var listen: bool
    /** The id the next D-Bus disconnect watch gets. */
    var nextWatch: nat
    var events: seq<Event>
    /** The device's services record. */
    var storedServices: Option<string>
    /** The device's characteristics records, by service start handle. */
    var storedChars: map<u16, string>
    /** The device's attribute records, by descriptor handle. */
    var storedAttrs: map<u16, string>

    constructor (dst: string)
      ensures this.dst == dst && primary == [] && refs == 0 && events == []
      ensures storedServices == None && storedChars == map[] && storedAttrs == map[]
    {
      this.dst := dst;
      primary := [];
      refs := 0;
      listen := false;
      nextWatch := 0;
      events := [];
      storedServices := None;
      storedChars := map[];
      storedAttrs := map[];
    }

    /** The characteristic an ATT handle-value PDU for handle h updates, if any. */
    function Target(h: u16): (r: Option<(Primary, Characteristic)>)
      reads this, set p | p in primary
    {
      match Locate(HandleTable(primary), h)
      case None => None
      case Some((i, j)) => Some((primary[i], primary[i].chars[j]))
    }

    function TargetChar(h: u16): set<Characteristic>
      reads this, set p | p in primary
    {
      match Target(h)
      case None => {}
      case Some((_, c)) => {c}
    }

    /**
     * l2cap_connect: an existing connection gains a reference; otherwise a
     * connection is connectOk (connectOk tells whether bt_io_connect succeeded)
     * with the given listen flag and holds the first reference.
     */
    method L2capConnect(listen: bool, connectOk: bool) returns (r: int)
      modifies this
      ensures old(refs) > 0 ==> r == 0 && refs == old(refs) + 1 && events == old(events) && this.listen == old(this.listen)
      ensures old(refs) == 0 && !connectOk ==> r == -1 && refs == 0 && events == old(events) && this.listen == old(this.listen)
      ensures old(refs) == 0 && connectOk ==> r == 0 && refs == 1 && events == old(events) + [Connect(listen)] && this.listen == listen
      ensures primary == old(primary) && nextWatch == old(nextWatch)
      ensures storedServices == old(storedServices) && storedChars == old(storedChars) && storedAttrs == old(storedAttrs)
    {
      if refs > 0 {
        refs := refs + 1;
        return 0;
      }
      if !connectOk {
        return -1;
      }
      events := events + [Connect(listen)];
      refs := 1;
      this.listen := listen;
      return 0;
    }

    /**
     * register_watcher: path is the call's object-path argument (None when
     * the arguments do not decode). After a connection reference is taken,
     * a watcher for (sender, path) is appended to the service's list.
     */
    method RegisterWatcher(prim: Primary, sender: string, path: Option<string>, connectOk: bool) returns (r: Reply)
      modifies this, prim
      ensures path.None? ==> r == InvalidArguments && refs == old(refs) && prim.watchers == old(prim.watchers)
      ensures path.Some? && old(refs) == 0 && !connectOk ==> r == Failed && prim.watchers == old(prim.watchers)
      ensures r == Done <==> path.Some? && (old(refs) > 0 || connectOk)
      ensures r == Done ==> (refs == old(refs) + 1 && nextWatch == old(nextWatch) + 1 &&
        |prim.watchers| == |old(prim.watchers)| + 1 && prim.watchers[..|prim.watchers| - 1] == old(prim.watchers) &&
        var w := prim.watchers[|prim.watchers| - 1];
        fresh(w) && w.name == sender && w.path == path.value && w.prim == prim && w.id == old(nextWatch))
      ensures r != Done ==> nextWatch == old(nextWatch) && prim.watchers == old(prim.watchers)
      ensures refs == (if r == Done then old(refs) + 1 else old(refs))
      ensures var connects := path.Some? && old(refs) == 0 && connectOk;
        events == old(events) + (if connects then [Connect(true)] else []) &&
        listen == (if connects then true else old(listen))
      ensures prim.chars == old(prim.chars) && primary == old(primary)
      ensures storedServices == old(storedServices) && storedChars == old(storedChars) && storedAttrs == old(storedAttrs)
    {
      if path.None? {
        return InvalidArguments;
      }
      var c := L2capConnect(true, connectOk);
      if c < 0 {
        return Failed;
      }
      var w := new Watcher(nextWatch, sender, path.value, prim);
      nextWatch := nextWatch + 1;
      prim.watchers := prim.watchers + [w];
      return Done;
    }

    /**
     * unregister_watcher: the first watcher whose name and path both match
     * is removed (and its disconnect watch with it); when none matches the
     * reply is NotAuthorized and the list is left as it was.
     */
    method UnregisterWatcher(prim: Primary, sender: string, path: Option<string>) returns (r: Reply)
      modifies this, prim
      ensures path.None? ==> r == InvalidArguments && prim.watchers == old(prim.watchers) && events == old(events)
      ensures path.Some? ==> match FindWatcher(WatcherKeys(old(prim.watchers)), sender, path.value)
        case None => r == NotAuthorized && prim.watchers == old(prim.watchers) && events == old(events)
        case Some(i) => r == Done && prim.watchers == old(prim.watchers[..i] + prim.watchers[i + 1..]) &&
                        events == old(events) + [RemoveWatch(old(prim.watchers[i]).id)]
      ensures prim.chars == old(prim.chars) && primary == old(primary) && refs == old(refs)
      ensures nextWatch == old(nextWatch) && listen == old(listen)
      ensures storedServices == old(storedServices) && storedChars == old(storedChars) && storedAttrs == old(storedAttrs)
    {
      if path.None? {
        return InvalidArguments;
      }
      var l := FindWatcher(WatcherKeys(prim.watchers), sender, path.value);
      if l.None? {
        return NotAuthorized;
      }
      ghost var ws := prim.watchers;
      var w := prim.watchers[l.value];
      RemoveFoundWatcher(ws, sender, path.value, l.value);
      events := events + [RemoveWatch(w.id)];
      prim.watchers := RemoveFirst(prim.watchers, w);
      assert prim.watchers == ws[..l.value] + ws[l.value + 1..];
      return Done;
    }

    /**
     * watcher_exit: the D-Bus client went away; its watcher leaves its
     * service's list (its first occurrence, if any) and the connection
     * reference it held is dropped.
     */
    method WatcherExit(w: Watcher)
      modifies this, w.prim
      ensures w.prim.watchers == RemoveFirst(old(w.prim.watchers), w)
      ensures refs == if old(refs) > 0 then old(refs) - 1 else 0
      ensures w.prim.chars == old(w.prim.chars) && primary == old(primary) && events == old(events)
      ensures nextWatch == old(nextWatch) && listen == old(listen)
      ensures storedServices == old(storedServices) && storedChars == old(storedChars) && storedAttrs == old(storedAttrs)
    {
      w.prim.watchers := RemoveFirst(w.prim.watchers, w);
      if refs > 0 {
        refs := refs - 1;
      }
    }

    /**
     * events_handler for a handle-value PDU (opcode, handle, value). The
     * first characteristic holding the handle, searching the services in
     * order, is updated: an indication is first confirmed, then for both a
     * notification and an indication the value is replaced by the PDU's
     * octets from index 3 on and every watcher of that service is told.
     * An unknown handle or another opcode changes nothing and sends nothing.
     */
    method EventsHandler(pdu: seq<byte>, memory: bool)
      requires |pdu| >= 3
      modifies this, TargetChar(U16At(pdu, 1))
      ensures primary == old(primary) && refs == old(refs) && nextWatch == old(nextWatch) && listen == old(listen)
      ensures storedServices == old(storedServices) && storedChars == old(storedChars) && storedAttrs == old(storedAttrs)
      ensures old(Target(U16At(pdu, 1))).None? || (pdu[0] != AttOpHandleInd && pdu[0] != AttOpHandleNotify)
        ==> events == old(events)
      ensures old(Target(U16At(pdu, 1))).Some? && (pdu[0] == AttOpHandleInd || pdu[0] == AttOpHandleNotify) ==>
        var (p, c) := old(Target(U16At(pdu, 1))).value;
        c.Slot() == SetValueResult(old(c.Slot()), pdu[3..], memory).0 &&
        events == old(events) + (if pdu[0] == AttOpHandleInd then [Confirmation] else [])
                              + Notices(p.watchers, c.handle, c.value)
      ensures old(Target(U16At(pdu, 1))).Some? ==> var c := old(Target(U16At(pdu, 1))).value.1;
        c.end == old(c.end) && c.desc == old(c.desc) && c.format == old(c.format) &&
        (pdu[0] != AttOpHandleInd && pdu[0] != AttOpHandleNotify ==> c.Slot() == old(c.Slot()))
    {
      var handle := U16At(pdu, 1);
      var found := FindTarget(handle);
      if found.None? {
        return;
      }
      var prim := primary[found.value.0];
      var chr := prim.chars[found.value.1];
      assert Target(handle) == Some((prim, chr));
      if pdu[0] == AttOpHandleInd || pdu[0] == AttOpHandleNotify {
        DeliverValue(prim, chr, pdu, memory);
      }
    }

    /** events_handler once the characteristic is found: confirm an indication, store the value, tell the watchers. */
    method DeliverValue(prim: Primary, chr: Characteristic, pdu: seq<byte>, memory: bool)
      requires |pdu| >= 3
      modifies this, chr
      ensures primary == old(primary) && refs == old(refs) && nextWatch == old(nextWatch) && listen == old(listen)
      ensures storedServices == old(storedServices) && storedChars == old(storedChars) && storedAttrs == old(storedAttrs)
      ensures chr.Slot() == SetValueResult(old(chr.Slot()), pdu[3..], memory).0
      ensures chr.end == old(chr.end) && chr.desc == old(chr.desc) && chr.format == old(chr.format)
      ensures events == old(events) + (if pdu[0] == AttOpHandleInd then [Confirmation] else [])
                                    + Notices(prim.watchers, chr.handle, chr.value)
    {
      if pdu[0] == AttOpHandleInd {
        events := events + [Confirmation];
      }
      var _ := chr.SetValue(pdu[3..], memory);
      NotifyWatchers(prim, chr);
    }

    /**
     * The search loop of events_handler: the services in order, each
     * searched for the handle among its characteristics, stopping at the
     * first hit. The result gives the service's and the characteristic's
     * positions.
     */
    method FindTarget(handle: u16) returns (found: Option<(nat, nat)>)
      ensures found == Locate(HandleTable(primary), handle)
      ensures found.Some? ==> found.value.0 < |primary| && found.value.1 < |primary[found.value.0].chars|
    {
      ghost var table := HandleTable(primary);
      var i := 0;
      found := None;
      while i < |primary| && found.None?
        invariant 0 <= i <= |primary|
        invariant Locate(table, handle) == if found.Some? then found else LocateFrom(table, handle, i)
        invariant found.Some? ==> found.value.0 < |primary| && found.value.1 < |primary[found.value.0].chars|
        decreases |primary| - i, if found.None? then 1 else 0
      {
        var at := FindHandle(Handles(primary[i].chars), handle);
        if at.Some? {
          found := Some((i, at.value));
        }
        i := i + 1;
      }
    }

    /** g_slist_foreach(prim->watchers, update_watchers, chr): one ValueChanged per watcher, in order. */
    method NotifyWatchers(prim: Primary, chr: Characteristic)
      modifies this
      ensures events == old(events) + Notices(prim.watchers, chr.handle, chr.value)
      ensures primary == old(primary) && refs == old(refs) && nextWatch == old(nextWatch) && listen == old(listen)
      ensures storedServices == old(storedServices) && storedChars == old(storedChars) && storedAttrs == old(storedAttrs)
    {
      var ws := prim.watchers;
      var sent: seq<Event> := [];
      for k := 0 to |ws|
        modifies {}
        invariant |sent| == k && forall j | 0 <= j < k :: sent[j] == ValueChanged(ws[j].name, ws[j].path, chr.handle, chr.value)
      {
        sent := sent + [ValueChanged(ws[k].name, ws[k].path, chr.handle, chr.value)];
      }
      assert sent == Notices(ws, chr.handle, chr.value);
      events := events + sent;
    }

    // ------------------------------------------------------------ storing and exporting

    /** store_primary_services: the services record becomes the cache text of all services. */
    method StorePrimaryServices(codec: UuidCodec)
      modifies this
      ensures storedServices == Some(FormatPrimaries(StoredServices(ServiceInfos(primary), codec)))
      ensures primary == old(primary) && events == old(events) && refs == old(refs) && nextWatch == old(nextWatch) && listen == old(listen)
      ensures storedChars == old(storedChars) && storedAttrs == old(storedAttrs)
    {
      var text := PrimaryListToString(StoredServices(ServiceInfos(primary), codec));
      storedServices := Some(text);
    }

    /** store_characteristics: the service's characteristics record becomes the cache text of its characteristics. */
    method StoreCharacteristics(prim: Primary, codec: UuidCodec)
      modifies this
      ensures storedChars == old(storedChars)[prim.start := FormatChars(StoredChars(CharInfos(prim.chars), codec))]
      ensures primary == old(primary) && events == old(events) && refs == old(refs) && nextWatch == old(nextWatch) && listen == old(listen)
      ensures storedServices == old(storedServices) && storedAttrs == old(storedAttrs)
    {
      ghost var infos := CharInfos(prim.chars);
      var text := CharacteristicListToString(StoredChars(CharInfos(prim.chars), codec));
      assert text == FormatChars(StoredChars(infos, codec));
      storedChars := storedChars[prim.start := text];
      assert CharInfos(prim.chars) == infos;
    }

    /** store_attribute: the descriptor's record becomes the UUID text of its type, '#', and its value in hex. */
    method StoreAttribute(handle: u16, kind: u16, value: seq<byte>, codec: UuidCodec)
      requires IsUuidText(codec.text(Uuid16(kind)))
      modifies this
      ensures storedAttrs == old(storedAttrs)[handle := AttributeText(codec.text(Uuid16(kind)), value)]
      ensures primary == old(primary) && events == old(events) && refs == old(refs) && nextWatch == old(nextWatch) && listen == old(listen)
      ensures storedServices == old(storedServices) && storedChars == old(storedChars)
    {
      var text := StoreAttributeText(codec.text(Uuid16(kind)), value);
      storedAttrs := storedAttrs[handle := text];
    }

    /** register_primary: export every service, in list order. */
    method RegisterPrimary()
      modifies this
      ensures events == old(events) + ExportServices(primary)
      ensures primary == old(primary) && refs == old(refs) && nextWatch == old(nextWatch) && listen == old(listen)
      ensures storedServices == old(storedServices) && storedChars == old(storedChars) && storedAttrs == old(storedAttrs)
    {
      var ps := primary;
      var sent: seq<Event> := [];
      for i := 0 to |ps|
        modifies {}
        invariant |sent| == i && forall k | 0 <= k < i :: sent[k] == ExportService(ps[k].start)
      {
        sent := sent + [ExportService(ps[i].start)];
      }
      assert sent == ExportServices(ps);
      events := events + sent;
    }

    /** register_characteristics: export every characteristic of the service, in list order. */
    method RegisterCharacteristics(prim: Primary)
      modifies this
      ensures events == old(events) + ExportChars(prim.chars)
      ensures primary == old(primary) && refs == old(refs) && nextWatch == old(nextWatch) && listen == old(listen)
      ensures storedServices == old(storedServices) && storedChars == old(storedChars) && storedAttrs == old(storedAttrs)
    {
      var cs := prim.chars;
      var sent: seq<Event> := [];
      for i := 0 to |cs|
        modifies {}
        invariant |sent| == i && forall k | 0 <= k < i :: sent[k] == ExportChar(cs[k].handle)
      {
        sent := sent + [ExportChar(cs[i].handle)];
      }
      assert sent == ExportChars(cs);
      events := events + sent;
    }

    /** g_slist_foreach(prim->chars, update_all_chars, prim): descriptor discovery and a value read per characteristic. */
    method UpdateAllChars(prim: Primary)
      modifies this
      ensures events == old(events) + AllCharQueries(CharInfos(prim.chars))
      ensures primary == old(primary) && refs == old(refs) && nextWatch == old(nextWatch) && listen == old(listen)
      ensures storedServices == old(storedServices) && storedChars == old(storedChars) && storedAttrs == old(storedAttrs)
    {
      ghost var infos := CharInfos(prim.chars);
      var sent: seq<Event> := [];
      for i := 0 to |prim.chars|
        modifies {}
        invariant sent == AllCharQueries(infos[..i])
      {
        var c := prim.chars[i];
        assert infos[..i + 1] == infos[..i] + [CharInfoOf(c)];
        AllCharQueriesConcat(infos[..i], [CharInfoOf(c)]);
        assert AllCharQueries([CharInfoOf(c)]) == CharQueries(CharInfoOf(c)) by {
          assert [CharInfoOf(c)][1..] == [];
        }
        sent := sent + [FindInfo((c.handle + 1) % 0x1_0000, c.end, c.handle), ReadChar(c.handle, ReadValue, c.handle)];
      }
      assert infos[..|prim.chars|] == infos;
      events := events + sent;
    }

    /** g_slist_foreach(gatt->primary, discover_all_char, gatt): one characteristic discovery per service. */
    method DiscoverAllChars()
      modifies this
      ensures events == old(events) + CharDiscoveries(primary)
      ensures primary == old(primary) && refs == old(refs) && nextWatch == old(nextWatch) && listen == old(listen)
      ensures storedServices == old(storedServices) && storedChars == old(storedChars) && storedAttrs == old(storedAttrs)
    {
      var ps := primary;
      var sent: seq<Event> := [];
      for i := 0 to |ps|
        modifies {}
        invariant |sent| == i && forall k | 0 <= k < i :: sent[k] == DiscoverChars(ps[k].start, ps[k].end)
      {
        sent := sent + [DiscoverChars(ps[i].start, ps[i].end)];
      }
      assert sent == CharDiscoveries(ps);
      events := events + sent;
    }

    // ------------------------------------------------------------ discovery callbacks

    /** The Attribute Not Found branch of primary_cb: store the services, export them, discover their characteristics. */
    method CompleteDiscovery(codec: UuidCodec)
      modifies this
      ensures storedServices == Some(FormatPrimaries(StoredServices(ServiceInfos(primary), codec)))
      ensures events == old(events) + ExportServices(primary) + CharDiscoveries(primary)
      ensures primary == old(primary) && refs == old(refs) && nextWatch == old(nextWatch) && listen == old(listen)
      ensures storedChars == old(storedChars) && storedAttrs == old(storedAttrs)
    {
      StorePrimaryServices(codec);
      RegisterPrimary();
      DiscoverAllChars();
    }

    /**
     * primary_cb for one response of the discovery of all primary
     * services. status is the ATT error code (0 for a response) and list
     * the decoded entries (None when the response does not decode). Each
     * entry adds a service; then the discovery goes on, completes or stops
     * as PrimaryStepOf says, which also covers a last service ending at
     * handle 0xFFFF (see LastHandleWrapsToZero).
     */
    method PrimaryCb(status: byte, list: Option<AttDataList>, codec: UuidCodec)
      requires list.Some? ==> Uniform(list.value)
      modifies this
      ensures refs == old(refs) && nextWatch == old(nextWatch) && listen == old(listen)
      ensures storedChars == old(storedChars) && storedAttrs == old(storedAttrs)
      ensures |primary| >= |old(primary)| && primary[..|old(primary)|] == old(primary)
      ensures ServiceInfos(primary) == ServiceInfos(old(primary)) +
        (if status == 0 && list.Some? then ServicesFound(list.value) else [])
      ensures forall i | |old(primary)| <= i < |primary| :: fresh(primary[i])
      ensures NewServicesEmpty(primary, |old(primary)|)
      ensures match PrimaryStepOf(status, list, old(primary) != [])
        case RequestFrom(s) => events == old(events) + [DiscoverPrimary(s)] && storedServices == old(storedServices)
        case Complete => storedServices == Some(FormatPrimaries(StoredServices(ServiceInfos(primary), codec))) &&
                         events == old(events) + ExportServices(primary) + CharDiscoveries(primary)
        case Stop => events == old(events) && storedServices == old(storedServices)
    {
      ghost var step := PrimaryStepOf(status, list, primary != []);
      if status == AttrNotFound {
        if primary == [] {
          assert step == Stop;
          return;
        }
        assert step == Complete;
        CompleteDiscovery(codec);
        return;
      }
      if status != 0 || list.None? {
        assert step == Stop;
        return;
      }
      assert step == PrimaryStepOf(0, list, primary != []);
      PrimaryPage(list.value, codec);
    }

    /** primary_cb past its error checks: add the services of one response, then go on or complete. */
    method PrimaryPage(list: AttDataList, codec: UuidCodec)
      requires Uniform(list)
      modifies this
      ensures refs == old(refs) && nextWatch == old(nextWatch) && listen == old(listen)
      ensures storedChars == old(storedChars) && storedAttrs == old(storedAttrs)
      ensures |primary| >= |old(primary)| && primary[..|old(primary)|] == old(primary)
      ensures ServiceInfos(primary) == ServiceInfos(old(primary)) + ServicesFound(list)
      ensures forall i | |old(primary)| <= i < |primary| :: fresh(primary[i])
      ensures NewServicesEmpty(primary, |old(primary)|)
      ensures match PrimaryStepOf(0, Some(list), old(primary) != [])
        case RequestFrom(s) => events == old(events) + [DiscoverPrimary(s)] && storedServices == old(storedServices)
        case Complete => storedServices == Some(FormatPrimaries(StoredServices(ServiceInfos(primary), codec))) &&
                         events == old(events) + ExportServices(primary) + CharDiscoveries(primary)
        case Stop => events == old(events) && storedServices == old(storedServices)
    {
      ghost var known := primary != [];
      var ok, end := AppendServices(list);
      PrimaryStepAfter(list, known, ok, end);
      ghost var grown := primary;
      assert NewServicesEmpty(grown, |old(primary)|);
      if !ok || end == 0 {
        return;
      }
      if end == 0xFFFF {
        CompleteDiscovery(codec);
        assert primary == grown;
        return;
      }
      events := events + [DiscoverPrimary(end + 1)];
    }

    /** The step after a successful page, from whether its entry length was valid and its last end handle. */
    static lemma PrimaryStepAfter(list: AttDataList, known: bool, ok: bool, end: u16)
      requires Uniform(list)
      requires ok <==> list.data == [] || ServiceLen(list.len)
      requires end == if ServicesFound(list) == [] then 0 else ServicesFound(list)[|ServicesFound(list)| - 1].end
      ensures PrimaryStepOf(0, Some(list), known) ==
        if !ok || end == 0 then Stop else if end == 0xFFFF then Complete else RequestFrom(end + 1)
    {
    }

    /**
     * The entry loop of primary_cb: one new service per entry, appended in
     * order; an entry length other than 6 or 20 stops the loop at its first
     * entry (ok is then false). end is the last entry's end handle, 0 for
     * an empty list.
     */
    method AppendServices(list: AttDataList) returns (ok: bool, end: u16)
      requires Uniform(list)
      modifies this
      ensures ok <==> list.data == [] || ServiceLen(list.len)
      ensures end == if ServicesFound(list) == [] then 0 else ServicesFound(list)[|ServicesFound(list)| - 1].end
      ensures |primary| >= |old(primary)| && primary[..|old(primary)|] == old(primary)
      ensures ServiceInfos(primary) == ServiceInfos(old(primary)) + ServicesFound(list)
      ensures forall i | |old(primary)| <= i < |primary| ::
        fresh(primary[i]) && primary[i].chars == [] && primary[i].watchers == []
      ensures events == old(events) && refs == old(refs) && nextWatch == old(nextWatch) && listen == old(listen)
      ensures storedServices == old(storedServices) && storedChars == old(storedChars) && storedAttrs == old(storedAttrs)
    {
      var created;
      ok, created, end := DeclaredServices(list);
      ghost var before := primary;
      primary := primary + created;
      assert primary[..|before|] == before;
      assert forall i | |before| <= i < |primary| :: primary[i] == created[i - |before|];
      ServiceInfosConcat(before, created);
    }

    /** The done branch of char_discovered_cb: store the characteristics, export them, query each one. */
    method FinishChars(prim: Primary, codec: UuidCodec)
      modifies this
      ensures prim.chars == old(prim.chars) && CharInfos(prim.chars) == old(CharInfos(prim.chars))
      ensures storedChars == old(storedChars)[prim.start := FormatChars(StoredChars(CharInfos(prim.chars), codec))]
      ensures events == old(events) + ExportChars(prim.chars) + AllCharQueries(CharInfos(prim.chars))
      ensures primary == old(primary) && refs == old(refs) && nextWatch == old(nextWatch) && listen == old(listen)
      ensures storedServices == old(storedServices) && storedAttrs == old(storedAttrs)
    {
      StoreCharacteristics(prim, codec);
      RegisterCharacteristics(prim);
      UpdateAllChars(prim);
    }

    /**
     * char_discovered_cb for one response of the discovery of a service's
     * characteristics. Each declaration adds a characteristic; its end
     * handle is filled in from the next declaration of the same response,
     * and the last one's from the service's end. Then discovery goes on,
     * finishes or fails as CharStepOf says; an entry length other than 7
     * or 21 fails (see InvalidCharLengthFails and ShortDeclarationOverreads).
     */
    method CharDiscoveredCb(prim: Primary, status: byte, list: Option<AttDataList>, codec: UuidCodec)
      requires list.Some? ==> Uniform(list.value)
      modifies this, prim
      ensures prim.watchers == old(prim.watchers) && primary == old(primary)
      ensures refs == old(refs) && nextWatch == old(nextWatch) && listen == old(listen)
      ensures storedServices == old(storedServices) && storedAttrs == old(storedAttrs)
      ensures |prim.chars| >= |old(prim.chars)| && prim.chars[..|old(prim.chars)|] == old(prim.chars)
      ensures forall i | |old(prim.chars)| <= i < |prim.chars| :: fresh(prim.chars[i])
      ensures Unfilled(prim.chars[|old(prim.chars)|..])
      ensures CharInfos(prim.chars) == old(CharInfos(prim.chars)) +
        (if status == 0 && list.Some? then CharsFound(list.value, prim.end) else [])
      ensures match CharStepOf(status, list, prim.end)
        case CharsFrom(s) => events == old(events) + [DiscoverChars(s, prim.end)] && storedChars == old(storedChars)
        case CharsDone => storedChars == old(storedChars)[prim.start := FormatChars(StoredChars(CharInfos(prim.chars), codec))] &&
                          events == old(events) + ExportChars(prim.chars) + AllCharQueries(CharInfos(prim.chars))
        case CharsFailed => events == old(events) && storedChars == old(storedChars)
    {
      ghost var step := CharStepOf(status, list, prim.end);
      if status == AttrNotFound {
        assert step == CharsDone;
        FinishChars(prim, codec);
        return;
      }
      if status != 0 || list.None? {
        assert step == CharsFailed;
        return;
      }
      if list.value.data != [] && !CharLen(list.value.len) {
        assert step == CharsFailed;
        return;
      }
      assert step == CharStepOf(0, list, prim.end);
      CharPage(prim, list.value, codec);
    }

    /** The rest of char_discovered_cb for a successful response whose entry length is valid. */
    method CharPage(prim: Primary, list: AttDataList, codec: UuidCodec)
      requires Uniform(list) && (list.data == [] || CharLen(list.len))
      modifies this, prim
      ensures prim.watchers == old(prim.watchers) && primary == old(primary)
      ensures refs == old(refs) && nextWatch == old(nextWatch) && listen == old(listen)
      ensures storedServices == old(storedServices) && storedAttrs == old(storedAttrs)
      ensures |prim.chars| >= |old(prim.chars)| && prim.chars[..|old(prim.chars)|] == old(prim.chars)
      ensures forall i | |old(prim.chars)| <= i < |prim.chars| :: fresh(prim.chars[i])
      ensures Unfilled(prim.chars[|old(prim.chars)|..])
      ensures CharInfos(prim.chars) == old(CharInfos(prim.chars)) + CharsFound(list, prim.end)
      ensures match CharStepOf(0, Some(list), prim.end)
        case CharsFrom(s) => events == old(events) + [DiscoverChars(s, prim.end)] && storedChars == old(storedChars)
        case CharsDone => storedChars == old(storedChars)[prim.start := FormatChars(StoredChars(CharInfos(prim.chars), codec))] &&
                          events == old(events) + ExportChars(prim.chars) + AllCharQueries(CharInfos(prim.chars))
        case CharsFailed => false
    {
      var last := AppendChars(prim, list);
      CharStepAfter(list, prim.end, last);
      ContinueChars(prim, last, codec);
    }

    /** The end of char_discovered_cb: finish once the last value handle reaches the service's end, otherwise ask for the rest. */
    method ContinueChars(prim: Primary, last: u16, codec: UuidCodec)
      modifies this
      ensures prim.chars == old(prim.chars) && CharInfos(prim.chars) == old(CharInfos(prim.chars))
      ensures primary == old(primary) && refs == old(refs) && nextWatch == old(nextWatch) && listen == old(listen)
      ensures storedServices == old(storedServices) && storedAttrs == old(storedAttrs)
      ensures last >= prim.end ==>
        storedChars == old(storedChars)[prim.start := FormatChars(StoredChars(CharInfos(prim.chars), codec))] &&
        events == old(events) + ExportChars(prim.chars) + AllCharQueries(CharInfos(prim.chars))
      ensures last < prim.end ==> events == old(events) + [DiscoverChars(last + 1, prim.end)] && storedChars == old(storedChars)
    {
      if last >= prim.end {
        FinishChars(prim, codec);
        return;
      }
      events := events + [DiscoverChars(last + 1, prim.end)];
    }

    /** The step after a valid page, from the last value handle it declared. */
    static lemma CharStepAfter(list: AttDataList, primEnd: u16, last: u16)
      requires Uniform(list) && (list.data == [] || CharLen(list.len))
      requires last == if list.data == [] then 0 else CharsFound(list, primEnd)[|list.data| - 1].handle
      ensures CharStepOf(0, Some(list), primEnd) == if last >= primEnd then CharsDone else CharsFrom(last + 1)
    {
    }

    /** The declarations of one response appended to the service's characteristics, in order. */
    method AppendChars(prim: Primary, list: AttDataList) returns (last: u16)
      requires Uniform(list) && (list.data == [] || CharLen(list.len))
      modifies prim
      ensures prim.watchers == old(prim.watchers)
      ensures |prim.chars| >= |old(prim.chars)| && prim.chars[..|old(prim.chars)|] == old(prim.chars)
      ensures forall i | |old(prim.chars)| <= i < |prim.chars| :: fresh(prim.chars[i])
      ensures Unfilled(prim.chars[|old(prim.chars)|..])
      ensures CharInfos(prim.chars) == old(CharInfos(prim.chars)) + CharsFound(list, prim.end)
      ensures last == if list.data == [] then 0 else CharsFound(list, prim.end)[|list.data| - 1].handle
    {
      var created;
      created, last := DeclaredChars(list, prim.end);
      label made:
      ghost var before := prim.chars;
      prim.chars := prim.chars + created;
      assert prim.chars[|before|..] == created;
      CharInfosUnchanged(before);
      CharInfosUnchanged@made(created);
      UnfilledUnchanged@made(created);
      CharInfosConcat(before, created);
    }

    /**
     * descriptor_cb: for a Find Information response, a read of every
     * user description and presentation format descriptor found, on behalf
     * of the characteristic whose range was searched.
     */
    method DescriptorCb(chr: Characteristic, status: byte, format: byte, list: Option<seq<seq<byte>>>)
      requires list.Some? && format == 1 ==> forall i | 0 <= i < |list.value| :: |list.value[i]| >= 4
      modifies this
      ensures status != 0 || list.None? ==> events == old(events)
      ensures status == 0 && list.Some? ==>
        events == old(events) + DescriptorQueries(DescriptorReads(format, list.value), chr.handle)
      ensures primary == old(primary) && refs == old(refs) && nextWatch == old(nextWatch) && listen == old(listen)
      ensures storedServices == old(storedServices) && storedChars == old(storedChars) && storedAttrs == old(storedAttrs)
    {
      if status != 0 || list.None? {
        return;
      }
      var sent := DescriptorRequests(format, list.value, chr.handle);
      events := events + sent;
    }

    /**
     * update_char_desc: a successful read of a user description keeps the
     * response's octets after the opcode, NUL-terminated, as the
     * characteristic's description and stores them, terminator included,
     * under the descriptor's handle.
     */
    method UpdateCharDesc(chr: Characteristic, handle: u16, status: byte, pdu: seq<byte>, codec: UuidCodec)
      requires status == 0 ==> |pdu| >= 1
      requires IsUuidText(codec.text(Uuid16(UserDescriptionUuid)))
      modifies this, chr
      ensures status != 0 ==> chr.desc == old(chr.desc) && storedAttrs == old(storedAttrs)
      ensures status == 0 ==> (chr.desc == Some(pdu[1..] + [0]) &&
        storedAttrs == old(storedAttrs)[handle := AttributeText(codec.text(Uuid16(UserDescriptionUuid)), pdu[1..] + [0])])
      ensures chr.format == old(chr.format) && chr.value == old(chr.value) && chr.vlen == old(chr.vlen) && chr.end == old(chr.end)
      ensures primary == old(primary) && events == old(events) && refs == old(refs) && nextWatch == old(nextWatch) && listen == old(listen)
      ensures storedServices == old(storedServices) && storedChars == old(storedChars)
    {
      if status != 0 {
        return;
      }
      var desc := pdu[1..] + [0];
      chr.desc := Some(desc);
      StoreAttribute(handle, UserDescriptionUuid, desc, codec);
    }

    /**
     * update_char_format: a successful read of at least 8 octets keeps the
     * 7 octets after the opcode as the characteristic's presentation
     * format and stores them under the descriptor's handle; a shorter
     * response is ignored.
     */
    method UpdateCharFormat(chr: Characteristic, handle: u16, status: byte, pdu: seq<byte>, codec: UuidCodec)
      requires IsUuidText(codec.text(Uuid16(PresentationFormatUuid)))
      modifies this, chr
      ensures status != 0 || |pdu| < 8 ==> chr.format == old(chr.format) && storedAttrs == old(storedAttrs)
      ensures status == 0 && |pdu| >= 8 ==> (chr.format == Some(pdu[1..8]) &&
        storedAttrs == old(storedAttrs)[handle := AttributeText(codec.text(Uuid16(PresentationFormatUuid)), pdu[1..8])])
      ensures chr.desc == old(chr.desc) && chr.value == old(chr.value) && chr.vlen == old(chr.vlen) && chr.end == old(chr.end)
      ensures primary == old(primary) && events == old(events) && refs == old(refs) && nextWatch == old(nextWatch) && listen == old(listen)
      ensures storedServices == old(storedServices) && storedChars == old(storedChars)
    {
      if status != 0 || |pdu| < 8 {
        return;
      }
      var format := pdu[1..8];
      chr.format := Some(format);
      StoreAttribute(handle, PresentationFormatUuid, format, codec);
    }

    /** update_char_value: a successful read replaces the value by the octets after the opcode. */
    method UpdateCharValue(chr: Characteristic, status: byte, pdu: seq<byte>, memory: bool)
      requires status == 0 ==> |pdu| >= 1
      modifies chr
      ensures status != 0 ==> chr.Slot() == old(chr.Slot())
      ensures status == 0 ==> chr.Slot() == SetValueResult(old(chr.Slot()), pdu[1..], memory).0
      ensures chr.desc == old(chr.desc) && chr.format == old(chr.format) && chr.end == old(chr.end)
    {
      if status == 0 {
        var _ := chr.SetValue(pdu[1..], memory);
      }
    }

    /** Every characteristic of every service: the objects load_attribute_data may fill in. */
    function AllChars(): set<Characteristic>
      reads this, set p | p in primary
    {
      set p, c | p in primary && c in p.chars :: c
    }

    /**
     * find_primary, then find_characteristic: the characteristic a stored
     * attribute for handle h belongs to, searched first-match (see
     * RecordTargetFirstMatch).
     */
    function RecordTarget(h: u16): (r: Option<Characteristic>)
      reads this, (set p | p in primary), AllChars()`end
      ensures r.Some? ==> r.value in AllChars()
    {
      match FindRange(ServiceRanges(primary), h)
      case None => None
      case Some(i) =>
        assert primary[i] in primary;
        assert forall c | c in primary[i].chars :: c in AllChars();
        match FindRange(CharRanges(primary[i].chars), h)
        case None => None
        case Some(j) => Some(primary[i].chars[j])
    }

    /**
     * The first service whose range contains h is searched for the first
     * characteristic whose range (value handle to end handle) contains h;
     * nothing else qualifies.
     */
    lemma RecordTargetFirstMatch(h: u16)
      ensures var r := RecordTarget(h);
        r.Some? ==> exists i, j | 0 <= i < |primary| && 0 <= j < |primary[i].chars| ::
          r.value == primary[i].chars[j] && primary[i].start <= h <= primary[i].end &&
          primary[i].chars[j].handle <= h <= primary[i].chars[j].end
      ensures var r := RecordTarget(h);
        r.None? ==> forall i | 0 <= i < |primary| && primary[i].start <= h <= primary[i].end ::
          (exists k | 0 <= k < i :: primary[k].start <= h <= primary[k].end) ||
          forall j | 0 <= j < |primary[i].chars| :: !(primary[i].chars[j].handle <= h <= primary[i].chars[j].end)
    {
    }

    /** The characteristic a record key selects: the key must parse and name this device. */
    function KeyTarget(key: string): (r: Option<Characteristic>)
      reads this, (set p | p in primary), AllChars()`end
      ensures r.Some? ==> var k := ParseAttributeKey(key);
        k.Some? && k.value.0 == dst && r == RecordTarget(k.value.1)
      ensures ParseAttributeKey(key).None? ==> r.None?
    {
      match ParseAttributeKey(key)
      case None => None
      case Some((addr, h)) => if addr != dst then None else RecordTarget(h)
    }

    /** The characteristic each stored record's key selects, in record order. */
    function Targets(records: seq<(string, string)>): (r: seq<Option<Characteristic>>)
      reads this, (set p | p in primary), AllChars()`end
      ensures |r| == |records| && forall k | 0 <= k < |records| :: r[k] == KeyTarget(records[k].0)
    {
      if records == [] then [] else [KeyTarget(records[0].0)] + Targets(records[1..])
    }

    /** Which characteristic a record selects depends on the services, their characteristic lists and the end handles only. */
    twostate lemma RecordTargetUnchanged(h: u16)
      requires primary == old(primary)
      requires forall i | 0 <= i < |primary| :: primary[i].chars == old(primary[i].chars)
      requires forall i, j | 0 <= i < |primary| && 0 <= j < |primary[i].chars| :: primary[i].chars[j].end == old(primary[i].chars[j].end)
      ensures RecordTarget(h) == old(RecordTarget(h))
    {
      forall i | 0 <= i < |primary|
        ensures CharRanges(primary[i].chars) == old(CharRanges(primary[i].chars))
      {
      }
    }

    /** The end handles of every characteristic, read position by position. */
    twostate lemma EndsKept()
      requires primary == old(primary)
      requires forall i | 0 <= i < |primary| :: primary[i].chars == old(primary[i].chars)
      requires forall c | c in old(AllChars()) :: c.end == old(c.end)
      ensures forall i, j | 0 <= i < |primary| && 0 <= j < |primary[i].chars| :: primary[i].chars[j].end == old(primary[i].chars[j].end)
    {
      forall i, j | 0 <= i < |primary| && 0 <= j < |primary[i].chars|
        ensures primary[i].chars[j].end == old(primary[i].chars[j].end)
      {
        assert old(primary[i] in primary && primary[i].chars[j] in primary[i].chars);
        assert old(primary[i].chars[j]) in old(AllChars());
      }
    }

    /** Each service's characteristic information depends on the characteristic lists and end handles only. */
    twostate lemma ServiceCharInfosUnchanged()
      requires primary == old(primary)
      requires forall i | 0 <= i < |primary| :: primary[i].chars == old(primary[i].chars)
      requires forall c | c in old(AllChars()) :: c.end == old(c.end)
      ensures forall i | 0 <= i < |primary| :: CharInfos(primary[i].chars) == old(CharInfos(primary[i].chars))
    {
      EndsKept();
      forall i | 0 <= i < |primary|
        ensures CharInfos(primary[i].chars) == old(CharInfos(primary[i].chars))
      {
      }
    }

    twostate lemma TargetsUnchanged(records: seq<(string, string)>)
      requires primary == old(primary)
      requires forall i | 0 <= i < |primary| :: primary[i].chars == old(primary[i].chars)
      requires forall c | c in old(AllChars()) :: c.end == old(c.end)
      ensures Targets(records) == old(Targets(records))
    {
      EndsKept();
      forall k | 0 <= k < |records|
        ensures KeyTarget(records[k].0) == old(KeyTarget(records[k].0))
      {
        match ParseAttributeKey(records[k].0)
        case None =>
        case Some((addr, h)) => RecordTargetUnchanged(h);
      }
    }

    /** The objects LoadAttributeData(key, ...) may change. */
    function KeyTargets(key: string): set<Characteristic>
      reads this, (set p | p in primary), AllChars()`end
    {
      match KeyTarget(key)
      case None => {}
      case Some(c) => {c}
    }

    /**
     * load_attribute_data for one stored record: a user description or
     * presentation format record for a handle inside a characteristic of
     * this device replaces that characteristic's description or format by
     * the record's data (absent when the data is empty); any other record
     * changes nothing.
     */
    method LoadAttributeData(key: string, value: string, codec: UuidCodec)
      modifies KeyTargets(key)
      ensures var t := old(KeyTarget(key)); var u := RecordUpdate(value, codec);
        t.Some? ==> (
          t.value.desc == (if u.Some? && u.value.kind == UserDescription then u.value.data else old(t.value.desc)) &&
          t.value.format == (if u.Some? && u.value.kind == PresentationFormat then u.value.data else old(t.value.format)) &&
          t.value.value == old(t.value.value) && t.value.vlen == old(t.value.vlen) && t.value.end == old(t.value.end))
      ensures forall c | c in old(AllChars()) ::
        c.desc == (if Hits(UserDescription, (key, value), old(KeyTarget(key)), c, codec)
                   then RecordUpdate(value, codec).value.data else old(c.desc)) &&
        c.format == (if Hits(PresentationFormat, (key, value), old(KeyTarget(key)), c, codec)
                     then RecordUpdate(value, codec).value.data else old(c.format)) &&
        c.end == old(c.end) && c.value == old(c.value) && c.vlen == old(c.vlen)
    {
      var parsed := ParseAttributeKey(key);
      if parsed.None? {
        return;
      }
      var (addr, handle) := parsed.value;
      if addr != dst {
        return;
      }
      var i := FindRange(ServiceRanges(primary), handle);
      if i.None? {
        return;
      }
      var prim := primary[i.value];
      var j := FindRange(CharRanges(prim.chars), handle);
      if j.None? {
        return;
      }
      var chr := prim.chars[j.value];
      assert KeyTarget(key) == Some(chr);
      var u := RecordUpdate(value, codec);
      if u.None? {
        return;
      }
      if u.value.kind == UserDescription {
        chr.desc := u.value.data;
      } else {
        chr.format := u.value.data;
      }
    }

    /**
     * load_characteristics: a service without characteristics takes the
     * well-formed entries of its cache record, if any, and exports them; a
     * service that has characteristics, or no usable record, is left alone.
     */
    method LoadCharacteristics(prim: Primary, codec: UuidCodec)
      modifies this, prim
      ensures var entries := old(CachedChars(prim.start));
        if old(prim.chars) != [] || entries == [] then prim.chars == old(prim.chars) && events == old(events)
        else (CharInfos(prim.chars) == LoadedChars(entries, codec) &&
          (forall i | 0 <= i < |prim.chars| :: fresh(prim.chars[i]) && Blank(prim.chars[i])) &&
          events == old(events) + ExportChars(prim.chars))
      ensures forall c | c in prim.chars :: c in old(prim.chars) || fresh(c)
      ensures prim.watchers == old(prim.watchers) && primary == old(primary)
      ensures refs == old(refs) && nextWatch == old(nextWatch) && listen == old(listen)
      ensures storedServices == old(storedServices) && storedChars == old(storedChars) && storedAttrs == old(storedAttrs)
    {
      if prim.chars != [] {
        return;
      }
      var str := if prim.start in storedChars then Some(storedChars[prim.start]) else None;
      var entries := StringToCharacteristicList(str);
      if entries == [] {
        return;
      }
      InstallChars(prim, entries, codec);
    }

    /** The entries of a service's characteristics record, as string_to_characteristic_list reads them; none without a record. */
    function CachedChars(start: u16): seq<CharEntry>
      reads this`storedChars
    {
      if start in storedChars then ParseCharList(storedChars[start]) else []
    }

    /** The characteristics of a usable cache record become the service's, and are exported. */
    method InstallChars(prim: Primary, entries: seq<CharEntry>, codec: UuidCodec)
      modifies this, prim
      ensures CharInfos(prim.chars) == LoadedChars(entries, codec)
      ensures forall i | 0 <= i < |prim.chars| :: fresh(prim.chars[i]) && Blank(prim.chars[i])
      ensures events == old(events) + ExportChars(prim.chars)
      ensures prim.watchers == old(prim.watchers) && primary == old(primary)
      ensures refs == old(refs) && nextWatch == old(nextWatch) && listen == old(listen)
      ensures storedServices == old(storedServices) && storedChars == old(storedChars) && storedAttrs == old(storedAttrs)
    {
      var chars := NewChars(entries, codec);
      prim.chars := chars;
      label loaded:
      RegisterCharacteristics(prim);
      CharInfosUnchanged@loaded(prim.chars);
    }

    /**
     * load_primary_services: with no services yet and a cache record that
     * holds at least one well-formed entry, the services are taken from the
     * record and exported, each one's characteristics are loaded from its
     * own record and exported, and then every stored attribute record (key
     * and value, in the order storage yields them) is applied. Returns
     * whether the cache was used.
     */
    method LoadPrimaryServices(records: seq<(string, string)>, codec: UuidCodec) returns (r: bool)
      modifies this
      ensures r <==> old(primary) == [] && old(storedServices).Some? && ParsePrimaryList(old(storedServices).value) != []
      ensures !r ==> primary == old(primary) && events == old(events)
      ensures r ==> ServiceInfos(primary) == LoadedServices(ParsePrimaryList(old(storedServices).value), codec)
      ensures r ==> forall i | 0 <= i < |primary| :: fresh(primary[i])
      ensures r ==> forall i | 0 <= i < |primary| :: CharInfos(primary[i].chars) == LoadedChars(CachedChars(primary[i].start), codec)
      ensures r ==> events == old(events) + ExportServices(primary) + AllCharExports(primary)
      ensures r ==> forall c | c in AllChars() ::
        fresh(c) &&
        c.desc == Applied(UserDescription, records, Targets(records), |records|, c, None, codec) &&
        c.format == Applied(PresentationFormat, records, Targets(records), |records|, c, None, codec) &&
        c.value == None && c.vlen == 0
      ensures refs == old(refs) && nextWatch == old(nextWatch) && listen == old(listen)
      ensures storedServices == old(storedServices) && storedChars == old(storedChars) && storedAttrs == old(storedAttrs)
    {
      if primary != [] {
        return false;
      }
      var entries := StringToPrimaryList(storedServices);
      if entries == [] {
        return false;
      }
      LoadCache(entries, records, codec);
      return true;
    }

    /** The cache-hit path: the services are installed from their record, then the attribute records are applied. */
    method LoadCache(entries: seq<PrimaryEntry>, records: seq<(string, string)>, codec: UuidCodec)
      modifies this
      ensures ServiceInfos(primary) == LoadedServices(entries, codec)
      ensures forall i | 0 <= i < |primary| :: fresh(primary[i])
      ensures forall i | 0 <= i < |primary| :: CharInfos(primary[i].chars) == LoadedChars(CachedChars(primary[i].start), codec)
      ensures events == old(events) + ExportServices(primary) + AllCharExports(primary)
      ensures forall c | c in AllChars() ::
        fresh(c) &&
        c.desc == Applied(UserDescription, records, Targets(records), |records|, c, None, codec) &&
        c.format == Applied(PresentationFormat, records, Targets(records), |records|, c, None, codec) &&
        c.value == None && c.vlen == 0
      ensures refs == old(refs) && nextWatch == old(nextWatch) && listen == old(listen)
      ensures storedServices == old(storedServices) && storedChars == old(storedChars) && storedAttrs == old(storedAttrs)
    {
      InstallServices(entries, codec);
      label described:
      LoadAttributes(records, codec);
      ServiceCharInfosUnchanged@described();
    }

    /** The services of a usable cache record become the client's, are exported, and have their characteristics loaded. */
    method InstallServices(entries: seq<PrimaryEntry>, codec: UuidCodec)
      modifies this
      ensures ServiceInfos(primary) == LoadedServices(entries, codec)
      ensures forall i | 0 <= i < |primary| :: fresh(primary[i])
      ensures forall i | 0 <= i < |primary| :: CharInfos(primary[i].chars) == LoadedChars(CachedChars(primary[i].start), codec)
      ensures events == old(events) + ExportServices(primary) + AllCharExports(primary)
      ensures forall c | c in AllChars() :: fresh(c) && Blank(c)
      ensures refs == old(refs) && nextWatch == old(nextWatch) && listen == old(listen)
      ensures storedServices == old(storedServices) && storedChars == old(storedChars) && storedAttrs == old(storedAttrs)
    {
      var created := NewPrimaries(entries, codec);
      primary := created;
      RegisterPrimary();
      LoadAllCharacteristics(codec);
    }

    /** The g_slist_foreach of load_characteristics over freshly loaded services. */
    method LoadAllCharacteristics(codec: UuidCodec)
      requires forall i | 0 <= i < |primary| :: primary[i].chars == []
      requires forall i, j | 0 <= i < j < |primary| :: primary[i] != primary[j]
      modifies this, set p | p in primary
      ensures primary == old(primary) && refs == old(refs) && nextWatch == old(nextWatch) && listen == old(listen)
      ensures storedServices == old(storedServices) && storedChars == old(storedChars) && storedAttrs == old(storedAttrs)
      ensures forall i | 0 <= i < |primary| :: CharInfos(primary[i].chars) == LoadedChars(CachedChars(primary[i].start), codec)
      ensures events == old(events) + AllCharExports(primary)
      ensures forall c | c in AllChars() :: fresh(c) && Blank(c)
    {
      var ps := primary;
      ghost var loaded: seq<seq<Characteristic>> := [];
      for i := 0 to |ps|
        invariant refs == old(refs) && nextWatch == old(nextWatch) && listen == old(listen)
        invariant storedServices == old(storedServices) && storedChars == old(storedChars) && storedAttrs == old(storedAttrs)
        invariant LoadedUpTo(ps, i, loaded, old(events), codec)
        invariant forall j | 0 <= j < |ps| :: forall c | c in ps[j].chars :: fresh(c)
      {
        LoadServiceChars(ps, i, codec, old(events), loaded);
        loaded := loaded + [ps[i].chars];
      }
      AllCharExportsChain(ps, loaded);
      AllCharsFresh();
    }

    /**
     * Where that loop stands after i services: the list is still the
     * client's, the first i services hold the characteristics of their
     * cache records and the rest none, the log holds base and then the
     * exports of the first i services' characteristics (loaded), and no
     * characteristic has a description or format yet.
     */
    ghost predicate LoadedUpTo(ps: seq<Primary>, i: nat, loaded: seq<seq<Characteristic>>, base: seq<Event>, codec: UuidCodec)
      reads *
    {
      primary == ps && i <= |ps| &&
      (forall j | i <= j < |ps| :: ps[j].chars == []) &&
      (forall j | 0 <= j < i :: CharInfos(ps[j].chars) == LoadedChars(CachedChars(ps[j].start), codec)) &&
      |loaded| == i && (forall j | 0 <= j < i :: loaded[j] == ps[j].chars) &&
      events == base + ChainExports(loaded) &&
      forall j | 0 <= j < |ps| :: Unfilled(ps[j].chars)
    }

    /** Every characteristic of every service is new and undescribed when each service's are. */
    twostate lemma AllCharsFresh()
      requires forall j | 0 <= j < |primary| :: Unfilled(primary[j].chars) && forall c | c in primary[j].chars :: fresh(c)
      ensures forall c | c in AllChars() :: fresh(c) && Blank(c)
    {
      forall c | c in AllChars()
        ensures fresh(c) && Blank(c)
      {
        var p :| p in primary && c in p.chars;
        var j :| 0 <= j < |primary| && primary[j] == p;
        assert Unfilled(primary[j].chars);
      }
    }

    /**
     * One step of that loop: load_characteristics on service i of the
     * list, which has no characteristics yet. Its characteristics become
     * those of its cache record, new and undescribed, and their exports
     * follow those of the services before it; the other services keep
     * their characteristics.
     */
    method LoadServiceChars(ps: seq<Primary>, i: nat, codec: UuidCodec, ghost base: seq<Event>, ghost loaded: seq<seq<Characteristic>>)
      requires i < |ps| && LoadedUpTo(ps, i, loaded, base, codec)
      requires forall j, k | 0 <= j < k < |ps| :: ps[j] != ps[k]
      modifies this, ps[i]
      ensures refs == old(refs) && nextWatch == old(nextWatch) && listen == old(listen)
      ensures storedServices == old(storedServices) && storedChars == old(storedChars) && storedAttrs == old(storedAttrs)
      ensures LoadedUpTo(ps, i + 1, loaded + [ps[i].chars], base, codec)
      ensures forall c | c in ps[i].chars :: fresh(c)
      ensures forall j | 0 <= j < |ps| && j != i :: ps[j].chars == old(ps[j].chars)
    {
      LoadCharacteristics(ps[i], codec);
      forall j | 0 <= j < |ps| && j != i
        ensures ps[j] != ps[i]
      {
        if j < i {
          assert ps[j] != ps[i];
        } else {
          assert ps[i] != ps[j];
        }
      }
      OtherServicesKept(i);
      LoadedStep(LoadProgress(loaded, base, codec));
    }

    /**
     * One more service loaded, the others kept: the loop's state advances
     * by one. The service loaded is the one after those in p.loaded.
     */
    twostate lemma LoadedStep(p: LoadProgress)
      requires |p.loaded| < |primary| && old(LoadedUpTo(primary, |p.loaded|, p.loaded, p.base, p.codec))
      requires primary == old(primary) && storedChars == old(storedChars)
      requires forall j | 0 <= j < |primary| && j != |p.loaded| ::
        primary[j].chars == old(primary[j].chars) && CharInfos(primary[j].chars) == old(CharInfos(primary[j].chars)) &&
        Unfilled(primary[j].chars) == old(Unfilled(primary[j].chars))
      requires var s := primary[|p.loaded|];
        CharInfos(s.chars) == LoadedChars(CachedChars(s.start), p.codec) && Unfilled(s.chars) &&
        events == old(events) + ExportChars(s.chars)
      ensures LoadedUpTo(primary, |p.loaded| + 1, p.loaded + [primary[|p.loaded|].chars], p.base, p.codec)
    {
      ChainExportsSnoc(p.base, p.loaded, primary[|p.loaded|].chars, old(events));
    }

    /** The services other than the i-th, and their characteristics, untouched by a load into the i-th. */
    twostate lemma OtherServicesKept(i: nat)
      requires old(i < |primary|) && primary == old(primary)
      requires forall j | 0 <= j < |primary| && j != i :: unchanged(primary[j]) && unchanged(primary[j].chars)
      ensures forall j | 0 <= j < |primary| && j != i ::
        primary[j].chars == old(primary[j].chars) && CharInfos(primary[j].chars) == old(CharInfos(primary[j].chars)) &&
        Unfilled(primary[j].chars) == old(Unfilled(primary[j].chars))
    {
      forall j | 0 <= j < |primary| && j != i
        ensures primary[j].chars == old(primary[j].chars)
        ensures CharInfos(primary[j].chars) == old(CharInfos(primary[j].chars))
        ensures Unfilled(primary[j].chars) == old(Unfilled(primary[j].chars))
      {
        CharInfosUnchanged(primary[j].chars);
        UnfilledUnchanged(primary[j].chars);
      }
    }

    /**
     * read_device_attributes with load_attribute_data: every record applied
     * in turn, so each characteristic's description and format are those
     * the last record to set them wrote; nothing else changes.
     */
    method LoadAttributes(records: seq<(string, string)>, codec: UuidCodec)
      modifies AllChars()
      ensures unchanged(this) && unchanged(set p | p in primary)
      ensures AllChars() == old(AllChars()) && Targets(records) == old(Targets(records))
      ensures forall c | c in AllChars() ::
        c.desc == Applied(UserDescription, records, old(Targets(records)), |records|, c, old(c.desc), codec) &&
        c.format == Applied(PresentationFormat, records, old(Targets(records)), |records|, c, old(c.format), codec) &&
        c.end == old(c.end) && c.value == old(c.value) && c.vlen == old(c.vlen)
    {
      ghost var ts := Targets(records);
      ghost var init := map c | c in AllChars() :: Snap(c);
      for k := 0 to |records|
        invariant AppliedUpTo(records, ts, k, init, codec)
      {
        ApplyRecord(records, k, codec, ts, init);
      }
    }

    /**
     * Loop state of LoadAttributes: the characteristics are those captured in
     * init, the first k records have been applied to their descriptors and
     * nothing else about them has changed.
     */
    ghost predicate AppliedUpTo(records: seq<(string, string)>, ts: seq<Option<Characteristic>>, k: nat,
                                init: map<Characteristic, CharSnap>, codec: UuidCodec)
      reads *
    {
      ts == Targets(records) && k <= |records| && AllChars() == init.Keys &&
      forall c | c in init ::
        c.desc == Applied(UserDescription, records, ts, k, c, init[c].desc, codec) &&
        c.format == Applied(PresentationFormat, records, ts, k, c, init[c].format, codec) &&
        c.end == init[c].end && c.value == init[c].value && c.vlen == init[c].vlen
    }

    /** One turn of the loop in read_device_attributes. */
    method ApplyRecord(records: seq<(string, string)>, k: nat, codec: UuidCodec,
                       ghost ts: seq<Option<Characteristic>>, ghost init: map<Characteristic, CharSnap>)
      requires k < |records| && AppliedUpTo(records, ts, k, init, codec)
      modifies AllChars()
      ensures AppliedUpTo(records, ts, k + 1, init, codec)
    {
      LoadAttributeData(records[k].0, records[k].1, codec);
      TargetsUnchanged(records);
    }
  }
}
