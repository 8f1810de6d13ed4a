# GATT attribute client: discovery and cache model

This project models the attribute-discovery and attribute-cache core of
`attrib/client.c`, the GATT client of an old BlueZ daemon, and proves
properties of that model in Dafny. The client does the following:

- It discovers a remote device's primary services with Read by Group Type
  requests. Each service's characteristics are then discovered with Read by
  Type requests, and their descriptors with Find Information requests. These
  are the "Discover All Primary Services", "Discover All Characteristics of a
  Service" and "Discover All Characteristic Descriptors" sub-procedures of the
  Bluetooth Core Specification, Volume 3, Part G, sections 4.4.1, 4.6.1 and
  4.7.1.
- It caches what it finds in the device's storage and loads it back later.
- It keeps each characteristic's value up to date from notifications and
  indications.
- It fans every value change out to the registered D-Bus watchers.

Modules and files:

| file | module | contents |
|---|---|---|
| `wrappers.dfy` | `Wrappers` | `Option` |
| `bytes.dfy` | `Bytes` | octets; `att_get_u16` (little-endian); upper-case hex digits as `%02X` and `%04X` write them |
| `uuid.dfy` | `Uuids` | UUIDs (unset, 16-bit, 128-bit); comparison as `sdp_uuid_cmp` does it (by 128-bit form); the UUID text formatter and parser as a collaborator value `UuidCodec` |
| `scan.dfy` | `Scan` | the parts of `sscanf` the client uses: white-space skipping, `%<w>hX` / `%<w>hhX`, `%<w>s`, literal characters |
| `cache_codec.dfy` | `CacheCodec` | the service and characteristic cache tokens; `g_strsplit(s, " ", 0)`; the list writers and readers as loop methods; round trips |
| `attr_store.dfy` | `AttrStore` | the descriptor record `store_attribute` writes; `attr_data_from_string`; the record key `"%17s#%04hX"`; which descriptor a record fills |
| `discovery.dfy` | `Discovery` | pure decoding of the three discovery responses, and the step each callback takes next |
| `lookup.dfy` | `Lookups` | the comparators (`characteristic_handle_cmp`, `find_primary`, `find_characteristic`, `watcher_cmp`) and the `g_slist_find_custom` / `g_slist_remove` searches built on them |
| `client.dfy` | `Client` | the classes `Characteristic`, `Primary`, `Watcher` and `GattService`, and the callbacks and loaders as methods over them |

How the system's state is represented:

- `GattService` holds the connection reference count (`refs`, where 0 means
  no `GAttrib`) and the list of discovered services.
- Everything the client sends or publishes is appended to an event log
  (`events`), in order. This covers ATT requests, confirmations, D-Bus
  exports, `ValueChanged` calls and watch removals.
- The device's storage is three fields: the services record, the
  characteristics record of each service start handle, and the descriptor
  record of each handle.
- Discovery callbacks take the decoded response as an `AttDataList` and do
  not decode the PDU themselves. This list stands for `att_data_list`: an
  entry length plus entries of that length. `None` stands for a response
  that does not decode.
- A `memory` flag says whether `g_try_realloc` can provide a new buffer.
  A `connectOk` flag says whether `bt_io_connect` succeeds.

## Model

| member | source | states |
|---|---|---|
| CacheCodec.PrimaryListToString | attrib/client.c:1106-1133 | the text written is each service as `%04X#%04X#<uuid> `, in list order |
| CacheCodec.CharacteristicListToString | attrib/client.c:630-657 | the text written is each characteristic as `%04X#%02X#%04X#<uuid> `, in list order |
| CacheCodec.StringToPrimaryList | attrib/client.c:1135-1176 | NULL gives the empty list; otherwise every space-separated piece that yields all three fields gives one service, in order |
| CacheCodec.StringToCharacteristicList | attrib/client.c:685-725 | NULL gives the empty list; otherwise every piece that yields all four fields gives one characteristic, in order |
| CacheCodec.PrimaryListRoundTrip | attrib/client.c:1106-1176 | reading back a written service list gives the same start, end and UUID text for every service, in order |
| CacheCodec.CharListRoundTrip | attrib/client.c:630-725 | reading back a written characteristic list gives the same handle, properties, end and UUID text for every element, in order |
| CacheCodec.MalformedPrimarySkipped | attrib/client.c:1157-1163 | a service token with fewer than three fields is dropped and the tokens around it are still read |
| CacheCodec.MalformedCharSkipped | attrib/client.c:706-711 | a characteristic token with fewer than four fields is dropped and the tokens around it are still read |
| CacheCodec.PrimaryTokenNeedsUuid | attrib/client.c:1157-1163 | a service token without a UUID field, or with a blank one, gives no service |
| CacheCodec.CharTokenNeedsUuid | attrib/client.c:706-711 | a characteristic token without a UUID field, or with a blank one, gives no characteristic |
| CacheCodec.EmptyPieceIsNoToken | attrib/client.c:1145 | the empty piece that `g_strsplit` yields after the final space is no token |
| Client.ServiceCacheRoundTrip | attrib/client.c:1106-1176 | storing the services and loading them back gives every service's range, in order, and a UUID with the same 128-bit form, when the UUID text round-trips |
| Client.CharCacheRoundTrip | attrib/client.c:630-725 | storing a service's characteristics and loading them back gives every handle, properties and end, in order, and a UUID with the same 128-bit form, when the UUID text round-trips |
| AttrStore.StoreAttributeText | attrib/client.c:756-777 | the record is the UUID text, `#` at offset MAX_LEN_UUID_STR - 1, then two upper-case hex digits per octet from offset MAX_LEN_UUID_STR; its length is MAX_LEN_UUID_STR + 2·len |
| AttrStore.WriteHexAt | attrib/client.c:772-773 | the `%02X` loop writes two hex digits per octet from the given offset, leaves the text before it unchanged and the rest NUL |
| AttrStore.AttrDataFromString | attrib/client.c:1009-1027 | the result has strlen / 2 octets, octet i read from characters 2i and 2i + 1; no octets gives NULL |
| AttrStore.Strtol2OfHex2 | attrib/client.c:1020-1023 | `strtol` on the two digits `%02X` wrote gives back the octet |
| AttrStore.DecodeHexBytes | attrib/client.c:1015-1024 | the hex text of a value decodes back to the same octets |
| AttrStore.AttrDataRoundTrip | attrib/client.c:1015-1024 | a non-empty stored value reads back as that value; an empty one reads back as NULL |
| AttrStore.AttrDataIgnoresOddTail | attrib/client.c:1015 | an odd trailing character is ignored |
| AttrStore.ParseAttributeKey | attrib/client.c:1068-1069 | a key gives an address of 1 to 17 characters and a 16-bit handle, or nothing |
| AttrStore.AttributeKeyRoundTrip | attrib/client.c:1068-1069 | the key `<address>#%04X` of a 17-character address reads back as that address and handle |
| AttrStore.KeyNeedsSeparator | attrib/client.c:1068-1069 | a key whose address is not followed by `#` is ignored |
| AttrStore.DescriptorUuid | attrib/client.c:1098-1103 | each cached descriptor kind has the user description or the presentation format UUID |
| AttrStore.DescriptorOfShort | attrib/client.c:842-849 | each descriptor kind's 16-bit UUID is recognised as that kind |
| AttrStore.RecordUpdate | attrib/client.c:1092-1103 | a record that is applied reaches offset MAX_LEN_UUID_STR, and its data is the hex after the `#`, decoded |
| AttrStore.StoredAttributeLoadsBack | attrib/client.c:1092-1103 | a record that `store_attribute` wrote for a descriptor fills that descriptor with the stored octets (NULL when there were none) |
| Uuids.SameShortUuid | attrib/client.c:842-849 | two 16-bit UUIDs compare equal exactly when their values are equal |
| Discovery.ServiceOfEntry | attrib/client.c:1272-1286 | an entry gives start from octets 0-1, end from octets 2-3, and a 16-bit UUID from octets 4-5 (length 6) or a 128-bit UUID from octet 4 (length 20) |
| Discovery.ServicesOfEntries | attrib/client.c:1266-1298 | one service per entry, in order |
| Discovery.ServicesFound | attrib/client.c:1280-1292 | a response of length 6 or 20 adds all its entries; any other length adds none |
| Discovery.PrimaryStepOf | attrib/client.c:1241-1314 | Attribute Not Found completes only when a service is known; other errors and undecodable responses stop; a valid page whose last end handle lies strictly between 0 and 0xFFFF asks again from `end + 1`, and any request made starts there; a last end of 0xFFFF completes; `end == 0`, an empty page or an invalid entry length stops |
| Discovery.InvalidServiceLengthStops | attrib/client.c:1287-1292 | an entry length other than 6 or 20 adds nothing and ends discovery |
| Discovery.PrimaryStepsAgree | attrib/client.c:1302-1314 | the corrected step and the step as written differ only when the last end handle is 0xFFFF |
| Discovery.LastHandleWrapsToZero | attrib/client.c:1313-1314 | as written, a last end handle of 0xFFFF asks again from handle 0; the corrected step completes |
| Discovery.PrimaryContinuesExactly | attrib/client.c:1302-1314 | discovery asks again exactly when a successful response decodes to services whose last end handle lies strictly between 0 and 0xFFFF, and then from the handle right after it |
| Discovery.CharContinuesExactly | attrib/client.c:989-994 | characteristic discovery asks again exactly after a successful response that is empty with a service end above 0, or valid with its last value handle below the service's end |
| Discovery.CharOfDecl | attrib/client.c:964-975 | perm is `decl[2]`, handle is `u16(decl[3..4])`, and the UUID is 16-bit from octet 5 (length 7) or 128-bit from octet 5 (length 21) |
| Discovery.CharsOfDecls | attrib/client.c:964-987 | one characteristic per declaration, in order; each ends at the next declaration's handle and the last at the service's end |
| Discovery.CharsFound | attrib/client.c:964-987 | a response of length 7 or 21 adds all its declarations; any other length adds none |
| Discovery.CharStepOf | attrib/client.c:941-994 | Attribute Not Found finishes; other errors and undecodable responses fail; a non-empty response whose entry length is neither 7 nor 21 fails; a valid page whose last value handle is below the service's end continues from `last + 1`, and one reaching the end finishes; an empty page continues from 1, or finishes when the service's end is 0 |
| Discovery.InvalidCharLengthFails | attrib/client.c:964-975 | a non-empty response with an entry length other than 7 or 21 adds no characteristic and fails the discovery |
| Discovery.CharEndsChain | attrib/client.c:977-987 | within one response, each characteristic's end is the next declaration handle, and the last one's is the service's end |
| Discovery.CharOfDeclAsWritten | attrib/client.c:964-975 | as written, perm is `decl[2]`, handle is `u16(decl[3..4])`, and every length other than 7 takes a 128-bit UUID from octets 5 to 20, so such a declaration must have at least 21 octets |
| Discovery.CharDeclAgrees | attrib/client.c:964-975 | on lengths 7 and 21 the decoder as written and the corrected one read the same characteristic |
| Discovery.ShortDeclarationOverreads | attrib/client.c:964-975 | as written, a response with entries of 8 to 20 octets is read past the end of every entry; the corrected rules add nothing and fail |
| Discovery.EightOctetDeclarationOverreads | attrib/client.c:964-975 | one 8-octet entry is already read past its end as written; the corrected rules fail the discovery |
| Discovery.DescriptorRead | attrib/client.c:871-896 | a read is issued for an entry exactly when the format is 0x01 and its UUID is a known descriptor, at the entry's handle |
| Discovery.DescriptorKinds | attrib/client.c:887-896 | 0x2901 leads to a user description read and 0x2904 to a presentation format read |
| Discovery.DescriptorReads | attrib/client.c:866-897 | a format other than 0x01 issues no reads |
| Discovery.DescriptorReadsMembership | attrib/client.c:866-897 | a read is in the result exactly when some entry names it |
| Lookups.HandleCmp | attrib/client.c:172-178 | the comparison is zero exactly when the handles are equal |
| Lookups.FindHandle | attrib/client.c:298-299 | the first characteristic with the handle, or none exactly when no characteristic has it |
| Lookups.Locate | attrib/client.c:293-303 | the first service, in order, holding the handle, and the first position in it; none exactly when no service holds it |
| Lookups.RangeCmp | attrib/client.c:1029-1055 | the comparison is zero exactly when start ≤ handle ≤ end, and −1 otherwise |
| Lookups.FindRange | attrib/client.c:1078-1090 | the first range containing the handle; none exactly when no range contains it |
| Lookups.StrCmp | attrib/client.c:185 | the comparison is zero exactly when the strings are equal |
| Lookups.WatcherCmp | attrib/client.c:180-191 | the comparison is zero exactly when both name and path are equal |
| Lookups.WatcherCmpAntisymmetric | attrib/client.c:180-191 | swapping the arguments negates the sign |
| Lookups.FindWatcher | attrib/client.c:504-510 | the first watcher with both name and path equal; none exactly when none matches |
| Lookups.RemoveFirst | attrib/client.c:514 | an absent element leaves the list unchanged; a present one shortens it by exactly one |
| Lookups.RemoveFirstAt | attrib/client.c:514 | removing the first occurrence at position i leaves the elements before and after i, in order |
| Lookups.RemoveFirstMultiset | attrib/client.c:514 | exactly one occurrence of the element leaves the list |
| Client.SetValueResult | attrib/client.c:249-260 | on success the value is replaced wholesale and vlen is its length; -ENOMEM exactly when a non-empty value finds no memory, and then the value pointer becomes NULL while vlen keeps its old length |
| Client.EmptyValueIsLost | attrib/client.c:249-260 | as written, an empty value returns -ENOMEM, drops the buffer and leaves the old length; the corrected rule makes it empty |
| Client.SetValueAgrees | attrib/client.c:249-260 | the rule as written and the corrected rule agree on every non-empty value, whether or not memory is available |
| Client.Characteristic.SetValue | attrib/client.c:249-260 | the new value and length and the result are those of the corrected rule |
| Client.Notices | attrib/client.c:262-279 | one ValueChanged per watcher, in order, to that watcher's name and path |
| Client.GattService.L2capConnect | attrib/client.c:422-455 | an existing connection gains one reference; otherwise a failed connect returns -1, and a successful one holds the first reference with the given listen flag |
| Client.GattService.RegisterWatcher | attrib/client.c:457-489 | bad arguments give InvalidArguments and a failed connection gives Failed, both leaving the list, the watch counter and the references unchanged; otherwise exactly one new watcher (sender, path) with the next watch id is appended and one reference is taken; a new connection adds one Connect event in listen mode and nothing else is sent; storage never changes |
| Client.GattService.UnregisterWatcher | attrib/client.c:491-518 | a miss returns NotAuthorized and leaves the list and events unchanged; a hit removes exactly the first (name, path) match and sends its watch removal; references, watch counter, listen flag and storage never change |
| Client.GattService.WatcherExit | attrib/client.c:236-247 | the watcher leaves its service's list and one connection reference is dropped; nothing is sent, and the watch counter, listen flag and storage are unchanged |
| Client.GattService.DeliverValue | attrib/client.c:309-318 | an indication is confirmed first; the value becomes what the corrected set-value rule gives for `pdu[3..]`, with end, description and format kept; then every watcher of the service is told, in order; nothing else changes |
| Client.GattService.EventsHandler | attrib/client.c:281-321 | an unknown handle or other opcode sends nothing, and another opcode leaves the found characteristic's value as it was; otherwise the first match gets `pdu[3..]`, an indication is first confirmed once, and every watcher of the owning service is told once, in order; end, description, format, references, watch counter, listen flag and storage never change |
| Client.GattService.FindTarget | attrib/client.c:293-306 | the loop finds exactly the first service and characteristic holding the handle |
| Client.GattService.NotifyWatchers | attrib/client.c:318 | one notice per watcher of the service, in order |
| Client.GattService.StorePrimaryServices | attrib/client.c:1178-1187 | the services record becomes the written list of all services |
| Client.GattService.StoreCharacteristics | attrib/client.c:659-670 | the service's characteristics record becomes the written list of its characteristics |
| Client.GattService.StoreAttribute | attrib/client.c:756-777 | the handle's record becomes the descriptor record text; nothing else changes |
| Client.GattService.RegisterPrimary | attrib/client.c:615-628 | every service is exported, in order |
| Client.GattService.RegisterCharacteristics | attrib/client.c:672-683 | every characteristic of the service is exported, in order |
| Client.GattService.UpdateAllChars | attrib/client.c:909-930 | for every characteristic, a Find Information request over handle + 1 to end, then a value read |
| Client.GattService.DiscoverAllChars | attrib/client.c:1219-1231 | one characteristic discovery per service over its range, in order |
| Client.GattService.CompleteDiscovery | attrib/client.c:1245-1248 | the services are stored and exported, then their characteristics are discovered |
| Client.GattService.PrimaryCb | attrib/client.c:1233-1317 | the services found are appended as new, empty services, and the next step is exactly as PrimaryStepOf says |
| Client.DeclaredServices | attrib/client.c:1266-1298 | the entry loop makes one new, empty service per entry, in order, from start, end and UUID; an entry length other than 6 or 20 makes none and reports failure; the last end handle is returned |
| Client.GattService.AppendServices | attrib/client.c:1266-1298 | the services found are appended after the known ones, which stay in place, and nothing else changes |
| Client.GattService.PrimaryPage | attrib/client.c:1264-1314 | a decoded response appends its services, then requests from `end + 1`, completes, or stops, as PrimaryStepOf says |
| Client.GattService.FinishChars | attrib/client.c:998-1002 | store, export, then a descriptor search and a value read for every characteristic |
| Client.GattService.CharDiscoveredCb | attrib/client.c:932-1007 | the characteristics found are appended as new objects with their end handles back-filled and no value, description or format yet, and the next step is exactly as CharStepOf says |
| Client.GattService.CharPage | attrib/client.c:964-994 | a valid response appends its characteristics, new and with no value, description or format, then continues from `last + 1` or finishes, as CharStepOf says |
| Client.GattService.ContinueChars | attrib/client.c:989-1002 | a last value handle at or past the service's end stores, exports and queries the characteristics; otherwise one request for `last + 1` to the service's end is sent |
| Client.DeclaredChars | attrib/client.c:964-987 | the declaration loop makes one new characteristic per declaration, exactly CharsFound, with each end back-filled from the next declaration and the last from the service's end, and none with a value, description or format yet; the last value handle is returned |
| Client.GattService.AppendChars | attrib/client.c:964-987 | the characteristics found are appended after the service's known ones, which stay in place, as new objects with no value, description or format |
| Client.DescriptorRequests | attrib/client.c:866-897 | the entry loop sends exactly one read per known descriptor entry of format 0x01, in entry order, on behalf of the characteristic |
| Client.AllCharQueriesAt | attrib/client.c:909-930 | characteristic i's descriptor search and value read are the requests at positions 2i and 2i + 1 |
| Client.GattService.DescriptorCb | attrib/client.c:851-907 | an error or undecodable response reads nothing; otherwise one read per known descriptor entry, in order |
| Client.GattService.UpdateCharDesc | attrib/client.c:779-800 | on success the description is the octets after the opcode plus a NUL, and that is stored under the descriptor's handle |
| Client.GattService.UpdateCharFormat | attrib/client.c:802-826 | on success with at least 8 octets, the format is the 7 octets after the opcode, and it is stored; otherwise nothing changes |
| Client.GattService.UpdateCharValue | attrib/client.c:828-840 | on success the value becomes the octets after the opcode |
| Client.GattService.RecordTarget | attrib/client.c:1078-1090 | a record applies only to a characteristic whose [handle, end] contains the handle, inside a service whose [start, end] contains it, searched first-match |
| Client.GattService.RecordTargetFirstMatch | attrib/client.c:1078-1090 | a selected characteristic lies in a service whose range holds the handle and itself spans the handle; no selection means the first service holding the handle has no characteristic spanning it |
| Client.GattService.KeyTarget | attrib/client.c:1068-1090 | a record's key must parse and name this device |
| Client.GattService.LoadAttributeData | attrib/client.c:1057-1104 | the selected characteristic's description or format becomes the record's data; nothing else changes |
| Client.GattService.LoadCharacteristics | attrib/client.c:727-754 | a no-op when the service has characteristics or no usable record; otherwise the characteristics become new objects holding the cached entries, with no value, description or format, and each is exported in order |
| Client.GattService.LoadPrimaryServices | attrib/client.c:1189-1217 | returns true exactly when there were no services and the record holds a well-formed entry; then the services are new objects holding the cached entries, each service's characteristics are new objects holding its cached entries, the services are exported and then every characteristic, each description and format is what the descriptor records applied in order leave, and no value is held yet; otherwise the services and events are unchanged; storage and references never change |
| Client.GattService.LoadCache | attrib/client.c:1210-1214 | the cached services and characteristics are installed and exported, then the descriptor records are applied in order; no characteristic holds a value yet |
| Client.GattService.InstallServices | attrib/client.c:1210-1213 | the services become new objects holding the cached entries, they are exported, and every characteristic is loaded from its cache with no value, description or format yet |
| Client.GattService.LoadAttributes | attrib/client.c:1057-1104 | `read_device_attributes` applying every record in turn leaves each characteristic's description and format as the last record to set it wrote, and nothing else changes |
| Client.GattService.ApplyRecord | attrib/client.c:1057-1104 | after record k is applied, every characteristic captured before the loop has the description and format that the first k + 1 records leave, and its end, value and length as captured |
| Client.GattService.InstallChars | attrib/client.c:750-751 | the service's characteristics become new objects holding the cached entries, with no value, description or format, and each is exported, in order |
| Client.GattService.LoadServiceChars | attrib/client.c:727-754 | loading service i's characteristics gives it new characteristic objects holding its cached entries, with no value, description or format, appends their exports to the events, and leaves every other service's characteristics as they were |
| Client.RemoveFoundWatcher | attrib/client.c:504-514 | removing the first match found by the watcher search removes exactly that position |
| Client.GattService.LoadAllCharacteristics | attrib/client.c:1213 | every service's characteristics become new objects holding its cached entries, with no value, description or format; the events gain each service's characteristic exports, in service order; the services and storage are unchanged |
| Client.NewChars | attrib/client.c:699-721 | one new characteristic per cached entry, with no value, description or format, and an unparsable UUID left unset |
| Client.AppliedNoHit | attrib/client.c:1057-1104 | a descriptor that no record sets keeps its initial contents |
| Client.AppliedLastHit | attrib/client.c:1057-1104 | a descriptor holds the data of the last record that sets it |
| Client.NewPrimaries | attrib/client.c:1149-1172 | one new, empty service per cached entry, with an unparsable UUID left unset |

## Left out

- D-Bus marshalling (`append_char_dict`, `get_characteristics`, `get_properties`, `set_property`, `set_value`, the `ValueChanged` message) is not modelled. Exports, notices and watch removals are event-log entries.
- Socket and L2CAP setup, `connect_cb`, `attrib_disconnect`, `attrib_destroy`, `attrib_client_register` and `attrib_client_unregister` are not modelled. `bt_io_connect` succeeding is the `connectOk` parameter.
- The `gatt_*` and `g_attrib_send` requests are not issued. Each is an event, and its callback is a method that takes the decoded response.
- PDU decoding (`dec_read_by_grp_resp`, `dec_read_by_type_resp`, `dec_find_info_resp`) is not modelled. The callbacks take its result, and a list whose entries all have the stated length is a precondition.
- The storage functions (`read_device_*`, `write_device_*`) are not modelled. They are fields of `GattService`. `read_device_attributes` is the sequence of (key, value) records passed to `LoadPrimaryServices`, in the order storage would yield them.
- UUID text (`sdp_uuid2strn`, `bt_uuid2string`, `bt_string2uuid`) is the `UuidCodec` collaborator passed to the operations that need it. Its text is assumed to be 36 characters without white space.
- Object paths (`<service path>/service%04x`, `/characteristic%04x`) are not modelled. Characteristics and services are identified by handle in the event log.
- Reference counting is modelled only in `l2cap_connect` and `watcher_exit`. The `g_attrib_ref` / `g_attrib_unref` pairs around each request and callback are left out.
- Client.GattService.EventsHandler: requires a PDU of at least 3 octets (opcode and handle), which the source reads without looking at the length.
- Client.GattService.UpdateCharDesc: requires a response of at least one octet on success. The source computes `len - 1` whatever the length.
- Client.GattService.UpdateCharValue: requires a response of at least one octet on success, as above.
- AttrStore.RecordUpdate: does not apply a record shorter than MAX_LEN_UUID_STR characters. For such a record the source writes and reads past the string.
- AttrStore.ParseAttributeKey: `%04hX` is modelled as one to four hex digits after optional white space. The sign and `0x` prefix that `sscanf` would also accept are not modelled, and the address is compared as text with the device's `ba2str` form.
- In the cache tokens, too, the sign and `0x` prefix that `%hX` accepts are not modelled.
- `snprintf` truncation at 64 characters is not modelled. A token with 36-character UUID text has at most 50.
- The callbacks follow the corrected rules listed under "## Findings". The as-written rules are kept as separate functions.
- `uuid_desc16_cmp` is modelled by comparing 128-bit forms (`Uuids.SameUuid`). The base UUID is a constant.
- The `tools/` test harness is not part of this model.

## Behaviour of the code the model keeps

- `att_get_u16` reads little-endian, as ATT encodes handles (attrib/client.c:965, 975, 1272-1273).
- A characteristic's end handle is back-filled with the next declaration's handle itself (attrib/client.c:974-975).
- A failed `characteristic_set_value` leaves the value pointer NULL and `vlen` at its old length (attrib/client.c:251-253).
- A successful characteristic response with no declarations leaves `last` at 0, so the next request starts at handle 1 (attrib/client.c:958, 989-994).
- The back-fill pointer starts out NULL on every callback (attrib/client.c:939, 984-985). So across the responses of one characteristic discovery, the last characteristic of each response keeps the service's end. This follows from `CharDiscoveredCb` and `CharsOfDecls`.

## Findings

| source | as written | input that shows it | evidently intended | confidence | as-written member | corrected member |
|---|---|---|---|---|---|---|
| attrib/client.c:1313-1314 | the next request starts at `end + 1` in 16 bits | a response whose last service ends at 0xFFFF: the next request starts at handle 0, so discovery never completes | a last end handle of 0xFFFF completes the discovery | not executed | Discovery.LastHandleWrapsToZero | Discovery.PrimaryStepOf |
| attrib/client.c:964-975 | every entry length other than 7 is decoded as a 128-bit UUID from octets 5 to 20 | a well-formed response with 8-octet entries: 13 octets are read past each entry | lengths other than 7 and 21 are rejected, as `primary_cb` rejects lengths other than 6 and 20 | not executed | Discovery.ShortDeclarationOverreads | Discovery.CharStepOf |
| attrib/client.c:249-260 | `g_try_realloc(value, 0)` returns NULL, which is treated as out of memory | a 3-octet notification or a 1-octet read response: -ENOMEM, the value becomes NULL and vlen keeps the old length | an empty value replaces the old one and vlen becomes 0 | not executed | Client.EmptyValueIsLost | Client.SetValueResult |
