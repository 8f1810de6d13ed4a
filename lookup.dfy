/**
 * The comparators of attrib/client.c and the first-match searches
 * (g_slist_find_custom, g_slist_remove) the client runs with them.
 */
module Lookups {
  import opened Bytes
  import opened Wrappers

  /** characteristic_handle_cmp: the handle's difference from the one wanted, 0 exactly on a match. */
  function HandleCmp(handle: u16, wanted: u16): (r: int)
    ensures r == 0 <==> handle == wanted
    ensures -0xFFFF <= r <= 0xFFFF
  {
    handle - wanted
  }

  /** g_slist_find_custom(chars, handle, characteristic_handle_cmp): the first position holding the handle. */
  function FindHandle(hs: seq<u16>, h: u16): (r: Option<nat>)
    ensures r.Some? ==> r.value < |hs| && hs[r.value] == h
    ensures r.Some? ==> forall k | 0 <= k < r.value :: hs[k] != h
    ensures r.None? <==> h !in hs
  {
    if hs == [] then None
    else if HandleCmp(hs[0], h) == 0 then Some(0)
    else match FindHandle(hs[1..], h)
      case None => None
      case Some(k) => Some(k + 1)
  }

  /**
   * The search of events_handler from service k on: the first service whose
   * characteristics hold the handle, and the first such characteristic in it.
   */
  function LocateFrom(table: seq<seq<u16>>, h: u16, k: nat): (r: Option<(nat, nat)>)
    requires k <= |table|
    ensures r.Some? ==> k <= r.value.0 < |table| && r.value.1 < |table[r.value.0]|
    ensures r.Some? ==> table[r.value.0][r.value.1] == h
    ensures r.Some? ==> forall m | k <= m < r.value.0 :: h !in table[m]
    ensures r.Some? ==> forall j | 0 <= j < r.value.1 :: table[r.value.0][j] != h
    ensures r.None? <==> forall m | k <= m < |table| :: h !in table[m]
    decreases |table| - k
  {
    if k == |table| then None
    else match FindHandle(table[k], h)
      case Some(j) => Some((k, j))
      case None => LocateFrom(table, h, k + 1)
  }

  /** The whole search: the first service, in order, whose characteristics hold the handle, and the first position in it. */
  function Locate(table: seq<seq<u16>>, h: u16): (r: Option<(nat, nat)>)
    ensures r.Some? ==> r.value.0 < |table| && r.value.1 < |table[r.value.0]| && table[r.value.0][r.value.1] == h
    ensures r.Some? ==> (forall m | 0 <= m < r.value.0 :: h !in table[m]) &&
                        (forall j | 0 <= j < r.value.1 :: table[r.value.0][j] != h)
    ensures r.None? <==> forall m | 0 <= m < |table| :: h !in table[m]
  {
    LocateFrom(table, h, 0)
  }

  /** find_primary and find_characteristic: 0 when the handle lies in [start, end], -1 otherwise. */
  function RangeCmp(start: u16, end: u16, h: u16): (r: int)
    ensures r == 0 <==> start <= h <= end
    ensures r == 0 || r == -1
  {
    if h < start then -1
    else if h > end then -1
    else 0
  }

  /** g_slist_find_custom with a range comparator: the first range containing the handle. */
  function FindRange(ranges: seq<(u16, u16)>, h: u16): (r: Option<nat>)
    ensures r.Some? ==> r.value < |ranges| && ranges[r.value].0 <= h <= ranges[r.value].1
    ensures r.Some? ==> forall k | 0 <= k < r.value :: !(ranges[k].0 <= h <= ranges[k].1)
    ensures r.None? ==> forall k | 0 <= k < |ranges| :: !(ranges[k].0 <= h <= ranges[k].1)
  {
    if ranges == [] then None
    else if RangeCmp(ranges[0].0, ranges[0].1, h) == 0 then Some(0)
    else match FindRange(ranges[1..], h)
      case None => None
      case Some(k) => Some(k + 1)
  }

  /** g_strcmp0 on two strings: the sign of their first difference, a proper prefix ordering first. */
  function StrCmp(a: string, b: string): (r: int)
    ensures r == 0 <==> a == b
    ensures -1 <= r <= 1
  {
    if a == [] && b == [] then 0
    else if a == [] then -1
    else if b == [] then 1
    else if a[0] < b[0] then -1
    else if a[0] > b[0] then 1
    else
      var r := StrCmp(a[1..], b[1..]);
      assert a == [a[0]] + a[1..] && b == [b[0]] + b[1..];
      r
  }

  lemma {:induction false} StrCmpAntisymmetric(a: string, b: string)
    ensures StrCmp(a, b) == -StrCmp(b, a)
  {
    if a != [] && b != [] && a[0] == b[0] {
      StrCmpAntisymmetric(a[1..], b[1..]);
    }
  }

  /** watcher_cmp: by D-Bus name first, then by object path. */
  function WatcherCmp(name: string, path: string, name': string, path': string): (r: int)
    ensures r == 0 <==> name == name' && path == path'
  {
    var byName := StrCmp(name, name');
    if byName != 0 then byName else StrCmp(path, path')
  }

  lemma WatcherCmpAntisymmetric(name: string, path: string, name': string, path': string)
    ensures WatcherCmp(name, path, name', path') == -WatcherCmp(name', path', name, path)
  {
    StrCmpAntisymmetric(name, name');
    StrCmpAntisymmetric(path, path');
  }

  /** g_slist_find_custom(watchers, match, watcher_cmp): the first watcher with that name and path. */
  function FindWatcher(keys: seq<(string, string)>, name: string, path: string): (r: Option<nat>)
    ensures r.Some? ==> r.value < |keys| && keys[r.value] == (name, path)
    ensures r.Some? ==> forall k | 0 <= k < r.value :: keys[k] != (name, path)
    ensures r.None? <==> (name, path) !in keys
  {
    if keys == [] then None
    else if WatcherCmp(keys[0].0, keys[0].1, name, path) == 0 then Some(0)
    else match FindWatcher(keys[1..], name, path)
      case None => None
      case Some(k) => Some(k + 1)
  }

  /** g_slist_remove: the list without the first occurrence of x, unchanged when x is absent. */
  function RemoveFirst<T(==)>(s: seq<T>, x: T): (r: seq<T>)
    ensures x !in s ==> r == s
    ensures x in s ==> |r| == |s| - 1
  {
    if s == [] then []
    else if s[0] == x then s[1..]
    else [s[0]] + RemoveFirst(s[1..], x)
  }

  /** Exactly one occurrence of x goes, and nothing else: the multiset of elements loses one x. */
  lemma {:induction false} RemoveFirstMultiset<T>(s: seq<T>, x: T)
    ensures multiset(RemoveFirst(s, x)) == multiset(s) - multiset{x}
  {
    if s != [] {
      assert s == [s[0]] + s[1..];
      if s[0] != x {
        RemoveFirstMultiset(s[1..], x);
      }
    }
  }

  /** Removing the element at its first position keeps every other element, in order. */
  lemma {:induction false} RemoveFirstAt<T>(s: seq<T>, i: nat)
    requires i < |s| && forall k | 0 <= k < i :: s[k] != s[i]
    ensures RemoveFirst(s, s[i]) == s[..i] + s[i + 1..]
  {
    if i > 0 {
      var t := s[1..];
      assert t[i - 1] == s[i];
      assert s[0] != s[i];
      forall k | 0 <= k < i - 1 ensures t[k] != t[i - 1] {
        assert t[k] == s[k + 1];
      }
      RemoveFirstAt(t, i - 1);
      assert RemoveFirst(s, s[i]) == [s[0]] + RemoveFirst(t, s[i]);
      assert t[..i - 1] == s[1..i];
      assert t[i..] == s[i + 1..];
      assert [s[0]] + s[1..i] == s[..i];
    }
  }
}
