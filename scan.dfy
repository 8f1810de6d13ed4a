/**
 * The sscanf directives the cache loaders use, one function per directive:
 * each reads a string from an index and returns what it stored and where it
 * stopped, or None when the conversion fails (and sscanf stops counting).
 */
module Scan {
  import opened Bytes
  import opened Wrappers

  /** What one conversion stored and the index of the first character it did not consume. */
  datatype Field<T> = Field(value: T, next: nat)

  /** sscanf skips white space before a numeric or %s conversion. */
  function SkipSpace(t: string, i: nat): (j: nat)
    requires i <= |t|
    ensures i <= j <= |t|
    ensures forall k | i <= k < j :: IsSpace(t[k])
    ensures j < |t| ==> !IsSpace(t[j])
    decreases |t| - i
  {
    if i < |t| && IsSpace(t[i]) then SkipSpace(t, i + 1) else i
  }

  /** Length of the run of hexadecimal digits that starts at i, cut at w. */
  function HexRun(t: string, i: nat, w: nat): (n: nat)
    requires i <= |t|
    ensures n <= w && i + n <= |t|
    ensures forall k | i <= k < i + n :: IsHexDigit(t[k])
    ensures n < w && i + n < |t| ==> !IsHexDigit(t[i + n])
    decreases w
  {
    if w == 0 || i == |t| || !IsHexDigit(t[i]) then 0 else 1 + HexRun(t, i + 1, w - 1)
  }

  /** Length of the run of characters other than white space that starts at i, cut at w. */
  function WordRun(t: string, i: nat, w: nat): (n: nat)
    requires i <= |t|
    ensures n <= w && i + n <= |t|
    ensures forall k | i <= k < i + n :: !IsSpace(t[k])
    ensures n < w && i + n < |t| ==> IsSpace(t[i + n])
    decreases w
  {
    if w == 0 || i == |t| || IsSpace(t[i]) then 0 else 1 + WordRun(t, i + 1, w - 1)
  }

  /** The number that the n hexadecimal digits at t[j..j + n] denote. */
  function HexNumberAt(t: string, j: nat, n: nat): nat
    requires j + n <= |t|
    requires forall k | j <= k < j + n :: IsHexDigit(t[k])
  {
    if n == 0 then 0 else 16 * HexNumberAt(t, j, n - 1) + HexValue(t[j + n - 1])
  }

  /** "%<w>hX": white space, then one to w hexadecimal digits. */
  function ScanHex(t: string, i: nat, w: nat): (r: Option<Field<nat>>)
    requires i <= |t|
    ensures r.Some? ==> i < r.value.next <= |t|
    ensures r.Some? && w <= 2 ==> r.value.value < 0x100
    ensures r.Some? && w <= 4 ==> r.value.value < 0x1_0000
  {
    var j := SkipSpace(t, i);
    var n := HexRun(t, j, w);
    if n == 0 then None
    else
      HexNumberAtBound(t, j, n);
      Some(Field(HexNumberAt(t, j, n), j + n))
  }

  lemma HexNumberAtBound(t: string, j: nat, n: nat)
    requires j + n <= |t|
    requires forall k | j <= k < j + n :: IsHexDigit(t[k])
    ensures n <= 2 ==> HexNumberAt(t, j, n) < 0x100
    ensures n <= 4 ==> HexNumberAt(t, j, n) < 0x1_0000
  {
    if n > 0 {
      HexNumberAtBound(t, j, n - 1);
      if n == 3 {
        HexNumberAtBound(t, j, 1);
      }
    }
  }

  /** "%<w>s": white space, then one to w characters that are not white space. */
  function ScanWord(t: string, i: nat, w: nat): (r: Option<Field<string>>)
    requires i <= |t|
    ensures r.Some? ==> i < r.value.next <= |t| && r.value.value != []
  {
    var j := SkipSpace(t, i);
    var n := WordRun(t, j, w);
    if n == 0 then None else Some(Field(t[j..j + n], j + n))
  }

  /** An ordinary character of the format must be the next character of the input. */
  predicate Literal(t: string, i: nat, c: char) {
    i < |t| && t[i] == c
  }

  lemma HexRunAll(t: string, i: nat, w: nat)
    requires i + w <= |t|
    requires forall k | i <= k < i + w :: IsHexDigit(t[k])
    ensures HexRun(t, i, w) == w
    decreases w
  {
    if w > 0 {
      HexRunAll(t, i + 1, w - 1);
    }
  }

  lemma WordRunAll(t: string, i: nat, n: nat, w: nat)
    requires i + n <= |t| && n <= w
    requires forall k | i <= k < i + n :: !IsSpace(t[k])
    requires n == w || i + n == |t| || IsSpace(t[i + n])
    ensures WordRun(t, i, w) == n
    decreases n
  {
    if n > 0 {
      WordRunAll(t, i + 1, n - 1, w - 1);
    }
  }

  /** A field of exactly w digits, as "%0<w>X" writes it, scans back to its number. */
  lemma ScanHexDigits(t: string, i: nat, d: string)
    requires i + |d| <= |t| && t[i..i + |d|] == d && d != []
    requires AllHex(d)
    ensures ScanHex(t, i, |d|) == Some(Field(HexNumber(d), i + |d|))
  {
    HexRunOfCopy(t, i, d);
    assert IsHexDigit(t[i]);
    assert SkipSpace(t, i) == i;
    HexNumberOfCopy(t, i, d);
    assert ScanHex(t, i, |d|) == Some(Field(HexNumberAt(t, i, |d|), i + |d|));
  }

  lemma HexRunOfCopy(t: string, i: nat, d: string)
    requires i + |d| <= |t| && t[i..i + |d|] == d && AllHex(d)
    ensures forall k | i <= k < i + |d| :: IsHexDigit(t[k])
    ensures HexRun(t, i, |d|) == |d|
  {
    forall k | i <= k < i + |d| ensures IsHexDigit(t[k]) {
      assert t[k] == d[k - i];
    }
    HexRunAll(t, i, |d|);
  }

  lemma HexNumberOfCopy(t: string, i: nat, d: string)
    requires i + |d| <= |t| && t[i..i + |d|] == d && AllHex(d)
    requires forall k | i <= k < i + |d| :: IsHexDigit(t[k])
    ensures HexNumberAt(t, i, |d|) == HexNumber(d)
    decreases |d|
  {
    if d != [] {
      var p := d[..|d| - 1];
      assert t[i..i + |p|] == p;
      HexNumberOfCopy(t, i, p);
      assert t[i + |d| - 1] == d[|d| - 1];
    }
  }

  /** A word that ends at the width, at white space or at the end scans back whole. */
  lemma ScanWordExact(t: string, i: nat, s: string, w: nat)
    requires i + |s| <= |t| && t[i..i + |s|] == s && s != [] && |s| <= w
    requires forall k | 0 <= k < |s| :: !IsSpace(s[k])
    requires |s| == w || i + |s| == |t| || IsSpace(t[i + |s|])
    ensures ScanWord(t, i, w) == Some(Field(s, i + |s|))
  {
    assert !IsSpace(t[i]) by {
      assert t[i] == s[0];
    }
    assert SkipSpace(t, i) == i;
    forall k | i <= k < i + |s| ensures !IsSpace(t[k]) {
      assert t[k] == s[k - i];
    }
    WordRunAll(t, i, |s|, w);
  }
}
