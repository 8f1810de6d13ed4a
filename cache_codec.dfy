/**
 * The persisted structure cache (attrib/client.c): primary services are
 * stored as "%04X#%04X#<uuid> " tokens and characteristics as
 * "%04X#%02X#%04X#<uuid> " tokens, and both are read back with g_strsplit
 * and sscanf, skipping every token that does not yield all of its fields.
 * A UUID is carried here as the text its formatter wrote.
 */
module CacheCodec {
  import opened Bytes
  import opened Wrappers
  import opened Scan

  /** What one cached service records: its handle range and its UUID text. */
  datatype PrimaryEntry = PrimaryEntry(start: u16, end: u16, uuid: string)

  /** What one cached characteristic records: value handle, properties, end handle, UUID text. */
  datatype CharEntry = CharEntry(handle: u16, perm: byte, end: u16, uuid: string)

  /** Text sscanf's %s reads back whole, up to the separator: non-empty and without white space. */
  predicate IsWord(s: string) {
    s != [] && forall k | 0 <= k < |s| :: !IsSpace(s[k])
  }

  // ---------------------------------------------------------------- writing

  /** One service as primary_list_to_string prints it, without its trailing space. */
  function PrimaryBody(p: PrimaryEntry): string {
    Hex4(p.start) + "#" + Hex4(p.end) + "#" + p.uuid
  }

  /** One characteristic as characteristic_list_to_string prints it, without its trailing space. */
  function CharBody(c: CharEntry): string {
    Hex4(c.handle) + "#" + Hex2(c.perm) + "#" + Hex4(c.end) + "#" + c.uuid
  }

  /** The whole service list: every token followed by one space. */
  function FormatPrimaries(ps: seq<PrimaryEntry>): string {
    if ps == [] then "" else PrimaryBody(ps[0]) + " " + FormatPrimaries(ps[1..])
  }

  /** The whole characteristic list: every token followed by one space. */
  function FormatChars(cs: seq<CharEntry>): string {
    if cs == [] then "" else CharBody(cs[0]) + " " + FormatChars(cs[1..])
  }

  /** primary_list_to_string: one token per service, appended in list order. */
  method PrimaryListToString(ps: seq<PrimaryEntry>) returns (s: string)
    ensures s == FormatPrimaries(ps)
  {
    s := "";
    for i := 0 to |ps|
      invariant s == FormatPrimaries(ps[..i])
    {
      FormatPrimariesPrefix(ps, i);
      s := s + PrimaryBody(ps[i]) + " ";
    }
    assert ps[..|ps|] == ps;
  }

  /** characteristic_list_to_string: one token per characteristic, appended in list order. */
  method CharacteristicListToString(cs: seq<CharEntry>) returns (s: string)
    ensures s == FormatChars(cs)
  {
    s := "";
    for i := 0 to |cs|
      invariant s == FormatChars(cs[..i])
    {
      FormatCharsPrefix(cs, i);
      s := s + CharBody(cs[i]) + " ";
    }
    assert cs[..|cs|] == cs;
  }

  lemma ConcatAssoc(a: string, b: string, c: string)
    ensures a + (b + c) == a + b + c
  {
  }

  lemma FormatPrimariesPrefix(ps: seq<PrimaryEntry>, i: nat)
    requires i < |ps|
    ensures FormatPrimaries(ps[..i + 1]) == FormatPrimaries(ps[..i]) + PrimaryBody(ps[i]) + " "
  {
    assert ps[..i + 1] == ps[..i] + [ps[i]];
    FormatPrimariesSnoc(ps[..i], ps[i]);
  }

  lemma FormatCharsPrefix(cs: seq<CharEntry>, i: nat)
    requires i < |cs|
    ensures FormatChars(cs[..i + 1]) == FormatChars(cs[..i]) + CharBody(cs[i]) + " "
  {
    assert cs[..i + 1] == cs[..i] + [cs[i]];
    FormatCharsSnoc(cs[..i], cs[i]);
  }

  lemma {:induction false} FormatPrimariesSnoc(ps: seq<PrimaryEntry>, p: PrimaryEntry)
    ensures FormatPrimaries(ps + [p]) == FormatPrimaries(ps) + PrimaryBody(p) + " "
  {
    if ps == [] {
      assert [p][1..] == [];
    } else {
      var t, head := ps[1..], PrimaryBody(ps[0]) + " ";
      assert (ps + [p])[1..] == t + [p];
      assert FormatPrimaries(ps + [p]) == head + FormatPrimaries(t + [p]);
      assert FormatPrimaries(ps) == head + FormatPrimaries(t);
      FormatPrimariesSnoc(t, p);
      ConcatAssoc(FormatPrimaries(t), PrimaryBody(p), " ");
      ConcatAssoc(head, FormatPrimaries(t), PrimaryBody(p) + " ");
      ConcatAssoc(FormatPrimaries(ps), PrimaryBody(p), " ");
    }
  }

  lemma {:induction false} FormatCharsSnoc(cs: seq<CharEntry>, c: CharEntry)
    ensures FormatChars(cs + [c]) == FormatChars(cs) + CharBody(c) + " "
  {
    if cs == [] {
      assert [c][1..] == [];
    } else {
      var t, head := cs[1..], CharBody(cs[0]) + " ";
      assert (cs + [c])[1..] == t + [c];
      assert FormatChars(cs + [c]) == head + FormatChars(t + [c]);
      assert FormatChars(cs) == head + FormatChars(t);
      FormatCharsSnoc(t, c);
      ConcatAssoc(FormatChars(t), CharBody(c), " ");
      ConcatAssoc(head, FormatChars(t), CharBody(c) + " ");
      ConcatAssoc(FormatChars(cs), CharBody(c), " ");
    }
  }

  // ---------------------------------------------------------------- reading

  /**
   * g_strsplit(s, " ", 0) on a non-empty string: the pieces between single
   * spaces, empty pieces included.
   */
  function Pieces(s: string): (r: seq<string>)
    ensures |r| > 0
  {
    if s == [] then [""]
    else if s[0] == ' ' then [""] + Pieces(s[1..])
    else var r := Pieces(s[1..]); [[s[0]] + r[0]] + r[1..]
  }

  /** g_strsplit(s, " ", 0): the empty string splits into no piece at all. */
  function Split(s: string): seq<string> {
    if s == [] then [] else Pieces(s)
  }

  /** A '#' at position i followed by a hex field of at most w digits. */
  function HexAfterHash(t: string, i: nat, w: nat): (r: Option<Field<nat>>)
    ensures r.Some? ==> i < r.value.next <= |t|
    ensures r.Some? && w <= 2 ==> r.value.value < 0x100
    ensures r.Some? && w <= 4 ==> r.value.value < 0x1_0000
  {
    if Literal(t, i, '#') then ScanHex(t, i + 1, w) else None
  }

  /** A '#' at position i followed by a %s word, which may run to the end of the token. */
  function WordAfterHash(t: string, i: nat): (r: Option<Field<string>>)
    ensures r.Some? ==> r.value.value != []
  {
    if Literal(t, i, '#') then ScanWord(t, i + 1, |t|) else None
  }

  /** sscanf(t, "%04hX#%04hX#%s", ...) == 3: start, end and UUID text of one service token. */
  function ParsePrimaryToken(t: string): Option<PrimaryEntry> {
    var start := ScanHex(t, 0, 4);
    if start.None? then None else
    var end := HexAfterHash(t, start.value.next, 4);
    if end.None? then None else
    var uuid := WordAfterHash(t, end.value.next);
    if uuid.None? then None else
    Some(PrimaryEntry(start.value.value, end.value.value, uuid.value.value))
  }

  /** sscanf(t, "%04hX#%02hhX#%04hX#%s", ...) == 4: the four fields of one characteristic token. */
  function ParseCharToken(t: string): Option<CharEntry> {
    var handle := ScanHex(t, 0, 4);
    if handle.None? then None else
    var perm := HexAfterHash(t, handle.value.next, 2);
    if perm.None? then None else
    var end := HexAfterHash(t, perm.value.next, 4);
    if end.None? then None else
    var uuid := WordAfterHash(t, end.value.next);
    if uuid.None? then None else
    Some(CharEntry(handle.value.value, perm.value.value, end.value.value, uuid.value.value))
  }

  /** The services of a token list, in order, with the malformed tokens left out. */
  function ParsePrimaries(toks: seq<string>): seq<PrimaryEntry> {
    if toks == [] then [] else Present(ParsePrimaryToken(toks[0])) + ParsePrimaries(toks[1..])
  }

  /** The characteristics of a token list, in order, with the malformed tokens left out. */
  function ParseChars(toks: seq<string>): seq<CharEntry> {
    if toks == [] then [] else Present(ParseCharToken(toks[0])) + ParseChars(toks[1..])
  }

  function ParsePrimaryList(s: string): seq<PrimaryEntry> {
    ParsePrimaries(Split(s))
  }

  function ParseCharList(s: string): seq<CharEntry> {
    ParseChars(Split(s))
  }

  /** string_to_primary_list: NULL gives the empty list; otherwise one service per well-formed token. */
  method StringToPrimaryList(str: Option<string>) returns (l: seq<PrimaryEntry>)
    ensures l == if str.None? then [] else ParsePrimaryList(str.value)
  {
    l := [];
    if str.None? {
      return;
    }
    var toks := Split(str.value);
    for i := 0 to |toks|
      invariant l == ParsePrimaries(toks[..i])
    {
      var p := ParsePrimaryToken(toks[i]);
      ParsePrimariesPrefix(toks, i);
      if p.Some? {
        l := l + [p.value];
      }
    }
    assert toks[..|toks|] == toks;
  }

  /** string_to_characteristic_list: NULL gives the empty list; otherwise one characteristic per well-formed token. */
  method StringToCharacteristicList(str: Option<string>) returns (l: seq<CharEntry>)
    ensures l == if str.None? then [] else ParseCharList(str.value)
  {
    l := [];
    if str.None? {
      return;
    }
    var toks := Split(str.value);
    for i := 0 to |toks|
      invariant l == ParseChars(toks[..i])
    {
      var c := ParseCharToken(toks[i]);
      ParseCharsPrefix(toks, i);
      if c.Some? {
        l := l + [c.value];
      }
    }
    assert toks[..|toks|] == toks;
  }

  // ---------------------------------------------------------------- laws

  /** Parsing a token list is parsing its parts: no token affects another. */
  lemma {:induction false} ParsePrimariesConcat(a: seq<string>, b: seq<string>)
    ensures ParsePrimaries(a + b) == ParsePrimaries(a) + ParsePrimaries(b)
  {
    if a == [] {
      assert a + b == b;
    } else {
      var head := Present(ParsePrimaryToken(a[0]));
      assert (a + b)[0] == a[0];
      assert (a + b)[1..] == a[1..] + b;
      assert ParsePrimaries(a + b) == head + ParsePrimaries(a[1..] + b);
      ParsePrimariesConcat(a[1..], b);
    }
  }

  lemma {:induction false} ParseCharsConcat(a: seq<string>, b: seq<string>)
    ensures ParseChars(a + b) == ParseChars(a) + ParseChars(b)
  {
    if a == [] {
      assert a + b == b;
    } else {
      var head := Present(ParseCharToken(a[0]));
      assert (a + b)[0] == a[0];
      assert (a + b)[1..] == a[1..] + b;
      assert ParseChars(a + b) == head + ParseChars(a[1..] + b);
      ParseCharsConcat(a[1..], b);
    }
  }

  /** A service token that does not yield all three fields is skipped, not an error. */
  lemma MalformedPrimarySkipped(a: seq<string>, t: string, b: seq<string>)
    requires ParsePrimaryToken(t).None?
    ensures ParsePrimaries(a + [t] + b) == ParsePrimaries(a) + ParsePrimaries(b)
  {
    ParsePrimariesConcat(a + [t], b);
    ParsePrimariesConcat(a, [t]);
  }

  /** A characteristic token that does not yield all four fields is skipped, not an error. */
  lemma MalformedCharSkipped(a: seq<string>, t: string, b: seq<string>)
    requires ParseCharToken(t).None?
    ensures ParseChars(a + [t] + b) == ParseChars(a) + ParseChars(b)
  {
    ParseCharsConcat(a + [t], b);
    ParseCharsConcat(a, [t]);
  }

  /** The empty piece after the final separator is no token. */
  lemma EmptyPieceIsNoToken()
    ensures ParsePrimaryToken("").None? && ParseCharToken("").None?
  {
    assert SkipSpace("", 0) == 0;
    assert HexRun("", 0, 4) == 0;
  }

  /** A token whose UUID field is missing or blank gives no service. */
  lemma {:induction false} PrimaryTokenNeedsUuid(start: u16, end: u16, tail: string)
    requires forall k | 0 <= k < |tail| :: IsSpace(tail[k])
    ensures ParsePrimaryToken(Hex4(start) + "#" + Hex4(end)).None?
    ensures ParsePrimaryToken(Hex4(start) + "#" + Hex4(end) + "#" + tail).None?
  {
    var short := Hex4(start) + "#" + Hex4(end);
    PrimaryHeadScans(short, start, end);
    assert !Literal(short, 9, '#');
    var t := Hex4(start) + "#" + Hex4(end) + "#" + tail;
    PrimaryHeadScans(t, start, end);
    assert t[9] == '#';
    BlankHasNoWord(t, 10);
  }

  /** A token whose UUID field is missing or blank gives no characteristic. */
  lemma {:induction false} CharTokenNeedsUuid(handle: u16, perm: byte, end: u16, tail: string)
    requires forall k | 0 <= k < |tail| :: IsSpace(tail[k])
    ensures ParseCharToken(Hex4(handle) + "#" + Hex2(perm) + "#" + Hex4(end)).None?
    ensures ParseCharToken(Hex4(handle) + "#" + Hex2(perm) + "#" + Hex4(end) + "#" + tail).None?
  {
    var short := Hex4(handle) + "#" + Hex2(perm) + "#" + Hex4(end);
    CharHeadScans(short, handle, perm, end);
    assert !Literal(short, 12, '#');
    var t := Hex4(handle) + "#" + Hex2(perm) + "#" + Hex4(end) + "#" + tail;
    CharHeadScans(t, handle, perm, end);
    assert t[12] == '#';
    BlankHasNoWord(t, 13);
  }

  lemma BlankHasNoWord(t: string, i: nat)
    requires i <= |t|
    requires forall k | i <= k < |t| :: IsSpace(t[k])
    ensures ScanWord(t, i, |t|).None?
  {
    var j := SkipSpace(t, i);
    assert j == |t|;
  }

  /** The two handle fields of a service token scan back to the handles written. */
  lemma PrimaryHeadScans(t: string, start: u16, end: u16)
    requires |t| >= 9 && t[..9] == Hex4(start) + "#" + Hex4(end)
    ensures ScanHex(t, 0, 4) == Some(Field(start as nat, 4))
    ensures Literal(t, 4, '#')
    ensures ScanHex(t, 5, 4) == Some(Field(end as nat, 9))
  {
    Hex4Digits(start);
    Hex4Digits(end);
    assert t[0..4] == Hex4(start);
    assert t[5..9] == Hex4(end);
    ScanHexDigits(t, 0, Hex4(start));
    ScanHexDigits(t, 5, Hex4(end));
    assert t[4] == (Hex4(start) + "#" + Hex4(end))[4];
  }

  /** The three numeric fields of a characteristic token scan back to the values written. */
  lemma CharHeadScans(t: string, handle: u16, perm: byte, end: u16)
    requires |t| >= 12 && t[..12] == Hex4(handle) + "#" + Hex2(perm) + "#" + Hex4(end)
    ensures ScanHex(t, 0, 4) == Some(Field(handle as nat, 4))
    ensures Literal(t, 4, '#')
    ensures ScanHex(t, 5, 2) == Some(Field(perm as nat, 7))
    ensures Literal(t, 7, '#')
    ensures ScanHex(t, 8, 4) == Some(Field(end as nat, 12))
  {
    var head := Hex4(handle) + "#" + Hex2(perm) + "#" + Hex4(end);
    Hex4Digits(handle);
    Hex2Digits(perm);
    Hex4Digits(end);
    assert head[5..7] == Hex2(perm);
    assert head[8..12] == Hex4(end);
    assert t[0..4] == Hex4(handle);
    assert t[5..7] == Hex2(perm);
    assert t[8..12] == Hex4(end);
    ScanHexDigits(t, 0, Hex4(handle));
    ScanHexDigits(t, 5, Hex2(perm));
    ScanHexDigits(t, 8, Hex4(end));
    assert t[4] == head[4] && t[7] == head[7];
  }

  lemma PrimaryBodyParses(p: PrimaryEntry)
    requires IsWord(p.uuid)
    ensures ParsePrimaryToken(PrimaryBody(p)) == Some(p)
  {
    var t := PrimaryBody(p);
    assert t[..9] == Hex4(p.start) + "#" + Hex4(p.end);
    PrimaryHeadScans(t, p.start, p.end);
    assert t[9] == '#';
    assert t[10..10 + |p.uuid|] == p.uuid;
    ScanWordExact(t, 10, p.uuid, |t|);
  }

  lemma CharBodyParses(c: CharEntry)
    requires IsWord(c.uuid)
    ensures ParseCharToken(CharBody(c)) == Some(c)
  {
    var t := CharBody(c);
    assert t[..12] == Hex4(c.handle) + "#" + Hex2(c.perm) + "#" + Hex4(c.end);
    CharHeadScans(t, c.handle, c.perm, c.end);
    assert t[12] == '#';
    assert t[13..13 + |c.uuid|] == c.uuid;
    ScanWordExact(t, 13, c.uuid, |t|);
  }

  /** Splitting at the first space after a piece without spaces yields that piece first. */
  lemma {:induction false} PiecesAfterWord(w: string, rest: string)
    requires forall k | 0 <= k < |w| :: w[k] != ' '
    ensures Pieces(w + " " + rest) == [w] + Pieces(rest)
  {
    if w == [] {
      assert w + " " + rest == [' '] + rest;
    } else {
      assert (w + " " + rest)[1..] == w[1..] + " " + rest;
      PiecesAfterWord(w[1..], rest);
      assert [w[0]] + w[1..] == w;
    }
  }

  /** The tokens written for a service list, without separators. */
  function PrimaryBodies(ps: seq<PrimaryEntry>): (r: seq<string>)
    ensures |r| == |ps|
  {
    if ps == [] then [] else [PrimaryBody(ps[0])] + PrimaryBodies(ps[1..])
  }

  /** The tokens written for a characteristic list, without separators. */
  function CharBodies(cs: seq<CharEntry>): (r: seq<string>)
    ensures |r| == |cs|
  {
    if cs == [] then [] else [CharBody(cs[0])] + CharBodies(cs[1..])
  }

  lemma PrimaryBodyHasNoSpace(p: PrimaryEntry)
    requires IsWord(p.uuid)
    ensures forall k | 0 <= k < |PrimaryBody(p)| :: PrimaryBody(p)[k] != ' '
  {
    Hex4Digits(p.start);
    Hex4Digits(p.end);
    var b := PrimaryBody(p);
    forall k | 0 <= k < |b| ensures b[k] != ' ' {
      if k >= 10 {
        assert b[k] == p.uuid[k - 10];
      } else if k >= 5 {
        assert b[k] == (Hex4(p.end) + "#")[k - 5];
      } else {
        assert b[k] == (Hex4(p.start) + "#")[k];
      }
    }
  }

  lemma CharBodyHasNoSpace(c: CharEntry)
    requires IsWord(c.uuid)
    ensures forall k | 0 <= k < |CharBody(c)| :: CharBody(c)[k] != ' '
  {
    Hex4Digits(c.handle);
    Hex2Digits(c.perm);
    Hex4Digits(c.end);
    var b := CharBody(c);
    forall k | 0 <= k < |b| ensures b[k] != ' ' {
      if k >= 13 {
        assert b[k] == c.uuid[k - 13];
      } else if k >= 8 {
        assert b[k] == (Hex4(c.end) + "#")[k - 8];
      } else if k >= 5 {
        assert b[k] == (Hex2(c.perm) + "#")[k - 5];
      } else {
        assert b[k] == (Hex4(c.handle) + "#")[k];
      }
    }
  }

  /** The pieces of a written service list are its tokens, then the empty piece after the last space. */
  lemma {:induction false} PiecesOfPrimaries(ps: seq<PrimaryEntry>)
    requires forall k | 0 <= k < |ps| :: IsWord(ps[k].uuid)
    ensures Pieces(FormatPrimaries(ps)) == PrimaryBodies(ps) + [""]
  {
    if ps != [] {
      PrimaryBodyHasNoSpace(ps[0]);
      PiecesAfterWord(PrimaryBody(ps[0]), FormatPrimaries(ps[1..]));
      PiecesOfPrimaries(ps[1..]);
    }
  }

  /** The pieces of a written characteristic list are its tokens, then the empty piece after the last space. */
  lemma {:induction false} PiecesOfChars(cs: seq<CharEntry>)
    requires forall k | 0 <= k < |cs| :: IsWord(cs[k].uuid)
    ensures Pieces(FormatChars(cs)) == CharBodies(cs) + [""]
  {
    if cs != [] {
      CharBodyHasNoSpace(cs[0]);
      PiecesAfterWord(CharBody(cs[0]), FormatChars(cs[1..]));
      PiecesOfChars(cs[1..]);
    }
  }

  /** Reading one more token extends the result by what that token yields. */
  lemma ParsePrimariesPrefix(toks: seq<string>, i: nat)
    requires i < |toks|
    ensures ParsePrimaries(toks[..i + 1]) == ParsePrimaries(toks[..i]) + Present(ParsePrimaryToken(toks[i]))
  {
    assert toks[..i + 1] == toks[..i] + [toks[i]];
    ParsePrimariesConcat(toks[..i], [toks[i]]);
    ParsePrimariesCons(toks[i], []);
    assert [toks[i]] + [] == [toks[i]];
  }

  lemma ParsePrimariesCons(t: string, toks: seq<string>)
    ensures ParsePrimaries([t] + toks) == Present(ParsePrimaryToken(t)) + ParsePrimaries(toks)
  {
    assert ([t] + toks)[1..] == toks;
  }

  /** Reading one more token extends the result by what that token yields. */
  lemma ParseCharsPrefix(toks: seq<string>, i: nat)
    requires i < |toks|
    ensures ParseChars(toks[..i + 1]) == ParseChars(toks[..i]) + Present(ParseCharToken(toks[i]))
  {
    assert toks[..i + 1] == toks[..i] + [toks[i]];
    ParseCharsConcat(toks[..i], [toks[i]]);
    ParseCharsCons(toks[i], []);
    assert [toks[i]] + [] == [toks[i]];
  }

  lemma ParseCharsCons(t: string, toks: seq<string>)
    ensures ParseChars([t] + toks) == Present(ParseCharToken(t)) + ParseChars(toks)
  {
    assert ([t] + toks)[1..] == toks;
  }

  lemma {:induction false} ParseWrittenPrimaries(ps: seq<PrimaryEntry>)
    requires forall k | 0 <= k < |ps| :: IsWord(ps[k].uuid)
    ensures ParsePrimaries(PrimaryBodies(ps)) == ps
  {
    if ps != [] {
      var rest := PrimaryBodies(ps[1..]);
      assert PrimaryBodies(ps) == [PrimaryBody(ps[0])] + rest;
      ParsePrimariesCons(PrimaryBody(ps[0]), rest);
      PrimaryBodyParses(ps[0]);
      ParseWrittenPrimaries(ps[1..]);
      assert [ps[0]] + ps[1..] == ps;
    }
  }

  lemma {:induction false} ParseWrittenChars(cs: seq<CharEntry>)
    requires forall k | 0 <= k < |cs| :: IsWord(cs[k].uuid)
    ensures ParseChars(CharBodies(cs)) == cs
  {
    if cs != [] {
      var rest := CharBodies(cs[1..]);
      assert CharBodies(cs) == [CharBody(cs[0])] + rest;
      ParseCharsCons(CharBody(cs[0]), rest);
      CharBodyParses(cs[0]);
      ParseWrittenChars(cs[1..]);
      assert [cs[0]] + cs[1..] == cs;
    }
  }

  /**
   * Writing a service list and reading it back gives the same start, end and
   * UUID text for every service, in the same order.
   */
  lemma PrimaryListRoundTrip(ps: seq<PrimaryEntry>)
    requires forall k | 0 <= k < |ps| :: IsWord(ps[k].uuid)
    ensures ParsePrimaryList(FormatPrimaries(ps)) == ps
  {
    if ps != [] {
      PiecesOfPrimaries(ps);
      ParsePrimariesConcat(PrimaryBodies(ps), [""]);
      EmptyPieceIsNoToken();
      ParseWrittenPrimaries(ps);
    }
  }

  /**
   * Writing a characteristic list and reading it back gives the same handle,
   * properties, end handle and UUID text for every element, in the same order.
   */
  lemma CharListRoundTrip(cs: seq<CharEntry>)
    requires forall k | 0 <= k < |cs| :: IsWord(cs[k].uuid)
    ensures ParseCharList(FormatChars(cs)) == cs
  {
    if cs != [] {
      PiecesOfChars(cs);
      ParseCharsConcat(CharBodies(cs), [""]);
      EmptyPieceIsNoToken();
      ParseWrittenChars(cs);
    }
  }
}
