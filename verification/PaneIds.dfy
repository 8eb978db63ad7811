/** Pane identifiers. Terminals, plugins and files share one space of strings, told apart by a prefix; a file
    identifier is percent-encoded (section 2.1 of RFC 3986) from its UTF-8 bytes. Characters are Unicode
    scalar values. */
module PaneIds {
  import opened Wrappers

  const SESSION_PANE_PREFIX := "session:"
  const PLUGIN_PANE_PREFIX := "plugin:"
  const FILE_PANE_PREFIX := "file:"

  datatype PaneId =
    | SessionPane(id: string)
    | PluginPane(id: string)
    | FilePane(id: string)
    | Unknown(id: string)

  function SessionPaneId(sessionId: string): string {
    SESSION_PANE_PREFIX + sessionId
  }

  function PluginPaneId(tabId: string): string {
    PLUGIN_PANE_PREFIX + tabId
  }

  function FilePaneId(tabId: string): string {
    FILE_PANE_PREFIX + EncodeUriComponent(tabId)
  }

  function ParsePaneId(leaf: string): PaneId {
    if SESSION_PANE_PREFIX <= leaf then SessionPane(leaf[|SESSION_PANE_PREFIX|..])
    else if PLUGIN_PANE_PREFIX <= leaf then PluginPane(leaf[|PLUGIN_PANE_PREFIX|..])
    else if FILE_PANE_PREFIX <= leaf then
      match DecodeUriComponent(leaf[|FILE_PANE_PREFIX|..])
      case Some(id) => FilePane(id)
      case None => Unknown(leaf)
    else Unknown(leaf)
  }

  // ----- Percent-encoding -----

  type Byte = b: nat | b < 256

  predicate Unreserved(c: char) {
    'A' <= c <= 'Z' || 'a' <= c <= 'z' || '0' <= c <= '9' || c in "-_.!~*'()"
  }

  function HexDigit(n: nat): char
    requires n < 16
  {
    if n < 10 then ('0' as nat + n) as char else ('A' as nat + n - 10) as char
  }

  /** Either case is accepted when decoding. */
  function HexValue(c: char): (n: Option<nat>)
    ensures n.Some? ==> n.value < 16
  {
    if '0' <= c <= '9' then Some(c as nat - '0' as nat)
    else if 'A' <= c <= 'F' then Some(c as nat - 'A' as nat + 10)
    else if 'a' <= c <= 'f' then Some(c as nat - 'a' as nat + 10)
    else None
  }

  function Percent(b: Byte): string {
    ['%', HexDigit(b / 16), HexDigit(b % 16)]
  }

  /** The UTF-8 bytes of a scalar value. */
  function Utf8(c: char): (bytes: seq<Byte>)
    ensures 1 <= |bytes| <= 4
  {
    var v := c as nat;
    if v < 0x80 then [v]
    else if v < 0x800 then [0xC0 + v / 64, 0x80 + v % 64]
    else if v < 0x1_0000 then [0xE0 + v / 4096, 0x80 + v / 64 % 64, 0x80 + v % 64]
    else [0xF0 + v / 262144, 0x80 + v / 4096 % 64, 0x80 + v / 64 % 64, 0x80 + v % 64]
  }

  function PercentAll(bytes: seq<Byte>): string {
    if bytes == [] then [] else Percent(bytes[0]) + PercentAll(bytes[1..])
  }

  function EncodeChar(c: char): string {
    if Unreserved(c) then [c] else PercentAll(Utf8(c))
  }

  function EncodeUriComponent(s: string): string {
    if s == [] then [] else EncodeChar(s[0]) + EncodeUriComponent(s[1..])
  }

  /** The byte of a percent triplet at the front. */
  function PercentByte(s: string): Option<Byte> {
    if |s| >= 3 && s[0] == '%' && HexValue(s[1]).Some? && HexValue(s[2]).Some? then
      Some(HexValue(s[1]).value * 16 + HexValue(s[2]).value)
    else None
  }

  /** How many bytes a UTF-8 sequence with this first byte has; None when it cannot be a first byte. */
  function SequenceLength(b: Byte): Option<nat> {
    if b < 0x80 then Some(1)
    else if 0xC0 <= b < 0xE0 then Some(2)
    else if 0xE0 <= b < 0xF0 then Some(3)
    else if 0xF0 <= b < 0xF8 then Some(4)
    else None
  }

  /** The leading bits that a first byte contributes. */
  function Lead(length: nat, first: Byte): nat
    requires 1 <= length <= 4
  {
    if length == 1 then first else if length == 2 then first % 32 else if length == 3 then first % 16 else first % 8
  }

  /** `count` percent-encoded continuation bytes at the front, each contributing six more bits. */
  function Continuation(s: string, count: nat, bits: nat): Option<nat> {
    if count == 0 then Some(bits)
    else
      var b := PercentByte(s);
      if b.None? || !(0x80 <= b.value < 0xC0) then None
      else Continuation(s[3..], count - 1, bits * 64 + (b.value - 0x80))
  }

  /** The scalar value, unless it is overlong for its length, a surrogate or beyond the last scalar value. */
  function Scalar(length: nat, v: nat): Option<char>
    requires 1 <= length <= 4
  {
    var least := if length == 1 then 0 else if length == 2 then 0x80 else if length == 3 then 0x800 else 0x1_0000;
    if v < least || v > 0x10_FFFF || 0xD800 <= v <= 0xDFFF then None else Some(v as char)
  }

  /** One decoded character and how much of the string it took. */
  function DecodeChar(s: string): Option<(char, nat)>
    requires s != []
  {
    if s[0] != '%' then Some((s[0], 1))
    else
      var first := PercentByte(s);
      if first.None? then None
      else
        var length := SequenceLength(first.value);
        if length.None? || |s| < 3 * length.value then None
        else
          var v := Continuation(s[3..], length.value - 1, Lead(length.value, first.value));
          if v.None? then None
          else
            var c := Scalar(length.value, v.value);
            if c.None? then None else Some((c.value, 3 * length.value))
  }

  /** Decoding fails as a whole when any part of it does. */
  function DecodeUriComponent(s: string): Option<string>
    decreases |s|
  {
    if s == [] then Some([])
    else
      var head := DecodeChar(s);
      if head.None? then None
      else
        var tail := DecodeUriComponent(s[head.value.1..]);
        if tail.None? then None else Some([head.value.0] + tail.value)
  }

  // ----- What is written -----

  const HEX := "0123456789ABCDEF"

  predicate AsciiLetterOrDigit(c: char) {
    var v := c as int;
    65 <= v <= 90 || 97 <= v <= 122 || 48 <= v <= 57
  }

  /** A letter, a digit or one of `-_.!~*'()` is written as it is; any other character as three characters for each of
      its bytes, a percent sign and two upper-case hexadecimal digits. */
  lemma EncodedChar(c: char)
    ensures Unreserved(c) <==> AsciiLetterOrDigit(c) || c in "-_.!~*'()"
    ensures Unreserved(c) ==> EncodeChar(c) == [c]
    ensures !Unreserved(c) ==>
              && |EncodeChar(c)| == 3 * |Utf8(c)|
              && forall i :: 0 <= i < |Utf8(c)| ==>
                               EncodeChar(c)[3 * i..3 * i + 3] == ['%', HEX[Utf8(c)[i] / 16], HEX[Utf8(c)[i] % 16]]
  {
    if !Unreserved(c) {
      PercentAllLength(Utf8(c));
      forall i | 0 <= i < |Utf8(c)|
        ensures EncodeChar(c)[3 * i..3 * i + 3] == ['%', HEX[Utf8(c)[i] / 16], HEX[Utf8(c)[i] % 16]]
      {
        PercentAt(Utf8(c), i);
      }
    }
  }

  lemma {:induction false} PercentAt(bytes: seq<Byte>, i: nat)
    requires i < |bytes| && |PercentAll(bytes)| == 3 * |bytes|
    ensures PercentAll(bytes)[3 * i..3 * i + 3] == ['%', HEX[bytes[i] / 16], HEX[bytes[i] % 16]]
  {
    var rest := PercentAll(bytes[1..]);
    PercentAllLength(bytes[1..]);
    assert PercentAll(bytes) == Percent(bytes[0]) + rest;
    if i == 0 {
      assert PercentAll(bytes)[..3] == Percent(bytes[0]);
    } else {
      PercentAt(bytes[1..], i - 1);
      assert PercentAll(bytes)[3 * i..3 * i + 3] == rest[3 * (i - 1)..3 * (i - 1) + 3];
    }
  }

  // ----- Round trips -----

  lemma HexRoundTrip(n: nat)
    requires n < 16
    ensures HexValue(HexDigit(n)) == Some(n)
  {
  }

  lemma PercentRoundTrip(b: Byte, rest: string)
    ensures PercentByte(Percent(b) + rest) == Some(b)
    ensures (Percent(b) + rest)[3..] == rest
  {
    HexRoundTrip(b / 16);
    HexRoundTrip(b % 16);
    var s := Percent(b) + rest;
    assert s[0] == '%' && s[1] == HexDigit(b / 16) && s[2] == HexDigit(b % 16);
  }

  /** The bits that continuation bytes spell. */
  function Spelled(bytes: seq<Byte>, bits: nat): nat
    requires forall b :: b in bytes ==> 0x80 <= b < 0xC0
  {
    if bytes == [] then bits
    else
      assert bytes[0] in bytes;
      assert forall b :: b in bytes[1..] ==> b in bytes;
      Spelled(bytes[1..], bits * 64 + (bytes[0] - 0x80))
  }

  lemma {:induction false} TailContinues(bytes: seq<Byte>, rest: string, bits: nat)
    requires forall b :: b in bytes ==> 0x80 <= b < 0xC0
    ensures Continuation(PercentAll(bytes) + rest, |bytes|, bits) == Some(Spelled(bytes, bits))
  {
    if bytes != [] {
      assert bytes[0] in bytes;
      assert forall b :: b in bytes[1..] ==> b in bytes;
      var tail := PercentAll(bytes[1..]) + rest;
      assert PercentAll(bytes) + rest == Percent(bytes[0]) + tail;
      PercentRoundTrip(bytes[0], tail);
      TailContinues(bytes[1..], rest, bits * 64 + (bytes[0] - 0x80));
    }
  }

  lemma {:induction false} PercentAllLength(bytes: seq<Byte>)
    ensures |PercentAll(bytes)| == 3 * |bytes|
  {
    if bytes != [] {
      PercentAllLength(bytes[1..]);
    }
  }

  /** Splitting a value into groups of six bits and joining them again. */
  lemma SixBits(v: nat)
    ensures (v / 4096 * 64 + v / 64 % 64) * 64 + v % 64 == v
    ensures v / 64 * 64 + v % 64 == v
    ensures v / 262144 * 64 + v / 4096 % 64 == v / 4096
  {
    assert v / 4096 == v / 64 / 64;
    assert v / 262144 == v / 4096 / 64;
  }

  /** The bytes of a scalar value are a first byte of the right kind and continuation bytes, and their bits
      spell the value. */
  ghost predicate Spells(bytes: seq<Byte>, c: char) {
    && 1 <= |bytes| <= 4 && SequenceLength(bytes[0]) == Some(|bytes|)
    && (forall b :: b in bytes[1..] ==> 0x80 <= b < 0xC0)
    && Spelled(bytes[1..], Lead(|bytes|, bytes[0])) == c as nat
    && Scalar(|bytes|, c as nat) == Some(c)
  }

  lemma Utf8Spells(c: char)
    ensures Spells(Utf8(c), c)
  {
    var v := c as nat;
    SixBits(v);
    if v < 0x80 {
      assert Utf8(c)[1..] == [];
    } else if v < 0x800 {
      SpellsTwo(c);
    } else if v < 0x1_0000 {
      SpellsThree(c);
    } else {
      SpellsFour(c);
    }
  }

  lemma SpellsTwo(c: char)
    requires 0x80 <= c as nat < 0x800
    ensures Spells([0xC0 + c as nat / 64, 0x80 + c as nat % 64], c)
  {
    var v := c as nat;
    SpelledOne(v % 64, v / 64);
    assert [0xC0 + v / 64, 0x80 + v % 64][1..] == [0x80 + v % 64];
  }

  lemma SpellsThree(c: char)
    requires 0x800 <= c as nat < 0x1_0000
    ensures Spells([0xE0 + c as nat / 4096, 0x80 + c as nat / 64 % 64, 0x80 + c as nat % 64], c)
  {
    var v := c as nat;
    SixBits(v);
    var x, y := v / 64 % 64, v % 64;
    SpelledTwo(x, y, v / 4096);
    assert [0xE0 + v / 4096, 0x80 + x, 0x80 + y][1..] == [0x80 + x, 0x80 + y];
  }

  lemma SpellsFour(c: char)
    requires 0x1_0000 <= c as nat
    ensures Spells([0xF0 + c as nat / 262144, 0x80 + c as nat / 4096 % 64, 0x80 + c as nat / 64 % 64, 0x80 + c as nat % 64], c)
  {
    var v := c as nat;
    SixBits(v);
    var x, y, z := v / 4096 % 64, v / 64 % 64, v % 64;
    SpelledThree(x, y, z, v / 262144);
    assert [0xF0 + v / 262144, 0x80 + x, 0x80 + y, 0x80 + z][1..] == [0x80 + x, 0x80 + y, 0x80 + z];
  }

  lemma SpelledOne(x: nat, bits: nat)
    requires x < 64
    ensures Spelled([0x80 + x], bits) == bits * 64 + x
  {
    assert [0x80 + x][1..] == [];
  }

  lemma SpelledTwo(x: nat, y: nat, bits: nat)
    requires x < 64 && y < 64
    ensures Spelled([0x80 + x, 0x80 + y], bits) == (bits * 64 + x) * 64 + y
  {
    assert [0x80 + x, 0x80 + y][1..] == [0x80 + y];
    SpelledOne(y, bits * 64 + x);
  }

  lemma SpelledThree(x: nat, y: nat, z: nat, bits: nat)
    requires x < 64 && y < 64 && z < 64
    ensures Spelled([0x80 + x, 0x80 + y, 0x80 + z], bits) == ((bits * 64 + x) * 64 + y) * 64 + z
  {
    assert [0x80 + x, 0x80 + y, 0x80 + z][1..] == [0x80 + y, 0x80 + z];
    SpelledTwo(y, z, bits * 64 + x);
  }

  lemma DecodeEscaped(bytes: seq<Byte>, c: char, rest: string)
    requires Spells(bytes, c)
    ensures DecodeChar(PercentAll(bytes) + rest) == Some((c, 3 * |bytes|))
  {
    hide Scalar, SequenceLength, Lead, Percent, PercentByte, Spelled, Continuation, PercentAll;
    var tail := PercentAll(bytes[1..]) + rest;
    PercentAllLength(bytes);
    PercentFirst(bytes, rest);
    PercentRoundTrip(bytes[0], tail);
    TailContinues(bytes[1..], rest, Lead(|bytes|, bytes[0]));
  }

  lemma DecodeFirst(c: char, rest: string)
    ensures DecodeChar(EncodeChar(c) + rest) == Some((c, |EncodeChar(c)|))
    ensures (EncodeChar(c) + rest)[|EncodeChar(c)|..] == rest
  {
    if Unreserved(c) {
      assert ([c] + rest)[0] == c;
    } else {
      hide Utf8, PercentAll, DecodeChar, Spells;
      Utf8Spells(c);
      PercentAllLength(Utf8(c));
      DecodeEscaped(Utf8(c), c, rest);
    }
  }

  lemma PercentFirst(bytes: seq<Byte>, rest: string)
    requires bytes != []
    ensures PercentAll(bytes) + rest == Percent(bytes[0]) + (PercentAll(bytes[1..]) + rest)
    ensures (PercentAll(bytes) + rest)[0] == '%'
  {
  }

  /** Decoding gives back what was encoded, for every string. */
  lemma {:induction false} UriRoundTrip(s: string)
    ensures DecodeUriComponent(EncodeUriComponent(s)) == Some(s)
  {
    if s != [] {
      UriRoundTrip(s[1..]);
      DecodeFirst(s[0], EncodeUriComponent(s[1..]));
      assert s == [s[0]] + s[1..];
    }
  }

  /** Parsing a constructed identifier gives its kind and its content back. */
  lemma ParseRoundTrip(id: string)
    ensures ParsePaneId(SessionPaneId(id)) == SessionPane(id)
    ensures ParsePaneId(PluginPaneId(id)) == PluginPane(id)
    ensures ParsePaneId(FilePaneId(id)) == FilePane(id)
  {
    UriRoundTrip(id);
    assert SessionPaneId(id)[|SESSION_PANE_PREFIX|..] == id;
    assert PluginPaneId(id)[0] == 'p' && PluginPaneId(id)[|PLUGIN_PANE_PREFIX|..] == id;
    assert FilePaneId(id)[0] == 'f' && FilePaneId(id)[|FILE_PANE_PREFIX|..] == EncodeUriComponent(id);
    assert SESSION_PANE_PREFIX[0] == 's' && PLUGIN_PANE_PREFIX[0] == 'p';
  }

  /** So the three constructors are injective and never collide. */
  lemma PaneIdsDistinct(a: string, b: string)
    ensures SessionPaneId(a) == SessionPaneId(b) || PluginPaneId(a) == PluginPaneId(b) || FilePaneId(a) == FilePaneId(b) ==> a == b
    ensures SessionPaneId(a) != PluginPaneId(b) && SessionPaneId(a) != FilePaneId(b) && PluginPaneId(a) != FilePaneId(b)
  {
    ParseRoundTrip(a);
    ParseRoundTrip(b);
  }

  // ----- Exactly what is decoded -----

  /** The string begins with percent triplets of the bytes, in digits of either case. */
  ghost predicate Escapes(s: string, bytes: seq<Byte>) {
    |s| >= 3 * |bytes| && forall i :: 0 <= i < |bytes| ==> PercentByte(s[3 * i..]) == Some(bytes[i])
  }

  lemma EscapesNext(s: string, bytes: seq<Byte>)
    requires bytes != []
    ensures Escapes(s, bytes) <==> |s| >= 3 && PercentByte(s) == Some(bytes[0]) && Escapes(s[3..], bytes[1..])
  {
    hide PercentByte;
    if |s| >= 3 {
      forall i | 0 <= i < |bytes| - 1 && 3 * (i + 1) <= |s| ensures s[3..][3 * i..] == s[3 * (i + 1)..] {
      }
      assert s[0..] == s;
      if Escapes(s[3..], bytes[1..]) && PercentByte(s) == Some(bytes[0]) {
        forall i | 0 <= i < |bytes| ensures PercentByte(s[3 * i..]) == Some(bytes[i]) {
          if i > 0 {
            assert PercentByte(s[3..][3 * (i - 1)..]) == Some(bytes[1..][i - 1]);
          }
        }
      }
      if Escapes(s, bytes) {
        forall i | 0 <= i < |bytes[1..]| ensures PercentByte(s[3..][3 * i..]) == Some(bytes[1..][i]) {
          assert PercentByte(s[3 * (i + 1)..]) == Some(bytes[i + 1]);
        }
      }
    }
  }

  predicate Continues(bytes: seq<Byte>) {
    forall b :: b in bytes ==> 0x80 <= b < 0xC0
  }

  lemma {:induction false} ContinuationMeaning(s: string, bytes: seq<Byte>, bits: nat)
    requires Continues(bytes) && Escapes(s, bytes)
    ensures Continuation(s, |bytes|, bits) == Some(Spelled(bytes, bits))
  {
    hide PercentByte, Escapes;
    if bytes != [] {
      EscapesNext(s, bytes);
      assert bytes[0] in bytes && forall b :: b in bytes[1..] ==> b in bytes;
      ContinuationMeaning(s[3..], bytes[1..], bits * 64 + (bytes[0] - 0x80));
    }
  }

  lemma {:induction false} ContinuationBytes(s: string, count: nat, bits: nat) returns (bytes: seq<Byte>)
    requires Continuation(s, count, bits).Some?
    ensures |bytes| == count && Continues(bytes) && Escapes(s, bytes)
    ensures Continuation(s, count, bits).value == Spelled(bytes, bits)
  {
    hide Escapes;
    if count == 0 {
      bytes := [];
      NothingEscaped(s);
    } else {
      var b := PercentByte(s).value;
      var rest := ContinuationBytes(s[3..], count - 1, bits * 64 + (b - 0x80));
      bytes := [b] + rest;
      assert bytes[1..] == rest;
      EscapesNext(s, bytes);
    }
  }

  lemma NothingEscaped(s: string)
    ensures Escapes(s, [])
  {
  }

  lemma ThreeParts(a: nat, x: nat, y: nat)
    requires x < 64 && y < 64
    ensures var v := (a * 64 + x) * 64 + y;
            v / 4096 == a && v / 64 % 64 == x && v % 64 == y
  {
    var v := (a * 64 + x) * 64 + y;
    assert v / 64 == a * 64 + x;
    assert v / 4096 == v / 64 / 64;
  }

  lemma FourParts(a: nat, x: nat, y: nat, z: nat)
    requires x < 64 && y < 64 && z < 64
    ensures var v := ((a * 64 + x) * 64 + y) * 64 + z;
            v / 262144 == a && v / 4096 % 64 == x && v / 64 % 64 == y && v % 64 == z
  {
    var v := ((a * 64 + x) * 64 + y) * 64 + z;
    assert v / 64 == (a * 64 + x) * 64 + y;
    ThreeParts(a, x, y);
    assert v / 4096 == v / 64 / 64 && v / 262144 == v / 64 / 4096;
  }

  lemma TwoBytes(first: Byte, x: nat, c: char)
    requires 0xC0 <= first < 0xE0 && x < 64 && c as nat == first % 32 * 64 + x && 0x80 <= c as nat
    ensures Utf8(c) == [first, 0x80 + x]
  {
    var v := c as nat;
    assert first == 0xC0 + first % 32;
    assert v / 64 == first % 32 && v % 64 == x;
  }

  lemma ThreeBytes(first: Byte, x: nat, y: nat, c: char)
    requires 0xE0 <= first < 0xF0 && x < 64 && y < 64
    requires c as nat == (first % 16 * 64 + x) * 64 + y && 0x800 <= c as nat
    ensures Utf8(c) == [first, 0x80 + x, 0x80 + y]
  {
    assert first == 0xE0 + first % 16;
    ThreeParts(first % 16, x, y);
  }

  lemma FourBytes(first: Byte, x: nat, y: nat, z: nat, c: char)
    requires 0xF0 <= first < 0xF8 && x < 64 && y < 64 && z < 64
    requires c as nat == ((first % 8 * 64 + x) * 64 + y) * 64 + z && 0x1_0000 <= c as nat
    ensures Utf8(c) == [first, 0x80 + x, 0x80 + y, 0x80 + z]
  {
    assert first == 0xF0 + first % 8;
    FourParts(first % 8, x, y, z);
  }

  lemma WithOne(first: Byte, rest: seq<Byte>, c: char)
    requires |rest| == 1 && Continues(rest) && 0xC0 <= first < 0xE0
    requires c as nat == Spelled(rest, first % 32) && 0x80 <= c as nat
    ensures Utf8(c) == [first] + rest
  {
    hide Spelled, Utf8;
    assert rest[0] in rest;
    var x := rest[0] - 0x80;
    assert rest == [0x80 + x];
    SpelledOne(x, first % 32);
    TwoBytes(first, x, c);
  }

  lemma WithTwo(first: Byte, rest: seq<Byte>, c: char)
    requires |rest| == 2 && Continues(rest) && 0xE0 <= first < 0xF0
    requires c as nat == Spelled(rest, first % 16) && 0x800 <= c as nat
    ensures Utf8(c) == [first] + rest
  {
    hide Spelled, Utf8;
    assert rest[0] in rest && rest[1] in rest;
    var x, y := rest[0] - 0x80, rest[1] - 0x80;
    assert rest == [0x80 + x, 0x80 + y];
    SpelledTwo(x, y, first % 16);
    ThreeBytes(first, x, y, c);
  }

  lemma WithThree(first: Byte, rest: seq<Byte>, c: char)
    requires |rest| == 3 && Continues(rest) && 0xF0 <= first < 0xF8
    requires c as nat == Spelled(rest, first % 8) && 0x1_0000 <= c as nat
    ensures Utf8(c) == [first] + rest
  {
    hide Spelled, Utf8;
    assert rest[0] in rest && rest[1] in rest && rest[2] in rest;
    var x, y, z := rest[0] - 0x80, rest[1] - 0x80, rest[2] - 0x80;
    assert rest == [0x80 + x, 0x80 + y, 0x80 + z];
    SpelledThree(x, y, z, first % 8);
    FourBytes(first, x, y, z, c);
  }

  lemma FirstByteIs(first: Byte)
    ensures SequenceLength(first) == Some(1) ==> first < 0x80 && Lead(1, first) == first
    ensures SequenceLength(first) == Some(2) ==> 0xC0 <= first < 0xE0 && Lead(2, first) == first % 32
    ensures SequenceLength(first) == Some(3) ==> 0xE0 <= first < 0xF0 && Lead(3, first) == first % 16
    ensures SequenceLength(first) == Some(4) ==> 0xF0 <= first < 0xF8 && Lead(4, first) == first % 8
  {
  }

  lemma OneByte(first: Byte, c: char)
    requires first < 0x80 && c as nat == first
    ensures Utf8(c) == [first]
  {
  }

  lemma SpelledNone(bits: nat)
    ensures Spelled([], bits) == bits
  {
  }

  lemma ScalarIs(length: nat, v: nat, c: char)
    requires 1 <= length <= 4 && Scalar(length, v) == Some(c)
    ensures c as nat == v && v <= 0x10_FFFF
    ensures v >= if length == 1 then 0 else if length == 2 then 0x80 else if length == 3 then 0x800 else 0x1_0000
  {
  }

  /** A first byte and continuation bytes that spell a scalar value in its shortest form are its bytes. */
  lemma BytesAreUtf8(first: Byte, rest: seq<Byte>, c: char)
    requires Continues(rest) && |rest| <= 3 && SequenceLength(first) == Some(1 + |rest|)
    requires Scalar(1 + |rest|, Spelled(rest, Lead(1 + |rest|, first))) == Some(c)
    ensures Utf8(c) == [first] + rest
  {
    hide Spelled, Utf8, SequenceLength, Lead, Scalar;
    FirstByteIs(first);
    ScalarIs(1 + |rest|, Spelled(rest, Lead(1 + |rest|, first)), c);
    match |rest| {
      case 0 =>
        SpelledNone(first);
        OneByte(first, c);
      case 1 => WithOne(first, rest, c);
      case 2 => WithTwo(first, rest, c);
      case _ => WithThree(first, rest, c);
    }
  }

  /** The front of the string stands for the character: the character itself, unless it is a percent sign, or the
      triplets of its UTF-8 bytes. */
  ghost predicate StandsFor(s: string, n: nat, c: char) {
    || (n == 1 && s != "" && s[0] == c && c != '%')
    || (n == 3 * |Utf8(c)| && Escapes(s, Utf8(c)))
  }

  lemma DecodeCharMeaning(s: string, c: char, n: nat)
    requires s != ""
    ensures DecodeChar(s) == Some((c, n)) <==> StandsFor(s, n, c)
  {
    hide PercentByte, Escapes, Continuation, Spelled, Scalar, Lead, Utf8, Continues;
    if DecodeChar(s) == Some((c, n)) && s[0] == '%' {
      var first := PercentByte(s).value;
      var length := SequenceLength(first).value;
      var rest := ContinuationBytes(s[3..], length - 1, Lead(length, first));
      BytesAreUtf8(first, rest, c);
      assert Utf8(c)[1..] == rest;
      EscapesNext(s, Utf8(c));
    }
    if StandsFor(s, n, c) && !(n == 1 && s[0] == c && c != '%') {
      Utf8Spells(c);
      EscapesNext(s, Utf8(c));
      StartsWithPercent(s);
      ContinuesAfterFirst(c);
      ContinuationMeaning(s[3..], Utf8(c)[1..], Lead(|Utf8(c)|, Utf8(c)[0]));
      LongEnough(s, Utf8(c));
    }
  }

  lemma StartsWithPercent(s: string)
    requires PercentByte(s).Some?
    ensures |s| >= 3 && s[0] == '%'
  {
  }

  lemma LongEnough(s: string, bytes: seq<Byte>)
    requires Escapes(s, bytes)
    ensures |s| >= 3 * |bytes|
  {
  }

  lemma ContinuesAfterFirst(c: char)
    requires Spells(Utf8(c), c)
    ensures Continues(Utf8(c)[1..])
  {
  }

  /** The string is made up of what stands for the characters, one after the other. */
  ghost predicate StandsForAll(s: string, t: string)
    decreases |t|
  {
    if t == "" then s == ""
    else exists n :: 0 < n <= |s| && StandsFor(s, n, t[0]) && StandsForAll(s[n..], t[1..])
  }

  /** Decoding succeeds exactly on such strings, so overlong forms, surrogates, cut-off sequences and stray percent
      signs are all refused, and the result is the text they stand for. */
  lemma {:induction false} DecodeMeaning(s: string, t: string)
    ensures DecodeUriComponent(s) == Some(t) <==> StandsForAll(s, t)
    decreases |s|
  {
    hide DecodeChar, StandsFor;
    if s == "" {
      NothingStands(t);
    } else {
      var head := DecodeChar(s);
      if head.Some? {
        var (c, n) := head.value;
        DecodeCharMeaning(s, c, n);
        TakesSome(s, c, n);
        if t != "" {
          DecodeMeaning(s[n..], t[1..]);
        }
        if DecodeUriComponent(s) == Some(t) {
          assert t == [c] + t[1..];
        }
      }
      if t != "" && StandsForAll(s, t) {
        var n :| 0 < n <= |s| && StandsFor(s, n, t[0]) && StandsForAll(s[n..], t[1..]);
        DecodeCharMeaning(s, t[0], n);
        DecodeMeaning(s[n..], t[1..]);
        assert t == [t[0]] + t[1..];
      }
    }
  }

  lemma TakesSome(s: string, c: char, n: nat)
    requires s != "" && StandsFor(s, n, c)
    ensures 0 < n <= |s|
  {
  }

  lemma NothingStands(t: string)
    ensures StandsForAll("", t) <==> t == ""
  {
  }

  /** Which identifiers are of which kind, and of none. */
  lemma ParseExactly(leaf: string, id: string)
    ensures ParsePaneId(leaf) == SessionPane(id) <==> leaf == "session:" + id
    ensures ParsePaneId(leaf) == PluginPane(id) <==> leaf == "plugin:" + id
    ensures ParsePaneId(leaf) == FilePane(id) <==> "file:" <= leaf && StandsForAll(leaf[5..], id)
    ensures ParsePaneId(leaf).Unknown? ==> ParsePaneId(leaf).id == leaf
  {
    hide DecodeUriComponent, StandsForAll;
    assert "session:" <= leaf ==> leaf == "session:" + leaf[8..];
    assert "plugin:" <= leaf ==> leaf == "plugin:" + leaf[7..];
    assert ("session:" + id)[8..] == id && ("plugin:" + id)[0] == 'p' && ("plugin:" + id)[7..] == id;
    assert "session:"[0] == 's' && "plugin:"[0] == 'p' && "file:"[0] == 'f';
    if "file:" <= leaf {
      assert leaf[0] == 'f';
      DecodeMeaning(leaf[5..], id);
    }
  }
}
