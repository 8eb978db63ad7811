/** Listing a written archive: members in the ustar Interchange Format of the POSIX.1-2017 `pax` utility are
    listed as they were written, whatever the fields hold that the lister does not read. */
module TarRoundTrip {
  import opened Wrappers
  import opened PaneIds
  import opened TarListing

  /** `mode`, `stamp`, `link` and `tail` are the header fields between the ones that the lister reads. */
  datatype Member = Member(
    prefix: string, name: string, data: seq<Byte>, kind: Byte,
    mode: seq<Byte>, stamp: seq<Byte>, link: seq<Byte>, tail: seq<Byte>)

  const LARGEST := 0x1_ffff_ffff

  function Utf8All(s: string): seq<Byte> {
    if s == "" then [] else Utf8(s[0]) + Utf8All(s[1..])
  }

  /** A text that fits its field; a zero byte would end it, and a byte-order mark is dropped by decoders. */
  predicate FieldText(s: string, width: nat) {
    '\0' !in s && |Utf8All(s)| <= width && (s == "" || s[0] as int != 0xFEFF)
  }

  predicate Plain(m: Member) {
    && FieldText(m.name, 100) && FieldText(m.prefix, 155)
    && |m.data| <= LARGEST
    && |m.mode| == 24 && |m.stamp| == 20 && |m.link| == 188 && |m.tail| == 12
  }

  /** The platform's decoder gives back what was encoded. */
  ghost predicate Faithful(decode: Decoder) {
    forall s: string :: s == "" || s[0] as int != 0xFEFF ==> decode(Utf8All(s)) == s
  }

  /** The text of UTF-8 bytes, with a replacement character for what is malformed. */
  function DecodeUtf8(bytes: seq<Byte>): string
    decreases |bytes|
  {
    if bytes == [] then ""
    else
      match SequenceLength(bytes[0])
      case Some(n) =>
        if |bytes| < n || !Continues(bytes[1..n]) then "\U{FFFD}" + DecodeUtf8(bytes[1..])
        else
          var c := Scalar(n, Spelled(bytes[1..n], Lead(n, bytes[0])));
          (if c.Some? then [c.value] else "\U{FFFD}") + DecodeUtf8(bytes[n..])
      case None => "\U{FFFD}" + DecodeUtf8(bytes[1..])
  }

  function DecodeText(bytes: seq<Byte>): string {
    var text := DecodeUtf8(bytes);
    if text != "" && text[0] as int == 0xFEFF then text[1..] else text
  }

  lemma DecodeUtf8First(c: char, rest: seq<Byte>)
    ensures DecodeUtf8(Utf8(c) + rest) == [c] + DecodeUtf8(rest)
  {
    hide Utf8, Spelled, SequenceLength, Scalar, Lead;
    Utf8Spells(c);
    var first := Utf8(c);
    var n := |first|;
    var all := first + rest;
    assert all[0] == first[0] && all[1..n] == first[1..] && all[n..] == rest;
  }

  lemma {:induction false} DecodeUtf8All(s: string)
    ensures DecodeUtf8(Utf8All(s)) == s
  {
    hide Utf8;
    if s != "" {
      DecodeUtf8First(s[0], Utf8All(s[1..]));
      DecodeUtf8All(s[1..]);
      assert s == [s[0]] + s[1..];
    }
  }

  /** There are such decoders: decoding UTF-8 and dropping a byte-order mark is one. */
  lemma DecodeTextIsFaithful()
    ensures Faithful(DecodeText)
  {
    forall s: string | s == "" || s[0] as int != 0xFEFF ensures DecodeText(Utf8All(s)) == s {
      DecodeUtf8All(s);
    }
  }

  function Zeros(n: nat): (z: seq<Byte>)
    ensures |z| == n && AllZero(z)
  {
    seq(n, _ => 0)
  }

  function Pad(field: seq<Byte>, width: nat): seq<Byte>
    requires |field| <= width
  {
    field + Zeros(width - |field|)
  }

  function OctalText(n: nat, digits: nat): string {
    if digits == 0 then "" else OctalText(n / 8, digits - 1) + ['0' + (n % 8) as char]
  }

  function SizeField(n: nat): seq<Byte> {
    Utf8All(OctalText(n, 11)) + [0]
  }

  function Header(m: Member): seq<Byte>
    requires Plain(m)
  {
    Pad(Utf8All(m.name), 100) + m.mode + SizeField(|m.data|) + m.stamp + [m.kind] + m.link
    + Pad(Utf8All(m.prefix), 155) + m.tail
  }

  function Block(m: Member): seq<Byte>
    requires Plain(m)
  {
    Header(m) + m.data + Zeros(Padding(|m.data|))
  }

  function Padding(size: nat): nat {
    PaddedMeaning(size);
    Padded(size) - size
  }

  predicate AllPlain(members: seq<Member>) {
    forall i :: 0 <= i < |members| ==> Plain(members[i])
  }

  function Blocks(members: seq<Member>): seq<Byte>
    requires AllPlain(members)
  {
    if members == [] then [] else Block(members[0]) + Blocks(members[1..])
  }

  /** Two blocks of zeros end an archive. */
  function Archive(members: seq<Member>): seq<Byte>
    requires AllPlain(members)
  {
    Blocks(members) + Zeros(2 * BLOCK)
  }

  function ShownPath(m: Member): string {
    var prefix, name := Trim(m.prefix), Trim(m.name);
    if prefix != "" then prefix + "/" + name else name
  }

  /** A member with a path that is not an extension header of the kinds g, x, L and K. */
  predicate Listed(m: Member) {
    ShownPath(m) != "" && m.kind as char != 'g' && m.kind as char != 'x' && m.kind as char != 'L' && m.kind as char != 'K'
  }

  function ShownEntry(m: Member): Entry {
    Entry(ShownPath(m), |m.data|, m.kind as char == '5' || EndsWithSlash(ShownPath(m)))
  }

  function ShownEntries(members: seq<Member>): seq<Entry> {
    if members == [] then []
    else (if Listed(members[0]) then [ShownEntry(members[0])] else []) + ShownEntries(members[1..])
  }

  // ----- Fields -----

  lemma {:induction false} UntilPadding(field: seq<Byte>, n: nat)
    requires 0 !in field
    ensures UntilZero(field + Zeros(n)) == field
  {
    var all := field + Zeros(n);
    if field == [] {
      assert n > 0 ==> all[0] == 0;
    } else {
      assert all[1..] == field[1..] + Zeros(n);
      assert field[0] in field;
      UntilPadding(field[1..], n);
    }
  }

  lemma {:induction false} NoZeroBytes(s: string)
    requires '\0' !in s
    ensures 0 !in Utf8All(s)
  {
    if s != "" {
      assert s[0] in s;
      NoZeroBytes(s[1..]);
    }
  }

  /** A padded field is read as its text without surrounding blanks. */
  lemma FieldRead(s: string, width: nat, decode: Decoder)
    requires Faithful(decode) && FieldText(s, width)
    ensures ReadText(Pad(Utf8All(s), width), decode) == Trim(s)
  {
    NoZeroBytes(s);
    UntilPadding(Utf8All(s), width - |Utf8All(s)|);
  }

  lemma DigitBytes(d: nat)
    requires d < 8
    ensures Utf8('0' + d as char) == [48 + d] && OctalDigit('0' + d as char) && !Space('0' + d as char)
  {
  }

  lemma {:induction false} Utf8Append(a: string, b: string)
    ensures Utf8All(a + b) == Utf8All(a) + Utf8All(b)
  {
    if a == "" {
      assert a + b == b;
    } else {
      assert (a + b)[1..] == a[1..] + b;
      Utf8Append(a[1..], b);
    }
  }

  function Power8(k: nat): nat {
    if k == 0 then 1 else 8 * Power8(k - 1)
  }

  predicate Digits(s: string) {
    forall i :: 0 <= i < |s| ==> OctalDigit(s[i])
  }

  lemma {:induction false} OctalTextMeaning(n: nat, digits: nat)
    requires n < Power8(digits)
    ensures Digits(OctalText(n, digits)) && |OctalText(n, digits)| == digits == |Utf8All(OctalText(n, digits))|
    ensures OctalValue(OctalText(n, digits)) == n
  {
    if digits > 0 {
      OctalTextMeaning(n / 8, digits - 1);
      DigitBytes(n % 8);
      var front, last := OctalText(n / 8, digits - 1), ['0' + (n % 8) as char];
      Utf8Append(front, last);
      assert last[1..] == "";
      assert (front + last)[..digits - 1] == front;
    }
  }

  lemma {:induction false} DigitsAreKept(s: string)
    requires Digits(s)
    ensures TrimStart(s) == s && TrimEnd(s) == s && WithoutSpaces(s) == s && OctalFront(s) == s
  {
    if s != "" {
      assert OctalDigit(s[0]) && OctalDigit(s[|s| - 1]);
      DigitsAreKept(s[1..]);
      assert [s[0]] + s[1..] == s;
    }
  }

  lemma LargestFits()
    ensures Power8(11) == LARGEST + 1
  {
    assert Power8(3) == 512;
    assert Power8(7) == 8 * (8 * (8 * (8 * Power8(3))));
    assert Power8(11) == 8 * (8 * (8 * (8 * Power8(7))));
  }

  lemma SizeRead(n: nat, decode: Decoder)
    requires Faithful(decode) && n <= LARGEST
    ensures |SizeField(n)| == 12 && ParseTarSize(SizeField(n), decode) == Ok(n)
    ensures !AllZero(SizeField(n))
  {
    LargestFits();
    OctalTextMeaning(n, 11);
    OctalRead(OctalText(n, 11), decode);
  }

  /** Eleven octal digits and a zero are read as their value. */
  lemma OctalRead(text: string, decode: Decoder)
    requires Faithful(decode) && Digits(text) && |text| == 11 == |Utf8All(text)|
    ensures var field := Utf8All(text) + [0];
            ParseTarSize(field, decode) == Ok(OctalValue(text)) && !AllZero(field)
  {
    hide Utf8All, OctalValue, TrimStart, TrimEnd, WithoutSpaces, OctalFront;
    DigitsAreKept(text);
    assert OctalDigit(text[0]);
    FirstByte(text);
    NoZeroBytes(text);
    UntilPadding(Utf8All(text), 1);
    var field := Utf8All(text) + [0];
    assert Utf8All(text) + Zeros(1) == field;
    assert ReadText(field, decode) == Trim(text) == text;
  }

  lemma FirstByte(s: string)
    requires s != "" && OctalDigit(s[0])
    ensures Utf8All(s) != [] && 48 <= Utf8All(s)[0] < 0x80
  {
  }

  // ----- Headers -----

  lemma Slice(a: seq<Byte>, b: seq<Byte>, c: seq<Byte>, all: seq<Byte>)
    requires all == a + b + c
    ensures all[|a|..|a| + |b|] == b
  {
  }

  lemma HeaderFields(m: Member)
    requires Plain(m) && |SizeField(|m.data|)| == 12
    ensures var h := Header(m);
            && |h| == BLOCK
            && h[..100] == Pad(Utf8All(m.name), 100)
            && h[124..136] == SizeField(|m.data|)
            && h[156] == m.kind
            && h[345..500] == Pad(Utf8All(m.prefix), 155)
  {
    hide SizeField, Pad, Utf8All;
    var h := Header(m);
    var name, size, prefix := Pad(Utf8All(m.name), 100), SizeField(|m.data|), Pad(Utf8All(m.prefix), 155);
    assert |name| == 100 && |prefix| == 155 by {
      PadLength(m.name, 100);
      PadLength(m.prefix, 155);
    }
    assert h == name + m.mode + size + m.stamp + [m.kind] + m.link + prefix + m.tail;
    var upTo := name + m.mode + size + m.stamp;
    assert |upTo| == 156;
    Slice(name + m.mode, size, m.stamp + [m.kind] + m.link + prefix + m.tail, h);
    Slice(upTo, [m.kind], m.link + prefix + m.tail, h);
    assert h[156] == h[156..157][0];
    Slice(upTo + [m.kind] + m.link, prefix, m.tail, h);
  }

  lemma PadLength(s: string, width: nat)
    requires FieldText(s, width)
    ensures |Pad(Utf8All(s), width)| == width
  {
  }

  /** What the lister finds in the header of a plain member. */
  lemma HeaderRead(m: Member, decode: Decoder)
    requires Faithful(decode) && Plain(m)
    ensures |Header(m)| == BLOCK && !AllZero(Header(m))
    ensures ParseTarSize(Header(m)[124..136], decode) == Ok(|m.data|)
    ensures IsListed(Header(m), decode) <==> Listed(m)
    ensures EntryOf(Header(m), |m.data|, decode) == ShownEntry(m)
  {
    hide Faithful, Header, SizeField, ParseTarSize, ReadText, Pad, Utf8All, Trim, EndsWithSlash;
    SizeRead(|m.data|, decode);
    HeaderFields(m);
    var h := Header(m);
    FieldRead(m.name, 100, decode);
    FieldRead(m.prefix, 155, decode);
    assert PathOf(h, decode) == ShownPath(m);
    var field := h[124..136];
    var i :| 0 <= i < |field| && field[i] != 0;
    assert h[124 + i] != 0;
  }

  // ----- Archives -----

  lemma BlockLength(m: Member)
    requires Plain(m) && |Header(m)| == BLOCK
    ensures |Block(m)| == BLOCK + Padded(|m.data|)
  {
    hide Header, Padded;
    PaddedMeaning(|m.data|);
  }

  /** One member of an archive: the lister reads its header, steps over its data and goes on behind it. */
  lemma ScanMember(before: seq<Byte>, m: Member, after: seq<Byte>, found: nat, decode: Decoder)
    requires Faithful(decode) && Plain(m) && found < MAX_ENTRIES
    ensures var bytes := before + Block(m) + after;
            var next := |before| + |Block(m)|;
            var listed := Listed(m);
            var rest := Scan(bytes, next, if listed then found + 1 else found, decode);
            Scan(bytes, |before|, found, decode)
            == if rest.Ok? && listed then Ok([Located(ShownEntry(m), |before|)] + rest.value) else rest
  {
    hide Faithful, Header, ParseTarSize, IsListed, EntryOf, AllZero, Padded, ShownPath, ShownEntry, Listed;
    HeaderRead(m, decode);
    BlockLength(m);
    var bytes := before + Block(m) + after;
    assert Block(m)[..BLOCK] == Header(m);
    assert bytes[|before|..|before| + BLOCK] == Header(m);
  }

  lemma ScanEnd(before: seq<Byte>, found: nat, decode: Decoder)
    ensures Scan(before + Zeros(2 * BLOCK), |before|, found, decode) == Ok([])
  {
    var bytes := before + Zeros(2 * BLOCK);
    if found < MAX_ENTRIES {
      assert bytes[|before|..|before| + BLOCK] == Zeros(2 * BLOCK)[..BLOCK];
    }
  }

  lemma BlocksFirst(members: seq<Member>)
    requires AllPlain(members) && members != []
    ensures Plain(members[0]) && AllPlain(members[1..])
    ensures Blocks(members) == Block(members[0]) + Blocks(members[1..])
  {
    hide Block, Plain;
  }

  function Firsts(entries: seq<Entry>, most: int): seq<Entry> {
    if most <= 0 then [] else if |entries| <= most then entries else entries[..most]
  }

  lemma FirstsOfNone(entries: seq<Entry>, most: int)
    requires most <= 0 || entries == []
    ensures Firsts(entries, most) == []
  {
  }

  /** The listing of members that are followed by anything: the members in order, and then what follows is listed,
      or refused; it is not looked at once there are 5000 entries. */
  lemma {:induction false} ScanMembers(before: seq<Byte>, members: seq<Member>, end: seq<Byte>, found: nat, decode: Decoder)
    requires Faithful(decode) && AllPlain(members) && found <= MAX_ENTRIES
    ensures var bytes, shown := before + Blocks(members) + end, ShownEntries(members);
            var scanned := Scan(bytes, |before|, found, decode);
            if found + |shown| >= MAX_ENTRIES then
              scanned.Ok? && Entries(scanned.value) == Firsts(shown, MAX_ENTRIES - found)
            else
              var rest := Scan(bytes, |before| + |Blocks(members)|, found + |shown|, decode);
              if rest.Err? then scanned == rest else scanned.Ok? && Entries(scanned.value) == shown + Entries(rest.value)
    decreases |members|
  {
    hide Faithful, Scan, Block, Blocks, Plain, AllPlain, Listed, ShownEntry, Firsts;
    var bytes := before + Blocks(members) + end;
    if found == MAX_ENTRIES {
      ScanFull(bytes, |before|, found, decode);
      FirstsOfNone(ShownEntries(members), MAX_ENTRIES - found);
    } else if members == [] {
      NoBlocks();
      assert forall rest: seq<Located> :: [] + Entries(rest) == Entries(rest);
    } else {
      var m, more := members[0], members[1..];
      BlocksFirst(members);
      var through := before + Block(m);
      var next := if Listed(m) then found + 1 else found;
      assert bytes == through + Blocks(more) + end == before + Block(m) + (Blocks(more) + end);
      ScanMember(before, m, Blocks(more) + end, found, decode);
      ScanMembers(through, more, end, next, decode);
      ShownFirst(members, found);
      var scanned := Scan(bytes, |through|, next, decode);
      if scanned.Ok? {
        assert Entries([Located(ShownEntry(m), |before|)] + scanned.value) == [ShownEntry(m)] + Entries(scanned.value);
      }
    }
  }

  lemma NoBlocks()
    ensures Blocks([]) == [] && ShownEntries([]) == []
  {
  }

  lemma ShownFirst(members: seq<Member>, found: nat)
    requires members != [] && found < MAX_ENTRIES
    ensures var m, shown, more := members[0], ShownEntries(members), ShownEntries(members[1..]);
            && (Listed(m) ==>
                  && shown == [ShownEntry(m)] + more
                  && Firsts(shown, MAX_ENTRIES - found) == [ShownEntry(m)] + Firsts(more, MAX_ENTRIES - (found + 1))
                  && forall rest: seq<Entry> :: shown + rest == [ShownEntry(m)] + (more + rest))
            && (!Listed(m) ==> shown == more)
  {
    hide Listed, ShownEntry;
    var m, more := members[0], ShownEntries(members[1..]);
    assert [] + more == more;
    if Listed(m) {
      FirstsStep(ShownEntry(m), more, MAX_ENTRIES - found);
      forall rest: seq<Entry> ensures ([ShownEntry(m)] + more) + rest == [ShownEntry(m)] + (more + rest) {
      }
    }
  }

  lemma ScanFull(bytes: seq<Byte>, offset: nat, found: nat, decode: Decoder)
    requires found >= MAX_ENTRIES
    ensures Scan(bytes, offset, found, decode) == Ok([])
  {
  }

  lemma FirstsStep(first: Entry, rest: seq<Entry>, most: int)
    requires most > 0
    ensures Firsts([first] + rest, most) == [first] + Firsts(rest, most - 1)
  {
  }

  /** Listing a written archive gives its members in order, up to the limit of 5000, with their sizes and
      directory flags; a path loses blanks around its name and around its prefix, and a member whose path is
      only blanks is not shown. */
  lemma ListingUndoesArchive(members: seq<Member>, decode: Decoder)
    requires Faithful(decode) && AllPlain(members)
    ensures Listing(Archive(members), decode) == Ok(Firsts(ShownEntries(members), MAX_ENTRIES))
  {
    hide Scan, Blocks, Entries, Faithful, Zeros, ShownEntries;
    ScanMembers([], members, Zeros(2 * BLOCK), 0, decode);
    ScanEnd(Blocks(members), |ShownEntries(members)|, decode);
    assert [] + Blocks(members) + Zeros(2 * BLOCK) == Archive(members);
    NothingMore(ShownEntries(members));
  }

  lemma NothingMore(shown: seq<Entry>)
    ensures shown + Entries([]) == shown
    ensures |shown| <= MAX_ENTRIES ==> Firsts(shown, MAX_ENTRIES) == shown
  {
  }

  lemma ScanShort(bytes: seq<Byte>, offset: nat, found: nat, decode: Decoder)
    requires offset <= |bytes| < offset + BLOCK
    ensures Scan(bytes, offset, found, decode) == Ok([])
  {
  }

  lemma ScanTruncated(before: seq<Byte>, m: Member, rest: seq<Byte>, found: nat, decode: Decoder)
    requires Faithful(decode) && Plain(m) && |rest| < Padded(|m.data|) && found < MAX_ENTRIES
    ensures Scan(before + (Header(m) + rest), |before|, found, decode) == Err(Truncated)
  {
    hide Faithful, Header, IsListed, EntryOf, ParseTarSize, AllZero, Padded;
    HeaderRead(m, decode);
    var bytes := before + (Header(m) + rest);
    assert bytes[|before|..|before| + BLOCK] == Header(m);
  }

  /** An archive that breaks off inside a header is listed up to there. */
  lemma BrokenHeader(members: seq<Member>, rest: seq<Byte>, decode: Decoder)
    requires Faithful(decode) && AllPlain(members) && |rest| < BLOCK
    ensures Listing(Blocks(members) + rest, decode) == Ok(Firsts(ShownEntries(members), MAX_ENTRIES))
  {
    hide Blocks, Entries, Faithful, Scan, ShownEntries;
    ScanMembers([], members, rest, 0, decode);
    assert [] + Blocks(members) + rest == Blocks(members) + rest;
    ScanShort(Blocks(members) + rest, |Blocks(members)|, |ShownEntries(members)|, decode);
    NothingMore(ShownEntries(members));
  }

  /** One that breaks off inside a member's data, padding included, is refused as a whole, unless 5000 entries come
      before. */
  lemma BrokenData(members: seq<Member>, m: Member, rest: seq<Byte>, decode: Decoder)
    requires Faithful(decode) && AllPlain(members) && Plain(m) && |rest| < Padded(|m.data|)
    requires |ShownEntries(members)| < MAX_ENTRIES
    ensures Listing(Blocks(members) + (Header(m) + rest), decode) == Err(Truncated)
  {
    hide Blocks, Entries, Faithful, Header, Scan, ShownEntries, Padded;
    var end := Header(m) + rest;
    ScanMembers([], members, end, 0, decode);
    assert [] + Blocks(members) + end == Blocks(members) + end;
    ScanTruncated(Blocks(members), m, rest, |ShownEntries(members)|, decode);
  }

  function FullPath(m: Member): string {
    if m.prefix != "" then m.prefix + "/" + m.name else m.name
  }

  function WrittenEntries(members: seq<Member>): seq<Entry> {
    seq(|members|, i requires 0 <= i < |members| =>
      Entry(FullPath(members[i]), |members[i].data|,
            members[i].kind as char == '5' || EndsWithSlash(FullPath(members[i]))))
  }

  lemma {:induction false} TrimShortens(s: string)
    ensures |TrimStart(s)| <= |s| && (|TrimStart(s)| == |s| ==> TrimStart(s) == s)
    ensures |TrimEnd(s)| <= |s| && (|TrimEnd(s)| == |s| ==> TrimEnd(s) == s)
    decreases |s|
  {
    if s != "" {
      TrimShortens(s[1..]);
      TrimShortens(s[..|s| - 1]);
    }
  }

  lemma TrimLength(s: string)
    ensures |Trim(s)| <= |s| && (|Trim(s)| == |s| ==> Trim(s) == s)
  {
    TrimShortens(s);
    TrimShortens(TrimStart(s));
  }

  /** A member is shown under the path it was written with exactly when neither part has blanks around it. */
  lemma PathIsKept(m: Member)
    ensures ShownPath(m) == FullPath(m) <==> Trim(m.name) == m.name && Trim(m.prefix) == m.prefix
  {
    hide Trim;
    TrimLength(m.name);
    TrimLength(m.prefix);
    if ShownPath(m) == FullPath(m) {
      assert |ShownPath(m)| == |FullPath(m)|;
    }
  }

  /** A path that is not empty and has no blanks to lose. */
  predicate Unpadded(m: Member) {
    FullPath(m) != "" && m.kind as char !in "gxLK" && Trim(m.name) == m.name && Trim(m.prefix) == m.prefix
  }

  lemma UnpaddedIsShown(m: Member)
    requires Unpadded(m)
    ensures Listed(m)
    ensures ShownEntry(m) == Entry(FullPath(m), |m.data|, m.kind as char == '5' || EndsWithSlash(FullPath(m)))
  {
    hide Trim, EndsWithSlash;
    PathIsKept(m);
  }

  /** So at most 5000 named members without blanks around their names come back as they were written. */
  lemma {:induction false} WrittenIsListed(members: seq<Member>)
    requires AllPlain(members)
    requires forall i :: 0 <= i < |members| ==> Unpadded(members[i])
    ensures ShownEntries(members) == WrittenEntries(members)
  {
    hide Trim, Plain, ShownPath, FullPath, EndsWithSlash, Unpadded;
    if members == [] {
      assert WrittenEntries(members) == [];
    } else {
      UnpaddedIsShown(members[0]);
      WrittenIsListed(members[1..]);
      assert WrittenEntries(members) == [WrittenEntries(members)[0]] + WrittenEntries(members[1..]);
    }
  }

  lemma RoundTrip(members: seq<Member>, decode: Decoder)
    requires Faithful(decode) && AllPlain(members) && |members| <= MAX_ENTRIES
    requires forall i :: 0 <= i < |members| ==> Unpadded(members[i])
    ensures Listing(Archive(members), decode) == Ok(WrittenEntries(members))
  {
    hide Trim, Plain, Listing, Archive, Faithful, FullPath;
    ListingUndoesArchive(members, decode);
    WrittenIsListed(members);
  }
}
