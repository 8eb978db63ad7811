/** Listing the entries of a TAR archive. Turning bytes into text is the platform's: `decode` stands for it. */
module TarListing {
  import opened Wrappers
  import opened PaneIds

  const BLOCK := 512
  const MAX_ENTRIES := 5000

  datatype Entry = Entry(path: string, size: nat, isDirectory: bool)

  datatype Problem = BinarySize | InvalidSize | Truncated

  type Decoder = seq<Byte> -> string

  // ----- Texts -----

  /** The white space that `trim` and `\s` know. */
  predicate Space(c: char) {
    var v := c as int;
    9 <= v <= 13 || v == 0x20 || v == 0xA0 || v == 0x1680 || 0x2000 <= v <= 0x200A
    || v == 0x2028 || v == 0x2029 || v == 0x202F || v == 0x205F || v == 0x3000 || v == 0xFEFF
  }

  function TrimStart(s: string): string {
    if s != "" && Space(s[0]) then TrimStart(s[1..]) else s
  }

  function TrimEnd(s: string): string {
    if s != "" && Space(s[|s| - 1]) then TrimEnd(s[..|s| - 1]) else s
  }

  function Trim(s: string): string {
    TrimEnd(TrimStart(s))
  }

  function WithoutSpaces(s: string): string {
    if s == "" then "" else (if Space(s[0]) then "" else [s[0]]) + WithoutSpaces(s[1..])
  }

  function UntilZero(field: seq<Byte>): seq<Byte> {
    if field == [] || field[0] == 0 then [] else [field[0]] + UntilZero(field[1..])
  }

  function ReadText(field: seq<Byte>, decode: Decoder): string {
    Trim(decode(UntilZero(field)))
  }

  predicate OctalDigit(c: char) {
    '0' <= c <= '7'
  }

  /** The digits at the front. */
  function OctalFront(s: string): string {
    if s != "" && OctalDigit(s[0]) then [s[0]] + OctalFront(s[1..]) else ""
  }

  function OctalValue(digits: string): nat
    requires forall i :: 0 <= i < |digits| ==> OctalDigit(digits[i])
  {
    if digits == "" then 0
    else
      assert OctalDigit(digits[|digits| - 1]);
      8 * OctalValue(digits[..|digits| - 1]) + (digits[|digits| - 1] as int - '0' as int)
  }

  lemma {:induction false} OctalFrontDigits(s: string)
    ensures forall i :: 0 <= i < |OctalFront(s)| ==> OctalDigit(OctalFront(s)[i])
  {
    if s != "" && OctalDigit(s[0]) {
      OctalFrontDigits(s[1..]);
    }
  }

  /** `parseInt` in base 8: a sign, then the digits up to the first other character. */
  function ParseOctal(s: string): Option<int> {
    var sign := s != "" && s[0] in "+-";
    var digits := OctalFront(if sign then s[1..] else s);
    OctalFrontDigits(if sign then s[1..] else s);
    if digits == "" then None
    else
      var n: int := OctalValue(digits);
      Some(if sign && s[0] == '-' then -n else n)
  }

  function ParseTarSize(field: seq<Byte>, decode: Decoder): Result<nat, Problem>
    requires field != []
  {
    if field[0] >= 0x80 then Err(BinarySize)
    else
      var text := WithoutSpaces(ReadText(field, decode));
      if text == "" then Ok(0)
      else
        var n := ParseOctal(text);
        if n.None? || n.value < 0 then Err(InvalidSize) else Ok(n.value)
  }

  /** Which size fields are refused, and why: binary ones, and texts that are neither empty nor begin with an octal
      number that is not negative. */
  lemma BadSizes(field: seq<Byte>, decode: Decoder)
    requires field != []
    ensures ParseTarSize(field, decode) == Err(BinarySize) <==> field[0] >= 0x80
    ensures var text := WithoutSpaces(ReadText(field, decode));
            ParseTarSize(field, decode) == Err(InvalidSize) <==>
            && field[0] < 0x80 && text != ""
            && ((!OctalDigit(text[0]) && !(|text| > 1 && text[0] in "+-" && OctalDigit(text[1])))
                || (text[0] == '-' && OctalValueOf(text[1..]) > 0))
  {
    var text := WithoutSpaces(ReadText(field, decode));
    if text != "" {
      OctalFrontDigits(text[1..]);
    }
  }

  function OctalValueOf(s: string): nat {
    OctalFrontDigits(s);
    OctalValue(OctalFront(s))
  }

  // ----- Headers -----

  predicate AllZero(field: seq<Byte>) {
    forall i :: 0 <= i < |field| ==> field[i] == 0
  }

  function TypeOf(header: seq<Byte>): Byte
    requires |header| == BLOCK
  {
    if header[156] == 0 then 48 else header[156]
  }

  function PathOf(header: seq<Byte>, decode: Decoder): string
    requires |header| == BLOCK
  {
    var name := ReadText(header[..100], decode);
    var prefix := ReadText(header[345..500], decode);
    if prefix != "" then prefix + "/" + name else name
  }

  /** Extension headers, and headers without a path, are not listed. */
  predicate IsListed(header: seq<Byte>, decode: Decoder)
    requires |header| == BLOCK
  {
    PathOf(header, decode) != "" && TypeOf(header) as char !in "gxLK"
  }

  predicate EndsWithSlash(s: string) {
    s != "" && s[|s| - 1] == '/'
  }

  function EntryOf(header: seq<Byte>, size: nat, decode: Decoder): Entry
    requires |header| == BLOCK
  {
    var path := PathOf(header, decode);
    Entry(path, size, TypeOf(header) as char == '5' || EndsWithSlash(path))
  }

  function Padded(size: nat): nat {
    (size + BLOCK - 1) / BLOCK * BLOCK
  }

  // ----- The lister -----

  /** An entry and where its header begins. */
  datatype Located = Located(entry: Entry, offset: nat)

  function Scan(bytes: seq<Byte>, offset: nat, found: nat, decode: Decoder): Result<seq<Located>, Problem>
    decreases |bytes| - offset
  {
    if offset + BLOCK > |bytes| || found >= MAX_ENTRIES then Ok([])
    else
      var header := bytes[offset..offset + BLOCK];
      if AllZero(header) then Ok([])
      else
        var size := ParseTarSize(header[124..136], decode);
        if size.Err? then Err(size.error)
        else
          var next := offset + BLOCK + Padded(size.value);
          if next > |bytes| then Err(Truncated)
          else if IsListed(header, decode) then
            var rest := Scan(bytes, next, found + 1, decode);
            if rest.Err? then rest else Ok([Located(EntryOf(header, size.value, decode), offset)] + rest.value)
          else Scan(bytes, next, found, decode)
  }

  function Entries(located: seq<Located>): seq<Entry> {
    seq(|located|, i requires 0 <= i < |located| => located[i].entry)
  }

  function Listing(bytes: seq<Byte>, decode: Decoder): Result<seq<Entry>, Problem> {
    var scanned := Scan(bytes, 0, 0, decode);
    if scanned.Err? then Err(scanned.error) else Ok(Entries(scanned.value))
  }

  function Onto(entries: seq<Entry>, rest: Result<seq<Located>, Problem>): Result<seq<Entry>, Problem> {
    if rest.Err? then Err(rest.error) else Ok(entries + Entries(rest.value))
  }

  lemma OntoStep(entries: seq<Entry>, first: Located, rest: Result<seq<Located>, Problem>)
    ensures Onto(entries, if rest.Err? then rest else Ok([first] + rest.value)) == Onto(entries + [first.entry], rest)
    ensures Onto(entries, Ok([])) == Ok(entries)
  {
    if rest.Ok? {
      assert Entries([first] + rest.value) == [first.entry] + Entries(rest.value);
      assert entries + ([first.entry] + Entries(rest.value)) == (entries + [first.entry]) + Entries(rest.value);
    }
    assert entries + Entries([]) == entries;
  }

  method ListTarEntries(bytes: array<Byte>, decode: Decoder) returns (listed: Result<seq<Entry>, Problem>)
    ensures listed == Listing(bytes[..], decode)
  {
    hide IsListed, EntryOf, ParseTarSize, AllZero, Entries, Onto;
    var entries: seq<Entry> := [];
    var offset := 0;
    ghost var whole := bytes[..];
    OntoEmpty(Scan(whole, 0, 0, decode));
    while offset + BLOCK <= bytes.Length && |entries| < MAX_ENTRIES
      invariant 0 <= offset <= bytes.Length
      invariant Listing(whole, decode) == Onto(entries, Scan(whole, offset, |entries|, decode))
      decreases bytes.Length - offset
    {
      var header := bytes[offset..offset + BLOCK];
      assert header == whole[offset..offset + BLOCK];
      if AllZero(header) {
        break;
      }
      var size := ParseTarSize(header[124..136], decode);
      if size.Err? {
        OntoErr(entries, size.error);
        return Err(size.error);
      }
      var next := offset + BLOCK + Padded(size.value);
      if next > bytes.Length {
        OntoErr(entries, Truncated);
        return Err(Truncated);
      }
      if IsListed(header, decode) {
        var entry := EntryOf(header, size.value, decode);
        OntoStep(entries, Located(entry, offset), Scan(whole, next, |entries| + 1, decode));
        entries := entries + [entry];
      }
      offset := next;
    }
    OntoDone(entries);
    return Ok(entries);
  }

  lemma OntoEmpty(rest: Result<seq<Located>, Problem>)
    ensures Onto([], rest) == if rest.Err? then Err(rest.error) else Ok(Entries(rest.value))
  {
    if rest.Ok? {
      assert [] + Entries(rest.value) == Entries(rest.value);
    }
  }

  lemma OntoErr(entries: seq<Entry>, problem: Problem)
    ensures Onto(entries, Err(problem)) == Err(problem)
  {
  }

  lemma OntoDone(entries: seq<Entry>)
    ensures Onto(entries, Ok([])) == Ok(entries)
  {
    assert entries + Entries([]) == entries;
  }

  // ----- Where the data lies -----

  ghost predicate Regions(located: seq<Located>, from: nat, length: nat) {
    && (forall i :: 0 <= i < |located| ==>
          from <= located[i].offset && located[i].offset + BLOCK + located[i].entry.size <= length)
    && (forall i, j :: 0 <= i < j < |located| ==>
          located[i].offset + BLOCK + located[i].entry.size <= located[j].offset)
  }

  lemma PaddedMeaning(size: nat)
    ensures size <= Padded(size) < size + BLOCK && Padded(size) % BLOCK == 0
  {
  }

  /** The data of every listed entry lies inside the archive, and the data regions are disjoint and increasing. */
  lemma {:induction false} RegionsAreDisjoint(bytes: seq<Byte>, offset: nat, found: nat, decode: Decoder)
    ensures Scan(bytes, offset, found, decode).Ok? ==>
              && Regions(Scan(bytes, offset, found, decode).value, offset, |bytes|)
              && (found <= MAX_ENTRIES ==> found + |Scan(bytes, offset, found, decode).value| <= MAX_ENTRIES)
    decreases |bytes| - offset
  {
    hide IsListed, PathOf, ParseTarSize, AllZero, Padded;
    if offset + BLOCK <= |bytes| && found < MAX_ENTRIES {
      var header := bytes[offset..offset + BLOCK];
      var size := ParseTarSize(header[124..136], decode);
      if !AllZero(header) && size.Ok? {
        PaddedMeaning(size.value);
        var next := offset + BLOCK + Padded(size.value);
        if next <= |bytes| {
          RegionsAreDisjoint(bytes, next, if IsListed(header, decode) then found + 1 else found, decode);
        }
      }
    }
  }
}
