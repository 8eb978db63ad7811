/** Rendering an accepted plugin action for the inputs a user gave. */
module PluginRender {
  import opened Wrappers
  import opened ShellWords
  import opened PluginActions

  // ----- Integers -----

  const I64_MIN := -0x8000_0000_0000_0000
  const I64_MAX := 0x7fff_ffff_ffff_ffff

  function Digit(n: nat): char
    requires n < 10
  {
    '0' + n as char
  }

  function Decimal(n: nat): string {
    if n < 10 then [Digit(n)] else Decimal(n / 10) + [Digit(n % 10)]
  }

  function IntText(n: int): string {
    if n < 0 then "-" + Decimal(-n) else Decimal(n)
  }

  function ParseDigits(s: string): Option<nat> {
    if s == "" then Some(0)
    else
      var last := s[|s| - 1];
      if !('0' <= last <= '9') then None
      else
        var front := ParseDigits(s[..|s| - 1]);
        if front.None? then None else Some(10 * front.value + (last as int - '0' as int))
  }

  /** An optional sign, at least one digit, and a value of 64 bits. */
  function ParseI64(text: string): Option<int> {
    var sign := text != "" && text[0] in "+-";
    var digits := if sign then text[1..] else text;
    var magnitude := ParseDigits(digits);
    if digits == "" || magnitude.None? then None
    else
      var m: int := magnitude.value;
      var n := if sign && text[0] == '-' then -m else m;
      if I64_MIN <= n <= I64_MAX then Some(n) else None
  }

  lemma {:induction false} DecimalParses(n: nat)
    ensures Decimal(n) != "" && Decimal(n)[0] !in "+-" && ParseDigits(Decimal(n)) == Some(n)
    ensures forall c :: c in Decimal(n) ==> '0' <= c <= '9'
  {
    var s := Decimal(n);
    if n < 10 {
      assert s[..0] == "";
    } else {
      DecimalParses(n / 10);
      assert s[..|s| - 1] == Decimal(n / 10);
      assert s[0] == Decimal(n / 10)[0];
    }
  }

  lemma IntegerRoundTrip(n: int)
    requires I64_MIN <= n <= I64_MAX
    ensures ParseI64(IntText(n)) == Some(n)
    ensures forall c :: c in IntText(n) ==> '0' <= c <= '9' || c == '-'
  {
    DecimalParses(if n < 0 then -n else n);
    if n < 0 {
      assert IntText(n)[1..] == Decimal(-n);
    }
  }

  function Noughts(n: nat): (s: string)
    ensures |s| == n && forall c :: c in s ==> c == '0'
  {
    seq(n, _ => '0')
  }

  lemma {:induction false} DigitsAre(s: string) returns (k: nat)
    requires s != "" && ParseDigits(s).Some?
    ensures s == Noughts(k) + Decimal(ParseDigits(s).value)
  {
    var front, last := s[..|s| - 1], s[|s| - 1];
    assert s == front + [last];
    if front == "" {
      k := 0;
      assert s == [Digit(ParseDigits(s).value)];
    } else {
      k := DigitsAre(front);
      if ParseDigits(front).value == 0 {
        assert front == Noughts(k) + "0" == Noughts(k + 1);
        k := k + 1;
      } else {
        assert Decimal(ParseDigits(s).value) == Decimal(ParseDigits(front).value) + [last];
      }
    }
  }

  lemma {:induction false} NoughtsParse(k: nat, n: nat)
    ensures ParseDigits(Noughts(k) + Decimal(n)) == Some(n)
    decreases n
  {
    var s := Noughts(k) + Decimal(n);
    assert s[..|s| - 1] == Noughts(k) + Decimal(n)[..|Decimal(n)| - 1];
    if n < 10 {
      assert s[..|s| - 1] == Noughts(k);
      OnlyNoughts(k);
    } else {
      NoughtsParse(k, n / 10);
      assert Decimal(n)[..|Decimal(n)| - 1] == Decimal(n / 10);
    }
  }

  lemma {:induction false} OnlyNoughts(k: nat)
    ensures ParseDigits(Noughts(k)) == Some(0)
  {
    if k > 0 {
      OnlyNoughts(k - 1);
      assert Noughts(k)[..k - 1] == Noughts(k - 1);
    }
  }

  /** A text for an integer: perhaps a sign, perhaps leading zeros, and its decimal digits. */
  ghost predicate Writes(text: string, n: int) {
    exists k: nat ::
      || (n >= 0 && (text == Noughts(k) + Decimal(n) || text == "+" + (Noughts(k) + Decimal(n))))
      || (n <= 0 && text == "-" + (Noughts(k) + Decimal(-n)))
  }

  lemma WrittenBy(text: string, n: int)
    requires ParseI64(text) == Some(n)
    ensures Writes(text, n)
  {
    hide Decimal, ParseDigits;
    var sign := text != "" && text[0] in "+-";
    var digits := if sign then text[1..] else text;
    var k := DigitsAre(digits);
    if sign {
      assert text == [text[0]] + digits;
    }
  }

  lemma UnsignedParses(digits: string, m: int)
    requires digits != "" && digits[0] !in "+-" && ParseDigits(digits).Some? && ParseDigits(digits).value == m
    ensures ParseI64(digits) == if m <= I64_MAX then Some(m) else None
    ensures ParseI64("+" + digits) == if m <= I64_MAX then Some(m) else None
    ensures ParseI64("-" + digits) == if I64_MIN <= -m then Some(-m) else None
  {
    hide ParseDigits;
    assert ("+" + digits)[1..] == digits && ("-" + digits)[1..] == digits;
  }

  lemma DigitsParse(k: nat, m: nat)
    ensures var digits := Noughts(k) + Decimal(m);
            digits != "" && digits[0] !in "+-" && ParseDigits(digits) == Some(m)
  {
    hide Decimal, ParseDigits;
    NoughtsParse(k, m);
    DecimalParses(m);
  }

  /** Parsing takes exactly the texts of 64-bit integers, and gives the integer they are for. */
  lemma ParseMeaning(text: string, n: int)
    ensures ParseI64(text) == Some(n) <==> I64_MIN <= n <= I64_MAX && Writes(text, n)
  {
    hide Decimal, ParseDigits, Noughts;
    if ParseI64(text) == Some(n) {
      WrittenBy(text, n);
    }
    if I64_MIN <= n <= I64_MAX && Writes(text, n) {
      var k: nat :|
        || (n >= 0 && (text == Noughts(k) + Decimal(n) || text == "+" + (Noughts(k) + Decimal(n))))
        || (n <= 0 && text == "-" + (Noughts(k) + Decimal(-n)));
      var m := if n < 0 then -n else n;
      DigitsParse(k, m);
      UnsignedParses(Noughts(k) + Decimal(m), m);
    }
  }

  // ----- Inputs -----

  predicate Supported(text: string) {
    ByteLength(text) <= 1024 && '\0' !in text && '\n' !in text && '\r' !in text
  }

  function Normalize(input: Input, value: Json): (normalized: Result<string, Problem>)
    ensures normalized.Ok? ==> Supported(normalized.value)
    ensures normalized.Ok? && input.kind.Select? ==> normalized.value in input.options
  {
    var text :=
      match input.kind
      case Text => if value.Str? then Some(value.text) else None
      case Integer =>
        if value.Int? && I64_MIN <= value.number <= I64_MAX then Some(IntText(value.number))
        else if value.Str? then
          var number := ParseI64(value.text);
          if number.Some? then Some(IntText(number.value)) else None
        else None
      case Boolean => if value.Bool? then Some(if value.flag then "true" else "false") else None
      case Select => if value.Str? && value.text in input.options then Some(value.text) else None;
    if text.None? then Err(WrongType)
    else if !Supported(text.value) then Err(UnsupportedCharacters)
    else Ok(text.value)
  }

  /** What an input renders as, kind by kind: a text or a chosen option as it is, an integer as its decimal, a flag as
      `true` or `false`. */
  ghost predicate RendersAs(input: Input, value: Json, word: string) {
    match input.kind
    case Text => value == Str(word)
    case Select => value == Str(word) && word in input.options
    case Boolean => (value == Bool(true) && word == "true") || (value == Bool(false) && word == "false")
    case Integer =>
      exists n :: I64_MIN <= n <= I64_MAX && word == IntText(n) && (value == Int(n) || (value.Str? && Writes(value.text, n)))
  }

  /** A value is taken exactly when it is of the input's kind and its rendering fits into 1024 bytes without NUL and
      line breaks; a value of another kind is refused as such. */
  lemma NormalizeMeaning(input: Input, value: Json, word: string)
    ensures Normalize(input, value) == Ok(word) <==>
            RendersAs(input, value, word) && ByteLength(word) <= 1024
            && forall i :: 0 <= i < |word| ==> word[i] != '\0' && word[i] != '\n' && word[i] != '\r'
    ensures Normalize(input, value) == Err(WrongType) <==> forall w :: !RendersAs(input, value, w)
  {
    hide ByteLength, IntText, ParseI64, Writes;
    if input.kind.Integer? && value.Str? {
      forall n ensures ParseI64(value.text) == Some(n) <==> I64_MIN <= n <= I64_MAX && Writes(value.text, n) {
        ParseMeaning(value.text, n);
      }
    }
    if Normalize(input, value) != Err(WrongType) {
      var w := RenderingOf(input, value);
    }
  }

  lemma RenderingOf(input: Input, value: Json) returns (word: string)
    requires Normalize(input, value) != Err(WrongType)
    ensures RendersAs(input, value, word)
  {
    hide ByteLength, IntText, ParseI64, Writes;
    match input.kind
    case Text => word := value.text;
    case Select => word := value.text;
    case Boolean => word := if value.flag then "true" else "false";
    case Integer =>
      var n := if value.Int? then value.number else ParseI64(value.text).value;
      if value.Str? {
        ParseMeaning(value.text, n);
      }
      word := IntText(n);
  }

  /** An integer is rendered the same whether it was given as a number or as any text for it. */
  lemma IntegerInput(input: Input, n: int, text: string)
    requires input.kind == Integer && ParseI64(text) == Some(n)
    ensures Normalize(input, Str(text)) == Normalize(input, Int(n))
    ensures Normalize(input, Int(n)).Ok? ==> ParseI64(Normalize(input, Int(n)).value) == Some(n)
  {
    IntegerRoundTrip(n);
  }

  /** Normalizing a normalized value changes nothing, except that a Boolean does not take its own text. */
  lemma NormalizeIdempotent(input: Input, value: Json)
    requires Normalize(input, value).Ok?
    ensures Normalize(input, Str(Normalize(input, value).value)) ==
            if input.kind.Boolean? then Err(WrongType) else Normalize(input, value)
  {
    if input.kind.Integer? {
      var n := if value.Int? then value.number else ParseI64(value.text).value;
      IntegerRoundTrip(n);
    }
  }

  type Given = map<string, Json>

  function ValueOf(input: Input, given: Given): Result<string, Problem> {
    if input.id in given then Normalize(input, given[input.id])
    else if input.required then Err(MissingInput)
    else Ok("")
  }

  function Values(inputs: seq<Input>, given: Given): Result<map<string, string>, Problem> {
    if inputs == [] then Ok(map[])
    else
      var n := |inputs| - 1;
      var before := Values(inputs[..n], given);
      if before.Err? then before
      else
        var value := ValueOf(inputs[n], given);
        if value.Err? then Err(value.error) else Ok(before.value[inputs[n].id := value.value])
  }

  // ----- Commands -----

  function RenderArgument(arg: string, values: map<string, string>): Result<string, Problem> {
    match ReferencedInputs(arg)
    case Err(problem) => Err(problem)
    case Ok(references) =>
      if references == [] then Ok(arg)
      else if |references| == 1 && arg == Template(references[0]) then
        if references[0] in values then Ok(values[references[0]]) else Err(Unresolved)
      else Err(PartialTemplate)
  }

  function RenderArguments(args: seq<string>, values: map<string, string>): Result<seq<string>, Problem> {
    if args == [] then Ok([])
    else
      var n := |args| - 1;
      var before := RenderArguments(args[..n], values);
      if before.Err? then before
      else
        var last := RenderArgument(args[n], values);
        if last.Err? then Err(last.error) else Ok(before.value + [last.value])
  }

  predicate NoExtraInput(action: Action, given: Given) {
    forall id :: id in given ==> exists i :: 0 <= i < |action.inputs| && action.inputs[i].id == id
  }

  /** The words of the command, before quoting and without sudo. */
  function CommandWords(action: Action, given: Given): Result<seq<string>, Problem> {
    if !NoExtraInput(action, given) then Err(UnexpectedInput)
    else
      match Values(action.inputs, given)
      case Err(problem) => Err(problem)
      case Ok(values) =>
        match RenderArguments(action.args, values)
        case Err(problem) => Err(problem)
        case Ok(args) => Ok([action.program] + args)
  }

  function SudoWords(useSudo: bool, hasPassword: bool): seq<string> {
    if !useSudo then [] else if hasPassword then ["sudo", "-S", "-p", ""] else ["sudo", "-n"]
  }

  function SudoPrefix(useSudo: bool, hasPassword: bool): string {
    if !useSudo then "" else if hasPassword then "sudo -S -p '' " else "sudo -n "
  }

  function RenderCommand(action: Action, given: Given, useSudo: bool, hasPassword: bool): Result<string, Problem> {
    match CommandWords(action, given)
    case Err(problem) => Err(problem)
    case Ok(words) => Ok(SudoPrefix(useSudo, hasPassword) + JoinWords(QuoteAll(words)))
  }

  /** An input that cannot be taken decides the result, whatever follows it. */
  lemma {:induction false} FirstProblem(inputs: seq<Input>, given: Given, i: nat)
    requires i < |inputs| && Values(inputs[..i], given).Ok? && ValueOf(inputs[i], given).Err?
    ensures Values(inputs, given) == Err(ValueOf(inputs[i], given).error)
    decreases |inputs|
  {
    hide ValueOf;
    var n := |inputs| - 1;
    if i < n {
      assert inputs[..n][..i] == inputs[..i];
      FirstProblem(inputs[..n], given, i);
    }
  }

  lemma {:induction false} FirstBadArgument(args: seq<string>, values: map<string, string>, i: nat)
    requires i < |args| && RenderArguments(args[..i], values).Ok? && RenderArgument(args[i], values).Err?
    ensures RenderArguments(args, values) == Err(RenderArgument(args[i], values).error)
    decreases |args|
  {
    hide RenderArgument;
    var n := |args| - 1;
    if i < n {
      assert args[..n][..i] == args[..i];
      FirstBadArgument(args[..n], values, i);
    }
  }

  method CollectValues(inputs: seq<Input>, given: Given) returns (values: Result<map<string, string>, Problem>)
    ensures values == Values(inputs, given)
  {
    hide Normalize;
    var found: map<string, string> := map[];
    for i := 0 to |inputs|
      invariant Values(inputs[..i], given) == Ok(found)
    {
      var input := inputs[i];
      assert inputs[..i + 1][..i] == inputs[..i];
      if input.id in given {
        var value := Normalize(input, given[input.id]);
        if value.Err? {
          FirstProblem(inputs, given, i);
          return Err(value.error);
        }
        found := found[input.id := value.value];
      } else if input.required {
        FirstProblem(inputs, given, i);
        return Err(MissingInput);
      } else {
        found := found[input.id := ""];
      }
    }
    assert inputs[..|inputs|] == inputs;
    return Ok(found);
  }

  method RenderTemplate(arg: string, values: map<string, string>) returns (rendered: Result<string, Problem>)
    ensures rendered == RenderArgument(arg, values)
  {
    hide ReferencedInputs;
    var references := FindReferences(arg);
    if references.Err? {
      return Err(references.error);
    }
    if references.value == [] {
      return Ok(arg);
    }
    if |references.value| != 1 || arg != Template(references.value[0]) {
      return Err(PartialTemplate);
    }
    if references.value[0] !in values {
      return Err(Unresolved);
    }
    return Ok(values[references.value[0]]);
  }

  method RenderParts(program: string, args: seq<string>, values: map<string, string>)
    returns (parts: Result<seq<string>, Problem>)
    ensures match RenderArguments(args, values)
            case Err(problem) => parts == Err(problem)
            case Ok(words) => parts == Ok(QuoteAll([program] + words))
  {
    hide RenderArgument, ShellQuote;
    ghost var words: seq<string> := [];
    var quoted := [ShellQuote(program)];
    for i := 0 to |args|
      invariant RenderArguments(args[..i], values) == Ok(words)
      invariant quoted == QuoteAll([program] + words)
    {
      assert args[..i + 1][..i] == args[..i];
      var rendered := RenderTemplate(args[i], values);
      if rendered.Err? {
        FirstBadArgument(args, values, i);
        return Err(rendered.error);
      }
      assert [program] + (words + [rendered.value]) == ([program] + words) + [rendered.value];
      words := words + [rendered.value];
      quoted := quoted + [ShellQuote(rendered.value)];
    }
    assert args[..|args|] == args;
    return Ok(quoted);
  }

  method Render(action: Action, given: Given, useSudo: bool, hasPassword: bool) returns (command: Result<string, Problem>)
    ensures command == RenderCommand(action, given, useSudo, hasPassword)
  {
    hide Values, RenderArguments, JoinWords, ShellQuote;
    var declared := set i | 0 <= i < |action.inputs| :: action.inputs[i].id;
    if exists id :: id in given && id !in declared {
      return Err(UnexpectedInput);
    }
    var values := CollectValues(action.inputs, given);
    if values.Err? {
      return Err(values.error);
    }
    var parts := RenderParts(action.program, action.args, values.value);
    if parts.Err? {
      return Err(parts.error);
    }
    var body := JoinWords(parts.value);
    if useSudo {
      var prefix := if hasPassword then "sudo -S -p '' " else "sudo -n ";
      return Ok(prefix + body);
    }
    assert "" + body == body;
    return Ok(body);
  }

  // ----- What is rendered -----

  lemma {:induction false} ValuesMeaning(inputs: seq<Input>, given: Given)
    requires forall i, j :: 0 <= i < j < |inputs| ==> inputs[i].id != inputs[j].id
    ensures Values(inputs, given).Ok? <==> forall i :: 0 <= i < |inputs| ==> ValueOf(inputs[i], given).Ok?
    ensures Values(inputs, given).Ok? ==>
              && (forall id :: id in Values(inputs, given).value <==> Declares(inputs, id))
              && (forall i :: 0 <= i < |inputs| ==>
                    inputs[i].id in Values(inputs, given).value
                    && Ok(Values(inputs, given).value[inputs[i].id]) == ValueOf(inputs[i], given))
  {
    hide ValueOf, Declares;
    if inputs == [] {
      DeclaresNone();
    } else {
      var n := |inputs| - 1;
      ValuesMeaning(inputs[..n], given);
      assert forall i :: 0 <= i < n ==> inputs[..n][i] == inputs[i];
      DeclaresStep(inputs);
    }
  }

  lemma DeclaresNone()
    ensures forall id :: !Declares([], id)
  {
  }

  lemma DeclaresStep(inputs: seq<Input>)
    requires inputs != []
    ensures forall id :: Declares(inputs, id) <==> Declares(inputs[..|inputs| - 1], id) || id == inputs[|inputs| - 1].id
  {
    assert forall i :: 0 <= i < |inputs| - 1 ==> inputs[..|inputs| - 1][i] == inputs[i];
  }

  lemma {:induction false} ArgumentsMeaning(args: seq<string>, values: map<string, string>)
    ensures RenderArguments(args, values).Ok? <==> forall i :: 0 <= i < |args| ==> RenderArgument(args[i], values).Ok?
    ensures RenderArguments(args, values).Ok? ==>
              && |RenderArguments(args, values).value| == |args|
              && (forall i :: 0 <= i < |args| ==> Ok(RenderArguments(args, values).value[i]) == RenderArgument(args[i], values))
  {
    hide RenderArgument;
    if args != [] {
      var n := |args| - 1;
      ArgumentsMeaning(args[..n], values);
      assert forall i :: 0 <= i < n ==> args[..n][i] == args[i];
    }
  }

  /** What the user gave is exactly what the action can take. */
  ghost predicate Suits(action: Action, given: Given) {
    && (forall id :: id in given ==> Declares(action.inputs, id))
    && (forall i :: 0 <= i < |action.inputs| && action.inputs[i].id in given ==>
          Normalize(action.inputs[i], given[action.inputs[i].id]).Ok?)
    && (forall i :: 0 <= i < |action.inputs| && action.inputs[i].required ==> action.inputs[i].id in given)
  }

  lemma DeclaredValues(inputs: seq<Input>, given: Given, values: map<string, string>, arg: string)
    requires ValidArgument(arg, inputs)
    requires forall id :: id in values <==> Declares(inputs, id)
    ensures RenderArgument(arg, values).Ok?
  {
    hide ReferencedInputs, Declares;
  }

  /** An accepted action renders for exactly the inputs that suit it. */
  lemma AcceptedRenders(action: Action, given: Given, useSudo: bool, hasPassword: bool)
    requires Accepted(action)
    ensures RenderCommand(action, given, useSudo, hasPassword).Ok? <==> Suits(action, given)
  {
    hide Normalize, ReferencedInputs, ValidInput, ValidArgument, JoinWords, ShellQuote, ValidProgram, ValidText,
         ValidIdentifier, ValidOutput, RenderArgument, RenderArguments, Values;
    ValuesMeaning(action.inputs, given);
    assert NoExtraInput(action, given) <==> forall id :: id in given ==> Declares(action.inputs, id);
    if Values(action.inputs, given).Ok? {
      var values := Values(action.inputs, given).value;
      forall i | 0 <= i < |action.args| ensures RenderArgument(action.args[i], values).Ok? {
        DeclaredValues(action.inputs, given, values, action.args[i]);
      }
      ArgumentsMeaning(action.args, values);
    }
  }

  /** The template of a valid identifier refers to it and to nothing else. */
  lemma TemplateRefers(id: string)
    requires ValidIdentifier(id)
    ensures ReferencedInputs(Template(id)) == Ok([id])
  {
    hide ValidIdentifier;
    ReferencesInTurn("", id, "");
    assert "" + Template(id) + "" == Template(id);
    assert Find("", OPEN).None?;
    assert [id] + [] == [id];
  }

  lemma {:induction false} JoinAppend(a: seq<string>, b: seq<string>)
    requires a != [] && b != []
    ensures JoinWords(a + b) == JoinWords(a) + " " + JoinWords(b)
  {
    if |a| == 1 {
      assert (a + b)[1..] == b;
    } else {
      assert (a + b)[1..] == a[1..] + b;
      JoinAppend(a[1..], b);
    }
  }

  lemma SudoQuoted(useSudo: bool, hasPassword: bool, words: seq<string>)
    requires words != []
    ensures SudoPrefix(useSudo, hasPassword) + JoinWords(QuoteAll(words))
         == JoinWords(QuoteAll(SudoWords(useSudo, hasPassword) + words))
  {
    var sudo := SudoWords(useSudo, hasPassword);
    assert QuoteAll(sudo + words) == QuoteAll(sudo) + QuoteAll(words);
    if useSudo {
      JoinAppend(QuoteAll(sudo), QuoteAll(words));
      SudoText(hasPassword);
    } else {
      assert sudo + words == words && "" + JoinWords(QuoteAll(words)) == JoinWords(QuoteAll(words));
    }
  }

  lemma SudoText(hasPassword: bool)
    ensures JoinWords(QuoteAll(SudoWords(true, hasPassword))) + " " == SudoPrefix(true, hasPassword)
  {
    hide ShellQuote, JoinWords;
    SudoWordsAreSafe();
    if hasPassword {
      assert QuoteAll(["sudo", "-S", "-p", ""]) == ["sudo", "-S", "-p", "''"];
      JoinFour("sudo", "-S", "-p", "''");
    } else {
      assert QuoteAll(["sudo", "-n"]) == ["sudo", "-n"];
      JoinTwo("sudo", "-n");
    }
  }

  lemma SudoWordsAreSafe()
    ensures ShellQuote("sudo") == "sudo" && ShellQuote("-n") == "-n" && ShellQuote("-S") == "-S" && ShellQuote("-p") == "-p"
    ensures ShellQuote("") == "''"
  {
  }

  lemma JoinTwo(a: string, b: string)
    ensures JoinWords([a, b]) == a + " " + b
  {
    assert [a, b][1..] == [b];
  }

  lemma JoinFour(a: string, b: string, c: string, d: string)
    ensures JoinWords([a, b, c, d]) == a + " " + (b + " " + (c + " " + d))
  {
    assert [a, b, c, d][1..] == [b, c, d] && [b, c, d][1..] == [c, d];
    JoinTwo(c, d);
  }

  lemma WordsInOrder(sudo: seq<string>, program: string, args: seq<string>)
    ensures var words := sudo + ([program] + args);
            && |words| == |sudo| + 1 + |args| && words[..|sudo|] == sudo && words[|sudo|] == program
            && forall i :: 0 <= i < |args| ==> words[|sudo| + 1 + i] == args[i]
  {
  }

  /** The word for an input: the rendering of its value, or the empty word when it was left out. */
  ghost predicate WordFor(input: Input, given: Given, word: string) {
    if input.id in given then RendersAs(input, given[input.id], word) else word == ""
  }

  lemma ValueRenders(input: Input, given: Given, word: string)
    requires ValueOf(input, given) == Ok(word)
    ensures WordFor(input, given, word)
  {
    hide Normalize, RendersAs;
    if input.id in given {
      NormalizeMeaning(input, given[input.id], word);
    }
  }

  /** Each argument is itself, or the value of the input that it names. */
  lemma RenderedArguments(action: Action, given: Given)
    requires Accepted(action)
    requires Values(action.inputs, given).Ok? && RenderArguments(action.args, Values(action.inputs, given).value).Ok?
    ensures var args := RenderArguments(action.args, Values(action.inputs, given).value).value;
            && |args| == |action.args|
            && (forall i :: 0 <= i < |args| && ReferencedInputs(action.args[i]) == Ok([]) ==> args[i] == action.args[i])
            && (forall i, j ::
                  0 <= i < |args| && 0 <= j < |action.inputs| && action.args[i] == Template(action.inputs[j].id) ==>
                  WordFor(action.inputs[j], given, args[i]))
  {
    hide Normalize, ReferencedInputs, ValidArgument, ValidProgram, ValidText, ValidIdentifier, ValidOutput, RenderArguments,
         Values, Template, ValueOf, WordFor;
    ValuesMeaning(action.inputs, given);
    ArgumentsMeaning(action.args, Values(action.inputs, given).value);
    var args := RenderArguments(action.args, Values(action.inputs, given).value).value;
    forall i, j | 0 <= i < |args| && 0 <= j < |action.inputs| && action.args[i] == Template(action.inputs[j].id)
      ensures WordFor(action.inputs[j], given, args[i])
    {
      TemplateRefers(action.inputs[j].id);
      ValueRenders(action.inputs[j], given, args[i]);
    }
  }

  lemma SudoSpelled(useSudo: bool, hasPassword: bool)
    ensures SudoWords(useSudo, hasPassword)
         == if useSudo && hasPassword then ["sudo", "-S", "-p", ""] else if useSudo then ["sudo", "-n"] else []
  {
  }

  /** The sudo words, the program and one word for each argument: a literal argument as it is written, a template as
      the word for its input. */
  ghost predicate CommandLine(action: Action, given: Given, sudo: seq<string>, words: seq<string>) {
    && |words| == |sudo| + 1 + |action.args|
    && words[..|sudo|] == sudo && words[|sudo|] == action.program
    && (forall i :: 0 <= i < |action.args| && ReferencedInputs(action.args[i]) == Ok([]) ==>
          words[|sudo| + 1 + i] == action.args[i])
    && (forall i, j ::
          0 <= i < |action.args| && 0 <= j < |action.inputs| && action.args[i] == Template(action.inputs[j].id) ==>
          WordFor(action.inputs[j], given, words[|sudo| + 1 + i]))
  }

  lemma ArgumentsInOrder(action: Action, given: Given, sudo: seq<string>)
    requires Accepted(action)
    requires Values(action.inputs, given).Ok? && RenderArguments(action.args, Values(action.inputs, given).value).Ok?
    ensures CommandLine(action, given, sudo,
                        sudo + ([action.program] + RenderArguments(action.args, Values(action.inputs, given).value).value))
  {
    hide Accepted, ReferencedInputs, RenderArguments, Values, Template, WordFor;
    RenderedArguments(action, given);
    WordsInOrder(sudo, action.program, RenderArguments(action.args, Values(action.inputs, given).value).value);
  }

  /** The remote shell reads a rendered command as that command line, and nothing in a value is expanded again. */
  lemma RenderedWords(action: Action, given: Given, useSudo: bool, hasPassword: bool)
    requires Accepted(action) && Suits(action, given)
    ensures var command := RenderCommand(action, given, useSudo, hasPassword);
            var sudo := if useSudo && hasPassword then ["sudo", "-S", "-p", ""] else if useSudo then ["sudo", "-n"] else [];
            && command.Ok? && PosixWords(command.value).Some?
            && CommandLine(action, given, sudo, PosixWords(command.value).value)
  {
    hide Accepted, JoinWords, RenderArguments, Values, QuoteAll, PosixWords, SudoWords, SudoPrefix, Suits, NoExtraInput,
         CommandLine;
    SudoSpelled(useSudo, hasPassword);
    AcceptedRenders(action, given, useSudo, hasPassword);
    var sudo := SudoWords(useSudo, hasPassword);
    var all := [action.program] + RenderArguments(action.args, Values(action.inputs, given).value).value;
    SudoQuoted(useSudo, hasPassword, all);
    PosixUndoesQuote(sudo + all);
    ArgumentsInOrder(action, given, sudo);
  }
}
