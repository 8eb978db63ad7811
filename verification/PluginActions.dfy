/** Plugin commands: which declared actions are accepted, and how an accepted one is rendered as a command line
    for the remote shell. */
module PluginActions {
  import opened Wrappers
  import opened PaneIds
  import opened ShellWords

  datatype InputKind = Text | Integer | Boolean | Select

  datatype Input = Input(
    id: string, caption: string, description: string, placeholder: string,
    required: bool, kind: InputKind, options: seq<string>)

  datatype Output = Output(table: bool, columns: seq<string>, delimiter: string)

  datatype Action = Action(
    id: string, name: string, description: string, program: string, args: seq<string>, inputs: seq<Input>,
    requiresConfirmation: bool, elevate: bool, allowSudo: bool, output: Output)

  /** A JSON value as far as inputs tell them apart. */
  datatype Json = Str(text: string) | Int(number: int) | Bool(flag: bool) | Other

  datatype Problem =
    | BadIdentifier | BadText | BadProgram | Elevation | TooMany | Duplicate | BadOptions | Oversized
    | Unclosed | PartialTemplate | Undeclared | BadTable
    | UnexpectedInput | MissingInput | WrongType | UnsupportedCharacters | Unresolved

  // ----- Texts -----

  /** Lengths are counted in UTF-8 bytes. */
  function ByteLength(s: string): nat {
    if s == "" then 0 else |Utf8(s[0])| + ByteLength(s[1..])
  }

  predicate LowerOrDigit(c: char) {
    'a' <= c <= 'z' || '0' <= c <= '9'
  }

  predicate ValidIdentifier(value: string) {
    && 3 <= ByteLength(value) <= 64
    && value != "" && LowerOrDigit(value[0])
    && forall i :: 0 <= i < |value| ==> LowerOrDigit(value[i]) || value[i] in "._-"
  }

  predicate ValidOptionalText(value: string, most: nat) {
    ByteLength(value) <= most && '\0' !in value
  }

  predicate ValidText(value: string, most: nat) {
    ValidOptionalText(value, most) && exists i :: 0 <= i < |value| && !IsWhitespace(value[i])
  }

  predicate ValidProgram(program: string) {
    && program != "" && ByteLength(program) <= 256
    && (forall i :: 0 <= i < |program| - 1 ==> !(program[i] == '.' && program[i + 1] == '.'))
    && forall i :: 0 <= i < |program| ==> AsciiAlphanumeric(program[i]) || program[i] in "_-./+"
  }

  // ----- Templates -----

  const OPEN := "{{input."
  const CLOSE := "}}"

  function Template(id: string): string {
    OPEN + id + CLOSE
  }

  predicate At(s: string, pattern: string, k: int) {
    0 <= k && k + |pattern| <= |s| && s[k..k + |pattern|] == pattern
  }

  lemma SliceShifted(s: string, k: nat, n: nat)
    requires 0 < k && k + n <= |s|
    ensures s[k..k + n] == s[1..][k - 1..k - 1 + n]
  {
    var left, right := s[k..k + n], s[1..][k - 1..k - 1 + n];
    assert forall i :: 0 <= i < n ==> left[i] == s[k + i] == right[i];
  }

  lemma AtShifted(s: string, pattern: string)
    requires s != ""
    ensures forall k :: k > 0 ==> (At(s, pattern, k) <==> At(s[1..], pattern, k - 1))
  {
    forall k | k > 0 ensures At(s, pattern, k) <==> At(s[1..], pattern, k - 1) {
      if k + |pattern| <= |s| {
        SliceShifted(s, k, |pattern|);
      }
    }
  }

  /** The first place where the pattern occurs. */
  function Find(s: string, pattern: string): (at: Option<nat>)
    ensures at.Some? ==> At(s, pattern, at.value) && forall k :: 0 <= k < at.value ==> !At(s, pattern, k)
    ensures at.None? ==> forall k :: !At(s, pattern, k)
    decreases |s|
  {
    if At(s, pattern, 0) then Some(0)
    else if s == "" then None
    else
      AtShifted(s, pattern);
      var later := Find(s[1..], pattern);
      assert forall k :: k > 0 && At(s, pattern, k) ==> At(s[1..], pattern, k - 1);
      if later.None? then None else Some(later.value + 1)
  }

  function ReferencedInputs(template: string): Result<seq<string>, Problem>
    decreases |template|
  {
    var start := Find(template, OPEN);
    if start.None? then Ok([])
    else
      var after := template[start.value + |OPEN|..];
      var end := Find(after, CLOSE);
      if end.None? then Err(Unclosed)
      else if !ValidIdentifier(after[..end.value]) then Err(BadIdentifier)
      else
        Prepend([after[..end.value]], ReferencedInputs(after[end.value + 2..]))
  }

  function Prepend(found: seq<string>, more: Result<seq<string>, Problem>): Result<seq<string>, Problem> {
    if more.Err? then more else Ok(found + more.value)
  }

  lemma PrependOne(found: seq<string>, id: string, more: Result<seq<string>, Problem>)
    ensures Prepend(found, Prepend([id], more)) == Prepend(found + [id], more)
    ensures Prepend([], more) == more && Prepend(found, Ok([])) == Ok(found)
    ensures forall problem :: Prepend(found, Err(problem)) == Err(problem)
  {
    if more.Ok? {
      assert found + ([id] + more.value) == (found + [id]) + more.value;
      assert [] + more.value == more.value;
    }
    assert found + [] == found;
  }

  method FindReferences(template: string) returns (references: Result<seq<string>, Problem>)
    ensures references == ReferencedInputs(template)
  {
    hide ValidIdentifier, Find;
    var rest := template;
    var referenced: seq<string> := [];
    PrependOne([], "", ReferencedInputs(template));
    var start := Find(rest, OPEN);
    while start.Some?
      invariant start == Find(rest, OPEN)
      invariant ReferencedInputs(template) == Prepend(referenced, ReferencedInputs(rest))
      decreases |rest|
    {
      var afterStart := rest[start.value + |OPEN|..];
      var end := Find(afterStart, CLOSE);
      if end.None? {
        return Err(Unclosed);
      }
      var inputId := afterStart[..end.value];
      if !ValidIdentifier(inputId) {
        return Err(BadIdentifier);
      }
      var after := afterStart[end.value + 2..];
      PrependOne(referenced, inputId, ReferencedInputs(after));
      referenced := referenced + [inputId];
      rest := after;
      start := Find(rest, OPEN);
    }
    PrependOne(referenced, "", Ok([]));
    return Ok(referenced);
  }

  ghost predicate Occurs(s: string, pattern: string) {
    exists k :: At(s, pattern, k)
  }

  lemma OccursLater(s: string, from: nat, pattern: string)
    requires from <= |s| && Occurs(s[from..], pattern)
    ensures Occurs(s, pattern)
  {
    var k :| At(s[from..], pattern, k);
    assert s[from..][k..k + |pattern|] == s[from + k..from + k + |pattern|];
    assert At(s, pattern, from + k);
  }

  /** An argument without references holds no opening of a template anywhere, and every reference of another one
      is a valid identifier whose whole template is in it. */
  lemma {:induction false} ReferencesMeaning(template: string)
    ensures ReferencedInputs(template) == Ok([]) <==> !Occurs(template, OPEN)
    ensures ReferencedInputs(template).Ok? ==>
              forall id :: id in ReferencedInputs(template).value ==> ValidIdentifier(id) && Occurs(template, Template(id))
    decreases |template|
  {
    hide ValidIdentifier, Occurs, Template;
    var start := Find(template, OPEN);
    if start.None? {
      NoOccurrence(template);
    } else {
      FirstReference(template);
      var after := template[start.value + |OPEN|..];
      var end := Find(after, CLOSE);
      if end.Some? {
        var from := start.value + |OPEN| + end.value + 2;
        var rest := after[end.value + 2..];
        assert rest == template[from..];
        ReferencesMeaning(rest);
        forall id | Occurs(rest, Template(id)) ensures Occurs(template, Template(id)) {
          OccursLater(template, from, Template(id));
        }
      }
    }
  }

  lemma FindIs(before: string, pattern: string, rest: string)
    requires pattern != "" && pattern[0] !in before
    ensures Find(before + pattern + rest, pattern) == Some(|before|)
  {
    var all := before + pattern + rest;
    assert all[|before|..|before| + |pattern|] == pattern;
    assert At(all, pattern, |before|);
    forall k | 0 <= k < |before| ensures !At(all, pattern, k) {
      assert all[k] == before[k] && before[k] in before;
      assert k + |pattern| <= |all| ==> all[k..k + |pattern|][0] == all[k];
    }
  }

  lemma NoBrace(id: string)
    requires ValidIdentifier(id)
    ensures '}' !in id
  {
  }

  /** References are found one after the other: behind text without a brace, a template of a valid identifier is the
      first one, and the others are those of the rest. */
  lemma ReferencesInTurn(text: string, id: string, rest: string)
    requires '{' !in text && ValidIdentifier(id)
    ensures ReferencedInputs(text + Template(id) + rest) == Prepend([id], ReferencedInputs(rest))
  {
    hide ValidIdentifier, Find;
    var all := text + Template(id) + rest;
    var after := id + CLOSE + rest;
    assert all == text + OPEN + after;
    FindIs(text, OPEN, after);
    assert all[|text| + |OPEN|..] == after;
    NoBrace(id);
    FindIs(id, CLOSE, rest);
    assert after[..|id|] == id && after[|id| + 2..] == rest;
  }

  lemma NoOccurrence(template: string)
    requires Find(template, OPEN).None?
    ensures !Occurs(template, OPEN)
  {
  }

  lemma FirstReference(template: string)
    requires Find(template, OPEN).Some?
    ensures Occurs(template, OPEN)
    ensures var after := template[Find(template, OPEN).value + |OPEN|..];
            Find(after, CLOSE).Some? ==> Occurs(template, Template(after[..Find(after, CLOSE).value]))
  {
    var start := Find(template, OPEN).value;
    assert At(template, OPEN, start);
    var after := template[start + |OPEN|..];
    var end := Find(after, CLOSE);
    if end.Some? {
      var whole := Template(after[..end.value]);
      assert template[start..start + |whole|] == whole;
      assert At(template, whole, start);
    }
  }

  // ----- Which actions are accepted -----

  ghost predicate ValidInput(input: Input) {
    && ValidIdentifier(input.id) && ValidText(input.caption, 80)
    && ValidOptionalText(input.description, 240) && ValidOptionalText(input.placeholder, 120)
    && (input.kind.Select? <==> input.options != [])
    && |input.options| <= 32
    && (forall i :: 0 <= i < |input.options| ==> ValidText(input.options[i], 80))
    && (forall i, j :: 0 <= i < j < |input.options| ==> input.options[i] != input.options[j])
  }

  ghost predicate Declares(inputs: seq<Input>, id: string) {
    exists i :: 0 <= i < |inputs| && inputs[i].id == id
  }

  /** An argument is a text without templates, or nothing but the template of a declared input. */
  ghost predicate ValidArgument(arg: string, inputs: seq<Input>) {
    ByteLength(arg) <= 2048
    && match ReferencedInputs(arg)
       case Err(_) => false
       case Ok(references) =>
         references == [] || (|references| == 1 && arg == Template(references[0]) && Declares(inputs, references[0]))
  }

  ghost predicate ValidOutput(output: Output) {
    output.table ==>
      && 1 <= |output.columns| <= 16
      && output.delimiter != "" && ByteLength(output.delimiter) <= 4
      && '\n' !in output.delimiter && '\r' !in output.delimiter
  }

  ghost predicate Accepted(action: Action) {
    && ValidIdentifier(action.id) && ValidText(action.name, 80) && ValidText(action.description, 300)
    && ValidProgram(action.program)
    && (action.elevate ==> action.requiresConfirmation && !action.allowSudo)
    && |action.args| <= 32 && |action.inputs| <= 8
    && (forall i :: 0 <= i < |action.inputs| ==> ValidInput(action.inputs[i]))
    && (forall i, j :: 0 <= i < j < |action.inputs| ==> action.inputs[i].id != action.inputs[j].id)
    && (forall i :: 0 <= i < |action.args| ==> ValidArgument(action.args[i], action.inputs))
    && ValidOutput(action.output)
  }

  method ValidateInput(input: Input) returns (problem: Option<Problem>)
    ensures problem.None? <==> ValidInput(input)
  {
    hide ValidIdentifier, ValidText, ValidOptionalText;
    if !ValidIdentifier(input.id) {
      return Some(BadIdentifier);
    }
    if !ValidText(input.caption, 80) || !ValidOptionalText(input.description, 240)
       || !ValidOptionalText(input.placeholder, 120) {
      return Some(BadText);
    }
    if input.kind.Select? && input.options == [] {
      return Some(BadOptions);
    }
    if |input.options| > 32 {
      return Some(BadOptions);
    }
    if !input.kind.Select? && input.options != [] {
      return Some(BadOptions);
    }
    var options: set<string> := {};
    for i := 0 to |input.options|
      invariant options == set k | 0 <= k < i :: input.options[k]
      invariant forall k :: 0 <= k < i ==> ValidText(input.options[k], 80)
      invariant forall j, k :: 0 <= j < k < i ==> input.options[j] != input.options[k]
    {
      if !ValidText(input.options[i], 80) {
        return Some(BadText);
      }
      if input.options[i] in options {
        return Some(Duplicate);
      }
      options := options + {input.options[i]};
    }
    return None;
  }

  method ValidateArgument(arg: string, inputIds: set<string>, ghost inputs: seq<Input>) returns (problem: Option<Problem>)
    requires forall id :: id in inputIds <==> Declares(inputs, id)
    ensures problem.None? <==> ValidArgument(arg, inputs)
  {
    hide ReferencedInputs, Declares;
    if ByteLength(arg) > 2048 {
      return Some(Oversized);
    }
    var found := FindReferences(arg);
    if found.Err? {
      return Some(found.error);
    }
    var references := found.value;
    if references != [] {
      if |references| != 1 || arg != Template(references[0]) {
        return Some(PartialTemplate);
      }
    }
    for i := 0 to |references|
      invariant forall k :: 0 <= k < i ==> references[k] in inputIds
    {
      if references[i] !in inputIds {
        return Some(Undeclared);
      }
    }
    return None;
  }

  method ValidateAction(action: Action) returns (problem: Option<Problem>)
    ensures problem.None? <==> Accepted(action)
  {
    hide ValidIdentifier, ValidText, ValidProgram, ValidInput, ValidArgument;
    if !ValidIdentifier(action.id) {
      return Some(BadIdentifier);
    }
    if !ValidText(action.name, 80) || !ValidText(action.description, 300) {
      return Some(BadText);
    }
    if !ValidProgram(action.program) {
      return Some(BadProgram);
    }
    if action.elevate && !action.requiresConfirmation {
      return Some(Elevation);
    }
    if action.elevate && action.allowSudo {
      return Some(Elevation);
    }
    if |action.args| > 32 || |action.inputs| > 8 {
      return Some(TooMany);
    }
    var inputIds: set<string> := {};
    for i := 0 to |action.inputs|
      invariant inputIds == set k | 0 <= k < i :: action.inputs[k].id
      invariant forall k :: 0 <= k < i ==> ValidInput(action.inputs[k])
      invariant forall j, k :: 0 <= j < k < i ==> action.inputs[j].id != action.inputs[k].id
    {
      var wrong := ValidateInput(action.inputs[i]);
      if wrong.Some? {
        return wrong;
      }
      if action.inputs[i].id in inputIds {
        return Some(Duplicate);
      }
      inputIds := inputIds + {action.inputs[i].id};
    }
    for i := 0 to |action.args|
      invariant forall k :: 0 <= k < i ==> ValidArgument(action.args[k], action.inputs)
    {
      var wrong := ValidateArgument(action.args[i], inputIds, action.inputs);
      if wrong.Some? {
        return wrong;
      }
    }
    if action.output.table {
      if action.output.columns == [] || |action.output.columns| > 16 {
        return Some(BadTable);
      }
      if action.output.delimiter == "" || ByteLength(action.output.delimiter) > 4
         || '\n' in action.output.delimiter || '\r' in action.output.delimiter {
        return Some(BadTable);
      }
    }
    return None;
  }
}
