/** Words and shells: the quoter that plugin commands are rendered with, the tokenizer of the file-transfer
    prompt, and the word splitting of sections 2.2 and 2.3 of the POSIX Shell Command Language. */
module ShellWords {
  import opened Wrappers

  predicate AsciiAlphanumeric(c: char) {
    'a' <= c <= 'z' || 'A' <= c <= 'Z' || '0' <= c <= '9'
  }

  predicate Safe(c: char) {
    AsciiAlphanumeric(c) || c in "_@%+=:,./-"
  }

  predicate AllSafe(value: string) {
    forall i :: 0 <= i < |value| ==> Safe(value[i])
  }

  function EscapeQuotes(value: string): string {
    if value == "" then ""
    else (if value[0] == '\'' then "'\"'\"'" else [value[0]]) + EscapeQuotes(value[1..])
  }

  function ShellQuote(value: string): string {
    if value == "" then "''"
    else if AllSafe(value) then value
    else "'" + EscapeQuotes(value) + "'"
  }

  function JoinWords(words: seq<string>): string {
    if words == [] then ""
    else if |words| == 1 then words[0]
    else words[0] + " " + JoinWords(words[1..])
  }

  function QuoteAll(values: seq<string>): seq<string> {
    seq(|values|, i requires 0 <= i < |values| => ShellQuote(values[i]))
  }

  /** The characters with the White_Space property. */
  predicate IsWhitespace(c: char) {
    var v := c as int;
    9 <= v <= 13 || v == 0x20 || v == 0x85 || v == 0xA0 || v == 0x1680 || 0x2000 <= v <= 0x200A
    || v == 0x2028 || v == 0x2029 || v == 0x202F || v == 0x205F || v == 0x3000
  }

  // ----- The tokenizer of the prompt -----

  datatype Tokens = Tokens(args: seq<string>, current: string, quote: Option<char>, escaped: bool, inToken: bool)

  function Step(t: Tokens, ch: char): Tokens {
    if t.escaped then t.(current := t.current + [ch], escaped := false, inToken := true)
    else if ch == '\\' && t.quote != Some('\'') then t.(escaped := true, inToken := true)
    else if t.quote.Some? then
      if ch == t.quote.value then t.(quote := None, inToken := true) else t.(current := t.current + [ch], inToken := true)
    else if ch == '\'' || ch == '"' then t.(quote := Some(ch), inToken := true)
    else if IsWhitespace(ch) then
      if t.inToken then t.(args := t.args + [t.current], current := "", inToken := false) else t
    else t.(current := t.current + [ch], inToken := true)
  }

  function Scan(t: Tokens, line: string): Tokens
    decreases |line|
  {
    if line == "" then t else Scan(Step(t, line[0]), line[1..])
  }

  const START := Tokens([], "", None, false, false)

  function ParseLine(line: string): Result<seq<string>, char> {
    var t := Scan(START, line);
    var current := if t.escaped then t.current + "\\" else t.current;
    if t.quote.Some? then Err(t.quote.value)
    else if t.inToken then Ok(t.args + [current])
    else Ok(t.args)
  }

  method ParseReplLine(line: string) returns (words: Result<seq<string>, char>)
    ensures words == ParseLine(line)
  {
    var args: seq<string> := [];
    var current := "";
    var quote: Option<char> := None;
    var escaped := false;
    var inToken := false;
    for i := 0 to |line|
      invariant Scan(START, line) == Scan(Tokens(args, current, quote, escaped, inToken), line[i..])
    {
      var ch := line[i];
      assert line[i..][0] == ch && line[i..][1..] == line[i + 1..];
      if escaped {
        current := current + [ch];
        escaped := false;
        inToken := true;
        continue;
      }
      if ch == '\\' && quote != Some('\'') {
        escaped := true;
        inToken := true;
        continue;
      }
      if quote.Some? && ch == quote.value {
        quote := None;
        inToken := true;
      } else if quote.Some? {
        current := current + [ch];
        inToken := true;
      } else if ch == '\'' || ch == '"' {
        quote := Some(ch);
        inToken := true;
      } else if IsWhitespace(ch) {
        if inToken {
          args, current := args + [current], "";
          inToken := false;
        }
      } else {
        current := current + [ch];
        inToken := true;
      }
    }
    if escaped {
      current := current + "\\";
    }
    if quote.Some? {
      return Err(quote.value);
    }
    if inToken {
      args := args + [current];
    }
    return Ok(args);
  }

  // ----- The POSIX shell -----

  datatype Quoting = Plain | Single | Double | Backslash | DoubleBackslash

  /** `plain` is lost at the first unquoted character, or dollar sign or backquote in double quotes, that makes
      the shell do more than form words: an operator, an expansion, a comment or a pattern. */
  datatype Shell = Shell(words: seq<string>, current: string, inWord: bool, quoting: Quoting, plain: bool)

  predicate Special(c: char) {
    c in "|&;<>()$`*?[#~!{}\n"
  }

  function ShellStep(s: Shell, c: char): Shell {
    match s.quoting
    case Plain =>
      if c == '\'' then s.(inWord := true, quoting := Single)
      else if c == '"' then s.(inWord := true, quoting := Double)
      else if c == '\\' then s.(quoting := Backslash)
      else if c == ' ' || c == '\t' then
        if s.inWord then s.(words := s.words + [s.current], current := "", inWord := false) else s
      else if Special(c) then s.(plain := false)
      else s.(current := s.current + [c], inWord := true)
    case Single => if c == '\'' then s.(quoting := Plain) else s.(current := s.current + [c])
    case Double =>
      if c == '"' then s.(quoting := Plain)
      else if c == '\\' then s.(quoting := DoubleBackslash)
      else if c == '$' || c == '`' then s.(plain := false)
      else s.(current := s.current + [c])
    // A backslash before a newline joins two lines; in double quotes it is kept before most characters.
    case Backslash =>
      if c == '\n' then s.(quoting := Plain) else s.(current := s.current + [c], inWord := true, quoting := Plain)
    case DoubleBackslash =>
      if c == '\n' then s.(quoting := Double)
      else if c in "$`\"\\" then s.(current := s.current + [c], quoting := Double)
      else s.(current := s.current + ['\\', c], quoting := Double)
  }

  function ShellScan(s: Shell, line: string): Shell
    decreases |line|
  {
    if line == "" then s else ShellScan(ShellStep(s, line[0]), line[1..])
  }

  const IDLE := Shell([], "", false, Plain, true)

  /** The words of a simple command line, or None where the shell would do more than split it into words. */
  function PosixWords(line: string): Option<seq<string>> {
    var s := ShellScan(IDLE, line);
    if !s.plain || s.quoting != Plain then None
    else Some(if s.inWord then s.words + [s.current] else s.words)
  }

  // ----- Quoting is undone by both -----

  lemma {:induction false} ScanAppend(t: Tokens, a: string, b: string)
    ensures Scan(t, a + b) == Scan(Scan(t, a), b)
    decreases |a|
  {
    if a == "" {
      assert a + b == b;
    } else {
      assert (a + b)[1..] == a[1..] + b;
      ScanAppend(Step(t, a[0]), a[1..], b);
    }
  }

  lemma {:induction false} ShellScanAppend(s: Shell, a: string, b: string)
    ensures ShellScan(s, a + b) == ShellScan(ShellScan(s, a), b)
    decreases |a|
  {
    if a == "" {
      assert a + b == b;
    } else {
      assert (a + b)[1..] == a[1..] + b;
      ShellScanAppend(ShellStep(s, a[0]), a[1..], b);
    }
  }

  lemma SafeIsOrdinary(c: char)
    requires Safe(c)
    ensures c != '\\' && c != '\'' && c != '"' && c != ' ' && c != '\t' && !IsWhitespace(c) && !Special(c)
  {
  }

  lemma {:induction false} ScanSafe(t: Tokens, value: string)
    requires AllSafe(value) && t.quote.None? && !t.escaped
    ensures Scan(t, value) == if value == "" then t else t.(current := t.current + value, inToken := true)
    decreases |value|
  {
    if value != "" {
      SafeIsOrdinary(value[0]);
      ScanSafe(Step(t, value[0]), value[1..]);
      assert t.current + [value[0]] + value[1..] == t.current + value;
    }
  }

  lemma {:induction false} ShellScanSafe(s: Shell, value: string)
    requires AllSafe(value) && s.quoting == Plain
    ensures ShellScan(s, value) == if value == "" then s else s.(current := s.current + value, inWord := true)
    decreases |value|
  {
    if value != "" {
      SafeIsOrdinary(value[0]);
      ShellScanSafe(ShellStep(s, value[0]), value[1..]);
      assert s.current + [value[0]] + value[1..] == s.current + value;
    }
  }

  lemma ScanQuote(t: Tokens)
    requires t.quote == Some('\'') && !t.escaped && t.inToken
    ensures Scan(t, "'\"'\"'") == t.(current := t.current + "'")
  {
    var one := Step(t, '\'');
    var two := Step(one, '"');
    var three := Step(two, '\'');
    var four := Step(three, '"');
    assert "'\"'\"'"[1..] == "\"'\"'" && "\"'\"'"[1..] == "'\"'" && "'\"'"[1..] == "\"'" && "\"'"[1..] == "'" && "'"[1..] == "";
    assert Scan(t, "'\"'\"'") == Scan(one, "\"'\"'") == Scan(two, "'\"'") == Scan(three, "\"'") == Scan(four, "'");
    assert Scan(four, "'") == Scan(Step(four, '\''), "");
  }

  lemma ShellScanQuote(s: Shell)
    requires s.quoting == Single && s.inWord
    ensures ShellScan(s, "'\"'\"'") == s.(current := s.current + "'")
  {
    var one := ShellStep(s, '\'');
    var two := ShellStep(one, '"');
    var three := ShellStep(two, '\'');
    var four := ShellStep(three, '"');
    assert "'\"'\"'"[1..] == "\"'\"'" && "\"'\"'"[1..] == "'\"'" && "'\"'"[1..] == "\"'" && "\"'"[1..] == "'" && "'"[1..] == "";
    assert ShellScan(s, "'\"'\"'") == ShellScan(one, "\"'\"'") == ShellScan(two, "'\"'") == ShellScan(three, "\"'")
        == ShellScan(four, "'");
    assert ShellScan(four, "'") == ShellScan(ShellStep(four, '\''), "");
  }

  /** Inside single quotes the escaped value adds exactly the value. */
  lemma {:induction false} ScanEscaped(t: Tokens, value: string)
    requires t.quote == Some('\'') && !t.escaped && t.inToken
    ensures Scan(t, EscapeQuotes(value)) == t.(current := t.current + value)
    decreases |value|
  {
    hide Step;
    if value == "" {
      assert t.current + value == t.current;
    } else {
      var first := if value[0] == '\'' then "'\"'\"'" else [value[0]];
      var next := t.(current := t.current + [value[0]]);
      ScanAppend(t, first, EscapeQuotes(value[1..]));
      if value[0] == '\'' {
        ScanQuote(t);
      } else {
        ScanInside(t, value[0]);
      }
      ScanEscaped(next, value[1..]);
      assert t.current + [value[0]] + value[1..] == t.current + value;
    }
  }

  lemma ScanInside(t: Tokens, c: char)
    requires t.quote == Some('\'') && !t.escaped && t.inToken && c != '\''
    ensures Scan(t, [c]) == t.(current := t.current + [c])
  {
    assert Scan(t, [c]) == Scan(Step(t, c), [c][1..]);
  }

  lemma {:induction false} ShellScanEscaped(s: Shell, value: string)
    requires s.quoting == Single && s.inWord
    ensures ShellScan(s, EscapeQuotes(value)) == s.(current := s.current + value)
    decreases |value|
  {
    hide ShellStep;
    if value == "" {
      assert s.current + value == s.current;
    } else {
      var first := if value[0] == '\'' then "'\"'\"'" else [value[0]];
      var next := s.(current := s.current + [value[0]]);
      ShellScanAppend(s, first, EscapeQuotes(value[1..]));
      if value[0] == '\'' {
        ShellScanQuote(s);
      } else {
        ShellScanInside(s, value[0]);
      }
      ShellScanEscaped(next, value[1..]);
      assert s.current + [value[0]] + value[1..] == s.current + value;
    }
  }

  lemma ShellScanInside(s: Shell, c: char)
    requires s.quoting == Single && c != '\''
    ensures ShellScan(s, [c]) == s.(current := s.current + [c])
  {
    assert ShellScan(s, [c]) == ShellScan(ShellStep(s, c), [c][1..]);
  }

  /** A quoted value is read as one token that is the value. */
  lemma ScanQuoted(args: seq<string>, value: string)
    ensures Scan(Tokens(args, "", None, false, false), ShellQuote(value)) == Tokens(args, value, None, false, true)
  {
    var t := Tokens(args, "", None, false, false);
    var inside := Tokens(args, "", Some('\''), false, true);
    if value == "" {
      assert "''"[1..] == "'" && "'"[1..] == "";
      assert Scan(t, "''") == Scan(inside, "'") == Scan(Step(inside, '\''), "");
    } else if AllSafe(value) {
      ScanSafe(t, value);
      assert "" + value == value;
    } else {
      var body := EscapeQuotes(value);
      assert ShellQuote(value) == "'" + body + "'";
      ScanAppend(t, "'" + body, "'");
      ScanAppend(t, "'", body);
      assert "'"[1..] == "";
      assert Scan(t, "'") == Scan(Step(t, '\''), "") == inside;
      ScanEscaped(inside, value);
      assert "" + value == value;
      var full := inside.(current := value);
      assert Scan(full, "'") == Scan(Step(full, '\''), "");
    }
  }

  lemma ShellScanQuoted(words: seq<string>, value: string)
    ensures ShellScan(Shell(words, "", false, Plain, true), ShellQuote(value)) == Shell(words, value, true, Plain, true)
  {
    var s := Shell(words, "", false, Plain, true);
    var inside := Shell(words, "", true, Single, true);
    if value == "" {
      assert "''"[1..] == "'" && "'"[1..] == "";
      assert ShellScan(s, "''") == ShellScan(inside, "'") == ShellScan(ShellStep(inside, '\''), "");
    } else if AllSafe(value) {
      ShellScanSafe(s, value);
      assert "" + value == value;
    } else {
      var body := EscapeQuotes(value);
      assert ShellQuote(value) == "'" + body + "'";
      ShellScanAppend(s, "'" + body, "'");
      ShellScanAppend(s, "'", body);
      assert "'"[1..] == "";
      assert ShellScan(s, "'") == ShellScan(ShellStep(s, '\''), "") == inside;
      ShellScanEscaped(inside, value);
      assert "" + value == value;
      var full := inside.(current := value);
      assert ShellScan(full, "'") == ShellScan(ShellStep(full, '\''), "");
    }
  }

  lemma {:induction false} ScanAll(args: seq<string>, values: seq<string>)
    requires values != []
    ensures Scan(Tokens(args, "", None, false, false), JoinWords(QuoteAll(values)))
         == Tokens(args + values[..|values| - 1], values[|values| - 1], None, false, true)
    decreases |values|
  {
    hide Step, ShellQuote, Scan;
    var t := Tokens(args, "", None, false, false);
    ScanQuoted(args, values[0]);
    if |values| > 1 {
      var rest := values[1..];
      assert QuoteAll(values)[1..] == QuoteAll(rest);
      var first, more := ShellQuote(values[0]), JoinWords(QuoteAll(rest));
      assert JoinWords(QuoteAll(values)) == first + " " + more;
      ScanAppend(t, first + " ", more);
      ScanAppend(t, first, " ");
      ScanBlank(args, values[0]);
      ScanAll(args + [values[0]], rest);
      assert args + [values[0]] + rest[..|rest| - 1] == args + values[..|values| - 1];
    }
  }

  lemma ScanBlank(args: seq<string>, current: string)
    ensures Scan(Tokens(args, current, None, false, true), " ") == Tokens(args + [current], "", None, false, false)
  {
    assert " "[1..] == "";
    assert Scan(Tokens(args, current, None, false, true), " ") == Scan(Step(Tokens(args, current, None, false, true), ' '), "");
  }

  lemma {:induction false} ShellScanAll(words: seq<string>, values: seq<string>)
    requires values != []
    ensures ShellScan(Shell(words, "", false, Plain, true), JoinWords(QuoteAll(values)))
         == Shell(words + values[..|values| - 1], values[|values| - 1], true, Plain, true)
    decreases |values|
  {
    hide ShellStep, ShellQuote, ShellScan;
    var s := Shell(words, "", false, Plain, true);
    ShellScanQuoted(words, values[0]);
    if |values| > 1 {
      var rest := values[1..];
      assert QuoteAll(values)[1..] == QuoteAll(rest);
      var first, more := ShellQuote(values[0]), JoinWords(QuoteAll(rest));
      assert JoinWords(QuoteAll(values)) == first + " " + more;
      ShellScanAppend(s, first + " ", more);
      ShellScanAppend(s, first, " ");
      ShellScanBlank(words, values[0]);
      ShellScanAll(words + [values[0]], rest);
      assert words + [values[0]] + rest[..|rest| - 1] == words + values[..|values| - 1];
    }
  }

  lemma ShellScanBlank(words: seq<string>, current: string)
    ensures ShellScan(Shell(words, current, true, Plain, true), " ") == Shell(words + [current], "", false, Plain, true)
  {
    assert " "[1..] == "";
    assert ShellScan(Shell(words, current, true, Plain, true), " ")
        == ShellScan(ShellStep(Shell(words, current, true, Plain, true), ' '), "");
  }

  /** Whatever the strings hold, empty or with quotes, blanks, newlines or backslashes: the prompt reads a line of
      quoted strings as those strings. */
  lemma ParseUndoesQuote(values: seq<string>)
    ensures ParseLine(JoinWords(QuoteAll(values))) == Ok(values)
  {
    if values != [] {
      ScanAll([], values);
      assert values[..|values| - 1] + [values[|values| - 1]] == values;
      assert [] + values[..|values| - 1] == values[..|values| - 1];
    }
  }

  /** So does a POSIX shell, and nothing in them is expanded. */
  lemma PosixUndoesQuote(values: seq<string>)
    ensures PosixWords(JoinWords(QuoteAll(values))) == Some(values)
  {
    if values != [] {
      ShellScanAll([], values);
      assert values[..|values| - 1] + [values[|values| - 1]] == values;
      assert [] + values[..|values| - 1] == values[..|values| - 1];
    }
  }

  // ----- What is quoted, and what ends a line badly -----

  /** A string of safe characters is left as it is; any other is put between single quotes, where each quote of its own
      becomes a closing quote, a quoted quote and an opening quote. */
  lemma QuoteMeaning(value: string)
    ensures ShellQuote(value) == value <==> value != "" && forall c :: c in value ==> AsciiAlphanumeric(c) || c in "_@%+=:,./-"
    ensures ShellQuote(value) != value ==> |ShellQuote(value)| == |value| + 2 + 4 * Quotes(value)
    ensures ShellQuote(value) != value ==> ShellQuote(value)[0] == '\'' && ShellQuote(value)[|ShellQuote(value)| - 1] == '\''
  {
    EscapedLength(value);
    if value != "" {
      assert forall c :: c in value ==> exists i :: 0 <= i < |value| && value[i] == c;
      assert forall i :: 0 <= i < |value| ==> value[i] in value;
    }
  }

  function Quotes(value: string): nat {
    if value == "" then 0 else (if value[0] == '\'' then 1 else 0) + Quotes(value[1..])
  }

  lemma {:induction false} EscapedLength(value: string)
    ensures |EscapeQuotes(value)| == |value| + 4 * Quotes(value)
  {
    if value != "" {
      EscapedLength(value[1..]);
    }
  }

  /** A backslash at the end of a line stands for itself. */
  lemma TrailingBackslash(values: seq<string>)
    requires values != []
    ensures ParseLine(JoinWords(QuoteAll(values)) + " \\") == Ok(values + ["\\"])
  {
    var line := JoinWords(QuoteAll(values));
    ScanAll([], values);
    assert [] + values[..|values| - 1] == values[..|values| - 1];
    ScanAppend(START, line, " \\");
    ScanAppend(Scan(START, line), " ", "\\");
    assert " " + "\\" == " \\";
    ScanBlank(values[..|values| - 1], values[|values| - 1]);
    assert values[..|values| - 1] + [values[|values| - 1]] == values;
    var t := Tokens(values, "", None, false, false);
    assert "\\"[1..] == "";
    assert Scan(t, "\\") == Scan(Step(t, '\\'), "");
    assert "" + "\\" == "\\";
  }

  /** A quote that is not closed is refused, and named. */
  lemma UnclosedQuote(values: seq<string>, quote: char, text: string)
    requires values != [] && (quote == '\'' || quote == '"') && quote !in text && '\\' !in text
    ensures ParseLine(JoinWords(QuoteAll(values)) + " " + [quote] + text) == Err(quote)
  {
    var line := JoinWords(QuoteAll(values));
    ScanAll([], values);
    assert [] + values[..|values| - 1] == values[..|values| - 1];
    assert line + " " + [quote] + text == line + (" " + ([quote] + text));
    ScanAppend(START, line, " " + ([quote] + text));
    ScanAppend(Scan(START, line), " ", [quote] + text);
    ScanBlank(values[..|values| - 1], values[|values| - 1]);
    var t := Tokens(values[..|values| - 1] + [values[|values| - 1]], "", None, false, false);
    assert ([quote] + text)[1..] == text;
    StaysQuoted(Step(t, quote), quote, text);
  }

  lemma {:induction false} StaysQuoted(t: Tokens, quote: char, text: string)
    requires t.quote == Some(quote) && !t.escaped && quote !in text && '\\' !in text
    ensures Scan(t, text).quote == Some(quote)
    decreases |text|
  {
    if text != "" {
      assert text[0] in text;
      assert forall c :: c in text[1..] ==> c in text;
      StaysQuoted(Step(t, text[0]), quote, text[1..]);
    }
  }

  // ----- The prompt against the shell -----

  /** Where the two read a character differently: an unquoted blank that is one at the prompt only, a backslash
      before a newline, and in double quotes a backslash before a character that needs none. */
  predicate Departs(quoting: Quoting, c: char) {
    match quoting
    case Plain => ExoticBlank(c)
    case Backslash => c == '\n'
    case DoubleBackslash => c !in "$`\"\\"
    case _ => false
  }

  predicate ExoticBlank(c: char) {
    IsWhitespace(c) && c !in " \t\n"
  }

  function Departures(s: Shell, line: string): nat
    decreases |line|
  {
    if line == "" then 0
    else (if Departs(s.quoting, line[0]) then 1 else 0) + Departures(ShellStep(s, line[0]), line[1..])
  }

  lemma {:induction false} PlainIsLostForGood(s: Shell, line: string)
    requires !s.plain
    ensures !ShellScan(s, line).plain
    decreases |line|
  {
    if line != "" {
      PlainIsLostForGood(ShellStep(s, line[0]), line[1..]);
    }
  }

  /** Both are inside the same quotes, and a word that was not begun holds nothing. */
  predicate SameQuoting(t: Tokens, s: Shell) {
    && t.escaped == (s.quoting == Backslash || s.quoting == DoubleBackslash)
    && (t.inToken || t.current == "") && (s.inWord || s.current == "")
    && match s.quoting
       case Plain => t.quote.None?
       case Backslash => t.quote.None?
       case Single => t.quote == Some('\'') && s.inWord
       case _ => t.quote == Some('"') && s.inWord
  }

  predicate SameWords(t: Tokens, s: Shell) {
    t.args == s.words && t.current == s.current && (if s.quoting == Backslash then t.inToken else t.inToken == s.inWord)
  }

  lemma StepsAgree(t: Tokens, s: Shell, c: char)
    requires SameQuoting(t, s) && ShellStep(s, c).plain
    ensures SameQuoting(Step(t, c), ShellStep(s, c))
    ensures SameWords(t, s) && !Departs(s.quoting, c) ==> SameWords(Step(t, c), ShellStep(s, c))
  {
  }

  lemma {:induction false} ScansAgree(t: Tokens, s: Shell, line: string)
    requires SameQuoting(t, s) && ShellScan(s, line).plain
    ensures SameQuoting(Scan(t, line), ShellScan(s, line))
    ensures SameWords(t, s) && Departures(s, line) == 0 ==> SameWords(Scan(t, line), ShellScan(s, line))
    decreases |line|
  {
    hide Step, ShellStep, SameQuoting, SameWords, Departs;
    if line != "" {
      PlainSoFar(s, line);
      StepsAgree(t, s, line[0]);
      ScansAgree(Step(t, line[0]), ShellStep(s, line[0]), line[1..]);
    }
  }

  lemma PlainSoFar(s: Shell, line: string)
    requires line != "" && ShellScan(s, line).plain
    ensures ShellStep(s, line[0]).plain
  {
    if !ShellStep(s, line[0]).plain {
      PlainIsLostForGood(ShellStep(s, line[0]), line[1..]);
    }
  }

  /** A weight of contents by which every departure takes the two one further apart: the prompt keeps a newline
      the shell drops, and drops a blank or a backslash the shell keeps. */
  function WeightOf(c: char): int {
    if c == '\n' then 1 else if c == '\\' || ExoticBlank(c) then -1 else 0
  }

  function Weight(text: string): int {
    if text == "" then 0 else Weight(text[..|text| - 1]) + WeightOf(text[|text| - 1])
  }

  function WeightOfAll(words: seq<string>): int {
    if words == [] then 0 else WeightOfAll(words[..|words| - 1]) + Weight(words[|words| - 1])
  }

  lemma WeightAppend(text: string, c: char)
    ensures Weight("") == 0 && Weight(text + [c]) == Weight(text) + WeightOf(c)
  {
    assert (text + [c])[..|text|] == text;
  }

  lemma WeightOfAllAppend(words: seq<string>, word: string)
    ensures WeightOfAll(words + [word]) == WeightOfAll(words) + Weight(word)
  {
    assert (words + [word])[..|words|] == words;
  }

  function Lead(t: Tokens, s: Shell): int {
    (WeightOfAll(t.args) + Weight(t.current)) - (WeightOfAll(s.words) + Weight(s.current))
  }

  lemma StepLead(t: Tokens, s: Shell, c: char)
    requires SameQuoting(t, s) && ShellStep(s, c).plain
    ensures Lead(Step(t, c), ShellStep(s, c)) == Lead(t, s) + if Departs(s.quoting, c) then 1 else 0
  {
    hide Weight, WeightOfAll, ExoticBlank, IsWhitespace;
    BlankAtPrompt(c);
    WeightAppend(t.current, c);
    WeightAppend(s.current, c);
    WeightAppend(s.current, '\\');
    WeightAppend(s.current + ['\\'], c);
    assert s.current + ['\\', c] == (s.current + ['\\']) + [c];
    WeightOfAllAppend(t.args, t.current);
    WeightOfAllAppend(s.words, s.current);
  }

  lemma BlankAtPrompt(c: char)
    ensures IsWhitespace(c) <==> c in " \t\n" || ExoticBlank(c)
    ensures !ExoticBlank('\\') && (ExoticBlank(c) ==> c !in " \t\n$`\"\\'" && !Special(c))
  {
  }

  lemma {:induction false} ScanLead(t: Tokens, s: Shell, line: string)
    requires SameQuoting(t, s) && ShellScan(s, line).plain
    ensures Lead(Scan(t, line), ShellScan(s, line)) == Lead(t, s) + Departures(s, line)
    decreases |line|
  {
    hide Step, ShellStep, SameQuoting, Departs, Lead;
    if line != "" {
      PlainSoFar(s, line);
      StepsAgree(t, s, line[0]);
      StepLead(t, s, line[0]);
      ScanLead(Step(t, line[0]), ShellStep(s, line[0]), line[1..]);
    }
  }

  lemma {:induction false} DeparturesMeaning(s: Shell, line: string)
    ensures Departures(s, line) == 0 <==> forall i :: 0 <= i < |line| ==> !Departs(ShellScan(s, line[..i]).quoting, line[i])
    decreases |line|
  {
    hide ShellStep, Departs;
    if line != "" {
      var next, rest := ShellStep(s, line[0]), line[1..];
      DeparturesMeaning(next, rest);
      assert line[..0] == "";
      forall i | 0 <= i < |rest| ensures ShellScan(next, rest[..i]) == ShellScan(s, line[..i + 1]) {
        assert line[..i + 1][1..] == rest[..i];
      }
      assert forall i :: 0 < i < |line| ==> ShellScan(s, line[..i]) == ShellScan(next, rest[..i - 1]) && line[i] == rest[i - 1];
    }
  }

  /** A line that a POSIX shell would only split into words is always read at the prompt, and as the same words
      exactly when the two depart at no character of it. */
  lemma PromptAgreesWithShell(line: string)
    requires PosixWords(line).Some?
    ensures ParseLine(line).Ok?
    ensures ParseLine(line) == Ok(PosixWords(line).value) <==>
            forall i :: 0 <= i < |line| ==> !Departs(ShellScan(IDLE, line[..i]).quoting, line[i])
  {
    hide Step, ShellStep, Departs, Departures, Weight, WeightOfAll;
    ScansAgree(START, IDLE, line);
    ScanLead(START, IDLE, line);
    DeparturesMeaning(IDLE, line);
    var t, s := Scan(START, line), ShellScan(IDLE, line);
    WeightOfAllAppend(t.args, t.current);
    WeightOfAllAppend(s.words, s.current);
    WeightAppend("", ' ');
  }
}
