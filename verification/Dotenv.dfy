/**
 Printing environment files. Values are sequences of code points. A value without line
 breaks is single-quoted for the shell, any other is double-quoted with escapes; the file
 decodes back to the bindings, and the repository's own parser takes back exactly part of it.
 */
module Dotenv {
  import opened Common
  import ChildEnv

  datatype Binding = Binding(name: string, value: string)

  predicate BreaksLine(value: string)
  {
    '\n' in value || '\r' in value
  }

  // ---------- what is printed ----------

  // A quote cannot stand inside single quotes: close, escape it, open again.
  function QuotesEscaped(value: string): string
  {
    if value == "" then ""
    else (if value[0] == '\'' then "'\\''" else [value[0]]) + QuotesEscaped(value[1..])
  }

  function Escape(c: char): string
  {
    if c == '\n' then "\\n"
    else if c == '\r' then "\\r"
    else if c == '\t' then "\\t"
    else if c == '\\' then "\\\\"
    else if c == '"' then "\\\""
    else if c == '$' then "\\$"
    else if c == '`' then "\\`"
    else [c]
  }

  function Escaped(value: string): string
  {
    if value == "" then "" else Escape(value[0]) + Escaped(value[1..])
  }

  function Quoted(value: string): string
  {
    if BreaksLine(value) then "\"" + Escaped(value) + "\"" else "'" + QuotesEscaped(value) + "'"
  }

  function Line(b: Binding): string
  {
    b.name + "=" + Quoted(b.value)
  }

  function Rendered(bindings: seq<Binding>): string
  {
    if bindings == [] then "" else Line(bindings[0]) + "\n" + Rendered(bindings[1..])
  }

  // ---------- how it is read back ----------

  // A word made of single-quoted parts and escaped characters, as sections 2.2.1 and 2.2.2
  // of the Shell Command Language read it. Anything else unquoted that the shell would treat
  // specially is no such word.
  datatype Mode = Bare | Quoting

  predicate Special(c: char)
  {
    c in "|&;<>()$`\"* ?[#~=%\t\n"
  }

  function ShellWord(s: string, mode: Mode): Option<string>
  {
    if s == "" then (if mode.Bare? then Some("") else None)
    else if mode.Quoting? then
      if s[0] == '\'' then ShellWord(s[1..], Bare) else Prepend([s[0]], ShellWord(s[1..], Quoting))
    else if s[0] == '\'' then ShellWord(s[1..], Quoting)
    else if s[0] == '\\' then
      if |s| < 2 then None
      else if s[1] == '\n' then ShellWord(s[2..], Bare)
      else Prepend([s[1]], ShellWord(s[2..], Bare))
    else if Special(s[0]) then None
    else Prepend([s[0]], ShellWord(s[1..], Bare))
  }

  function Prepend(head: string, tail: Option<string>): Option<string>
  {
    if tail == None then None else Some(head + tail.value)
  }

  // The rest of a double-quoted value, after its opening quote. `shell` says whether an
  // escaped dollar or backtick is understood; the repository's parser does not.
  function DoubleQuoted(s: string, shell: bool): Option<string>
  {
    if s == "" then None
    else if s[0] == '"' then (if TrailingOnlyComment(s[1..]) then Some("") else None)
    else if s[0] != '\\' then Prepend([s[0]], DoubleQuoted(s[1..], shell))
    else if |s| < 2 then None
    else if s[1] == 'n' then Prepend("\n", DoubleQuoted(s[2..], shell))
    else if s[1] == 'r' then Prepend("\r", DoubleQuoted(s[2..], shell))
    else if s[1] == 't' then Prepend("\t", DoubleQuoted(s[2..], shell))
    else if s[1] == '"' || s[1] == '\\' then Prepend([s[1]], DoubleQuoted(s[2..], shell))
    else if shell && (s[1] == '$' || s[1] == '`') then Prepend([s[1]], DoubleQuoted(s[2..], shell))
    else None
  }

  predicate TrailingOnlyComment(s: string)
  {
    var t := ChildEnv.Trimmed(s);
    t == "" || t[0] == '#'
  }

  function DecodeLine(line: string): Option<Binding>
  {
    var i := ChildEnv.IndexOf(line, '=');
    if i >= |line| - 1 then None
    else
      var v := if line[i + 1] == '"' then DoubleQuoted(line[i + 2..], true) else ShellWord(line[i + 1..], Bare);
      if v == None then None else Some(Binding(line[..i], v.value))
  }

  // The physical lines of a text; the last must be terminated.
  function Lines(text: string): Option<seq<string>>
    decreases |text|
  {
    if text == "" then Some([])
    else
      var i := ChildEnv.IndexOf(text, '\n');
      if i == |text| then None
      else
        var rest := Lines(text[i + 1..]);
        if rest == None then None else Some([text[..i]] + rest.value)
  }

  // ---------- the value decodes ----------

  // The escape for one quote closes, escapes and reopens.
  lemma EscapedQuoteDecodes(rest: string)
    ensures ShellWord("'\\''" + rest, Quoting) == Prepend("'", ShellWord(rest, Quoting))
  {
    var s := "'\\''" + rest;
    assert s[1..] == "\\''" + rest;
    assert s[1..][2..] == "'" + rest;
    assert ("'" + rest)[1..] == rest;
    assert ShellWord("'" + rest, Bare) == ShellWord(rest, Quoting);
    assert ShellWord(s[1..], Bare) == Prepend("'", ShellWord("'" + rest, Bare));
  }

  lemma {:induction false} EscapedQuotesDecode(value: string)
    ensures ShellWord(QuotesEscaped(value) + "'", Quoting) == Some(value)
  {
    if value != "" {
      var rest := QuotesEscaped(value[1..]) + "'";
      EscapedQuotesDecode(value[1..]);
      assert value == [value[0]] + value[1..];
      if value[0] == '\'' {
        EscapedQuoteDecodes(rest);
        assert QuotesEscaped(value) + "'" == "'\\''" + rest;
      } else {
        assert QuotesEscaped(value) + "'" == [value[0]] + rest;
      }
    }
  }

  // The single-quoted form is a shell word for its value.
  lemma SingleQuotedIsShellWord(value: string)
    requires !BreaksLine(value)
    ensures ShellWord(Quoted(value), Bare) == Some(value)
  {
    var q := Quoted(value);
    assert q[0] == '\'' && q[1..] == QuotesEscaped(value) + "'";
    assert ShellWord(q, Bare) == ShellWord(q[1..], Quoting);
    EscapedQuotesDecode(value);
  }

  lemma EscapeDecodes(c: char, rest: string, shell: bool)
    ensures DoubleQuoted(Escape(c) + rest, shell) ==
            if shell || c !in "$`" then Prepend([c], DoubleQuoted(rest, shell)) else None
  {
    var s := Escape(c) + rest;
    if |Escape(c)| == 2 {
      assert s[2..] == rest;
    } else {
      assert s[1..] == rest;
    }
  }

  lemma {:induction false} EscapesDecode(value: string, shell: bool)
    ensures DoubleQuoted(Escaped(value) + "\"", shell) ==
            if shell || ('$' !in value && '`' !in value) then Some(value) else None
  {
    if value == "" {
      assert Escaped(value) + "\"" == "\"";
      assert "\""[1..] == "";
    } else {
      var rest := Escaped(value[1..]) + "\"";
      EscapesDecode(value[1..], shell);
      EscapeDecodes(value[0], rest, shell);
      assert Escaped(value) + "\"" == Escape(value[0]) + rest;
      assert value == [value[0]] + value[1..];
    }
  }

  // ---------- one line per binding ----------

  lemma {:induction false} EscapesStayOnLine(value: string)
    ensures !BreaksLine(Escaped(value))
  {
    if value != "" {
      EscapesStayOnLine(value[1..]);
      assert !BreaksLine(Escape(value[0]));
    }
  }

  lemma {:induction false} EscapedQuotesStayOnLine(value: string)
    requires !BreaksLine(value)
    ensures !BreaksLine(QuotesEscaped(value))
  {
    if value != "" {
      assert value == [value[0]] + value[1..];
      EscapedQuotesStayOnLine(value[1..]);
    }
  }

  lemma QuotedStaysOnLine(value: string)
    ensures !BreaksLine(Quoted(value))
  {
    EscapesStayOnLine(value);
    if !BreaksLine(value) { EscapedQuotesStayOnLine(value); }
  }

  lemma LineStaysOnLine(b: Binding)
    requires ChildEnv.ValidName(b.name)
    ensures !BreaksLine(Line(b))
  {
    QuotedStaysOnLine(b.value);
    assert !BreaksLine(b.name);
  }

  lemma LinesOfOneMore(line: string, rest: string)
    requires '\n' !in line
    ensures Lines(line + "\n" + rest) == if Lines(rest) == None then None else Some([line] + Lines(rest).value)
  {
    var text := line + "\n" + rest;
    assert text[|line|] == '\n';
    assert forall j :: 0 <= j < |line| ==> text[j] == line[j];
    ChildEnv.IndexIs(text, '\n', |line|);
    assert text[..|line|] == line && text[|line| + 1..] == rest;
  }

  function LinesOf(bindings: seq<Binding>): (lines: seq<string>)
    ensures |lines| == |bindings| && forall i :: 0 <= i < |bindings| ==> lines[i] == Line(bindings[i])
  {
    if bindings == [] then [] else [Line(bindings[0])] + LinesOf(bindings[1..])
  }

  lemma {:induction false} RenderedHasNoCR(bindings: seq<Binding>)
    requires forall b :: b in bindings ==> ChildEnv.ValidName(b.name)
    ensures '\r' !in Rendered(bindings)
  {
    if bindings != [] {
      LineStaysOnLine(bindings[0]);
      RenderedHasNoCR(bindings[1..]);
    }
  }

  lemma {:induction false} RenderedLines(bindings: seq<Binding>)
    requires forall b :: b in bindings ==> ChildEnv.ValidName(b.name)
    ensures Lines(Rendered(bindings)) == Some(LinesOf(bindings))
  {
    if bindings != [] {
      LineStaysOnLine(bindings[0]);
      RenderedLines(bindings[1..]);
      LinesOfOneMore(Line(bindings[0]), Rendered(bindings[1..]));
    }
  }

  lemma LineDecodes(b: Binding)
    requires ChildEnv.ValidName(b.name)
    ensures DecodeLine(Line(b)) == Some(b)
  {
    var line := Line(b);
    ChildEnv.EntryReads(b.name, Quoted(b.value));
    assert line == ChildEnv.Entry(b.name, Quoted(b.value));
    var i := ChildEnv.IndexOf(line, '=');
    assert line[..i] == b.name && line[i + 1..] == Quoted(b.value);
    if BreaksLine(b.value) {
      EscapesDecode(b.value, true);
      assert line[i + 2..] == Escaped(b.value) + "\"";
    } else {
      SingleQuotedIsShellWord(b.value);
    }
  }

  // Printing is invertible: one physical line per binding, each decoding to its binding.
  lemma RenderedDecodes(bindings: seq<Binding>)
    requires forall b :: b in bindings ==> ChildEnv.ValidName(b.name)
    ensures Lines(Rendered(bindings)).Some? && '\r' !in Rendered(bindings)
    ensures var lines := Lines(Rendered(bindings)).value;
            |lines| == |bindings| && forall i :: 0 <= i < |bindings| ==> DecodeLine(lines[i]) == Some(bindings[i])
  {
    RenderedLines(bindings);
    RenderedHasNoCR(bindings);
    forall i | 0 <= i < |bindings| ensures DecodeLine(Line(bindings[i])) == Some(bindings[i]) {
      LineDecodes(bindings[i]);
    }
  }

  // ---------- the repository's own parser ----------

  function ParseValue(raw: string): Option<string>
  {
    if raw == "" then Some("")
    else if raw[0] == '\'' then
      var end := ChildEnv.IndexOf(raw[1..], '\'');
      if end == |raw| - 1 || !TrailingOnlyComment(raw[end + 2..]) then None else Some(raw[1..end + 1])
    else if raw[0] == '"' then DoubleQuoted(raw[1..], false)
    else Some(ParseUnquoted(raw, 1))
  }

  function ParseUnquoted(raw: string, i: nat): string
    requires raw != "" && i <= |raw|
    decreases |raw| - i
  {
    if i == |raw| then ChildEnv.Trimmed(raw)
    else if i > 0 && raw[i] == '#' && (raw[i - 1] == ' ' || raw[i - 1] == '\t') then ChildEnv.Trimmed(raw[..i])
    else ParseUnquoted(raw, i + 1)
  }

  datatype Parsed = Skipped | Bound(b: Binding) | Malformed

  // One line, in literal mode.
  function ParseLine(line: string): Parsed
  {
    var t := ChildEnv.Trimmed(line);
    if t == "" || t[0] == '#' then Skipped
    else
      var bare := if "export " <= t then ChildEnv.Trimmed(t[7..]) else t;
      var i := ChildEnv.IndexOf(bare, '=');
      if i == |bare| then Malformed
      else
        var name := ChildEnv.Trimmed(bare[..i]);
        if !ChildEnv.Safe(name) then Malformed
        else
          var v := ParseValue(ChildEnv.Trimmed(bare[i + 1..]));
          if v == None then Malformed else Bound(Binding(name, v.value))
  }

  // A printed value the parser takes back: no quote in the single-quoted form, no dollar or
  // backtick in the double-quoted one.
  predicate Reparsable(value: string)
  {
    if BreaksLine(value) then '$' !in value && '`' !in value else '\'' !in value
  }

  lemma {:induction false} QuotesEscapedIsPlain(value: string)
    requires '\'' !in value
    ensures QuotesEscaped(value) == value
  {
    if value != "" {
      assert value == [value[0]] + value[1..];
      QuotesEscapedIsPlain(value[1..]);
    }
  }

  lemma {:induction false} FirstQuoteEscaped(value: string) returns (front: string, rest: string)
    requires '\'' in value
    ensures QuotesEscaped(value) == front + "'\\''" + rest && '\'' !in front
  {
    if value[0] == '\'' {
      front, rest := "", QuotesEscaped(value[1..]);
    } else {
      assert value == [value[0]] + value[1..];
      front, rest := FirstQuoteEscaped(value[1..]);
      front := [value[0]] + front;
    }
  }

  lemma ParsesPlain(value: string)
    requires !BreaksLine(value) && '\'' !in value
    ensures ParseValue(Quoted(value)) == Some(value)
  {
    var raw := Quoted(value);
    QuotesEscapedIsPlain(value);
    assert raw == "'" + value + "'";
    var body := raw[1..];
    assert body == value + "'";
    ChildEnv.IndexIs(body, '\'', |value|);
    assert raw[|value| + 2..] == "" && raw[1..|value| + 1] == value;
  }

  lemma RefusesQuote(value: string)
    requires !BreaksLine(value) && '\'' in value
    ensures ParseValue(Quoted(value)) == None
  {
    var front, rest := FirstQuoteEscaped(value);
    QuoteEndsValue(front, rest + "'");
    Requoted(front, "'\\''", rest);
  }

  lemma Requoted(front: string, middle: string, rest: string)
    ensures "'" + (front + middle + rest) + "'" == "'" + front + middle + (rest + "'")
  {
  }

  lemma QuoteEndsValue(front: string, rest: string)
    requires '\'' !in front
    ensures ParseValue("'" + front + "'\\''" + rest) == None
  {
    var raw := "'" + front + "'\\''" + rest;
    var body := raw[1..];
    assert body == front + "'\\''" + rest;
    assert forall j :: 0 <= j < |front| ==> body[j] == front[j];
    assert body[|front|] == '\'';
    ChildEnv.IndexIs(body, '\'', |front|);
    var after := raw[|front| + 2..];
    assert after[0] == '\\';
    BackslashIsNoComment(after);
  }

  lemma ParsesEscaped(value: string)
    requires BreaksLine(value)
    ensures ParseValue(Quoted(value)) == if '$' in value || '`' in value then None else Some(value)
  {
    EscapesDecode(value, false);
    assert Quoted(value)[0] == '"' && Quoted(value)[1..] == Escaped(value) + "\"";
  }

  // The parser returns the value exactly for these, and refuses every other: it never reads
  // back a different value, but it cannot read back everything that is printed.
  lemma ParserTakesBackIff(value: string)
    ensures ParseValue(Quoted(value)) == if Reparsable(value) then Some(value) else None
  {
    if BreaksLine(value) {
      ParsesEscaped(value);
    } else if '\'' in value {
      RefusesQuote(value);
    } else {
      ParsesPlain(value);
    }
  }

  lemma {:induction false} BackslashIsNoComment(s: string)
    requires s != "" && s[0] == '\\'
    ensures !TrailingOnlyComment(s)
    decreases |s|
  {
    if ChildEnv.Space(s[|s| - 1]) {
      BackslashIsNoComment(s[..|s| - 1]);
    }
  }

  lemma EdgesAreTrimmed(s: string)
    requires s != "" && !ChildEnv.Space(s[0]) && !ChildEnv.Space(s[|s| - 1])
    ensures ChildEnv.Trimmed(s) == s
  {
  }

  lemma LineParts(b: Binding)
    requires ChildEnv.ValidName(b.name)
    ensures var line, i := Line(b), ChildEnv.IndexOf(Line(b), '=');
            && i == |b.name| < |line| && line[..i] == b.name && line[i + 1..] == Quoted(b.value)
            && ChildEnv.Trimmed(line) == line && line[0] != '#' && !("export " <= line)
  {
    var line := Line(b);
    ChildEnv.EntryReads(b.name, Quoted(b.value));
    assert line == ChildEnv.Entry(b.name, Quoted(b.value));
    assert line[0] == b.name[0] && line[|line| - 1] == Quoted(b.value)[|Quoted(b.value)| - 1];
    EdgesAreTrimmed(line);
    var i := |b.name|;
    assert line[i] == '=' && forall j :: 0 <= j < i ==> line[j] == b.name[j] != ' ';
    NotAnExport(line, i);
  }

  lemma NotAnExport(line: string, i: nat)
    requires i < |line| && line[i] == '=' && forall j :: 0 <= j < i ==> line[j] != ' '
    ensures !("export " <= line)
  {
    if i > 6 {
      assert line[6] != "export "[6];
    } else {
      assert line[i] != "export "[i];
    }
  }

  // A whole printed line, in literal mode: also the name must not be a dangerous one.
  lemma ParserTakesBackLineIff(b: Binding)
    requires ChildEnv.ValidName(b.name)
    ensures ParseLine(Line(b)) == if ChildEnv.Safe(b.name) && Reparsable(b.value) then Bound(b) else Malformed
  {
    LineParts(b);
    ChildEnv.ValidNameIsTrimmed(b.name);
    EdgesAreTrimmed(Quoted(b.value));
    ParserTakesBackIff(b.value);
  }

  // ---------- the printers ----------

  method QuoteDotenv(value: string) returns (r: string)
    ensures r == Quoted(value)
  {
    if !BreaksLine(value) {
      var body := ReplaceQuotes(value);
      return "'" + body + "'";
    }
    var out := "";
    for i := 0 to |value|
      invariant out + Escaped(value[i..]) == Escaped(value)
    {
      var c := value[i];
      var piece: string := [c];
      match c {
      case '\n' => piece := "\\n";
      case '\r' => piece := "\\r";
      case '\t' => piece := "\\t";
      case '\\' => piece := "\\\\";
      case '"' => piece := "\\\"";
      case '$' => piece := "\\$";
      case '`' => piece := "\\`";
      case _ =>
      }
      EscapedStep(value, i, out, piece);
      out := out + piece;
    }
    assert out == out + Escaped(value[|value|..]);
    r := "\"" + out + "\"";
  }

  lemma EscapedStep(value: string, i: nat, out: string, piece: string)
    requires i < |value| && piece == Escape(value[i])
    ensures (out + piece) + Escaped(value[i + 1..]) == out + Escaped(value[i..])
  {
    assert value[i..][1..] == value[i + 1..];
  }

  method ReplaceQuotes(value: string) returns (out: string)
    ensures out == QuotesEscaped(value)
  {
    out := "";
    for i := 0 to |value|
      invariant out + QuotesEscaped(value[i..]) == QuotesEscaped(value)
    {
      var piece := if value[i] == '\'' then "'\\''" else [value[i]];
      assert value[i..][1..] == value[i + 1..];
      assert out + QuotesEscaped(value[i..]) == (out + piece) + QuotesEscaped(value[i + 1..]);
      out := out + piece;
    }
    assert out == out + QuotesEscaped(value[|value|..]);
  }

  method RenderDotenv(bindings: seq<Binding>) returns (out: string)
    ensures out == Rendered(bindings)
  {
    out := "";
    for i := 0 to |bindings|
      invariant out + Rendered(bindings[i..]) == Rendered(bindings)
    {
      var quoted := QuoteDotenv(bindings[i].value);
      var line := bindings[i].name + "=" + quoted + "\n";
      RenderedStep(bindings, i, out, line);
      out := out + line;
    }
    assert out == out + Rendered(bindings[|bindings|..]);
  }

  lemma RenderedStep(bindings: seq<Binding>, i: nat, out: string, line: string)
    requires i < |bindings| && line == Line(bindings[i]) + "\n"
    ensures (out + line) + Rendered(bindings[i + 1..]) == out + Rendered(bindings[i..])
  {
    assert bindings[i..][1..] == bindings[i + 1..];
    assert Rendered(bindings[i..]) == line + Rendered(bindings[i + 1..]);
    Reassociated(out, line, Rendered(bindings[i + 1..]));
  }

  lemma Reassociated(a: string, b: string, c: string)
    ensures (a + b) + c == a + (b + c)
  {
  }
}
