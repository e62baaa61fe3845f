/** MakePythonMessages.py: finds `enum class MessageTypes : uint16_t { ... }`
    in the text of Messages.h, takes one member per non-blank line of its body
    and writes them out as the attributes of a Python class. Reading and
    writing the files are the text parameter and the returned file text. */
module MakePythonMessages {
  import opened Wrappers
  import Text

  const FILE_HEADER: string := "# This file is auto-generated from firmware/include/Messages.h\n"
  const CLASS_LINE: string := "class MessageTypes:\n"
  const INDENT: string := "    "

  /** The characters at which str.splitlines() ends a line. */
  const LINE_BREAKS: set<char> := {
    '\n', '\r', '\U{000B}', '\U{000C}', '\U{001C}', '\U{001D}', '\U{001E}', '\U{0085}', '\U{2028}', '\U{2029}'}

  const COMMAS: set<char> := {','}

  // --- The regular expression ----------------------------------------------------------------

  function StartsWith(s: string, prefix: string): bool
  {
    |prefix| <= |s| && s[..|prefix|] == prefix
  }

  /** s past its leading run of whitespace (`\s*`, greedy). */
  function SkipSpace(s: string): (r: string)
    ensures |r| <= |s|
  {
    if |s| > 0 && s[0] in Text.WHITESPACE then SkipSpace(s[1..]) else s
  }

  /** s past the word w, if s starts with it. */
  function Word(s: string, w: string): Option<string>
  {
    if StartsWith(s, w) then Some(s[|w|..]) else None
  }

  /** The index of the first '}' in s, if any (`([^}]*)}`). */
  function CloseBrace(s: string): (r: Option<nat>)
    ensures r.Some? ==> r.value < |s| && s[r.value] == '}' && '}' !in s[..r.value]
    ensures r.None? ==> '}' !in s
  {
    if |s| == 0 then None
    else if s[0] == '}' then Some(0)
    else
      var r := CloseBrace(s[1..]);
      if r.None? then None
      else
        assert s[..r.value + 1] == [s[0]] + s[1..][..r.value];
        Some(r.value + 1)
  }

  /** `enum\s+class\s+MessageTypes\s*:\s*uint16_t\s*{([^}]*)}` matched at
      the start of s: the captured body. A whitespace run is always followed
      by a letter or punctuation and the body cannot pass a '}', so taking
      every run greedily is the only way to match. */
  function MatchAt(s: string): (body: Option<string>)
    ensures body.Some? ==> '}' !in body.value
  {
    var a := Word(s, "enum");
    if a.None? then None else
    var b := SkipSpace(a.value);
    if |b| == |a.value| then None else MatchClass(b)
  }

  /** The pattern from `class\s+` on. */
  function MatchClass(b: string): (body: Option<string>)
    ensures body.Some? ==> '}' !in body.value
  {
    var c := Word(b, "class");
    if c.None? then None else
    var d := SkipSpace(c.value);
    if |d| == |c.value| then None else
    var e := Word(d, "MessageTypes");
    if e.None? then None else MatchTail(e.value)
  }

  /** The pattern from `\s*:` on. */
  function MatchTail(s: string): (body: Option<string>)
    ensures body.Some? ==> '}' !in body.value
  {
    var f := Word(SkipSpace(s), ":");
    if f.None? then None else MatchType(f.value)
  }

  /** The pattern from `\s*uint16_t` on. */
  function MatchType(s: string): (body: Option<string>)
    ensures body.Some? ==> '}' !in body.value
  {
    var g := Word(SkipSpace(s), "uint16_t");
    if g.None? then None else
    var h := Word(SkipSpace(g.value), "{");
    if h.None? then None else
    var close := CloseBrace(h.value);
    if close.None? then None else Some(h.value[..close.value])
  }

  /** re.search: the match at the leftmost position that has one. */
  function Search(s: string): (body: Option<string>)
    ensures body.Some? ==> '}' !in body.value
  {
    var m := MatchAt(s);
    if m.Some? then m else if |s| == 0 then None else Search(s[1..])
  }

  /** The declaration as Messages.h writes it. */
  const ENUM_HEAD: string := "enum class MessageTypes : uint16_t\n{"

  /** ENUM_HEAD + y, one word at a time. */
  function Declaration(y: string): string
  {
    "enum" + (" " + ("class" + (" " + ("MessageTypes" + DeclarationTail(y)))))
  }

  /** The part of Declaration(y) from the space before ':' on. */
  function DeclarationTail(y: string): string
  {
    " " + (":" + (" " + ("uint16_t" + ("\n" + ("{" + y)))))
  }

  lemma DeclarationText(y: string)
    ensures Declaration(y) == ENUM_HEAD + y
  {
    DeclarationTailText(y);
    DeclarationHeadText(y);
    assert ENUM_HEAD == "enum class MessageTypes" + " : uint16_t\n{";
  }

  lemma DeclarationTailText(y: string)
    ensures DeclarationTail(y) == " : uint16_t\n{" + y
  {
  }

  lemma DeclarationHeadText(y: string)
    ensures Declaration(y) == "enum class MessageTypes" + DeclarationTail(y)
  {
  }

  lemma WordFront(w: string, t: string)
    ensures Word(w + t, w) == Some(t)
  {
  }

  lemma SpaceFront(c: char, t: string)
    requires c in Text.WHITESPACE && |t| > 0 && t[0] !in Text.WHITESPACE
    ensures SkipSpace([c] + t) == t
  {
    assert ([c] + t)[1..] == t;
  }

  lemma FindsType(body: string, rest: string)
    requires '}' !in body
    ensures MatchType(" " + ("uint16_t" + ("\n" + ("{" + (body + ("}" + rest)))))) == Some(body)
  {
    var y := body + ("}" + rest);
    var t := "{" + y;
    WordFront("{", y);
    SpaceFront('\n', t);
    var t2 := "uint16_t" + ("\n" + t);
    WordFront("uint16_t", "\n" + t);
    SpaceFront(' ', t2);
    CloseBraceAfter(body, rest);
    assert y[..|body|] == body;
  }

  /** The body ends at the brace that follows it. */
  lemma {:induction false} CloseBraceAfter(body: string, rest: string)
    requires '}' !in body
    ensures CloseBrace(body + ("}" + rest)) == Some(|body|)
  {
    var y := body + ("}" + rest);
    if |body| > 0 {
      assert y[0] == body[0] && y[1..] == body[1..] + ("}" + rest);
      CloseBraceAfter(body[1..], rest);
    } else {
      assert y == "}" + rest;
    }
  }

  lemma FindsTail(body: string, rest: string)
    requires '}' !in body
    ensures MatchTail(DeclarationTail(body + ("}" + rest))) == Some(body)
  {
    var y := body + ("}" + rest);
    var t2 := "uint16_t" + ("\n" + ("{" + y));
    FindsType(body, rest);
    var t3 := ":" + (" " + t2);
    WordFront(":", " " + t2);
    SpaceFront(' ', t3);
  }

  /** A file that starts with the declaration yields the text up to the
      first closing brace as the body. */
  lemma SearchFindsBody(body: string, rest: string)
    requires '}' !in body
    ensures Search(ENUM_HEAD + body + "}" + rest) == Some(body)
  {
    var y := body + ("}" + rest);
    FindsHead(body, rest);
    DeclarationText(y);
    Text.Append3(ENUM_HEAD + body, "}", rest);
    Text.Append3(ENUM_HEAD, body, "}" + rest);
  }

  lemma FindsClass(body: string, rest: string)
    requires '}' !in body
    ensures MatchClass("class" + (" " + ("MessageTypes" + DeclarationTail(body + ("}" + rest))))) == Some(body)
  {
    var t3 := DeclarationTail(body + ("}" + rest));
    FindsTail(body, rest);
    var t4 := "MessageTypes" + t3;
    WordFront("MessageTypes", t3);
    SpaceFront(' ', t4);
    WordFront("class", " " + t4);
  }

  lemma FindsHead(body: string, rest: string)
    requires '}' !in body
    ensures MatchAt(Declaration(body + ("}" + rest))) == Some(body)
  {
    var t5 := "class" + (" " + ("MessageTypes" + DeclarationTail(body + ("}" + rest))));
    FindsClass(body, rest);
    SpaceFront(' ', t5);
    WordFront("enum", " " + t5);
  }

  // --- Members -----------------------------------------------------------------------------

  /** The pieces of s between line breaks. str.splitlines() also takes
      "\r\n" as one break and drops a final empty piece; both differences
      only add or remove blank pieces, which Members discards. */
  function Lines(s: string): (r: seq<string>)
    ensures |r| >= 1
    ensures forall i :: 0 <= i < |r| ==> forall k :: 0 <= k < |r[i]| ==> r[i][k] !in LINE_BREAKS
  {
    if |s| == 0 then [""]
    else
      var rest := Lines(s[1..]);
      if s[0] in LINE_BREAKS then [""] + rest
      else [[s[0]] + rest[0]] + rest[1..]
  }

  lemma {:induction false} LinesFirst(w: string, b: char, t: string)
    requires b in LINE_BREAKS && forall k :: 0 <= k < |w| ==> w[k] !in LINE_BREAKS
    ensures Lines(w + [b] + t) == [w] + Lines(t)
  {
    if |w| == 0 {
      assert (w + [b] + t)[1..] == t;
    } else {
      assert (w + [b] + t)[1..] == w[1..] + [b] + t;
      LinesFirst(w[1..], b, t);
      assert [w[0]] + w[1..] == w;
    }
  }

  /** [line.strip().strip(',') for line in lines if line.strip()]. */
  function MembersOf(lines: seq<string>): (r: seq<string>)
    ensures |r| <= |lines|
  {
    if |lines| == 0 then []
    else
      var rest := MembersOf(lines[1..]);
      var t := Text.Strip(lines[0], Text.WHITESPACE);
      if |t| > 0 then [Text.Strip(t, COMMAS)] + rest else rest
  }

  /** The members of an enum body. */
  function Members(body: string): seq<string>
  {
    MembersOf(Lines(body))
  }

  // --- Output --------------------------------------------------------------------------------

  /** What the loop does with one member. */
  datatype Step = Skip | Emit(line: string) | Raise(error: PyError)

  /** A member starting "//" is skipped; any other must split on '=' into
      exactly two parts, or the tuple unpacking raises ValueError. */
  function StepOf(member: string): (r: Step)
    ensures r.Raise? ==> r.error == ValueError
    ensures r.Skip? <==> StartsWith(member, "//")
    ensures r.Raise? <==> !StartsWith(member, "//") && |Text.Split(member, '=')| != 2
  {
    if StartsWith(member, "//") then Skip
    else
      var parts := Text.Split(member, '=');
      if |parts| != 2 then Raise(ValueError)
      else Emit(AttributeLine(parts[0], parts[1]))
  }

  /** f"    {name.strip()} = {value.strip()}\n" */
  function AttributeLine(name: string, value: string): string
  {
    INDENT + Text.Strip(name, Text.WHITESPACE) + " = " + Text.Strip(value, Text.WHITESPACE) + "\n"
  }

  /** The text the loop writes for the members, and the exception that ends
      it early, if any. */
  function Rendered(members: seq<string>): (r: (string, Option<PyError>))
  {
    if |members| == 0 then ("", None)
    else
      match StepOf(members[0])
      case Skip => Rendered(members[1..])
      case Raise(e) => ("", Some(e))
      case Emit(line) => var (t, e) := Rendered(members[1..]); (line + t, e)
  }

  /** Rendered from the member at i on, one step unfolded. */
  lemma RenderedFrom(members: seq<string>, i: nat)
    requires i < |members|
    ensures StepOf(members[i]).Skip? ==> Rendered(members[i..]) == Rendered(members[i + 1..])
    ensures StepOf(members[i]).Raise? ==> Rendered(members[i..]) == ("", Some(StepOf(members[i]).error))
    ensures StepOf(members[i]).Emit? ==>
              Rendered(members[i..]) == (StepOf(members[i]).line + Rendered(members[i + 1..]).0, Rendered(members[i + 1..]).1)
  {
    assert members[i..][1..] == members[i + 1..];
  }

  /** The write loop. The file is written line by line, so an exception
      leaves the lines before it in the file. */
  method WriteMembers(members: seq<string>) returns (file: string, error: Option<PyError>)
    ensures file == FILE_HEADER + CLASS_LINE + Rendered(members).0
    ensures error == Rendered(members).1
  {
    file, error := FILE_HEADER + CLASS_LINE, None;
    ghost var done := "";
    var i := 0;
    assert members[0..] == members;
    assert done + Rendered(members).0 == Rendered(members).0;
    while i < |members|
      invariant i <= |members| && file == FILE_HEADER + CLASS_LINE + done
      invariant Rendered(members).0 == done + Rendered(members[i..]).0
      invariant Rendered(members).1 == Rendered(members[i..]).1
    {
      var member := members[i];
      RenderedFrom(members, i);
      if StartsWith(member, "//") {
        i := i + 1;
        continue;
      }
      var parts := Text.Split(member, '=');
      if |parts| != 2 {
        return file, Some(ValueError);
      }
      var name, value := parts[0], parts[1];
      var line := AttributeLine(name, value);
      assert done + (line + Rendered(members[i + 1..]).0) == (done + line) + Rendered(members[i + 1..]).0;
      file := file + line;
      done := done + line;
      i := i + 1;
    }
    assert members[i..] == [];
    assert done + "" == done;
  }

  /** The script: ValueError, and no file, without the enum; otherwise the
      written file and the exception that ended the loop, if any. */
  method MakePythonMessages(content: string) returns (file: Option<string>, error: Option<PyError>)
    ensures Search(content).None? ==> file.None? && error == Some(ValueError)
    ensures Search(content).Some? ==>
              var r := Rendered(Members(Search(content).value));
              file == Some(FILE_HEADER + CLASS_LINE + r.0) && error == r.1
  {
    var body := Search(content);
    if body.None? {
      return None, Some(ValueError);
    }
    var members := Members(body.value);
    var text;
    text, error := WriteMembers(members);
    file := Some(text);
  }

  // --- The round trip ------------------------------------------------------------------------

  /** A name or value as Messages.h writes them: non-empty, on one line, no
      '=' or '}', no surrounding whitespace or commas, not a comment. */
  predicate Token(s: string)
  {
    && |s| > 0 && s[0] !in Text.WHITESPACE && s[|s| - 1] !in Text.WHITESPACE
    && s[0] != ',' && s[|s| - 1] != ',' && s[0] != '/'
    && forall k :: 0 <= k < |s| ==> s[k] != '=' && s[k] != '}' && s[k] !in LINE_BREAKS
  }

  /** One enumerator line of the body: "    Name = Value,". */
  function EntryLine(name: string, value: string): string
  {
    INDENT + name + " = " + value + ","
  }

  /** The body "\n    A = 1,\n    B = 2,\n" ... of a list of entries. */
  function Body(names: seq<string>, values: seq<string>): string
    requires |names| == |values|
  {
    if |names| == 0 then "\n"
    else "\n" + EntryLine(names[0], values[0]) + Body(names[1..], values[1..])
  }

  /** The Python the loop writes for the entries. */
  function PythonLines(names: seq<string>, values: seq<string>): string
    requires |names| == |values|
  {
    if |names| == 0 then ""
    else INDENT + names[0] + " = " + values[0] + "\n" + PythonLines(names[1..], values[1..])
  }

  /** For an enum written as Messages.h writes it, the script writes one
      `Name = Value` attribute per enumerator, in order, and raises nothing. */
  lemma RoundTrip(names: seq<string>, values: seq<string>, rest: string)
    requires |names| == |values|
    requires forall i :: 0 <= i < |names| ==> Token(names[i]) && Token(values[i])
    ensures var body := Body(names, values);
            && Search(ENUM_HEAD + body + "}" + rest) == Some(body)
            && Rendered(Members(body)) == (PythonLines(names, values), None)
  {
    BodyNoBrace(names, values);
    SearchFindsBody(Body(names, values), rest);
    BodyRenders(names, values);
  }

  lemma {:induction false} BodyNoBrace(names: seq<string>, values: seq<string>)
    requires |names| == |values|
    requires forall i :: 0 <= i < |names| ==> Token(names[i]) && Token(values[i])
    ensures '}' !in Body(names, values)
  {
    if |names| > 0 {
      BodyNoBrace(names[1..], values[1..]);
      assert Token(names[0]) && Token(values[0]);
      var line := EntryLine(names[0], values[0]);
      assert '}' !in line by {
        assert line == INDENT + names[0] + " = " + values[0] + ",";
        forall k | 0 <= k < |line| ensures line[k] != '}' {
          if k >= 4 && k < 4 + |names[0]| {
            assert line[k] == names[0][k - 4];
          } else if k >= 7 + |names[0]| && k < 7 + |names[0]| + |values[0]| {
            assert line[k] == values[0][k - 7 - |names[0]|];
          }
        }
      }
    }
  }

  lemma {:induction false} BodyRenders(names: seq<string>, values: seq<string>)
    requires |names| == |values|
    requires forall i :: 0 <= i < |names| ==> Token(names[i]) && Token(values[i])
    ensures Rendered(Members(Body(names, values))) == (PythonLines(names, values), None)
  {
    if |names| == 0 {
      assert Lines("\n") == [""] + Lines("");
    } else {
      var n, v := names[0], values[0];
      assert Token(n) && Token(v);
      var tail := Body(names[1..], values[1..]);
      BodyLinesStep(names, values);
      EntryMember(n, v);
      var member := n + " = " + v;
      MembersStep(EntryLine(n, v), member, Lines(tail[1..]));
      BodyRenders(names[1..], values[1..]);
      RenderedStep(member, INDENT + n + " = " + v + "\n", Members(tail));
    }
  }

  /** The lines of a body: a blank one, the first entry, and those of the
      rest after its leading blank line. */
  lemma BodyLinesStep(names: seq<string>, values: seq<string>)
    requires |names| == |values| && |names| > 0
    requires Token(names[0]) && Token(values[0])
    ensures var tail := Body(names[1..], values[1..]);
            && |tail| > 0
            && Lines(Body(names, values)) == [""] + [EntryLine(names[0], values[0])] + Lines(tail[1..])
            && Lines(tail) == [""] + Lines(tail[1..])
  {
    var line := EntryLine(names[0], values[0]);
    var tail := Body(names[1..], values[1..]);
    EntryNoBreak(names[0], values[0]);
    TailStartsWithBreak(names[1..], values[1..]);
    assert Body(names, values) == "" + ['\n'] + (line + tail);
    LinesFirst("", '\n', line + tail);
    assert line + tail == line + ['\n'] + tail[1..];
    LinesFirst(line, '\n', tail[1..]);
    assert tail == "" + ['\n'] + tail[1..];
    LinesFirst("", '\n', tail[1..]);
  }

  /** A blank line adds no member; an entry line adds its member. */
  lemma MembersStep(line: string, member: string, lines: seq<string>)
    requires |Text.Strip(line, Text.WHITESPACE)| > 0 && Text.Strip(Text.Strip(line, Text.WHITESPACE), COMMAS) == member
    ensures MembersOf([""] + [line] + lines) == [member] + MembersOf(lines)
    ensures MembersOf([""] + lines) == MembersOf(lines)
  {
    assert ([""] + [line] + lines)[1..] == [line] + lines;
    assert ([line] + lines)[1..] == lines;
    assert ([""] + lines)[1..] == lines;
  }

  /** A member that emits a line writes it before the rest. */
  lemma RenderedStep(member: string, line: string, rest: seq<string>)
    requires StepOf(member) == Emit(line)
    ensures Rendered([member] + rest) == (line + Rendered(rest).0, Rendered(rest).1)
  {
    assert ([member] + rest)[1..] == rest;
  }

  lemma TailStartsWithBreak(names: seq<string>, values: seq<string>)
    requires |names| == |values|
    ensures |Body(names, values)| > 0 && Body(names, values)[0] == '\n'
  {
  }

  lemma EntryNoBreak(n: string, v: string)
    requires Token(n) && Token(v)
    ensures forall k :: 0 <= k < |EntryLine(n, v)| ==> EntryLine(n, v)[k] !in LINE_BREAKS
  {
    var line := EntryLine(n, v);
    forall k | 0 <= k < |line| ensures line[k] !in LINE_BREAKS {
      if k >= 4 && k < 4 + |n| {
        assert line[k] == n[k - 4];
      } else if k >= 7 + |n| && k < 7 + |n| + |v| {
        assert line[k] == v[k - 7 - |n|];
      }
    }
  }

  /** One entry line becomes one member, which becomes one Python line. */
  lemma EntryMember(n: string, v: string)
    requires Token(n) && Token(v)
    ensures var t := Text.Strip(EntryLine(n, v), Text.WHITESPACE);
            && |t| > 0 && Text.Strip(t, COMMAS) == n + " = " + v
            && StepOf(n + " = " + v) == Emit(INDENT + n + " = " + v + "\n")
  {
    EntryStrip(n, v);
    EntryCommaStrip(n, v);
    EntrySplit(n, v);
    Text.StripPadding("", n, " ", Text.WHITESPACE);
    Text.StripPadding(" ", v, "", Text.WHITESPACE);
    assert n + " " == "" + n + " " && " " + v == " " + v + "";
  }

  lemma EntryStrip(n: string, v: string)
    requires Token(n) && Token(v)
    ensures Text.Strip(EntryLine(n, v), Text.WHITESPACE) == n + " = " + v + ","
  {
    var core := n + " = " + v + ",";
    assert EntryLine(n, v) == INDENT + core + "";
    Text.StripPadding(INDENT, core, "", Text.WHITESPACE);
  }

  lemma EntryCommaStrip(n: string, v: string)
    requires Token(n) && Token(v)
    ensures Text.Strip(n + " = " + v + ",", COMMAS) == n + " = " + v
  {
    var m := n + " = " + v;
    assert n + " = " + v + "," == "" + m + [','];
    Text.StripPadding("", m, [','], COMMAS);
  }

  lemma EntrySplit(n: string, v: string)
    requires Token(n) && Token(v)
    ensures Text.Split(n + " = " + v, '=') == [n + " ", " " + v]
  {
    assert '=' !in n && '=' !in v;
    assert '=' !in n + " " && '=' !in " " + v;
    assert n + " = " + v == Text.Join([n + " ", " " + v], '=');
    Text.SplitJoin([n + " ", " " + v], '=');
  }
}
