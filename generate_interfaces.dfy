/** GenerateInterfaces.py: the Python builders generated from the message
    description in interface.json. Loading the JSON and writing the output
    file are the Interface value taken and the code text returned. */
module GenerateInterfaces {
  import opened Wrappers
  import Text

  /** One entry of a "fields" list: its "name" and C "type". */
  datatype Field = Field(name: string, typeName: string)

  /** One entry of "PredefinedMessages": the key and its list of fields. */
  datatype Predefined = Predefined(name: string, fields: seq<Field>)

  /** One entry of "messages": its "name", its "type" (either "Custom" or the
      name of a predefined message) and, for a custom message, its fields. */
  datatype Message = Message(name: string, kind: string, fields: seq<Field>)

  /** The loaded interface.json, its objects in file order. */
  datatype Interface = Interface(predefined: seq<Predefined>, messages: seq<Message>)

  const FILE_HEAD: string := "import struct\n\n"
  const FRAME_LINES: string :=
    "\theader = CreateHeader(message_id, len(body))\n"
    + "\tfooter = CreateFooter(sum(body) & 0xFF)\n"
    + "\treturn header+body+footer\n\n"
  const TRAILER: string :=
    "def print_bytes(byte_array):\n"
    + "\tprint(''.join(f'0x{byte:02x} ' for byte in byte_array))\n"
    + "print_bytes(CreateSetVelocityAndStepsMessage(0x11, 0x22, 0x33))\n"

  /** The C types GetBytes knows, with their sizes in bytes. */
  const TYPE_SIZES: map<string, nat> := map[
    "uint8_t" := 1, "int8_t" := 1, "uint16_t" := 2, "int16_t" := 2,
    "uint32_t" := 4, "int32_t" := 4, "double" := 8]

  // --- Type sizes ----------------------------------------------------------------------------

  /** The size in bytes of a C type name; 0 for any other name (the name is
      printed, which is left out). */
  function GetBytes(size: string): (r: nat)
    ensures size in TYPE_SIZES ==> r == TYPE_SIZES[size]
    ensures size !in TYPE_SIZES ==> r == 0
    ensures r in {0, 1, 2, 4, 8}
  {
    if size == "uint8_t" then 1
    else if size == "int8_t" then 1
    else if size == "uint16_t" then 2
    else if size == "int16_t" then 2
    else if size == "uint32_t" then 4
    else if size == "int32_t" then 4
    else if size == "double" then 8
    else 0
  }

  /** `type.split('[')[1]` then `return 0`: IndexError when the type has
      no '['; otherwise 0, whatever the array length. */
  function GetLen(typeName: string): (r: Result<nat, PyError>)
    ensures r.Ok? <==> '[' in typeName
    ensures r.Ok? ==> r.value == 0
    ensures r.Err? ==> r.error == IndexError
  {
    var parts := Text.Split(typeName, '[');
    SplitCount(typeName, '[');
    if |parts| < 2 then Err(IndexError) else Ok(0)
  }

  /** A string splits into more than one field exactly when it holds the
      separator. */
  lemma SplitCount(s: string, sep: char)
    ensures |Text.Split(s, sep)| >= 2 <==> sep in s
  {
    var parts := Text.Split(s, sep);
    if |parts| == 1 {
      assert Text.Join(parts, sep) == parts[0];
    } else {
      assert s == parts[0] + [sep] + Text.Join(parts[1..], sep);
      assert s[|parts[0]|] == sep;
    }
  }

  // --- The generated text --------------------------------------------------------------------

  /** The field names joined by ", " (the `first` flag loop). */
  function Params(fields: seq<Field>): string
  {
    if |fields| == 0 then ""
    else if |fields| == 1 then fields[0].name
    else fields[0].name + ", " + Params(fields[1..])
  }

  /** The line packing one field of a predefined message. */
  function PackLine(f: Field): string
  {
    "\tmessage += " + f.name + ".to_bytes(" + Text.FormatDecimal(GetBytes(f.typeName)) + ", 'little')\n"
  }

  function PackLines(fields: seq<Field>): string
  {
    if |fields| == 0 then "" else PackLines(fields[..|fields| - 1]) + PackLine(fields[|fields| - 1])
  }

  /** `def Create<name>(<fields>):` building the body from its fields. */
  function PredefinedDef(p: Predefined): string
  {
    "def Create" + p.name + "(" + Params(p.fields) + "):\n"
    + "\tmessage = bytearray(0)\n" + PackLines(p.fields) + "\treturn message\n\n"
  }

  function PredefinedDefs(ps: seq<Predefined>): string
  {
    if |ps| == 0 then "" else PredefinedDefs(ps[..|ps| - 1]) + PredefinedDef(ps[|ps| - 1])
  }

  /** The line appending one field of a custom message: an array field
      (its type has a '[') is appended as it is, any other field as its
      little-endian bytes. */
  function BodyLine(f: Field): string
  {
    if '[' in f.typeName then RawLine(f.name) else SizedLine(f.name, GetBytes(f.typeName))
  }

  /** f"\tbody+={name}\n" */
  function RawLine(name: string): string
  {
    "\tbody+=" + name + "\n"
  }

  /** f"\tbody += {name}.to_bytes({size},'little')\n" */
  function SizedLine(name: string, size: nat): string
  {
    "\tbody += " + name + ".to_bytes(" + Text.FormatDecimal(size) + ",'little')\n"
  }

  function BodyLines(fields: seq<Field>): string
  {
    if |fields| == 0 then "" else BodyLines(fields[..|fields| - 1]) + BodyLine(fields[|fields| - 1])
  }

  /** The parameters and body of a message builder, from its "type". */
  function MessageBody(m: Message): string
  {
    if m.kind == "Custom" then
      "message_id, " + Params(m.fields) + "):\n" + "\tbody = bytearray(0)\n" + BodyLines(m.fields)
    else
      "message_id, value):\n" + ("\tbody = Create" + m.kind + "(value)\n")
  }

  /** `def <name>(message_id, ...)` framing its body. */
  function MessageDef(m: Message): string
  {
    "def " + m.name + "(" + MessageBody(m) + FRAME_LINES
  }

  function MessageDefs(ms: seq<Message>): string
  {
    if |ms| == 0 then "" else MessageDefs(ms[..|ms| - 1]) + MessageDef(ms[|ms| - 1])
  }

  /** The whole generated module. */
  function PythonCode(interface: Interface): string
  {
    FILE_HEAD + PredefinedDefs(interface.predefined) + MessageDefs(interface.messages) + TRAILER
  }

  // --- What the generated text says ---------------------------------------------------------

  /** The parameter names as they stand between the commas: the first one
      bare, each later one after the space of ", ". */
  function ParamParts(fields: seq<Field>): (r: seq<string>)
    ensures |r| == |fields|
  {
    seq(|fields|, k requires 0 <= k < |fields| => if k == 0 then fields[k].name else " " + fields[k].name)
  }

  predicate PlainNames(fields: seq<Field>)
  {
    forall k :: 0 <= k < |fields| ==> ',' !in fields[k].name
  }

  /** Splitting a parameter list at its commas gives back the field names,
      in order, when no name holds a comma. */
  lemma ParamsSplit(fields: seq<Field>)
    requires |fields| >= 1 && PlainNames(fields)
    ensures Text.Split(Params(fields), ',') == ParamParts(fields)
  {
    ParamsJoin(fields);
    var parts := ParamParts(fields);
    forall k | 0 <= k < |parts|
      ensures ',' !in parts[k]
    {
      if k > 0 {
        assert parts[k] == " " + fields[k].name;
      }
    }
    Text.SplitJoin(parts, ',');
  }

  lemma {:induction false} ParamsJoin(fields: seq<Field>)
    requires |fields| >= 1
    ensures Params(fields) == Text.Join(ParamParts(fields), ',')
  {
    if |fields| > 1 {
      var rest := fields[1..];
      ParamsJoin(rest);
      var parts, tail := ParamParts(fields), ParamParts(rest);
      SpacedJoin(rest);
      assert parts[1..] == Spaced(rest);
      assert Text.Join(parts, ',') == fields[0].name + [','] + Text.Join(Spaced(rest), ',');
      assert fields[0].name + ", " + Params(rest) == fields[0].name + [','] + (" " + Params(rest));
    }
  }

  function Spaced(fields: seq<Field>): (r: seq<string>)
    ensures |r| == |fields|
  {
    seq(|fields|, k requires 0 <= k < |fields| => " " + fields[k].name)
  }

  lemma {:induction false} SpacedJoin(fields: seq<Field>)
    requires |fields| >= 1
    ensures Text.Join(Spaced(fields), ',') == " " + Params(fields)
  {
    if |fields| > 1 {
      var rest := fields[1..];
      SpacedJoin(rest);
      assert Spaced(fields)[1..] == Spaced(rest);
      assert " " + (fields[0].name + ", " + Params(rest)) == " " + fields[0].name + [','] + (" " + Params(rest));
    }
  }

  /** An array field's type is not one GetBytes knows, so sizing it would
      give to_bytes(0); such fields are exactly those written raw, and the
      ones GetLen accepts. */
  lemma ArrayFieldsRaw(f: Field)
    requires '[' in f.typeName
    ensures GetBytes(f.typeName) == 0
    ensures BodyLine(f) == RawLine(f.name)
    ensures GetLen(f.typeName) == Ok(0)
  {
    assert f.typeName !in TYPE_SIZES by {
      forall t | t in TYPE_SIZES ensures '[' !in t {
      }
    }
  }

  /** A scalar field is written with the byte count GetBytes gives it, as one
      decimal digit, and GetLen would raise on its type. */
  lemma ScalarFieldsSized(f: Field)
    requires '[' !in f.typeName
    ensures BodyLine(f) == SizedLine(f.name, GetBytes(f.typeName))
    ensures Text.FormatDecimal(GetBytes(f.typeName)) == [Text.DigitChar(GetBytes(f.typeName))]
    ensures GetLen(f.typeName) == Err(IndexError)
  {
  }

  // --- generate_python_code ------------------------------------------------------------------

  /** Appending one more name to the parameter list. */
  lemma {:induction false} ParamsSnoc(fields: seq<Field>, j: nat)
    requires j < |fields|
    ensures Params(fields[..j + 1]) == Params(fields[..j]) + (if j == 0 then "" else ", ") + fields[j].name
  {
    if j == 1 {
      assert fields[..2][1..] == fields[1..2];
    } else if j > 1 {
      ParamsSnoc(fields[1..], j - 1);
      assert fields[..j + 1][1..] == fields[1..][..j];
      assert fields[..j][1..] == fields[1..][..j - 1];
      assert fields[1..][j - 1] == fields[j];
    }
  }

  /** The `first` flag loop: appends the field names joined by ", ". */
  method AppendParams(code: string, fields: seq<Field>) returns (r: string)
    ensures r == code + Params(fields)
  {
    r := code;
    var first := true;
    var j := 0;
    while j < |fields|
      invariant j <= |fields| && r == code + Params(fields[..j]) && first == (j == 0)
    {
      ParamsSnoc(fields, j);
      var name := fields[j].name;
      if first {
        first := false;
        Text.Append3(code, Params(fields[..j]), name);
      } else {
        Text.Append3(code, Params(fields[..j]), ", ");
        r := r + ", ";
        Text.Append3(code, Params(fields[..j]) + ", ", name);
      }
      r := r + name;
      j := j + 1;
    }
    assert fields[..j] == fields;
  }

  /** The loop writing one packing line per field of a predefined message. */
  method AppendPackLines(code: string, fields: seq<Field>) returns (r: string)
    ensures r == code + PackLines(fields)
  {
    r := code;
    var j := 0;
    while j < |fields|
      invariant j <= |fields| && r == code + PackLines(fields[..j])
    {
      assert fields[..j + 1][..j] == fields[..j];
      var f := fields[j];
      var line := "\tmessage += " + f.name + ".to_bytes(" + Text.FormatDecimal(GetBytes(f.typeName)) + ", 'little')\n";
      assert line == PackLine(f);
      Text.Append3(code, PackLines(fields[..j]), line);
      r := r + line;
      j := j + 1;
    }
    assert fields[..j] == fields;
  }

  /** The loop writing one body line per field of a custom message. */
  method AppendBodyLines(code: string, fields: seq<Field>) returns (r: string)
    ensures r == code + BodyLines(fields)
  {
    r := code;
    var j := 0;
    while j < |fields|
      invariant j <= |fields| && r == code + BodyLines(fields[..j])
    {
      assert fields[..j + 1][..j] == fields[..j];
      var f := fields[j];
      var line;
      if '[' in f.typeName {
        line := RawLine(f.name);
      } else {
        line := SizedLine(f.name, GetBytes(f.typeName));
      }
      Text.Append3(code, BodyLines(fields[..j]), line);
      r := r + line;
      j := j + 1;
    }
    assert fields[..j] == fields;
  }

  /** One pass of the first loop: the builder of a predefined message. */
  method AppendPredefined(code: string, p: Predefined) returns (r: string)
    ensures r == code + PredefinedDef(p)
  {
    var head := "def Create" + p.name + "(";
    r := code + head;
    r := AppendParams(r, p.fields);
    ghost var piece := head + Params(p.fields);
    Text.Append3(code, head, Params(p.fields));
    r := r + "):\n";
    Text.Append3(code, piece, "):\n");
    piece := piece + "):\n";
    r := r + "\tmessage = bytearray(0)\n";
    Text.Append3(code, piece, "\tmessage = bytearray(0)\n");
    piece := piece + "\tmessage = bytearray(0)\n";
    r := AppendPackLines(r, p.fields);
    Text.Append3(code, piece, PackLines(p.fields));
    piece := piece + PackLines(p.fields);
    r := r + "\treturn message\n\n";
    Text.Append3(code, piece, "\treturn message\n\n");
  }

  /** The parameters and body of one builder, as the second loop writes them. */
  method AppendMessageBody(code: string, m: Message) returns (r: string)
    ensures r == code + MessageBody(m)
  {
    if m.kind == "Custom" {
      r := code + "message_id, ";
      r := AppendParams(r, m.fields);
      ghost var piece := "message_id, " + Params(m.fields);
      Text.Append3(code, "message_id, ", Params(m.fields));
      r := r + "):\n";
      Text.Append3(code, piece, "):\n");
      piece := piece + "):\n";
      r := r + "\tbody = bytearray(0)\n";
      Text.Append3(code, piece, "\tbody = bytearray(0)\n");
      piece := piece + "\tbody = bytearray(0)\n";
      r := AppendBodyLines(r, m.fields);
      Text.Append3(code, piece, BodyLines(m.fields));
    } else {
      r := code + "message_id, value):\n";
      var line := "\tbody = Create" + m.kind + "(value)\n";
      Text.Append3(code, "message_id, value):\n", line);
      r := r + line;
    }
  }

  /** One pass of the second loop: the builder of a message. */
  method AppendMessage(code: string, m: Message) returns (r: string)
    ensures r == code + MessageDef(m)
  {
    var head := "def " + m.name + "(";
    r := code + head;
    r := AppendMessageBody(r, m);
    Text.Append3(code, head, MessageBody(m));
    r := r + FRAME_LINES;
    Text.Append3(code, head + MessageBody(m), FRAME_LINES);
  }

  /** The first loop: one builder per predefined message. */
  method AppendPredefinedDefs(code: string, ps: seq<Predefined>) returns (r: string)
    ensures r == code + PredefinedDefs(ps)
  {
    r := code;
    var i := 0;
    assert ps[..0] == [];
    while i < |ps|
      invariant i <= |ps| && r == code + PredefinedDefs(ps[..i])
    {
      assert ps[..i + 1][..i] == ps[..i];
      Text.Append3(code, PredefinedDefs(ps[..i]), PredefinedDef(ps[i]));
      r := AppendPredefined(r, ps[i]);
      i := i + 1;
    }
    assert ps[..i] == ps;
  }

  /** The second loop: one builder per message. */
  method AppendMessageDefs(code: string, ms: seq<Message>) returns (r: string)
    ensures r == code + MessageDefs(ms)
  {
    r := code;
    var i := 0;
    assert ms[..0] == [];
    while i < |ms|
      invariant i <= |ms| && r == code + MessageDefs(ms[..i])
    {
      assert ms[..i + 1][..i] == ms[..i];
      Text.Append3(code, MessageDefs(ms[..i]), MessageDef(ms[i]));
      r := AppendMessage(r, ms[i]);
      i := i + 1;
    }
    assert ms[..i] == ms;
  }

  /** generate_python_code: the module text, accumulated in file order. */
  method GeneratePythonCode(interface: Interface) returns (code: string)
    ensures code == PythonCode(interface)
  {
    code := FILE_HEAD;
    code := AppendPredefinedDefs(code, interface.predefined);
    code := AppendMessageDefs(code, interface.messages);
    code := code + TRAILER;
  }
}
