/** The assembler object of assembler.py: its label table, variable table and
    address counter are fields that `ParseLine` and `Assemble` update in
    place.  Each method is proved to compute what the functions of module
    Assembly describe. */
module AssemblerObject {
  import opened Text
  import opened Isa
  import opened Assembly

  class Assembler {
    var labels: map<string, nat>
    var variables: map<string, int>
    var addressCounter: nat

    /** A fresh assembler: no labels, no variables, counter 0. */
    constructor ()
      ensures labels == map[] && variables == map[] && addressCounter == 0
    {
      labels, variables, addressCounter := map[], map[], 0;
    }

    method Reset()
      modifies this
      ensures labels == map[] && variables == map[] && addressCounter == 0
    {
      labels, variables, addressCounter := map[], map[], 0;
    }

    /** `parse_line` on the object's tables: the new tables and the result are
        those of Assembly.ParseLine; the variable table is never changed. */
    method ParseLine(line: string) returns (r: Result<Option<Record>, AsmError>)
      modifies this
      ensures Parsed(labels, addressCounter, r) == Assembly.ParseLine(old(labels), old(variables), old(addressCounter), line)
      ensures variables == old(variables)
    {
      var cleaned := Clean(line);
      if cleaned.Blank? {
        return Success(None);
      }
      r := ParseCode(cleaned.labelName, cleaned.body);
    }

    /** The rest of `parse_line` once the line is cut into label and body. */
    method ParseCode(labelName: Option<string>, body: string) returns (r: Result<Option<Record>, AsmError>)
      modifies this
      ensures Parsed(labels, addressCounter, r) == Assembly.ParseCode(old(labels), old(variables), old(addressCounter), labelName, body)
      ensures variables == old(variables)
    {
      if labelName.Some? {
        labels := labels[labelName.value := addressCounter];
      }
      if body == [] {
        return Success(None);
      }
      var t := Translate(labels, variables, body);
      if t.Failure? {
        return Failure(t.error);
      }
      if t.value.None? {
        return Success(None);
      }
      var i := t.value.value;
      r := Success(Some(Record(i.word, i.mnemonic, i.operand, i.kind, labelName, addressCounter)));
      addressCounter := addressCounter + 1;
    }

    /** `assemble`: reset, a first pass that only collects labels, a second
        pass that translates every line with the complete label table. */
    method Assemble(source: string) returns (r: Result<seq<Record>, seq<LineError>>)
      modifies this
      ensures r == Assembly.Assemble(source)
      ensures var lines := Split(source, '\n');
        var p := Pass2(Pass1(lines).labels, lines);
        labels == p.labels && addressCounter == p.counter && variables == map[]
    {
      Reset();
      var lines := Split(source, '\n');
      FirstPass(lines);
      var instructions, errors := SecondPass(lines);
      if errors != [] {
        return Failure(errors);
      }
      return Success(instructions);
    }

    /** The first loop of `assemble`: labels and counter only. */
    method FirstPass(lines: seq<string>)
      requires labels == map[] && variables == map[] && addressCounter == 0
      modifies this
      ensures Pass1State(labels, addressCounter) == Pass1(lines)
      ensures variables == map[]
    {
      for i := 0 to |lines|
        invariant Pass1State(labels, addressCounter) == Pass1(lines[..i])
        invariant variables == map[]
      {
        PassesExtend(map[], lines, i);
        BindLine(Clean(lines[i]));
      }
      assert lines[..|lines|] == lines;
    }

    /** One line of the first loop: bind its label, count it if it has a body. */
    method BindLine(cleaned: Line)
      modifies this
      ensures Pass1State(labels, addressCounter) == Pass1Line(old(Pass1State(labels, addressCounter)), cleaned)
      ensures variables == old(variables)
    {
      if cleaned.Code? {
        if cleaned.labelName.Some? {
          labels := labels[cleaned.labelName.value := addressCounter];
        }
        if cleaned.body != [] {
          addressCounter := addressCounter + 1;
        }
      }
    }

    /** The second loop of `assemble`: counter back to 0, `parse_line` on
        every line, records and numbered errors collected in order. */
    method SecondPass(lines: seq<string>) returns (instructions: seq<Record>, errors: seq<LineError>)
      requires variables == map[]
      modifies this
      ensures Pass2State(labels, addressCounter, instructions, errors) == Pass2(old(labels), lines)
      ensures variables == map[]
    {
      ghost var firstPass := labels;
      instructions, errors := [], [];
      addressCounter := 0;
      for i := 0 to |lines|
        invariant Pass2State(labels, addressCounter, instructions, errors) == Pass2(firstPass, lines[..i])
        invariant variables == map[]
      {
        PassesExtend(firstPass, lines, i);
        var result := ParseLine(lines[i]);
        if result.Failure? {
          errors := errors + [LineError(i + 1, result.error)];
        } else if result.value.Some? {
          instructions := instructions + [result.value.value];
        }
      }
      assert lines[..|lines|] == lines;
    }

    /** `format_program`: one listing line per record, in order. */
    method FormatProgram(instructions: seq<Record>) returns (lines: seq<string>)
      ensures |lines| == |instructions|
      ensures forall i :: 0 <= i < |instructions| ==> lines[i] == FormatRecord(instructions[i])
    {
      lines := [];
      for i := 0 to |instructions|
        invariant |lines| == i
        invariant forall j :: 0 <= j < i ==> lines[j] == FormatRecord(instructions[j])
      {
        lines := lines + [FormatRecord(instructions[i])];
      }
    }
  }
}
