/** Value-level meaning of the two-pass assembler of assembler.py: operand
    classification, word encoding, the per-line translation, both passes and
    the listing format.  Class `Assembler` in module Assembler runs the same
    steps in place and is proved against these functions. */
module Assembly {
  import opened Text
  import opened Isa

  /** The `operand_type` tags: 'immediate', 'indirect', 'register', 'direct', 'none'. */
  datatype OperandType = Immediate | Indirect | Register | Direct | NoOperand

  datatype Operand = Operand(value: int, kind: OperandType)

  /** Why a line was rejected (the messages of the ValueErrors the assembler raises). */
  datatype AsmError =
    | BadInteger(text: string)          // `int()` refused the text after '#'
    | UnknownLabel(name: string)        // "(name)" where name is neither digits nor a label
    | BadRegisterNumber(text: string)   // "Rk" with k above 15
    | BadRegisterFormat(text: string)   // "R..." not followed by digits only
    | UnknownOperand(text: string)      // not digits, not a label, not an integer
    | UnknownMnemonic(mnemonic: string)
    | MissingOperand(mnemonic: string)

  /** A rejected line with its 1-based line number. */
  datatype LineError = LineError(line: nat, error: AsmError)

  datatype Result<+T, +E> = Success(value: T) | Failure(error: E)

  // ---------------------------------------------------------------- operands

  /** `parse_operand`: `#n` immediate; `(digits)` or `(label)` indirect; `R`
      followed by anything is register syntax, 0-15 only; then digits, a
      label, a variable or an integer literal as direct. */
  function ParseOperand(labels: map<string, nat>, variables: map<string, int>, text: string): (r: Result<Operand, AsmError>)
    ensures r.Success? ==> r.value.kind != NoOperand
    ensures r.Success? && r.value.kind == Register ==> 0 <= r.value.value <= 15
    ensures r.Success? && r.value.kind == Indirect ==> r.value.value >= 0
  {
    var s := Strip(text);
    if |s| > 0 && s[0] == '#' then
      match ParseInt(s[1..])
      case Some(v) => Success(Operand(v, Immediate))
      case None => Failure(BadInteger(s[1..]))
    else if |s| >= 2 && s[0] == '(' && s[|s| - 1] == ')' then
      var inner := Strip(s[1..|s| - 1]);
      if IsDigits(inner) then Success(Operand(DigitsValue(inner), Indirect))
      else if inner in labels then Success(Operand(labels[inner], Indirect))
      else Failure(UnknownLabel(inner))
    else if |s| >= 2 && s[0] == 'R' then
      var reg := s[1..];
      if IsDigits(reg) then
        var k := DigitsValue(reg);
        if k <= 15 then Success(Operand(k, Register)) else Failure(BadRegisterNumber(s))
      else Failure(BadRegisterFormat(s))
    else if IsDigits(s) then Success(Operand(DigitsValue(s), Direct))
    else if s in labels then Success(Operand(labels[s], Direct))
    else if s in variables then Success(Operand(variables[s], Direct))
    else
      match ParseInt(s)
      case Some(v) => Success(Operand(v, Direct))
      case None => Failure(UnknownOperand(s))
  }

  // ---------------------------------------------------------------- encoding

  /** What `encode_instruction` adds to the operand before keeping 12 bits. */
  function Offset(kind: OperandType): nat
  {
    match kind
    case Immediate => 512
    case Indirect => 256
    case Register => 1024
    case Direct => 0
    case NoOperand => 0
  }

  /** `encode_instruction`: the opcode in bits 15..12 and `(operand + offset) & 0xFFF`
      in bits 11..0. */
  function Encode(opcode: nat, operand: int, kind: OperandType): (w: nat)
    ensures opcode * 4096 <= w < opcode * 4096 + 4096
  {
    opcode * 4096 + Low12(operand + Offset(kind))
  }

  /** `x & 0xFFF`: the low twelve bits of x, in two's complement when x is
      negative, found by adding or removing multiples of 4096. */
  function Low12(x: int): (r: nat)
    ensures r < 4096
    decreases if x < 0 then 4096 - x else x
  {
    if x < 0 then Low12(x + 4096)
    else if x >= 4096 then Low12(x - 4096)
    else x
  }

  /** Those bits are the remainder of x modulo 4096, the one that is never negative. */
  lemma {:induction false} Low12IsRemainder(x: int)
    ensures Low12(x) == x % 4096
    decreases if x < 0 then 4096 - x else x
  {
    if x < 0 {
      Low12IsRemainder(x + 4096);
      ShiftRemainder(x);
    } else if x >= 4096 {
      Low12IsRemainder(x - 4096);
      ShiftRemainder(x - 4096);
    }
  }

  /** Adding 4096 keeps the remainder modulo 4096. */
  lemma ShiftRemainder(x: int)
    ensures (x + 4096) % 4096 == x % 4096
  {
    var q, r := x / 4096, x % 4096;
    assert x + 4096 == (q + 1) * 4096 + r;
  }

  /** Decoding an encoded word gives back the opcode and the offset operand
      modulo 4096, so every 4-bit opcode yields a 16-bit word. */
  lemma EncodeDecodes(opcode: nat, operand: int, kind: OperandType)
    requires opcode < 16
    ensures Encode(opcode, operand, kind) < 0x10000
    ensures Opcode(Encode(opcode, operand, kind)) == opcode
    ensures Field(Encode(opcode, operand, kind)) == Low12(operand + Offset(kind))
  {
    var f := Low12(operand + Offset(kind));
    var w := opcode * 4096 + f;
    assert w / 4096 == opcode by {
      assert opcode * 4096 <= w < (opcode + 1) * 4096;
    }
    assert w % 4096 == f;
  }

  /** The encodings the assembler's own tests expect. */
  lemma EncodeExamples()
    ensures Encode(OpLoad, 5, Immediate) == 0x1205
    ensures Encode(OpStore, 100, Direct) == 0x2064
    ensures Encode(OpHalt, 0, NoOperand) == 0
  {
  }

  // ---------------------------------------------------------------- lines

  /** A source line after the common front of both passes. */
  datatype Line = Blank | Code(labelName: Option<string>, body: string)

  /** Strip the line; blank and comment lines are Blank; otherwise cut from
      the first ';', then split at the first ':' into label and body. */
  function Clean(line: string): (c: Line)
    ensures c.Code? ==> c.body == [] || !IsSpace(c.body[0])
  {
    var t := Strip(line);
    if t == [] || t[0] == ';' then Blank
    else
      var u := CommentCut(t);
      match Find(u, ':')
      case Some(k) => Code(Some(Strip(u[..k])), Strip(u[k + 1..]))
      case None => Code(None, u)
  }

  /** Cut a line at its first ';' and strip what stands before it; a line
      without ';' is kept. What is left holds no ';', and it is stripped
      when the line was. */
  function CommentCut(t: string): (u: string)
    ensures ';' !in t ==> u == t
    ensures ';' !in u
    ensures Strip(t) == t ==> Strip(u) == u
  {
    match Find(t, ';')
    case Some(k) =>
      StripKeepsOut(t[..k], ';');
      StripStripped(t[..k]);
      Strip(t[..k])
    case None => t
  }

  /** A line with a ';' keeps the stripped text before its first ';'. */
  lemma CommentCutParts(t: string)
    ensures ';' in t ==>
              exists k :: 0 <= k < |t| && t[k] == ';' && ';' !in t[..k] && CommentCut(t) == Strip(t[..k])
  {
    if ';' in t {
      var k := Find(t, ';').value;
      assert CommentCut(t) == Strip(t[..k]);
    }
  }

  /** An instruction decoded from the text of one line, before it gets its address. */
  datatype Instr = Instr(word: nat, mnemonic: string, operand: int, kind: OperandType)

  /** The instruction of a defined opcode with its operand, encoded. */
  function MakeInstr(op: nat, mnemonic: string, operand: int, kind: OperandType): (i: Instr)
    requires Defined(op)
    ensures op == OpHalt && operand == 0 && kind == NoOperand ==> i.word == 0
  {
    EncodeExamples();
    Instr(Encode(op, operand, kind), mnemonic, operand, kind)
  }

  /** The part of `parse_line` after the label: split the body into words
      and translate those. */
  function Translate(labels: map<string, nat>, variables: map<string, int>, body: string): (r: Result<Option<Instr>, AsmError>)
    ensures r == Success(None) <==> Words(body) == []
  {
    TranslateWords(labels, variables, Words(body))
  }

  /** The words of a line body to an instruction: upper-case the first word
      and look it up as a mnemonic, take the second word as operand (HALT
      takes none and ignores one), encode. No words, no instruction. */
  function TranslateWords(labels: map<string, nat>, variables: map<string, int>, parts: seq<string>): (r: Result<Option<Instr>, AsmError>)
    ensures r == Success(None) <==> parts == []
  {
    if parts == [] then Success(None)
    else
      var mnemonic := Upper(parts[0]);
      match OpcodeOf(mnemonic)
      case None => Failure(UnknownMnemonic(mnemonic))
      case Some(op) =>
        if op == OpHalt then Success(Some(MakeInstr(op, mnemonic, 0, NoOperand)))
        else if |parts| < 2 then Failure(MissingOperand(mnemonic))
        else
          match ParseOperand(labels, variables, parts[1])
          case Failure(e) => Failure(e)
          case Success(o) => Success(Some(MakeInstr(op, mnemonic, o.value, o.kind)))
  }

  /** A translated instruction's word holds the opcode of its mnemonic in
      its top four bits, and it is 0 exactly for HALT. */
  lemma TranslateDecodes(labels: map<string, nat>, variables: map<string, int>, body: string)
    ensures var r := Translate(labels, variables, body);
      r.Success? && r.value.Some? ==>
      var i := r.value.value;
      i.word < 0x10000 && Defined(Opcode(i.word)) && Name(Opcode(i.word)) == i.mnemonic &&
      (Opcode(i.word) == OpHalt ==> i.word == 0 && i.kind == NoOperand)
  {
    var r := Translate(labels, variables, body);
    if r.Success? && r.value.Some? {
      var i := r.value.value;
      var op := OpcodeOf(i.mnemonic).value;
      EncodeDecodes(op, i.operand, i.kind);
      assert i.word == Encode(op, i.operand, i.kind);
    }
  }

  /** One assembled instruction: the dictionary `parse_line` returns. */
  datatype Record = Record(word: nat, mnemonic: string, operand: int, kind: OperandType, labelName: Option<string>, address: nat)

  /** The label table and address counter after a call of `parse_line`, and what it returned. */
  datatype Parsed = Parsed(labels: map<string, nat>, counter: nat, result: Result<Option<Record>, AsmError>)

  /** `parse_line`: bind the line's label to the current counter (even when
      the rest of the line is then rejected), translate the body, and on an
      instruction tag it with the counter and advance the counter by one. */
  function ParseLine(labels: map<string, nat>, variables: map<string, int>, counter: nat, line: string): (p: Parsed)
    ensures p.counter == counter + (if p.result.Success? && p.result.value.Some? then 1 else 0)
    ensures p.result.Success? && p.result.value.Some? ==> p.result.value.value.address == counter
    ensures labels.Keys <= p.labels.Keys
    ensures forall l :: l in labels && l !in LabelOf(line) ==> p.labels[l] == labels[l]
  {
    match Clean(line)
    case Blank => Parsed(labels, counter, Success(None))
    case Code(labelName, body) => ParseCode(labels, variables, counter, labelName, body)
  }

  /** The labels a line defines: none, or the one before its ':'. */
  function LabelOf(line: string): set<string>
  {
    match Clean(line)
    case Blank => {}
    case Code(labelName, _) => if labelName.Some? then {labelName.value} else {}
  }

  /** `parse_line` after the line has been cut into label and body. */
  function ParseCode(labels: map<string, nat>, variables: map<string, int>, counter: nat, labelName: Option<string>, body: string): (p: Parsed)
    ensures p.counter == counter + (if p.result.Success? && p.result.value.Some? then 1 else 0)
    ensures p.result.Success? && p.result.value.Some? ==> p.result.value.value.address == counter
    ensures p.labels == if labelName.Some? then labels[labelName.value := counter] else labels
    ensures p.result == Success(None) <==> body == [] || Words(body) == []
  {
    var bound := if labelName.Some? then labels[labelName.value := counter] else labels;
    if body == [] then Parsed(bound, counter, Success(None))
    else
      match Translate(bound, variables, body)
      case Failure(e) => Parsed(bound, counter, Failure(e))
      case Success(None) => Parsed(bound, counter, Success(None))
      case Success(Some(i)) =>
        Parsed(bound, counter + 1, Success(Some(Record(i.word, i.mnemonic, i.operand, i.kind, labelName, counter))))
  }

  // ---------------------------------------------------------------- the two passes

  /** Label table and address counter of the first pass. */
  datatype Pass1State = Pass1State(labels: map<string, nat>, counter: nat)

  /** What the first pass does with one line: bind its label to the counter,
      and count the line when it has text after its label. */
  function Pass1Line(p: Pass1State, line: Line): Pass1State
  {
    match line
    case Blank => p
    case Code(labelName, body) =>
      var labels := if labelName.Some? then p.labels[labelName.value := p.counter] else p.labels;
      Pass1State(labels, if body != [] then p.counter + 1 else p.counter)
  }

  /** The first pass over the lines, from an empty table and counter 0. */
  function Pass1(lines: seq<string>): Pass1State
    decreases |lines|
  {
    if lines == [] then Pass1State(map[], 0)
    else Pass1Line(Pass1(lines[..|lines| - 1]), Clean(lines[|lines| - 1]))
  }

  /** Label table, address counter, records and errors of the second pass. */
  datatype Pass2State = Pass2State(labels: map<string, nat>, counter: nat, records: seq<Record>, errors: seq<LineError>)

  /** What the second pass does with line number `n`: `parse_line` with no
      variables; a rejected line adds one error tagged with `n`. */
  function Pass2Line(p: Pass2State, n: nat, line: string): Pass2State
  {
    var r := ParseLine(p.labels, map[], p.counter, line);
    match r.result
    case Failure(e) => Pass2State(r.labels, r.counter, p.records, p.errors + [LineError(n, e)])
    case Success(None) => Pass2State(r.labels, r.counter, p.records, p.errors)
    case Success(Some(rec)) => Pass2State(r.labels, r.counter, p.records + [rec], p.errors)
  }

  /** The second pass, from the given label table and counter 0; lines are
      numbered from 1. */
  function Pass2(initial: map<string, nat>, lines: seq<string>): Pass2State
    decreases |lines|
  {
    if lines == [] then Pass2State(initial, 0, [], [])
    else Pass2Line(Pass2(initial, lines[..|lines| - 1]), |lines|, lines[|lines| - 1])
  }

  /** Both passes, one more line at a time. */
  lemma PassesExtend(initial: map<string, nat>, lines: seq<string>, i: nat)
    requires i < |lines|
    ensures Pass1(lines[..i + 1]) == Pass1Line(Pass1(lines[..i]), Clean(lines[i]))
    ensures Pass2(initial, lines[..i + 1]) == Pass2Line(Pass2(initial, lines[..i]), i + 1, lines[i])
  {
    assert lines[..i + 1][..i] == lines[..i];
  }

  /** `assemble(source)`: all records, or every error when any line was rejected. */
  function Assemble(source: string): (r: Result<seq<Record>, seq<LineError>>)
    ensures r.Failure? ==> r.error != []
  {
    var lines := Split(source, '\n');
    var p := Pass2(Pass1(lines).labels, lines);
    if p.errors != [] then Failure(p.errors) else Success(p.records)
  }

  // ---------------------------------------------------------------- listing

  /** How `format_program` writes an operand: `#n`, `(n)`, `Rn`, `n`, or nothing. */
  function OperandText(value: int, kind: OperandType): string
  {
    match kind
    case Immediate => "#" + IntToString(value)
    case Indirect => "(" + IntToString(value) + ")"
    case Register => "R" + IntToString(value)
    case Direct => IntToString(value)
    case NoOperand => ""
  }

  /** An operand is written as one word: no whitespace, and empty only
      when there is no operand. */
  lemma OperandTextIsWord(value: int, kind: OperandType)
    ensures var t := OperandText(value, kind);
            (t == [] <==> kind == NoOperand) && NoSpace(t)
  {
    var digits := IntToString(value);
    match kind
    case Immediate => NoSpaceJoin("#", digits);
    case Indirect => NoSpaceJoin("(", digits); NoSpaceJoin("(" + digits, ")");
    case Register => NoSpaceJoin("R", digits);
    case Direct =>
    case NoOperand =>
  }

  /** One listing line: address and word as 4-digit hex, then the source part. */
  function FormatRecord(r: Record): (s: string)
    ensures var a := Hex(r.address, 4);
            var c := SourceColumns(r);
            && |s| == |a| + 2 + |Hex(r.word, 4)| + 1 + |c|
            && s[..|a|] == a && s[|a|..|a| + 2] == ": " && s[|s| - |c|..] == c
  {
    Hex(r.address, 4) + ": " + Hex(r.word, 4) + " " + SourceColumns(r)
  }

  /** The source part of a listing line: the label padded to ten columns (or
      ten blanks), then the mnemonic and operand. */
  function SourceColumns(r: Record): string
  {
    var column := if r.labelName.Some? && r.labelName.value != "" then PadRight(r.labelName.value, 10) + " " else Repeat(' ', 10);
    var operand := OperandText(r.operand, r.kind);
    column + (if operand != "" then PadRight(r.mnemonic, 5) + " " + operand else r.mnemonic)
  }
}
