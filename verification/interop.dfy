/** How the assembler's encoding meets the processor's decoding: which value
    each addressing type reaches at run time, what the disassembler's text
    assembles back to, and what the programs of the repository's own tests
    compute when run to completion. */
module Interop {
  import opened Text
  import opened Isa
  import M = Machine
  import A = Assembly
  import P = AssemblyProofs

  // ---------------------------------------------------------------- operands at run time

  /** `#v` with 0 <= v < 3584 reaches LOAD/ADD/SUB/CMP as the value v itself. */
  lemma ImmediateOperand(mem: seq<nat>, op: nat, v: int)
    requires |mem| == MemorySize && Defined(op) && 0 <= v < 3584
    ensures M.OperandValue(mem, Field(A.Encode(op, v, A.Immediate))) == v
  {
    A.EncodeDecodes(op, v, A.Immediate);
  }

  /** A negative immediate lands below 512 and is read from memory instead:
      `#-5` becomes field 507, an indirect read through cell 251. */
  lemma NegativeImmediateReadsMemory(mem: seq<nat>)
    requires |mem| == MemorySize
    ensures Field(A.Encode(OpLoad, -5, A.Immediate)) == 507
    ensures M.OperandValue(mem, 507) == M.ValueAt(mem, 251, M.Indirect)
  {
    A.EncodeDecodes(OpLoad, -5, A.Immediate);
  }

  /** A direct address below 256 reads that cell. */
  lemma DirectOperand(mem: seq<nat>, op: nat, a: int)
    requires |mem| == MemorySize && Defined(op) && 0 <= a < 256
    ensures M.OperandValue(mem, Field(A.Encode(op, a, A.Direct))) == mem[a]
  {
    A.EncodeDecodes(op, a, A.Direct);
  }

  /** `(a)` with a below 256 reads the cell whose address is stored in cell a. */
  lemma IndirectOperand(mem: seq<nat>, op: nat, a: int)
    requires |mem| == MemorySize && Defined(op) && 0 <= a < 256
    ensures M.OperandValue(mem, Field(A.Encode(op, a, A.Indirect))) == M.ValueAt(mem, a, M.Indirect)
  {
    A.EncodeDecodes(op, a, A.Indirect);
  }

  /** The processor has no registers: `Rk` reaches it as the constant 512 + k. */
  lemma RegisterOperand(mem: seq<nat>, op: nat, k: int)
    requires |mem| == MemorySize && Defined(op) && 0 <= k <= 15
    ensures M.OperandValue(mem, Field(A.Encode(op, k, A.Register))) == 512 + k
  {
    A.EncodeDecodes(op, k, A.Register);
  }

  // ---------------------------------------------------------------- disassembly and assembly

  /** The disassembly of any 16-bit word with a defined opcode other than
      HALT assembles back to that word. */
  lemma DisassembleReassembles(labels: map<string, nat>, variables: map<string, int>, w: nat)
    requires w < 0x10000 && Defined(Opcode(w)) && Opcode(w) != OpHalt
    ensures var r := A.Translate(labels, variables, M.Disassemble(w));
            r.Success? && r.value.Some? && r.value.value.word == w
  {
    var op, f := Opcode(w), Field(w);
    DisassembledText(w);
    P.InstructionRoundTrip(labels, variables, op, f, A.Direct);
    ReEncode(w);
  }

  /** A defined opcode other than HALT is shown as its mnemonic and its field
      written as a direct operand. */
  lemma DisassembledText(w: nat)
    requires Defined(Opcode(w)) && Opcode(w) != OpHalt
    ensures M.Disassemble(w) == Name(Opcode(w)) + " " + A.OperandText(Field(w), A.Direct)
  {
  }

  /** Re-encoding a word's opcode and field as a direct operand gives the word. */
  lemma ReEncode(w: nat)
    requires w < 0x10000
    ensures A.Encode(Opcode(w), Field(w), A.Direct) == w
  {
    WordSplits(w);
    A.EncodeDecodes(Opcode(w), Field(w), A.Direct);
    WordSplits(A.Encode(Opcode(w), Field(w), A.Direct));
  }

  /** HALT is disassembled without its field, so only the word 0 comes back. */
  lemma HaltReassembles(labels: map<string, nat>, variables: map<string, int>, w: nat)
    requires Opcode(w) == OpHalt
    ensures var r := A.Translate(labels, variables, M.Disassemble(w));
            r.Success? && r.value.Some? && r.value.value.word == 0
  {
    assert M.Disassemble(w) == Name(OpHalt);
    WordsOfWord(Name(OpHalt));
    P.UpperName(OpHalt);
    HaltLine(labels, variables, Name(OpHalt));
  }

  /** A line whose first word is HALT, in any letter case, is the word 0,
      whatever follows it. */
  lemma HaltLine(labels: map<string, nat>, variables: map<string, int>, line: string)
    requires Words(line) != [] && Upper(Words(line)[0]) == Name(OpHalt)
    ensures var r := A.Translate(labels, variables, line);
            r.Success? && r.value.Some? && r.value.value.word == 0
  {
    NameRoundTrip(OpHalt);
    var m := Upper(Words(line)[0]);
    assert OpcodeOf(m) == Some(OpHalt);
    var r := A.Translate(labels, variables, line);
    assert r.Success? && r.value.Some?;
    assert r.value.value.mnemonic == m && r.value.value.operand == 0 && r.value.value.kind == A.NoOperand;
  }

  // ---------------------------------------------------------------- programs

  /** Each state of `trace` can step, and the next state is what its step leaves. */
  predicate IsTrace(trace: seq<M.Cpu>)
  {
    && (forall i :: 0 <= i < |trace| ==> M.WellFormed(trace[i]))
    && (forall i :: 0 <= i < |trace| - 1 ==> M.Stepped(trace[i]) && trace[i + 1] == M.Step(trace[i]))
  }

  /** A run that follows a trace to a halted state stops there, whatever
      budget beyond the trace's length it was given. */
  lemma {:induction false} RunAlongTrace(trace: seq<M.Cpu>, n: int)
    requires |trace| >= 1 && IsTrace(trace) && trace[|trace| - 1].halted && n >= |trace| - 1
    ensures M.Run(trace[0], n) == trace[|trace| - 1]
    decreases |trace|
  {
    if |trace| > 1 {
      RunUnfold(trace[0], n);
      assert IsTrace(trace[1..]);
      RunAlongTrace(trace[1..], n - 1);
    }
  }

  /** Two traces that meet in a state make one. */
  lemma TraceJoin(a: seq<M.Cpu>, b: seq<M.Cpu>)
    requires |a| >= 1 && |b| >= 1 && IsTrace(a) && IsTrace(b) && a[|a| - 1] == b[0]
    ensures IsTrace(a + b[1..])
  {
    var c := a + b[1..];
    forall i | 0 <= i < |c| - 1
      ensures M.Stepped(c[i]) && c[i + 1] == M.Step(c[i])
    {
      if i < |a| - 1 {
        assert c[i] == a[i] && c[i + 1] == a[i + 1];
      } else {
        assert c[i] == b[i - |a| + 1] && c[i + 1] == b[i - |a| + 2];
      }
    }
  }

  /** One step of `run` on a processor that can step. */
  lemma RunUnfold(s: M.Cpu, n: int)
    requires M.WellFormed(s) && M.Stepped(s) && n > 0
    ensures M.Run(s, n) == M.Run(M.Step(s), n - 1)
  {
  }

  /** What one step does to ACC, memory, PC and the run state for the opcodes
      the test programs use. */
  lemma StepEffect(s: M.Cpu)
    requires M.WellFormed(s) && M.Stepped(s)
    ensures var t := M.Step(s);
            var w := s.mem[s.pc];
            var op, f := Opcode(w), Field(w);
            var v := M.OperandValue(s.mem, f);
            && t.stepCount == s.stepCount + 1
            && (op == OpLoad ==> t.acc == M.Mask16(v) && t.mem == s.mem && t.pc == s.pc + 1 && !t.halted)
            && (op == OpAdd ==> t.acc == M.Mask16(s.acc + v) && t.mem == s.mem && t.pc == s.pc + 1 && !t.halted)
            && (op == OpSub ==> t.acc == M.Mask16(s.acc - v) && t.mem == s.mem && t.pc == s.pc + 1 && !t.halted)
            && (op == OpStore ==> t.acc == s.acc && t.mem == s.mem[f := M.Mask16(s.acc)] && t.pc == s.pc + 1 && !t.halted)
            && (op == OpHalt ==> t.acc == s.acc && t.mem == s.mem && t.halted)
  {
    var w := s.mem[s.pc];
    var op, f := Opcode(w), Field(w);
    M.StepFetchesAndAdvances(s);
    if op == OpLoad || op == OpAdd || op == OpSub {
      M.AluOps(s.(ir := w), op, f);
    }
  }

  /** The processor with `program` loaded at address 0. */
  function Loaded(program: seq<nat>): (s: M.Cpu)
    ensures M.WellFormed(s) && s.pc == 0 && !s.halted && s.acc == 0 && s.stepCount == 0
    ensures forall i :: 0 <= i < MemorySize ==> s.mem[i] == if i < |program| then program[i] else 0
  {
    M.LoadProgram(M.Initial(), program, 0)
  }

  /** `LOAD #v`, `ADD #v` and `SUB #v` as the assembler encodes them, one step. */
  lemma ImmediateStep(s: M.Cpu, op: nat, v: nat)
    requires M.WellFormed(s) && M.Stepped(s)
    requires op in {OpLoad, OpAdd, OpSub} && v < 3584
    requires s.mem[s.pc] == op * 4096 + 512 + v
    ensures var t := M.Step(s);
            && t.acc == (if op == OpLoad then v else if op == OpAdd then M.Mask16(s.acc + v) else M.Mask16(s.acc - v))
            && t.mem == s.mem && t.pc == s.pc + 1 && !t.halted && t.stepCount == s.stepCount + 1
  {
    WordSplits(s.mem[s.pc]);
    StepEffect(s);
  }

  /** `LOAD a`, `ADD a` and `SUB a` with a direct address below 256, one step. */
  lemma DirectStep(s: M.Cpu, op: nat, a: nat)
    requires M.WellFormed(s) && M.Stepped(s)
    requires op in {OpLoad, OpAdd, OpSub} && a < 256
    requires s.mem[s.pc] == op * 4096 + a
    ensures var t := M.Step(s);
            var v := s.mem[a];
            && t.acc == (if op == OpLoad then M.Mask16(v) else if op == OpAdd then M.Mask16(s.acc + v) else M.Mask16(s.acc - v))
            && t.mem == s.mem && t.pc == s.pc + 1 && !t.halted && t.stepCount == s.stepCount + 1
  {
    WordSplits(s.mem[s.pc]);
    StepEffect(s);
  }

  /** `STORE a` with a direct address, one step. */
  lemma StoreStep(s: M.Cpu, a: nat)
    requires M.WellFormed(s) && M.Stepped(s) && a < MemorySize
    requires s.mem[s.pc] == OpStore * 4096 + a
    ensures var t := M.Step(s);
            && t.acc == s.acc && t.mem == s.mem[a := M.Mask16(s.acc)]
            && t.pc == s.pc + 1 && !t.halted && t.stepCount == s.stepCount + 1
  {
    WordSplits(s.mem[s.pc]);
    StepEffect(s);
  }

  /** The word 0 halts the processor in one step. */
  lemma HaltStep(s: M.Cpu)
    requires M.WellFormed(s) && M.Stepped(s) && s.mem[s.pc] == 0
    ensures var t := M.Step(s);
            t.halted && t.acc == s.acc && t.mem == s.mem && t.stepCount == s.stepCount + 1
  {
    StepEffect(s);
  }

  /** LOAD #5, ADD #3, STORE 100, HALT from address 0, under any budget of
      at least four steps: halted after four steps with 8 in ACC and in cell
      100. */
  lemma AddAndStore(s: M.Cpu, n: int)
    requires M.WellFormed(s) && !s.halted && s.pc == 0 && n >= 4
    requires s.mem[0] == 0x1205 && s.mem[1] == 0x3203 && s.mem[2] == 0x2064 && s.mem[3] == 0
    ensures var t := M.Run(s, n);
            t.halted && t.acc == 8 && t.mem[100] == 8 && t.stepCount == s.stepCount + 4
  {
    ImmediateStep(s, OpLoad, 5);
    var s1 := M.Step(s);
    ImmediateStep(s1, OpAdd, 3);
    var s2 := M.Step(s1);
    StoreStep(s2, 100);
    var s3 := M.Step(s2);
    HaltStep(s3);
    RunUnfold(s, n);
    RunUnfold(s1, n - 1);
    RunUnfold(s2, n - 2);
    RunUnfold(s3, n - 3);
  }

  /** The same program loaded by `load_program` and run with the default budget. */
  lemma ProgramExecution()
    ensures var t := M.Run(Loaded([0x1205, 0x3203, 0x2064, 0x0000]), 10000);
            t.halted && t.acc == 8 && t.mem[100] == 8 && t.stepCount == 4
  {
    var s := Loaded([0x1205, 0x3203, 0x2064, 0x0000]);
    AddAndStore(s, 10000);
  }

  /** The program of quick_test.py: LOAD #100, ADD #50, STORE 200, LOAD 200,
      SUB #25, STORE 201, HALT.  From address 0 with a budget of at least
      seven steps it halts after seven steps with 150 in cell 200 and 125 in
      cell 201 and in ACC. */
  lemma StoreAndReload(s: M.Cpu, n: int)
    requires M.WellFormed(s) && !s.halted && s.pc == 0 && n >= 7
    requires s.mem[0] == 0x1264 && s.mem[1] == 0x3232 && s.mem[2] == 0x20C8 && s.mem[3] == 0x10C8
    requires s.mem[4] == 0x4219 && s.mem[5] == 0x20C9 && s.mem[6] == 0
    ensures var t := M.Run(s, n);
            t.halted && t.mem[200] == 150 && t.mem[201] == 125 && t.acc == 125 && t.stepCount == s.stepCount + 7
  {
    var first := StoreAndReloadFirst(s);
    var second := StoreAndReloadSecond(first[4]);
    TraceJoin(first, second);
    RunAlongTrace(first + second[1..], n);
  }

  /** LOAD #100, ADD #50, STORE 200, LOAD 200: four steps that leave 150 in
      ACC and in cell 200. */
  lemma StoreAndReloadFirst(s: M.Cpu) returns (trace: seq<M.Cpu>)
    requires M.WellFormed(s) && !s.halted && s.pc == 0
    requires s.mem[0] == 0x1264 && s.mem[1] == 0x3232 && s.mem[2] == 0x20C8 && s.mem[3] == 0x10C8
    ensures |trace| == 5 && trace[0] == s && IsTrace(trace)
    ensures var t := trace[4];
            !t.halted && t.pc == 4 && t.acc == 150 && t.mem == s.mem[200 := 150] && t.stepCount == s.stepCount + 4
  {
    ImmediateStep(s, OpLoad, 100);
    var s1 := M.Step(s);
    ImmediateStep(s1, OpAdd, 50);
    var s2 := M.Step(s1);
    StoreStep(s2, 200);
    var s3 := M.Step(s2);
    DirectStep(s3, OpLoad, 200);
    var s4 := M.Step(s3);
    trace := [s, s1, s2, s3, s4];
  }

  /** SUB #25, STORE 201, HALT: three steps that leave 125 in ACC and in cell 201. */
  lemma StoreAndReloadSecond(s: M.Cpu) returns (trace: seq<M.Cpu>)
    requires M.WellFormed(s) && !s.halted && s.pc == 4 && s.acc == 150
    requires s.mem[4] == 0x4219 && s.mem[5] == 0x20C9 && s.mem[6] == 0
    ensures |trace| == 4 && trace[0] == s && IsTrace(trace)
    ensures var t := trace[3];
            t.halted && t.acc == 125 && t.mem == s.mem[201 := 125] && t.stepCount == s.stepCount + 3
  {
    ImmediateStep(s, OpSub, 25);
    var s1 := M.Step(s);
    StoreStep(s1, 201);
    var s2 := M.Step(s1);
    HaltStep(s2);
    var s3 := M.Step(s2);
    trace := [s, s1, s2, s3];
  }

  /** The first four lines of the quick_test.py program translate, under
      any tables, to the words StoreAndReloadFirst steps through. */
  lemma FirstQuickTestWords(labels: map<string, nat>, variables: map<string, int>)
    ensures WordOf(A.Translate(labels, variables, "LOAD #100")) == Some(0x1264)
    ensures WordOf(A.Translate(labels, variables, "ADD #50")) == Some(0x3232)
    ensures WordOf(A.Translate(labels, variables, "STORE 200")) == Some(0x20C8)
    ensures WordOf(A.Translate(labels, variables, "LOAD 200")) == Some(0x10C8)
  {
    FirstQuickTestTexts();
    LineWord(labels, variables, OpLoad, 100, A.Immediate, "LOAD #100", 0x1264);
    LineWord(labels, variables, OpAdd, 50, A.Immediate, "ADD #50", 0x3232);
    LineWord(labels, variables, OpStore, 200, A.Direct, "STORE 200", 0x20C8);
    LineWord(labels, variables, OpLoad, 200, A.Direct, "LOAD 200", 0x10C8);
  }

  /** The last three lines of the quick_test.py program translate, under
      any tables, to the words StoreAndReloadSecond steps through. */
  lemma SecondQuickTestWords(labels: map<string, nat>, variables: map<string, int>)
    ensures WordOf(A.Translate(labels, variables, "SUB #25")) == Some(0x4219)
    ensures WordOf(A.Translate(labels, variables, "STORE 201")) == Some(0x20C9)
    ensures WordOf(A.Translate(labels, variables, "HALT")) == Some(0)
  {
    SecondQuickTestTexts();
    LineWord(labels, variables, OpSub, 25, A.Immediate, "SUB #25", 0x4219);
    LineWord(labels, variables, OpStore, 201, A.Direct, "STORE 201", 0x20C9);
    assert Name(OpHalt) == "HALT";
    WordsOfWord(Name(OpHalt));
    P.UpperName(OpHalt);
    HaltLine(labels, variables, Name(OpHalt));
  }

  /** The first four quick_test.py lines as mnemonic and operand text, and their words. */
  lemma FirstQuickTestTexts()
    ensures Name(OpLoad) + " " + A.OperandText(100, A.Immediate) == "LOAD #100"
    ensures Name(OpAdd) + " " + A.OperandText(50, A.Immediate) == "ADD #50"
    ensures Name(OpStore) + " " + A.OperandText(200, A.Direct) == "STORE 200"
    ensures Name(OpLoad) + " " + A.OperandText(200, A.Direct) == "LOAD 200"
    ensures A.Encode(OpLoad, 100, A.Immediate) == 0x1264 && A.Encode(OpAdd, 50, A.Immediate) == 0x3232
    ensures A.Encode(OpStore, 200, A.Direct) == 0x20C8 && A.Encode(OpLoad, 200, A.Direct) == 0x10C8
  {
    assert Decimal(50) == "50" && Decimal(100) == "100" && Decimal(200) == "200";
  }

  /** The next two quick_test.py lines as mnemonic and operand text, and their words. */
  lemma SecondQuickTestTexts()
    ensures Name(OpSub) + " " + A.OperandText(25, A.Immediate) == "SUB #25"
    ensures Name(OpStore) + " " + A.OperandText(201, A.Direct) == "STORE 201"
    ensures A.Encode(OpSub, 25, A.Immediate) == 0x4219 && A.Encode(OpStore, 201, A.Direct) == 0x20C9
  {
    assert Decimal(25) == "25" && Decimal(201) == "201";
  }

  /** The word of a translated line, if it translated to an instruction. */
  function WordOf(r: A.Result<Option<A.Instr>, A.AsmError>): Option<nat>
  {
    if r.Success? && r.value.Some? then Some(r.value.value.word) else None
  }

  /** A line written as mnemonic, space, operand translates to the word the
      encoder gives for that opcode, operand and type. */
  lemma LineWord(labels: map<string, nat>, variables: map<string, int>, op: nat, value: nat, kind: A.OperandType, text: string, w: nat)
    requires Defined(op) && op != OpHalt && kind in {A.Immediate, A.Direct}
    requires text == Name(op) + " " + A.OperandText(value, kind)
    requires w == A.Encode(op, value, kind)
    ensures WordOf(A.Translate(labels, variables, text)) == Some(w)
  {
    P.InstructionRoundTrip(labels, variables, op, value, kind);
  }

  /** The same program loaded by `load_program` and stepped at most 20 times,
      as quick_test.py does. */
  lemma QuickTest()
    ensures var t := M.Run(Loaded([0x1264, 0x3232, 0x20C8, 0x10C8, 0x4219, 0x20C9, 0]), 20);
            t.halted && t.mem[200] == 150 && t.mem[201] == 125 && t.stepCount == 7
  {
    StoreAndReload(Loaded([0x1264, 0x3232, 0x20C8, 0x10C8, 0x4219, 0x20C9, 0]), 20);
  }

  /** `JMP 0` at address 0 never halts: every step of the budget is used and
      `run` reports that the processor is still running. */
  lemma SelfJumpUsesBudget(n: nat)
    requires n >= 1
    ensures var t := M.Run(Loaded([0x6000]), n);
            !t.halted && t.pc == 0 && t.stepCount == n
  {
    M.SpinsForever(Loaded([0x6000]), n);
  }
}
