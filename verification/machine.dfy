/** Value-level semantics of the one-accumulator processor of processor.py:
    a processor state is a `Cpu` value and every operation of the processor is
    a function from the old state to the new one.  The class `Processor` in
    module Emulator performs the same operations in place and is proved
    against these functions. */
module Machine {
  import opened Text
  import opened Isa

  datatype Flags = Flags(zf: bool, sf: bool, cf: bool, of: bool)

  const Cleared := Flags(false, false, false, false)

  /** Registers, flags, run state and the memory contents of a processor. */
  datatype Cpu = Cpu(acc: nat, pc: nat, ir: nat, flags: Flags, halted: bool, stepCount: nat, mem: seq<nat>)

  predicate WellFormed(s: Cpu)
  {
    |s.mem| == MemorySize
  }

  /** A freshly constructed processor: everything zero, all flags clear, running. */
  function Initial(): (s: Cpu)
    ensures WellFormed(s)
  {
    Cpu(0, 0, 0, Cleared, false, 0, seq(MemorySize, _ => 0))
  }

  // ---------------------------------------------------------------- arithmetic and flags

  /** Python's `r & 0xFFFF` on any integer, negative ones included. */
  function Mask16(r: int): (m: nat)
    ensures m < 0x10000
    ensures 0 <= r < 0x10000 ==> m == r
  {
    r % 0x10000
  }

  /** Python's `(r & 0x8000) != 0`: bit 15 of the two's-complement form of r. */
  predicate Bit15(r: int)
  {
    Mask16(r) >= 0x8000
  }

  /** The flags `update_flags(result)` sets. */
  function FlagsFor(result: int): (f: Flags)
    ensures f.zf <==> result == 0
    ensures f.zf ==> !f.sf && !f.cf && !f.of
    ensures f.cf ==> f.of
    ensures -0x8000 <= result <= 0x7FFF ==> !f.cf && !f.of
    ensures 0 <= result < 0x10000 ==> (f.sf <==> result >= 0x8000)
    ensures -0x8000 <= result < 0 ==> f.sf
  {
    Flags(result == 0, Bit15(result), result > 0xFFFF || result < -0x10000, result > 0x7FFF || result < -0x8000)
  }

  /** Flags computed from an already masked accumulator: ZF iff zero, SF and OF
      iff the top bit is set, CF never. */
  lemma MaskedFlags(a: nat)
    requires a < 0x10000
    ensures FlagsFor(a) == Flags(a == 0, a >= 0x8000, false, a >= 0x8000)
  {
  }

  // ---------------------------------------------------------------- operands

  /** The addressing modes `get_operand_value` distinguishes for an integer operand. */
  datatype Mode = Immediate | Direct | Indirect

  /** The integer branch of `get_operand_value`: a reference beyond memory reads 0. */
  function ValueAt(mem: seq<nat>, operand: nat, mode: Mode): nat
    requires |mem| == MemorySize
  {
    match mode
    case Immediate => operand
    case Direct => if operand < |mem| then mem[operand] else 0
    case Indirect =>
      var addr := if operand < |mem| then mem[operand] else 0;
      if addr < |mem| then mem[addr] else 0
  }

  /** The value LOAD, ADD, SUB and CMP read for a 12-bit field: below 256 a
      direct read, below 512 a read through a pointer cell, from 512 on the
      literal field - 512.  No register mode exists. */
  function OperandValue(mem: seq<nat>, f: nat): (v: nat)
    requires |mem| == MemorySize && f < MemorySize
    ensures f < 256 ==> v == mem[f]
    ensures 256 <= f < 512 ==> v == (if mem[f - 256] < MemorySize then mem[mem[f - 256]] else 0)
    ensures 512 <= f ==> v == f - 512 && v < 3584
  {
    if f < 256 then ValueAt(mem, f, Direct)
    else if f < 512 then ValueAt(mem, f - 256, Indirect)
    else ValueAt(mem, f - 512, Immediate)
  }

  // ---------------------------------------------------------------- one instruction

  /** `execute_instruction(opcode, operand)` for a 12-bit operand field.
      The conditional jumps advance PC themselves when not taken; HALT only
      sets `halted`; any other opcode does nothing. */
  function Execute(s: Cpu, opcode: int, f: nat): (t: Cpu)
    requires WellFormed(s) && f < MemorySize
    ensures WellFormed(t)
  {
    if opcode == OpLoad then
      var a := Mask16(OperandValue(s.mem, f));
      s.(acc := a, flags := FlagsFor(a))
    else if opcode == OpStore then
      s.(mem := s.mem[f := Mask16(s.acc)])
    else if opcode == OpAdd then
      var a := Mask16(s.acc + OperandValue(s.mem, f));
      s.(acc := a, flags := FlagsFor(a))
    else if opcode == OpSub then
      var a := Mask16(s.acc - OperandValue(s.mem, f));
      s.(acc := a, flags := FlagsFor(a))
    else if opcode == OpCmp then
      s.(flags := FlagsFor(s.acc - OperandValue(s.mem, f)))
    else if opcode == OpJmp then
      s.(pc := f)
    else if opcode == OpJz then
      if s.flags.zf then s.(pc := f) else s.(pc := s.pc + 1)
    else if opcode == OpJnz then
      if !s.flags.zf then s.(pc := f) else s.(pc := s.pc + 1)
    else if opcode == OpHalt then
      s.(halted := true)
    else
      s
  }

  /** LOAD, ADD and SUB leave the masked value, sum or difference in ACC and
      take the flags from that masked ACC, so CF stays clear; nothing else changes. */
  lemma AluOps(s: Cpu, op: nat, f: nat)
    requires WellFormed(s) && f < MemorySize
    requires op == OpLoad || op == OpAdd || op == OpSub
    ensures var t := Execute(s, op, f);
            var v := OperandValue(s.mem, f);
            && t.acc == (if op == OpLoad then v else if op == OpAdd then s.acc + v else s.acc - v) % 0x10000
            && t.flags == Flags(t.acc == 0, t.acc >= 0x8000, false, t.acc >= 0x8000)
            && t == s.(acc := t.acc, flags := t.flags)
  {
    MaskedFlags(Execute(s, op, f).acc);
  }

  /** CMP changes only the flags, which come from the unmasked difference r:
      ZF iff r = 0, SF iff bit 15 of r mod 2^16, CF iff r leaves
      [-65536, 65535], OF iff r leaves [-32768, 32767]. */
  lemma Compare(s: Cpu, f: nat)
    requires WellFormed(s) && f < MemorySize
    ensures var t := Execute(s, OpCmp, f);
            var r := s.acc - OperandValue(s.mem, f);
            && t == s.(flags := t.flags)
            && (t.flags.zf <==> r == 0)
            && (t.flags.sf <==> r % 0x10000 >= 0x8000)
            && (t.flags.cf <==> r > 0xFFFF || r < -0x10000)
            && (t.flags.of <==> r > 0x7FFF || r < -0x8000)
  {
  }

  /** With ACC = 10, `CMP #15` (field 527) sets SF and clears ZF, while `CMP #10` sets ZF. */
  lemma CompareExamples(s: Cpu)
    requires WellFormed(s) && s.acc == 10
    ensures Execute(s, OpCmp, 527).flags.sf && !Execute(s, OpCmp, 527).flags.zf
    ensures Execute(s, OpCmp, 522).flags.zf && !Execute(s, OpCmp, 522).flags.sf
  {
  }

  /** STORE writes the masked ACC to the raw field address and nothing else;
      JMP, JZ and JNZ change only PC, to the raw field when taken and to PC+1
      when not. */
  lemma StoreAndJumps(s: Cpu, f: nat)
    requires WellFormed(s) && f < MemorySize
    ensures Execute(s, OpStore, f) == s.(mem := s.mem[f := s.acc % 0x10000])
    ensures Execute(s, OpJmp, f) == s.(pc := f)
    ensures Execute(s, OpJz, f) == s.(pc := if s.flags.zf then f else s.pc + 1)
    ensures Execute(s, OpJnz, f) == s.(pc := if s.flags.zf then s.pc + 1 else f)
  {
  }

  /** Opcodes 9-15 (and anything else outside the table) do nothing. */
  lemma UndefinedOpcodes(s: Cpu, op: int, f: nat)
    requires WellFormed(s) && f < MemorySize && !Defined(op)
    ensures Execute(s, op, f) == s
  {
  }

  // ---------------------------------------------------------------- fetch, decode, execute

  /** What `step()` returns: false on a halted processor or with PC past memory. */
  predicate Stepped(s: Cpu)
  {
    !s.halted && s.pc < MemorySize
  }

  /** `step()`: fetch into IR, execute, advance PC unless the opcode is a jump
      or HALT, count the step.  A halted processor is left alone; PC past the
      end of memory halts it. */
  function Step(s: Cpu): (t: Cpu)
    requires WellFormed(s)
    ensures WellFormed(t)
  {
    if s.halted then s
    else if s.pc >= MemorySize then s.(halted := true)
    else
      var ir := s.mem[s.pc];
      var op := Opcode(ir);
      var e := Execute(s.(ir := ir), op, Field(ir));
      var e' := if op in {OpJmp, OpJz, OpJnz, OpHalt} then e else e.(pc := e.pc + 1);
      e'.(stepCount := e'.stepCount + 1)
  }

  /** Where control goes after a successful step: the field for JMP and for a
      taken JZ/JNZ, the same PC for HALT, the next cell otherwise (untaken
      jumps and undefined opcodes included). */
  function NextPc(s: Cpu): nat
    requires WellFormed(s) && s.pc < MemorySize
  {
    var w := s.mem[s.pc];
    var op := Opcode(w);
    if op == OpJmp || (op == OpJz && s.flags.zf) || (op == OpJnz && !s.flags.zf) then Field(w)
    else if op == OpHalt then s.pc
    else s.pc + 1
  }

  lemma StepWhenHalted(s: Cpu)
    requires WellFormed(s) && s.halted
    ensures !Stepped(s) && Step(s) == s
  {
  }

  lemma StepPastMemory(s: Cpu)
    requires WellFormed(s) && !s.halted && s.pc >= MemorySize
    ensures !Stepped(s) && Step(s) == s.(halted := true)
  {
  }

  /** A successful step loads IR from memory[PC], counts one step, moves PC
      as NextPc says, halts exactly on HALT, changes memory only for STORE
      and the accumulator only for LOAD, ADD and SUB. */
  lemma StepFetchesAndAdvances(s: Cpu)
    requires WellFormed(s) && Stepped(s)
    ensures var t := Step(s);
            var w := s.mem[s.pc];
            var op := Opcode(w);
            && t.ir == w
            && t.stepCount == s.stepCount + 1
            && t.pc == NextPc(s)
            && (t.halted <==> op == OpHalt)
            && t.mem == (if op == OpStore then s.mem[Field(w) := s.acc % 0x10000] else s.mem)
            && (op != OpLoad && op != OpAdd && op != OpSub ==> t.acc == s.acc)
  {
  }

  // ---------------------------------------------------------------- bounded run

  /** The state `run(max_steps)` leaves: step until halted, until a step
      fails, or until `max_steps` steps have been performed. */
  function Run(s: Cpu, n: int): (t: Cpu)
    requires WellFormed(s)
    ensures WellFormed(t)
    decreases n
  {
    if s.halted || n <= 0 then s
    else if Stepped(s) then Run(Step(s), n - 1)
    else Step(s)
  }

  /** How many successful steps `run(max_steps)` performs. */
  function StepsTaken(s: Cpu, n: int): nat
    requires WellFormed(s)
    decreases n
  {
    if s.halted || n <= 0 then 0
    else if Stepped(s) then 1 + StepsTaken(Step(s), n - 1)
    else 0
  }

  /** A step budget below zero allows no step. */
  function Budget(n: int): nat
  {
    if n <= 0 then 0 else n
  }

  /** `run` performs at most max_steps steps, raises step_count by exactly the
      number performed, leaves a halted processor alone, and reports `true`
      (not halted) only when the whole budget was used. */
  lemma {:induction false} RunAccounting(s: Cpu, n: int)
    requires WellFormed(s)
    ensures StepsTaken(s, n) <= Budget(n)
    ensures Run(s, n).stepCount == s.stepCount + StepsTaken(s, n)
    ensures !Run(s, n).halted ==> StepsTaken(s, n) == Budget(n)
    ensures s.halted ==> Run(s, n) == s
    decreases n
  {
    if !s.halted && n > 0 {
      if Stepped(s) {
        RunAccounting(Step(s), n - 1);
        assert Run(s, n) == Run(Step(s), n - 1);
        assert StepsTaken(s, n) == 1 + StepsTaken(Step(s), n - 1);
      } else {
        assert Run(s, n) == Step(s) == s.(halted := true);
      }
    }
  }

  /** Running with budget a and then with budget b is running with budget a + b. */
  lemma {:induction false} RunSplits(s: Cpu, a: nat, b: nat)
    requires WellFormed(s)
    ensures Run(Run(s, a), b) == Run(s, a + b)
    decreases a
  {
    if s.halted || a == 0 {
      if s.halted {
        RunAccounting(s, b);
        RunAccounting(s, a + b);
      }
    } else if Stepped(s) {
      assert Run(s, a) == Run(Step(s), a - 1);
      assert Run(s, a + b) == Run(Step(s), a - 1 + b);
      RunSplits(Step(s), a - 1, b);
    } else {
      assert Run(s, a) == Run(s, a + b) == Step(s);
      RunAccounting(Step(s), b);
    }
  }

  /** A cell holding `JMP` to itself keeps a processor busy for the whole budget:
      each step refetches the same word and counts, and `run` reports `true`. */
  lemma {:induction false} SpinsForever(s: Cpu, n: nat)
    requires WellFormed(s) && Stepped(s) && s.mem[s.pc] == OpJmp * 4096 + s.pc
    requires n >= 1
    ensures Run(s, n) == s.(ir := s.mem[s.pc], stepCount := s.stepCount + n)
    ensures !Run(s, n).halted
    decreases n
  {
    var t := Step(s);
    assert Opcode(s.mem[s.pc]) == OpJmp && Field(s.mem[s.pc]) == s.pc;
    assert t == s.(ir := s.mem[s.pc], stepCount := s.stepCount + 1);
    if n > 1 {
      SpinsForever(t, n - 1);
    }
  }

  // ---------------------------------------------------------------- reset and loading

  /** `reset()`: registers, flags, run state and step counter back to zero;
      memory is kept so that a loaded program survives. */
  function Reset(s: Cpu): (t: Cpu)
    ensures t == Initial().(mem := s.mem)
  {
    s.(acc := 0, pc := 0, ir := 0, flags := Cleared, halted := false, stepCount := 0)
  }

  /** The writes of the loaders' loop: `words[i]` goes to cell `start + i`
      where that cell exists, in order. */
  function Poke(mem: seq<nat>, words: seq<nat>, start: nat): (m: seq<nat>)
    ensures |m| == |mem|
    ensures forall i :: 0 <= i < |mem| ==>
              m[i] == if start <= i < start + |words| then words[i - start] else mem[i]
    decreases |words|
  {
    if words == [] then mem
    else
      var m := Poke(mem, words[..|words| - 1], start);
      var a := start + |words| - 1;
      if a < |m| then m[a := words[|words| - 1]] else m
  }

  /** `load_program(program, start_address)`: write the words and point PC at the start. */
  function LoadProgram(s: Cpu, program: seq<nat>, start: nat): (t: Cpu)
    ensures |t.mem| == |s.mem|
    ensures forall i :: 0 <= i < |s.mem| ==>
              t.mem[i] == if start <= i < start + |program| then program[i - start] else s.mem[i]
    ensures t.pc == start
    ensures t.(mem := s.mem, pc := s.pc) == s
  {
    s.(mem := Poke(s.mem, program, start), pc := start)
  }

  /** `load_data(data, start_address)`: write the words; PC is not touched. */
  function LoadData(s: Cpu, data: seq<nat>, start: nat): (t: Cpu)
    ensures |t.mem| == |s.mem|
    ensures forall i :: 0 <= i < |s.mem| ==>
              t.mem[i] == if start <= i < start + |data| then data[i - start] else s.mem[i]
    ensures t.(mem := s.mem) == s
  {
    s.(mem := Poke(s.mem, data, start))
  }

  // ---------------------------------------------------------------- disassembly and dump

  /** `disassemble_instruction(w)`: "HALT", "MNEMONIC field" with the field in
      decimal, or "UNKNOWN oooo fff" in hexadecimal for opcodes 9-15. */
  function Disassemble(w: nat): (r: string)
    ensures Opcode(w) == OpHalt ==> r == "HALT"
    ensures Defined(Opcode(w)) ==> |Name(Opcode(w))| <= |r| && r[..|Name(Opcode(w))|] == Name(Opcode(w))
    ensures !Defined(Opcode(w)) ==> |r| > 8 && r[..8] == "UNKNOWN "
  {
    var op := Opcode(w);
    var f := Field(w);
    if op == OpHalt then Name(op)
    else if Defined(op) then Name(op) + " " + Decimal(f)
    else "UNKNOWN " + Hex(op, 4) + " " + Hex(f, 3)
  }

  /** For an undefined opcode the text is 16 characters whose two hexadecimal
      parts read back as the opcode and the field. */
  lemma DisassembleUnknown(w: nat)
    requires !Defined(Opcode(w))
    ensures var r := Disassemble(w);
            && |r| == 16 && r[..8] == "UNKNOWN " && r[12] == ' '
            && IsHex(r[8..12]) && HexValue(r[8..12]) == Opcode(w)
            && IsHex(r[13..]) && HexValue(r[13..]) == Field(w)
  {
    var op, f := Opcode(w), Field(w);
    HexDigitsLength(op, 4);
    HexDigitsLength(f, 3);
    HexRoundTrip(op, 4);
    HexRoundTrip(f, 3);
    var r := Disassemble(w);
    assert r == "UNKNOWN " + Hex(op, 4) + " " + Hex(f, 3);
    assert r[8..12] == Hex(op, 4);
    assert r[13..] == Hex(f, 3);
  }

  /** One line of `get_memory_dump`: address, word, disassembly. */
  function DumpLine(i: nat, w: nat): string
  {
    Hex(i, 4) + ": " + Hex(w, 4) + " (" + Disassemble(w) + ")"
  }

  /** The lines `get_memory_dump` collects for cells lo .. hi-1: one per
      non-zero cell, in address order, and none for zero cells. */
  function Dump(mem: seq<nat>, lo: nat, hi: nat): (r: seq<string>)
    requires hi <= |mem|
    ensures |r| <= if lo <= hi then hi - lo else 0
    decreases hi
  {
    if hi <= lo then []
    else Dump(mem, lo, hi - 1) + (if mem[hi - 1] != 0 then [DumpLine(hi - 1, mem[hi - 1])] else [])
  }

  /** Every non-zero cell of the range has its line in the dump. */
  lemma DumpListsNonZero(mem: seq<nat>, lo: nat, hi: nat)
    requires hi <= |mem|
    ensures forall i :: lo <= i < hi && mem[i] != 0 ==> DumpLine(i, mem[i]) in Dump(mem, lo, hi)
  {
    var d, cells := Dump(mem, lo, hi), NonZeroCells(mem, lo, hi);
    DumpOfNonZeroCells(mem, lo, hi);
    forall i | lo <= i < hi && mem[i] != 0
      ensures DumpLine(i, mem[i]) in d
    {
      var k := CellIndex(mem, lo, hi, i);
      assert d[k] == DumpLine(i, mem[i]);
    }
  }

  /** A non-zero cell of the range is among the non-zero addresses. */
  lemma {:induction false} CellIndex(mem: seq<nat>, lo: nat, hi: nat, i: nat) returns (k: nat)
    requires hi <= |mem| && lo <= i < hi && mem[i] != 0
    ensures k < |NonZeroCells(mem, lo, hi)| && NonZeroCells(mem, lo, hi)[k] == i
    decreases hi
  {
    var prev := NonZeroCells(mem, lo, hi - 1);
    if i == hi - 1 {
      k := |prev|;
    } else {
      k := CellIndex(mem, lo, hi - 1, i);
    }
  }

  /** The addresses lo .. hi-1 whose cells are non-zero, in increasing order. */
  function NonZeroCells(mem: seq<nat>, lo: nat, hi: nat): (r: seq<nat>)
    requires hi <= |mem|
    ensures forall k :: 0 <= k < |r| ==> lo <= r[k] < hi && mem[r[k]] != 0
    ensures forall k, j :: 0 <= k < j < |r| ==> r[k] < r[j]
    decreases hi
  {
    if hi <= lo then []
    else NonZeroCells(mem, lo, hi - 1) + (if mem[hi - 1] != 0 then [hi - 1] else [])
  }

  /** Every non-zero cell of the range is among them. */
  lemma {:induction false} NonZeroCellsComplete(mem: seq<nat>, lo: nat, hi: nat)
    requires hi <= |mem|
    ensures forall i :: lo <= i < hi && mem[i] != 0 ==> i in NonZeroCells(mem, lo, hi)
    decreases hi
  {
    if lo < hi {
      NonZeroCellsComplete(mem, lo, hi - 1);
      var prev, c := NonZeroCells(mem, lo, hi - 1), NonZeroCells(mem, lo, hi);
      var last := if mem[hi - 1] != 0 then [hi - 1] else [];
      assert c == prev + last;
      forall i | lo <= i < hi && mem[i] != 0
        ensures i in c
      {
        if i < hi - 1 {
          assert i in prev;
        } else {
          assert i in last;
        }
      }
    }
  }

  /** The dump is one line per non-zero cell, in address order: line k
      belongs to the k-th non-zero address of the range. */
  lemma {:induction false} DumpOfNonZeroCells(mem: seq<nat>, lo: nat, hi: nat)
    requires hi <= |mem|
    ensures var cells := NonZeroCells(mem, lo, hi);
            |Dump(mem, lo, hi)| == |cells| &&
            forall k :: 0 <= k < |cells| ==> Dump(mem, lo, hi)[k] == DumpLine(cells[k], mem[cells[k]])
    decreases hi
  {
    if lo < hi {
      DumpOfNonZeroCells(mem, lo, hi - 1);
      if mem[hi - 1] != 0 {
        LinesOfCells(mem, Dump(mem, lo, hi - 1), NonZeroCells(mem, lo, hi - 1), hi - 1);
      }
    }
  }

  /** Lines that match cells one to one still do after one more cell and its line. */
  lemma LinesOfCells(mem: seq<nat>, lines: seq<string>, cells: seq<nat>, i: nat)
    requires i < |mem| && forall k :: 0 <= k < |cells| ==> cells[k] < |mem|
    requires |lines| == |cells| && forall k :: 0 <= k < |cells| ==> lines[k] == DumpLine(cells[k], mem[cells[k]])
    ensures var lines', cells' := lines + [DumpLine(i, mem[i])], cells + [i];
            |lines'| == |cells'| && forall k :: 0 <= k < |cells'| ==> lines'[k] == DumpLine(cells'[k], mem[cells'[k]])
  {
  }
}
