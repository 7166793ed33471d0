/** The processor of processor.py as an object whose registers, flags and
    4096-cell memory are updated in place.  Every method is proved to leave
    the state that the corresponding function of module Machine computes from
    the old state, so the lemmas proved there hold of this class. */
module Emulator {
  import opened Text
  import opened Isa
  import opened Machine

  class Processor {
    var acc: nat
    var pc: nat
    var ir: nat
    var flags: Flags
    const memory: array<nat>
    var halted: bool
    var stepCount: nat

    ghost predicate Valid()
      reads this
    {
      memory.Length == MemorySize
    }

    /** The processor's state as a value. */
    ghost function State(): (s: Cpu)
      reads this, memory
      ensures Valid() ==> WellFormed(s)
    {
      Cpu(acc, pc, ir, flags, halted, stepCount, memory[..])
    }

    /** Registers, flags and every memory cell zero; not halted. */
    constructor ()
      ensures Valid() && fresh(memory)
      ensures State() == Initial()
    {
      acc, pc, ir := 0, 0, 0;
      flags := Cleared;
      memory := new nat[MemorySize](_ => 0);
      halted, stepCount := false, 0;
      new;
      assert memory[..] == Initial().mem;
    }

    method Reset()
      requires Valid()
      modifies this
      ensures Valid()
      ensures State() == Machine.Reset(old(State()))
    {
      acc, pc, ir := 0, 0, 0;
      flags := Cleared;
      halted, stepCount := false, 0;
    }

    /** The loop of both loaders: word i goes to cell start + i when that cell exists. */
    method WriteWords(words: seq<nat>, start: nat)
      requires Valid()
      modifies memory
      ensures memory[..] == Poke(old(memory[..]), words, start)
    {
      for i := 0 to |words|
        invariant forall j :: 0 <= j < memory.Length ==>
                    memory[j] == if start <= j < start + i then words[j - start] else old(memory[j])
      {
        if start + i < memory.Length {
          memory[start + i] := words[i];
        }
      }
    }

    method LoadProgram(program: seq<nat>, start: nat)
      requires Valid()
      modifies this, memory
      ensures Valid()
      ensures State() == Machine.LoadProgram(old(State()), program, start)
    {
      WriteWords(program, start);
      pc := start;
    }

    method LoadData(data: seq<nat>, start: nat)
      requires Valid()
      modifies memory
      ensures Valid()
      ensures State() == Machine.LoadData(old(State()), data, start)
    {
      WriteWords(data, start);
    }

    /** The integer branch of `get_operand_value`. */
    method GetOperandValue(operand: nat, mode: Mode) returns (value: nat)
      requires Valid()
      ensures value == ValueAt(memory[..], operand, mode)
    {
      match mode
      case Immediate =>
        value := operand;
      case Direct =>
        value := if operand < memory.Length then memory[operand] else 0;
      case Indirect =>
        var addr := if operand < memory.Length then memory[operand] else 0;
        value := if addr < memory.Length then memory[addr] else 0;
    }

    /** The range test LOAD, ADD, SUB and CMP each make on their field. */
    method ReadOperand(operand: nat) returns (value: nat)
      requires Valid() && operand < MemorySize
      ensures value == OperandValue(memory[..], operand)
    {
      if operand < 256 {
        value := GetOperandValue(operand, Direct);
      } else if operand < 512 {
        value := GetOperandValue(operand - 256, Indirect);
      } else {
        value := GetOperandValue(operand - 512, Immediate);
      }
    }

    method UpdateFlags(result: int)
      modifies this
      ensures State() == old(State()).(flags := FlagsFor(result))
    {
      flags := Flags(result == 0, result % 0x10000 >= 0x8000,
                     result > 0xFFFF || result < -0x10000,
                     result > 0x7FFF || result < -0x8000);
    }

    method ExecuteInstruction(opcode: int, operand: nat)
      requires Valid() && operand < MemorySize
      modifies this, memory
      ensures Valid()
      ensures State() == Execute(old(State()), opcode, operand)
    {
      if opcode == OpLoad {
        var value := ReadOperand(operand);
        acc := value % 0x10000;
        UpdateFlags(acc);
      } else if opcode == OpStore {
        memory[operand] := acc % 0x10000;
      } else if opcode == OpAdd {
        var value := ReadOperand(operand);
        acc := (acc + value) % 0x10000;
        UpdateFlags(acc);
      } else if opcode == OpSub {
        var value := ReadOperand(operand);
        acc := (acc - value) % 0x10000;
        UpdateFlags(acc);
      } else if opcode == OpCmp {
        var value := ReadOperand(operand);
        UpdateFlags(acc - value);
      } else if opcode == OpJmp {
        pc := operand;
      } else if opcode == OpJz {
        if flags.zf {
          pc := operand;
        } else {
          pc := pc + 1;
        }
      } else if opcode == OpJnz {
        if !flags.zf {
          pc := operand;
        } else {
          pc := pc + 1;
        }
      } else if opcode == OpHalt {
        halted := true;
      }
    }

    method Step() returns (ok: bool)
      requires Valid()
      modifies this, memory
      ensures Valid()
      ensures ok == Stepped(old(State()))
      ensures State() == Machine.Step(old(State()))
    {
      if halted {
        return false;
      }
      if pc >= memory.Length {
        halted := true;
        return false;
      }
      ir := memory[pc];
      var opcode := (ir / 4096) % 16;
      var operand := ir % 4096;
      ExecuteInstruction(opcode, operand);
      if opcode != OpJmp && opcode != OpJz && opcode != OpJnz && opcode != OpHalt {
        pc := pc + 1;
      }
      stepCount := stepCount + 1;
      return true;
    }

    /** Returns `true` when the budget ran out before the processor halted. */
    method Run(maxSteps: int) returns (notHalted: bool)
      requires Valid()
      modifies this, memory
      ensures Valid()
      ensures State() == Machine.Run(old(State()), maxSteps)
      ensures notHalted == !halted
    {
      ghost var target := Machine.Run(State(), maxSteps);
      var steps := 0;
      while !halted && steps < maxSteps
        invariant Valid() && 0 <= steps
        invariant Machine.Run(State(), maxSteps - steps) == target
        decreases maxSteps - steps
      {
        ghost var before := State();
        var ok := Step();
        if !ok {
          assert Machine.Run(before, maxSteps - steps) == State();
          break;
        }
        steps := steps + 1;
      }
      return !halted;
    }

    /** `get_memory_dump(start, count)`: a line for each non-zero cell from
        `start` up to `start + count` or the end of memory. */
    method MemoryDump(start: nat, count: nat) returns (lines: seq<string>)
      requires Valid()
      ensures lines == Dump(memory[..], start, if start + count < MemorySize then start + count else MemorySize)
    {
      var hi := if start + count < memory.Length then start + count else memory.Length;
      lines := [];
      if start >= hi {
        return;
      }
      var i := start;
      while i < hi
        invariant start <= i <= hi
        invariant lines == Dump(memory[..], start, i)
      {
        if memory[i] != 0 {
          lines := lines + [DumpLine(i, memory[i])];
        }
        i := i + 1;
      }
    }
  }
}
