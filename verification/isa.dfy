/** The instruction word shared by the processor, the assembler and the
    performance monitor: opcode in bits 15..12, operand field in bits 11..0,
    and the nine-entry opcode table. */
module Isa {
  import opened Text

  /** Number of memory cells. */
  const MemorySize: nat := 4096

  const OpHalt: nat := 0
  const OpLoad: nat := 1
  const OpStore: nat := 2
  const OpAdd: nat := 3
  const OpSub: nat := 4
  const OpCmp: nat := 5
  const OpJmp: nat := 6
  const OpJz: nat := 7
  const OpJnz: nat := 8

  /** Opcodes that have a mnemonic. */
  predicate Defined(op: int)
  {
    0 <= op <= 8
  }

  /** Bits 15..12 of a word: `(w >> 12) & 0xF`. */
  function Opcode(w: nat): (op: nat)
    ensures op < 16
  {
    (w / 4096) % 16
  }

  /** Bits 11..0 of a word: `w & 0xFFF`. */
  function Field(w: nat): (f: nat)
    ensures f < 4096
  {
    w % 4096
  }

  /** Every word below 2^16 is its opcode and its field put back together. */
  lemma WordSplits(w: nat)
    requires w < 65536
    ensures w == Opcode(w) * 4096 + Field(w)
  {
  }

  /** The mnemonic of a defined opcode. */
  function Name(op: nat): (m: string)
    requires Defined(op)
    ensures |m| > 0 && NoSpace(m)
  {
    ["HALT", "LOAD", "STORE", "ADD", "SUB", "CMP", "JMP", "JZ", "JNZ"][op]
  }

  /** The opcode table read the other way: the opcode of a mnemonic, if any. */
  function OpcodeOf(m: string): (r: Option<nat>)
    ensures r.Some? ==> Defined(r.value) && Name(r.value) == m
  {
    if m == "HALT" then Some(OpHalt)
    else if m == "LOAD" then Some(OpLoad)
    else if m == "STORE" then Some(OpStore)
    else if m == "ADD" then Some(OpAdd)
    else if m == "SUB" then Some(OpSub)
    else if m == "CMP" then Some(OpCmp)
    else if m == "JMP" then Some(OpJmp)
    else if m == "JZ" then Some(OpJz)
    else if m == "JNZ" then Some(OpJnz)
    else None
  }

  /** A text the table does not map is no opcode's mnemonic. */
  lemma NoOpcode(m: string, op: nat)
    requires OpcodeOf(m).None? && Defined(op)
    ensures Name(op) != m
  {
    assert Name(op) == ["HALT", "LOAD", "STORE", "ADD", "SUB", "CMP", "JMP", "JZ", "JNZ"][op];
  }

  /** The table is one-to-one: reading a mnemonic back gives its opcode. */
  lemma {:induction false} NameRoundTrip(op: nat)
    requires Defined(op)
    ensures OpcodeOf(Name(op)) == Some(op)
  {
    assert Name(op) == ["HALT", "LOAD", "STORE", "ADD", "SUB", "CMP", "JMP", "JZ", "JNZ"][op];
  }
}
