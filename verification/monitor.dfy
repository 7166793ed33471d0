/** The statistics keeper `PerformanceMonitor` of enhanced_gui.py: a count
    per mnemonic and append-only histories of memory accesses and register
    values, all updated in place. */
module Monitor {
  import opened Text
  import opened Isa

  /** One entry of the memory-access history: address, access type and the
      entry's position in the history. */
  datatype Access = Access(address: int, accessType: string, time: nat)

  /** The three register histories, under the names the monitor uses. */
  const RegisterNames: set<string> := {"ACC", "PC", "IR"}

  /** The name an opcode is counted under: its mnemonic for 0..8, otherwise
      `UNK(n)` with n in decimal. */
  function MnemonicKey(opcode: int): (k: string)
    ensures Defined(opcode) ==> OpcodeOf(k) == Some(opcode)
    ensures !Defined(opcode) ==> OpcodeOf(k).None? && |k| > 5 && k[..4] == "UNK(" && k[|k| - 1] == ')'
  {
    if Defined(opcode) then
      NameRoundTrip(opcode);
      Name(opcode)
    else
      var k := "UNK(" + IntToString(opcode) + ")";
      assert k[..4] == "UNK(" && k[0] == 'U';
      k
  }

  /** Distinct opcodes are counted under distinct names: an undefined opcode
      never shares a name with a mnemonic or with another undefined opcode. */
  lemma KeyInjective(a: int, b: int)
    requires MnemonicKey(a) == MnemonicKey(b)
    ensures a == b
  {
    if Defined(a) && Defined(b) {
      NameRoundTrip(a);
      NameRoundTrip(b);
    } else if Defined(a) {
      UnknownIsNoMnemonic(a, b);
    } else if Defined(b) {
      UnknownIsNoMnemonic(b, a);
    } else {
      var ka, kb := IntToString(a), IntToString(b);
      assert ka == MnemonicKey(a)[4..|MnemonicKey(a)| - 1];
      assert kb == MnemonicKey(b)[4..|MnemonicKey(b)| - 1];
      IntToStringInjective(a, b);
    }
  }

  /** No mnemonic starts with `U`, so none equals an `UNK(n)` key. */
  lemma UnknownIsNoMnemonic(a: int, b: int)
    requires Defined(a) && !Defined(b)
    ensures MnemonicKey(a) != MnemonicKey(b)
  {
    assert MnemonicKey(b)[0] == 'U';
    assert Name(a)[0] != 'U' by {
      assert Name(a) == ["HALT", "LOAD", "STORE", "ADD", "SUB", "CMP", "JMP", "JZ", "JNZ"][a];
    }
  }

  /** The counts after one more instruction counted under `key`: that count
      goes up by one (from an absent count to 1), every other stays. */
  function Bump(counts: map<string, nat>, key: string): (r: map<string, nat>)
    ensures r.Keys == counts.Keys + {key}
    ensures r[key] == (if key in counts then counts[key] else 0) + 1
    ensures forall k :: k in counts && k != key ==> r[k] == counts[k]
  {
    counts[key := if key in counts then counts[key] + 1 else 1]
  }

  /** The counts a fresh monitor holds after recording `ops` in order. */
  function Tally(ops: seq<int>): map<string, nat>
  {
    if ops == [] then map[] else Bump(Tally(ops[..|ops| - 1]), MnemonicKey(ops[|ops| - 1]))
  }

  /** How many of `ops` are counted under `key`. */
  function Occurrences(ops: seq<int>, key: string): nat
  {
    if ops == [] then 0
    else Occurrences(ops[..|ops| - 1], key) + (if MnemonicKey(ops[|ops| - 1]) == key then 1 else 0)
  }

  /** A fresh monitor's counts hold exactly the names of the opcodes it
      recorded, each with the number of times it was recorded. */
  lemma {:induction false} TallyCounts(ops: seq<int>, key: string)
    ensures key in Tally(ops) <==> Occurrences(ops, key) > 0
    ensures key in Tally(ops) ==> Tally(ops)[key] == Occurrences(ops, key)
  {
    if ops != [] {
      TallyCounts(ops[..|ops| - 1], key);
    }
  }

  /** The count under an opcode's name is the number of times that opcode
      was recorded: no other opcode adds to it. */
  lemma {:induction false} OccurrencesOfOpcode(ops: seq<int>, op: int)
    ensures Occurrences(ops, MnemonicKey(op)) == multiset(ops)[op]
  {
    if ops != [] {
      var n := |ops| - 1;
      assert multiset(ops)[op] == multiset(ops[..n])[op] + (if ops[n] == op then 1 else 0) by {
        assert ops == ops[..n] + [ops[n]];
        assert multiset(ops) == multiset(ops[..n]) + multiset{ops[n]};
      }
      var key := MnemonicKey(op);
      OccurrencesOfOpcode(ops[..n], op);
      assert Occurrences(ops, key) == Occurrences(ops[..n], key) + (if MnemonicKey(ops[n]) == key then 1 else 0);
      if MnemonicKey(ops[n]) == key {
        KeyInjective(ops[n], op);
      }
    }
  }

  class PerformanceMonitor {
    var instructionCounts: map<string, nat>
    var memoryAccessHistory: seq<Access>
    var executionTimeHistory: seq<int>
    var registerValueHistory: map<string, seq<int>>

    /** The three register histories exist and have the same length; every
        access entry's time is its position in the history. */
    ghost predicate Valid()
      reads this
    {
      && registerValueHistory.Keys == RegisterNames
      && |registerValueHistory["ACC"]| == |registerValueHistory["PC"]| == |registerValueHistory["IR"]|
      && forall i :: 0 <= i < |memoryAccessHistory| ==> memoryAccessHistory[i].time == i
    }

    /** Empty counts and histories. */
    constructor ()
      ensures Valid()
      ensures instructionCounts == map[] && memoryAccessHistory == [] && executionTimeHistory == []
      ensures registerValueHistory == map["ACC" := [], "PC" := [], "IR" := []]
    {
      instructionCounts := map[];
      memoryAccessHistory := [];
      executionTimeHistory := [];
      registerValueHistory := map["ACC" := [], "PC" := [], "IR" := []];
    }

    /** `record_instruction`: one more under the opcode's name, every other
        count unchanged; the histories untouched. */
    method RecordInstruction(opcode: int)
      requires Valid()
      modifies this
      ensures Valid()
      ensures instructionCounts == Bump(old(instructionCounts), MnemonicKey(opcode))
      ensures memoryAccessHistory == old(memoryAccessHistory) && executionTimeHistory == old(executionTimeHistory)
      ensures registerValueHistory == old(registerValueHistory)
    {
      var mnemonic := if 0 <= opcode <= 8 then
        ["HALT", "LOAD", "STORE", "ADD", "SUB", "CMP", "JMP", "JZ", "JNZ"][opcode]
      else
        "UNK(" + IntToString(opcode) + ")";
      if mnemonic in instructionCounts {
        instructionCounts := instructionCounts[mnemonic := instructionCounts[mnemonic] + 1];
      } else {
        instructionCounts := instructionCounts[mnemonic := 1];
      }
    }

    /** `record_memory_access`: one entry appended, stamped with the length
        the history had before. */
    method RecordMemoryAccess(address: int, accessType: string)
      requires Valid()
      modifies this
      ensures Valid()
      ensures memoryAccessHistory == old(memoryAccessHistory) + [Access(address, accessType, |old(memoryAccessHistory)|)]
      ensures instructionCounts == old(instructionCounts) && executionTimeHistory == old(executionTimeHistory)
      ensures registerValueHistory == old(registerValueHistory)
    {
      memoryAccessHistory := memoryAccessHistory + [Access(address, accessType, |memoryAccessHistory|)];
    }

    /** `record_register_values`: one value appended to each register history. */
    method RecordRegisterValues(acc: int, pc: int, ir: int)
      requires Valid()
      modifies this
      ensures Valid()
      ensures registerValueHistory == map["ACC" := old(registerValueHistory["ACC"]) + [acc],
                                          "PC" := old(registerValueHistory["PC"]) + [pc],
                                          "IR" := old(registerValueHistory["IR"]) + [ir]]
      ensures instructionCounts == old(instructionCounts) && memoryAccessHistory == old(memoryAccessHistory)
      ensures executionTimeHistory == old(executionTimeHistory)
    {
      registerValueHistory := registerValueHistory["ACC" := registerValueHistory["ACC"] + [acc]];
      registerValueHistory := registerValueHistory["PC" := registerValueHistory["PC"] + [pc]];
      registerValueHistory := registerValueHistory["IR" := registerValueHistory["IR"] + [ir]];
    }

    /** `reset`: counts and histories cleared, each register history by a
        loop over the register names. */
    method Reset()
      requires Valid()
      modifies this
      ensures Valid()
      ensures instructionCounts == map[] && memoryAccessHistory == [] && executionTimeHistory == []
      ensures registerValueHistory == map["ACC" := [], "PC" := [], "IR" := []]
    {
      instructionCounts := map[];
      memoryAccessHistory := [];
      executionTimeHistory := [];
      var pending := registerValueHistory.Keys;
      while pending != {}
        invariant pending <= registerValueHistory.Keys == RegisterNames
        invariant instructionCounts == map[] && memoryAccessHistory == [] && executionTimeHistory == []
        invariant forall k :: k in RegisterNames && k !in pending ==> registerValueHistory[k] == []
        decreases pending
      {
        var k :| k in pending;
        registerValueHistory := registerValueHistory[k := []];
        pending := pending - {k};
      }
      assert registerValueHistory == map["ACC" := [], "PC" := [], "IR" := []];
    }
  }
}
