/** What the core does with encodings the simulator stops at: it passes them by. */
module CoreReserved {
  import opened Bytes
  import opened ByteMemory
  import Words
  import WordValues
  import opened Core

  predicate Decoded(op: nat) {
    || op == 0x37 || op == 0x17 || op == 0x6F || op == 0x67 || op == 0x63 || op == 0x03
    || op == 0x23 || op == 0x13 || op == 0x33 || op == 0x1B || op == 0x3B
  }

  /** Only the program counter moves, to the next word. */
  predicate PassedBy(s: State)
    requires s.Shape()
  {
    CoreNext(s).pc == (s.pc + 4) % TWO64 && CoreNext(s).regs == s.regs && CoreNext(s).mem == s.mem
  }

  lemma NextWord(pc: nat)
    requires pc < TWO64
    ensures Words.Cut64(pc + 4) == (pc + 4) % TWO64
  {
    WordValues.CutIs(pc + 4);
  }

  /** SYSTEM, FENCE and every other opcode the decoder does not name. */
  lemma OthersPass(s: State)
    requires s.Shape() && !Decoded(Fetch(s) % 0x80)
    ensures PassedBy(s)
  {
    NextWord(s.pc);
  }

  /** A branch on no condition is not taken, a store of no size stores nothing. */
  lemma NoConditionPasses(s: State)
    requires s.Shape()
    requires var op, f3 := Fetch(s) % 0x80, (Fetch(s) / 0x1000) % 8;
             (op == 0x63 && (f3 == 2 || f3 == 3)) || (op == 0x23 && f3 > 3)
    ensures PassedBy(s)
  {
    NextWord(s.pc);
  }
}
