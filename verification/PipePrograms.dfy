/** Criteria for a program to be one the pipeline runs as the ISA does, that speak of its code and of where it
    stores. */
module PipePrograms {
  import opened Bytes
  import opened Y86Words
  import opened Isa
  import opened Pipe
  import opened PipeSpec
  import opened PipeRefines
  import opened PipeRuns

  // ------------------------------------------------------------------------------------------
  // Code that stays in memory

  /** A whole and proper instruction, with a base register where it takes one and no function code for iaddq,
      whose successors are code addresses too. Where a return goes cannot be seen from it. */
  ghost predicate CodeAt(m: Mem, code: set<word>, pc: word) {
    && ByteAt(m, pc) && ByteAt(m, pc + 5)
    && var i := Decode(m, pc);
       && Proper(i) && (i.icode == I_IADDQ ==> i.ifun == 0) && !NoBase(Fetched(i))
       && (InstrValid(i.icode) && i.icode != I_HALT && i.icode != I_RET ==> i.next in code)
       && (i.icode == I_JMP || i.icode == I_CALL ==> i.valc in code)
  }

  /** A set of code addresses closed under control flow. */
  ghost predicate Code(m: Mem, code: set<word>) {
    forall pc {:trigger pc in code} :: pc in code ==> CodeAt(m, code, pc)
  }

  /** The bytes of the instruction at `pc` are in `n` what they are in `m`. */
  ghost predicate Intact(m: Mem, n: Mem, pc: word) {
    && |n| == |m| && ByteAt(m, pc)
    && forall x {:trigger n[x]} :: pc <= x < Decode(m, pc).next && x < |m| ==> n[x] == m[x]
  }

  ghost predicate CodeIntact(m: Mem, n: Mem, code: set<word>) {
    forall pc {:trigger pc in code} :: pc in code ==> Intact(m, n, pc)
  }

  lemma IntactDecodes(m: Mem, n: Mem, pc: word)
    requires Intact(m, n, pc) && Decode(m, pc).okRegs && Decode(m, pc).okImm
    ensures Decode(n, pc) == Decode(m, pc) && FetchAt(n, pc) == FetchAt(m, pc)
  {
    hide LittleEndian, Wrap;
    var i := Decode(m, pc);
    assert n[pc] == m[pc];
    assert NeedRegids(i.icode) ==> n[pc + 1] == m[pc + 1];
    if NeedImm(i.icode) {
      assert n[i.next - 8..i.next] == m[i.next - 8..i.next];
    }
    WrapIsWord(pc + 1);
    WrapIsWord(pc + 2);
    WrapIsWord(pc + 5);
    WrapIsWord(pc + 9);
    WrapIsWord(pc + 10);
  }

  /** The address an rmmovq, pushq or call stores at. */
  function StoreAddress(s: State, d: IfId): word {
    if d.icode == I_RMMOVQ then Wrap(d.valc + GetReg(s.r, d.rb)) else Wrap(GetReg(s.r, REG_RSP) - 8)
  }

  /** A word at `a` lies beside the instruction at `pc`. */
  ghost predicate Beside(m: Mem, pc: word, a: word) {
    ByteAt(m, pc) ==> a + 8 <= pc || Decode(m, pc).next <= a
  }

  /** The next step does not store into the code of `m`, and does not return to an address that is none. */
  ghost predicate KeepsToCode(m: Mem, code: set<word>, s: State) {
    && (Stores(DAt(s).icode) ==>
         forall pc {:trigger pc in code} :: pc in code ==> Beside(m, pc, StoreAddress(s, DAt(s))))
    && (DAt(s).icode == I_RET ==> GetWord(s.m, GetReg(s.r, REG_RSP)) in code)
  }

  lemma CodeSupported(m: Mem, code: set<word>, s: State)
    requires Code(m, code) && CodeIntact(m, s.m, code) && s.pc in code
    ensures Supported(s) && CodeAt(s.m, code, s.pc) && DAt(s) == Fetched(Decode(s.m, s.pc))
    ensures DAt(s) == FetchAt(m, s.pc)
  {
    IntactDecodes(m, s.m, s.pc);
    hide Decode, FetchAt, Proper;
    FetchDecodes(s);
  }

  /** What a step does to memory and where it goes. */
  lemma StepEffect(s: State, code: set<word>)
    requires Supported(s) && CodeAt(s.m, code, s.pc) && StepStat(s) == AOK
    ensures var t := Step(s).0;
      && (if Stores(DAt(s).icode) then SameOutside(s.m, t.m, StoreAddress(s, DAt(s)), StoreAddress(s, DAt(s)) + 8)
          else t.m == s.m)
      && (t.pc in code || (DAt(s).icode == I_RET && t.pc == GetWord(s.m, GetReg(s.r, REG_RSP))))
  {
    FetchDecodes(s);
    ExecuteStores(s, Decode(s.m, s.pc));
    ExecuteGoes(s, Decode(s.m, s.pc), code);
    hide Decode, FetchAt, GetWord, Execute, StoreAddress;
    assert Step(s) == Execute(s, Decode(s.m, s.pc));
  }

  lemma ExecuteStores(s: State, i: Instr)
    requires Proper(i) && Execute(s, i).1 == AOK
    ensures var n, a := Execute(s, i).0.m, StoreAddress(s, Fetched(i));
      if Stores(i.icode) then SameOutside(s.m, n, a, a + 8) else n == s.m
  {
    hide GetWord, SetWord, SetReg, CondHolds, ComputeAlu, ComputeCc, Wrap;
    if Stores(i.icode) {
      var v := if i.icode == I_CALL then i.next else GetReg(s.r, i.ra);
      WrapIsWord(i.valc);
      assert Execute(s, i).0.m == SetWord(s.m, StoreAddress(s, Fetched(i)), v);
      SetWordOutside(s.m, StoreAddress(s, Fetched(i)), v);
    }
  }

  lemma SetWordOutside(m: Mem, p: int, v: word)
    ensures SameOutside(m, SetWord(m, p, v), p, p + 8)
  {
  }

  lemma ExecuteGoes(s: State, i: Instr, code: set<word>)
    requires Execute(s, i).1 == AOK
    requires InstrValid(i.icode) && i.icode != I_HALT && i.icode != I_RET ==> i.next in code
    requires i.icode == I_JMP || i.icode == I_CALL ==> i.valc in code
    ensures var t := Execute(s, i).0;
      t.pc in code || (i.icode == I_RET && t.pc == GetWord(s.m, GetReg(s.r, REG_RSP)))
  {
    hide GetWord, SetWord, SetReg, CondHolds, ComputeAlu, ComputeCc, Wrap;
  }

  lemma BesideIntact(m: Mem, n: Mem, o: Mem, pc: word, a: word)
    requires Intact(m, n, pc) && Beside(m, pc, a) && SameOutside(n, o, a, a + 8)
    ensures Intact(m, o, pc)
  {
    hide Decode;
  }

  lemma StepInCode(m: Mem, code: set<word>, s: State)
    requires Code(m, code) && CodeIntact(m, s.m, code) && s.pc in code && KeepsToCode(m, code, s) && StepStat(s) == AOK
    ensures Step(s).0.pc in code && CodeIntact(m, Step(s).0.m, code)
  {
    CodeSupported(m, code, s);
    StepEffect(s, code);
    hide Step, FetchAt, Decode, StepStat, StoreAddress, Intact, Beside, Stores;
    if Stores(DAt(s).icode) {
      var a := StoreAddress(s, DAt(s));
      forall pc {:trigger pc in code} | pc in code
        ensures Intact(m, Step(s).0.m, pc)
      {
        BesideIntact(m, s.m, Step(s).0.m, pc, a);
      }
    }
  }

  /** Every step that is reached keeps to the code. */
  ghost predicate RunKeepsToCode(s: State, code: set<word>) {
    forall k: nat {:trigger Run(s, k)} :: Reached(s, k) ==> KeepsToCode(s.m, code, Run(s, k))
  }

  lemma {:induction false} RunInCode(s: State, code: set<word>, k: nat)
    requires Code(s.m, code) && s.pc in code && RunKeepsToCode(s, code) && Reached(s, k)
    ensures Run(s, k).pc in code && CodeIntact(s.m, Run(s, k).m, code)
  {
    hide Code, Step, StepStat, KeepsToCode;
    if k == 0 {
      hide Decode;
      assert CodeIntact(s.m, s.m, code) by { AllIntact(s.m, code); }
    } else {
      RunInCode(s, code, k - 1);
      StepInCode(s.m, code, Run(s, k - 1));
    }
  }

  lemma AllIntact(m: Mem, code: set<word>)
    requires Code(m, code)
    ensures CodeIntact(m, m, code)
  {
    hide Decode;
  }

  /** Code that is closed under control flow is a program, whatever its loops, jumps, calls and stores do, if no
      store it makes goes into it, its returns go back to it, and no jump shows the excluded pattern. */
  lemma CodeIsProgram(s: State, code: set<word>)
    requires Code(s.m, code) && s.pc in code && RunKeepsToCode(s, code)
    requires Unflagged(s)
    ensures Program(s)
  {
    hide Reached, Code, Run, FetchStable, Unflagged, RunKeepsToCode, FetchAt, CodeIntact, Nowhere;
    forall k: nat {:trigger StepOk(s, k)} | Reached(s, k)
      ensures StepOk(s, k)
    {
      RunInCode(s, code, k);
      CodeSupported(s.m, code, Run(s, k));
      StableInCode(s, code, k);
    }
    forall k: nat {:trigger BaseOk(s, k)} | Reached(s, k)
      ensures BaseOk(s, k)
    {
      RunInCode(s, code, k);
      CodeSupported(s.m, code, Run(s, k));
    }
  }

  lemma StableInCode(s: State, code: set<word>, k: nat)
    requires Code(s.m, code) && s.pc in code && RunKeepsToCode(s, code) && Reached(s, k)
    ensures FetchStable(s, k)
  {
    hide Code, Reached, Run, FetchAt, Decode, RunKeepsToCode;
    RunInCode(s, code, k);
    var pc := Run(s, k).pc;
    forall j {:trigger Run(s, j)} | 0 <= j <= k <= j + 3
      ensures FetchAt(Run(s, j).m, pc) == DAt(Run(s, k))
    {
      OkUpTo(s, k, j, BUB);
      RunInCode(s, code, j);
      CodeWhole(s.m, code, pc);
      IntactDecodes(s.m, Run(s, j).m, pc);
      IntactDecodes(s.m, Run(s, k).m, pc);
    }
  }

  lemma CodeWhole(m: Mem, code: set<word>, pc: word)
    requires Code(m, code) && pc in code
    ensures ByteAt(m, pc) && Decode(m, pc).okRegs && Decode(m, pc).okImm
  {
    hide Decode;
  }

  // ------------------------------------------------------------------------------------------
  // Code without stores and returns

  /** Something that can be seen from the code alone. */
  ghost predicate ClosedCode(m: Mem, code: set<word>) {
    && Code(m, code)
    && forall pc {:trigger pc in code} :: pc in code ==>
         !Stores(Decode(m, pc).icode) && Decode(m, pc).icode != I_RET
  }

  /** Such code is a program, whatever its loops and jumps do. */
  lemma ClosedCodeIsProgram(s: State, code: set<word>)
    requires ClosedCode(s.m, code) && s.pc in code
    ensures Program(s)
  {
    hide Reached, ClosedCode, Run, Misflagged, Code, KeepsToCode;
    assert Code(s.m, code) by { ClosedIsCode(s.m, code); }
    forall k: nat {:trigger Run(s, k)} | Reached(s, k)
      ensures KeepsToCode(s.m, code, Run(s, k))
    {
      StaysInCode(s, code, k);
      NoStores(s.m, code, Run(s, k));
    }
    forall k: nat {:trigger Misflagged(s, k)} | Reached(s, k)
      ensures !Misflagged(s, k)
    {
      NeverMisflagged(s, code, k);
    }
    CodeIsProgram(s, code);
  }

  lemma ClosedIsCode(m: Mem, code: set<word>)
    requires ClosedCode(m, code)
    ensures Code(m, code) && CodeIntact(m, m, code)
  {
    hide CodeIntact, Decode;
    AllIntact(m, code);
  }

  lemma NoStores(m: Mem, code: set<word>, s: State)
    requires ClosedCode(m, code) && s.pc in code && s.m == m
    ensures KeepsToCode(m, code, s) && DAt(s).icode != I_RMMOVQ
  {
    ClosedIsCode(m, code);
    CodeSupported(m, code, s);
    hide Decode, FetchAt;
  }

  lemma {:induction false} StaysInCode(s: State, code: set<word>, k: nat)
    requires ClosedCode(s.m, code) && s.pc in code && Reached(s, k)
    ensures Run(s, k).pc in code && Run(s, k).m == s.m
  {
    hide ClosedCode, Step, StepStat, CodeIntact, Code;
    if k > 0 {
      StaysInCode(s, code, k - 1);
      ClosedStep(Run(s, k - 1), code);
    }
  }

  lemma ClosedStep(s: State, code: set<word>)
    requires ClosedCode(s.m, code) && s.pc in code && StepStat(s) == AOK
    ensures Step(s).0.pc in code && Step(s).0.m == s.m
  {
    ClosedIsCode(s.m, code);
    CodeSupported(s.m, code, s);
    StepEffect(s, code);
    hide Decode, FetchAt, Step, StepStat, CodeIntact;
  }

  lemma NeverMisflagged(s: State, code: set<word>, k: nat)
    requires ClosedCode(s.m, code) && s.pc in code && Reached(s, k)
    ensures !Misflagged(s, k)
  {
    hide ClosedCode, Reached, Run, FetchAt, KeepsToCode;
    if k >= 2 {
      OkUpTo(s, k, k - 2, BUB);
      StaysInCode(s, code, k - 2);
      NoStores(s.m, code, Run(s, k - 2));
    }
  }
}
