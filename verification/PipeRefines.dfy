/** The pipeline refines the ISA: after every cycle the instructions in flight are consecutive
    instructions of the ISA run, and each cycle either stutters or completes one of them. */
module PipeRefines {
  import opened Y86Words
  import opened Isa
  import opened Pipe
  import opened PipeSpec
  import opened PipeHazards

  // ------------------------------------------------------------------------------------------
  // The ISA run

  /** Step `k` of the run from `s` returns AOK. */
  ghost predicate OkAt(s: State, k: nat) { StepStat(Run(s, k)) == AOK }

  /** The first `k` steps all return AOK. */
  ghost predicate Reached(s: State, k: nat) {
    k == 0 || (Reached(s, k - 1) && OkAt(s, k - 1))
  }

  /** What is fetched for step `k` does not depend on the last three instructions' stores. */
  ghost predicate FetchStable(s: State, k: nat) {
    forall j {:trigger Run(s, j)} :: 0 <= j <= k <= j + 3 ==> FetchAt(Run(s, j).m, Run(s, k).pc) == DAt(Run(s, k))
  }

  ghost predicate NotTakenJump(s: State) { DAt(s).icode == I_JMP && !CondHolds(s.cc, DAt(s).ifun) }

  ghost predicate StoresPositive(s: State) {
    DAt(s).icode == I_RMMOVQ && GetReg(s.r, DAt(s).ra) > 0
  }

  /** The flag decode records for a jump at step `k`: it follows a store of a positive value two instructions
      ahead at once. */
  ghost predicate Flagged(s: State, k: nat)
    decreases k, 1
  {
    k >= 2 && StoresPositive(Run(s, k - 2)) && !Apart(s, k)
  }

  /** A jump at step `k` is found wrong when it is executed: whether it is taken and its flag do not fit. */
  ghost predicate FoundWrong(s: State, k: nat)
    decreases k, 2
  {
    DAt(Run(s, k)).icode == I_JMP && !(NotTakenJump(Run(s, k)) <==> Flagged(s, k))
  }

  /** The instruction in `d` needs what the one before it, in `ahead`, loads. */
  predicate LoadsFor(ahead: IfId, d: IfId) {
    (ahead.icode == I_MRMOVQ || ahead.icode == I_POPQ) && (DstM(ahead) == SrcA(d) || DstM(ahead) == SrcB(d))
  }

  /** The instruction of step `k` does not follow the one before it at once: that is a return, a jump that is
      found wrong, or a load whose result it needs. */
  ghost predicate Apart(s: State, k: nat)
    decreases k, 0
  {
    || k == 0
    || DAt(Run(s, k - 1)).icode == I_RET
    || FoundWrong(s, k - 1)
    || LoadsFor(DAt(Run(s, k - 1)), DAt(Run(s, k)))
  }

  /** The pattern on which fetch and decode disagree about the prediction: a jump that is not taken and that is
      flagged, with no ALU instruction ahead of it. */
  ghost predicate Misflagged(s: State, k: nat) {
    && NotTakenJump(Run(s, k)) && DAt(Run(s, k)).valc != DAt(Run(s, k)).valp
    && Flagged(s, k) && DAt(Run(s, k - 1)).icode != I_ALU
  }

  ghost predicate StepOk(s: State, k: nat) { Supported(Run(s, k)) && FetchStable(s, k) }

  /** Every instruction the ISA gets to is one the pipeline is meant for, and is not changed just before. */
  ghost predicate Fit(s: State) {
    forall k: nat {:trigger StepOk(s, k)} :: Reached(s, k) ==> StepOk(s, k)
  }

  /** No jump the ISA gets to shows the pattern. */
  ghost predicate Unflagged(s: State) {
    forall k: nat {:trigger Misflagged(s, k)} :: Reached(s, k) ==> !Misflagged(s, k)
  }

  /** The address of a memory operand. */
  ghost function Address(s: State): word { Wrap(DAt(s).valc + GetReg(s.r, DAt(s).rb)) }

  /** What is forwarded to an operand without base register at step `k`: the newest result in the pipeline that
      goes to no register. It is that of the instruction directly ahead, or the address of a load behind which
      only instructions with a destination stand. */
  ghost function Nowhere(s: State, k: nat): word {
    if Apart(s, k) then 0
    else
      var u, d := Run(s, k - 1), DAt(Run(s, k - 1));
      if UsesBase(d) then Address(u)
      else if d.icode == I_JMP then if Flagged(s, k - 1) then 1 else 0
      else if d.icode == I_RRMOVQ && !CondHolds(u.cc, d.ifun) then GetReg(u.r, d.ra)
      else if d.icode == I_NOP then 0
      else NowhereBefore(s, k - 1)
  }

  /** The same for one that is two instructions behind. */
  ghost function NowhereBefore(s: State, k: nat): word {
    if Apart(s, k) then 0
    else
      var u, d := Run(s, k - 1), DAt(Run(s, k - 1));
      if d.icode == I_MRMOVQ then Address(u)
      else if d.icode == I_POPQ then LoadedAt(s, k - 1)
      else 0
  }

  ghost function LoadedAt(s: State, k: nat): word {
    if !Apart(s, k) && DAt(Run(s, k - 1)).icode == I_MRMOVQ then Address(Run(s, k - 1)) else 0
  }

  predicate NoBase(d: IfId) { UsesBase(d) && !RegValid(d.rb) }

  ghost predicate BaseOk(s: State, k: nat) { NoBase(DAt(Run(s, k))) ==> Nowhere(s, k) == 0 }

  /** No operand without base register gets anything but 0 for it. */
  ghost predicate Based(s: State) {
    forall k: nat {:trigger BaseOk(s, k)} :: Reached(s, k) ==> BaseOk(s, k)
  }

  /** The programs covered. */
  ghost predicate Program(s: State) { Fit(s) && Unflagged(s) && Based(s) }

  // ------------------------------------------------------------------------------------------
  // The simulation relation

  ghost function Next(k: nat, st: Stat): nat { if st == BUB then k else k + 1 }

  /** A bubble does nothing, whatever its value fields hold. */
  predicate BubbleW(w: MemWb) {
    w.status == BUB && w.icode == I_NOP && w.deste == REG_NONE && w.destm == REG_NONE && w.valm == 0
  }

  predicate BubbleM(m: ExMem) { m.status == BUB && m.icode == I_NOP && m.deste == REG_NONE && m.destm == REG_NONE }

  predicate BubbleE(e: IdEx) { e.status == BUB && e.icode == I_NOP && e.deste == REG_NONE && e.destm == REG_NONE }

  predicate BubbleD(d: IfId) { d.status == BUB && d.icode == I_NOP }

  ghost predicate WSlot(w: MemWb, s: State) { if w.status == BUB then BubbleW(w) else WOk(w, s) }

  ghost predicate MSlot(m: ExMem, s: State) { if m.status == BUB then BubbleM(m) else MOk(m, s) }

  ghost predicate ESlot(e: IdEx, s: State) { if e.status == BUB then BubbleE(e) else EOk(e, s) }

  ghost predicate DSlot(d: IfId, s: State) { if d.status == BUB then BubbleD(d) else d == DAt(s) }

  /** A jump in the memory stage whose prediction was wrong. */
  predicate WrongJump(m: ExMem) {
    m.icode == I_JMP && ((!m.takebranch && m.vale == 0) || (m.takebranch && m.vale == 1))
  }

  /** Once the older instructions are known to complete, the younger ones follow the ISA run, at once or with
      bubbles between as Apart says. */
  ghost predicate Sim(p: Cpu, s: State, n: nat) {
    && Reached(s, n) && p.r == Run(s, n).r && WSlot(p.w, Run(s, n)) && (p.w.status == BUB ==> Apart(s, n))
    && var nM := Next(n, p.w.status);
       && p.mem == Run(s, nM).m
       && (if Exceptional(p.w.status) then p.cc == Run(s, nM).cc else SimM(p, s, nM))
  }

  ghost predicate SimM(p: Cpu, s: State, nM: nat) {
    && MSlot(p.m, Run(s, nM)) && (p.m.status == BUB ==> Apart(s, nM))
    && (p.w.status != BUB && p.m.status != BUB ==> !Apart(s, nM))
    && (p.w.icode == I_RET ==> BubbleM(p.m) && BubbleE(p.e) && BubbleD(p.d))
    && var nE := Next(nM, p.m.status);
       p.cc == Run(s, nE).cc && (p.m.status == BUB || OkAt(s, nM) ==> SimE(p, s, nE))
  }

  ghost predicate SimE(p: Cpu, s: State, nE: nat) {
    && ESlot(p.e, Run(s, nE)) && (p.e.status == BUB ==> Apart(s, nE))
    && (p.m.status != BUB && p.e.status != BUB ==> !Apart(s, nE))
    && (p.e.icode == I_JMP ==> (p.e.valb == 1 <==> Flagged(s, nE)))
    && (p.m.icode == I_RET || WrongJump(p.m) ==> BubbleE(p.e) && BubbleD(p.d))
    && ((p.e.status == BUB || OkAt(s, nE)) && !Mispredicted(p.e, Take(p)) ==> SimD(p, s, Next(nE, p.e.status)))
  }

  ghost predicate SimD(p: Cpu, s: State, nD: nat) {
    && DSlot(p.d, Run(s, nD)) && (p.d.status == BUB ==> Apart(s, nD))
    && (p.e.icode == I_RET ==> BubbleD(p.d))
    && (p.d.status == BUB || OkAt(s, nD) ==> SimF(p, s, nD, Next(nD, p.d.status)))
  }

  /** The next fetch address, when it is already known. */
  ghost predicate SimF(p: Cpu, s: State, nD: nat, nF: nat) {
    if p.d.icode == I_JMP then
      ((Flag(p.m) == 0) == CondHolds(Run(s, nD).cc, p.d.ifun)) ==> p.pc == Run(s, nF).pc
    else
      RetInPipe(p.d, p.e, p.m) || p.w.icode == I_RET || WrongJump(p.m) || p.pc == Run(s, nF).pc
  }

  // ------------------------------------------------------------------------------------------
  // One slot: what its instruction does to the ISA state, bubbles doing nothing

  ghost function After(s: State, st: Stat): State { if st == BUB then s else Step(s).0 }

  lemma RunNext(s: State, k: nat, st: Stat)
    ensures Run(s, Next(k, st)) == After(Run(s, k), st)
  {
  }

  lemma WFacts(w: MemWb, s: State)
    requires Supported(s) && WSlot(w, s)
    ensures w.status != BUB ==> w.status == StepStat(s) && w.icode == DAt(s).icode
    ensures w.status == AOK || w.status == BUB ==> After(s, w.status).r == WriteBack(s.r, w)
    ensures w.status == AOK && w.icode == I_RET ==> Step(s).0.pc == w.valm
    ensures w.status == BUB || w.status == AOK || Exceptional(w.status)
    ensures w.status == BUB ==> w.icode == I_NOP
  {
    if w.status != BUB {
      var m :| MOk(m, s) && w == MemoryStage(m, s.m);
      var e :| EOk(e, s) && m == ExecuteStage(e, s.cc);
      StepAgrees(e, s);
      StatusOf(s);
    }
  }

  lemma StatusOf(s: State)
    ensures StepStat(s) == AOK || Exceptional(StepStat(s))
  {
  }

  /** The memory slot: what leaves it is a write-back slot, and its store is the one the ISA makes. */
  lemma MFacts(m: ExMem, s: State)
    requires Supported(s) && MSlot(m, s)
    ensures var w := MemoryStage(m, s.m);
      && WSlot(w, s) && (w.status == BUB <==> m.status == BUB)
      && (m.status != BUB ==> w.status == StepStat(s) && m.icode == DAt(s).icode)
      && After(s, m.status).m == (if MemWrite(m) then SetWord(s.m, MemAddr(m), m.vala) else s.m)
      && (w.status == AOK || w.status == BUB ==>
            After(s, m.status).r == Pending(s.r, m.deste, m.vale, m.destm, w.valm))
      && (WrongJump(m) ==> w.status == AOK && Step(s).0.pc == m.vala)
  {
    if m.status != BUB {
      var e :| EOk(e, s) && m == ExecuteStage(e, s.cc);
      StepAgrees(e, s);
      StatusOf(s);
      assert WOk(MemoryStage(m, s.m), s);
      if WrongJump(m) {
        JumpFacts(e, s);
      }
    }
  }

  lemma JumpFacts(e: IdEx, s: State)
    requires Supported(s) && EOk(e, s) && e.icode == I_JMP
    ensures StepStat(s) == AOK && Step(s).0.pc == NextPc(DAt(s), s.cc, 0)
    ensures ExecuteStage(e, s.cc).vale == e.valb
    ensures WrongJump(ExecuteStage(e, s.cc)) ==> ExecuteStage(e, s.cc).vala == Step(s).0.pc
    ensures WrongJump(ExecuteStage(e, s.cc)) <==> Mispredicted(e, CondHolds(s.cc, e.ifun))
  {
    StepAgrees(e, s);
    WrapIsWord(e.valb);
    if !ByteAt(s.m, s.pc) {
      FetchFails(s);
    } else {
      FetchDecodes(s);
    }
  }

  /** The execute slot. */
  lemma EFacts(e: IdEx, s: State)
    requires Supported(s) && ESlot(e, s)
    ensures var m := ExecuteStage(e, s.cc);
      && MSlot(m, s) && m.status == e.status && m.icode == e.icode
      && (e.status != BUB ==> e.icode == DAt(s).icode && e.status == DAt(s).status)
      && (e.status == BUB ==> e.icode == I_NOP)
      && After(s, e.status).cc ==
           (if e.icode == I_ALU || e.icode == I_IADDQ then ComputeCc(AluFun(e), AluA(e), AluB(e)) else s.cc)
  {
    if e.status != BUB {
      StepAgrees(e, s);
      assert MOk(ExecuteStage(e, s.cc), s);
    }
  }

  /** A source no load in execute is about to change has its forwarded value after that instruction. */
  lemma ERegs(e: IdEx, s: State, src: int)
    requires Supported(s) && ESlot(e, s) && RegValid(src)
    requires e.status == BUB || StepStat(s) == AOK
    requires (e.icode == I_MRMOVQ || e.icode == I_POPQ) ==> e.destm != src
    ensures var m := ExecuteStage(e, s.cc);
      GetReg(After(s, e.status).r, src) == GetReg(SetReg(s.r, m.deste, m.vale), src)
  {
    if e.status != BUB {
      StepAgrees(e, s);
    }
  }

  /** A real load names a real register. */
  lemma LoadFacts(e: IdEx, s: State)
    requires Supported(s) && ESlot(e, s) && (e.icode == I_MRMOVQ || e.icode == I_POPQ)
    ensures e.status == AOK && RegValid(e.destm)
  {
    if !ByteAt(s.m, s.pc) {
      FetchFails(s);
    } else {
      FetchDecodes(s);
    }
  }

  // ------------------------------------------------------------------------------------------
  // One cycle

  /** The ISA steps of the instructions in memory, execute and decode, and of the next one fetched. */
  ghost function AtM(p: Cpu, n: nat): nat { Next(n, p.w.status) }

  ghost function AtE(p: Cpu, n: nat): nat { Next(AtM(p, n), p.m.status) }

  ghost function AtD(p: Cpu, n: nat): nat { Next(AtE(p, n), p.e.status) }

  ghost function AtF(p: Cpu, n: nat): nat { Next(AtD(p, n), p.d.status) }

  lemma ReachedOk(s: State, k: nat)
    requires Fit(s) && Reached(s, k)
    ensures Supported(Run(s, k)) && FetchStable(s, k)
  {
    assert StepOk(s, k);
  }

  lemma StepRegisters(p: Cpu, s: State, n: nat)
    requires Fit(s) && Sim(p, s, n) && !Exceptional(p.w.status)
    ensures Reached(s, AtM(p, n)) && Cycle(p).r == Run(s, AtM(p, n)).r
    ensures p.w.icode == I_RET ==> Run(s, AtM(p, n)).pc == p.w.valm
    ensures SimM(p, s, AtM(p, n)) && p.mem == Run(s, AtM(p, n)).m
  {
    hide Run, Fit, Supported, FetchStable, Misflagged, WSlot, SimM, WriteBack, StepStat, Step;
    ReachedOk(s, n);
    WFacts(p.w, Run(s, n));
    RunNext(s, n, p.w.status);
    assert Reached(s, AtM(p, n));
    assert Cycle(p).r == Run(s, AtM(p, n)).r;
    assert SimM(p, s, AtM(p, n));
  }

  lemma StepMemory(p: Cpu, s: State, n: nat)
    requires Fit(s) && Sim(p, s, n) && !Exceptional(p.w.status)
    ensures var q := Cycle(p);
      && q.w == MNext(p) && WSlot(q.w, Run(s, AtM(p, n))) && (q.w.status == BUB <==> p.m.status == BUB)
      && q.mem == Run(s, AtE(p, n)).m
      && (q.w.status == BUB ==> Apart(s, AtM(p, n)))
      && (Exceptional(q.w.status) ==> q.cc == Run(s, AtE(p, n)).cc)
    ensures !Exceptional(MNext(p).status) ==>
      && Reached(s, AtE(p, n)) && SimE(p, s, AtE(p, n)) && p.cc == Run(s, AtE(p, n)).cc
      && Run(s, AtE(p, n)).r == Pending(WriteBack(p.r, p.w), p.m.deste, p.m.vale, p.m.destm, MNext(p).valm)
      && (WrongJump(p.m) ==> Run(s, AtE(p, n)).pc == p.m.vala)
  {
    hide Run, Fit, Supported, FetchStable, Misflagged, WSlot, MSlot, SimE, WriteBack, Pending, Step, MemoryStage,
      WrongJump, SetWord;
    StepRegisters(p, s, n);
    var k := AtM(p, n);
    ReachedOk(s, k);
    MFacts(p.m, Run(s, k));
    RunNext(s, k, p.m.status);
    StatusOf(Run(s, k));
    assert Cycle(p).w == MNext(p) == MemoryStage(p.m, Run(s, k).m);
    assert Cycle(p).mem == Run(s, AtE(p, n)).m;
    if !Exceptional(MNext(p).status) {
      assert Reached(s, AtE(p, n)) && SimE(p, s, AtE(p, n));
    }
  }

  lemma StepExecute(p: Cpu, s: State, n: nat)
    requires Fit(s) && Sim(p, s, n) && !Exceptional(p.w.status) && !Exceptional(MNext(p).status)
    ensures var q := Cycle(p);
      && q.m == ENext(p) && MSlot(q.m, Run(s, AtE(p, n))) && q.m.status == p.e.status
      && q.cc == Run(s, AtD(p, n)).cc
      && (q.w.icode == I_RET ==> BubbleM(q.m) && BubbleE(q.e) && BubbleD(q.d))
      && (q.m.status == BUB ==> Apart(s, AtE(p, n)))
      && (q.w.status != BUB && q.m.status != BUB ==> !Apart(s, AtE(p, n)))
  {
    hide Run, Fit, Supported, FetchStable, Misflagged, WSlot, MSlot, ESlot, SimD, WriteBack, Pending, Step,
      MemoryStage, WrongJump, FetchAt, ExecuteStage, ComputeCc;
    StepMemory(p, s, n);
    var k := AtE(p, n);
    ReachedOk(s, k);
    EFacts(p.e, Run(s, k));
    RunNext(s, k, p.e.status);
    assert Cycle(p).m == ENext(p) == ExecuteStage(p.e, Run(s, k).cc);
    assert Cycle(p).cc == CcAfter(p) == Run(s, AtD(p, n)).cc;
    ReturnClears(p, s, n);
  }

  /** Behind a return everything stays empty until it reaches write-back. */
  lemma ReturnClears(p: Cpu, s: State, n: nat)
    requires SimE(p, s, AtE(p, n))
    ensures MNext(p).icode == I_RET ==>
      var q := Cycle(p); BubbleE(q.e) && BubbleD(q.d) && BubbleM(ENext(p))
  {
    hide Run, SimD, FetchAt, ESlot, ComputeCc, ComputeAlu, Forward;
  }

  /** What decides whether a jump in execute is found wrong is what the ISA run says of it. */
  lemma WrongInExecute(p: Cpu, s: State, n: nat)
    requires Fit(s) && Sim(p, s, n) && !Exceptional(p.w.status) && !Exceptional(MNext(p).status)
    requires p.e.icode == I_JMP
    ensures p.e.status != BUB && (Mispredicted(p.e, Take(p)) <==> FoundWrong(s, AtE(p, n)))
  {
    hide Run, Fit, Supported, FetchStable, WSlot, MSlot, SimM, SimD, Flagged, Sim, StepStat, Step, MemoryStage,
      FetchAt, ExecuteStage, CondHolds;
    StepMemory(p, s, n);
    var k := AtE(p, n);
    ReachedOk(s, k);
    EFacts(p.e, Run(s, k));
    JumpOperand(p.e, Run(s, k));
  }

  lemma JumpOperand(e: IdEx, s: State)
    requires EOk(e, s) && e.icode == I_JMP
    ensures (e.valb == 0 || e.valb == 1) && DAt(s).icode == I_JMP && e.ifun == DAt(s).ifun
  {
    hide FetchAt;
  }

  /** A wrongly predicted jump leaves execute: the two younger instructions are discarded. */
  lemma StepMispredicted(p: Cpu, s: State, n: nat)
    requires Fit(s) && Sim(p, s, n) && !Exceptional(p.w.status) && !Exceptional(MNext(p).status)
    requires Mispredicted(p.e, Take(p))
    ensures SimE(Cycle(p), s, AtD(p, n))
  {
    hide Run, Fit, Supported, FetchStable, Misflagged, WSlot, MSlot, SimM, WriteBack, Pending, Step,
      FetchAt, ComputeCc, ComputeAlu, Forward, MemoryStage, ExecuteStage, CondHolds;
    StepMemory(p, s, n);
    StepExecute(p, s, n);
    var k := AtE(p, n);
    ReachedOk(s, k);
    JumpFacts(p.e, Run(s, k));
    WrongInExecute(p, s, n);
    assert Apart(s, AtD(p, n)) by { AfterWrong(s, k); }
    assert SimE(Cycle(p), s, AtD(p, n));
  }

  lemma AfterWrong(s: State, k: nat)
    requires FoundWrong(s, k) || DAt(Run(s, k)).icode == I_RET
    ensures Apart(s, k + 1)
  {
    hide Run, FoundWrong, FetchAt;
  }

  lemma AfterLoad(s: State, k: nat)
    requires LoadsFor(DAt(Run(s, k)), DAt(Run(s, k + 1)))
    ensures Apart(s, k + 1)
  {
    hide Run, FoundWrong, FetchAt, LoadsFor;
  }

  lemma NotApart(s: State, k: nat)
    requires DAt(Run(s, k)).icode != I_RET && !FoundWrong(s, k) && !LoadsFor(DAt(Run(s, k)), DAt(Run(s, k + 1)))
    ensures !Apart(s, k + 1)
  {
    hide Run, FoundWrong, FetchAt, LoadsFor;
  }

  /** An rmmovq is followed at once. */
  lemma NoStoreApart(s: State, k: nat)
    requires Apart(s, k)
    ensures k >= 1 ==> DAt(Run(s, k - 1)).icode != I_RMMOVQ
  {
    hide Run, FetchAt;
  }

  /** A load is in execute and decode needs its result: decode waits. */
  lemma StepLoadUse(p: Cpu, s: State, n: nat)
    requires Fit(s) && Sim(p, s, n) && !Exceptional(p.w.status) && !Exceptional(MNext(p).status)
    requires DStall(p.d, p.e)
    requires p.e.status == BUB || OkAt(s, AtE(p, n))
    ensures SimE(Cycle(p), s, AtD(p, n))
  {
    hide Run, Fit, Supported, FetchStable, Misflagged, WSlot, MSlot, WriteBack, Pending, Step,
      FetchAt, ComputeCc, ComputeAlu, Forward, MemoryStage, CondHolds, StepStat;
    var k := AtE(p, n);
    StepMemory(p, s, n);
    StepExecute(p, s, n);
    StepRegisters(p, s, n);
    ReachedOk(s, k);
    LoadFacts(p.e, Run(s, k));
    assert SimD(p, s, AtD(p, n));
    EFacts(p.e, Run(s, k));
    assert Apart(s, AtD(p, n)) by { LoadIsApart(p.d, p.e, s, k); }
    assert SimE(Cycle(p), s, AtD(p, n));
  }

  lemma LoadIsApart(d: IfId, e: IdEx, s: State, k: nat)
    requires DStall(d, e) && RegValid(e.destm) && EOk(e, Run(s, k)) && DSlot(d, Run(s, k + 1))
    ensures d.status != BUB && Apart(s, k + 1)
  {
    hide Run, FetchAt;
    assert d.status != BUB;
    assert LoadsFor(DAt(Run(s, k)), DAt(Run(s, k + 1)));
    AfterLoad(s, k);
  }

  /** Neither a wrong jump in execute nor a load-use hazard: the instruction in decode moves on, with the
      operands the ISA reads. */
  ghost predicate Flows(p: Cpu) { !Mispredicted(p.e, Take(p)) && !DStall(p.d, p.e) }

  lemma NextOperand(p: Cpu, s: State, n: nat, src: int)
    requires Fit(s) && Sim(p, s, n) && !Exceptional(p.w.status) && !Exceptional(MNext(p).status)
    requires p.e.status == BUB || OkAt(s, AtE(p, n))
    requires RegValid(src) && ((p.e.icode == I_MRMOVQ || p.e.icode == I_POPQ) ==> p.e.destm != src)
    ensures Forward(src, ENext(p), p.m, MNext(p), p.w, GetReg(p.r, src)) == GetReg(Run(s, AtD(p, n)).r, src)
  {
    hide Run, Fit, Supported, FetchStable, Misflagged, WSlot, MSlot, WriteBack, Pending, Step,
      FetchAt, ComputeCc, ComputeAlu, Forward, MemoryStage, CondHolds, StepStat, SetReg, GetReg, SimD;
    var k := AtE(p, n);
    StepMemory(p, s, n);
    ReachedOk(s, k);
    ERegs(p.e, Run(s, k), src);
    RunNext(s, k, p.e.status);
    ForwardNewest(p, src);
    assert PendingRegs(p) == SetReg(Run(s, k).r, ENext(p).deste, ENext(p).vale);
  }

  lemma NextExecute(p: Cpu, s: State, n: nat)
    requires Fit(s) && Sim(p, s, n) && !Exceptional(p.w.status) && !Exceptional(MNext(p).status)
    requires p.e.status == BUB || OkAt(s, AtE(p, n))
    requires Flows(p)
    ensures Cycle(p).e == DNext(p) && SimD(p, s, AtD(p, n)) && Reached(s, AtD(p, n))
  {
    hide Run, Fit, Supported, FetchStable, Misflagged, WSlot, MSlot, WriteBack, Pending, Step,
      FetchAt, ComputeCc, ComputeAlu, Forward, MemoryStage, CondHolds, StepStat, SetReg, GetReg, ENext, MNext, Apart,
      Flagged;
    assert SimE(p, s, AtE(p, n)) && Reached(s, AtE(p, n)) by { StepMemory(p, s, n); }
    assert Cycle(p).e == DNext(p);
  }

  /** Its operands are those of the ISA, a missing base register provided. */
  lemma NextOperands(p: Cpu, s: State, n: nat)
    requires Fit(s) && Sim(p, s, n) && !Exceptional(p.w.status) && !Exceptional(MNext(p).status)
    requires p.e.status == BUB || OkAt(s, AtE(p, n))
    requires Flows(p) && (NoBase(p.d) && p.d.status != BUB ==> Nowhere(s, AtD(p, n)) == 0)
    ensures ESlot(DNext(p), Run(s, AtD(p, n)))
  {
    hide Run, Fit, Supported, FetchStable, Misflagged, WSlot, MSlot, WriteBack, Pending, Step,
      FetchAt, ComputeCc, ComputeAlu, Forward, MemoryStage, CondHolds, StepStat, SetReg, GetReg, ENext, MNext, Apart,
      Flagged, Nowhere;
    NextExecute(p, s, n);
    var d := p.d;
    if RegValid(SrcA(d)) {
      NextOperand(p, s, n, SrcA(d));
    }
    if RegValid(SrcB(d)) {
      NextOperand(p, s, n, SrcB(d));
    }
    if d.status != BUB {
      if NoBase(d) {
        NowhereForwarded(p, s, n);
        NoBaseOperand(p, s, n);
      }
      assert EOkFor(DNext(p), d, Run(s, AtD(p, n)));
    }
  }

  lemma NoBaseOperand(p: Cpu, s: State, n: nat)
    requires NoBase(p.d)
    ensures DNext(p).valb == Forward(SrcB(p.d), ENext(p), p.m, MNext(p), p.w, 0)
    ensures GetReg(Run(s, AtD(p, n)).r, SrcB(p.d)) == 0
  {
  }

  /** A register number is four bits. */
  lemma FourBits(s: State)
    ensures 0 <= DAt(s).rb <= REG_NONE
  {
    hide GetWord;
  }

  /** Whether the instruction in decode follows the one before it at once is what Apart says. */
  lemma AheadInExecute(p: Cpu, s: State, n: nat)
    requires Fit(s) && Sim(p, s, n) && !Exceptional(p.w.status) && !Exceptional(MNext(p).status)
    requires p.e.status == BUB || OkAt(s, AtE(p, n))
    requires Flows(p) && p.d.status != BUB
    ensures p.e.status == BUB <==> Apart(s, AtD(p, n))
  {
    hide Run, Fit, Supported, FetchStable, WSlot, MSlot, WriteBack, Pending, Step, Sim, SimF,
      FetchAt, ComputeCc, ComputeAlu, Forward, MemoryStage, CondHolds, StepStat, ENext, MNext, Apart, FoundWrong;
    StepMemory(p, s, n);
    NextExecute(p, s, n);
    var k := AtE(p, n);
    if p.e.status != BUB {
      ReachedOk(s, k);
      EFacts(p.e, Run(s, k));
      if p.e.icode == I_JMP {
        WrongInExecute(p, s, n);
      }
      assert p.d == DAt(Run(s, k + 1));
      assert p.e.destm == DstM(DAt(Run(s, k))) by { DestOf(p.e, Run(s, k)); }
      NotJump(s, k);
      NotApart(s, k);
    }
  }

  lemma DestOf(e: IdEx, s: State)
    requires EOk(e, s)
    ensures e.destm == DstM(DAt(s)) && e.deste == DstE(DAt(s)) && e.icode == DAt(s).icode && e.ifun == DAt(s).ifun
  {
    hide FetchAt;
  }

  lemma NotJump(s: State, k: nat)
    ensures DAt(Run(s, k)).icode != I_JMP ==> !FoundWrong(s, k)
  {
  }

  // ------------------------------------------------------------------------------------------
  // Operands without a base register

  /** What the instruction in execute forwards to nowhere, and what a load in memory or write-back does. */
  lemma ExecuteNowhere(e: IdEx, s: State)
    requires Supported(s) && EOk(e, s) && StepStat(s) == AOK && DAt(s).icode != I_RET
    ensures var m, d := ExecuteStage(e, s.cc), DAt(s);
      if UsesBase(d) then m.deste == REG_NONE && m.vale == Address(s)
      else if d.icode == I_JMP then m.deste == REG_NONE && m.vale == e.valb
      else if d.icode == I_RRMOVQ && !CondHolds(s.cc, d.ifun) then m.deste == REG_NONE && m.vale == GetReg(s.r, d.ra)
      else if d.icode == I_NOP then m.deste == REG_NONE && m.vale == 0
      else RegValid(m.deste)
  {
    hide GetWord, SetWord, ComputeCc;
    if !ByteAt(s.m, s.pc) {
      FetchFails(s);
    } else {
      FetchDecodes(s);
      hide FetchAt, Decode;
      WrapIsWord(e.valb);
      WrapIsWord(e.vala);
    }
  }

  lemma MemoryNowhere(m: ExMem, s: State)
    requires Supported(s) && MOk(m, s) && DAt(s).icode != I_RET
    ensures var d := DAt(s);
      if d.icode == I_MRMOVQ then RegValid(m.destm) && m.deste == REG_NONE && m.vale == Address(s)
      else if d.icode == I_POPQ then RegValid(m.destm) && RegValid(m.deste)
      else m.destm == REG_NONE && MemoryStage(m, s.m).valm == 0
  {
    hide GetWord, SetWord, ComputeCc, CondHolds;
    var e :| EOk(e, s) && m == ExecuteStage(e, s.cc);
    if !ByteAt(s.m, s.pc) {
      FetchFails(s);
    } else {
      FetchDecodes(s);
      hide FetchAt, Decode;
    }
  }

  lemma WriteBackNowhere(w: MemWb, s: State)
    requires Supported(s) && WOk(w, s) && DAt(s).icode != I_RET
    ensures var d := DAt(s);
      if d.icode == I_MRMOVQ then RegValid(w.destm) && w.deste == REG_NONE && w.vale == Address(s)
      else if d.icode == I_POPQ then RegValid(w.destm) && RegValid(w.deste)
      else w.destm == REG_NONE && w.valm == 0
  {
    hide MOk, Address, FetchAt;
    var m :| MOk(m, s) && w == MemoryStage(m, s.m);
    MemoryNowhere(m, s);
  }

  /** What an operand without base register gets is what the ISA run says. */
  lemma NowhereForwarded(p: Cpu, s: State, n: nat)
    requires Fit(s) && Sim(p, s, n) && !Exceptional(p.w.status) && !Exceptional(MNext(p).status)
    requires p.e.status == BUB || OkAt(s, AtE(p, n))
    requires Flows(p) && p.d.status != BUB && NoBase(p.d)
    ensures Forward(SrcB(p.d), ENext(p), p.m, MNext(p), p.w, 0) == Nowhere(s, AtD(p, n))
  {
    hide Run, Fit, Supported, FetchStable, WSlot, MSlot, WriteBack, Pending, Step, Sim, SimF, DSlot,
      FetchAt, ComputeCc, ComputeAlu, MemoryStage, CondHolds, StepStat, Apart, Flagged, ExecuteStage, Address,
      NowhereBefore, Mispredicted;
    AheadInExecute(p, s, n);
    StepMemory(p, s, n);
    NextExecute(p, s, n);
    var k := AtE(p, n);
    assert SrcB(p.d) == REG_NONE by { SourceNone(p, s, n); }
    if p.e.status == BUB {
      EmptyExecute(p.e, p.cc);
    } else {
      ReachedOk(s, k);
      NotReturn(p, s, n);
      ExecuteNowhere(p.e, Run(s, k));
      if RegValid(ENext(p).deste) {
        NowhereInMemory(p, s, n);
      }
    }
  }

  lemma SourceNone(p: Cpu, s: State, n: nat)
    requires SimD(p, s, AtD(p, n)) && p.d.status != BUB && NoBase(p.d)
    ensures SrcB(p.d) == REG_NONE
  {
    hide Run, FetchAt;
    FourBits(Run(s, AtD(p, n)));
  }

  lemma EmptyExecute(e: IdEx, cc: Cc)
    requires BubbleE(e)
    ensures ExecuteStage(e, cc).deste == REG_NONE && ExecuteStage(e, cc).vale == 0
  {
    WrapIsWord(0);
  }

  lemma NotReturn(p: Cpu, s: State, n: nat)
    requires Fit(s) && SimE(p, s, AtE(p, n)) && SimD(p, s, AtD(p, n)) && p.e.status != BUB && p.d.status != BUB
    ensures EOk(p.e, Run(s, AtE(p, n))) && DAt(Run(s, AtE(p, n))).icode != I_RET && p.m.icode != I_RET
  {
    hide Run, FetchAt, EOkFor, SimF;
    DestOf(p.e, Run(s, AtE(p, n)));
  }

  /** Behind an instruction with a destination the memory stage comes next. */
  lemma NowhereInMemory(p: Cpu, s: State, n: nat)
    requires Fit(s) && Sim(p, s, n) && !Exceptional(p.w.status) && !Exceptional(MNext(p).status)
    requires p.e.status != BUB && p.m.icode != I_RET && RegValid(ENext(p).deste)
    ensures Forward(REG_NONE, ENext(p), p.m, MNext(p), p.w, 0) == NowhereBefore(s, AtE(p, n))
  {
    hide Run, Fit, Supported, FetchStable, WSlot, MSlot, WriteBack, Pending, Step, Sim, SimF, DSlot, ESlot, SimD,
      FetchAt, ComputeCc, ComputeAlu, CondHolds, StepStat, Apart, Flagged, ExecuteStage, Address, ENext, LoadedAt;
    StepMemory(p, s, n);
    StepRegisters(p, s, n);
    var j, k := AtM(p, n), AtE(p, n);
    ReachedOk(s, j);
    MFacts(p.m, Run(s, j));
    if p.m.status == BUB {
      assert BubbleM(p.m) by { EmptyMemory(p.m, Run(s, j)); }
    } else {
      assert k == j + 1 && !Apart(s, k);
      assert MOk(p.m, Run(s, j)) by { EmptyMemory(p.m, Run(s, j)); }
      MemoryNowhere(p.m, Run(s, j));
      if DAt(Run(s, j)).icode == I_POPQ {
        NowhereInWriteBack(p, s, n);
      }
    }
  }

  lemma EmptyMemory(m: ExMem, s: State)
    requires MSlot(m, s)
    ensures if m.status == BUB then BubbleM(m) else MOk(m, s)
  {
    hide MOk;
  }

  lemma NowhereInWriteBack(p: Cpu, s: State, n: nat)
    requires Fit(s) && Sim(p, s, n) && !Exceptional(p.w.status)
    requires p.m.status != BUB && RegValid(p.m.destm) && RegValid(p.m.deste) && RegValid(ENext(p).deste)
    ensures Forward(REG_NONE, ENext(p), p.m, MNext(p), p.w, 0) == LoadedAt(s, AtM(p, n))
  {
    hide Run, Fit, Supported, FetchStable, MSlot, WriteBack, Pending, Step, SimE, MOk, WOk,
      FetchAt, ComputeCc, ComputeAlu, CondHolds, StepStat, Apart, Flagged, ExecuteStage, Address, ENext, MNext;
    StepRegisters(p, s, n);
    ReachedOk(s, n);
    WFacts(p.w, Run(s, n));
    var j := AtM(p, n);
    if p.w.status != BUB {
      assert j == n + 1 && !Apart(s, j) && p.w.icode != I_RET;
      WriteBackNowhere(p.w, Run(s, n));
    } else {
      assert Apart(s, j);
    }
  }

  // ------------------------------------------------------------------------------------------
  // Fetch

  /** The address fetched is the one the ISA goes to, unless the jump now in decode turns out wrong. */
  lemma FetchAddress(p: Cpu, s: State, n: nat)
    requires Fit(s) && Sim(p, s, n) && !Exceptional(p.w.status) && !Exceptional(MNext(p).status)
    requires p.e.status == BUB || OkAt(s, AtE(p, n))
    requires p.d.status == BUB || OkAt(s, AtD(p, n))
    requires Flows(p) && !RetInPipe(p.d, p.e, p.m) && !Mispredicted(Cycle(p).e, Take(Cycle(p)))
    ensures FPc(p.pc, p.m, p.w) == Run(s, AtF(p, n)).pc && Reached(s, AtF(p, n))
  {
    hide Run, Fit, Supported, FetchStable, Misflagged, WSlot, MSlot, ESlot, DSlot, WriteBack, Pending, Step,
      FetchAt, ComputeCc, ComputeAlu, Forward, MemoryStage, CondHolds, StepStat, SetReg, GetReg, ENext, MNext, CcAfter,
      MemAfter;
    StepRegisters(p, s, n);
    StepMemory(p, s, n);
    StepExecute(p, s, n);
    NextExecute(p, s, n);
    var q := Cycle(p);
    assert SimF(p, s, AtD(p, n), AtF(p, n));
    if p.d.icode == I_JMP {
      assert q.e.icode == I_JMP && q.e.valb == Flag(p.m) && q.e.ifun == p.d.ifun;
    }
    assert FPc(p.pc, p.m, p.w) == Run(s, AtF(p, n)).pc;
  }

  lemma NextDecode(p: Cpu, s: State, n: nat)
    requires Fit(s) && Sim(p, s, n) && !Exceptional(p.w.status) && !Exceptional(MNext(p).status)
    requires p.e.status == BUB || OkAt(s, AtE(p, n))
    requires p.d.status == BUB || OkAt(s, AtD(p, n))
    requires Flows(p) && !RetInPipe(p.d, p.e, p.m) && !Mispredicted(Cycle(p).e, Take(Cycle(p)))
    ensures FNext(p) == DAt(Run(s, AtF(p, n)))
  {
    hide Run, Fit, Supported, Misflagged, Sim, FetchAt;
    var j, k := AtM(p, n), AtF(p, n);
    FetchAddress(p, s, n);
    StepRegisters(p, s, n);
    ReachedOk(s, k);
    assert 0 <= j <= k <= j + 3;
    assert FetchAt(Run(s, j).m, Run(s, k).pc) == DAt(Run(s, k));
  }

  lemma PcFacts(s: State)
    requires Supported(s) && StepStat(s) == AOK && DAt(s).icode != I_RET
    ensures Step(s).0.pc == NextPc(DAt(s), s.cc, 0)
  {
    var d := DAt(s);
    var e := DecodeWith(d, if d.icode == I_CALL || d.icode == I_JMP then d.valp else GetReg(s.r, SrcA(d)),
                        if d.icode == I_JMP then 0 else GetReg(s.r, SrcB(d)));
    StepAgrees(e, s);
  }

  /** A stored operand in execute is positive exactly when the ISA stores a positive value there. */
  lemma StoreFacts(e: IdEx, s: State)
    requires Supported(s) && ESlot(e, s) && e.icode == I_RMMOVQ
    ensures e.status != BUB && (e.vala > 0 <==> StoresPositive(s))
  {
    if !ByteAt(s.m, s.pc) {
      FetchFails(s);
    } else {
      FetchDecodes(s);
    }
  }

  /** The same for one in the memory stage. */
  lemma StoredFacts(m: ExMem, s: State)
    requires Supported(s) && MSlot(m, s)
    ensures Flag(m) == 1 <==> m.status != BUB && StoresPositive(s)
  {
    hide ExecuteStage, StoresPositive;
    if m.status != BUB {
      var e :| EOk(e, s) && m == ExecuteStage(e, s.cc);
      StagesKeep(e, s.cc);
      assert ESlot(e, s);
      if e.icode == I_RMMOVQ {
        StoreFacts(e, s);
      }
      NoOtherStores(e, s);
    }
  }

  lemma StagesKeep(e: IdEx, cc: Cc)
    ensures ExecuteStage(e, cc).icode == e.icode
    ensures e.icode != I_JMP ==> ExecuteStage(e, cc).vala == e.vala
  {
  }

  lemma NoOtherStores(e: IdEx, s: State)
    requires EOk(e, s)
    ensures StoresPositive(s) ==> e.icode == I_RMMOVQ
  {
  }

  /** The flag the jump now in decode gets is that of the ISA run: an rmmovq is never followed by a bubble. */
  lemma FlagIsFlagged(p: Cpu, s: State, n: nat)
    requires Fit(s) && Sim(p, s, n) && !Exceptional(p.w.status) && !Exceptional(MNext(p).status)
    requires p.e.status == BUB || OkAt(s, AtE(p, n))
    requires Flows(p) && p.d.status != BUB
    ensures Flag(p.m) == 1 <==> Flagged(s, AtD(p, n))
  {
    hide Run, Fit, Supported, FetchStable, WSlot, MSlot, SimD, StepStat, Step, MemoryStage, Flag, Apart, StoresPositive,
      FetchAt, ESlot, Sim;
    var k := AtM(p, n);
    AheadInExecute(p, s, n);
    StepRegisters(p, s, n);
    StepMemory(p, s, n);
    ReachedOk(s, k);
    StoredFacts(p.m, Run(s, k));
    NoStoreIsPositive(s, k);
    if p.m.status == BUB {
      NoStoreApart(s, k);
      if k > 0 {
        NoStoreIsPositive(s, k - 1);
      }
    }
    if p.e.status == BUB {
      NoStoreApart(s, AtE(p, n));
    }
  }

  lemma NoStoreIsPositive(s: State, k: nat)
    ensures DAt(Run(s, k)).icode != I_RMMOVQ ==> !StoresPositive(Run(s, k))
  {
    hide Run, FetchAt;
  }

  /** A jump in decode is found right in the next cycle exactly when taking it and its flag exclude each other. */
  lemma FoundRight(p: Cpu, s: State, n: nat)
    requires Fit(s) && Sim(p, s, n) && !Exceptional(p.w.status) && !Exceptional(MNext(p).status)
    requires p.e.status == BUB || OkAt(s, AtE(p, n))
    requires Flows(p) && p.d.icode == I_JMP && p.d.status != BUB
    ensures Mispredicted(Cycle(p).e, Take(Cycle(p))) <==> FoundWrong(s, AtD(p, n))
  {
    hide Run, Fit, Supported, FetchStable, WSlot, MSlot, ESlot, Sim, StepStat, Step, MemoryStage, ExecuteStage, Flagged,
      CondHolds, FetchAt, ComputeCc, ComputeAlu, CcAfter, MemAfter, WriteBack, Forward, Apart;
    StepExecute(p, s, n);
    NextExecute(p, s, n);
    FlagIsFlagged(p, s, n);
    var q := Cycle(p);
    assert p.d == DAt(Run(s, AtD(p, n)));
    assert q.e.icode == I_JMP && q.e.valb == Flag(p.m) && q.e.ifun == p.d.ifun;
  }

  /** The flag the jump now fetched will carry, and what fetch predicted for it. */
  lemma FlagAgrees(p: Cpu, s: State, n: nat)
    requires Fit(s) && Sim(p, s, n) && !Exceptional(p.w.status) && !Exceptional(MNext(p).status)
    requires p.e.status == BUB || OkAt(s, AtE(p, n))
    requires Flows(p) && !RetInPipe(p.d, p.e, p.m) && !Mispredicted(Cycle(p).e, Take(Cycle(p)))
    requires Reached(s, AtF(p, n)) && NotTakenJump(Run(s, AtF(p, n))) && !Misflagged(s, AtF(p, n))
    requires DAt(Run(s, AtF(p, n))).valc != DAt(Run(s, AtF(p, n))).valp
    ensures Flag(ENext(p)) == 1 ==> PredictNotTaken(p.d, p.e)
  {
    hide Run, Fit, Supported, FetchStable, MSlot, WSlot, Step, Sim,
      FetchAt, ComputeCc, ComputeAlu, MemoryStage, CondHolds, StepStat, SetReg, GetReg, MNext, StoresPositive;
    if Flag(ENext(p)) == 1 {
      StepMemory(p, s, n);
      NextExecute(p, s, n);
      ReachedOk(s, AtE(p, n));
      StoreFacts(p.e, Run(s, AtE(p, n)));
      StoreBehind(p, s, n);
      var k := AtF(p, n);
      assert k == AtE(p, n) + 2 && p.d == DAt(Run(s, k - 1));
      if p.d.icode == I_JMP {
        FoundRight(p, s, n);
      }
      NotJump(s, k - 1);
      ReachedOk(s, k - 1);
      NothingForJump(Run(s, k - 1), Run(s, k));
      NotApart(s, k - 1);
      assert p.d.icode == I_ALU;
    }
  }

  lemma NothingForJump(u: State, t: State)
    requires Supported(u) && DAt(t).icode == I_JMP
    ensures !LoadsFor(DAt(u), DAt(t))
  {
    if !ByteAt(u.m, u.pc) {
      FetchFails(u);
    } else {
      FetchDecodes(u);
    }
  }

  /** Behind an rmmovq in execute there is an instruction in decode. */
  lemma StoreBehind(p: Cpu, s: State, n: nat)
    requires Fit(s) && Reached(s, AtE(p, n)) && ESlot(p.e, Run(s, AtE(p, n))) && SimD(p, s, AtD(p, n))
    requires p.e.icode == I_RMMOVQ
    ensures p.e.status != BUB && p.d.status != BUB && p.d == DAt(Run(s, AtD(p, n)))
  {
    hide Run, Fit, Supported, FetchAt, SimF;
    ReachedOk(s, AtE(p, n));
    EFacts(p.e, Run(s, AtE(p, n)));
    if p.d.status == BUB {
      NoStoreApart(s, AtD(p, n));
    }
  }

  /** The next fetch address is predicted right for everything but a return and a wrong jump. */
  lemma NextPrediction(p: Cpu, s: State, n: nat)
    requires Fit(s) && Sim(p, s, n) && !Exceptional(p.w.status) && !Exceptional(MNext(p).status)
    requires p.e.status == BUB || OkAt(s, AtE(p, n))
    requires Flows(p) && !RetInPipe(p.d, p.e, p.m) && !Mispredicted(Cycle(p).e, Take(Cycle(p)))
    requires Unflagged(s) && Reached(s, AtF(p, n)) && FNext(p) == DAt(Run(s, AtF(p, n))) && OkAt(s, AtF(p, n))
    ensures SimF(Cycle(p), s, AtF(p, n), AtF(p, n) + 1)
  {
    hide Fit, Supported, FetchStable, Misflagged, MSlot, WSlot, Sim, WriteBack, CcAfter, MemAfter,
      FetchAt, ComputeCc, ComputeAlu, MemoryStage, CondHolds, SetReg, GetReg, DNext, MNext;
    var k := AtF(p, n);
    var t := Run(s, k);
    ReachedOk(s, k);
    var d := DAt(t);
    if d.icode != I_RET {
      PcFacts(t);
      assert Run(s, k + 1) == Step(t).0;
      assert Cycle(p).d == d && Cycle(p).pc == PredPc(d, p.d, p.e) && Cycle(p).m == ENext(p);
      if d.icode == I_JMP && !CondHolds(t.cc, d.ifun) && d.valc != d.valp {
        assert !Misflagged(s, k);
        FlagAgrees(p, s, n);
      }
    }
    assert SimF(Cycle(p), s, k, k + 1);
  }

  lemma FetchIsReal(s: State)
    ensures DAt(s).status != BUB
  {
  }

  lemma StepFlows(p: Cpu, s: State, n: nat)
    requires Program(s) && Sim(p, s, n) && !Exceptional(p.w.status) && !Exceptional(MNext(p).status)
    requires p.e.status == BUB || OkAt(s, AtE(p, n))
    requires Flows(p)
    ensures SimE(Cycle(p), s, AtD(p, n))
  {
    hide Run, Fit, Supported, FetchStable, Misflagged, MSlot, WSlot, ESlot, WriteBack, CcAfter, MemAfter, StepStat,
      FetchAt, ComputeCc, ComputeAlu, MemoryStage, CondHolds, SetReg, GetReg, Forward, MNext, SimF, Take, Apart,
      Flagged, Unflagged, Based, Nowhere;
    StepExecute(p, s, n);
    NextExecute(p, s, n);
    var q, k := Cycle(p), AtD(p, n);
    BaseProvided(p, s, k);
    NextOperands(p, s, n);
    NextAhead(p, s, n);
    ReachedOk(s, AtE(p, n)) by { StepMemory(p, s, n); }
    if p.e.icode == I_JMP {
      FlowsRight(p, s, n);
    }
    if (p.d.status == BUB || OkAt(s, k)) && !Mispredicted(q.e, Take(q)) {
      if RetInPipe(p.d, p.e, p.m) {
        assert q.d == BUBBLE_IF_ID;
        assert SimF(q, s, AtF(p, n), AtF(p, n)) by { StepReturn(p, s, n); }
        assert Apart(s, AtF(p, n)) by { BehindReturn(p, s, n); }
      } else {
        FetchAddress(p, s, n);
        NextDecode(p, s, n);
        FetchIsReal(Run(s, AtF(p, n)));
        if OkAt(s, AtF(p, n)) {
          NextPrediction(p, s, n);
        }
      }
      assert SimD(q, s, AtF(p, n));
    }
    assert SimE(q, s, k);
  }

  lemma BaseProvided(p: Cpu, s: State, k: nat)
    requires Based(s) && Reached(s, k) && DSlot(p.d, Run(s, k))
    ensures NoBase(p.d) && p.d.status != BUB ==> Nowhere(s, k) == 0
  {
    hide Run, Nowhere, FetchAt, Reached;
    assert BaseOk(s, k);
  }

  /** What goes into execute has ahead of it what Apart says, and a jump the flag of the ISA run. */
  lemma NextAhead(p: Cpu, s: State, n: nat)
    requires Fit(s) && Sim(p, s, n) && !Exceptional(p.w.status) && !Exceptional(MNext(p).status)
    requires p.e.status == BUB || OkAt(s, AtE(p, n))
    requires Flows(p)
    ensures var q, k := Cycle(p), AtD(p, n);
      && (q.e.status == BUB ==> Apart(s, k))
      && (q.m.status != BUB && q.e.status != BUB ==> !Apart(s, k))
      && (q.e.icode == I_JMP ==> (q.e.valb == 1 <==> Flagged(s, k)))
  {
    hide Run, Fit, Supported, FetchStable, MSlot, WSlot, ESlot, WriteBack, CcAfter, MemAfter, StepStat, Sim, SimF,
      FetchAt, ComputeCc, ComputeAlu, MemoryStage, CondHolds, SetReg, GetReg, Forward, MNext, Take, Apart, Flagged,
      Flag, DStall, Mispredicted, ExecuteStage;
    StepExecute(p, s, n);
    NextExecute(p, s, n);
    if p.d.status != BUB {
      AheadInExecute(p, s, n);
      FlagIsFlagged(p, s, n);
      OneOrNot(p.m);
    }
  }

  lemma OneOrNot(m: ExMem)
    ensures Flag(m) == 0 || Flag(m) == 1
  {
  }

  /** Behind a return decode is empty, or it is the return itself that goes on. */
  lemma BehindReturn(p: Cpu, s: State, n: nat)
    requires RetInPipe(p.d, p.e, p.m) && SimE(p, s, AtE(p, n)) && SimD(p, s, AtD(p, n))
    ensures Apart(s, AtF(p, n))
  {
    hide Run, FetchAt, Apart, ESlot, SimF;
    if p.d.status != BUB {
      AfterWrong(s, AtD(p, n));
    }
  }

  lemma FlowsRight(p: Cpu, s: State, n: nat)
    requires Fit(s) && Sim(p, s, n) && !Exceptional(p.w.status) && !Exceptional(MNext(p).status)
    requires Flows(p) && p.e.icode == I_JMP
    ensures !WrongJump(ENext(p))
  {
    StepMemory(p, s, n);
    hide Run, Fit, Sim, WSlot, MSlot, SimD, FetchAt;
    ReachedOk(s, AtE(p, n));
    JumpFacts(p.e, Run(s, AtE(p, n)));
  }

  /** A return somewhere ahead keeps fetch waiting. */
  lemma StepReturn(p: Cpu, s: State, n: nat)
    requires RetInPipe(p.d, p.e, p.m) && Flows(p) && !Exceptional(p.w.status) && !Exceptional(MNext(p).status)
    ensures SimF(Cycle(p), s, AtF(p, n), AtF(p, n))
  {
    hide Run, ComputeAlu, ComputeCc, FetchAt, Forward, WriteBack, GetWord, SetWord, CondHolds;
  }

  /** Each cycle stutters or completes one instruction of the ISA run. */
  lemma StepSim(p: Cpu, s: State, n: nat)
    requires Program(s) && Sim(p, s, n) && !Exceptional(p.w.status)
    ensures Sim(Cycle(p), s, Next(n, p.w.status))
  {
    hide Run, Fit, MSlot, WSlot, ESlot, WriteBack, CcAfter, MemAfter, StepStat, SimE, SimD,
      MemoryStage, ExecuteStage, Take;
    StepRegisters(p, s, n);
    StepMemory(p, s, n);
    var q := Cycle(p);
    if !Exceptional(MNext(p).status) {
      StepExecute(p, s, n);
      if p.e.status == BUB || OkAt(s, AtE(p, n)) {
        if Mispredicted(p.e, Take(p)) {
          StepMispredicted(p, s, n);
        } else if DStall(p.d, p.e) {
          StepLoadUse(p, s, n);
        } else {
          StepFlows(p, s, n);
        }
      }
      assert SimM(q, s, AtE(p, n));
    }
    assert Sim(q, s, AtM(p, n));
  }
}
