/** Whole runs of the pipeline: from reset until the first exceptional instruction reaches write-back. */
module PipeRuns {
  import opened Y86Words
  import opened Isa
  import opened Pipe
  import opened PipeSpec
  import opened PipeRefines
  import opened PipeHazards

  /** The processor reset on the registers, memory and condition codes of `s`. */
  ghost function Start(s: State): Cpu { Initial(s.r, s.m, s.cc) }

  /** No exceptional instruction is in write-back in the first `t` cycles. */
  ghost predicate Running(p: Cpu, t: nat) {
    t == 0 || (Running(p, t - 1) && !Exceptional(Cycles(p, t - 1).w.status))
  }

  /** The number of instructions that have left write-back after `t` cycles. */
  ghost function Retired(p: Cpu, t: nat): nat {
    if t == 0 then 0 else Next(Retired(p, t - 1), Cycles(p, t - 1).w.status)
  }

  lemma StartSim(s: State)
    requires s.pc == 0
    ensures Sim(Start(s), s, 0)
  {
  }

  /** After every cycle of every run of a program, the pipeline is at its place in the ISA run. */
  lemma {:induction false} PipelineRefines(s: State, t: nat)
    requires Program(s) && s.pc == 0 && Running(Start(s), t)
    ensures Sim(Cycles(Start(s), t), s, Retired(Start(s), t))
  {
    hide Sim, Program, Cycle;
    if t == 0 {
      StartSim(s);
    } else {
      PipelineRefines(s, t - 1);
      StepSim(Cycles(Start(s), t - 1), s, Retired(Start(s), t - 1));
    }
  }

  /** The pipeline follows the ISA: in every cycle of its run it is at its place in the ISA run. */
  ghost predicate Follows(s: State) {
    forall t: nat {:trigger Running(Start(s), t)} ::
      Running(Start(s), t) ==> Sim(Cycles(Start(s), t), s, Retired(Start(s), t))
  }

  lemma ProgramIsFit(s: State)
    requires Program(s)
    ensures Fit(s)
  {
  }

  lemma ProgramFollows(s: State)
    requires Program(s) && s.pc == 0
    ensures Follows(s)
  {
    hide Sim, Program, Cycles, Retired;
    forall t: nat {:trigger Running(Start(s), t)} | Running(Start(s), t)
      ensures Sim(Cycles(Start(s), t), s, Retired(Start(s), t))
    {
      PipelineRefines(s, t);
    }
  }

  /** What a programmer can see: registers, memory and condition codes are those of the ISA run at the
      instructions in write-back, memory and execute. */
  lemma VisibleState(s: State, t: nat)
    requires Program(s) && s.pc == 0 && Running(Start(s), t)
    ensures var p, n := Cycles(Start(s), t), Retired(Start(s), t);
      && Reached(s, n)
      && p.r == Run(s, n).r
      && p.mem == Run(s, AtM(p, n)).m
      && (!Exceptional(p.w.status) ==> p.cc == Run(s, AtE(p, n)).cc)
  {
    PipelineRefines(s, t);
  }

  /** Instructions that move the stack pointer before their memory access. */
  predicate MovesStackFirst(icode: int) { icode == I_CALL || icode == I_PUSHQ || icode == I_POPQ }

  /** The stop: the ISA stops at the same instruction with the same status, memory and condition codes, and
      the registers agree too, except that a call, pushq or popq that faults on its stack address has
      already moved the ISA's stack pointer and never moves the pipeline's. */
  lemma StopAgrees(p: Cpu, s: State, n: nat)
    requires Fit(s) && Sim(p, s, n) && Exceptional(p.w.status)
    ensures Reached(s, n) && p.w.status == StepStat(Run(s, n))
    ensures p.mem == Run(s, n + 1).m && p.cc == Run(s, n + 1).cc
    ensures p.r == Run(s, n + 1).r <==> !MovesStackFirst(DAt(Run(s, n)).icode)
  {
    hide Fit, WSlot, SimM, FetchStable, Misflagged, FetchAt, WriteBack, MovesStackFirst, Supported, Step,
      StepStat, After;
    ReachedOk(s, n);
    var u := Run(s, n);
    WFacts(p.w, u);
    StuckRegs(u);
    assert Run(s, n + 1) == Step(u).0;
    assert p.r == Run(s, n + 1).r <==> !MovesStackFirst(DAt(Run(s, n)).icode);
    assert p.mem == Run(s, n + 1).m && p.cc == Run(s, n + 1).cc;
  }

  lemma StuckRegs(s: State)
    requires Supported(s) && Exceptional(StepStat(s))
    ensures Step(s).0.r == s.r <==> !MovesStackFirst(DAt(s).icode)
  {
    hide FetchAt, Decode, GetWord, SetWord;
    if !ByteAt(s.m, s.pc) {
      FetchFails(s);
    } else {
      FetchDecodes(s);
      ExecuteStuck(s, Decode(s.m, s.pc));
    }
    assert Step(s).0.r == s.r <==> !MovesStackFirst(DAt(s).icode);
  }

  lemma ExecuteStuck(s: State, i: Instr)
    requires Proper(i) && Execute(s, i).1 != AOK
    ensures Execute(s, i).0.r == s.r <==> !MovesStackFirst(i.icode)
  {
    StackMoves(GetReg(s.r, REG_RSP));
    var t := Execute(s, i).0;
    if MovesStackFirst(i.icode) {
      assert t.r[REG_RSP] != s.r[REG_RSP];
    }
  }

  lemma StackMoves(x: word)
    ensures Wrap(x - 8) != x && Wrap(x + 8) != x
  {
  }

  // ------------------------------------------------------------------------------------------
  // Completing the instructions in flight

  /** The program-visible state without the program counter. */
  datatype Arch = Arch(r: Regs, m: Mem, cc: Cc)

  function Visible(s: State): Arch { Arch(s.r, s.m, s.cc) }

  /** An instruction in the memory, execute or decode stage run to its end on its own. */
  function FinishM(a: Arch, m: ExMem): Arch {
    Arch(Pending(a.r, m.deste, m.vale, m.destm, MemoryStage(m, a.m).valm),
         if MemWrite(m) then SetWord(a.m, MemAddr(m), m.vala) else a.m, a.cc)
  }

  function FinishE(a: Arch, e: IdEx): Arch {
    FinishM(Arch(a.r, a.m, if SetsFlags(e.icode) then ComputeCc(AluFun(e), AluA(e), AluB(e)) else a.cc),
            ExecuteStage(e, a.cc))
  }

  /** Decode reading the registers themselves. */
  function Decoded(a: Arch, d: IfId): IdEx {
    DecodeWith(d, if d.icode == I_CALL || d.icode == I_JMP then d.valp else GetReg(a.r, SrcA(d)),
               if d.icode == I_JMP then 0 else GetReg(a.r, SrcB(d)))
  }

  /** What has become of the instructions in flight: the state, how many of them have completed, and whether
      those behind are discarded. */
  datatype Drained = Drained(arch: Arch, count: nat, stopped: bool)

  function One(st: Stat): nat { if st == BUB then 0 else 1 }

  function DrainW(p: Cpu): Drained {
    if Exceptional(p.w.status) then Drained(Arch(p.r, p.mem, p.cc), 0, true)
    else Drained(Arch(WriteBack(p.r, p.w), p.mem, p.cc), One(p.w.status), false)
  }

  function DrainM(x: Drained, m: ExMem): Drained {
    if x.stopped then x
    else if Exceptional(MemoryStage(m, x.arch.m).status) then x.(stopped := true)
    else Drained(FinishM(x.arch, m), x.count + One(m.status), false)
  }

  /** An exception or a jump found wrong discards what is behind it. */
  function DrainE(x: Drained, e: IdEx): Drained {
    if x.stopped then x
    else if Exceptional(MemoryStage(ExecuteStage(e, x.arch.cc), x.arch.m).status) then x.(stopped := true)
    else Drained(FinishE(x.arch, e), x.count + One(e.status), Mispredicted(e, CondHolds(x.arch.cc, e.ifun)))
  }

  function DrainD(x: Drained, d: IfId): Drained {
    if x.stopped then x
    else if Exceptional(MemoryStage(ExecuteStage(Decoded(x.arch, d), x.arch.cc), x.arch.m).status) then
      x.(stopped := true)
    else Drained(FinishE(x.arch, Decoded(x.arch, d)), x.count + One(d.status), false)
  }

  /** Everything in flight run to its end in order, and nothing more fetched. */
  function Drain(p: Cpu): Drained { DrainD(DrainE(DrainM(DrainW(p), p.m), p.e), p.d) }

  /** In every state of a run, completing the instructions in flight, up to a fault or to a jump that is just
      found wrong, gives exactly the ISA state after as many steps as have then been completed. All of them
      complete if the ISA gets beyond them and no jump is found wrong; an earlier end is one of those two. */
  lemma DrainIsIsa(p: Cpu, s: State, n: nat)
    requires Fit(s) && Sim(p, s, n)
    ensures Reached(s, n + Drain(p).count) && Drain(p).arch == Visible(Run(s, n + Drain(p).count))
    ensures !Exceptional(p.w.status) && Reached(s, AtF(p, n)) && !Mispredicted(p.e, Take(p)) ==>
      n + Drain(p).count == AtF(p, n)
    ensures Drain(p).stopped ==>
      !OkAt(s, n + Drain(p).count) || (Mispredicted(p.e, Take(p)) && n + Drain(p).count == AtD(p, n))
  {
    hide Run, Fit, Sim, Reached, OkAt, DrainW, DrainM, DrainE, DrainD, Take, Mispredicted, Visible, AtM, AtE, AtD, AtF;
    InOrder(p, n);
    if Exceptional(p.w.status) {
      DrainedW(p, s, n);
    } else {
      DrainedM(p, s, n);
      if Exceptional(MNext(p).status) {
        StaysStopped(DrainM(DrainW(p), p.m), p.e, p.d);
        NotBeyond(s, AtM(p, n), AtF(p, n));
      } else {
        DrainedE(p, s, n);
        if DrainE(DrainM(DrainW(p), p.m), p.e).stopped {
          StaysStoppedD(DrainE(DrainM(DrainW(p), p.m), p.e), p.d);
          NotBeyond(s, AtE(p, n), AtF(p, n));
        } else {
          DrainedD(p, s, n);
          NotBeyond(s, AtD(p, n), AtF(p, n));
        }
      }
    }
  }

  lemma InOrder(p: Cpu, n: nat)
    ensures n <= AtM(p, n) <= AtE(p, n) <= AtD(p, n) <= AtF(p, n)
  {
  }

  lemma StaysStopped(x: Drained, e: IdEx, d: IfId)
    requires x.stopped
    ensures DrainD(DrainE(x, e), d) == x
  {
  }

  lemma StaysStoppedD(x: Drained, d: IfId)
    requires x.stopped
    ensures DrainD(x, d) == x
  {
  }

  lemma NotBeyond(s: State, k: nat, f: nat)
    ensures k < f && Reached(s, f) ==> OkAt(s, k)
  {
    hide OkAt, Reached;
    if k < f && Reached(s, f) {
      OkUpTo(s, f, k, AOK);
    }
  }

  /** A faulting step leaves memory and condition codes alone. */
  lemma FaultKeeps(s: State)
    requires StepStat(s) != AOK
    ensures Step(s).0.m == s.m && Step(s).0.cc == s.cc
  {
    hide Decode, GetWord, CondHolds, ComputeAlu, ComputeCc, Wrap;
  }

  lemma DrainedW(p: Cpu, s: State, n: nat)
    requires Fit(s) && Sim(p, s, n) && Exceptional(p.w.status)
    ensures Drain(p).stopped && Drain(p).count == 0 && Drain(p).arch == Visible(Run(s, n))
    ensures Reached(s, n) && !OkAt(s, n)
  {
    hide Run, Fit, Supported, FetchStable, WSlot, Step, StepStat, MemoryStage, ExecuteStage, FinishM, FinishE;
    ReachedOk(s, n);
    WFacts(p.w, Run(s, n));
    RunNext(s, n, p.w.status);
    FaultKeeps(Run(s, n));
  }

  lemma DrainedM(p: Cpu, s: State, n: nat)
    requires Fit(s) && Sim(p, s, n) && !Exceptional(p.w.status)
    ensures var x := DrainM(DrainW(p), p.m);
      && x.stopped == Exceptional(MNext(p).status)
      && (x.stopped ==> n + x.count == AtM(p, n) < AtE(p, n) && !OkAt(s, AtM(p, n)))
      && (!x.stopped ==> n + x.count == AtE(p, n) && x.arch.cc == p.cc)
      && Reached(s, n + x.count) && x.arch == Visible(Run(s, n + x.count))
  {
    hide Run, Fit, Supported, FetchStable, WSlot, MSlot, SimE, Step, StepStat, MemoryStage, WriteBack, Pending, SetWord,
      Exceptional;
    StepRegisters(p, s, n);
    StepMemory(p, s, n);
    var k := AtM(p, n);
    ReachedOk(s, k);
    MFacts(p.m, Run(s, k));
    BubStatus();
    if Exceptional(MNext(p).status) {
      RunNext(s, k, p.m.status);
      FaultKeeps(Run(s, k)) by { NotAok(MNext(p).status); }
      NotAok(MNext(p).status);
    }
  }

  lemma BubStatus()
    ensures !Exceptional(BUB)
  {
  }

  lemma NotAok(st: Stat)
    requires Exceptional(st)
    ensures st != AOK
  {
  }

  lemma DrainedE(p: Cpu, s: State, n: nat)
    requires Fit(s) && Sim(p, s, n) && !Exceptional(p.w.status) && !Exceptional(MNext(p).status)
    ensures var x := DrainE(DrainM(DrainW(p), p.m), p.e);
      && (x.stopped ==>
            (n + x.count == AtE(p, n) < AtD(p, n) && !OkAt(s, AtE(p, n))) ||
            (n + x.count == AtD(p, n) && Mispredicted(p.e, Take(p))))
      && (!x.stopped ==> n + x.count == AtD(p, n) && SimD(p, s, AtD(p, n)))
      && Reached(s, n + x.count) && x.arch == Visible(Run(s, n + x.count))
  {
    hide Run, Fit, Supported, FetchStable, WSlot, MSlot, ESlot, SimM, SimD, Step, StepStat, MemoryStage, ExecuteStage,
      DrainM, DrainW, FinishE, Mispredicted, CondHolds;
    DrainedM(p, s, n);
    StepMemory(p, s, n);
    var k := AtE(p, n);
    ReachedOk(s, k);
    assert ESlot(p.e, Run(s, k));
    ExecutedStatus(p.e, Run(s, k));
    RunNext(s, k, p.e.status);
    StatusOf(Run(s, k));
    if !Exceptional(MemoryStage(ExecuteStage(p.e, p.cc), Run(s, k).m).status) {
      FinishedE(p.e, Run(s, k));
    }
  }

  /** The status an instruction has when it comes out of the memory stage is the one its step returns. */
  lemma ExecutedStatus(e: IdEx, s: State)
    requires Supported(s) && ESlot(e, s)
    ensures var st := MemoryStage(ExecuteStage(e, s.cc), s.m).status;
      if e.status == BUB then st == BUB else st == StepStat(s)
  {
    hide ESlot, MSlot, Step, StepStat, MemoryStage, ExecuteStage;
    EFacts(e, s);
    MFacts(ExecuteStage(e, s.cc), s);
  }

  lemma DrainedD(p: Cpu, s: State, n: nat)
    requires Fit(s) && Sim(p, s, n) && !Exceptional(p.w.status) && !Exceptional(MNext(p).status)
    requires !DrainE(DrainM(DrainW(p), p.m), p.e).stopped
    ensures var x := Drain(p);
      && (x.stopped ==> n + x.count == AtD(p, n) < AtF(p, n) && !OkAt(s, AtD(p, n)))
      && (!x.stopped ==> n + x.count == AtF(p, n))
      && Reached(s, n + x.count) && x.arch == Visible(Run(s, n + x.count))
  {
    hide Run, Fit, Supported, FetchStable, WSlot, MSlot, ESlot, SimM, SimF, Step, StepStat, MemoryStage, ExecuteStage,
      DrainM, DrainW, DrainE, FinishE, Decoded, Sim;
    DrainedE(p, s, n);
    var k := AtD(p, n);
    ReachedOk(s, k);
    DecodedSlot(p.d, Run(s, k));
    var e := Decoded(Visible(Run(s, k)), p.d);
    ExecutedStatus(e, Run(s, k));
    RunNext(s, k, p.d.status);
    StatusOf(Run(s, k));
    if !Exceptional(MemoryStage(ExecuteStage(e, Run(s, k).cc), Run(s, k).m).status) {
      FinishedE(e, Run(s, k));
    }
  }

  lemma DecodedSlot(d: IfId, s: State)
    requires Supported(s) && DSlot(d, s)
    ensures ESlot(Decoded(Visible(s), d), s) && Decoded(Visible(s), d).status == d.status
  {
    hide FetchAt;
  }

  /** Every step below a reached one is reached and returns AOK. */
  lemma {:induction false} OkUpTo(s: State, f: nat, k: nat, st: Stat)
    requires Reached(s, f) && Next(k, st) <= f
    ensures Reached(s, k) && (st == BUB || OkAt(s, k))
  {
    hide OkAt;
    if k < f {
      OkUpTo(s, f - 1, k, if k == f - 1 then BUB else st);
    }
  }

  lemma FinishedM(m: ExMem, s: State, cc: Cc)
    requires Supported(s) && MSlot(m, s) && (m.status == BUB || StepStat(s) == AOK)
    requires cc == After(s, m.status).cc
    ensures FinishM(Arch(s.r, s.m, cc), m) == Visible(After(s, m.status))
  {
    hide MSlot, Step, GetWord, SetWord, SetReg;
    MFacts(m, s);
  }

  lemma FinishedE(e: IdEx, s: State)
    requires Supported(s) && ESlot(e, s) && (e.status == BUB || StepStat(s) == AOK)
    ensures FinishE(Visible(s), e) == Visible(After(s, e.status))
  {
    hide ESlot, MSlot, Step, GetWord, SetWord, SetReg, ComputeCc;
    EFacts(e, s);
    FinishedM(ExecuteStage(e, s.cc), s, After(s, e.status).cc);
  }

  // ------------------------------------------------------------------------------------------
  // How long it takes

  /** The number of cycles until an instruction reaches write-back. */
  ghost function Distance(p: Cpu): nat {
    if p.w.status != BUB then 0
    else if p.m.status != BUB then 1
    else if p.e.status != BUB then 2
    else if p.d.status != BUB then 3
    else 4
  }

  /** The oldest instruction in flight moves on in every cycle, and an empty pipeline fetches one. */
  lemma OldestMoves(p: Cpu, s: State, n: nat)
    requires Fit(s) && Sim(p, s, n) && p.w.status == BUB
    ensures Distance(Cycle(p)) == Distance(p) - 1
  {
    hide Run, Fit, Supported, FetchStable, Misflagged, MSlot, WSlot, ESlot, WriteBack, CcAfter, MemAfter, StepStat,
      FetchAt, ComputeCc, ComputeAlu, CondHolds, SetReg, GetReg, Forward, Reached, SimF;
    if p.m.status != BUB {
      assert Cycle(p).w.status != BUB by { MemoryIsReal(p.m, p.mem); }
    } else {
      StepExecuteEmpty(p, s, n);
    }
  }

  lemma MemoryIsReal(m: ExMem, mem: Mem)
    requires m.status != BUB
    ensures MemoryStage(m, mem).status != BUB
  {
  }

  lemma StepExecuteEmpty(p: Cpu, s: State, n: nat)
    requires Fit(s) && Sim(p, s, n) && p.w.status == BUB && p.m.status == BUB
    ensures Distance(Cycle(p)) == Distance(p) - 1
  {
    hide Run, Fit, Supported, FetchStable, Misflagged, WSlot, WriteBack, CcAfter, MemAfter, StepStat,
      ComputeCc, ComputeAlu, CondHolds, SetReg, GetReg, Forward, Reached, SimF, EOk;
    assert SimM(p, s, n) && SimE(p, s, n);
    assert BubbleM(p.m) && !Exceptional(MNext(p).status);
    assert Cycle(p).w.status == BUB && Cycle(p).m.status == p.e.status;
    if p.e.status == BUB {
      assert BubbleE(p.e) && SimD(p, s, n);
      if p.d.status != BUB {
        assert Cycle(p).e == DNext(p);
      } else {
        assert BubbleD(p.d);
        assert Cycle(p).d == FNext(p);
      }
    }
  }

  /** At least one instruction leaves write-back in every five cycles. */
  lemma FiveCyclesEach(s: State, t: nat)
    requires Program(s) && s.pc == 0 && Running(Start(s), t)
    ensures t <= 5 * Retired(Start(s), t) + 4 - Distance(Cycles(Start(s), t))
  {
    hide Program, Follows, Fit, Distance, Retired, Cycles, Running;
    ProgramFollows(s);
    ProgramIsFit(s);
    FiveCyclesFollowing(s, t);
  }

  lemma {:induction false} FiveCyclesFollowing(s: State, t: nat)
    requires Fit(s) && Follows(s) && Running(Start(s), t)
    ensures t <= 5 * Retired(Start(s), t) + 4 - Distance(Cycles(Start(s), t))
  {
    hide Sim, Fit, Cycle;
    if t > 0 {
      FiveCyclesFollowing(s, t - 1);
      assert Running(Start(s), t - 1);
      var p := Cycles(Start(s), t - 1);
      if p.w.status == BUB {
        OldestMoves(p, s, Retired(Start(s), t - 1));
      }
    }
  }

  /** Four cycles pass before the first instruction is in write-back, so the cycles of a run are never the
      number of instructions it has completed. */
  lemma {:induction false} RetiredLater(r: Regs, m: Mem, cc: Cc, t: nat)
    ensures var p := Initial(r, m, cc);
      Retired(p, t) <= (if t <= 4 then 0 else t - 4) && (t > 0 ==> Retired(p, t) < t)
  {
    hide Cycle;
    if t > 0 {
      RetiredLater(r, m, cc, t - 1);
      if t <= 4 {
        StillEmpty(r, m, cc, t - 1);
      }
    }
  }

  lemma {:induction false} StillEmpty(r: Regs, m: Mem, cc: Cc, t: nat)
    requires t <= 3
    ensures Empty(Cycles(Initial(r, m, cc), t), 3 - t)
  {
    hide Cycle;
    if t > 0 {
      StillEmpty(r, m, cc, t - 1);
      EmptyMoves(Cycles(Initial(r, m, cc), t - 1), 4 - t);
    }
  }

  /** Write-back and the `k` registers before it hold bubbles. */
  ghost predicate Empty(p: Cpu, k: nat) {
    && p.w.status == BUB
    && (k >= 1 ==> BubbleM(p.m)) && (k >= 2 ==> BubbleE(p.e)) && (k >= 3 ==> BubbleD(p.d))
  }

  lemma EmptyMoves(p: Cpu, k: nat)
    requires Empty(p, k) && 0 < k <= 3
    ensures Empty(Cycle(p), k - 1)
  {
    hide FetchAt, ComputeCc, ComputeAlu, CondHolds, WriteBack, CcAfter, Forward;
    assert Empty(Cycle(p), k - 1);
  }

  lemma {:induction false} ReachedWithin(s: State, k: nat, n: nat)
    requires Reached(s, k) && !OkAt(s, n)
    ensures k <= n
  {
    hide OkAt;
    if k > n + 1 {
      ReachedWithin(s, k - 1, n);
    }
  }

  /** If the ISA stops at its step `n`, the pipeline stops too, within five cycles for each instruction. */
  lemma StopsInTime(s: State, n: nat) returns (t: nat)
    requires Program(s) && s.pc == 0 && !OkAt(s, n)
    ensures t <= 5 * n + 4 && Running(Start(s), t) && Exceptional(Cycles(Start(s), t).w.status)
    ensures Retired(Start(s), t) <= n
    ensures Reached(s, n) ==> Retired(Start(s), t) == n
  {
    hide Sim, Program, Cycle, Step, Retired;
    t := 0;
    while t < 5 * n + 4 && !Exceptional(Cycles(Start(s), t).w.status)
      invariant t <= 5 * n + 4 && Running(Start(s), t)
    {
      t := t + 1;
    }
    var k := Retired(Start(s), t);
    PipelineRefines(s, t);
    var p := Cycles(Start(s), t);
    assert Reached(s, k) by { assert Sim(p, s, k); VisibleState(s, t); }
    ReachedWithin(s, k, n);
    FiveCyclesEach(s, t);
    ProgramIsFit(s);
    ReachedOk(s, k);
    assert p.w.status != BUB ==> p.w.status == StepStat(Run(s, k)) by { RetireStatus(p, s, k); }
    StatusOf(Run(s, k));
    if Reached(s, n) && k < n {
      OkBelow(s, n, k);
    }
  }

  lemma RetireStatus(p: Cpu, s: State, n: nat)
    requires Fit(s) && Sim(p, s, n)
    ensures p.w.status != BUB ==> p.w.status == StepStat(Run(s, n))
  {
    ReachedOk(s, n);
    WFacts(p.w, Run(s, n));
  }

  lemma {:induction false} OkBelow(s: State, n: nat, k: nat)
    requires Reached(s, n) && k < n
    ensures OkAt(s, k)
  {
    hide OkAt;
    if k < n - 1 {
      OkBelow(s, n - 1, k);
    }
  }
}
