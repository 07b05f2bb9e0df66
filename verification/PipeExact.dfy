/** The hypotheses on jumps and on missing base registers are exact: the pipeline follows the ISA on a program
    that is otherwise as required exactly when no jump the ISA gets to shows the excluded pattern and no operand
    without base register is given anything but 0 for it. */
module PipeExact {
  import opened Y86Words
  import opened Isa
  import opened Pipe
  import opened PipeSpec
  import opened PipeRefines
  import opened PipeRuns

  // ------------------------------------------------------------------------------------------
  // Every instruction comes to execute

  /** No stage has found an exception yet. */
  ghost predicate Calm(p: Cpu) { !Exceptional(p.w.status) && !Exceptional(MNext(p).status) }

  /** Up to a step that is reached nothing is exceptional. */
  lemma CalmBefore(p: Cpu, s: State, n: nat, k: nat)
    requires Fit(s) && Sim(p, s, n) && Reached(s, k) && AtE(p, n) <= k
    ensures Calm(p) && Reached(s, AtE(p, n)) && (AtE(p, n) < k ==> OkAt(s, AtE(p, n)))
  {
    hide Run, Fit, Supported, FetchStable, Step, StepStat, WSlot, MSlot, SimM, OkAt;
    ReachedOk(s, n);
    WFacts(p.w, Run(s, n));
    if AtE(p, n) < k {
      OkBelow(s, k, AtE(p, n));
    }
    if p.w.status != BUB {
      OkBelow(s, k, n);
      StatusIsOk(s, n);
    }
    assert !Exceptional(p.w.status);
    CalmMemory(p, s, n, k);
    OkUpTo(s, k, AtE(p, n), BUB);
  }

  lemma StatusIsOk(s: State, k: nat)
    requires OkAt(s, k)
    ensures StepStat(Run(s, k)) == AOK
  {
  }

  lemma CalmMemory(p: Cpu, s: State, n: nat, k: nat)
    requires Fit(s) && Sim(p, s, n) && !Exceptional(p.w.status) && Reached(s, k) && AtE(p, n) <= k
    ensures !Exceptional(MNext(p).status)
  {
    hide Run, Fit, Supported, FetchStable, Step, StepStat, WSlot, MSlot, SimM, OkAt, MemoryStage;
    var j := AtM(p, n);
    StepRegisters(p, s, n);
    ReachedOk(s, j);
    assert MSlot(p.m, Run(s, j)) by { SlotInM(p, s, j); }
    MFacts(p.m, Run(s, j));
    if p.m.status != BUB {
      OkBelow(s, k, j);
      StatusIsOk(s, j);
    }
  }

  lemma SlotInM(p: Cpu, s: State, j: nat)
    requires SimM(p, s, j)
    ensures MSlot(p.m, Run(s, j))
  {
    hide Run, MSlot, SimE;
  }

  /** In a calm cycle what is in execute moves on. */
  lemma ExecuteMoves(p: Cpu, s: State, n: nat)
    requires Fit(s) && Sim(p, s, n) && Calm(p)
    ensures AtE(Cycle(p), Next(n, p.w.status)) == Next(AtE(p, n), p.e.status)
  {
    hide Run, Fit, Supported, FetchStable, Sim, WSlot, MSlot, Cycle, MNext;
    StepMemory(p, s, n);
    StepExecute(p, s, n);
  }

  /** The pipeline is in the cycle in which step `k` is in execute. */
  ghost predicate InExecute(s: State, t: nat, k: nat) {
    && Running(Start(s), t) && AtE(Cycles(Start(s), t), Retired(Start(s), t)) == k
    && Cycles(Start(s), t).e.status != BUB
  }

  lemma ComesToExecute(s: State, k: nat) returns (t: nat)
    requires Fit(s) && Follows(s) && Reached(s, k)
    ensures InExecute(s, t, k)
  {
    hide Sim, Fit, Follows, Cycle, Run, Reached, Calm, Exceptional;
    t := 0;
    AtStart(s);
    while !InExecute(s, t, k)
      invariant Running(Start(s), t) && AtE(Cycles(Start(s), t), Retired(Start(s), t)) <= k
      invariant t <= 5 * k + 4
      decreases 5 * k + 5 - t
    {
      var p, n := Cycles(Start(s), t), Retired(Start(s), t);
      assert Sim(p, s, n) by { FollowsAt(s, t); }
      CalmBefore(p, s, n, k);
      ExecuteMoves(p, s, n);
      assert !Exceptional(p.w.status) by { CalmIsRunning(p); }
      t := t + 1;
      assert Cycles(Start(s), t) == Cycle(p) && Retired(Start(s), t) == Next(n, p.w.status);
      FollowsAt(s, t);
      FiveCyclesFollowing(s, t);
    }
  }

  lemma AtStart(s: State)
    ensures Running(Start(s), 0) && AtE(Cycles(Start(s), 0), Retired(Start(s), 0)) == 0
  {
  }

  lemma FollowsAt(s: State, t: nat)
    requires Follows(s) && Running(Start(s), t)
    ensures Sim(Cycles(Start(s), t), s, Retired(Start(s), t))
  {
    hide Sim, Running, Cycles, Retired;
  }

  lemma CalmIsRunning(p: Cpu)
    requires Calm(p)
    ensures !Exceptional(p.w.status) && !Exceptional(MNext(p).status)
  {
    hide MNext, Exceptional;
  }

  // ------------------------------------------------------------------------------------------
  // The wrong turn

  /** A jump that shows the pattern is decoded with its flag set, while the address of its target is fetched
      next. */
  ghost predicate WrongTurn(q: Cpu, s: State, k: nat) {
    && q.d == DAt(Run(s, k)) && q.e.status != BUB && !Mispredicted(q.e, Take(q)) && Flag(q.m) == 1
    && q.pc == DAt(Run(s, k)).valc
  }

  lemma Pattern(s: State, k: nat)
    requires Misflagged(s, k)
    ensures k >= 2 && StoresPositive(Run(s, k - 2)) && NotTakenJump(Run(s, k))
    ensures DAt(Run(s, k - 1)).icode != I_RET && DAt(Run(s, k - 1)).icode != I_ALU && !FoundWrong(s, k - 1)
  {
    hide Run, FetchAt, StoresPositive, Apart, FoundWrong;
    assert Flagged(s, k);
    assert k >= 2 && !Apart(s, k);
    if DAt(Run(s, k - 1)).icode == I_RET || FoundWrong(s, k - 1) {
      AfterWrong(s, k - 1);
    }
  }

  /** With the store in execute, the instruction behind it is in decode and moves on, and the jump is fetched. */
  lemma JumpIsFetched(p: Cpu, s: State, n: nat)
    requires Fit(s) && Sim(p, s, n) && Calm(p) && OkAt(s, AtE(p, n)) && OkAt(s, AtE(p, n) + 1)
    requires p.e.status != BUB && Misflagged(s, AtE(p, n) + 2)
    ensures WrongTurn(Cycle(p), s, AtE(p, n) + 2)
  {
    hide Run, Fit, Supported, FetchStable, Sim, WSlot, MSlot, ESlot, Step, StepStat, MemoryStage, FetchAt, ComputeCc,
      ComputeAlu, CondHolds, Forward, WriteBack, CcAfter, MemAfter, MNext, StoresPositive, DStall, OkAt;
    var j, q := AtE(p, n), Cycle(p);
    Pattern(s, j + 2);
    StepMemory(p, s, n);
    ReachedOk(s, j);
    EFacts(p.e, Run(s, j));
    StoreInExecute(p.e, Run(s, j));
    assert Flows(p) by { StoreFlows(p); }
    NextExecute(p, s, n);
    StoreBehind(p, s, n);
    assert AtD(p, n) == j + 1 && AtF(p, n) == j + 2;
    assert !RetInPipe(p.d, p.e, p.m) by { NoReturnAhead(p, s, n); }
    if p.d.icode == I_JMP {
      FoundRight(p, s, n);
    }
    StepExecute(p, s, n);
    StillRight(p, s, n);
    NextDecode(p, s, n);
    assert q.d == FNext(p) == DAt(Run(s, j + 2)) by { JumpLoads(p); }
    assert q.pc == PredPc(FNext(p), p.d, p.e) by { JumpLoads(p); }
    assert q.m == ENext(p);
    assert Flag(q.m) == 1;
  }

  lemma StoreInExecute(e: IdEx, s: State)
    requires Supported(s) && ESlot(e, s) && e.status != BUB && StoresPositive(s)
    ensures e.icode == I_RMMOVQ && e.vala > 0
  {
    NoOtherStores(e, s);
    StoreFacts(e, s);
  }

  lemma StoreFlows(p: Cpu)
    requires p.e.icode == I_RMMOVQ
    ensures Flows(p)
  {
  }

  lemma NoReturnAhead(p: Cpu, s: State, n: nat)
    requires SimE(p, s, AtE(p, n)) && p.e.icode == I_RMMOVQ && p.d.icode != I_RET
    ensures !RetInPipe(p.d, p.e, p.m)
  {
    hide Run, ESlot, SimD;
  }

  /** The instruction behind the store is not found wrong when it comes to execute. */
  lemma StillRight(p: Cpu, s: State, n: nat)
    requires Cycle(p).e == DNext(p)
    requires p.d.icode == I_JMP ==> !Mispredicted(Cycle(p).e, Take(Cycle(p)))
    ensures !Mispredicted(Cycle(p).e, Take(Cycle(p)))
  {
    hide Cycle, Take, Forward, FetchAt;
  }

  lemma JumpLoads(p: Cpu)
    requires Flows(p) && !RetInPipe(p.d, p.e, p.m)
    ensures Cycle(p).d == FNext(p) && Cycle(p).pc == PredPc(FNext(p), p.d, p.e)
  {
    hide FetchAt, Take;
  }

  /** Where the ISA goes behind such a jump is where a pipeline at its place in the run would fetch next. */
  lemma PlaceOfFetch(q: Cpu, s: State, n: nat, k: nat)
    requires Fit(s) && Sim(q, s, n) && Reached(s, k) && AtD(q, n) == k && AtE(q, n) < k
    requires NotTakenJump(Run(s, k)) && q.d == DAt(Run(s, k)) && Flag(q.m) == 1 && !Mispredicted(q.e, Take(q))
    ensures q.pc == DAt(Run(s, k)).valp
  {
    hide Run, Fit, Supported, FetchStable, WSlot, MSlot, ESlot, DSlot, Sim, Step, StepStat, MemoryStage, FetchAt,
      CondHolds, MNext, Take, Flag;
    CalmBefore(q, s, n, k);
    StepMemory(q, s, n);
    ReachedOk(s, k);
    JumpIsOk(Run(s, k));
    OneStep(s, k);
    assert SimD(q, s, k);
    assert SimF(q, s, k, k + 1) by { FetchIsReal(Run(s, k)); }
  }

  /** After a wrong turn the pipeline is not where the ISA is. */
  lemma WrongTurnStrays(q: Cpu, s: State, n: nat, k: nat)
    requires Fit(s) && Reached(s, k) && Misflagged(s, k) && WrongTurn(q, s, k) && AtD(q, n) == k && AtE(q, n) < k
    ensures !Sim(q, s, n)
  {
    hide Run, Fit, Sim, FetchAt, Take, Flag, NotTakenJump, Flagged;
    if Sim(q, s, n) {
      PlaceOfFetch(q, s, n, k);
    }
  }

  lemma OneStep(s: State, k: nat)
    ensures Run(s, k + 1) == Step(Run(s, k)).0
  {
  }

  /** A jump does not fault and, if it is not taken, goes to the next instruction. */
  lemma JumpIsOk(s: State)
    requires Supported(s) && NotTakenJump(s)
    ensures StepStat(s) == AOK && Step(s).0.pc == DAt(s).valp
  {
    hide FetchAt;
    var d := DAt(s);
    var e := DecodeWith(d, d.valp, 0);
    JumpFacts(e, s);
  }

  /** One cycle after the store was in execute the pipeline has strayed. */
  lemma StraysAfter(s: State, k: nat, t: nat)
    requires Fit(s) && Reached(s, k) && Misflagged(s, k) && k >= 2 && InExecute(s, t, k - 2)
    requires Sim(Cycles(Start(s), t), s, Retired(Start(s), t))
    ensures Running(Start(s), t + 1) && !Sim(Cycles(Start(s), t + 1), s, Retired(Start(s), t + 1))
  {
    hide Sim, Fit, Cycle, Run, Misflagged, WrongTurn, Calm, OkAt;
    var p, n := Cycles(Start(s), t), Retired(Start(s), t);
    CalmBefore(p, s, n, k);
    CalmIsRunning(p);
    OkBelow(s, k, k - 1);
    JumpIsFetched(p, s, n);
    ExecuteMoves(p, s, n);
    var q, m := Cycles(Start(s), t + 1), Retired(Start(s), t + 1);
    assert q == Cycle(p) && m == Next(n, p.w.status);
    TurnsBehind(q, s, m, k);
    WrongTurnStrays(q, s, m, k);
  }

  /** The program does not follow the ISA if some jump shows the pattern. */
  lemma FlaggedStrays(s: State, k: nat)
    requires Fit(s) && Reached(s, k) && Misflagged(s, k)
    ensures !Follows(s)
  {
    hide Sim, Fit, Follows, Cycle, Cycles, Retired, Run, Misflagged, InExecute, Reached, Running;
    AfterTwo(s, k);
    OkUpTo(s, k, k - 2, BUB);
    if Follows(s) {
      var t := ComesToExecute(s, k - 2);
      InExecuteRuns(s, t, k - 2);
      FollowsAt(s, t);
      StraysAfter(s, k, t);
      FollowsAt(s, t + 1);
    }
  }

  lemma InExecuteRuns(s: State, t: nat, k: nat)
    requires InExecute(s, t, k)
    ensures Running(Start(s), t)
  {
  }

  lemma AfterTwo(s: State, k: nat)
    requires Misflagged(s, k)
    ensures k >= 2
  {
  }

  lemma TurnsBehind(q: Cpu, s: State, n: nat, k: nat)
    requires WrongTurn(q, s, k) && AtE(q, n) == k - 1
    ensures AtD(q, n) == k
  {
  }

  // ------------------------------------------------------------------------------------------
  // Operands without a base register

  /** What is in execute was in decode one cycle before and moved on. */
  lemma CameFromDecode(p: Cpu, s: State, n: nat)
    requires Fit(s) && Sim(p, s, n) && Calm(p) && Cycle(p).e.status != BUB
    ensures Flows(p) && p.d.status != BUB && Cycle(p).e == DNext(p)
    ensures AtD(p, n) == AtE(Cycle(p), Next(n, p.w.status))
  {
    hide Run, Fit, Supported, FetchStable, Sim, WSlot, MSlot, FetchAt, ComputeCc, ComputeAlu, Forward, MNext, WriteBack,
      CcAfter, MemAfter, Take;
    ExecuteMoves(p, s, n);
  }

  /** An operand that is given something else than 0 for its missing base register is not the ISA's. */
  lemma WrongBase(p: Cpu, s: State, n: nat, k: nat)
    requires Fit(s) && Sim(p, s, n) && Calm(p) && Cycle(p).e.status != BUB && AtD(p, n) == k && Reached(s, k)
    requires NoBase(DAt(Run(s, k))) && Nowhere(s, k) != 0
    ensures !Sim(Cycle(p), s, Next(n, p.w.status))
  {
    hide Run, Fit, Supported, FetchStable, Sim, WSlot, MSlot, FetchAt, ComputeCc, ComputeAlu, Forward, MNext, WriteBack,
      CcAfter, MemAfter, Take, Nowhere, Cycle, ENext, Flows, Reached;
    var q, m := Cycle(p), Next(n, p.w.status);
    CameFromDecode(p, s, n);
    CalmIsRunning(p);
    AheadIsOk(p, s, n, k);
    NextExecute(p, s, n);
    assert p.d == DAt(Run(s, k)) by { DecodeHolds(p, s, k); }
    NowhereForwarded(p, s, n);
    NoBaseOperand(p, s, n);
    assert q.e.valb != 0;
    if Sim(q, s, m) {
      OperandOf(q, s, m, k);
    }
  }

  lemma AheadIsOk(p: Cpu, s: State, n: nat, k: nat)
    requires AtD(p, n) == k && Reached(s, k)
    ensures p.e.status == BUB || OkAt(s, AtE(p, n))
  {
    hide OkAt, Reached;
    if p.e.status != BUB {
      OkBelow(s, k, AtE(p, n));
    }
  }

  lemma DecodeHolds(p: Cpu, s: State, k: nat)
    requires SimD(p, s, k) && p.d.status != BUB
    ensures p.d == DAt(Run(s, k))
  {
    hide Run, FetchAt;
  }

  /** In a pipeline that is at its place it would be 0. */
  lemma OperandOf(q: Cpu, s: State, n: nat, k: nat)
    requires Fit(s) && Sim(q, s, n) && AtE(q, n) == k && Reached(s, k) && q.e.status != BUB && NoBase(DAt(Run(s, k)))
    ensures q.e.valb == 0
  {
    hide Run, Fit, Supported, FetchStable, Sim, WSlot, MSlot, FetchAt, ExecuteStage, MemoryStage, SimD;
    CalmBefore(q, s, n, k);
    StepMemory(q, s, n);
  }

  /** One cycle before it comes to execute the pipeline is at its place, and one cycle later it is not. */
  lemma BaseStrays(s: State, k: nat)
    requires Fit(s) && Reached(s, k) && NoBase(DAt(Run(s, k))) && Nowhere(s, k) != 0
    ensures !Follows(s)
  {
    hide Sim, Fit, Follows, Cycle, Cycles, Retired, Run, InExecute, Reached, Running, Nowhere, NoBase, Calm;
    if Follows(s) {
      var t := ComesToExecute(s, k);
      NotAtStart(s, t, k);
      var p, n := Cycles(Start(s), t - 1), Retired(Start(s), t - 1);
      FollowsAt(s, t - 1);
      FollowsAt(s, t);
      EarlierIsCalm(s, t, k);
      CameFromDecode(p, s, n);
      WrongBase(p, s, n, k);
    }
  }

  lemma NotAtStart(s: State, t: nat, k: nat)
    requires InExecute(s, t, k)
    ensures t > 0 && Running(Start(s), t) && Running(Start(s), t - 1)
  {
  }

  lemma EarlierIsCalm(s: State, t: nat, k: nat)
    requires Fit(s) && Follows(s) && InExecute(s, t, k) && t > 0 && Reached(s, k) && Running(Start(s), t - 1)
    ensures var p, n := Cycles(Start(s), t - 1), Retired(Start(s), t - 1);
      && Calm(p) && Cycles(Start(s), t) == Cycle(p) && Retired(Start(s), t) == Next(n, p.w.status)
      && Cycle(p).e.status != BUB && AtE(Cycle(p), Next(n, p.w.status)) == k
  {
    hide Sim, Fit, Follows, Cycle, Run, Reached, Running, Calm;
    var p, n := Cycles(Start(s), t - 1), Retired(Start(s), t - 1);
    FollowsAt(s, t - 1);
    NotExceptionalBefore(s, t);
    assert Cycles(Start(s), t) == Cycle(p) && Retired(Start(s), t) == Next(n, p.w.status);
    ExecuteGoesUp(p, n);
    CalmBefore(p, s, n, k);
  }

  lemma NotExceptionalBefore(s: State, t: nat)
    requires t > 0 && InExecute(s, t, AtE(Cycles(Start(s), t), Retired(Start(s), t)))
    ensures !Exceptional(Cycles(Start(s), t - 1).w.status)
  {
    hide Cycle, Exceptional;
    assert Running(Start(s), t);
  }

  /** The step in execute only goes up. */
  lemma ExecuteGoesUp(p: Cpu, n: nat)
    requires !Exceptional(p.w.status)
    ensures AtE(p, n) <= AtE(Cycle(p), Next(n, p.w.status))
  {
    hide FetchAt, ExecuteStage, ComputeCc, Forward, WriteBack, CcAfter, MemAfter;
    if p.m.status != BUB {
      MemoryIsReal(p.m, p.mem);
    }
  }

  /** The pipeline follows the ISA on a program that meets the other hypotheses, from reset and through every
      cycle, exactly when no jump the ISA gets to shows the pattern and no operand without base register gets
      anything but 0 for it. */
  lemma FollowsExactly(s: State)
    requires Fit(s) && s.pc == 0
    ensures Follows(s) <==> Unflagged(s) && Based(s)
  {
    hide Fit, Follows, Misflagged, Nowhere;
    if !Unflagged(s) {
      var k: nat :| Reached(s, k) && Misflagged(s, k);
      FlaggedStrays(s, k);
    } else if !Based(s) {
      var k: nat :| Reached(s, k) && !BaseOk(s, k);
      BaseStrays(s, k);
    } else {
      assert Program(s);
      ProgramFollows(s);
    }
  }
}
