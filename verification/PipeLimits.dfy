/** Where the pipeline does not follow the ISA: a jump whose flag and prediction disagree, a memory operand
    without a base register, a stack address that faults, an iaddq with a function code, and an instruction at
    the end of memory. */
module PipeLimits {
  import opened Bytes
  import opened Y86Words
  import opened Isa
  import opened Pipe
  import opened PipeSpec
  import opened PipeRefines
  import opened PipeRuns

  // ------------------------------------------------------------------------------------------
  // Jumps

  /** A jump is fetched in `p`, decoded in the next cycle and executed in the one after. */
  ghost predicate JumpFlows(p: Cpu) {
    var q := Cycle(p);
    && FNext(p).icode == I_JMP
    && PcOp(p) == DOp(p) == MOp(p) == LOAD
    && PcOp(q) == DOp(q) == EOp(q) == LOAD
  }

  /** The address the pipeline goes on with after the jump fetched in `p`: the predicted one, unless the
      jump is found wrong when it is executed. */
  ghost function Continuation(p: Cpu): word {
    var r := Cycle(Cycle(p));
    if Mispredicted(r.e, Take(r)) then ENext(r).vala else Cycle(p).pc
  }

  /** The pipeline goes on where the jump goes, except exactly when the jump is not taken, its target is not
      the next instruction, and a store of a positive value is two instructions ahead of it without an
      ALU instruction in between. */
  lemma JumpFollows(p: Cpu)
    requires JumpFlows(p)
    ensures var j, taken := FNext(p), Take(Cycle(Cycle(p)));
      Continuation(p) == (if taken then j.valc else j.valp) <==>
        !(!taken && j.valc != j.valp && p.e.icode == I_RMMOVQ && p.e.vala > 0 && p.d.icode != I_ALU)
  {
    var q := Cycle(p);
    var r := Cycle(q);
    assert q.d == FNext(p) && q.m == ENext(p) && q.pc == PredPc(FNext(p), p.d, p.e) by { Loaded(p); }
    assert r.e == DNext(q) by { Loaded(q); }
    hide FetchAt, ComputeCc, ComputeAlu, CondHolds, WriteBack, CcAfter, MemAfter, Forward, FNext, Cycle, MNext, Take;
    assert Flag(q.m) == if p.e.icode == I_RMMOVQ && p.e.vala > 0 then 1 else 0;
    assert r.e.icode == I_JMP && r.e.valb == Flag(q.m) && r.e.vala == FNext(p).valp && r.e.valc == FNext(p).valc;
  }

  lemma Loaded(p: Cpu)
    ensures PcOp(p) == LOAD ==> Cycle(p).pc == PredPc(FNext(p), p.d, p.e)
    ensures DOp(p) == LOAD ==> Cycle(p).d == FNext(p)
    ensures EOp(p) == LOAD ==> Cycle(p).e == DNext(p)
    ensures MOp(p) == LOAD ==> Cycle(p).m == ENext(p)
  {
  }

  /** A program on which that happens:
        0: rmmovq %rax,(%rbx)   10: nop   11: jne 30   20: halt   30: rrmovq %rax,%rcx   32: halt */
  ghost predicate Sample(m: Mem) {
    && |m| >= 64
    && m[0] == 0x40 && m[1] == 0x03 && m[2..10] == [0, 0, 0, 0, 0, 0, 0, 0] && m[10] == 0x10
    && m[11] == 0x74 && m[12..20] == [30, 0, 0, 0, 0, 0, 0, 0] && m[20] == 0x00
    && m[30] == 0x20 && m[31] == 0x01 && m[32] == 0x00
  }

  const STORE_D := IfId(I_RMMOVQ, 0, 0, 3, 0, 10, AOK)
  const NOP_D := IfId(I_NOP, 0, REG_NONE, REG_NONE, 0, 11, AOK)
  const JUMP_D := IfId(I_JMP, C_NE, REG_NONE, REG_NONE, 30, 20, AOK)
  const MOVE_D := IfId(I_RRMOVQ, 0, 0, 1, 0, 32, AOK)

  predicate HaltD(d: IfId, next: word) { d == IfId(I_HALT, 0, REG_NONE, REG_NONE, 0, next, HLT) }

  lemma SampleFetch(m: Mem)
    requires Sample(m)
    ensures FetchAt(m, 0) == STORE_D && FetchAt(m, 10) == NOP_D && FetchAt(m, 11) == JUMP_D
    ensures HaltD(FetchAt(m, 20), 21) && FetchAt(m, 30) == MOVE_D && HaltD(FetchAt(m, 32), 33)
  {
    hide Sample, FetchAt, HaltD;
    FetchStore(m);
    FetchJump(m);
    FetchOthers(m);
  }

  lemma FetchStore(m: Mem)
    requires Sample(m)
    ensures FetchAt(m, 0) == STORE_D
  {
    SmallWord(m, 2, 0);
    hide GetWord;
    assert FetchAt(m, 0) == STORE_D;
  }

  lemma FetchJump(m: Mem)
    requires Sample(m)
    ensures FetchAt(m, 11) == JUMP_D
  {
    SmallWord(m, 12, 30);
    hide GetWord;
    assert FetchAt(m, 11) == JUMP_D;
  }

  lemma FetchOthers(m: Mem)
    requires Sample(m)
    ensures FetchAt(m, 10) == NOP_D && HaltD(FetchAt(m, 20), 21)
    ensures FetchAt(m, 30) == MOVE_D && HaltD(FetchAt(m, 32), 33)
  {
    hide GetWord;
    assert FetchAt(m, 10) == NOP_D;
    assert HaltD(FetchAt(m, 20), 21);
    assert FetchAt(m, 30) == MOVE_D;
    assert HaltD(FetchAt(m, 32), 33);
  }

  lemma SmallWord(m: Mem, p: nat, b: byte)
    requires p + 8 <= |m| && m[p..p + 8] == [b, 0, 0, 0, 0, 0, 0, 0]
    ensures GetWord(m, p) == b
  {
    var s := m[p..p + 8];
    ZeroBytes(s[1..]);
    WrapIsWord(b);
  }

  lemma {:induction false} ZeroBytes(s: seq<byte>)
    requires forall i :: 0 <= i < |s| ==> s[i] == 0
    ensures LittleEndian(s) == 0
  {
    if s != [] {
      ZeroBytes(s[1..]);
    }
  }

  /** The registers the sample starts with: 1 to store and to copy, an address behind the code. */
  predicate SampleRegs(r: Regs) { r[0] == 1 && r[1] == 0 && r[3] == 48 }

  ghost predicate Sampling(p: Cpu) { Sample(p.mem) && SampleRegs(p.r) && p.cc == DEFAULT_CC }

  /** An instruction without effect in a stage. */
  predicate IdleE(e: IdEx) { e.icode == I_NOP && e.status == AOK && e.deste == REG_NONE && e.destm == REG_NONE }

  predicate IdleM(m: ExMem) { m.icode == I_NOP && m.status == AOK && m.deste == REG_NONE && m.destm == REG_NONE }

  predicate IdleW(w: MemWb, icode: int) {
    w.icode == icode && w.status == AOK && w.deste == REG_NONE && w.destm == REG_NONE
  }

  ghost predicate At2(p: Cpu) {
    && Sampling(p) && p.pc == 11 && p.d == NOP_D && p.e == IdEx(I_RMMOVQ, 0, 0, 1, 48, 0, 3, REG_NONE, REG_NONE, AOK)
    && BubbleM(p.m) && BubbleW(p.w)
  }

  ghost predicate At3(p: Cpu) {
    && Sampling(p) && p.pc == 30 && p.d == JUMP_D && IdleE(p.e)
    && p.m == ExMem(I_RMMOVQ, 0, true, 48, 1, REG_NONE, REG_NONE, AOK) && BubbleW(p.w)
  }

  ghost predicate At4(p: Cpu) {
    && Sampling(p) && p.pc == 32 && p.d == MOVE_D
    && p.e == IdEx(I_JMP, C_NE, 30, 20, 1, REG_NONE, REG_NONE, REG_NONE, REG_NONE, AOK)
    && IdleM(p.m) && IdleW(p.w, I_RMMOVQ)
  }

  ghost predicate At5(p: Cpu) {
    && Sampling(p) && p.pc == 33 && HaltD(p.d, 33)
    && p.e.icode == I_RRMOVQ && p.e.ifun == 0 && p.e.vala == 1 && p.e.deste == 1 && p.e.destm == REG_NONE
    && p.e.status == AOK
    && p.m == ExMem(I_JMP, C_NE, false, 1, 30, REG_NONE, REG_NONE, AOK) && IdleW(p.w, I_NOP)
  }

  ghost predicate At6(p: Cpu) {
    && p.e.icode == I_HALT && p.e.status == HLT && p.e.deste == REG_NONE && p.e.destm == REG_NONE
    && p.m.icode == I_RRMOVQ && p.m.vale == 1 && p.m.deste == 1 && p.m.destm == REG_NONE && p.m.status == AOK
    && IdleW(p.w, I_JMP)
  }

  ghost predicate At1(p: Cpu) {
    && Sampling(p) && p.pc == 10 && p.d == STORE_D
    && BubbleE(p.e) && BubbleM(p.m) && BubbleW(p.w)
  }

  lemma From0(p: Cpu)
    requires Sampling(p) && p == Initial(p.r, p.mem, p.cc)
    ensures At1(Cycle(p))
  {
    SampleFetch(p.mem);
    hide FetchAt, GetWord, Sample, ComputeCc, ComputeAlu, Splice, Forward;
    assert At1(Cycle(p));
  }

  lemma From1(p: Cpu)
    requires At1(p)
    ensures At2(Cycle(p))
  {
    SampleFetch(p.mem);
    hide FetchAt, GetWord, Sample, ComputeCc, Splice;
    assert At2(Cycle(p));
  }

  lemma At2Idle(p: Cpu)
    requires At2(p)
    ensures p.w.status == BUB
  {
  }

  lemma From2(p: Cpu)
    requires At2(p)
    ensures At3(Cycle(p))
  {
    SampleFetch(p.mem);
    hide FetchAt, GetWord, Sample, ComputeCc, Splice;
  }

  lemma From3(p: Cpu)
    requires At3(p)
    ensures At4(Cycle(p))
  {
    SampleFetch(p.mem);
    SampleKept(p.mem);
    hide FetchAt, GetWord, Sample, SetWord;
  }

  lemma SampleKept(m: Mem)
    requires Sample(m)
    ensures Sample(SetWord(m, 48, 1))
  {
    var n := SetWord(m, 48, 1);
    assert n[2..10] == m[2..10] && n[12..20] == m[12..20];
  }

  lemma From4(p: Cpu)
    requires At4(p)
    ensures At5(Cycle(p))
  {
    From4Back(p);
    From4Front(p);
    hide Cycle, At4, Sampling;
    assert At5(Cycle(p));
  }

  /** The jump leaves execute not taken and is not found wrong. */
  lemma From4Back(p: Cpu)
    requires At4(p)
    ensures var q := Cycle(p);
      q.m == ExMem(I_JMP, C_NE, false, 1, 30, REG_NONE, REG_NONE, AOK) && IdleW(q.w, I_NOP) && Sampling(q)
    ensures !Mispredicted(p.e, Take(p)) && !Exceptional(MNext(p).status)
  {
    hide FetchAt, GetWord, Sample, ComputeCc, Splice, Forward;
  }

  lemma From4Front(p: Cpu)
    requires At4(p) && !Mispredicted(p.e, Take(p))
    ensures var q := Cycle(p);
      && q.pc == 33 && HaltD(q.d, 33)
      && q.e.icode == I_RRMOVQ && q.e.ifun == 0 && q.e.vala == 1 && q.e.deste == 1 && q.e.destm == REG_NONE
      && q.e.status == AOK
  {
    SampleFetch(p.mem);
    hide FetchAt, GetWord, Sample, ComputeCc, Splice, Take, MemAfter, CcAfter, Mispredicted;
  }

  lemma From5(p: Cpu)
    requires At5(p)
    ensures At6(Cycle(p))
  {
    hide FetchAt, GetWord, Sample, ComputeCc, Splice;
    WrapIsWord(1);
  }

  lemma From6(p: Cpu)
    requires At6(p)
    ensures var q := Cycle(p); var t := Cycle(q);
      && !Exceptional(p.w.status) && !Exceptional(q.w.status) && t.w.status == HLT && GetReg(t.r, 1) == 1
  {
    hide FetchAt, GetWord;
    var q := Cycle(p);
    assert q.w.icode == I_RRMOVQ && q.w.vale == 1 && q.w.deste == 1 && q.w.destm == REG_NONE && q.w.status == AOK;
    assert q.m.icode == I_HALT && q.m.status == HLT;
  }

  /** The pipeline halts on the sample with register 1 set, having run the instruction at the jump's target. */
  lemma SampleInPipeline(r: Regs, m: Mem)
    requires Sample(m) && SampleRegs(r)
    ensures var p := Initial(r, m, DEFAULT_CC);
      Running(p, 8) && Cycles(p, 8).w.status == HLT && GetReg(Cycles(p, 8).r, 1) == 1
  {
    hide Cycle, At2, Sample;
    var p := Initial(r, m, DEFAULT_CC);
    From0(p);
    assert At1(Cycles(p, 1)) by { assert Cycles(p, 0) == p && Cycles(p, 1) == Cycle(p); }
    From1(Cycles(p, 1));
    assert At2(Cycles(p, 2)) by { assert Cycles(p, 2) == Cycle(Cycles(p, 1)); }
    From2(Cycles(p, 2));
    assert At3(Cycles(p, 3)) by { assert Cycles(p, 3) == Cycle(Cycles(p, 2)); }
    From3(Cycles(p, 3));
    assert At4(Cycles(p, 4)) by { assert Cycles(p, 4) == Cycle(Cycles(p, 3)); }
    From4(Cycles(p, 4));
    assert At5(Cycles(p, 5)) by { assert Cycles(p, 5) == Cycle(Cycles(p, 4)); }
    From5(Cycles(p, 5));
    assert At6(Cycles(p, 6)) by { assert Cycles(p, 6) == Cycle(Cycles(p, 5)); }
    From6(Cycles(p, 6));
    assert Cycles(p, 7) == Cycle(Cycles(p, 6)) && Cycles(p, 8) == Cycle(Cycles(p, 7));
    assert !Exceptional(Cycles(p, 0).w.status) && !Exceptional(Cycles(p, 2).w.status) by { At2Idle(Cycles(p, 2)); }
    assert Running(p, 1) && Running(p, 2) && Running(p, 3) && Running(p, 4);
    assert Running(p, 5) && Running(p, 6) && Running(p, 7) && Running(p, 8);
  }

  /** The ISA halts on it with register 1 as it was. */
  lemma SampleInIsa(r: Regs, m: Mem)
    requires Sample(m) && SampleRegs(r)
    ensures var s := State(0, r, m, DEFAULT_CC);
      Reached(s, 3) && StepStat(Run(s, 3)) == HLT && GetReg(Run(s, 4).r, 1) == 0
  {
    var s := State(0, r, m, DEFAULT_CC);
    SampleStep(s);
    var s1 := Step(s).0;
    SampleKept(m);
    SampleStep(s1);
    var s2 := Step(s1).0;
    SampleStep(s2);
    var s3 := Step(s2).0;
    SampleStep(s3);
    hide Step;
    assert Run(s, 0) == s && Run(s, 1) == s1 && Run(s, 2) == s2 && Run(s, 3) == s3 && Run(s, 4) == Step(s3).0;
    assert Reached(s, 0) && Reached(s, 1) && Reached(s, 2) && Reached(s, 3);
  }

  /** The sample is outside the programs covered only by that pattern: its jump is the one that is excluded. */
  lemma SampleExcluded(r: Regs, m: Mem)
    requires Sample(m) && SampleRegs(r)
    ensures var s := State(0, r, m, DEFAULT_CC); Reached(s, 2) && Misflagged(s, 2)
  {
    hide Sample, Run, FetchAt, Misflagged, Reached;
    SampleStates(r, m);
    SampleShows(State(0, r, m, DEFAULT_CC));
  }

  lemma SampleStates(r: Regs, m: Mem)
    requires Sample(m) && SampleRegs(r)
    ensures var s := State(0, r, m, DEFAULT_CC);
      && Reached(s, 2) && GetReg(Run(s, 0).r, 0) == 1 && Run(s, 2).cc == DEFAULT_CC
      && DAt(Run(s, 0)) == STORE_D && DAt(Run(s, 1)) == NOP_D && DAt(Run(s, 2)) == JUMP_D
  {
    var s := State(0, r, m, DEFAULT_CC);
    SampleStep(s);
    var s1 := Step(s).0;
    SampleKept(m);
    SampleStep(s1);
    var s2 := Step(s1).0;
    SampleFetch(s.m);
    SampleFetch(s1.m);
    SampleFetch(s2.m);
    assert StepStat(s) == AOK && StepStat(s1) == AOK;
    hide Step, FetchAt, Sample, StepStat, SetWord;
    assert Run(s, 0) == s && Run(s, 1) == s1 && Run(s, 2) == s2;
    assert Reached(s, 0) && Reached(s, 1) && Reached(s, 2);
  }

  lemma SampleShows(s: State)
    requires GetReg(Run(s, 0).r, 0) == 1 && Run(s, 2).cc == DEFAULT_CC
    requires DAt(Run(s, 0)) == STORE_D && DAt(Run(s, 1)) == NOP_D && DAt(Run(s, 2)) == JUMP_D
    ensures Misflagged(s, 2)
  {
    hide Run, FetchAt, Apart, FoundWrong;
    NotJump(s, 1);
    NotApart(s, 1);
    assert NotTakenJump(Run(s, 2)) && StoresPositive(Run(s, 0));
    assert Flagged(s, 2);
  }

  lemma SampleStep(s: State)
    requires Sample(s.m) && SampleRegs(s.r) && s.cc == DEFAULT_CC && s.pc in {0, 10, 11, 20}
    ensures Step(s) ==
      if s.pc == 0 then (s.(m := SetWord(s.m, 48, 1), pc := 10), AOK)
      else if s.pc == 10 then (s.(pc := 11), AOK)
      else if s.pc == 11 then (s.(pc := 20), AOK)
      else (s, HLT)
  {
    SampleFetch(s.m);
    SampleSupported(s);
    FetchDecodes(s);
    SampleExecute(s, Decode(s.m, s.pc));
    hide FetchAt, Decode, Sample, Execute;
    assert Step(s) == Execute(s, Decode(s.m, s.pc));
  }

  lemma SampleExecute(s: State, i: Instr)
    requires |s.m| >= 64 && SampleRegs(s.r) && s.cc == DEFAULT_CC && i.okRegs && i.okImm
    ensures Fetched(i) == STORE_D ==> Execute(s, i) == (s.(m := SetWord(s.m, 48, 1), pc := 10), AOK)
    ensures Fetched(i) == NOP_D ==> Execute(s, i) == (s.(pc := 11), AOK)
    ensures Fetched(i) == JUMP_D ==> Execute(s, i) == (s.(pc := 20), AOK)
    ensures HaltD(Fetched(i), 21) ==> Execute(s, i) == (s, HLT)
  {
  }

  lemma SampleSupported(s: State)
    requires Sample(s.m) && s.pc in {0, 10, 11, 20}
    ensures Supported(s)
  {
    hide GetWord;
  }

  // ------------------------------------------------------------------------------------------
  // Operands without a base register

  /** The newest pending value that goes to no register. */
  function NewestNowhere(p: Cpu): word {
    if ENext(p).deste == REG_NONE then ENext(p).vale
    else if p.m.destm == REG_NONE then MNext(p).valm
    else if p.m.deste == REG_NONE then p.m.vale
    else if p.w.destm == REG_NONE then p.w.valm
    else if p.w.deste == REG_NONE then p.w.vale
    else 0
  }

  /** An rmmovq or mrmovq without a base register is given its constant as address, as in the ISA, exactly
      when the newest pending result without a destination is zero: that result is forwarded as its base. */
  lemma NoBaseAddress(p: Cpu)
    requires (p.d.icode == I_RMMOVQ || p.d.icode == I_MRMOVQ) && p.d.rb == REG_NONE
    ensures ExecuteStage(DNext(p), p.cc).vale == p.d.valc <==> NewestNowhere(p) == 0
  {
    hide FetchAt, ComputeCc, CondHolds;
    var e := DNext(p);
    assert GetReg(p.r, REG_NONE) == 0;
    assert e.valb == NewestNowhere(p);
    assert ExecuteStage(e, p.cc).vale == Wrap(p.d.valc + NewestNowhere(p));
    AddsNothing(p.d.valc, NewestNowhere(p));
  }

  lemma AddsNothing(a: word, b: word)
    ensures Wrap(a + b) == a <==> b == 0
  {
  }

  /** A program on which that happens:
        0: rmmovq %rax,(%rbx)   10: mrmovq 40,%rcx   20: halt */
  ghost predicate Absolute(m: Mem) {
    && |m| >= 96
    && m[0] == 0x40 && m[1] == 0x03 && m[2..10] == [0, 0, 0, 0, 0, 0, 0, 0]
    && m[10] == 0x50 && m[11] == 0x1F && m[12..20] == [40, 0, 0, 0, 0, 0, 0, 0] && m[20] == 0x00
  }

  const LOAD_D := IfId(I_MRMOVQ, 0, 1, REG_NONE, 40, 20, AOK)

  lemma AbsoluteDecodes(m: Mem)
    requires Absolute(m)
    ensures Fetched(Decode(m, 0)) == STORE_D && Fetched(Decode(m, 10)) == LOAD_D
    ensures HaltD(Fetched(Decode(m, 20)), 21)
    ensures forall pc {:trigger Decode(m, pc)} :: pc in {0, 10, 20} ==> Decode(m, pc).okRegs && Decode(m, pc).okImm
  {
    SmallWord(m, 2, 0);
    SmallWord(m, 12, 40);
    hide GetWord;
  }

  lemma AbsoluteFetch(m: Mem)
    requires Absolute(m)
    ensures FetchAt(m, 0) == STORE_D && FetchAt(m, 10) == LOAD_D && HaltD(FetchAt(m, 20), 21)
  {
    AbsoluteDecodes(m);
    WholeFetched(m, 0);
    WholeFetched(m, 10);
    WholeFetched(m, 20);
    hide FetchAt, Decode;
  }

  lemma WholeFetched(m: Mem, pc: word)
    requires 0 <= pc && pc + 10 <= |m|
    ensures FetchAt(m, pc) == Fetched(Decode(m, pc))
  {
    hide GetWord;
    WrapIsWord(pc + 1);
    WrapIsWord(pc + 2);
    WrapIsWord(pc + 5);
    WrapIsWord(pc + 9);
    WrapIsWord(pc + 10);
  }

  /** The store, which goes behind the code, leaves the program and both words in question alone. */
  lemma AbsoluteKept(m: Mem, v: word)
    requires Absolute(m)
    ensures var n := SetWord(m, 48, v);
      Absolute(n) && GetWord(n, 40) == GetWord(m, 40) && GetWord(n, 88) == GetWord(m, 88)
  {
    var n := SetWord(m, 48, v);
    assert |n| == |m| && n[..48] == m[..48] by { hide Unsigned; }
    SetGetWord(m, 48, v, 40);
    SetGetWord(m, 48, v, 88);
    hide SetWord, GetWord;
    SameStart(m, n);
  }

  lemma SameStart(m: Mem, n: Mem)
    requires Absolute(m) && |n| == |m| && n[..48] == m[..48]
    ensures Absolute(n)
  {
    assert n[..48][2..10] == n[2..10] && n[..48][12..20] == n[12..20];
    assert m[..48][2..10] == m[2..10] && m[..48][12..20] == m[12..20];
    forall i | 0 <= i < 48 ensures n[i] == m[i] {
      assert n[i] == n[..48][i] && m[i] == m[..48][i];
    }
  }

  ghost predicate Loading(p: Cpu, r: Regs, m: Mem) {
    Absolute(p.mem) && GetWord(p.mem, 88) == GetWord(m, 88) && p.r == r && r[3] == 48
  }

  ghost predicate Load1(p: Cpu, r: Regs, m: Mem) {
    && Loading(p, r, m) && p.pc == 10 && p.d == STORE_D
    && BubbleE(p.e) && BubbleM(p.m) && BubbleW(p.w)
  }

  ghost predicate Load2(p: Cpu, r: Regs, m: Mem) {
    && Loading(p, r, m) && p.pc == 20 && p.d == LOAD_D
    && p.e == IdEx(I_RMMOVQ, 0, 0, r[0], 48, 0, 3, REG_NONE, REG_NONE, AOK)
    && BubbleM(p.m) && BubbleW(p.w)
  }

  ghost predicate Load3(p: Cpu, r: Regs, m: Mem) {
    && Loading(p, r, m) && p.pc == 21 && HaltD(p.d, 21)
    && p.e == IdEx(I_MRMOVQ, 0, 40, p.e.vala, 48, REG_NONE, REG_NONE, REG_NONE, 1, AOK)
    && p.m == ExMem(I_RMMOVQ, 0, p.m.takebranch, 48, r[0], REG_NONE, REG_NONE, AOK) && BubbleW(p.w)
  }

  ghost predicate Load4(p: Cpu, r: Regs, m: Mem) {
    && Loading(p, r, m) && p.e.icode == I_HALT && p.e.status == HLT
    && p.e.deste == REG_NONE && p.e.destm == REG_NONE
    && p.m == ExMem(I_MRMOVQ, 0, p.m.takebranch, 88, p.m.vala, REG_NONE, 1, AOK) && IdleW(p.w, I_RMMOVQ)
  }

  ghost predicate Load5(p: Cpu, r: Regs, m: Mem) {
    && p.m.icode == I_HALT && p.m.status == HLT && p.r == r
    && p.w.icode == I_MRMOVQ && p.w.status == AOK && p.w.deste == REG_NONE && p.w.destm == 1
    && p.w.valm == GetWord(m, 88)
  }

  lemma LoadFrom0(p: Cpu, r: Regs, m: Mem)
    requires Loading(p, r, m) && p == Initial(r, p.mem, p.cc)
    ensures Load1(Cycle(p), r, m)
  {
    AbsoluteFetch(p.mem);
    hide FetchAt, GetWord, Absolute, ComputeCc, ComputeAlu, Splice, Forward;
    assert Load1(Cycle(p), r, m);
  }

  lemma LoadFrom1(p: Cpu, r: Regs, m: Mem)
    requires Load1(p, r, m)
    ensures Load2(Cycle(p), r, m)
  {
    AbsoluteFetch(p.mem);
    hide FetchAt, GetWord, Absolute, ComputeCc, Splice;
    assert Load2(Cycle(p), r, m);
  }

  lemma LoadFrom2(p: Cpu, r: Regs, m: Mem)
    requires Load2(p, r, m)
    ensures Load3(Cycle(p), r, m)
  {
    AbsoluteFetch(p.mem);
    WrapIsWord(48);
    hide FetchAt, GetWord, Absolute, ComputeCc, Splice;
    assert Load3(Cycle(p), r, m);
  }

  lemma LoadFrom3(p: Cpu, r: Regs, m: Mem)
    requires Load3(p, r, m)
    ensures Load4(Cycle(p), r, m)
  {
    AbsoluteKept(p.mem, r[0]);
    WrapIsWord(88);
    assert WordAt(p.mem, 48);
    hide FetchAt, GetWord, Absolute, ComputeCc, SetWord;
    assert Load4(Cycle(p), r, m);
  }

  lemma LoadFrom4(p: Cpu, r: Regs, m: Mem)
    requires Load4(p, r, m)
    ensures Load5(Cycle(p), r, m)
  {
    assert WordAt(p.mem, 88);
    hide FetchAt, GetWord, Absolute, ComputeCc, SetWord;
    assert Load5(Cycle(p), r, m);
  }

  lemma LoadFrom5(p: Cpu, r: Regs, m: Mem)
    requires Load5(p, r, m)
    ensures Cycle(p).w.status == HLT && GetReg(Cycle(p).r, 1) == GetWord(m, 88)
  {
    hide FetchAt, GetWord, ComputeCc, SetWord;
  }

  /** With 48 in %rbx the pipeline halts on it having loaded the word at 88, the sum of the constant and the
      address of the store, where the ISA loads the word at 40. */
  lemma AbsoluteLoadMisses(r: Regs, m: Mem, cc: Cc)
    requires Absolute(m) && r[3] == 48
    ensures var p := Initial(r, m, cc);
      Running(p, 6) && Cycles(p, 6).w.status == HLT && GetReg(Cycles(p, 6).r, 1) == GetWord(m, 88)
    ensures var s := State(0, r, m, cc);
      Reached(s, 2) && StepStat(Run(s, 2)) == HLT && GetReg(Run(s, 3).r, 1) == GetWord(m, 40)
  {
    LoadInPipeline(r, m, cc);
    LoadInIsa(r, m, cc);
  }

  lemma LoadInPipeline(r: Regs, m: Mem, cc: Cc)
    requires Absolute(m) && r[3] == 48
    ensures var p := Initial(r, m, cc);
      Running(p, 6) && Cycles(p, 6).w.status == HLT && GetReg(Cycles(p, 6).r, 1) == GetWord(m, 88)
  {
    hide Cycle, Absolute, GetWord;
    var p := Initial(r, m, cc);
    LoadFrom0(p, r, m);
    assert Load1(Cycles(p, 1), r, m) by { assert Cycles(p, 0) == p && Cycles(p, 1) == Cycle(p); }
    LoadFrom1(Cycles(p, 1), r, m);
    assert Load2(Cycles(p, 2), r, m) by { assert Cycles(p, 2) == Cycle(Cycles(p, 1)); }
    LoadFrom2(Cycles(p, 2), r, m);
    assert Load3(Cycles(p, 3), r, m) by { assert Cycles(p, 3) == Cycle(Cycles(p, 2)); }
    LoadFrom3(Cycles(p, 3), r, m);
    assert Load4(Cycles(p, 4), r, m) by { assert Cycles(p, 4) == Cycle(Cycles(p, 3)); }
    LoadFrom4(Cycles(p, 4), r, m);
    assert Load5(Cycles(p, 5), r, m) by { assert Cycles(p, 5) == Cycle(Cycles(p, 4)); }
    LoadFrom5(Cycles(p, 5), r, m);
    assert Cycles(p, 6) == Cycle(Cycles(p, 5));
    assert !Exceptional(Cycles(p, 0).w.status);
    assert Running(p, 1) && Running(p, 2) && Running(p, 3) && Running(p, 4) && Running(p, 5) && Running(p, 6);
  }

  lemma LoadInIsa(r: Regs, m: Mem, cc: Cc)
    requires Absolute(m) && r[3] == 48
    ensures var s := State(0, r, m, cc);
      Reached(s, 2) && StepStat(Run(s, 2)) == HLT && GetReg(Run(s, 3).r, 1) == GetWord(m, 40)
  {
    var s := State(0, r, m, cc);
    AbsoluteKept(m, r[0]);
    AbsoluteStep(s);
    var s1 := Step(s).0;
    AbsoluteStep(s1);
    var s2 := Step(s1).0;
    AbsoluteStep(s2);
    hide Step;
    assert Run(s, 0) == s && Run(s, 1) == s1 && Run(s, 2) == s2 && Run(s, 3) == Step(s2).0;
    assert Reached(s, 0) && Reached(s, 1) && Reached(s, 2);
  }

  lemma AbsoluteStep(s: State)
    requires Absolute(s.m) && s.r[3] == 48 && s.pc in {0, 10, 20}
    ensures Step(s) ==
      if s.pc == 0 then (s.(m := SetWord(s.m, 48, s.r[0]), pc := 10), AOK)
      else if s.pc == 10 then (s.(r := SetReg(s.r, 1, GetWord(s.m, 40)), pc := 20), AOK)
      else (s, HLT)
  {
    AbsoluteDecodes(s.m);
    AbsoluteExecute(s, Decode(s.m, s.pc));
    hide Decode, Absolute, Execute, GetWord, SetWord;
    assert Step(s) == Execute(s, Decode(s.m, s.pc));
  }

  lemma AbsoluteExecute(s: State, i: Instr)
    requires |s.m| >= 96 && s.r[3] == 48 && i.okRegs && i.okImm
    ensures Fetched(i) == STORE_D ==> Execute(s, i) == (s.(m := SetWord(s.m, 48, s.r[0]), pc := 10), AOK)
    ensures Fetched(i) == LOAD_D ==> Execute(s, i) == (s.(r := SetReg(s.r, 1, GetWord(s.m, 40)), pc := 20), AOK)
    ensures HaltD(Fetched(i), 21) ==> Execute(s, i) == (s, HLT)
  {
    hide GetWord, SetWord;
    WrapIsWord(48);
  }

  /** It shows the other thing excluded: the operand at its step 1 is given the address of the store. */
  lemma AbsoluteExcluded(r: Regs, m: Mem, cc: Cc)
    requires Absolute(m) && r[3] == 48
    ensures var s := State(0, r, m, cc);
      Reached(s, 1) && NoBase(DAt(Run(s, 1))) && Nowhere(s, 1) == 48 && !BaseOk(s, 1)
  {
    hide Absolute, Run, FetchAt, Nowhere, Reached;
    AbsoluteStates(r, m, cc);
    AbsoluteShows(State(0, r, m, cc));
  }

  lemma AbsoluteStates(r: Regs, m: Mem, cc: Cc)
    requires Absolute(m) && r[3] == 48
    ensures var s := State(0, r, m, cc);
      && Reached(s, 1) && GetReg(Run(s, 0).r, 3) == 48 && DAt(Run(s, 0)) == STORE_D && DAt(Run(s, 1)) == LOAD_D
  {
    var s := State(0, r, m, cc);
    AbsoluteKept(m, r[0]);
    AbsoluteStep(s);
    var s1 := Step(s).0;
    AbsoluteFetch(s.m);
    AbsoluteFetch(s1.m);
    assert StepStat(s) == AOK;
    hide Step, FetchAt, Absolute, StepStat, SetWord, GetWord;
    assert Run(s, 0) == s && Run(s, 1) == s1 && Reached(s, 0) && OkAt(s, 0);
  }

  lemma AbsoluteShows(s: State)
    requires GetReg(Run(s, 0).r, 3) == 48 && DAt(Run(s, 0)) == STORE_D && DAt(Run(s, 1)) == LOAD_D
    ensures NoBase(DAt(Run(s, 1))) && Nowhere(s, 1) == 48
  {
    hide Run, FetchAt, Apart, FoundWrong;
    WrapIsWord(48);
    NotJump(s, 0);
    NotApart(s, 0);
    assert Nowhere(s, 1) == Address(Run(s, 0)) == 48;
  }

  // ------------------------------------------------------------------------------------------
  // Stack addresses that fault

  /** A program on which the registers differ when both machines have stopped: pushq with the stack pointer
      at 0. The ISA has moved it down, the pipeline leaves it where it was. */
  lemma PushFaults(s: State) returns (t: nat)
    requires |s.m| >= 6 && s.m[0] == 0xA0 && s.m[1] == 0x0F && s.pc == 0 && s.r[REG_RSP] == 0
    ensures Program(s) && StepStat(s) == ADR && Step(s).0.r == SetReg(s.r, REG_RSP, -8)
    ensures t <= 4 && Running(Start(s), t)
    ensures Cycles(Start(s), t).w.status == ADR && Cycles(Start(s), t).r == s.r
  {
    var i := Decode(s.m, 0);
    assert i.icode == I_PUSHQ && i.ra == 0 && i.okRegs && i.okImm && Proper(i);
    assert Step(s) == Execute(s, i);
    WrapIsWord(-8);
    assert StepStat(s) == ADR && Step(s).0.r == SetReg(s.r, REG_RSP, -8);
    assert Supported(s);
    hide Step, StepStat, Cycle, Sim, Decode, FetchAt, Supported, FetchStable, Misflagged;
    assert Run(s, 0) == s && !OkAt(s, 0);
    forall k: nat {:trigger StepOk(s, k)} | Reached(s, k)
      ensures StepOk(s, k)
    {
      ReachedWithin(s, k, 0);
      FirstStable(s);
    }
    forall k: nat {:trigger Misflagged(s, k)} | Reached(s, k)
      ensures !Misflagged(s, k)
    {
      ReachedWithin(s, k, 0);
      FirstStable(s);
    }
    forall k: nat {:trigger BaseOk(s, k)} | Reached(s, k)
      ensures BaseOk(s, k)
    {
      ReachedWithin(s, k, 0);
      FirstStable(s);
    }
    t := StopsInTime(s, 0);
    assert Reached(s, 0);
    PipelineRefines(s, t);
    VisibleState(s, t);
    StopAgrees(Cycles(Start(s), t), s, 0);
  }

  lemma FirstStable(s: State)
    ensures FetchStable(s, 0) && !Misflagged(s, 0) && BaseOk(s, 0)
  {
  }

  // ------------------------------------------------------------------------------------------
  // The function code of iaddq

  /** step_state adds whatever the function code of an iaddq says, the pipeline's ALU obeys the code. Result and
      flags agree exactly where that makes no difference. */
  lemma IaddqAgrees(e: IdEx, s: State, i: Instr)
    requires i.icode == I_IADDQ && Proper(i) && EOkFor(e, Fetched(i), s)
    ensures var t := Execute(s, i).0;
      ExecuteStage(e, s.cc).vale == GetReg(t.r, i.rb) && ComputeCc(AluFun(e), AluA(e), AluB(e)) == t.cc <==>
        Sums(s, i)
  {
    hide ComputeAlu, ComputeCc, CondHolds, AddsAnyway, Wrap;
    AddsAnywayExact(i.ifun, i.valc, GetReg(s.r, i.rb));
    assert i.valc + GetReg(s.r, i.rb) == GetReg(s.r, i.rb) + i.valc;
  }

  /** Adding 5 to 7 with function code 1: 12 in the ISA, 2 in the pipeline. */
  lemma IaddqSubtracts(s: State, e: IdEx)
    requires var i := Instr(I_IADDQ, A_SUB, REG_NONE, 0, 5, 10, true, true); EOkFor(e, Fetched(i), s)
    requires s.r[0] == 7
    ensures var i := Instr(I_IADDQ, A_SUB, REG_NONE, 0, 5, 10, true, true);
      GetReg(Execute(s, i).0.r, 0) == 12 && ExecuteStage(e, s.cc).vale == 2
  {
    WrapIsWord(12);
    WrapIsWord(2);
    hide ComputeCc, CondHolds, Wrap;
  }

  // ------------------------------------------------------------------------------------------
  // Instructions at the end of memory

  /** The fetch guard reports an address error exactly when the sixth byte is not in memory; step_state
      finds the instruction incomplete exactly when its last byte is not. So the guard is right exactly when
      the two agree. */
  lemma GuardExact(m: Mem, pc: word)
    requires ByteAt(m, pc)
    ensures var i := Decode(m, pc);
      (FetchAt(m, pc).status == ADR <==> !(i.okRegs && i.okImm)) <==> (pc + 6 <= |m| <==> i.next <= |m|)
  {
    hide GetWord;
    WrapIsWord(pc + 5);
  }

  /** It lets an instruction pass whose constant is cut off: irmovq in the last eight bytes. */
  lemma GuardMisses(s: State)
    requires |s.m| == 8 && s.m[0] == 0x30 && s.m[1] == 0xF0 && s.pc == 0
    ensures FetchAt(s.m, 0).status == AOK && Step(s) == (s, INS)
  {
    hide GetWord;
  }

  /** It stops an instruction that is whole: nop in the last byte, which the ISA runs. */
  lemma GuardFalseAlarm(s: State)
    requires |s.m| > 0 && s.pc == |s.m| - 1 && s.m[s.pc] == 0x10
    ensures FetchAt(s.m, s.pc).status == ADR && Step(s) == (s.(pc := s.pc + 1), AOK)
  {
    WrapIsWord(s.pc + 5);
  }
}
