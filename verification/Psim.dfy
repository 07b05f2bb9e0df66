/** The pipeline simulator: pipeline registers, state elements and pending writes, updated cycle by cycle. */
module Psim {
  import opened Bytes
  import opened Y86Words
  import opened Isa
  import opened Pipe
  import opened PipeHazards
  import opened PipeSpec
  import opened PipeRefines
  import opened PipeRuns
  import opened PsimSpec
  import opened MemRec
  import IsaSim

  /** gen_Stat */
  function StatOf(w: MemWb): Stat { if w.status == BUB then AOK else w.status }

  class Simulator {
    // Pipeline registers: current and next contents, and how each is to be updated
    var pcCurr: word
    var pcNext: word
    var pcOp: Op
    var ifIdCurr: IfId
    var ifIdNext: IfId
    var ifIdOp: Op
    var idExCurr: IdEx
    var idExNext: IdEx
    var idExOp: Op
    var exMemCurr: ExMem
    var exMemNext: ExMem
    var exMemOp: Op
    var memWbCurr: MemWb
    var memWbNext: MemWb
    var memWbOp: Op

    // State elements
    const reg: array<byte>
    const mem: array<byte>
    var cc: Cc
    var status: Stat

    // Pending updates
    var ccIn: Cc
    var wbDestE: int
    var wbValE: word
    var wbDestM: int
    var wbValM: word
    var memAddr: word
    var memData: word
    var memWrite: bool

    ghost predicate Valid()
      reads this
    {
      reg.Length == REG_BYTES && mem.Length < 0x8000_0000 && mem.Length % 8 == 0 && reg != mem
    }

    ghost function View(): Cpu
      requires Valid()
      reads this, reg, mem
    {
      Cpu(pcCurr, ifIdCurr, idExCurr, exMemCurr, memWbCurr, RegsOf(reg[..]), mem[..], cc)
    }

    /** The registers and the memory once the pending writes are made. */
    ghost function DueRegs(): Regs
      requires Valid()
      reads this, reg
    {
      SetReg(SetReg(RegsOf(reg[..]), wbDestE, wbValE), wbDestM, wbValM)
    }

    ghost function DueMem(update: bool): Mem
      requires Valid()
      reads this, mem
    {
      if update && memWrite then SetWord(mem[..], memAddr, memData) else mem[..]
    }

    /** The processor the next update leaves. */
    ghost function Due(updateMem: bool, updateCc: bool): Cpu
      requires Valid()
      reads this, reg, mem
    {
      Cpu(Update(pcOp, pcCurr, pcNext, 0),
          Mark(ifIdOp, Update(ifIdOp, ifIdCurr, ifIdNext, BUBBLE_IF_ID)),
          MarkE(idExOp, Update(idExOp, idExCurr, idExNext, BUBBLE_ID_EX)),
          MarkM(exMemOp, Update(exMemOp, exMemCurr, exMemNext, BUBBLE_EX_MEM)),
          MarkW(memWbOp, Update(memWbOp, memWbCurr, memWbNext, BUBBLE_MEM_WB)),
          DueRegs(), DueMem(updateMem), if updateCc then ccIn else cc)
    }

    /** The pending values are those the stages compute from what the processor holds. */
    ghost predicate Settled(p: Cpu)
      reads this
    {
      && pcNext == PredPc(FNext(p), p.d, p.e) && ifIdNext == FNext(p) && idExNext == DNext(p)
      && exMemNext == ENext(p) && memWbNext == MNext(p)
      && pcOp == PcOp(p) && ifIdOp == DOp(p) && idExOp == EOp(p) && exMemOp == MOp(p) && memWbOp == WOp(p)
      && wbDestE == p.w.deste && wbValE == p.w.vale && wbDestM == p.w.destm && wbValM == p.w.valm
      && memAddr == MemAddr(p.m) && memData == p.m.vala && memWrite == MemWrite(p.m)
    }

    /** As reset leaves the processor: bubbles everywhere and nothing pending. */
    ghost predicate Fresh()
      requires Valid()
      reads this, reg, mem
    {
      && View() == Initial(RegsOf(reg[..]), mem[..], cc)
      && pcNext == 0 && ifIdNext == BUBBLE_IF_ID && idExNext == BUBBLE_ID_EX && exMemNext == BUBBLE_EX_MEM
      && memWbNext == BUBBLE_MEM_WB
      && pcOp == LOAD && ifIdOp == LOAD && idExOp == LOAD && exMemOp == LOAD && memWbOp == LOAD
      && wbDestE == REG_NONE && wbDestM == REG_NONE && !memWrite && ccIn == cc
    }

    /** sim_reset, on a register file and a memory already filled. */
    constructor (reg0: array<byte>, mem0: array<byte>)
      requires reg0.Length == REG_BYTES && mem0.Length < 0x8000_0000 && mem0.Length % 8 == 0 && reg0 != mem0
      ensures Valid() && Fresh() && reg == reg0 && mem == mem0 && cc == DEFAULT_CC
    {
      reg, mem := reg0, mem0;
      pcCurr, pcNext, pcOp := 0, 0, LOAD;
      ifIdCurr, ifIdNext, ifIdOp := BUBBLE_IF_ID, BUBBLE_IF_ID, LOAD;
      idExCurr, idExNext, idExOp := BUBBLE_ID_EX, BUBBLE_ID_EX, LOAD;
      exMemCurr, exMemNext, exMemOp := BUBBLE_EX_MEM, BUBBLE_EX_MEM, LOAD;
      memWbCurr, memWbNext, memWbOp := BUBBLE_MEM_WB, BUBBLE_MEM_WB, LOAD;
      cc, ccIn, status := DEFAULT_CC, DEFAULT_CC, AOK;
      wbDestE, wbValE, wbDestM, wbValM := REG_NONE, 0, REG_NONE, 0;
      memAddr, memData, memWrite := 0, 0, false;
    }

    // ----------------------------------------------------------------------------------------
    // Updates at the start of a cycle

    /** update_state */
    method UpdateState(updateMem: bool, updateCc: bool)
      requires Valid()
      modifies `cc, reg, mem
      ensures RegsOf(reg[..]) == old(DueRegs()) && reg[120..] == old(reg[120..])
      ensures mem[..] == old(DueMem(updateMem))
      ensures cc == if updateCc then ccIn else old(cc)
    {
      if wbDestE != REG_NONE {
        SetRegVal(reg, wbDestE, wbValE);
      }
      if wbDestM != REG_NONE {
        SetRegVal(reg, wbDestM, wbValM);
      }
      if updateMem && memWrite {
        var _ := SetWordVal(mem, memAddr, memData);
      }
      if updateCc {
        cc := ccIn;
      }
    }

    /** update_pipes, and the marking of registers that were told to stall and to take a bubble. */
    method UpdatePipes()
      requires Valid()
      modifies `pcCurr, `ifIdCurr, `idExCurr, `exMemCurr, `memWbCurr
      ensures pcCurr == old(Due(true, true).pc) && ifIdCurr == old(Due(true, true).d)
      ensures idExCurr == old(Due(true, true).e) && exMemCurr == old(Due(true, true).m)
      ensures memWbCurr == old(Due(true, true).w)
    {
      hide DueRegs, DueMem, Update;
      pcCurr := Update(pcOp, pcCurr, pcNext, 0);
      ifIdCurr := Update(ifIdOp, ifIdCurr, ifIdNext, BUBBLE_IF_ID);
      idExCurr := Update(idExOp, idExCurr, idExNext, BUBBLE_ID_EX);
      exMemCurr := Update(exMemOp, exMemCurr, exMemNext, BUBBLE_EX_MEM);
      memWbCurr := Update(memWbOp, memWbCurr, memWbNext, BUBBLE_MEM_WB);
      if ifIdOp == ERROR {
        ifIdCurr := ifIdCurr.(status := PIP);
      }
      if idExOp == ERROR {
        idExCurr := idExCurr.(status := PIP);
      }
      if exMemOp == ERROR {
        exMemCurr := exMemCurr.(status := PIP);
      }
      if memWbOp == ERROR {
        memWbCurr := memWbCurr.(status := PIP);
      }
    }

    // ----------------------------------------------------------------------------------------
    // Stages

    /** do_if_stage */
    method DoIfStage(ghost p: Cpu)
      requires Valid() && View() == p
      modifies `pcNext, `ifIdNext
      ensures View() == p && ifIdNext == FNext(p) && pcNext == PredPc(FNext(p), p.d, p.e)
    {
      hide GetWord, Wrap, FPc, PredPc, RegsOf, NeedRegids, NeedImm, InstrValid;
      var fPc := FPc(pcCurr, exMemCurr, memWbCurr);
      var valp := fPc;
      var present, instr := GetByteVal(mem, valp);
      var imemError := !present;
      if !imemError {
        var readable, _ := GetByteVal(mem, Wrap(valp as int + 5));
        imemError := !readable;
      }
      var icode := if imemError then I_NOP else instr / 16;
      var ifun := if imemError then 0 else instr % 16;
      var stat := if imemError then ADR else if !InstrValid(icode) then INS else if icode == I_HALT then HLT else AOK;
      var regids: byte, valc: word := 0xFF, 0;
      valp := Wrap(valp as int + 1);
      var ra, rb := REG_NONE, REG_NONE;
      if NeedRegids(icode) {
        var found, b := GetByteVal(mem, valp);
        if found {
          regids := b;
        }
        valp := Wrap(valp as int + 1);
        ra, rb := regids / 16, regids % 16;
      }
      if NeedImm(icode) {
        var _, v := GetWordVal(mem, valp);
        valc := v;
        valp := Wrap(valp as int + 8);
      }
      ifIdNext := IfId(icode, ifun, ra, rb, valc, valp, stat);
      pcNext := PredPc(ifIdNext, ifIdCurr, idExCurr);
    }

    /** do_mem_stage */
    method DoMemStage(ghost p: Cpu)
      requires Valid() && View() == p
      modifies `memAddr, `memData, `memWrite, `memWbNext
      ensures View() == p && memWbNext == MNext(p)
      ensures memAddr == MemAddr(p.m) && memData == p.m.vala && memWrite == MemWrite(p.m)
    {
      var read := MemRead(exMemCurr);
      var valm: word := 0;
      var dmemError := false;
      memAddr := MemAddr(exMemCurr);
      memData := exMemCurr.vala;
      memWrite := MemWrite(exMemCurr);
      if read {
        var ok, v := GetWordVal(mem, memAddr);
        valm := v;
        dmemError := !ok;
      }
      if memWrite {
        var ok, _ := GetWordVal(mem, memAddr);
        dmemError := dmemError || !ok;
      }
      memWbNext := MemWb(exMemCurr.icode, exMemCurr.ifun, exMemCurr.vale, valm, exMemCurr.deste, exMemCurr.destm,
                         if dmemError then ADR else exMemCurr.status);
    }

    /** do_ex_stage */
    method DoExStage(ghost p: Cpu)
      requires Valid() && View() == p && memWbNext == MNext(p)
      modifies `ccIn, `exMemNext
      ensures View() == p && exMemNext == ENext(p) && ccIn == PendingCc(p, old(ccIn))
    {
      var alufun, alua, alub := AluFun(idExCurr), AluA(idExCurr), AluB(idExCurr);
      var bcond := CondHolds(cc, idExCurr.ifun);
      var aluout := ComputeAlu(alufun, alua, alub);
      if SetCc(idExCurr, memWbNext, memWbCurr) {
        ccIn := ComputeCc(alufun, alua, alub);
      }
      exMemNext := ExMem(idExCurr.icode, idExCurr.ifun, bcond, aluout, EValA(idExCurr),
                         if idExCurr.icode == I_RRMOVQ && !bcond then REG_NONE else idExCurr.deste,
                         idExCurr.destm, idExCurr.status);
    }

    /** do_id_wb_stages */
    method DoIdWbStages(ghost p: Cpu)
      requires Valid() && View() == p && memWbNext == MNext(p) && exMemNext == ENext(p)
      modifies `wbDestE, `wbValE, `wbDestM, `wbValM, `status, `idExNext
      ensures View() == p && idExNext == DNext(p) && status == StatOf(p.w)
      ensures wbDestE == p.w.deste && wbValE == p.w.vale && wbDestM == p.w.destm && wbValM == p.w.valm
    {
      hide FetchAt, RegsOf, GetReg, Forward, SrcA, SrcB, DstE, DstM, ENext, MNext, Flag;
      wbDestE, wbValE := memWbCurr.deste, memWbCurr.vale;
      wbDestM, wbValM := memWbCurr.destm, memWbCurr.valm;
      status := StatOf(memWbCurr);
      var srca, srcb := SrcA(ifIdCurr), SrcB(ifIdCurr);
      var regvala := GetRegVal(reg, srca);
      var regvalb := GetRegVal(reg, srcb);
      var vala := if ifIdCurr.icode == I_CALL || ifIdCurr.icode == I_JMP then ifIdCurr.valp
                  else Forward(srca, exMemNext, exMemCurr, memWbNext, memWbCurr, regvala);
      var valb := if ifIdCurr.icode == I_JMP then Flag(exMemCurr)
                  else Forward(srcb, exMemNext, exMemCurr, memWbNext, memWbCurr, regvalb);
      idExNext := DecodeWith(ifIdCurr, vala, valb);
    }

    /** do_stall_check */
    method DoStallCheck(ghost p: Cpu)
      requires Valid() && View() == p && memWbNext == MNext(p) && exMemNext == ENext(p) && idExNext == DNext(p)
      modifies `pcOp, `ifIdOp, `idExOp, `exMemOp, `memWbOp
      ensures View() == p
      ensures pcOp == PcOp(p) && ifIdOp == DOp(p) && idExOp == EOp(p) && exMemOp == MOp(p) && memWbOp == WOp(p)
    {
      hide FetchAt, RegsOf, ComputeAlu, CondHolds, GetWord;
      var loadUse := LoadUse(idExCurr, idExNext.srca, idExNext.srcb);
      var ret := RetInPipe(ifIdCurr, idExCurr, exMemCurr);
      var wrong := Mispredicted(idExCurr, exMemNext.takebranch);
      pcOp := PipeCntl(loadUse || ret, false);
      ifIdOp := PipeCntl(loadUse, wrong || (!loadUse && ret));
      idExOp := PipeCntl(false, wrong || loadUse);
      exMemOp := PipeCntl(false, MBubble(memWbNext, memWbCurr));
      memWbOp := PipeCntl(WStall(memWbCurr), false);
    }

    /** sim_step_pipe: one cycle, with at most `maxInstr` instructions still to complete. */
    method SimStepPipe(maxInstr: int) returns (stat: Stat)
      requires Valid()
      modifies this, reg, mem
      ensures View() == old(Due(Ahead(false) < maxInstr, Ahead(true) < maxInstr))
      ensures Settled(View()) && ccIn == PendingCc(View(), old(ccIn))
      ensures stat == StatOf(memWbCurr) && reg[120..] == old(reg[120..])
    {
      hide RegsOf, Settled, Mark, MarkE, MarkM, MarkW, DueRegs, DueMem, MNext, FNext, DNext, ENext, PendingCc,
        PcOp, DOp, EOp, MOp, WOp, Update;
      var aheadMem := if memWbCurr.status != BUB then 1 else 0;
      var aheadEx := aheadMem + if memWbNext.status != BUB then 1 else 0;
      ghost var p := Due(aheadMem < maxInstr, aheadEx < maxInstr);
      UpdateState(aheadMem < maxInstr, aheadEx < maxInstr);
      UpdatePipes();
      assert View() == p;
      RunStages(p);
      return status;
    }

    /** The second half of a cycle: every stage computes, then the stall check. */
    method RunStages(ghost p: Cpu)
      requires Valid() && View() == p
      modifies `pcNext, `ifIdNext, `memAddr, `memData, `memWrite, `memWbNext, `ccIn, `exMemNext,
        `wbDestE, `wbValE, `wbDestM, `wbValM, `status, `idExNext, `pcOp, `ifIdOp, `idExOp, `exMemOp, `memWbOp
      ensures View() == p && Settled(p) && ccIn == PendingCc(p, old(ccIn)) && status == StatOf(p.w)
    {
      hide View, MNext, FNext, DNext, ENext, PendingCc, PcOp, DOp, EOp, MOp, WOp;
      DoIfStage(p);
      DoMemStage(p);
      DoExStage(p);
      DoIdWbStages(p);
      DoStallCheck(p);
    }

    /** How many instructions are ahead of the one in memory, or of the one in execute. */
    ghost function Ahead(ofExecute: bool): nat
      reads this
    {
      (if memWbCurr.status != BUB then 1 else 0) + (if ofExecute && memWbNext.status != BUB then 1 else 0)
    }

    /** When the stages have run, the next update is a cycle of the pipeline. */
    lemma DueIsCycle(left: int)
      requires Valid() && Settled(View())
      ensures Due(Ahead(false) < left, Ahead(true) < left) == GatedCycle(Machine(View(), ccIn), left).cpu
    {
      hide RegsOf, MNext, FNext, DNext, ENext, SetReg, SetWord, MemAddr, MemWrite, PendingCc;
      var p := View();
      NoConflict(p);
      hide PcOp, DOp, EOp, MOp, WOp, PredPc;
      assert DueRegs() == WriteBack(p.r, p.w) by { hide *; }
    }

    /** Right after reset there is nothing to update. */
    lemma DueWhenFresh(a: bool, b: bool)
      requires Valid() && Fresh()
      ensures Due(a, b) == View() && ccIn == View().cc
      ensures View() == Initial(RegsOf(reg[..]), mem[..], cc)
    {
    }

    lemma ViewW()
      requires Valid()
      ensures View().w == memWbCurr && View().cc == cc
    {
    }

    /** sim_run_pipe: cycles until an exception reaches write-back or a limit is reached. A bubble counts
        as an instruction here, so the limit on instructions is a limit on cycles, and what is returned is
        more than the number of instructions that have reached write-back. */
    method SimRunPipe(maxInstr: int, maxCycle: int) returns (icount: nat, runStatus: Stat, resultCc: Cc)
      requires Valid() && Fresh()
      modifies this, reg, mem
      ensures resultCc == cc && reg[120..] == old(reg[120..])
      ensures View() == if icount == 0 then old(View()) else GatedRun(old(View()), maxInstr, icount - 1).cpu
      ensures var p, limit := old(View()), if maxInstr < maxCycle then maxInstr else maxCycle;
        if limit <= 0 then icount == 0 && runStatus == AOK
        else
          && 0 < icount <= limit && Running(p, icount - 1) && Retired(p, icount) < icount
          && runStatus == StatOf(Cycles(p, icount - 1).w)
          && (if Exceptional(runStatus) then View() == Cycles(p, icount - 1) else icount == limit)
    {
      hide RegsOf, Settled, Due, Fresh, GatedCycle, Cycle, PendingCc, Update, Cycles, Ahead, View, Retired;
      icount, runStatus := 0, AOK;
      var ccount := 0;
      ghost var p, r0, m0, c0 := View(), RegsOf(reg[..]), mem[..], cc;
      DueWhenFresh(true, true);
      while icount < maxInstr && ccount < maxCycle
        invariant ccount == icount && (icount == 0 || (icount <= maxInstr && icount <= maxCycle))
        invariant icount == 0 ==> Fresh() && View() == p && runStatus == AOK
        invariant icount > 0 ==> Settled(View()) && Machine(View(), ccIn) == GatedRun(p, maxInstr, icount - 1)
        invariant icount > 0 ==> Running(p, icount) && runStatus == StatOf(Cycles(p, icount - 1).w)
        invariant !Exceptional(runStatus)
        invariant reg[120..] == old(reg[120..])
        decreases maxInstr - icount
      {
        runStatus := SimIteration(p, r0, m0, c0, maxInstr, icount);
        icount := icount + 1;
        if runStatus != AOK && runStatus != BUB {
          assert Exceptional(runStatus);
          break;
        }
        ccount := ccount + 1;
      }
      RetiredLater(r0, m0, c0, icount);
      resultCc := cc;
    }

    /** One turn of the loop of sim_run_pipe. */
    method SimIteration(ghost p: Cpu, ghost r: Regs, ghost m: Mem, ghost c: Cc, maxInstr: int, icount: nat)
      returns (runStatus: Stat)
      requires Valid() && icount < maxInstr && p == Initial(r, m, c)
      requires if icount == 0 then Fresh() && View() == p
               else Settled(View()) && Machine(View(), ccIn) == GatedRun(p, maxInstr, icount - 1)
      requires Running(p, icount)
      modifies this, reg, mem
      ensures Settled(View()) && Machine(View(), ccIn) == GatedRun(p, maxInstr, icount)
      ensures runStatus == StatOf(Cycles(p, icount).w)
      ensures runStatus == AOK || Exceptional(runStatus)
      ensures Exceptional(runStatus) ==> View() == Cycles(p, icount)
      ensures reg[120..] == old(reg[120..])
    {
      hide RegsOf, Settled, Due, Fresh, Advance, Cycle, PendingCc, Update, Cycles, View;
      ghost var left := maxInstr - icount;
      if icount == 0 {
        DueWhenFresh(Ahead(false) < left, Ahead(true) < left);
      } else {
        DueIsCycle(left);
      }
      runStatus := SimStepPipe(maxInstr - icount);
      ViewW();
      LimitHarmless(r, m, c, maxInstr, icount);
      CyclesStatus(r, m, c, icount);
    }
  }

  /** No instruction ever carries the mark of a control conflict. */
  lemma {:induction false} CyclesStatus(r: Regs, mem: Mem, cc: Cc, n: nat)
    ensures Unmarked(Cycles(Initial(r, mem, cc), n))
  {
    if n > 0 {
      CyclesStatus(r, mem, cc, n - 1);
      UnmarkedKept(Cycles(Initial(r, mem, cc), n - 1));
    }
  }

  ghost predicate Unmarked(p: Cpu) {
    p.d.status != PIP && p.e.status != PIP && p.m.status != PIP && p.w.status != PIP
  }

  lemma UnmarkedKept(p: Cpu)
    requires Unmarked(p)
    ensures Unmarked(Cycle(p))
  {
  }

  // A register that was told both to stall and to take a bubble is marked.
  function Mark(op: Op, d: IfId): IfId { if op == ERROR then d.(status := PIP) else d }

  function MarkE(op: Op, e: IdEx): IdEx { if op == ERROR then e.(status := PIP) else e }

  function MarkM(op: Op, m: ExMem): ExMem { if op == ERROR then m.(status := PIP) else m }

  function MarkW(op: Op, w: MemWb): MemWb { if op == ERROR then w.(status := PIP) else w }

  // ------------------------------------------------------------------------------------------
  // The comparison with the ISA simulator

  /** The ISA run stops at step `n`: that instruction is the first that does not return AOK. */
  ghost predicate StopsAt(s: State, n: nat) { Reached(s, n) && !OkAt(s, n) }

  lemma StopsOnce(s: State, a: nat, b: nat)
    requires StopsAt(s, a) && StopsAt(s, b)
    ensures a == b
  {
    hide OkAt, Reached;
    ReachedWithin(s, a, b);
    ReachedWithin(s, b, a);
  }

  lemma {:induction false} RunningBelow(p: Cpu, k: nat, t: nat)
    requires Running(p, k) && t < k
    ensures !Exceptional(Cycles(p, t).w.status)
  {
    hide Cycles, Exceptional;
    if t < k - 1 {
      RunningBelow(p, k - 1, t);
    }
  }

  /** The pipeline stops after `t` cycles: the first exceptional instruction is in write-back. */
  ghost predicate PipeStopsAt(s: State, t: nat) {
    Running(Start(s), t) && Exceptional(Cycles(Start(s), t).w.status)
  }

  /** Then the ISA stops at the step after the instructions the pipeline has completed. */
  lemma StopsTogether(s: State, t: nat)
    requires Program(s) && s.pc == 0 && PipeStopsAt(s, t)
    ensures StopsAt(s, Retired(Start(s), t)) && Retired(Start(s), t) < t
  {
    hide Cycle, Program, Sim, Step, Retired, StepStat;
    PipelineRefines(s, t);
    VisibleState(s, t);
    ProgramIsFit(s);
    RetireStatus(Cycles(Start(s), t), s, Retired(Start(s), t));
    RetiredLater(s.r, s.m, s.cc, t);
    assert Cycles(Start(s), 0) == Start(s);
  }

  /** What a run of the pipeline simulator has computed when it ends, for a program that stops within the
      limit: the state of its stop, which is the ISA's but for the registers of a call, pushq or popq. */
  lemma RunOutcome(s: State, t: nat, limit: int, icount: nat)
    requires Program(s) && s.pc == 0 && PipeStopsAt(s, t) && t < limit
    requires 0 < icount <= limit && Running(Start(s), icount - 1)
    requires Exceptional(StatOf(Cycles(Start(s), icount - 1).w)) || icount == limit
    ensures var q, n := Cycles(Start(s), icount - 1), Retired(Start(s), t);
      && icount == t + 1 && StopsAt(s, n) && n < t
      && Exceptional(q.w.status) && q.w.status == StepStat(Run(s, n))
      && q.mem == Run(s, n + 1).m && q.cc == Run(s, n + 1).cc
      && (q.r == Run(s, n + 1).r <==> !MovesStackFirst(DAt(Run(s, n)).icode))
  {
    hide Cycle, Program, Sim, Step, Retired, MovesStackFirst, StepStat;
    var p, k := Start(s), icount - 1;
    if t < k {
      RunningBelow(p, k, t);
    }
    if k < t {
      RunningBelow(p, t, k);
    }
    assert k == t;
    StopsTogether(s, t);
    PipelineRefines(s, t);
    ProgramIsFit(s);
    StopAgrees(Cycles(p, t), s, Retired(p, t));
  }

  /** A program the ISA stops at its step `n` stops within the limit if that allows five cycles for each
      instruction. */
  lemma StopsWithin(s: State, n: nat) returns (t: nat)
    requires Program(s) && s.pc == 0 && StopsAt(s, n)
    ensures PipeStopsAt(s, t) && t < 5 * (n + 1) && Retired(Start(s), t) == n
  {
    hide Cycle, Program, Sim, Step, Retired, StepStat;
    t := StopsInTime(s, n);
  }

  /** The ISA has made `step` steps, the last of which returned `e`. */
  ghost predicate IsaAt(s: State, step: nat, e: Stat) {
    if e == AOK then Reached(s, step) else step > 0 && StopsAt(s, step - 1)
  }

  /** The loop of run_tty_sim that steps the ISA simulator. */
  method RunIsa(isa: IsaSim.IsaState, instrLimit: int) returns (step: nat, e: Stat)
    requires isa.Valid()
    modifies isa, isa.r, isa.m
    ensures isa.View() == Run(old(isa.View()), step) && isa.r[120..] == old(isa.r[120..])
    ensures IsaAt(old(isa.View()), step, e) && (step >= instrLimit || e != AOK)
  {
    ghost var s := isa.View();
    assert IsaAt(s, 0, AOK) && Run(s, 0) == s;
    hide RegsOf, Step, StepStat, IsaAt, Run;
    step, e := 0, AOK;
    while step < instrLimit && e == AOK
      invariant isa.View() == Run(s, step) && isa.r[120..] == old(isa.r[120..])
      invariant IsaAt(s, step, e)
      decreases instrLimit - step
    {
      e := isa.StepState();
      StopOrGo(s, step);
      step := step + 1;
    }
  }

  /** The comparison of run_tty_sim: all program registers, all of memory, and the condition codes. */
  method Compare(sim: Simulator, isa: IsaSim.IsaState) returns (same: bool)
    requires sim.Valid() && isa.Valid() && sim.mem.Length == isa.m.Length && sim.reg[120..] == isa.r[120..]
    ensures same <==> sim.View().r == isa.View().r && sim.View().mem == isa.View().m && sim.cc == isa.cc
  {
    hide RegsOf;
    var diffR := DiffMem(isa.r, sim.reg);
    var diffM := DiffMem(isa.m, sim.mem);
    assert isa.r[..isa.r.Length] == isa.r[..] && sim.reg[..sim.reg.Length] == sim.reg[..];
    assert isa.m[..isa.m.Length] == isa.m[..] && sim.mem[..sim.mem.Length] == sim.mem[..];
    assert isa.r[..][120..] == isa.r[120..] && sim.reg[..][120..] == sim.reg[120..];
    RegBytesTell(isa.r[..], sim.reg[..]);
    same := !diffR && !diffM && isa.cc == sim.cc;
  }

  /** run_tty_sim with checking on: run the pipeline, run the ISA, compare registers, memory and flags. For a
      program the pipeline stops within the limit the check succeeds exactly when the stopping instruction is
      not a call, pushq or popq with a bad stack address. Five cycles for each instruction are enough. Otherwise
      it compares what the two simulators have come to within the limit. */
  method CheckAgainstIsa(sim: Simulator, isa: IsaSim.IsaState, instrLimit: int)
    returns (same: bool, icount: nat, step: nat)
    requires sim.Valid() && sim.Fresh() && isa.Valid() && isa.pc == 0
    requires sim.reg != isa.r && sim.reg != isa.m && sim.mem != isa.r && sim.mem != isa.m
    requires sim.reg[..] == isa.r[..] && sim.mem[..] == isa.m[..] && sim.cc == isa.cc
    modifies sim, sim.reg, sim.mem, isa, isa.r, isa.m
    ensures same <==> sim.View().r == isa.View().r && sim.View().mem == isa.View().m && sim.cc == isa.cc
    ensures isa.View() == Run(old(isa.View()), step)
    ensures sim.View() ==
      if icount == 0 then old(sim.View()) else GatedRun(old(sim.View()), instrLimit, icount - 1).cpu
    ensures forall t: nat {:trigger PipeStopsAt(old(isa.View()), t)} ::
      Program(old(isa.View())) && PipeStopsAt(old(isa.View()), t) && t < instrLimit ==>
        (same <==> !MovesStackFirst(DAt(Run(old(isa.View()), Retired(Start(old(isa.View())), t))).icode))
    ensures forall n: nat {:trigger StopsAt(old(isa.View()), n)} ::
      Program(old(isa.View())) && StopsAt(old(isa.View()), n) && 5 * (n + 1) <= instrLimit ==>
        (same <==> !MovesStackFirst(DAt(Run(old(isa.View()), n)).icode))
  {
    hide RegsOf, Program, StopsAt, MovesStackFirst, Step, Cycle, Cycles, Running, OkAt, Reached, Run, FetchAt, Retired,
      PipeStopsAt, GatedRun, IsaAt;
    ghost var s := isa.View();
    sim.DueWhenFresh(true, true);
    assert sim.View() == Start(s) && sim.reg[120..] == isa.r[120..] by {
      assert isa.r[..][120..] == isa.r[120..] && sim.reg[..][120..] == sim.reg[120..];
    }
    var runStatus, resultCc;
    icount, runStatus, resultCc := sim.SimRunPipe(instrLimit, 5 * instrLimit);
    ghost var q := sim.View();
    var e;
    step, e := RunIsa(isa, instrLimit);
    assert sim.View() == q;
    same := Compare(sim, isa);
    forall t: nat {:trigger PipeStopsAt(s, t)} | Program(s) && PipeStopsAt(s, t) && t < instrLimit
      ensures same <==> !MovesStackFirst(DAt(Run(s, Retired(Start(s), t))).icode)
    {
      RunOutcome(s, t, instrLimit, icount);
      IsaOutcome(s, Retired(Start(s), t), instrLimit, step, e);
    }
    forall n: nat {:trigger StopsAt(s, n)} | Program(s) && StopsAt(s, n) && 5 * (n + 1) <= instrLimit
      ensures same <==> !MovesStackFirst(DAt(Run(s, n)).icode)
    {
      var t := StopsWithin(s, n);
    }
  }

  lemma StopOrGo(s: State, k: nat)
    requires IsaAt(s, k, AOK)
    ensures Run(s, k + 1) == Step(Run(s, k)).0 && IsaAt(s, k + 1, StepStat(Run(s, k)))
  {
  }

  lemma IsaOutcome(s: State, n: nat, limit: int, step: nat, e: Stat)
    requires StopsAt(s, n) && n < limit && (step >= limit || e != AOK)
    requires IsaAt(s, step, e)
    ensures step == n + 1 && e != AOK
  {
    hide OkAt, Reached;
    if e == AOK {
      OkBelow(s, step, n);
    } else {
      StopsOnce(s, n, step - 1);
    }
  }
}
