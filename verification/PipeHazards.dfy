/** Hazard handling on its own, for every content of the pipeline registers: forwarding delivers the
    newest pending value, stall and bubble never clash, and an exception stops everything behind it. */
module PipeHazards {
  import opened Y86Words
  import opened Isa
  import opened Pipe

  /** What an instruction's pending results do to the registers; the memory result wins. */
  function Pending(r: Regs, deste: int, vale: word, destm: int, valm: word): Regs {
    SetReg(SetReg(r, deste, vale), destm, valm)
  }

  /** The registers once the instructions in write-back, memory and execute have written theirs; the
      memory result of the one in execute is not there yet. */
  function PendingRegs(p: Cpu): Regs {
    var afterW := WriteBack(p.r, p.w);
    var afterM := Pending(afterW, p.m.deste, p.m.vale, p.m.destm, MNext(p).valm);
    SetReg(afterM, ENext(p).deste, ENext(p).vale)
  }

  lemma ForwardNewest(p: Cpu, src: int)
    requires RegValid(src)
    ensures Forward(src, ENext(p), p.m, MNext(p), p.w, GetReg(p.r, src)) == GetReg(PendingRegs(p), src)
  {
  }

  /** Forwarding is exact: without a load-use hazard both operands are what the registers will hold
      once every older instruction is done. */
  lemma ForwardingExact(p: Cpu)
    ensures RegValid(SrcA(p.d)) && p.d.icode != I_CALL && p.d.icode != I_JMP ==>
      DNext(p).vala == GetReg(PendingRegs(p), SrcA(p.d))
    ensures RegValid(SrcB(p.d)) && p.d.icode != I_JMP ==>
      DNext(p).valb == GetReg(PendingRegs(p), SrcB(p.d))
    ensures !DStall(p.d, p.e) && (p.e.icode == I_MRMOVQ || p.e.icode == I_POPQ) ==>
      p.e.destm != SrcA(p.d) && p.e.destm != SrcB(p.d)
  {
    if RegValid(SrcA(p.d)) {
      ForwardNewest(p, SrcA(p.d));
    }
    if RegValid(SrcB(p.d)) {
      ForwardNewest(p, SrcB(p.d));
    }
  }

  /** No pipeline register is ever told to stall and to take a bubble. */
  lemma NoConflict(p: Cpu)
    ensures PcOp(p) != ERROR && DOp(p) != ERROR && EOp(p) != ERROR && MOp(p) != ERROR && WOp(p) != ERROR
  {
  }

  /** An exceptional instruction in write-back, and nothing in memory behind it. */
  ghost predicate Stopped(p: Cpu) {
    && Exceptional(p.w.status)
    && p.m == BUBBLE_EX_MEM
  }

  /** The instruction in the memory stage is found exceptional this cycle. */
  ghost predicate Faulting(p: Cpu) { Exceptional(MNext(p).status) }

  predicate SetsFlags(icode: int) { icode == I_ALU || icode == I_IADDQ }

  /** Instructions found exceptional when fetched neither store nor set condition codes. */
  ghost predicate CleanFaults(p: Cpu) {
    && (Exceptional(p.d.status) ==> !Stores(p.d.icode) && !SetsFlags(p.d.icode))
    && (Exceptional(p.e.status) ==> !Stores(p.e.icode) && !SetsFlags(p.e.icode))
    && (Exceptional(p.m.status) ==> !Stores(p.m.icode) && !SetsFlags(p.m.icode))
  }

  /** That holds in every state the processor can get to. */
  lemma CleanFaultsReachable(r: Regs, mem: Mem, cc: Cc, n: nat)
    ensures CleanFaults(Cycles(Initial(r, mem, cc), n))
  {
    if n > 0 {
      CleanFaultsReachable(r, mem, cc, n - 1);
      CleanFaultsKept(Cycles(Initial(r, mem, cc), n - 1));
    }
  }

  lemma CleanFaultsKept(p: Cpu)
    requires CleanFaults(p)
    ensures CleanFaults(Cycle(p))
  {
    hide GetWord, SetWord, ComputeAlu, ComputeCc, CondHolds, Forward, SetReg, GetReg, LoadUse, RetInPipe, Mispredicted;
    assert CleanFaults(Cycle(p));
  }

  /** The cycle that finds the fault changes neither memory nor condition codes. */
  lemma FaultStops(p: Cpu)
    requires Faulting(p) && CleanFaults(p) && !Exceptional(p.w.status)
    ensures Stopped(Cycle(p)) && Cycle(p).w == MNext(p)
    ensures Cycle(p).mem == p.mem && Cycle(p).cc == p.cc
    ensures Cycle(p).r == WriteBack(p.r, p.w)
  {
  }

  lemma StoppedStays(p: Cpu)
    requires Stopped(p)
    ensures Stopped(Cycle(p)) && Cycle(p).w == p.w
    ensures Cycle(p).mem == p.mem && Cycle(p).cc == p.cc && Cycle(p).r == WriteBack(p.r, p.w)
  {
  }

  lemma WriteBackTwice(r: Regs, w: MemWb)
    ensures WriteBack(WriteBack(r, w), w) == WriteBack(r, w)
  {
  }

  /** From the cycle that finds a fault on, no younger instruction ever changes memory, condition codes
      or registers: after any number of cycles the state is that of the fault plus the write-back of the
      instruction ahead of it and of the faulting one itself. */
  lemma {:induction false} ExceptionSquashes(p: Cpu, n: nat)
    requires Faulting(p) && CleanFaults(p) && !Exceptional(p.w.status)
    ensures var q := Cycles(p, n + 1);
      && Stopped(q) && q.w == MNext(p) && q.mem == p.mem && q.cc == p.cc
      && q.r == if n == 0 then WriteBack(p.r, p.w) else WriteBack(WriteBack(p.r, p.w), MNext(p))
  {
    hide Faulting, CleanFaults, Stopped, Cycle, WriteBack, MNext;
    if n == 0 {
      FaultStops(p);
      assert Cycles(p, 0) == p;
    } else {
      ExceptionSquashes(p, n - 1);
      var q := Cycles(p, n);
      StoppedStays(q);
      WriteBackTwice(WriteBack(p.r, p.w), MNext(p));
      assert Cycles(p, n + 1) == Cycle(q);
    }
  }
}
