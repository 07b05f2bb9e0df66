/** What a bounded simulation run computes: updates of memory and condition codes are held back near the
    instruction limit. */
module PsimSpec {
  import opened Y86Words
  import opened Isa
  import opened Pipe
  import opened PipeHazards
  import opened PipeRuns

  /** The processor and the condition codes waiting to be loaded. */
  datatype Machine = Machine(cpu: Cpu, ccIn: Cc)

  function AheadMem(p: Cpu): nat { if p.w.status != BUB then 1 else 0 }

  function AheadEx(p: Cpu): nat { AheadMem(p) + if MNext(p).status != BUB then 1 else 0 }

  /** The execute stage replaces the waiting condition codes only when it sets them. */
  function PendingCc(p: Cpu, ccIn: Cc): Cc {
    if SetCc(p.e, MNext(p), p.w) then ComputeCc(AluFun(p.e), AluA(p.e), AluB(p.e)) else ccIn
  }

  /** One cycle with `left` instructions still to complete. */
  function GatedCycle(x: Machine, left: int): Machine {
    var p := x.cpu;
    var q := Advance(p, WriteBack(p.r, p.w), if AheadMem(p) < left then MemAfter(p) else p.mem,
                     if AheadEx(p) < left then x.ccIn else p.cc);
    Machine(q, PendingCc(q, x.ccIn))
  }

  /** The machine after reset and `j` further cycles of a run with limit `maxInstr`. */
  ghost function GatedRun(p: Cpu, maxInstr: int, j: nat): Machine {
    if j == 0 then Machine(p, PendingCc(p, p.cc)) else GatedCycle(GatedRun(p, maxInstr, j - 1), maxInstr - j)
  }

  ghost predicate Exact(x: Machine, p: Cpu) { x.cpu == p && x.ccIn == CcAfter(p) }

  lemma ExactStep(x: Machine, p: Cpu, left: int)
    requires Exact(x, p) && left >= 3
    ensures Exact(GatedCycle(x, left), Cycle(p))
  {
  }

  lemma {:induction false} EarlyExact(p: Cpu, maxInstr: int, j: nat)
    requires j == 0 || j <= maxInstr - 3
    ensures Exact(GatedRun(p, maxInstr, j), Cycles(p, j))
  {
    if j > 0 {
      EarlyExact(p, maxInstr, j - 1);
      ExactStep(GatedRun(p, maxInstr, j - 1), Cycles(p, j - 1), maxInstr - j);
    }
  }

  /** Two instructions from the limit only the condition codes can be held back, and only those of an
      instruction that is not going to fault. */
  ghost predicate NearlyExact(x: Machine, p: Cpu) {
    || Exact(x, p)
    || (x.cpu == p.(cc := x.cpu.cc) && SetsFlags(p.m.icode) && !Exceptional(p.m.status))
  }

  lemma NearlyExactStep(x: Machine, p: Cpu, left: int)
    requires Exact(x, p) && left >= 2 && CleanFaults(p)
    ensures NearlyExact(GatedCycle(x, left), Cycle(p))
  {
    hide GetWord, SetWord, ComputeAlu, ComputeCc, CondHolds, Forward, FetchAt, WriteBack;
    var y, q := GatedCycle(x, left), Cycle(p);
    if SetCc(p.e, MNext(p), p.w) {
      assert q.m == ENext(p);
      assert y.cpu == q.(cc := y.cpu.cc);
    } else {
      assert y.cpu == q;
    }
  }

  lemma LastStep(x: Machine, p: Cpu, left: int)
    requires NearlyExact(x, p) && CleanFaults(p) && !Exceptional(p.w.status)
    ensures GatedCycle(x, left).cpu.w == Cycle(p).w
    ensures Exceptional(Cycle(p).w.status) ==> GatedCycle(x, left).cpu == Cycle(p)
  {
    hide GetWord, ComputeAlu, ComputeCc, CondHolds, Forward, FetchAt, WriteBack;
    var y, q := GatedCycle(x, left), Cycle(p);
    assert y.cpu.w == q.w;
    if Exceptional(q.w.status) {
      FaultStops(p);
      assert x.cpu == p;
      assert y.cpu == q;
    }
  }

  /** A run that ends with an exception has computed what unlimited cycles compute. */
  lemma LimitHarmless(r: Regs, mem: Mem, cc: Cc, maxInstr: int, j: nat)
    requires j < maxInstr && Running(Initial(r, mem, cc), j)
    ensures var x, p := GatedRun(Initial(r, mem, cc), maxInstr, j).cpu, Cycles(Initial(r, mem, cc), j);
      x.w == p.w && (Exceptional(p.w.status) ==> x == p)
  {
    hide GatedCycle, Cycle, CleanFaults, NearlyExact, PendingCc;
    var p := Initial(r, mem, cc);
    if j == 0 || j <= maxInstr - 3 {
      EarlyExact(p, maxInstr, j);
    } else {
      CleanFaultsReachable(r, mem, cc, j - 1);
      var x, q := GatedRun(p, maxInstr, j - 1), Cycles(p, j - 1);
      assert NearlyExact(x, q) by {
        if j - 1 == 0 || j - 1 <= maxInstr - 3 {
          EarlyExact(p, maxInstr, j - 1);
          ExactNearly(x, q);
        } else {
          EarlyExact(p, maxInstr, j - 2);
          CleanFaultsReachable(r, mem, cc, j - 2);
          NearlyExactStep(GatedRun(p, maxInstr, j - 2), Cycles(p, j - 2), maxInstr - (j - 1));
        }
      }
      LastStep(x, q, maxInstr - j);
    }
  }

  lemma ExactNearly(x: Machine, p: Cpu)
    requires Exact(x, p)
    ensures NearlyExact(x, p)
  {
  }
}
