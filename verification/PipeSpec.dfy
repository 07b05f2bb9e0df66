/** What the pipeline registers should hold for an instruction about to be executed in ISA state `s`,
    and why that makes an instruction's passage through the stages equal to one step of the ISA. */
module PipeSpec {
  import opened Bytes
  import opened Y86Words
  import opened Isa
  import opened Pipe

  /** A whole instruction naming real registers wherever it names any; the base register of a memory operand
      may be missing. */
  predicate Proper(i: Instr) {
    && i.okRegs && i.okImm
    && (i.icode == I_RRMOVQ || i.icode == I_ALU ==> RegValid(i.ra) && RegValid(i.rb))
    && (i.icode == I_RMMOVQ || i.icode == I_MRMOVQ ==> RegValid(i.ra))
    && (i.icode == I_IRMOVQ || i.icode == I_IADDQ ==> RegValid(i.rb))
    && (i.icode == I_PUSHQ || i.icode == I_POPQ ==> RegValid(i.ra))
  }

  /** The pipeline's ALU obeys the function code of an iaddq, which the ISA ignores: the code is 0, or makes no
      difference for these operands. */
  predicate Sums(s: State, i: Instr) {
    i.icode == I_IADDQ ==> AddsAnyway(i.ifun, i.valc, GetReg(s.r, i.rb))
  }

  /** The instructions the pipeline is meant for: proper ones with the fetch guard met. */
  ghost predicate Supported(s: State) {
    ByteAt(s.m, s.pc) ==>
      ByteAt(s.m, s.pc + 5) && Proper(Decode(s.m, s.pc)) && Sums(s, Decode(s.m, s.pc))
  }

  /** The decode register for an instruction, and for the one at `s.pc`. */
  function Fetched(i: Instr): IfId {
    IfId(i.icode, i.ifun, i.ra, i.rb, i.valc, i.next,
         if !InstrValid(i.icode) then INS else if i.icode == I_HALT then HLT else AOK)
  }

  function DAt(s: State): IfId { FetchAt(s.m, s.pc) }

  predicate UsesBase(d: IfId) { d.icode == I_RMMOVQ || d.icode == I_MRMOVQ }

  /** The execute register for `d`: operands that are read from a register have its value in `s`, and a missing
      base register counts as 0. */
  ghost predicate EOkFor(e: IdEx, d: IfId, s: State) {
    && e == DecodeWith(d, e.vala, e.valb)
    && (d.icode == I_CALL || d.icode == I_JMP ==> e.vala == d.valp)
    && (RegValid(SrcA(d)) ==> e.vala == GetReg(s.r, SrcA(d)))
    && (d.icode == I_JMP ==> e.valb == 0 || e.valb == 1)
    && (RegValid(SrcB(d)) || UsesBase(d) ==> e.valb == GetReg(s.r, SrcB(d)))
  }

  ghost predicate EOk(e: IdEx, s: State) { EOkFor(e, DAt(s), s) }

  /** The memory and write-back registers are what the stages make of such an execute register. */
  ghost predicate MOk(m: ExMem, s: State) {
    exists e {:trigger EOk(e, s)} :: EOk(e, s) && m == ExecuteStage(e, s.cc)
  }

  ghost predicate WOk(w: MemWb, s: State) {
    exists m {:trigger MOk(m, s)} :: MOk(m, s) && w == MemoryStage(m, s.m)
  }

  /** Fetch finds the fields step_state decodes. */
  lemma FetchDecodes(s: State)
    requires Supported(s) && ByteAt(s.m, s.pc)
    ensures DAt(s) == Fetched(Decode(s.m, s.pc))
  {
    hide GetWord;
    var pc := s.pc;
    WrapIsWord(pc + 1);
    WrapIsWord(pc + 2);
    WrapIsWord(pc + 5);
    WrapIsWord(pc + 9);
    WrapIsWord(pc + 10);
  }

  lemma FetchFails(s: State)
    requires !ByteAt(s.m, s.pc)
    ensures var d := DAt(s);
      d.icode == I_NOP && d.status == ADR && SrcA(d) == SrcB(d) == DstE(d) == DstM(d) == REG_NONE
  {
  }

  lemma WrapIsWord(x: word)
    ensures Wrap(x) == x
  {
  }

  /** Where control goes after an instruction that does not fault. */
  function NextPc(d: IfId, cc: Cc, valm: word): word {
    if d.icode == I_JMP then if CondHolds(cc, d.ifun) then d.valc else d.valp
    else if d.icode == I_CALL then d.valc
    else if d.icode == I_RET then valm
    else d.valp
  }

  /** What the four later stages make of the instruction in `d` takes `s` to `t` with status `stat`. */
  ghost predicate AgreesFor(e: IdEx, d: IfId, s: State, t: State, stat: Stat) {
    var m := ExecuteStage(e, s.cc);
    var w := MemoryStage(m, s.m);
    && w.status == stat
    && t.m == (if MemWrite(m) then SetWord(s.m, MemAddr(m), m.vala) else s.m)
    && t.cc == (if e.icode == I_ALU || e.icode == I_IADDQ then ComputeCc(AluFun(e), AluA(e), AluB(e)) else s.cc)
    && (stat == AOK ==> t.r == WriteBack(s.r, w) && t.pc == NextPc(d, s.cc, w.valm))
    && (stat != AOK && !DmemError(m, s.m) ==> t == s)
  }

  /** An instruction's passage through the stages is one step of the ISA. */
  lemma StepAgrees(e: IdEx, s: State)
    requires Supported(s) && EOk(e, s)
    ensures AgreesFor(e, DAt(s), s, Step(s).0, StepStat(s))
  {
    if !ByteAt(s.m, s.pc) {
      FetchFails(s);
    } else {
      FetchDecodes(s);
      ExecuteAgrees(e, s, Decode(s.m, s.pc));
    }
  }

  lemma ExecuteAgrees(e: IdEx, s: State, i: Instr)
    requires Proper(i) && Sums(s, i) && EOkFor(e, Fetched(i), s)
    ensures AgreesFor(e, Fetched(i), s, Execute(s, i).0, Execute(s, i).1)
  {
    hide AgreesFor, EOkFor, Execute;
    if i.icode == I_RRMOVQ || i.icode == I_IRMOVQ {
      AgreesMove(e, s, i);
    } else if i.icode == I_RMMOVQ || i.icode == I_MRMOVQ {
      AgreesMemory(e, s, i);
    } else if i.icode == I_ALU || i.icode == I_IADDQ {
      AgreesAlu(e, s, i);
    } else if i.icode == I_CALL || i.icode == I_PUSHQ {
      AgreesPush(e, s, i);
    } else if i.icode == I_RET || i.icode == I_POPQ {
      AgreesPop(e, s, i);
    } else {
      AgreesOther(e, s, i);
    }
  }

  lemma AgreesMove(e: IdEx, s: State, i: Instr)
    requires Proper(i) && EOkFor(e, Fetched(i), s)
    requires i.icode == I_RRMOVQ || i.icode == I_IRMOVQ
    ensures AgreesFor(e, Fetched(i), s, Execute(s, i).0, Execute(s, i).1)
  {
    WrapIsWord(AluA(e));
    assert AluA(e) + 0 == AluA(e);
  }

  lemma AgreesMemory(e: IdEx, s: State, i: Instr)
    requires Proper(i) && EOkFor(e, Fetched(i), s)
    requires i.icode == I_RMMOVQ || i.icode == I_MRMOVQ
    ensures AgreesFor(e, Fetched(i), s, Execute(s, i).0, Execute(s, i).1)
  {
    hide GetWord, Splice, Wrap;
    assert MemAddr(ExecuteStage(e, s.cc)) == Wrap(i.valc + GetReg(s.r, i.rb));
    WrapIsWord(i.valc);
    assert AgreesFor(e, Fetched(i), s, Execute(s, i).0, Execute(s, i).1);
  }

  lemma AgreesAlu(e: IdEx, s: State, i: Instr)
    requires Proper(i) && Sums(s, i) && EOkFor(e, Fetched(i), s)
    requires i.icode == I_ALU || i.icode == I_IADDQ
    ensures AgreesFor(e, Fetched(i), s, Execute(s, i).0, Execute(s, i).1)
  {
    hide Wrap, ComputeCc, ComputeAlu, AddsAnyway;
    if i.icode == I_IADDQ {
      AddsAnywayExact(i.ifun, i.valc, GetReg(s.r, i.rb));
    }
    assert AluA(e) + AluB(e) == AluB(e) + AluA(e);
    assert AgreesFor(e, Fetched(i), s, Execute(s, i).0, Execute(s, i).1);
  }

  lemma AgreesPush(e: IdEx, s: State, i: Instr)
    requires Proper(i) && EOkFor(e, Fetched(i), s)
    requires i.icode == I_CALL || i.icode == I_PUSHQ
    ensures AgreesFor(e, Fetched(i), s, Execute(s, i).0, Execute(s, i).1)
  {
    hide GetWord, Splice, Wrap;
    assert -8 + AluB(e) == AluB(e) - 8;
    assert MemAddr(ExecuteStage(e, s.cc)) == Wrap(GetReg(s.r, REG_RSP) - 8);
    assert AgreesFor(e, Fetched(i), s, Execute(s, i).0, Execute(s, i).1);
  }

  lemma AgreesPop(e: IdEx, s: State, i: Instr)
    requires Proper(i) && EOkFor(e, Fetched(i), s)
    requires i.icode == I_RET || i.icode == I_POPQ
    ensures AgreesFor(e, Fetched(i), s, Execute(s, i).0, Execute(s, i).1)
  {
    hide GetWord, SetWord, Wrap;
    assert 8 + AluB(e) == AluB(e) + 8;
    assert AgreesFor(e, Fetched(i), s, Execute(s, i).0, Execute(s, i).1);
  }

  lemma AgreesOther(e: IdEx, s: State, i: Instr)
    requires Proper(i) && EOkFor(e, Fetched(i), s)
    requires i.icode == I_NOP || i.icode == I_HALT || i.icode == I_JMP || !InstrValid(i.icode)
    ensures AgreesFor(e, Fetched(i), s, Execute(s, i).0, Execute(s, i).1)
  {
  }
}
