/** The control equations of the pipelined processor and what its stages compute from them.

    Each pipeline register has a current value and the value its stage computes for the next cycle.
    The equations are functions of those values; the stage functions put them together in the order
    fetch, memory, execute, decode. */
module Pipe {
  import opened Y86Words
  import opened Isa

  datatype IfId = IfId(icode: int, ifun: int, ra: int, rb: int, valc: word, valp: word, status: Stat)

  datatype IdEx = IdEx(icode: int, ifun: int, valc: word, vala: word, valb: word,
                       srca: int, srcb: int, deste: int, destm: int, status: Stat)

  datatype ExMem = ExMem(icode: int, ifun: int, takebranch: bool, vale: word, vala: word,
                         deste: int, destm: int, status: Stat)

  datatype MemWb = MemWb(icode: int, ifun: int, vale: word, valm: word, deste: int, destm: int, status: Stat)

  const BUBBLE_IF_ID := IfId(I_NOP, 0, REG_NONE, REG_NONE, 0, 0, BUB)
  const BUBBLE_ID_EX := IdEx(I_NOP, 0, 0, 0, 0, REG_NONE, REG_NONE, REG_NONE, REG_NONE, BUB)
  const BUBBLE_EX_MEM := ExMem(I_NOP, 0, false, 0, 0, REG_NONE, REG_NONE, BUB)
  const BUBBLE_MEM_WB := MemWb(I_NOP, 0, 0, 0, REG_NONE, REG_NONE, BUB)

  predicate Exceptional(s: Stat) { s == ADR || s == INS || s == HLT }

  // ------------------------------------------------------------------------------------------
  // Fetch

  function FPc(pc: word, m: ExMem, w: MemWb): word {
    if m.icode == I_JMP && !m.takebranch && m.vale == 0 then m.vala
    else if m.icode == I_JMP && m.takebranch && m.vale == 1 then m.vala
    else if w.icode == I_RET then w.valm
    else pc
  }

  predicate InstrValid(icode: int) { I_HALT <= icode <= I_IADDQ }

  /** do_if_stage: the instruction fetched at `pc`. */
  function FetchAt(m: Mem, pc: word): IfId {
    var error := !ByteAt(m, pc) || !ByteAt(m, Wrap(pc + 5));
    var icode := if error then I_NOP else m[pc] / 16;
    var ifun := if error then 0 else m[pc] % 16;
    var status := if error then ADR else if !InstrValid(icode) then INS else if icode == I_HALT then HLT else AOK;
    var p1 := Wrap(pc + 1);
    var need := NeedRegids(icode);
    var regids := if ByteAt(m, p1) then m[p1] else 0xFF;
    var p2 := if need then Wrap(p1 + 1) else p1;
    var imm := NeedImm(icode);
    IfId(icode, ifun, if need then regids / 16 else REG_NONE, if need then regids % 16 else REG_NONE,
         if imm then GetWord(m, p2) else 0, if imm then Wrap(p2 + 8) else p2, status)
  }

  /** The prediction: not taken when a positive value is being stored two instructions ahead. */
  predicate PredictNotTaken(d: IfId, e: IdEx) {
    e.icode == I_RMMOVQ && e.vala > 0 && d.icode == I_ALU
  }

  function PredPc(next: IfId, d: IfId, e: IdEx): word {
    if next.icode == I_JMP && PredictNotTaken(d, e) then next.valp
    else if next.icode == I_CALL || next.icode == I_JMP then next.valc
    else next.valp
  }

  // ------------------------------------------------------------------------------------------
  // Decode

  function SrcA(d: IfId): int {
    if d.icode == I_RRMOVQ || d.icode == I_RMMOVQ || d.icode == I_ALU || d.icode == I_PUSHQ then d.ra
    else if d.icode == I_POPQ || d.icode == I_RET then REG_RSP
    else REG_NONE
  }

  function SrcB(d: IfId): int {
    if d.icode == I_ALU || d.icode == I_RMMOVQ || d.icode == I_MRMOVQ || d.icode == I_IADDQ then d.rb
    else if d.icode == I_PUSHQ || d.icode == I_POPQ || d.icode == I_CALL || d.icode == I_RET then REG_RSP
    else REG_NONE
  }

  function DstE(d: IfId): int {
    if d.icode == I_RRMOVQ || d.icode == I_IRMOVQ || d.icode == I_ALU || d.icode == I_IADDQ then d.rb
    else if d.icode == I_PUSHQ || d.icode == I_POPQ || d.icode == I_CALL || d.icode == I_RET then REG_RSP
    else REG_NONE
  }

  function DstM(d: IfId): int {
    if d.icode == I_MRMOVQ || d.icode == I_POPQ then d.ra else REG_NONE
  }

  /** The forwarding chain: the newest pending value of `src`, or what the register file holds. */
  function Forward(src: int, eNext: ExMem, m: ExMem, mNext: MemWb, w: MemWb, regval: word): word {
    if src == eNext.deste then eNext.vale
    else if src == m.destm then mNext.valm
    else if src == m.deste then m.vale
    else if src == w.destm then w.valm
    else if src == w.deste then w.vale
    else regval
  }

  /** The flag a jump carries: 1 if it was recorded as predicted not taken. */
  function Flag(m: ExMem): word { if m.icode == I_RMMOVQ && m.vala > 0 then 1 else 0 }

  function DValA(d: IfId, eNext: ExMem, m: ExMem, mNext: MemWb, w: MemWb, r: Regs): word {
    if d.icode == I_CALL || d.icode == I_JMP then d.valp
    else Forward(SrcA(d), eNext, m, mNext, w, GetReg(r, SrcA(d)))
  }

  function DValB(d: IfId, eNext: ExMem, m: ExMem, mNext: MemWb, w: MemWb, r: Regs): word {
    if d.icode == I_JMP then Flag(m)
    else Forward(SrcB(d), eNext, m, mNext, w, GetReg(r, SrcB(d)))
  }

  /** do_id_wb_stages: the decoded instruction, given the two operand values. */
  function DecodeWith(d: IfId, vala: word, valb: word): IdEx {
    IdEx(d.icode, d.ifun, d.valc, vala, valb, SrcA(d), SrcB(d), DstE(d), DstM(d), d.status)
  }

  // ------------------------------------------------------------------------------------------
  // Execute

  function AluA(e: IdEx): word {
    if e.icode == I_JMP then 0
    else if e.icode == I_RRMOVQ || e.icode == I_ALU then e.vala
    else if e.icode == I_IRMOVQ || e.icode == I_RMMOVQ || e.icode == I_MRMOVQ || e.icode == I_IADDQ then e.valc
    else if e.icode == I_CALL || e.icode == I_PUSHQ then -8
    else if e.icode == I_RET || e.icode == I_POPQ then 8
    else 0
  }

  function AluB(e: IdEx): word {
    if e.icode == I_RMMOVQ || e.icode == I_MRMOVQ || e.icode == I_ALU || e.icode == I_CALL || e.icode == I_PUSHQ ||
       e.icode == I_RET || e.icode == I_POPQ || e.icode == I_IADDQ || e.icode == I_JMP
    then e.valb
    else 0
  }

  function AluFun(e: IdEx): int { if e.icode == I_ALU || e.icode == I_IADDQ then e.ifun else A_ADD }

  predicate SetCc(e: IdEx, mNext: MemWb, w: MemWb) {
    (e.icode == I_ALU || e.icode == I_IADDQ) && !Exceptional(mNext.status) && !Exceptional(w.status)
  }

  function EValA(e: IdEx): word { if e.icode == I_JMP && e.valb == 1 then e.valc else e.vala }

  /** do_ex_stage */
  function ExecuteStage(e: IdEx, cc: Cc): ExMem {
    var take := CondHolds(cc, e.ifun);
    ExMem(e.icode, e.ifun, take, ComputeAlu(AluFun(e), AluA(e), AluB(e)), EValA(e),
          if e.icode == I_RRMOVQ && !take then REG_NONE else e.deste, e.destm, e.status)
  }

  // ------------------------------------------------------------------------------------------
  // Memory

  function MemAddr(m: ExMem): word {
    if m.icode == I_RMMOVQ || m.icode == I_PUSHQ || m.icode == I_CALL || m.icode == I_MRMOVQ then m.vale
    else if m.icode == I_POPQ || m.icode == I_RET then m.vala
    else 0
  }

  predicate MemRead(m: ExMem) { m.icode == I_MRMOVQ || m.icode == I_POPQ || m.icode == I_RET }

  predicate Stores(icode: int) { icode == I_RMMOVQ || icode == I_PUSHQ || icode == I_CALL }

  predicate MemWrite(m: ExMem) { Stores(m.icode) }

  predicate DmemError(m: ExMem, mem: Mem) { (MemRead(m) || MemWrite(m)) && !WordAt(mem, MemAddr(m)) }

  /** do_mem_stage */
  function MemoryStage(m: ExMem, mem: Mem): MemWb {
    MemWb(m.icode, m.ifun, m.vale, if MemRead(m) then GetWord(mem, MemAddr(m)) else 0, m.deste, m.destm,
          if DmemError(m, mem) then ADR else m.status)
  }

  // ------------------------------------------------------------------------------------------
  // Pipeline control

  predicate LoadUse(e: IdEx, srca: int, srcb: int) {
    (e.icode == I_MRMOVQ || e.icode == I_POPQ) && (e.destm == srca || e.destm == srcb)
  }

  predicate RetInPipe(d: IfId, e: IdEx, m: ExMem) { d.icode == I_RET || e.icode == I_RET || m.icode == I_RET }

  /** A jump in execute that did not go the way its flag says. */
  predicate Mispredicted(e: IdEx, take: bool) {
    e.icode == I_JMP && ((!take && e.valb == 0) || (take && e.valb == 1))
  }

  /** p_stat_t, and pipe_cntl. */
  datatype Op = LOAD | STALL | BUBBLE | ERROR

  function PipeCntl(stall: bool, bubble: bool): Op {
    if stall then if bubble then ERROR else STALL
    else if bubble then BUBBLE else LOAD
  }

  predicate FStall(d: IfId, e: IdEx, m: ExMem) { LoadUse(e, SrcA(d), SrcB(d)) || RetInPipe(d, e, m) }

  predicate DStall(d: IfId, e: IdEx) { LoadUse(e, SrcA(d), SrcB(d)) }

  predicate DBubble(d: IfId, e: IdEx, m: ExMem, take: bool) {
    Mispredicted(e, take) || (!LoadUse(e, SrcA(d), SrcB(d)) && RetInPipe(d, e, m))
  }

  predicate EBubble(d: IfId, e: IdEx, take: bool) { Mispredicted(e, take) || LoadUse(e, SrcA(d), SrcB(d)) }

  predicate MBubble(mNext: MemWb, w: MemWb) { Exceptional(mNext.status) || Exceptional(w.status) }

  predicate WStall(w: MemWb) { Exceptional(w.status) }

  function Update<T>(op: Op, curr: T, next: T, bubble: T): T {
    match op
    case LOAD => next
    case STALL => curr
    case BUBBLE => bubble
    case ERROR => bubble
  }

  // ------------------------------------------------------------------------------------------
  // One cycle

  /** The processor just after its pipeline registers and state elements were updated. */
  datatype Cpu = Cpu(pc: word, d: IfId, e: IdEx, m: ExMem, w: MemWb, r: Regs, mem: Mem, cc: Cc)

  function MNext(p: Cpu): MemWb { MemoryStage(p.m, p.mem) }

  function ENext(p: Cpu): ExMem { ExecuteStage(p.e, p.cc) }

  function DNext(p: Cpu): IdEx {
    DecodeWith(p.d, DValA(p.d, ENext(p), p.m, MNext(p), p.w, p.r), DValB(p.d, ENext(p), p.m, MNext(p), p.w, p.r))
  }

  function FNext(p: Cpu): IfId { FetchAt(p.mem, FPc(p.pc, p.m, p.w)) }

  function Take(p: Cpu): bool { CondHolds(p.cc, p.e.ifun) }

  /** The registers after the pending writes of the write-back stage; the memory value wins. */
  function WriteBack(r: Regs, w: MemWb): Regs { SetReg(SetReg(r, w.deste, w.vale), w.destm, w.valm) }

  function MemAfter(p: Cpu): Mem { if MemWrite(p.m) then SetWord(p.mem, MemAddr(p.m), p.m.vala) else p.mem }

  function CcAfter(p: Cpu): Cc {
    if SetCc(p.e, MNext(p), p.w) then ComputeCc(AluFun(p.e), AluA(p.e), AluB(p.e)) else p.cc
  }

  function PcOp(p: Cpu): Op { PipeCntl(FStall(p.d, p.e, p.m), false) }

  function DOp(p: Cpu): Op { PipeCntl(DStall(p.d, p.e), DBubble(p.d, p.e, p.m, Take(p))) }

  function EOp(p: Cpu): Op { PipeCntl(false, EBubble(p.d, p.e, Take(p))) }

  function MOp(p: Cpu): Op { PipeCntl(false, MBubble(MNext(p), p.w)) }

  function WOp(p: Cpu): Op { PipeCntl(WStall(p.w), false) }

  /** The pipeline registers after one cycle, with the state elements given. */
  function Advance(p: Cpu, r: Regs, mem: Mem, cc: Cc): Cpu {
    Cpu(Update(PcOp(p), p.pc, PredPc(FNext(p), p.d, p.e), 0),
        Update(DOp(p), p.d, FNext(p), BUBBLE_IF_ID),
        Update(EOp(p), p.e, DNext(p), BUBBLE_ID_EX),
        Update(MOp(p), p.m, ENext(p), BUBBLE_EX_MEM),
        Update(WOp(p), p.w, MNext(p), BUBBLE_MEM_WB),
        r, mem, cc)
  }

  /** One cycle with all updates enabled. */
  function Cycle(p: Cpu): Cpu { Advance(p, WriteBack(p.r, p.w), MemAfter(p), CcAfter(p)) }

  /** The processor after reset: all bubbles, fetching at 0. */
  function Initial(r: Regs, mem: Mem, cc: Cc): Cpu {
    Cpu(0, BUBBLE_IF_ID, BUBBLE_ID_EX, BUBBLE_EX_MEM, BUBBLE_MEM_WB, r, mem, cc)
  }

  ghost function Cycles(p: Cpu, n: nat): Cpu {
    if n == 0 then p else Cycle(Cycles(p, n - 1))
  }
}
