/** The instruction-level model of Y86-64: one instruction per step. */
module Isa {
  import opened Bytes
  import opened Y86Words

  // reg_id_t
  const REG_RSP := 4
  const REG_NONE := 15

  // itype_t
  const I_HALT := 0
  const I_NOP := 1
  const I_RRMOVQ := 2
  const I_IRMOVQ := 3
  const I_RMMOVQ := 4
  const I_MRMOVQ := 5
  const I_ALU := 6
  const I_JMP := 7
  const I_CALL := 8
  const I_RET := 9
  const I_PUSHQ := 10
  const I_POPQ := 11
  const I_IADDQ := 12

  datatype Stat = BUB | AOK | HLT | ADR | INS | PIP

  type Mem = m: seq<byte> | |m| < 0x8000_0000

  /** The register file: one word for each of the 15 program registers. */
  type Regs = r: seq<word> | |r| == 15 witness seq(15, _ => 0)

  datatype State = State(pc: word, r: Regs, m: Mem, cc: Cc)

  // ------------------------------------------------------------------------------------------
  // Memory and register access

  /** get_byte_val and get_word_val succeed at `pos`. */
  predicate ByteAt(m: Mem, pos: int) { 0 <= pos < |m| }

  predicate WordAt(m: Mem, pos: int) { 0 <= pos && pos + 8 <= |m| }

  function GetByte(m: Mem, pos: int): byte { if ByteAt(m, pos) then m[pos] else 0 }

  /** The word at `pos`, least significant byte first; 0 where there is none. */
  function GetWord(m: Mem, pos: int): word {
    if WordAt(m, pos) then Wrap(LittleEndian(m[pos..pos + 8])) else 0
  }

  /** The memory with `v` stored at `pos`; unchanged where a word does not fit. */
  function SetWord(m: Mem, pos: int, v: word): Mem {
    if WordAt(m, pos) then Splice(m, pos, Encode(Unsigned(v), 8)) else m
  }

  predicate RegValid(id: int) { 0 <= id < REG_NONE }

  function GetReg(r: Regs, id: int): word { if RegValid(id) then r[id] else 0 }

  function SetReg(r: Regs, id: int, v: word): Regs { if RegValid(id) then r[id := v] else r }

  /** A stored word reads back, and words elsewhere are not disturbed. */
  lemma SetGetWord(m: Mem, p: int, v: word, q: int)
    requires WordAt(m, p)
    ensures GetWord(SetWord(m, p, v), p) == v
    ensures q + 8 <= p || p + 8 <= q ==> GetWord(SetWord(m, p, v), q) == GetWord(m, q)
  {
    hide Wrap, LittleEndian, Encode;
    var n := SetWord(m, p, v);
    WordRoundTrip(v);
    assert n[p..p + 8] == Encode(Unsigned(v), 8);
    if WordAt(m, q) && (q + 8 <= p || p + 8 <= q) {
      assert n[q..q + 8] == m[q..q + 8];
    }
  }

  lemma WordRoundTrip(v: word)
    ensures Wrap(LittleEndian(Encode(Unsigned(v), 8))) == v
  {
    assert Pow256(8) == 0x1_0000_0000_0000_0000;
    hide Pow256, Encode, LittleEndian;
    DecodeEncode(Unsigned(v), 8);
  }

  // ------------------------------------------------------------------------------------------
  // step_state

  predicate NeedRegids(icode: int) {
    icode == I_RRMOVQ || icode == I_ALU || icode == I_PUSHQ || icode == I_POPQ ||
    icode == I_IRMOVQ || icode == I_RMMOVQ || icode == I_MRMOVQ || icode == I_IADDQ
  }

  predicate NeedImm(icode: int) {
    icode == I_IRMOVQ || icode == I_RMMOVQ || icode == I_MRMOVQ ||
    icode == I_JMP || icode == I_CALL || icode == I_IADDQ
  }

  /** The fields of the instruction at `pc`, and whether its register and constant bytes are in memory. */
  datatype Instr = Instr(icode: int, ifun: int, ra: int, rb: int, valc: word, next: word, okRegs: bool, okImm: bool)

  function Decode(m: Mem, pc: word): Instr
    requires ByteAt(m, pc)
  {
    var icode, ifun := m[pc] / 16, m[pc] % 16;
    var p1 := pc + 1;
    var need := NeedRegids(icode);
    var okRegs := need ==> ByteAt(m, p1);
    var regids := GetByte(m, p1);
    var p2 := if need then p1 + 1 else p1;
    var imm := NeedImm(icode);
    var okImm := imm ==> WordAt(m, p2);
    Instr(icode, ifun, if need then regids / 16 else REG_NONE, if need then regids % 16 else REG_NONE,
          if imm then GetWord(m, p2) else 0, if imm then p2 + 8 else p2, okRegs, okImm)
  }

  /** step_state: the state after the instruction at `s.pc`, and its status. */
  function Step(s: State): (State, Stat) {
    if !ByteAt(s.m, s.pc) then (s, ADR) else Execute(s, Decode(s.m, s.pc))
  }

  /** The switch of step_state. */
  function Execute(s: State, i: Instr): (State, Stat) {
    if i.icode == I_NOP then (s.(pc := i.next), AOK)
    else if i.icode == I_HALT then (s, HLT)
    else if i.icode == I_RRMOVQ then
      if !i.okRegs then (s, ADR)
      else if !RegValid(i.ra) || !RegValid(i.rb) then (s, INS)
      else
        var r := if CondHolds(s.cc, i.ifun) then SetReg(s.r, i.rb, GetReg(s.r, i.ra)) else s.r;
        (s.(r := r, pc := i.next), AOK)
    else if i.icode == I_IRMOVQ then
      if !i.okRegs then (s, ADR)
      else if !i.okImm || !RegValid(i.rb) then (s, INS)
      else (s.(r := SetReg(s.r, i.rb, i.valc), pc := i.next), AOK)
    else if i.icode == I_RMMOVQ then
      if !i.okRegs then (s, ADR)
      else if !i.okImm || !RegValid(i.ra) then (s, INS)
      else
        var addr := if RegValid(i.rb) then Wrap(i.valc + GetReg(s.r, i.rb)) else i.valc;
        if !WordAt(s.m, addr) then (s, ADR)
        else (s.(m := SetWord(s.m, addr, GetReg(s.r, i.ra)), pc := i.next), AOK)
    else if i.icode == I_MRMOVQ then
      if !i.okRegs then (s, ADR)
      else if !i.okImm || !RegValid(i.ra) then (s, INS)
      else
        var addr := if RegValid(i.rb) then Wrap(i.valc + GetReg(s.r, i.rb)) else i.valc;
        if !WordAt(s.m, addr) then (s, ADR)
        else (s.(r := SetReg(s.r, i.ra, GetWord(s.m, addr)), pc := i.next), AOK)
    else if i.icode == I_ALU then
      if !i.okRegs then (s, ADR)
      else
        var argA, argB := GetReg(s.r, i.ra), GetReg(s.r, i.rb);
        (s.(r := SetReg(s.r, i.rb, ComputeAlu(i.ifun, argA, argB)), cc := ComputeCc(i.ifun, argA, argB),
            pc := i.next), AOK)
    else if i.icode == I_JMP then
      if !i.okImm then (s, ADR)
      else (s.(pc := if CondHolds(s.cc, i.ifun) then i.valc else i.next), AOK)
    else if i.icode == I_CALL then
      if !i.okImm then (s, ADR)
      else
        var val := Wrap(GetReg(s.r, REG_RSP) - 8);
        var r := SetReg(s.r, REG_RSP, val);
        if !WordAt(s.m, val) then (s.(r := r), ADR)
        else (s.(r := r, m := SetWord(s.m, val, i.next), pc := i.valc), AOK)
    else if i.icode == I_RET then
      var dval := GetReg(s.r, REG_RSP);
      if !WordAt(s.m, dval) then (s, ADR)
      else (s.(r := SetReg(s.r, REG_RSP, Wrap(dval + 8)), pc := GetWord(s.m, dval)), AOK)
    else if i.icode == I_PUSHQ then
      if !i.okRegs then (s, ADR)
      else if !RegValid(i.ra) then (s, INS)
      else
        var val, dval := GetReg(s.r, i.ra), Wrap(GetReg(s.r, REG_RSP) - 8);
        var r := SetReg(s.r, REG_RSP, dval);
        if !WordAt(s.m, dval) then (s.(r := r), ADR)
        else (s.(r := r, m := SetWord(s.m, dval, val), pc := i.next), AOK)
    else if i.icode == I_POPQ then
      if !i.okRegs then (s, ADR)
      else if !RegValid(i.ra) then (s, INS)
      else
        var dval := GetReg(s.r, REG_RSP);
        var r := SetReg(s.r, REG_RSP, Wrap(dval + 8));
        if !WordAt(s.m, dval) then (s.(r := r), ADR)
        else (s.(r := SetReg(r, i.ra, GetWord(s.m, dval)), pc := i.next), AOK)
    else if i.icode == I_IADDQ then
      if !i.okRegs then (s, ADR)
      else if !i.okImm || !RegValid(i.rb) then (s, INS)
      else
        var argB := GetReg(s.r, i.rb);
        (s.(r := SetReg(s.r, i.rb, Wrap(argB + i.valc)), cc := ComputeCc(A_ADD, i.valc, argB), pc := i.next), AOK)
    else (s, INS)
  }

  /** The state after `n` calls of step_state. */
  ghost function Run(s: State, n: nat): State {
    if n == 0 then s else Step(Run(s, n - 1)).0
  }

  /** The status the next step from `s` returns. */
  function StepStat(s: State): Stat { Step(s).1 }
}
