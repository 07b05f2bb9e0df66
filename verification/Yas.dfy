/** The Y86-64 assembler: lines of tokens, read twice, become addressed bytes. */
module Yas {
  import opened Bytes
  import opened Y86Words
  import opened Isa
  import opened MemRec

  datatype Option<T> = None | Some(value: T)

  // ------------------------------------------------------------------------------------------
  // Tokens and the instruction table

  datatype Mnemonic =
    | NOP | HALT | RRMOVQ | CMOVLE | CMOVL | CMOVE | CMOVNE | CMOVGE | CMOVG | IRMOVQ | RMMOVQ | MRMOVQ
    | ADDQ | SUBQ | ANDQ | XORQ | JMP | JLE | JL | JE | JNE | JGE | JG | CALL | RET | PUSHQ | POPQ | IADDQ
    | BYTE | WORD | LONG | QUAD | POS | ALIGN

  type regid = x: int | 0 <= x < REG_NONE

  /** A register token holds the number find_register gives its name. */
  datatype Token =
    | TIdent(name: string) | TNum(ival: word) | TReg(id: regid) | TInstr(m: Mnemonic) | TPunct(c: char) | TErr

  const TOK_PER_LINE := 12

  datatype Arg = R | M | I | NoArg

  /** instr_t: opcode byte, length, and for each argument its kind, byte position, and nibble or width. */
  datatype Entry = Def(icode: int, ifun: int, bytes: nat,
                       arg1: Arg, arg1pos: nat, arg1hi: nat, arg2: Arg, arg2pos: nat, arg2hi: nat)

  function Plain(icode: int): Entry { Def(icode, 0, 1, NoArg, 0, 0, NoArg, 0, 0) }

  function RegReg(icode: int, ifun: int): Entry { Def(icode, ifun, 2, R, 1, 1, R, 1, 0) }

  function Target(icode: int, ifun: int): Entry { Def(icode, ifun, 9, I, 1, 8, NoArg, 0, 0) }

  function OneReg(icode: int): Entry { Def(icode, 0, 2, R, 1, 1, NoArg, 0, 0) }

  function DataDef(n: nat): Entry { Def(0, 0, n, I, 0, n, NoArg, 0, 0) }

  /** find_instr; the directives .pos and .align are not in the table. */
  function Table(m: Mnemonic): Entry {
    match m
    case NOP => Plain(I_NOP)
    case HALT => Plain(I_HALT)
    case RRMOVQ => RegReg(I_RRMOVQ, 0)
    case CMOVLE => RegReg(I_RRMOVQ, C_LE)
    case CMOVL => RegReg(I_RRMOVQ, C_L)
    case CMOVE => RegReg(I_RRMOVQ, C_E)
    case CMOVNE => RegReg(I_RRMOVQ, C_NE)
    case CMOVGE => RegReg(I_RRMOVQ, C_GE)
    case CMOVG => RegReg(I_RRMOVQ, C_G)
    case IRMOVQ => Def(I_IRMOVQ, 0, 10, I, 2, 8, R, 1, 0)
    case RMMOVQ => Def(I_RMMOVQ, 0, 10, R, 1, 1, M, 1, 0)
    case MRMOVQ => Def(I_MRMOVQ, 0, 10, M, 1, 0, R, 1, 1)
    case ADDQ => RegReg(I_ALU, A_ADD)
    case SUBQ => RegReg(I_ALU, A_SUB)
    case ANDQ => RegReg(I_ALU, A_AND)
    case XORQ => RegReg(I_ALU, A_XOR)
    case JMP => Target(I_JMP, C_YES)
    case JLE => Target(I_JMP, C_LE)
    case JL => Target(I_JMP, C_L)
    case JE => Target(I_JMP, C_E)
    case JNE => Target(I_JMP, C_NE)
    case JGE => Target(I_JMP, C_GE)
    case JG => Target(I_JMP, C_G)
    case CALL => Target(I_CALL, 0)
    case RET => Plain(I_RET)
    case PUSHQ => OneReg(I_PUSHQ)
    case POPQ => OneReg(I_POPQ)
    case IADDQ => Def(I_IADDQ, 0, 10, I, 2, 8, R, 1, 0)
    case BYTE => DataDef(1)
    case WORD => DataDef(2)
    case LONG => DataDef(4)
    case QUAD => DataDef(8)
    case POS => Def(0, 0, 0, NoArg, 0, 0, NoArg, 0, 0)
    case ALIGN => Def(0, 0, 0, NoArg, 0, 0, NoArg, 0, 0)
  }

  // ------------------------------------------------------------------------------------------
  // Where lines go

  /** What a line is, whichever pass reads it. */
  datatype Shape =
    | Blank
    | Malformed
    | LabelOnly
    | Directive(next: int)
    | Code(m: Mnemonic, args: nat)

  function Tok(line: seq<Token>, i: nat): Token { if i < |line| then line[i] else TErr }

  /** The label at the head of a line. */
  function LabelOf(line: seq<Token>): Option<string> {
    if |line| > 0 && line[0].TIdent? && Tok(line, 1) == TPunct(':') then Some(line[0].name) else None
  }

  /** C division truncates. */
  function CDiv(a: int, b: int): int
    requires b > 0
  {
    if a >= 0 then a / b else -((-a) / b)
  }

  function ShapeOf(line: seq<Token>, pos: int): Shape {
    if line == [] then Blank
    else if line[0].TIdent? && LabelOf(line) == None then Malformed
    else if LabelOf(line).Some? && |line| == 2 then LabelOnly
    else
      var i := if LabelOf(line).Some? then 2 else 0;
      if !Tok(line, i).TInstr? then Malformed
      else
        var m := Tok(line, i).m;
        if m == POS then
          if Tok(line, i + 1).TNum? then Directive(ToInt(Tok(line, i + 1).ival)) else Malformed
        else if m == ALIGN then
          if Tok(line, i + 1).TNum? && ToInt(Tok(line, i + 1).ival) > 0 then
            var a := ToInt(Tok(line, i + 1).ival);
            Directive(CDiv(pos + a - 1, a) * a)
          else Malformed
        else Code(m, i + 1)
  }

  /** The position behind a line that starts at `pos`. */
  function NextPos(line: seq<Token>, pos: int): int {
    match ShapeOf(line, pos)
    case Directive(next) => next
    case Code(m, _) => pos + Table(m).bytes
    case _ => pos
  }

  /** The position of line `k`. */
  function PosAt(lines: seq<seq<Token>>, k: nat): int
    requires k <= |lines|
  {
    if k == 0 then 0 else NextPos(lines[k - 1], PosAt(lines, k - 1))
  }

  type SymbolTable = seq<(string, int)>

  /** The labels of the first `k` lines with their positions, in order. */
  function Labels(lines: seq<seq<Token>>, k: nat): SymbolTable
    requires k <= |lines|
  {
    if k == 0 then []
    else
      Labels(lines, k - 1) + LabelEntry(lines[k - 1], PosAt(lines, k - 1))
  }

  function LabelEntry(line: seq<Token>, pos: int): SymbolTable {
    match LabelOf(line)
    case Some(x) => [(x, pos)]
    case None => []
  }

  /** find_symbol: the first definition. */
  function Find(table: SymbolTable, name: string): (r: Option<int>)
    ensures r.Some? <==> exists j :: 0 <= j < |table| && table[j].0 == name
    ensures r.Some? ==> exists j :: 0 <= j < |table| && table[j] == (name, r.value) &&
                          forall i :: 0 <= i < j ==> table[i].0 != name
  {
    if table == [] then None
    else
      var n := |table| - 1;
      var r := Find(table[..n], name);
      if r.Some? then r else if table[n].0 == name then Some(table[n].1) else None
  }

  // ------------------------------------------------------------------------------------------
  // What an instruction line encodes

  /** An argument: its register (REG_NONE where it has none), its value, and the token behind it. */
  datatype ArgVal = ArgVal(reg: int, val: word, next: nat)

  /** An int as a word. */
  function ToWord(x: int): word { Wrap(x) }

  function ImmOf(table: SymbolTable, t: Token): Option<word> {
    match t
    case TNum(n) => Some(n)
    case TIdent(x) => (match Find(table, x)
      case Some(v) => Some(ToWord(v))
      case None => None)
    case _ => None
  }

  /** A memory argument: an optional displacement, then an optional register in parentheses. */
  function ParseMem(table: SymbolTable, line: seq<Token>, at: nat): Option<ArgVal> {
    var t := Tok(line, at);
    if (t.TNum? || t.TIdent?) && ImmOf(table, t) == None then None
    else
      var val := if t.TNum? || t.TIdent? then ImmOf(table, t).value else 0;
      var i := if t.TNum? || t.TIdent? then at + 1 else at;
      if Tok(line, i) != TPunct('(') then Some(ArgVal(REG_NONE, val, i))
      else if Tok(line, i + 1).TReg? && Tok(line, i + 2) == TPunct(')') then
        Some(ArgVal(Tok(line, i + 1).id, val, i + 3))
      else None
  }

  function ParseArg(kind: Arg, table: SymbolTable, line: seq<Token>, at: nat): Option<ArgVal> {
    match kind
    case R => if Tok(line, at).TReg? then Some(ArgVal(Tok(line, at).id, 0, at + 1)) else None
    case M => ParseMem(table, line, at)
    case I => (match ImmOf(table, Tok(line, at))
      case Some(v) => Some(ArgVal(REG_NONE, v, at + 1))
      case None => None)
    case NoArg => Some(ArgVal(REG_NONE, 0, at))
  }

  /** The fields of the instruction: both register halves and the constant. */
  datatype Fields = Fields(ra: int, rb: int, val: word)

  function SetField(kind: Arg, hi: nat, a: ArgVal, f: Fields): Fields {
    match kind
    case R => if hi > 0 then f.(ra := a.reg) else f.(rb := a.reg)
    case M => f.(rb := a.reg, val := a.val)
    case I => f.(val := a.val)
    case NoArg => f
  }

  /** The fields an instruction line gives, if its arguments are as the table says. */
  function FieldsOf(def: Entry, table: SymbolTable, line: seq<Token>, at: nat): Option<Fields> {
    match ParseArg(def.arg1, table, line, at)
    case None => None
    case Some(a) =>
      var f := SetField(def.arg1, def.arg1hi, a, Fields(REG_NONE, REG_NONE, 0));
      if def.arg2 == NoArg then Some(f)
      else if Tok(line, a.next) != TPunct(',') then None
      else match ParseArg(def.arg2, table, line, a.next + 1)
        case None => None
        case Some(b) => Some(SetField(def.arg2, def.arg2hi, b, f))
  }

  predicate IsData(def: Entry) { def.arg1 == I && def.arg1pos == 0 }

  /** The formats the table's entries have, and what the processor will expect behind their opcode. */
  datatype Format = FPlain | FRegs | FOne | FTarget | FData | FImmReg | FRegMem | FMemReg

  function FormatOf(def: Entry): Format {
    if def.arg1 == NoArg then FPlain
    else if def.arg1 == I && def.arg1pos == 0 then FData
    else if def.arg1 == I && def.arg2 == NoArg then FTarget
    else if def.arg1 == I then FImmReg
    else if def.arg1 == M then FMemReg
    else if def.arg2 == M then FRegMem
    else if def.arg2 == R then FRegs
    else FOne
  }

  predicate Sound(def: Entry) {
    && 0 <= def.icode < 16 && 0 <= def.ifun < 16
    && match FormatOf(def)
       case FPlain => def == Plain(def.icode) && !NeedRegids(def.icode) && !NeedImm(def.icode)
       case FRegs => def == RegReg(def.icode, def.ifun) && NeedRegids(def.icode) && !NeedImm(def.icode)
       case FOne => def == OneReg(def.icode) && NeedRegids(def.icode) && !NeedImm(def.icode)
       case FTarget => def == Target(def.icode, def.ifun) && !NeedRegids(def.icode) && NeedImm(def.icode)
       case FData => def == DataDef(def.bytes) && def.bytes <= 8
       case FImmReg => def == Def(def.icode, 0, 10, I, 2, 8, R, 1, 0) && NeedRegids(def.icode) && NeedImm(def.icode)
       case FRegMem => def == Def(I_RMMOVQ, 0, 10, R, 1, 1, M, 1, 0)
       case FMemReg => def == Def(I_MRMOVQ, 0, 10, M, 1, 0, R, 1, 1)
  }

  lemma TableSound(m: Mnemonic)
    requires m != POS && m != ALIGN
    ensures Sound(Table(m))
  {
    hide Sound, Table;
    var d := Table(m);
    TableFormats(m);
    match FormatOf(d)
    case FPlain => assert Sound(d) by { PlainSound(m); }
    case FRegs => assert Sound(d) by { RegsSound(m); }
    case FTarget => assert Sound(d) by { TargetSound(m); }
    case _ => assert Sound(d) by { OthersSound(m); }
  }

  lemma TableFormats(m: Mnemonic)
    requires m != POS && m != ALIGN
    ensures FormatOf(Table(m)) == FPlain <==> m.NOP? || m.HALT? || m.RET?
    ensures FormatOf(Table(m)) == FRegs <==> m.RRMOVQ? || m.CMOVLE? || m.CMOVL? || m.CMOVE? || m.CMOVNE? || m.CMOVGE? ||
                                             m.CMOVG? || m.ADDQ? || m.SUBQ? || m.ANDQ? || m.XORQ?
    ensures FormatOf(Table(m)) == FTarget <==>
      m.JMP? || m.JLE? || m.JL? || m.JE? || m.JNE? || m.JGE? || m.JG? || m.CALL?
  {
  }

  lemma PlainSound(m: Mnemonic)
    requires m.NOP? || m.HALT? || m.RET?
    ensures Sound(Table(m))
  {
  }

  lemma RegsSound(m: Mnemonic)
    requires m.RRMOVQ? || m.CMOVLE? || m.CMOVL? || m.CMOVE? || m.CMOVNE? || m.CMOVGE? || m.CMOVG? || m.ADDQ? ||
             m.SUBQ? ||
             m.ANDQ? || m.XORQ?
    ensures Sound(Table(m))
  {
  }

  lemma TargetSound(m: Mnemonic)
    requires m.JMP? || m.JLE? || m.JL? || m.JE? || m.JNE? || m.JGE? || m.JG? || m.CALL?
    ensures Sound(Table(m))
  {
  }

  lemma OthersSound(m: Mnemonic)
    requires m.IRMOVQ? || m.IADDQ? || m.RMMOVQ? || m.MRMOVQ? || m.PUSHQ? || m.POPQ? || m.BYTE? || m.WORD? ||
             m.LONG? || m.QUAD?
    ensures Sound(Table(m))
  {
  }

  /** The bytes: opcode, register byte and constant, as far as the instruction has them; or just data. */
  function Encoding(def: Entry, f: Fields): seq<byte>
    requires Sound(def) && 0 <= f.ra < 16 && 0 <= f.rb < 16
  {
    if IsData(def) then Encode(f.val, def.bytes)
    else
      [def.icode * 16 + def.ifun] +
      (if NeedRegids(def.icode) then [f.ra * 16 + f.rb] else []) +
      (if NeedImm(def.icode) then Encode(Unsigned(f.val), 8) else [])
  }

  // What the arguments' writers do to the code bytes

  function PutNibble(c: seq<byte>, pos: nat, hi: nat, reg: int): seq<byte>
    requires pos < |c| && 0 <= reg < 16
  {
    c[pos := if hi > 0 then reg * 16 + c[pos] % 16 else c[pos] / 16 * 16 + reg]
  }

  function Put(kind: Arg, pos: nat, hi: nat, a: ArgVal, c: seq<byte>): seq<byte>
    requires |c| == 10 && Fits(kind, pos, hi) && 0 <= a.reg < 16
  {
    match kind
    case R => PutNibble(c, pos, hi, a.reg)
    case M => Splice(PutNibble(c, pos, 0, a.reg), pos + 1, Encode(a.val, 8))
    case I => Splice(c, pos, Encode(a.val, hi))
    case NoArg => c
  }

  lemma PutMem(c: seq<byte>, reg: int, val: word, next: nat)
    requires |c| == 10 && 0 <= reg < 16
    ensures Put(M, 1, 0, ArgVal(reg, val, next), c) == Splice(PutNibble(c, 1, 0, reg), 2, Encode(val, 8))
  {
  }

  predicate Fits(kind: Arg, pos: nat, hi: nat) {
    match kind
    case R => pos < 10
    case M => pos == 1
    case I => pos + hi <= 10
    case NoArg => true
  }

  // ------------------------------------------------------------------------------------------
  // The assembler

  lemma OpcodeByte(d: Entry)
    requires Sound(d)
    ensures 0 <= d.icode * 16 + d.ifun < 256
  {
  }

  lemma SoundFits(d: Entry)
    requires Sound(d)
    ensures Fits(d.arg1, d.arg1pos, d.arg1hi) && Fits(d.arg2, d.arg2pos, d.arg2hi) && d.bytes <= 10
  {
  }

  /** The argument writers fill in exactly the bytes of the encoding, whatever the code buffer held. */
  lemma OneArgument(d: Entry, c0: seq<byte>, a: ArgVal)
    requires Sound(d) && d.arg2 == NoArg && 0 <= a.reg < 16
    requires |c0| == 10 && c0[0] == d.icode * 16 + d.ifun && c0[1] == 0xFF
    ensures Fits(d.arg1, d.arg1pos, d.arg1hi) && d.bytes <= 10
    ensures var f := SetField(d.arg1, d.arg1hi, a, Fields(REG_NONE, REG_NONE, 0));
      && 0 <= f.ra < 16 && 0 <= f.rb < 16
      && Put(d.arg1, d.arg1pos, d.arg1hi, a, c0)[..d.bytes] == Encoding(d, f)
  {
    hide Encode, Splice, PutNibble;
    match FormatOf(d)
    case FPlain =>
    case FOne => RegOnly(c0, a.reg);
    case FData => ImmOnly(c0, 0, d.bytes, a.val);
    case FTarget =>
      ImmOnly(c0, 1, 8, a.val);
      EncodeWord(a.val);
    case _ =>
  }

  lemma RegOnly(c0: seq<byte>, ra: int)
    requires |c0| == 10 && c0[1] == 0xFF && 0 <= ra < 16
    ensures PutNibble(c0, 1, 1, ra)[..2] == [c0[0]] + [ra * 16 + 15]
  {
  }

  lemma ImmOnly(c0: seq<byte>, pos: nat, n: nat, val: word)
    requires |c0| == 10 && pos + n <= 10 && pos <= 1
    ensures Splice(c0, pos, Encode(val, n))[..pos + n] == c0[..pos] + Encode(val, n)
  {
    hide Encode;
    var c := Splice(c0, pos, Encode(val, n));
    assert c[..pos + n] == c[..pos] + c[pos..pos + n];
  }

  lemma TwoArguments(d: Entry, c0: seq<byte>, a: ArgVal, b: ArgVal)
    requires Sound(d) && d.arg2 != NoArg && 0 <= a.reg < 16 && 0 <= b.reg < 16
    requires |c0| == 10 && c0[0] == d.icode * 16 + d.ifun && c0[1] == 0xFF
    ensures Fits(d.arg1, d.arg1pos, d.arg1hi) && Fits(d.arg2, d.arg2pos, d.arg2hi) && d.bytes <= 10
    ensures var f := SetField(d.arg2, d.arg2hi, b, SetField(d.arg1, d.arg1hi, a, Fields(REG_NONE, REG_NONE, 0)));
      && 0 <= f.ra < 16 && 0 <= f.rb < 16
      && Put(d.arg2, d.arg2pos, d.arg2hi, b, Put(d.arg1, d.arg1pos, d.arg1hi, a, c0))[..d.bytes] == Encoding(d, f)
  {
    hide Encode, Splice, PutNibble;
    match FormatOf(d)
    case FRegs => TwoRegs(c0, a.reg, b.reg);
    case FImmReg => ImmAndReg(c0, a.val, b.reg);
    case FRegMem => RegAndMem(c0, a.reg, b.reg, b.val);
    case FMemReg => MemAndReg(c0, b.reg, a.reg, a.val);
    case _ =>
  }

  lemma TwoRegs(c0: seq<byte>, ra: int, rb: int)
    requires |c0| == 10 && c0[1] == 0xFF && 0 <= ra < 16 && 0 <= rb < 16
    ensures PutNibble(PutNibble(c0, 1, 1, ra), 1, 0, rb)[..2] == [c0[0]] + [ra * 16 + rb]
  {
  }

  lemma ImmAndReg(c0: seq<byte>, val: word, rb: int)
    requires |c0| == 10 && c0[1] == 0xFF && 0 <= rb < 16
    ensures PutNibble(Splice(c0, 2, Encode(val, 8)), 1, 0, rb)[..10] ==
            [c0[0]] + [15 * 16 + rb] + Encode(Unsigned(val), 8)
  {
    hide Encode;
    EncodeWord(val);
    var c := PutNibble(Splice(c0, 2, Encode(val, 8)), 1, 0, rb);
    assert c[2..10] == Splice(c0, 2, Encode(val, 8))[2..10];
    assert c[..10] == [c[0]] + [c[1]] + c[2..10];
  }

  lemma RegAndMem(c0: seq<byte>, ra: int, rb: int, val: word)
    requires |c0| == 10 && c0[1] == 0xFF && 0 <= ra < 16 && 0 <= rb < 16
    ensures Splice(PutNibble(PutNibble(c0, 1, 1, ra), 1, 0, rb), 2, Encode(val, 8))[..10] ==
            [c0[0]] + [ra * 16 + rb] + Encode(Unsigned(val), 8)
  {
    hide Encode;
    EncodeWord(val);
    var c := Splice(PutNibble(PutNibble(c0, 1, 1, ra), 1, 0, rb), 2, Encode(val, 8));
    assert c[..10] == [c[0]] + [c[1]] + c[2..10];
  }

  lemma MemAndReg(c0: seq<byte>, ra: int, rb: int, val: word)
    requires |c0| == 10 && c0[1] == 0xFF && 0 <= ra < 16 && 0 <= rb < 16
    ensures PutNibble(Splice(PutNibble(c0, 1, 0, rb), 2, Encode(val, 8)), 1, 1, ra)[..10] ==
            [c0[0]] + [ra * 16 + rb] + Encode(Unsigned(val), 8)
  {
    hide Encode;
    EncodeWord(val);
    var s := Splice(PutNibble(c0, 1, 0, rb), 2, Encode(val, 8));
    var c := PutNibble(s, 1, 1, ra);
    assert c[2..10] == s[2..10];
    assert c[..10] == [c[0]] + [c[1]] + c[2..10];
  }

  /** What print_code is called with: an address and the code bytes of the line. */
  datatype Emitted = Emitted(pos: int, code: seq<byte>, blank: bool)

  /** What a line makes pass 2 print, when its arguments are good. */
  function LineOutput(table: SymbolTable, line: seq<Token>, pos: int): Option<Emitted> {
    match ShapeOf(line, pos)
    case Blank => Some(Emitted(pos, [], true))
    case Malformed => None
    case LabelOnly => Some(Emitted(pos, [], false))
    case Directive(next) => Some(Emitted(next, [], false))
    case Code(m, at) =>
      (match FieldsOf(Table(m), table, line, at)
       case None => None
       case Some(f) => if Sound(Table(m)) && 0 <= f.ra < 16 && 0 <= f.rb < 16
                       then Some(Emitted(pos, Encoding(Table(m), f), false)) else None)
  }

  /** At most one line is printed, at `pos` and with `n` code bytes. */
  ghost predicate PrintsOnce(before: seq<Emitted>, after: seq<Emitted>, pos: int, n: nat) {
    || after == before
    || (exists code: seq<byte> :: |code| == n && after == before + [Emitted(pos, code, false)])
  }

  class Assembler {
    var bytepos: int
    var pass: int
    var symbols: SymbolTable
    const code: array<byte>
    var tokens: seq<Token>
    var tpos: nat
    var bcount: nat
    var hitError: bool
    var output: seq<Emitted>

    ghost predicate Valid()
      reads this
    {
      code.Length == 10 && (pass == 1 || pass == 2) && |tokens| <= TOK_PER_LINE && bcount <= 10
    }

    constructor ()
      ensures Valid() && fresh(code) && tokens == [] && bytepos == 0 && pass == 1 && symbols == [] && !hitError
      ensures output == []
    {
      bytepos, pass, symbols, tokens, tpos, bcount, hitError, output := 0, 1, [], [], 0, 0, false, [];
      code := new byte[10];
    }

    /** start_line */
    method StartLine()
      requires Valid()
      modifies this`tokens, this`tpos, this`bcount
      ensures Valid() && tokens == [] && bcount == 0
    {
      tokens, tpos, bcount := [], 0, 0;
    }

    method Fail()
      modifies this`hitError
      ensures hitError
    {
      hitError := true;
    }

    /** print_code */
    method PrintCode(pos: int)
      requires Valid() && bcount <= 10
      modifies this`output
      ensures output == old(output) + [Emitted(pos, if tokens == [] then [] else code[..bcount], tokens == [])]
    {
      output := output + [Emitted(pos, if tokens == [] then [] else code[..bcount], tokens == [])];
    }

    /** find_symbol */
    method FindSymbol(name: string) returns (val: word)
      modifies this`hitError
      ensures hitError == (old(hitError) || Find(symbols, name).None?)
      ensures Find(symbols, name).Some? ==> val == ToWord(Find(symbols, name).value)
    {
      for i := 0 to |symbols|
        invariant Find(symbols[..i], name).None? && hitError == old(hitError)
      {
        assert symbols[..i + 1][..i] == symbols[..i];
        if symbols[i].0 == name {
          FindPrefix(symbols, i + 1, name);
          return ToWord(symbols[i].1);
        }
      }
      assert symbols[..|symbols|] == symbols;
      Fail();
      return -1;
    }

    /** get_reg: a register number into the high or low half of a code byte. */
    method GetReg(codepos: nat, hi: nat)
      requires Valid() && codepos < 10
      modifies this`tpos, this`hitError, code
      ensures Valid()
      ensures Tok(tokens, old(tpos)).TReg? ==>
        var id, c := Tok(tokens, old(tpos)).id, old(code[codepos]);
        && tpos == old(tpos) + 1 && hitError == old(hitError)
        && code[..] == old(code[..])[codepos := if hi > 0 then id * 16 + c % 16 else c / 16 * 16 + id]
      ensures !Tok(tokens, old(tpos)).TReg? ==> hitError
    {
      var t := Tok(tokens, tpos);
      if !t.TReg? {
        Fail();
        return;
      }
      var c := code[codepos];
      code[codepos] := if hi > 0 then t.id * 16 + c % 16 else c / 16 * 16 + t.id;
      tpos := tpos + 1;
    }

    /** get_num: the low `n` bytes of a number or label. */
    method GetNum(codepos: nat, n: nat)
      requires Valid() && codepos + n <= 10
      modifies this`tpos, this`hitError, code
      ensures var a := ParseArg(I, symbols, tokens, old(tpos));
        if a.None? then hitError
        else tpos == a.value.next && hitError == old(hitError) && code[..] == Put(I, codepos, n, a.value, old(code[..]))
    {
      var val: word := 0;
      var t := Tok(tokens, tpos);
      if t.TNum? {
        val := t.ival;
      } else if t.TIdent? {
        val := FindSymbol(t.name);
      } else {
        Fail();
        return;
      }
      StoreBytes(codepos, n, val);
      tpos := tpos + 1;
    }

    /** code[codepos + i] = (val >> (i * 8)) & 0xFF */
    method StoreBytes(codepos: nat, n: nat, val: word)
      requires Valid() && codepos + n <= 10
      modifies code
      ensures code[..] == Splice(old(code[..]), codepos, Encode(val, n))
    {
      ghost var was, bytes := code[..], Encode(val, n);
      var v: int := val;
      for i := 0 to n
        invariant Encode(v, n - i) == bytes[i..]
        invariant forall j :: 0 <= j < i ==> code[codepos + j] == bytes[j]
        invariant forall j :: 0 <= j < 10 && !(codepos <= j < codepos + i) ==> code[j] == was[j]
      {
        assert bytes[i] == Encode(v, n - i)[0] && bytes[i + 1..] == Encode(v, n - i)[1..];
        code[codepos + i] := v % 256;
        v := v / 256;
      }
      assert code[..] == was[..codepos] + bytes + was[codepos + n..];
    }

    /** get_mem */
    method GetMem(codepos: nat)
      requires Valid() && codepos == 1
      modifies this`tpos, this`hitError, code
      ensures var a := ParseMem(symbols, tokens, old(tpos));
        if a.None? then hitError
        else tpos == a.value.next && hitError == old(hitError) && code[..] == Put(M, codepos, 0, a.value, old(code[..]))
    {
      hide Put, Splice, Encode;
      var rval, val: word := REG_NONE, 0;
      ghost var c0 := code[..];
      var t := Tok(tokens, tpos);
      if t.TNum? {
        val := t.ival;
        tpos := tpos + 1;
      } else if t.TIdent? {
        val := FindSymbol(t.name);
        tpos := tpos + 1;
      }
      if Tok(tokens, tpos) == TPunct('(') {
        tpos := tpos + 1;
        if !Tok(tokens, tpos).TReg? {
          Fail();
          return;
        }
        rval := Tok(tokens, tpos).id;
        tpos := tpos + 1;
        if Tok(tokens, tpos) != TPunct(')') {
          Fail();
          return;
        }
        tpos := tpos + 1;
      }
      StoreMem(codepos, rval, val);
      PutMem(c0, rval, val, tpos);
    }

    /** The register into the low half of the code byte, the displacement behind it. */
    method StoreMem(codepos: nat, rval: int, val: word)
      requires Valid() && codepos == 1 && 0 <= rval < 16
      modifies code
      ensures code[..] == Splice(PutNibble(old(code[..]), 1, 0, rval), 2, Encode(val, 8))
    {
      hide Splice, Encode;
      ghost var c0 := code[..];
      code[codepos] := code[codepos] / 16 * 16 + rval;
      assert code[..] == PutNibble(c0, 1, 0, rval);
      StoreBytes(codepos + 1, 8, val);
    }

    /** The two switches of finish_line on the kind of an argument. */
    method GetArg(kind: Arg, pos: nat, hi: nat)
      requires Valid() && Fits(kind, pos, hi)
      modifies this`tpos, this`hitError, code
      ensures old(hitError) ==> hitError
      ensures var a := ParseArg(kind, symbols, tokens, old(tpos));
        if a.None? then hitError
        else 0 <= a.value.reg < 16 && (hitError ==> old(hitError)) &&
             (!hitError ==> tpos == a.value.next && code[..] == Put(kind, pos, hi, a.value, old(code[..])))
    {
      match kind
      case R => GetReg(pos, hi);
      case M => GetMem(pos);
      case I => GetNum(pos, hi);
      case NoArg =>
    }

    /** The part of finish_line that encodes an instruction in pass 2. */
    method EncodeInstr(def: Entry) returns (done: bool)
      requires Valid() && Sound(def)
      modifies this`tpos, this`hitError, code
      ensures Valid() && (old(hitError) ==> hitError) && (!done ==> hitError) && def.bytes <= 10
      ensures var f := FieldsOf(def, symbols, tokens, old(tpos));
        if f.None? then hitError
        else (hitError ==> old(hitError)) &&
             (!hitError ==> 0 <= f.value.ra < 16 && 0 <= f.value.rb < 16 && code[..def.bytes] == Encoding(def, f.value))
    {
      hide ParseArg, Put, SetField, Encoding, Tok, Sound, FormatOf, Fits;
      SoundFits(def);
      OpcodeByte(def);
      code[0] := def.icode * 16 + def.ifun;
      code[1] := 0xFF;
      ghost var c0 := code[..];
      ghost var a := ParseArg(def.arg1, symbols, tokens, tpos);
      GetArg(def.arg1, def.arg1pos, def.arg1hi);
      if def.arg2 != NoArg {
        if Tok(tokens, tpos) != TPunct(',') {
          Fail();
          return false;
        }
        tpos := tpos + 1;
        ghost var b := ParseArg(def.arg2, symbols, tokens, tpos);
        GetArg(def.arg2, def.arg2pos, def.arg2hi);
        if !hitError {
          TwoArguments(def, c0, a.value, b.value);
        }
      } else if !hitError {
        OneArgument(def, c0, a.value);
      }
      return true;
    }

    /** finish_line: the line in `tokens` is processed, in either pass. */
    method FinishLine()
      requires Valid()
      modifies this`bytepos, this`symbols, this`tokens, this`tpos, this`bcount, this`hitError, this`output, code
      ensures Valid() && tokens == [] && (old(hitError) ==> hitError)
      ensures bytepos == NextPos(old(tokens), old(bytepos))
      ensures pass == 1 ==>
        && (hitError <==> old(hitError) || ShapeOf(old(tokens), old(bytepos)) == Malformed)
        && symbols == old(symbols) + LabelEntry(old(tokens), old(bytepos)) && output == old(output)
      ensures pass == 2 ==>
        && symbols == old(symbols)
        && var e := LineOutput(symbols, old(tokens), old(bytepos));
           if e.None? then hitError
           else (hitError ==> old(hitError)) && (!hitError ==> output == old(output) + [e.value])
      ensures pass == 2 && LineOutput(symbols, old(tokens), old(bytepos)).None? ==>
        if ShapeOf(old(tokens), old(bytepos)).Code? then
          PrintsOnce(old(output), output, old(bytepos), bytepos - old(bytepos))
        else output == old(output)
    {
      hide Encoding, FieldsOf, Sound, Table, PrintsOnce;
      var savebytepos := bytepos;
      tpos := 0;
      if tokens == [] {
        if pass > 1 {
          PrintCode(savebytepos);
        }
        StartLine();
        return;
      }
      if tokens[0].TIdent? {
        if Tok(tokens, 1) != TPunct(':') {
          Fail();
          StartLine();
          return;
        }
        if pass == 1 {
          symbols := symbols + [(tokens[0].name, bytepos)];
        }
        tpos := tpos + 2;
        if |tokens| == 2 {
          if pass > 1 {
            bcount := 0;
            PrintCode(savebytepos);
          }
          StartLine();
          return;
        }
      }
      FinishStatement();
    }

    /** finish_line behind the label. */
    method FinishStatement()
      requires Valid() && |tokens| > 0 && tpos == (if LabelOf(tokens).Some? then 2 else 0)
      requires ShapeOf(tokens, bytepos) != LabelOnly && (tokens[0].TIdent? ==> LabelOf(tokens).Some?)
      modifies this`bytepos, this`tokens, this`tpos, this`bcount, this`hitError, this`output, code
      ensures Valid() && tokens == [] && (old(hitError) ==> hitError)
      ensures bytepos == NextPos(old(tokens), old(bytepos))
      ensures pass == 1 ==> output == old(output)
      ensures pass == 1 ==> (hitError <==> old(hitError) || ShapeOf(old(tokens), old(bytepos)) == Malformed)
      ensures pass == 2 ==>
        var e := LineOutput(symbols, old(tokens), old(bytepos));
        if e.None? then hitError
        else (hitError ==> old(hitError)) && (!hitError ==> output == old(output) + [e.value])
      ensures pass == 2 && LineOutput(symbols, old(tokens), old(bytepos)).None? ==>
        if ShapeOf(old(tokens), old(bytepos)).Code? then
          PrintsOnce(old(output), output, old(bytepos), bytepos - old(bytepos))
        else output == old(output)
    {
      hide Encoding, FieldsOf, Sound, Table, PrintsOnce;
      if !Tok(tokens, tpos).TInstr? {
        Fail();
        StartLine();
        return;
      }
      var m := Tok(tokens, tpos).m;
      if m == POS || m == ALIGN {
        FinishDirective(m);
      } else {
        FinishInstr(m, bytepos);
      }
    }

    /** The .pos and .align part of finish_line. */
    method FinishDirective(m: Mnemonic)
      requires Valid() && (m == POS || m == ALIGN) && |tokens| > 0
      modifies this`bytepos, this`tokens, this`tpos, this`bcount, this`hitError, this`output
      ensures Valid() && tokens == []
      ensures var t := Tok(old(tokens), old(tpos) + 1);
        if !t.TNum? || (m == ALIGN && ToInt(t.ival) <= 0) then
          hitError && bytepos == old(bytepos) && output == old(output)
        else
          && hitError == old(hitError)
          && bytepos == (if m == POS then ToInt(t.ival)
                         else CDiv(old(bytepos) + ToInt(t.ival) - 1, ToInt(t.ival)) * ToInt(t.ival))
          && output == if pass > 1 then old(output) + [Emitted(bytepos, [], false)] else old(output)
    {
      tpos := tpos + 1;
      var t := Tok(tokens, tpos);
      if !t.TNum? {
        Fail();
        StartLine();
        return;
      }
      if m == POS {
        bytepos := ToInt(t.ival);
      } else {
        var a := ToInt(t.ival);
        if a <= 0 {
          Fail();
          StartLine();
          return;
        }
        bytepos := CDiv(bytepos + a - 1, a) * a;
      }
      if pass > 1 {
        bcount := 0;
        PrintCode(bytepos);
      }
      StartLine();
    }

    /** The instruction part of finish_line. */
    method FinishInstr(m: Mnemonic, savebytepos: int)
      requires Valid() && m != POS && m != ALIGN && |tokens| > 0 && savebytepos == bytepos
      modifies this`bytepos, this`tokens, this`tpos, this`bcount, this`hitError, this`output, code
      ensures Valid() && tokens == [] && bytepos == old(bytepos) + Table(m).bytes && (old(hitError) ==> hitError)
      ensures pass == 1 ==> hitError == old(hitError) && output == old(output)
      ensures pass == 2 ==>
        var f := FieldsOf(Table(m), symbols, old(tokens), old(tpos) + 1);
        if f.None? then hitError
        else (hitError ==> old(hitError)) &&
             (!hitError ==> 0 <= f.value.ra < 16 && 0 <= f.value.rb < 16 && Sound(Table(m)) &&
                            output == old(output) + [Emitted(old(bytepos), Encoding(Table(m), f.value), false)])
      ensures PrintsOnce(old(output), output, old(bytepos), Table(m).bytes)
    {
      hide Encoding, FieldsOf, Table;
      TableSound(m);
      SoundFits(Table(m));
      hide Sound;
      var size := Table(m).bytes;
      tpos := tpos + 1;
      bytepos := bytepos + size;
      bcount := size;
      if pass == 1 {
        StartLine();
        return;
      }
      var done := EncodeInstr(Table(m));
      if done {
        PrintCode(savebytepos);
      }
      StartLine();
    }

    /** The first reading of the source by the lexer, which hands each line's tokens to finish_line. */
    method FirstPass(lines: seq<seq<Token>>)
      requires Valid() && pass == 1 && bytepos == 0 && symbols == [] && !hitError
      requires forall k :: 0 <= k < |lines| ==> |lines[k]| <= TOK_PER_LINE
      modifies this`bytepos, this`symbols, this`tokens, this`tpos, this`bcount, this`hitError, this`output, code
      ensures Valid() && symbols == Labels(lines, |lines|) && output == old(output)
      ensures bytepos == PosAt(lines, |lines|)
      ensures hitError <==> exists k :: 0 <= k < |lines| && BadShape(lines, k)
    {
      hide ShapeOf, NextPos, LineOutput, LabelEntry;
      for k := 0 to |lines|
        invariant Valid() && pass == 1 && bytepos == PosAt(lines, k)
        invariant symbols == Labels(lines, k) && output == old(output)
        invariant hitError <==> exists j :: 0 <= j < k && BadShape(lines, j)
      {
        tokens := lines[k];
        FinishLine();
        assert BadShape(lines, k) <==> ShapeOf(lines[k], PosAt(lines, k)) == Malformed;
      }
    }

    /** The second reading. */
    method SecondPass(lines: seq<seq<Token>>)
      requires Valid() && pass == 2 && bytepos == 0 && output == [] && !hitError
      requires forall k :: 0 <= k < |lines| ==> |lines[k]| <= TOK_PER_LINE
      modifies this`bytepos, this`symbols, this`tokens, this`tpos, this`bcount, this`hitError, this`output, code
      ensures Valid() && symbols == old(symbols) && bytepos == PosAt(lines, |lines|)
      ensures hitError <==> exists k :: 0 <= k < |lines| && BadLine(symbols, lines, k)
      ensures !hitError ==> Printed(symbols, lines, |lines|, output)
    {
      hide ShapeOf, NextPos, LineOutput, LabelEntry;
      for k := 0 to |lines|
        invariant Valid() && pass == 2 && bytepos == PosAt(lines, k) && symbols == old(symbols)
        invariant hitError <==> exists j :: 0 <= j < k && BadLine(symbols, lines, j)
        invariant !hitError ==> Printed(symbols, lines, k, output)
      {
        tokens := lines[k];
        FinishLine();
        assert BadLine(symbols, lines, k) <==> LineOutput(symbols, lines[k], PosAt(lines, k)).None?;
      }
    }
  }

  /** Line `k` is refused by either pass, or by the second. */
  ghost predicate BadShape(lines: seq<seq<Token>>, k: nat)
    requires k < |lines|
  {
    ShapeOf(lines[k], PosAt(lines, k)) == Malformed
  }

  ghost predicate BadLine(table: SymbolTable, lines: seq<seq<Token>>, k: nat)
    requires k < |lines|
  {
    LineOutput(table, lines[k], PosAt(lines, k)).None?
  }

  /** The listing: one entry for each of the first `n` lines, at the position the line has. */
  ghost predicate Printed(table: SymbolTable, lines: seq<seq<Token>>, n: nat, out: seq<Emitted>)
    requires n <= |lines|
  {
    |out| == n &&
    forall k {:trigger out[k]} :: 0 <= k < n ==> LineOutput(table, lines[k], PosAt(lines, k)) == Some(out[k])
  }

  /** main: the two passes. The symbol table that pass 2 uses gives each label the position its line has
      when pass 2 comes to it, whether the label is used before or after that line. */
  method Assemble(lines: seq<seq<Token>>) returns (ok: bool, table: SymbolTable, out: seq<Emitted>)
    requires forall k :: 0 <= k < |lines| ==> |lines[k]| <= TOK_PER_LINE
    ensures table == Labels(lines, |lines|)
    ensures ok <==> forall k :: 0 <= k < |lines| ==> !BadLine(table, lines, k)
    ensures ok ==> Printed(table, lines, |lines|, out)
  {
    hide LineOutput, ShapeOf;
    var a := new Assembler();
    a.FirstPass(lines);
    if a.hitError {
      ghost var k :| 0 <= k < |lines| && BadShape(lines, k);
      BadShapeIsBad(a.symbols, lines, k);
      return false, a.symbols, [];
    }
    a.pass := 2;
    a.bytepos := 0;
    a.SecondPass(lines);
    return !a.hitError, a.symbols, a.output;
  }

  lemma BadShapeIsBad(table: SymbolTable, lines: seq<seq<Token>>, k: nat)
    requires k < |lines| && BadShape(lines, k)
    ensures BadLine(table, lines, k)
  {
  }

  lemma {:induction false} FindPrefix(table: SymbolTable, k: nat, name: string)
    requires k <= |table| && Find(table[..k], name).Some?
    ensures Find(table, name) == Find(table[..k], name)
    decreases |table|
  {
    if k < |table| {
      var t := table[..|table| - 1];
      assert t[..k] == table[..k];
      FindPrefix(t, k, name);
    } else {
      assert table[..k] == table;
    }
  }
}
