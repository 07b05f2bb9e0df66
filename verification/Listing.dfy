/** The assembler's listing and the loader that reads it back. */
module Listing {
  import opened Bytes
  import opened Yas

  // ------------------------------------------------------------------------------------------
  // Hexadecimal

  /** A digit as hexstuff prints it. */
  function Digit(h: int): char
    requires 0 <= h < 16
  {
    if h < 10 then '0' + h as char else 'a' + (h - 10) as char
  }

  predicate IsDigit(c: char) { '0' <= c <= '9' }

  predicate IsXDigit(c: char) { IsDigit(c) || 'a' <= c <= 'f' || 'A' <= c <= 'F' }

  predicate IsSpace(c: char) { c == ' ' || '\t' <= c <= '\r' }

  /** hex2dig */
  function Hex2Dig(c: char): (d: int)
    requires IsXDigit(c)
    ensures 0 <= d < 16
  {
    if IsDigit(c) then c as int - '0' as int
    else if 'A' <= c <= 'Z' then c as int - 'A' as int + 10
    else c as int - 'a' as int + 10
  }

  lemma DigitReads(h: int)
    requires 0 <= h < 16
    ensures IsXDigit(Digit(h)) && Hex2Dig(Digit(h)) == h && !IsSpace(Digit(h))
  {
  }

  function Pow16(n: nat): (p: nat)
    ensures p > 0
  {
    if n == 0 then 1 else 16 * Pow16(n - 1)
  }

  /** The `len` low-order hexadecimal digits of `v`, the most significant first. */
  function Hex(v: nat, len: nat): (s: string)
    ensures |s| == len
  {
    if len == 0 then "" else Hex(v / 16, len - 1) + [Digit(v % 16)]
  }

  function HexBytes(code: seq<byte>): (s: string)
    ensures |s| == 2 * |code|
  {
    if code == [] then "" else Hex(code[0], 2) + HexBytes(code[1..])
  }

  function Spaces(n: nat): (s: string)
    ensures |s| == n && forall i :: 0 <= i < n ==> s[i] == ' '
  {
    seq(n, i => ' ')
  }

  // ------------------------------------------------------------------------------------------
  // print_code

  /** print_code gives up on a line with tokens whose address has more than four digits. */
  predicate InRange(e: Emitted) { 0 <= e.pos && (e.blank || e.pos <= 0xFFFF) && |e.code| <= 10 }

  /** A line of the listing: address, code bytes, and the source line. Addresses above 0xFFF take one more
      digit and stand right before the code. */
  function Render(e: Emitted, text: string): string
    requires InRange(e)
  {
    if e.blank then Spaces(if e.pos > 0xFFF then 29 else 28) + ("| " + text)
    else if e.pos > 0xFFF then
      "0x" + (Hex(e.pos, 4) + (":" + (HexBytes(e.code) + (Spaces(22 - 2 * |e.code|) + ("| " + text)))))
    else
      "0x" + (Hex(e.pos, 3) + (":" + (" " + (HexBytes(e.code) + (Spaces(21 - 2 * |e.code|) + ("| " + text))))))
  }

  /** hexstuff: digits are written from the right. */
  method HexStuff(dest: array<char>, at: nat, value: nat, len: nat)
    requires at + len <= dest.Length
    modifies dest
    ensures dest[..] == old(dest[..at]) + Hex(value, len) + old(dest[at + len..])
  {
    ghost var was, hex := dest[..], Hex(value, len);
    var v := value;
    for i := 0 to len
      invariant Hex(v, len - i) == hex[..len - i]
      invariant forall j :: len - i <= j < len ==> dest[at + j] == hex[j]
      invariant forall j :: 0 <= j < dest.Length && !(at + len - i <= j < at + len) ==> dest[j] == was[j]
    {
      ghost var k := len - i - 1;
      assert hex[..k + 1] == Hex(v / 16, k) + [Digit(v % 16)];
      assert hex[k] == hex[..k + 1][k] && hex[..k] == hex[..k + 1][..k];
      dest[at + len - i - 1] := Digit(v % 16);
      v := v / 16;
    }
    assert dest[..] == was[..at] + hex + was[at + len..];
  }

  lemma {:induction false} HexBytesSnoc(code: seq<byte>, b: byte)
    ensures HexBytes(code + [b]) == HexBytes(code) + Hex(b, 2)
  {
    if code == [] {
      assert code + [b] == [b] && [b][1..] == [];
      assert HexBytes([b]) == Hex(b, 2) + HexBytes([]);
    } else {
      assert (code + [b])[1..] == code[1..] + [b];
      HexBytesSnoc(code[1..], b);
      assert Hex(code[0], 2) + HexBytes(code[1..]) + Hex(b, 2) == Hex(code[0], 2) + (HexBytes(code[1..]) + Hex(b, 2));
    }
  }

  const WIDE_FORM: string := "0x0000:                      | "
  const FORM: string := "0x000:                      | "

  const WIDE_BLANK: string := "                             | "
  const BLANK: string := "                            | "

  lemma BlankShape()
    ensures WIDE_BLANK == Spaces(29) + "| " && BLANK == Spaces(28) + "| "
  {
  }

  /** print_code: the part of a listing line in front of the source text. For a line with tokens it is a blank
      form whose address and code digits are filled in. */
  method PrintCode(e: Emitted) returns (ok: bool, s: string)
    requires 0 <= e.pos && |e.code| <= 10
    ensures ok <==> InRange(e)
    ensures ok ==> forall text :: s + text == Render(e, text)
  {
    if e.blank {
      BlankShape();
      hide WIDE_BLANK, BLANK, Spaces;
      s := if e.pos > 0xFFF then WIDE_BLANK else BLANK;
      ghost var n := if e.pos > 0xFFF then 29 else 28;
      assert forall text :: s + text == Spaces(n) + ("| " + text);
      return true, s;
    }
    if e.pos > 0xFFFF {
      return false, "";
    }
    s := FillForm(e);
    ok := true;
  }

  method FillForm(e: Emitted) returns (s: string)
    requires 0 <= e.pos <= 0xFFFF && |e.code| <= 10 && !e.blank
    ensures forall text :: s + text == Render(e, text)
  {
    hide Hex, HexBytes, Filled, Render;
    var out, room := AddressForm(e.pos);
    ghost var head := Head(e.pos);
    for i := 0 to |e.code|
      invariant Filled(out[..], head, e.code[..i], room)
    {
      ghost var before, done := out[..], e.code[..i];
      FilledSize(before, head, done, room);
      HexStuff(out, 7 + 2 * i, e.code[i], 2);
      FillOne(before, out[..], head, done, e.code[i], room);
      assert e.code[..i + 1] == done + [e.code[i]];
    }
    s := out[..];
    assert e.code[..|e.code|] == e.code;
    forall text
      ensures s + text == Render(e, text)
    {
      FilledRenders(s, e, text);
    }
  }

  /** What stands in front of the code digits. */
  function Head(pos: nat): (s: string)
    ensures |s| == 7
  {
    if pos > 0xFFF then "0x" + Hex(pos, 4) + ":" else "0x" + Hex(pos, 3) + ": "
  }

  function Room(pos: nat): nat { if pos > 0xFFF then 22 else 21 }

  /** The form with its address filled in. */
  method AddressForm(pos: nat) returns (out: array<char>, room: nat)
    requires pos <= 0xFFFF
    ensures fresh(out) && room == Room(pos) && Filled(out[..], Head(pos), [], room)
  {
    hide Hex, HexBytes, Filled, WIDE_FORM, FORM, Spaces;
    FormShape();
    var form := if pos > 0xFFF then WIDE_FORM else FORM;
    room := if pos > 0xFFF then 22 else 21;
    var digits := if pos > 0xFFF then 4 else 3;
    out := new char[|form|](i requires 0 <= i < |form| => form[i]);
    assert out[..] == form;
    assert out[..2] == form[..2] && out[2 + digits..] == form[2 + digits..];
    HexStuff(out, 2, pos, digits);
    FormEmpty(form, Hex(pos, digits), pos > 0xFFF);
  }

  lemma FilledSize(s: string, head: string, code: seq<byte>, room: nat)
    requires Filled(s, head, code, room) && |head| == 7
    ensures |s| == 9 + room
  {
  }

  /** A form with the digits of `code` filled in behind `head`. */
  ghost predicate Filled(s: string, head: string, code: seq<byte>, room: nat) {
    2 * |code| <= room && s == head + HexBytes(code) + Spaces(room - 2 * |code|) + "| "
  }

  /** The blank forms are as wide as they should be. */
  lemma FormShape()
    ensures WIDE_FORM == "0x0000:" + (Spaces(22) + "| ") && |WIDE_FORM| == 31
    ensures FORM == "0x000: " + (Spaces(21) + "| ") && |FORM| == 30
  {
  }

  lemma FormEmpty(form: string, hex: string, wide: bool)
    requires form == (if wide then WIDE_FORM else FORM) && |hex| == (if wide then 4 else 3)
    ensures Filled(form[..2] + hex + form[2 + |hex|..], "0x" + hex + (if wide then ":" else ": "), [],
                   if wide then 22 else 21)
  {
    FormShape();
    var room := if wide then 22 else 21;
    var colon := if wide then ":" else ": ";
    hide WIDE_FORM, FORM, Spaces;
    assert form[..2] == "0x";
    assert form[2 + |hex|..] == colon + (Spaces(room) + "| ");
    assert HexBytes([]) == "";
  }

  lemma FillOne(before: string, after: string, head: string, code: seq<byte>, b: byte, room: nat)
    requires Filled(before, head, code, room) && 2 * |code| + 2 <= room && |head| == 7
    requires var at := 7 + 2 * |code|; after == before[..at] + Hex(b, 2) + before[at + 2..]
    ensures Filled(after, head, code + [b], room)
  {
    hide Hex, HexBytes;
    HexBytesSnoc(code, b);
    var at := 7 + 2 * |code|;
    assert before[..at] == head + HexBytes(code);
    assert before[at + 2..] == Spaces(room - 2 * |code| - 2) + "| ";
  }

  lemma FilledRenders(s: string, e: Emitted, text: string)
    requires 0 <= e.pos <= 0xFFFF && |e.code| <= 10 && !e.blank
    requires Filled(s, Head(e.pos), e.code, Room(e.pos))
    ensures s + text == Render(e, text)
  {
    hide Hex, HexBytes, Spaces;
  }

  // ------------------------------------------------------------------------------------------
  // load_mem, one line

  function SkipSpace(s: string): string { if |s| > 0 && IsSpace(s[0]) then SkipSpace(s[1..]) else s }

  /** The value of the hexadecimal digits at the head, and what follows them. */
  function Address(s: string, acc: nat): (nat, string) {
    if |s| > 0 && IsXDigit(s[0]) then Address(s[1..], acc * 16 + Hex2Dig(s[0])) else (acc, s)
  }

  /** The bytes whose digit pairs stand at the head. */
  function CodeBytes(s: string): seq<byte> {
    if |s| > 1 && IsXDigit(s[0]) && IsXDigit(s[1]) then
      [(Hex2Dig(s[0]) * 16 + Hex2Dig(s[1])) as byte] + CodeBytes(s[2..])
    else []
  }

  datatype LineRead = Skipped | NoColon | At(addr: nat, code: seq<byte>)

  function ReadLine(buf: string): LineRead {
    var s := SkipSpace(buf);
    if |s| < 2 || s[0] != '0' || (s[1] != 'x' && s[1] != 'X') then Skipped
    else
      var (addr, s2) := Address(s[2..], 0);
      var s3 := SkipSpace(s2);
      if |s3| == 0 || s3[0] != ':' then NoColon else At(addr, CodeBytes(SkipSpace(s3[1..])))
  }

  // ------------------------------------------------------------------------------------------
  // The listing reads back

  lemma {:induction false} SkipSpaces(n: nat, s: string)
    ensures SkipSpace(Spaces(n) + s) == SkipSpace(s)
  {
    if n == 0 {
      assert Spaces(n) + s == s;
    } else {
      assert (Spaces(n) + s)[1..] == Spaces(n - 1) + s;
      SkipSpaces(n - 1, s);
    }
  }

  lemma {:induction false} AddressReads(v: nat, len: nat, rest: string, acc: nat)
    requires v < Pow16(len)
    ensures Address(Hex(v, len) + rest, acc) == Address(rest, acc * Pow16(len) + v)
    decreases len
  {
    if len == 0 {
      assert Hex(v, len) + rest == rest;
    } else {
      var d := Digit(v % 16);
      DigitReads(v % 16);
      assert Hex(v, len) + rest == Hex(v / 16, len - 1) + ([d] + rest);
      AddressReads(v / 16, len - 1, [d] + rest, acc);
      assert ([d] + rest)[1..] == rest;
      PowerStep(acc, Pow16(len - 1), v);
    }
  }

  lemma PowerStep(acc: nat, p: nat, v: nat)
    ensures (acc * p + v / 16) * 16 + v % 16 == acc * (16 * p) + v
  {
  }

  lemma ByteHex(b: byte)
    ensures Hex(b, 2) == [Digit(b / 16), Digit(b % 16)]
  {
    assert Hex(b, 2) == Hex(b / 16, 1) + [Digit(b % 16)];
    assert Hex(b / 16, 1) == Hex(b / 16 / 16, 0) + [Digit(b / 16 % 16)];
  }

  lemma PairReads(b: byte, more: string)
    ensures CodeBytes([Digit(b / 16), Digit(b % 16)] + more) == [b] + CodeBytes(more)
  {
    DigitReads(b / 16);
    DigitReads(b % 16);
    var s := [Digit(b / 16), Digit(b % 16)] + more;
    assert s[2..] == more;
  }

  lemma {:induction false} CodeReads(code: seq<byte>, rest: string)
    requires |rest| > 0 && !IsXDigit(rest[0])
    ensures CodeBytes(HexBytes(code) + rest) == code
  {
    hide Hex, IsXDigit, Hex2Dig, Digit;
    if code == [] {
      assert HexBytes(code) + rest == rest;
    } else {
      hide CodeBytes;
      var more := HexBytes(code[1..]) + rest;
      ByteHex(code[0]);
      PairReads(code[0], more);
      CodeReads(code[1..], rest);
      assert HexBytes(code) + rest == [Digit(code[0] / 16), Digit(code[0] % 16)] + more;
      assert CodeBytes(HexBytes(code) + rest) == [code[0]] + code[1..];
    }
  }

  lemma SkipNothing(s: string)
    requires |s| == 0 || !IsSpace(s[0])
    ensures SkipSpace(s) == s && SkipSpace(" " + s) == s
  {
    assert (" " + s)[1..] == s;
  }

  lemma CodeAfterColon(code: seq<byte>, k: nat, text: string)
    requires k > 0
    ensures var s := HexBytes(code) + (Spaces(k) + ("| " + text));
      CodeBytes(SkipSpace(s)) == code && CodeBytes(SkipSpace(" " + s)) == code
  {
    hide CodeBytes, SkipSpace, HexBytes;
    var tail := Spaces(k) + ("| " + text);
    if code == [] {
      NoCode(k, text);
      assert HexBytes([]) + tail == tail by { NoHex(); }
    } else {
      SomeCode(code, tail);
    }
  }

  lemma NoHex()
    ensures HexBytes([]) == ""
  {
  }

  lemma NoCode(k: nat, text: string)
    ensures var tail := Spaces(k) + ("| " + text);
      CodeBytes(SkipSpace(tail)) == [] && CodeBytes(SkipSpace(" " + tail)) == []
  {
    var tail := Spaces(k) + ("| " + text);
    SkipSpaces(k, "| " + text);
    assert SkipSpace(" " + tail) == SkipSpace(tail) by { assert (" " + tail)[1..] == tail; }
    SkipNothing("| " + text);
    assert CodeBytes("| " + text) == [];
  }

  lemma SomeCode(code: seq<byte>, tail: string)
    requires code != [] && |tail| > 0 && tail[0] == ' '
    ensures CodeBytes(SkipSpace(HexBytes(code) + tail)) == code
    ensures CodeBytes(SkipSpace(" " + (HexBytes(code) + tail))) == code
  {
    hide CodeBytes, SkipSpace, HexBytes;
    var s := HexBytes(code) + tail;
    CodeReads(code, tail);
    FirstDigit(code);
    assert s[0] == HexBytes(code)[0];
    SkipNothing(s);
    assert SkipSpace(s) == s && SkipSpace(" " + s) == s && CodeBytes(s) == code;
    assert CodeBytes(SkipSpace(s)) == code && CodeBytes(SkipSpace(" " + s)) == code;
  }

  lemma FirstDigit(code: seq<byte>)
    requires code != []
    ensures !IsSpace(HexBytes(code)[0])
  {
    ByteHex(code[0]);
    DigitReads(code[0] / 16);
  }

  lemma RestReads(pos: nat, len: nat, code: seq<byte>, sep: string, k: nat, text: string)
    requires pos < Pow16(len) && (sep == "" || sep == " ") && k > 0
    ensures ReadLine("0x" + (Hex(pos, len) + (":" + (sep + (HexBytes(code) + (Spaces(k) + ("| " + text))))))) ==
      At(pos, code)
  {
    hide Hex, HexBytes, Spaces, CodeBytes;
    var s := HexBytes(code) + (Spaces(k) + ("| " + text));
    var after := sep + s;
    AddressReads(pos, len, ":" + after, 0);
    LineShape(Hex(pos, len) + (":" + after), pos, after);
    CodeAfterColon(code, k, text);
    assert "" + s == s;
  }

  lemma LineShape(digits: string, pos: nat, after: string)
    requires Address(digits, 0) == Address(":" + after, pos)
    ensures ReadLine("0x" + digits) == At(pos, CodeBytes(SkipSpace(after)))
  {
    hide CodeBytes;
    var line := "0x" + digits;
    assert line[2..] == digits && (":" + after)[1..] == after;
    SkipNothing(line);
    SkipNothing(":" + after);
    assert Address(":" + after, pos) == (pos, ":" + after);
  }

  /** Every line of the listing reads back as what was emitted; lines without code are skipped or bring
      no bytes, whatever the source text. */
  lemma RenderReads(e: Emitted, text: string)
    requires InRange(e)
    ensures ReadLine(Render(e, text)) == if e.blank then Skipped else At(e.pos, e.code)
  {
    if e.blank {
      SkipSpaces(if e.pos > 0xFFF then 29 else 28, "| " + text);
    } else {
      Widths();
      var hex := HexBytes(e.code);
      if e.pos > 0xFFF {
        RestReads(e.pos, 4, e.code, "", 22 - 2 * |e.code|, text);
        var s := hex + (Spaces(22 - 2 * |e.code|) + ("| " + text));
        assert "" + s == s;
      } else {
        RestReads(e.pos, 3, e.code, " ", 21 - 2 * |e.code|, text);
      }
    }
  }

  lemma Widths()
    ensures Pow16(3) == 0x1000 && Pow16(4) == 0x1_0000
  {
  }

  // ------------------------------------------------------------------------------------------
  // load_mem

  /** A line of a buffer that ends with a zero character. */
  function CharAt(buf: string, i: nat): char { if i < |buf| then buf[i] else '\0' }

  method SkipBlanks(buf: string, i: nat) returns (j: nat)
    requires i <= |buf|
    ensures i <= j <= |buf| && buf[j..] == SkipSpace(buf[i..])
  {
    j := i;
    while IsSpace(CharAt(buf, j))
      invariant i <= j <= |buf| && SkipSpace(buf[j..]) == SkipSpace(buf[i..])
      decreases |buf| - j
    {
      assert buf[j..][1..] == buf[j + 1..];
      j := j + 1;
    }
  }

  method ReadAddress(buf: string, i: nat) returns (addr: nat, j: nat)
    requires i <= |buf|
    ensures i <= j <= |buf| && (addr, buf[j..]) == Address(buf[i..], 0)
  {
    addr, j := 0, i;
    while IsXDigit(CharAt(buf, j))
      invariant i <= j <= |buf| && Address(buf[j..], addr) == Address(buf[i..], 0)
      decreases |buf| - j
    {
      assert buf[j..][1..] == buf[j + 1..];
      addr := addr * 16 + Hex2Dig(buf[j]);
      j := j + 1;
    }
  }

  /** The code bytes of a line fit the memory. */
  predicate FitsIn(r: LineRead, len: nat) {
    r.Skipped? || (r.At? && (r.code == [] || r.addr + |r.code| <= len))
  }

  /** The memory after a line, whose code bytes are stored as far as they fit. */
  function Stored(m: seq<byte>, r: LineRead): (n: seq<byte>)
    ensures |n| == |m|
  {
    if !r.At? || r.code == [] || r.addr >= |m| then m
    else if r.addr + |r.code| <= |m| then Splice(m, r.addr, r.code)
    else Splice(m, r.addr, r.code[..|m| - r.addr])
  }

  function Count(r: LineRead): nat { if r.At? then |r.code| else 0 }

  /** When no code or no room is left, the bytes stored one by one are those of the line. */
  lemma StoredWhenFull(was: seq<byte>, now: seq<byte>, addr: nat, code: seq<byte>, cnt: nat)
    requires |now| == |was| && cnt <= |code| && (cnt > 0 ==> addr + cnt <= |was|)
    requires cnt == |code| || addr + cnt >= |was|
    requires forall j :: 0 <= j < cnt ==> now[addr + j] == code[j]
    requires forall j :: 0 <= j < |was| && !(addr <= j < addr + cnt) ==> now[j] == was[j]
    ensures now == Stored(was, At(addr, code))
  {
    if cnt > 0 {
      assert now == was[..addr] + code[..cnt] + was[addr + cnt..];
      assert cnt == |code| ==> code[..cnt] == code;
    }
  }

  /** The loop of load_mem that stores digit pairs. */
  method StoreCode(m: array<byte>, buf: string, i: nat, addr: nat) returns (ok: bool, cnt: nat)
    requires i <= |buf|
    modifies m
    ensures ok <==> FitsIn(At(addr, CodeBytes(buf[i..])), m.Length)
    ensures m[..] == Stored(old(m[..]), At(addr, CodeBytes(buf[i..]))) && (ok ==> cnt == |CodeBytes(buf[i..])|)
  {
    hide Stored;
    ghost var was, code := m[..], CodeBytes(buf[i..]);
    var cpos := i;
    cnt := 0;
    while IsXDigit(CharAt(buf, cpos)) && IsXDigit(CharAt(buf, cpos + 1))
      invariant i <= cpos <= |buf| && cnt <= |code| && CodeBytes(buf[cpos..]) == code[cnt..]
      invariant cnt > 0 ==> addr + cnt <= m.Length
      invariant forall j :: 0 <= j < cnt ==> m[addr + j] == code[j]
      invariant forall j :: 0 <= j < m.Length && !(addr <= j < addr + cnt) ==> m[j] == was[j]
      decreases |buf| - cpos
    {
      assert buf[cpos..][2..] == buf[cpos + 2..];
      if addr + cnt >= m.Length {
        StoredWhenFull(was, m[..], addr, code, cnt);
        return false, 0;
      }
      assert code[cnt..][0] == code[cnt] && code[cnt..][1..] == code[cnt + 1..];
      m[addr + cnt] := (Hex2Dig(buf[cpos]) * 16 + Hex2Dig(buf[cpos + 1])) as byte;
      cnt := cnt + 1;
      cpos := cpos + 2;
    }
    StoredWhenFull(was, m[..], addr, code, cnt);
    return true, cnt;
  }

  /** One turn of load_mem's loop. */
  method LoadLine(m: array<byte>, buf: string) returns (ok: bool, cnt: nat)
    modifies m
    ensures ok <==> FitsIn(ReadLine(buf), m.Length)
    ensures m[..] == Stored(old(m[..]), ReadLine(buf)) && (ok ==> cnt == Count(ReadLine(buf)))
  {
    hide SkipSpace, Address, CodeBytes, Splice;
    var i := SkipBlanks(buf, 0);
    assert buf[0..] == buf;
    if CharAt(buf, i) != '0' || (CharAt(buf, i + 1) != 'x' && CharAt(buf, i + 1) != 'X') {
      return true, 0;
    }
    assert buf[i..][2..] == buf[i + 2..];
    var addr, j := ReadAddress(buf, i + 2);
    j := SkipBlanks(buf, j);
    if CharAt(buf, j) != ':' {
      return false, 0;
    }
    assert buf[j..][1..] == buf[j + 1..];
    j := SkipBlanks(buf, j + 1);
    ok, cnt := StoreCode(m, buf, j, addr);
  }

  function LoadAll(m: seq<byte>, lines: seq<string>, n: nat): seq<byte>
    requires n <= |lines|
    ensures |LoadAll(m, lines, n)| == |m|
  {
    if n == 0 then m else Stored(LoadAll(m, lines, n - 1), ReadLine(lines[n - 1]))
  }

  function CountAll(lines: seq<string>, n: nat): nat
    requires n <= |lines|
  {
    if n == 0 then 0 else CountAll(lines, n - 1) + Count(ReadLine(lines[n - 1]))
  }

  ghost predicate AllFit(lines: seq<string>, n: nat, len: nat)
    requires n <= |lines|
  {
    forall k :: 0 <= k < n ==> FitsIn(ReadLine(lines[k]), len)
  }

  /** load_mem: the number of bytes stored, or 0 if some line is bad; then everything up to that line is in
      memory, and of that line what fits. `lines` are the strings fgets hands over: a line that is longer than
      the buffer comes in pieces, and each is read like a line. */
  method LoadMem(m: array<byte>, lines: seq<string>) returns (byteCnt: nat)
    modifies m
    ensures AllFit(lines, |lines|, m.Length) ==>
      m[..] == LoadAll(old(m[..]), lines, |lines|) && byteCnt == CountAll(lines, |lines|)
    ensures forall k :: 0 <= k < |lines| && AllFit(lines, k, m.Length) && !FitsIn(ReadLine(lines[k]), m.Length) ==>
      m[..] == LoadAll(old(m[..]), lines, k + 1) && byteCnt == 0
  {
    hide ReadLine, Splice, FitsIn, Stored;
    byteCnt := 0;
    for n := 0 to |lines|
      invariant AllFit(lines, n, m.Length)
      invariant m[..] == LoadAll(old(m[..]), lines, n) && byteCnt == CountAll(lines, n)
    {
      var ok, cnt := LoadLine(m, lines[n]);
      if !ok {
        return 0;
      }
      byteCnt := byteCnt + cnt;
    }
  }
}
