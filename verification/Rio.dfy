/** The buffered reader: whatever pieces read() delivers, callers see the plain byte stream. */
module Rio {
  import opened Bytes

  const RIO_BUFSIZE := 8192
  const NEWLINE: byte := 10

  // ------------------------------------------------------------------------------------------
  // The descriptor

  /** What successive calls of read() will do: deliver some bytes (none mean the end of the file), be
      interrupted, report the end of the file, or fail. After the last of them every call reports the end of
      the file. */
  datatype Outcome = Data(bytes: seq<byte>) | Interrupted | EndOfFile | Failure

  /** The same with the pieces forgotten. */
  datatype Event = Byte(b: byte) | Eof | Err

  function BytesOf(s: seq<byte>): (r: seq<Event>)
    ensures |r| == |s|
  {
    seq(|s|, i requires 0 <= i < |s| => Byte(s[i]))
  }

  function EventsOf(o: Outcome): seq<Event> {
    match o
    case Data(s) => if s == [] then [Eof] else BytesOf(s)
    case Interrupted => []
    case EndOfFile => [Eof]
    case Failure => [Err]
  }

  function Events(script: seq<Outcome>): seq<Event> {
    if script == [] then [] else EventsOf(script[0]) + Events(script[1..])
  }

  // ------------------------------------------------------------------------------------------
  // What the callers are promised, in terms of events only

  /** How many of the first `n` events are bytes with no other event before them. */
  function Run(ev: seq<Event>, n: nat): (k: nat)
    ensures k <= n && k <= |ev| && (forall i :: 0 <= i < k ==> ev[i].Byte?)
    ensures k < n && k < |ev| ==> !ev[k].Byte?
  {
    if n == 0 || |ev| == 0 || !ev[0].Byte? then 0 else 1 + Run(ev[1..], n - 1)
  }

  /** As Run, but a newline ends it. */
  function Line(ev: seq<Event>, n: nat): (k: nat)
    ensures k <= n && k <= |ev| && (forall i :: 0 <= i < k ==> ev[i].Byte?)
    ensures forall i :: 0 <= i < k - 1 ==> ev[i] != Byte(NEWLINE)
    ensures k < n && k < |ev| && ev[k].Byte? ==> k > 0 && ev[k - 1] == Byte(NEWLINE)
  {
    if n == 0 || |ev| == 0 || !ev[0].Byte? then 0
    else if ev[0] == Byte(NEWLINE) then 1
    else 1 + Line(ev[1..], n - 1)
  }

  /** A call's result (-1 for an error) and the events left for the next one. */
  datatype CallResult = Result(count: int, rest: seq<Event>)

  /** The result when `k` bytes were taken and that is `enough`, or else the event behind them decides. */
  function Settle(ev: seq<Event>, k: nat, enough: bool): CallResult
    requires k <= |ev|
  {
    if enough || k == |ev| then Result(k, ev[k..])
    else if ev[k] == Err then Result(-1, ev[k + 1..])
    else Result(k, ev[k + 1..])
  }

  function ReadN(ev: seq<Event>, n: nat): CallResult { Settle(ev, Run(ev, n), Run(ev, n) == n) }

  predicate EndsLine(ev: seq<Event>, k: nat)
    requires k <= |ev|
  {
    k > 0 && ev[k - 1] == Byte(NEWLINE)
  }

  /** How many bytes of a line fit, with the terminating one, into `max`. */
  function Room(max: nat): nat { if max == 0 then 0 else max - 1 }

  /** A line is what comes up to and including the first newline, at most `max` - 1 bytes. */
  function ReadLine(ev: seq<Event>, max: nat): CallResult {
    var k := Line(ev, Room(max));
    Settle(ev, k, k == Room(max) || EndsLine(ev, k))
  }

  // ------------------------------------------------------------------------------------------
  // The reader

  class Reader {
    var script: seq<Outcome>
    const buf: array<byte>
    var cnt: int
    var ptr: int

    ghost predicate Valid()
      reads this
    {
      buf.Length == RIO_BUFSIZE && (cnt > 0 ==> 0 <= ptr && ptr + cnt <= buf.Length)
    }

    /** What is still to come: the unread part of the buffer, then what read() will bring. */
    ghost function Remaining(): seq<Event>
      requires Valid()
      reads this, buf
    {
      (if cnt > 0 then BytesOf(buf[ptr..ptr + cnt]) else []) + Events(script)
    }

    /** rio_readinitb */
    constructor (s: seq<Outcome>)
      ensures Valid() && Remaining() == Events(s) && fresh(buf)
    {
      script := s;
      buf := new byte[RIO_BUFSIZE];
      cnt, ptr := 0, 0;
    }

    /** read(): at most a buffer full of the next piece; the rest of the piece stays for the next call. */
    method Read() returns (r: int, interrupted: bool)
      requires buf.Length == RIO_BUFSIZE
      modifies this`script, buf
      ensures -1 <= r <= buf.Length && |script| <= |old(script)|
      ensures interrupted ==> r == -1 && |script| < |old(script)| && Events(script) == old(Events(script))
      ensures r == -1 && !interrupted ==> old(Events(script)) == [Err] + Events(script)
      ensures r == 0 ==> old(Events(script)) == Events(script) == [] || old(Events(script)) == [Eof] + Events(script)
      ensures r > 0 ==> old(Events(script)) == BytesOf(buf[..r]) + Events(script)
    {
      if script == [] {
        return 0, false;
      }
      var o, later := script[0], script[1..];
      script := later;
      interrupted := false;
      match o
      case Data(s) =>
        r := if |s| <= buf.Length then |s| else buf.Length;
        for i := 0 to r
          modifies buf
          invariant forall j :: 0 <= j < i ==> buf[j] == s[j]
        {
          buf[i] := s[i];
        }
        assert buf[..r] == s[..r];
        if r < |s| {
          script := [Data(s[r..])] + later;
          SplitPiece(s, r, later);
        }
      case Interrupted =>
        r, interrupted := -1, true;
      case EndOfFile =>
        r := 0;
      case Failure =>
        r := -1;
    }

    /** The first half of rio_read: read until the buffer is not empty; 1 when it is not. */
    method Refill() returns (r: int)
      requires Valid()
      modifies this`script, this`cnt, this`ptr, buf
      ensures Valid() && -1 <= r <= 1
      ensures r == 1 ==> cnt > 0 && Remaining() == old(Remaining())
      ensures r == -1 ==> old(Remaining()) == [Err] + Remaining()
      ensures r == 0 ==> old(Remaining()) == Remaining() == [] || old(Remaining()) == [Eof] + Remaining()
    {
      hide Events, BytesOf;
      while cnt <= 0
        invariant Valid() && Remaining() == old(Remaining())
        decreases |script|, -cnt
      {
        assert Remaining() == Events(script);
        var interrupted;
        cnt, interrupted := Read();
        if cnt < 0 {
          if !interrupted {
            return -1;
          }
        } else if cnt == 0 {
          return 0;
        } else {
          ptr := 0;
          assert buf[ptr..ptr + cnt] == buf[..cnt];
        }
      }
      return 1;
    }

    /** rio_read: between 1 and `n` bytes out of the buffer, which is refilled first if it is empty. */
    method RioRead(usrbuf: array<byte>, at: nat, n: nat) returns (r: int)
      requires Valid() && usrbuf != buf && at + n <= usrbuf.Length && n > 0
      modifies this`script, this`cnt, this`ptr, buf, usrbuf
      ensures Valid() && -1 <= r <= n
      ensures r <= 0 ==> Stopped(old(Remaining()), r, Remaining())
      ensures r > 0 ==> old(Remaining()) == BytesOf(usrbuf[at..at + r]) + Remaining()
      ensures forall i :: 0 <= i < usrbuf.Length && !(at <= i < at + r) ==> usrbuf[i] == old(usrbuf[i])
    {
      hide Events, BytesOf;
      r := Refill();
      if r == 1 {
        r := if cnt < n then cnt else n;
        CopyOut(usrbuf, at, r);
      }
    }

    /** The second half of rio_read: `r` bytes leave the buffer. */
    method CopyOut(usrbuf: array<byte>, at: nat, r: nat)
      requires Valid() && usrbuf != buf && at + r <= usrbuf.Length && 0 < r <= cnt
      modifies this`cnt, this`ptr, usrbuf
      ensures Valid() && old(Remaining()) == BytesOf(usrbuf[at..at + r]) + Remaining()
      ensures forall i :: 0 <= i < usrbuf.Length && !(at <= i < at + r) ==> usrbuf[i] == old(usrbuf[i])
    {
      hide Events, BytesOf;
      ghost var had, later := buf[ptr..ptr + cnt], Events(script);
      forall i | 0 <= i < r {
        usrbuf[at + i] := buf[ptr + i];
      }
      forall i | 0 <= i < r
        ensures usrbuf[at + i] == had[i]
      {
        assert had[i] == buf[ptr + i];
      }
      ptr := ptr + r;
      cnt := cnt - r;
      ghost var a, b := had[..r], had[r..];
      assert usrbuf[at..at + r] == a && had == a + b;
      BytesOfConcat(a, b);
      assert Remaining() == BytesOf(b) + later by {
        if cnt > 0 {
          assert buf[ptr..ptr + cnt] == b;
        } else {
          BytesOfNone(b);
        }
      }
      assert BytesOf(a) + BytesOf(b) + later == BytesOf(a) + (BytesOf(b) + later);
    }

    /** rio_readnb: `n` bytes, or as many as there are before the end of the file. Whatever was taken is in
        `usrbuf`, also when an error is reported instead of a count. */
    method ReadNb(usrbuf: array<byte>, n: nat) returns (r: int)
      requires Valid() && usrbuf != buf && n <= usrbuf.Length
      modifies this`script, this`cnt, this`ptr, buf, usrbuf
      ensures Valid() && Result(r, Remaining()) == ReadN(old(Remaining()), n)
      ensures var k := Run(old(Remaining()), n); BytesOf(usrbuf[..k]) == old(Remaining())[..k]
      ensures forall i :: Run(old(Remaining()), n) <= i < usrbuf.Length ==> usrbuf[i] == old(usrbuf[i])
    {
      hide Events, Run, BytesOf, ReadN;
      ghost var ev := Remaining();
      BytesOfNone(usrbuf[..0]);
      var nleft, at := n, 0;
      while nleft > 0
        invariant Valid() && 0 <= nleft && 0 <= at && nleft + at == n
        invariant Taken(ev, usrbuf[..at], Remaining())
        invariant forall i :: at <= i < usrbuf.Length ==> usrbuf[i] == old(usrbuf[i])
      {
        ghost var done, rest := usrbuf[..at], Remaining();
        var nread := RioRead(usrbuf, at, nleft);
        assert usrbuf[..at] == done;
        if nread <= 0 {
          ReadNStops(ev, done, rest, n, nread, Remaining());
          return if nread < 0 then -1 else at;
        }
        TakeMore(ev, done, rest, usrbuf[at..at + nread], Remaining());
        assert usrbuf[..at + nread] == done + usrbuf[at..at + nread];
        nleft := nleft - nread;
        at := at + nread;
      }
      ReadNFull(ev, usrbuf[..n], Remaining());
      return n;
    }

    /** One byte of a line through `c`. */
    method TakeByte(usrbuf: array<byte>, at: nat, c: array<byte>, ghost ev: seq<Event>) returns (rc: int)
      requires Valid() && usrbuf != buf && c != buf && c != usrbuf && at < usrbuf.Length && c.Length == 1
      requires Taken(ev, usrbuf[..at], Remaining())
      modifies this`script, this`cnt, this`ptr, buf, usrbuf, c
      ensures Valid() && -1 <= rc <= 1
      ensures rc < 1 ==> Stopped(old(Remaining()), rc, Remaining()) && usrbuf[..] == old(usrbuf[..])
      ensures rc == 1 ==> Taken(ev, usrbuf[..at + 1], Remaining()) && usrbuf[..at + 1] == old(usrbuf[..at]) + [c[0]]
      ensures forall i :: at < i < usrbuf.Length ==> usrbuf[i] == old(usrbuf[i])
    {
      hide Events, BytesOf, Taken, Stopped;
      ghost var done, rest := usrbuf[..at], Remaining();
      rc := RioRead(c, 0, 1);
      if rc == 1 {
        usrbuf[at] := c[0];
        TakeMore(ev, done, rest, [c[0]], Remaining()) by { assert c[0..1] == [c[0]]; }
        assert usrbuf[..at + 1] == done + [c[0]];
      }
    }

    /** The loop of rio_readlineb: `at` bytes taken, and what the last read returned. */
    method TakeLine(usrbuf: array<byte>, maxlen: nat) returns (at: nat, rc: int)
      requires Valid() && usrbuf != buf && 0 < usrbuf.Length && maxlen <= usrbuf.Length
      modifies this`script, this`cnt, this`ptr, buf, usrbuf
      ensures Valid() && at == Line(old(Remaining()), Room(maxlen)) && at < usrbuf.Length
      ensures Result(if rc < 0 then -1 else at, Remaining()) == ReadLine(old(Remaining()), maxlen)
      ensures BytesOf(usrbuf[..at]) == old(Remaining())[..at]
      ensures forall i :: at <= i < usrbuf.Length ==> usrbuf[i] == old(usrbuf[i])
      ensures -1 <= rc <= 1 && (rc < 1 ==> maxlen > 1) && (rc == 1 ==> at > 0 || maxlen <= 1)
    {
      hide Events, Line, BytesOf, ReadLine, Stopped, Taken;
      ghost var ev := Remaining();
      NothingTaken(ev, usrbuf[..0]);
      rc, at := 1, 0;
      var n := 1;
      var c := new byte[1];
      while n < maxlen
        invariant Valid() && fresh(c) && c.Length == 1 && rc == 1
        invariant n == at + 1 && at <= Room(maxlen)
        invariant Taken(ev, usrbuf[..at], Remaining()) && NEWLINE !in usrbuf[..at]
        invariant forall i :: at <= i < usrbuf.Length ==> usrbuf[i] == old(usrbuf[i])
        decreases maxlen - n
      {
        ghost var done, rest := usrbuf[..at], Remaining();
        rc := TakeByte(usrbuf, at, c, ev);
        if rc < 1 {
          LineStops(ev, done, rest, maxlen, rc, Remaining());
          return;
        }
        at := at + 1;
        if c[0] == NEWLINE {
          LineEnds(ev, done, c[0], Remaining(), maxlen);
          return;
        }
        n := n + 1;
      }
      LineFull(ev, usrbuf[..at], Remaining(), maxlen);
    }

    /** rio_readlineb: one line, with its newline and a terminating zero byte. Whatever was taken is in
        `usrbuf`, also when an error is reported; the terminating byte is not written then, nor at the end of
        the file with nothing read. */
    method ReadLineB(usrbuf: array<byte>, maxlen: nat) returns (r: int)
      requires Valid() && usrbuf != buf && 0 < usrbuf.Length && maxlen <= usrbuf.Length && maxlen <= MAX_INT
      modifies this`script, this`cnt, this`ptr, buf, usrbuf
      ensures Valid() && Result(r, Remaining()) == ReadLine(old(Remaining()), maxlen)
      ensures var k := Line(old(Remaining()), Room(maxlen));
        && BytesOf(usrbuf[..k]) == old(Remaining())[..k]
        && usrbuf[k] == (if r > 0 || maxlen <= 1 then 0 else old(usrbuf[..])[k])
      ensures forall i :: Line(old(Remaining()), Room(maxlen)) < i < usrbuf.Length ==> usrbuf[i] == old(usrbuf[i])
    {
      hide Events, Line, BytesOf, ReadLine;
      var at, rc := TakeLine(usrbuf, maxlen);
      if rc < 0 {
        return -1;
      }
      if rc == 0 && at == 0 {
        return 0;
      }
      ghost var got := usrbuf[..at];
      usrbuf[at] := 0;
      assert usrbuf[..at] == got;
      return at;
    }
  }

  lemma BytesOfNone(s: seq<byte>)
    requires s == []
    ensures BytesOf(s) == []
  {
  }

  /** `s` was taken from `ev` and `rest` is left. */
  ghost predicate Taken(ev: seq<Event>, s: seq<byte>, rest: seq<Event>) { ev == BytesOf(s) + rest }

  lemma NothingTaken(ev: seq<Event>, s: seq<byte>)
    requires s == []
    ensures Taken(ev, s, ev)
  {
  }

  lemma TakeMore(ev: seq<Event>, s: seq<byte>, rest: seq<Event>, more: seq<byte>, later: seq<Event>)
    requires Taken(ev, s, rest) && rest == BytesOf(more) + later
    ensures Taken(ev, s + more, later)
  {
    hide BytesOf;
    BytesOfConcat(s, more);
    assert BytesOf(s) + (BytesOf(more) + later) == BytesOf(s) + BytesOf(more) + later;
  }

  /** A read that brought nothing: the end of the file or an error is next. */
  ghost predicate Stopped(rest: seq<Event>, r: int, later: seq<Event>) {
    if r == 0 then rest == later == [] || rest == [Eof] + later else rest == [Err] + later
  }

  lemma ReadNStops(ev: seq<Event>, s: seq<byte>, rest: seq<Event>, n: nat, r: int, later: seq<Event>)
    requires Taken(ev, s, rest) && |s| < n && Stopped(rest, r, later) && -1 <= r <= 0
    ensures Run(ev, n) == |s| && ReadN(ev, n) == Result(if r < 0 then -1 else |s|, later)
    ensures BytesOf(s) == ev[..|s|]
  {
    assert forall i :: 0 <= i < |s| ==> ev[i] == Byte(s[i]);
    assert ev[|s|..] == rest;
    if rest != [] {
      assert ev[|s|] == rest[0] && ev[|s| + 1..] == rest[1..] == later;
    }
  }

  lemma ReadNFull(ev: seq<Event>, s: seq<byte>, rest: seq<Event>)
    requires Taken(ev, s, rest)
    ensures Run(ev, |s|) == |s| && ReadN(ev, |s|) == Result(|s|, rest) && BytesOf(s) == ev[..|s|]
  {
    assert forall i :: 0 <= i < |s| ==> ev[i] == Byte(s[i]);
  }

  lemma LineStops(ev: seq<Event>, s: seq<byte>, rest: seq<Event>, max: nat, r: int, later: seq<Event>)
    requires Taken(ev, s, rest) && |s| < max - 1 && NEWLINE !in s && Stopped(rest, r, later) && -1 <= r <= 0
    ensures Line(ev, Room(max)) == |s| && ReadLine(ev, max) == Result(if r < 0 then -1 else |s|, later)
    ensures BytesOf(s) == ev[..|s|]
  {
    assert forall i :: 0 <= i < |s| ==> ev[i] == Byte(s[i]);
    assert ev[|s|..] == rest;
    if rest != [] {
      assert ev[|s|] == rest[0] && ev[|s| + 1..] == rest[1..] == later;
    }
    assert Line(ev, Room(max)) == |s|;
  }

  lemma LineEnds(ev: seq<Event>, s: seq<byte>, c: byte, rest: seq<Event>, max: nat)
    requires Taken(ev, s + [c], rest) && |s| < max - 1 && NEWLINE !in s && c == NEWLINE
    ensures Line(ev, Room(max)) == |s| + 1 && ReadLine(ev, max) == Result(|s| + 1, rest)
    ensures BytesOf(s + [c]) == ev[..|s| + 1]
  {
    assert forall i :: 0 <= i < |s| ==> ev[i] == Byte((s + [c])[i]);
    assert ev[|s|] == Byte(NEWLINE);
    assert Line(ev, Room(max)) == |s| + 1;
  }

  lemma LineFull(ev: seq<Event>, s: seq<byte>, rest: seq<Event>, max: nat)
    requires Taken(ev, s, rest) && |s| == Room(max) && NEWLINE !in s
    ensures Line(ev, Room(max)) == |s| && ReadLine(ev, max) == Result(|s|, rest)
    ensures BytesOf(s) == ev[..|s|]
  {
    assert forall i :: 0 <= i < |s| ==> ev[i] == Byte(s[i]);
    assert Line(ev, Room(max)) == |s|;
  }

  lemma BytesOfConcat(a: seq<byte>, b: seq<byte>)
    ensures BytesOf(a + b) == BytesOf(a) + BytesOf(b)
  {
  }

  lemma SplitPiece(s: seq<byte>, r: nat, later: seq<Outcome>)
    requires 0 < r < |s|
    ensures Events([Data(s)] + later) == BytesOf(s[..r]) + Events([Data(s[r..])] + later)
  {
    assert s == s[..r] + s[r..];
    BytesOfConcat(s[..r], s[r..]);
    assert ([Data(s)] + later)[1..] == later && ([Data(s[r..])] + later)[1..] == later;
    assert BytesOf(s[..r]) + BytesOf(s[r..]) + Events(later) == BytesOf(s[..r]) + (BytesOf(s[r..]) + Events(later));
  }

  // ------------------------------------------------------------------------------------------
  // Whole runs

  /** Calls in any order. */
  datatype Call = Nb(size: nat) | LineB(size: nat)

  function DoCall(ev: seq<Event>, c: Call): CallResult {
    match c
    case Nb(n) => ReadN(ev, n)
    case LineB(max) => ReadLine(ev, max)
  }

  /** How many bytes a call delivers. */
  function Delivers(ev: seq<Event>, c: Call): (k: nat)
    ensures k <= |ev|
  {
    match c
    case Nb(n) => Run(ev, n)
    case LineB(max) => Line(ev, Room(max))
  }

  /** What a call returned and left in its buffer. */
  datatype Answer = Answer(count: int, buffer: seq<byte>)

  ghost predicate AnswerOk(ev: seq<Event>, c: Call, a: Answer) {
    var k := Delivers(ev, c);
    a.count == DoCall(ev, c).count && k <= |a.buffer| && BytesOf(a.buffer[..k]) == ev[..k]
  }

  /** What is left after a sequence of calls. */
  function Left(ev: seq<Event>, calls: seq<Call>): seq<Event>
    decreases |calls|
  {
    if calls == [] then ev else DoCall(Left(ev, calls[..|calls| - 1]), calls[|calls| - 1]).rest
  }

  /** Each call was answered from what the calls before it left. */
  ghost predicate Answered(ev: seq<Event>, calls: seq<Call>, answers: seq<Answer>) {
    && |answers| == |calls|
    && forall i {:trigger answers[i]} :: 0 <= i < |calls| ==> AnswerOk(Left(ev, calls[..i]), calls[i], answers[i])
  }

  lemma OneMore(ev: seq<Event>, calls: seq<Call>, answers: seq<Answer>, c: Call, a: Answer)
    requires Answered(ev, calls, answers) && AnswerOk(Left(ev, calls), c, a)
    ensures Answered(ev, calls + [c], answers + [a])
    ensures Left(ev, calls + [c]) == DoCall(Left(ev, calls), c).rest
  {
    hide AnswerOk, DoCall;
    var more := calls + [c];
    assert more[..|calls|] == calls;
    forall i {:trigger (answers + [a])[i]} | 0 <= i < |more|
      ensures AnswerOk(Left(ev, more[..i]), more[i], (answers + [a])[i])
    {
      if i < |calls| {
        assert more[..i] == calls[..i] && answers[i] == (answers + [a])[i];
      }
    }
  }

  /** The bytes in the buffers of a sequence of calls, one after the other. */
  ghost function Collected(ev: seq<Event>, calls: seq<Call>, answers: seq<Answer>): seq<byte>
    requires Answered(ev, calls, answers)
    decreases |calls|
  {
    var n := |calls| - 1;
    if n < 0 then []
    else
      ShorterAnswered(ev, calls, answers);
      assert AnswerOk(Left(ev, calls[..n]), calls[n], answers[n]);
      Collected(ev, calls[..n], answers[..n]) + answers[n].buffer[..Delivers(Left(ev, calls[..n]), calls[n])]
  }

  lemma ShorterAnswered(ev: seq<Event>, calls: seq<Call>, answers: seq<Answer>)
    requires Answered(ev, calls, answers) && calls != []
    ensures Answered(ev, calls[..|calls| - 1], answers[..|calls| - 1])
  {
    hide AnswerOk, Left;
    var n := |calls| - 1;
    forall i {:trigger answers[..n][i]} | 0 <= i < n
      ensures AnswerOk(Left(ev, calls[..n][..i]), calls[..n][i], answers[..n][i])
    {
      assert calls[..n][..i] == calls[..i] && answers[..n][i] == answers[i];
    }
  }

  /** The bytes a sequence of calls delivers, one call after the other. */
  function Delivered(ev: seq<Event>, calls: seq<Call>): seq<byte>
    decreases |calls|
  {
    if calls == [] then []
    else PlainBytes(ev[..Delivers(ev, calls[0])]) + Delivered(DoCall(ev, calls[0]).rest, calls[1..])
  }

  /** The byte stream: what is in the events besides ends of file and errors. */
  function PlainBytes(ev: seq<Event>): seq<byte> {
    if ev == [] then [] else (if ev[0].Byte? then [ev[0].b] else []) + PlainBytes(ev[1..])
  }

  lemma {:induction false} PlainConcat(a: seq<Event>, b: seq<Event>)
    ensures PlainBytes(a + b) == PlainBytes(a) + PlainBytes(b)
  {
    if a == [] {
      assert a + b == b;
    } else {
      var head := if a[0].Byte? then [a[0].b] else [];
      assert (a + b)[1..] == a[1..] + b;
      PlainConcat(a[1..], b);
      assert head + PlainBytes(a[1..]) + PlainBytes(b) == head + (PlainBytes(a[1..]) + PlainBytes(b));
    }
  }

  /** One call takes what it delivers off the front of the stream, no byte lost, repeated or moved. */
  lemma CallConserves(ev: seq<Event>, c: Call)
    ensures PlainBytes(ev) == PlainBytes(ev[..Delivers(ev, c)]) + PlainBytes(DoCall(ev, c).rest)
  {
    hide PlainBytes, Run, Line;
    var k := Delivers(ev, c);
    PlainConcat(ev[..k], ev[k..]);
    assert ev[..k] + ev[k..] == ev;
    if DoCall(ev, c).rest != ev[k..] {
      hide Run, Line;
      assert ev[k..] == [ev[k]] + ev[k + 1..];
      PlainConcat([ev[k]], ev[k + 1..]);
      PlainNone(ev[k]);
    }
  }

  lemma PlainNone(e: Event)
    requires !e.Byte?
    ensures PlainBytes([e]) == []
  {
  }

  /** The bytes delivered by any calls in any order are a prefix of the byte stream. */
  lemma {:induction false} DeliveredIsPrefix(ev: seq<Event>, calls: seq<Call>)
    ensures Delivered(ev, calls) <= PlainBytes(ev)
    decreases |calls|
  {
    if calls != [] {
      CallConserves(ev, calls[0]);
      DeliveredIsPrefix(DoCall(ev, calls[0]).rest, calls[1..]);
    }
  }

  /** The buffers of a sequence of calls received what the calls deliver. */
  lemma {:induction false} CollectedDelivered(ev: seq<Event>, calls: seq<Call>, answers: seq<Answer>)
    requires Answered(ev, calls, answers)
    ensures Collected(ev, calls, answers) == Delivered(ev, calls)
    decreases |calls|
  {
    hide Delivers, DoCall, BytesOf;
    if calls != [] {
      var n := |calls| - 1;
      var early, rest := calls[..n], Left(ev, calls[..n]);
      ShorterAnswered(ev, calls, answers);
      CollectedDelivered(ev, early, answers[..n]);
      assert AnswerOk(rest, calls[n], answers[n]);
      PlainOfBytes(answers[n].buffer[..Delivers(rest, calls[n])]);
      DeliveredLast(ev, early, calls[n]);
      assert calls == early + [calls[n]];
    }
  }

  lemma {:induction false} PlainOfBytes(s: seq<byte>)
    ensures PlainBytes(BytesOf(s)) == s
  {
    if s != [] {
      PlainOfBytes(s[1..]);
      assert BytesOf(s)[1..] == BytesOf(s[1..]);
    }
  }

  lemma {:induction false} DeliveredLast(ev: seq<Event>, calls: seq<Call>, c: Call)
    ensures Delivered(ev, calls + [c]) ==
      Delivered(ev, calls) + PlainBytes(Left(ev, calls)[..Delivers(Left(ev, calls), c)])
    decreases |calls|
  {
    hide Delivers, DoCall, PlainBytes;
    if calls == [] {
      assert [c][1..] == [] && calls + [c] == [c];
      assert Delivered(ev, [c]) == PlainBytes(ev[..Delivers(ev, c)]) + Delivered(DoCall(ev, c).rest, []);
    } else {
      var head, later := PlainBytes(ev[..Delivers(ev, calls[0])]), DoCall(ev, calls[0]).rest;
      assert (calls + [c])[1..] == calls[1..] + [c];
      DeliveredLast(later, calls[1..], c);
      LeftFirst(ev, calls);
      var last := PlainBytes(Left(ev, calls)[..Delivers(Left(ev, calls), c)]);
      assert head + (Delivered(later, calls[1..]) + last) == head + Delivered(later, calls[1..]) + last;
    }
  }

  lemma {:induction false} LeftFirst(ev: seq<Event>, calls: seq<Call>)
    requires calls != []
    ensures Left(ev, calls) == Left(DoCall(ev, calls[0]).rest, calls[1..])
    decreases |calls|
  {
    hide DoCall;
    var n := |calls| - 1;
    if n == 0 {
      assert calls[..0] == [] && calls[1..] == [];
    } else {
      LeftFirst(ev, calls[..n]);
      assert calls[..n][1..] == calls[1..][..n - 1] && calls[1..][n - 1] == calls[n];
    }
  }

  /** How many bytes a call would deliver if nothing but bytes came, and no newline. */
  function Wanted(c: Call): nat {
    match c
    case Nb(n) => n
    case LineB(max) => Room(max)
  }

  /** The bytes a call took are not the end of it: fewer than wanted, and no line was completed. */
  predicate WantsMore(ev: seq<Event>, c: Call) {
    var k := Delivers(ev, c);
    k < Wanted(c) && (c.LineB? ==> !EndsLine(ev, k))
  }

  /** The result of a call is the number of bytes it delivers, so that its caller sees all of them, except
      exactly when it wants more and an error comes next: it is -1 then, whatever was taken. */
  lemma CountsAreDelivered(ev: seq<Event>, c: Call)
    ensures var k := Delivers(ev, c);
      DoCall(ev, c).count == k <==> !(WantsMore(ev, c) && k < |ev| && ev[k] == Err)
    ensures DoCall(ev, c).count != Delivers(ev, c) ==> DoCall(ev, c).count == -1
    ensures Err !in ev ==> Err !in DoCall(ev, c).rest
  {
    hide Run, Line;
  }

  /** One call into a new buffer. */
  method Make(rd: Reader, c: Call) returns (answer: Answer)
    requires rd.Valid() && c.size < MAX_INT
    modifies rd`script, rd`cnt, rd`ptr, rd.buf
    ensures rd.Valid() && rd.Remaining() == DoCall(old(rd.Remaining()), c).rest
    ensures AnswerOk(old(rd.Remaining()), c, answer)
  {
    hide Events, BytesOf, ReadN, ReadLine;
    var usrbuf := new byte[c.size + 1];
    var r;
    match c {
      case Nb(n) =>
        r := rd.ReadNb(usrbuf, n);
      case LineB(max) =>
        r := rd.ReadLineB(usrbuf, max);
    }
    answer := Answer(r, usrbuf[..]);
    ghost var k := Delivers(old(rd.Remaining()), c);
    assert answer.buffer[..k] == usrbuf[..k];
  }

  /** A client that makes `calls`, each into a buffer of its own. What the buffers were given, one after the
      other, is a prefix of the byte stream, whatever the pieces were. */
  method Perform(rd: Reader, calls: seq<Call>) returns (answers: seq<Answer>)
    requires rd.Valid() && forall c :: c in calls ==> c.size < MAX_INT
    modifies rd`script, rd`cnt, rd`ptr, rd.buf
    ensures rd.Valid() && rd.Remaining() == Left(old(rd.Remaining()), calls)
    ensures Answered(old(rd.Remaining()), calls, answers)
    ensures Collected(old(rd.Remaining()), calls, answers) == Delivered(old(rd.Remaining()), calls)
    ensures Collected(old(rd.Remaining()), calls, answers) <= PlainBytes(old(rd.Remaining()))
  {
    hide Events, BytesOf, DoCall, Delivers, PlainBytes;
    ghost var ev := rd.Remaining();
    answers := [];
    assert calls[..0] == [];
    for i := 0 to |calls|
      invariant rd.Valid() && |answers| == i && rd.Remaining() == Left(ev, calls[..i])
      invariant Answered(ev, calls[..i], answers)
    {
      var answer := Make(rd, calls[i]);
      assert calls[..i + 1] == calls[..i] + [calls[i]];
      OneMore(ev, calls[..i], answers, calls[i], answer);
      answers := answers + [answer];
    }
    assert calls[..|calls|] == calls;
    CollectedDelivered(ev, calls, answers);
    DeliveredIsPrefix(ev, calls);
  }

  // ------------------------------------------------------------------------------------------
  // Pieces

  lemma {:induction false} EventsConcat(x: seq<Outcome>, y: seq<Outcome>)
    ensures Events(x + y) == Events(x) + Events(y)
  {
    if x == [] {
      assert x + y == y;
    } else {
      assert (x + y)[1..] == x[1..] + y;
      EventsConcat(x[1..], y);
      assert EventsOf(x[0]) + Events(x[1..]) + Events(y) == EventsOf(x[0]) + (Events(x[1..]) + Events(y));
    }
  }

  lemma SamePieces(a: seq<byte>, b: seq<byte>)
    requires a != [] && b != []
    ensures Events([Data(a + b)]) == Events([Data(a), Interrupted, Data(b)])
  {
    BytesOfConcat(a, b);
    EventsConcat([Data(a)], [Interrupted, Data(b)]);
    assert [Data(a), Interrupted, Data(b)] == [Data(a)] + [Interrupted, Data(b)];
    assert Events([Data(a)]) == BytesOf(a) + Events([]) == BytesOf(a);
    assert Events([Data(b)]) == BytesOf(b) + Events([]) == BytesOf(b);
    assert [Interrupted, Data(b)][1..] == [Data(b)];
    assert Events([Interrupted, Data(b)]) == [] + Events([Data(b)]) == BytesOf(b);
    assert Events([Data(a + b)]) == BytesOf(a + b) + Events([]) == BytesOf(a + b);
  }

  /** What is put in the middle counts only by its events. */
  lemma InContext(before: seq<Outcome>, x: seq<Outcome>, y: seq<Outcome>, after: seq<Outcome>)
    requires Events(x) == Events(y)
    ensures Events(before + x + after) == Events(before + y + after)
  {
    hide Events;
    EventsConcat(before + x, after);
    EventsConcat(before, x);
    EventsConcat(before + y, after);
    EventsConcat(before, y);
  }

  /** The pieces do not matter: cutting a piece in two, with an interruption between, changes no event. */
  lemma PiecesDoNotMatter(before: seq<Outcome>, a: seq<byte>, b: seq<byte>, after: seq<Outcome>)
    requires a != [] && b != []
    ensures Events(before + [Data(a + b)] + after) == Events(before + [Data(a), Interrupted, Data(b)] + after)
  {
    SamePieces(a, b);
    InContext(before, [Data(a + b)], [Data(a), Interrupted, Data(b)], after);
  }

  /** What does not count about a script: a piece cut in two, an interruption, and whether the end of the file
      is reported as such or as a piece without bytes. */
  ghost predicate Alike(x: seq<Outcome>, y: seq<Outcome>) {
    || (exists a, b :: a != [] && b != [] && x == [Data(a + b)] && y == [Data(a), Data(b)])
    || (x == [Interrupted] && y == [])
    || (x == [Data([])] && y == [EndOfFile])
  }

  /** The scripts differ in one such place, one way or the other. */
  ghost predicate OneStep(x: seq<Outcome>, y: seq<Outcome>) {
    exists before, after, u, v :: (Alike(u, v) || Alike(v, u)) && x == before + u + after && y == before + v + after
  }

  ghost predicate Steps(path: seq<seq<Outcome>>) {
    forall i {:trigger path[i]} :: 0 < i < |path| ==> OneStep(path[i - 1], path[i])
  }

  /** One script can be turned into the other in such steps. */
  ghost predicate Connected(x: seq<Outcome>, y: seq<Outcome>) {
    exists path :: path != [] && path[0] == x && path[|path| - 1] == y && Steps(path)
  }

  lemma Still(x: seq<Outcome>)
    ensures Connected(x, x)
  {
    var path := [x];
    assert Steps(path) && path[|path| - 1] == x;
  }

  lemma Joined(x: seq<Outcome>, y: seq<Outcome>, z: seq<Outcome>)
    requires Connected(x, y) && Connected(y, z)
    ensures Connected(x, z)
  {
    hide OneStep;
    var p :| p != [] && p[0] == x && p[|p| - 1] == y && Steps(p);
    var q :| q != [] && q[0] == y && q[|q| - 1] == z && Steps(q);
    var path := p + q[1..];
    forall i {:trigger path[i]} | 0 < i < |path|
      ensures OneStep(path[i - 1], path[i])
    {
      if i < |p| {
        assert path[i] == p[i] && path[i - 1] == p[i - 1];
      } else {
        assert path[i] == q[i - |p| + 1] && path[i - 1] == q[i - |p|];
      }
    }
    assert path[|path| - 1] == z;
  }

  lemma Back(x: seq<Outcome>, y: seq<Outcome>)
    requires Connected(x, y)
    ensures Connected(y, x)
  {
    hide OneStep;
    var p :| p != [] && p[0] == x && p[|p| - 1] == y && Steps(p);
    PathBack(p);
  }

  lemma {:induction false} PathBack(p: seq<seq<Outcome>>)
    requires p != [] && Steps(p)
    ensures Connected(p[|p| - 1], p[0])
  {
    hide OneStep, Connected;
    if |p| == 1 {
      Still(p[0]);
    } else {
      assert OneStep(p[0], p[1]);
      PathBack(p[1..]);
      StepBack(p[0], p[1]);
      StepConnects(p[1], p[0]);
      Joined(p[|p| - 1], p[1], p[0]);
    }
  }

  lemma StepConnects(x: seq<Outcome>, y: seq<Outcome>)
    requires OneStep(x, y)
    ensures Connected(x, y)
  {
    hide OneStep;
    var path := [x, y];
    assert Steps(path) && path[|path| - 1] == y;
  }

  lemma StepBack(x: seq<Outcome>, y: seq<Outcome>)
    requires OneStep(x, y)
    ensures OneStep(y, x)
  {
    hide Alike;
  }

  lemma InOneStep(before: seq<Outcome>, u: seq<Outcome>, v: seq<Outcome>, after: seq<Outcome>)
    requires Alike(u, v)
    ensures Connected(before + u + after, before + v + after)
  {
    hide Alike;
    var path := [before + u + after, before + v + after];
    assert OneStep(path[0], path[1]);
    assert Steps(path) && path[|path| - 1] == before + v + after;
  }

  /** A script with every piece cut into single bytes and without interruptions. */
  function Single(script: seq<Outcome>): seq<Outcome> {
    if script == [] then [] else SingleOf(script[0]) + Single(script[1..])
  }

  function SingleOf(o: Outcome): seq<Outcome> {
    match o
    case Data(s) => if s == [] then [EndOfFile] else seq(|s|, i requires 0 <= i < |s| => Data([s[i]]))
    case Interrupted => []
    case EndOfFile => [EndOfFile]
    case Failure => [Failure]
  }

  /** Cutting goes down to single bytes. */
  lemma {:induction false} CutsToSingle(before: seq<Outcome>, s: seq<byte>, after: seq<Outcome>)
    requires s != []
    ensures Connected(before + [Data(s)] + after, before + SingleOf(Data(s)) + after)
    decreases |s|
  {
    hide Connected, Alike, SingleOf;
    var a, b := [s[0]], s[1..];
    assert s == a + b;
    SingleFirst(s);
    if b == [] {
      Still(before + [Data(s)] + after);
    } else {
      CutAlike(a, b);
      InOneStep(before, [Data(a + b)], [Data(a), Data(b)], after);
      CutsToSingle(before + [Data(a)], b, after);
      Regroup(before, Data(a), [Data(b)], after);
      Regroup(before, Data(a), SingleOf(Data(b)), after);
      assert [Data(a), Data(b)] == [Data(a)] + [Data(b)];
      Joined(before + [Data(s)] + after, before + [Data(a), Data(b)] + after, before + SingleOf(Data(s)) + after);
    }
  }

  lemma SingleFirst(s: seq<byte>)
    requires s != []
    ensures SingleOf(Data(s)) == [Data([s[0]])] + if s[1..] == [] then [] else SingleOf(Data(s[1..]))
    ensures s[1..] == [] ==> SingleOf(Data(s)) == [Data(s)]
  {
    assert s[1..] == [] ==> s == [s[0]];
  }

  lemma Regroup(before: seq<Outcome>, o: Outcome, x: seq<Outcome>, after: seq<Outcome>)
    ensures before + ([o] + x) + after == before + [o] + x + after
  {
  }

  lemma CutAlike(a: seq<byte>, b: seq<byte>)
    requires a != [] && b != []
    ensures Alike([Data(a + b)], [Data(a), Data(b)])
  {
  }

  lemma OneToSingle(before: seq<Outcome>, o: Outcome, after: seq<Outcome>)
    ensures Connected(before + [o] + after, before + SingleOf(o) + after)
  {
    hide Connected;
    match o
    case Data(s) =>
      if s == [] {
        InOneStep(before, [Data([])], [EndOfFile], after);
      } else {
        CutsToSingle(before, s, after);
      }
    case Interrupted =>
      InOneStep(before, [Interrupted], [], after);
    case EndOfFile =>
      Still(before + [o] + after);
    case Failure =>
      Still(before + [o] + after);
  }

  lemma {:induction false} ToSingle(before: seq<Outcome>, x: seq<Outcome>)
    ensures Connected(before + x, before + Single(x))
    decreases |x|
  {
    hide Connected, SingleOf;
    if x == [] {
      Still(before + x);
    } else {
      OneToSingle(before, x[0], x[1..]);
      ToSingle(before + SingleOf(x[0]), x[1..]);
      assert before + x == before + [x[0]] + x[1..];
      assert before + SingleOf(x[0]) + Single(x[1..]) == before + Single(x);
      Joined(before + x, before + SingleOf(x[0]) + x[1..], before + Single(x));
    }
  }

  function SingleFor(e: Event): Outcome {
    match e
    case Byte(b) => Data([b])
    case Eof => EndOfFile
    case Err => Failure
  }

  lemma {:induction false} SingleIsEvents(x: seq<Outcome>)
    ensures |Single(x)| == |Events(x)|
    ensures forall i {:trigger Single(x)[i]} :: 0 <= i < |Events(x)| ==> Single(x)[i] == SingleFor(Events(x)[i])
  {
    if x != [] {
      SingleIsEvents(x[1..]);
      assert |SingleOf(x[0])| == |EventsOf(x[0])|;
    }
  }

  lemma EventsOfOne(o: Outcome)
    ensures Events([o]) == EventsOf(o)
  {
    assert [o][1..] == [] && Events([]) == [];
    assert Events([o]) == EventsOf(o) + [];
  }

  lemma AlikeEvents(u: seq<Outcome>, v: seq<Outcome>)
    requires Alike(u, v)
    ensures Events(u) == Events(v)
  {
    EventsOfOne(Interrupted);
    EventsOfOne(Data([]));
    EventsOfOne(EndOfFile);
    if u != [Interrupted] && u != [Data([])] {
      var a, b :| a != [] && b != [] && u == [Data(a + b)] && v == [Data(a), Data(b)];
      SamePieces(a, b);
      hide Events;
      InContext([Data(a)], [Interrupted], [], [Data(b)]) by { NoEvents(); }
      assert [Data(a)] + [Interrupted] + [Data(b)] == [Data(a), Interrupted, Data(b)];
      assert [Data(a)] + [] + [Data(b)] == v;
    }
  }

  lemma NoEvents()
    ensures Events([Interrupted]) == [] == Events([])
  {
    EventsOfOne(Interrupted);
  }

  lemma StepEvents(x: seq<Outcome>, y: seq<Outcome>)
    requires OneStep(x, y)
    ensures Events(x) == Events(y)
  {
    hide Events, Alike;
    var before, after, u, v :|
      (Alike(u, v) || Alike(v, u)) && x == before + u + after && y == before + v + after;
    if Alike(u, v) {
      AlikeEvents(u, v);
    } else {
      AlikeEvents(v, u);
    }
    InContext(before, u, v, after);
  }

  lemma {:induction false} PathEvents(path: seq<seq<Outcome>>)
    requires path != [] && Steps(path)
    ensures Events(path[0]) == Events(path[|path| - 1])
  {
    hide Events, OneStep;
    if |path| > 1 {
      assert OneStep(path[0], path[1]);
      StepEvents(path[0], path[1]);
      PathEvents(path[1..]);
    }
  }

  /** Two scripts have the same events, and so give every caller the same, exactly when one can be turned into
      the other by cutting and joining pieces, by putting in and leaving out interruptions, and by writing the
      end of the file one way or the other. */
  lemma SameUpToPieces(x: seq<Outcome>, y: seq<Outcome>)
    ensures Events(x) == Events(y) <==> Connected(x, y)
  {
    hide Events, Steps;
    if Connected(x, y) {
      var path :| path != [] && path[0] == x && path[|path| - 1] == y && Steps(path);
      PathEvents(path);
    }
    if Events(x) == Events(y) {
      hide Connected, Single;
      SingleIsEvents(x);
      SingleIsEvents(y);
      assert Single(x) == Single(y) by { SameElements(Single(x), Single(y), Events(x)); }
      ToSingle([], x);
      ToSingle([], y);
      assert [] + x == x && [] + y == y && [] + Single(x) == Single(x) && [] + Single(y) == Single(y);
      Back(y, Single(y));
      Joined(x, Single(x), y);
    }
  }

  lemma SameElements(s: seq<Outcome>, t: seq<Outcome>, ev: seq<Event>)
    requires |s| == |t| == |ev|
    requires forall i {:trigger s[i]} :: 0 <= i < |ev| ==> s[i] == SingleFor(ev[i])
    requires forall i {:trigger t[i]} :: 0 <= i < |ev| ==> t[i] == SingleFor(ev[i])
    ensures s == t
  {
    hide SingleFor;
    assert forall i {:trigger s[i]} {:trigger t[i]} :: 0 <= i < |ev| ==> s[i] == t[i];
  }
}
