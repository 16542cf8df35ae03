/** The pseudo terminals of telnetd/pty.c: five slots, each with a socket and a decoder. */
module TelnetPty {
  import opened Telnet

  const MAX_PTYS := 5

  /** What the driver touches of a termios line: its read position and fill count. */
  datatype Tty = Tty(cindex: int, ccount: int)

  datatype Slot = Slot(active: bool, socket: int, d: Decoder, tty: Tty)

  /** The driver: its slots, and the sockets it has closed so far. */
  datatype Driver = Driver(slots: seq<Slot>, closed: multiset<int>)

  /** What read returns: an error, the end of the stream, or one byte. */
  datatype Input = Failure | End | Got(b: Byte)

  /** my_pty_initialize, on zeroed memory: every slot is free. */
  function StartDriver(): Driver {
    var d := Decoder(0, false, seq(SB_MAX, i => 0), 0, 0, 0);
    Driver(seq(MAX_PTYS, i => Slot(false, -1, d, Tty(0, 0))), multiset{})
  }

  predicate DriverOk(p: Driver) {
    |p.slots| == MAX_PTYS && forall i | 0 <= i < MAX_PTYS :: Telnet.Ok(p.slots[i].d)
  }

  /** The first free slot at or after i, or MAX_PTYS. */
  function FirstFree(slots: seq<Slot>, i: nat): (k: nat)
    requires i <= |slots|
    ensures i <= k <= |slots|
    ensures forall j | i <= j < k :: slots[j].socket >= 0
    ensures k < |slots| ==> slots[k].socket < 0
    decreases |slots| - i
  {
    if i == |slots| || slots[i].socket < 0 then i else FirstFree(slots, i + 1)
  }

  function Connected(p: Driver, socket: int): Driver {
    var k := FirstFree(p.slots, 0);
    if k < |p.slots| then p.(slots := p.slots[k := p.slots[k].(socket := socket)])
    else p.(closed := p.closed + multiset{socket})
  }

  /** ptyPollInitialize: last_cr and the subnegotiation buffer keep what the last session left. */
  function Fresh(d: Decoder): Decoder {
    d.(mode := 0, ind := 0, width := 0, height := 0)
  }

  function Opened(p: Driver, minor: nat, tty: Tty): Driver {
    if minor < |p.slots| && p.slots[minor].socket >= 0
    then p.(slots := p.slots[minor := p.slots[minor].(active := true, tty := tty, d := Fresh(p.slots[minor].d))])
    else p
  }

  function ShutDown(p: Driver, minor: nat): Driver {
    if minor < |p.slots| then
      Driver(p.slots[minor := p.slots[minor].(active := false, socket := -1)],
             if p.slots[minor].socket >= 0 then p.closed + multiset{p.slots[minor].socket} else p.closed)
    else p
  }

  function Received(p: Driver, minor: nat, b: Byte): Driver
    requires DriverOk(p)
  {
    if minor < |p.slots| && p.slots[minor].socket >= 0
    then p.(slots := p.slots[minor := p.slots[minor].(d := Step(p.slots[minor].d, b).0)])
    else p
  }

  /** The end of the stream: termios is made to see its read position past the fill count. */
  function HungUp(p: Driver, minor: nat): Driver {
    if minor < |p.slots| && p.slots[minor].socket >= 0
    then p.(slots := p.slots[minor := p.slots[minor].(tty := Tty(p.slots[minor].tty.ccount + 1, p.slots[minor].tty.ccount))])
    else p
  }

  class Ptys {
    var inited: bool
    var slots: seq<Slot>
    var closed: multiset<int>

    ghost function State(): Driver
      reads this
    {
      Driver(slots, closed)
    }

    constructor ()
      ensures State() == StartDriver() && inited && |slots| == 5
      ensures forall i | 0 <= i < 5 :: slots[i].socket < 0 && slots[i].d.mode == 0 && !slots[i].d.lastCr
    {
      inited, closed := true, multiset{};
      slots := StartDriver().slots;
    }

    /** telnet_get_pty: the lowest free slot; without one the socket is closed. */
    method GetPty(socket: int) returns (minor: int)
      requires |slots| == MAX_PTYS
      modifies this`slots, this`closed
      ensures old(inited) ==> State() == Connected(old(State()), socket)
      ensures !old(inited) ==> slots == old(slots) && closed == old(closed) + multiset{socket}
      ensures
        if minor >= 0
        then minor < MAX_PTYS && old(slots)[minor].socket < 0 && slots[minor].socket == socket
             && (forall j | 0 <= j < minor :: old(slots)[j].socket >= 0)
        else inited ==> forall j | 0 <= j < MAX_PTYS :: old(slots)[j].socket >= 0
    {
      if inited {
        var ndx := 0;
        while ndx < MAX_PTYS
          invariant 0 <= ndx <= MAX_PTYS && slots == old(slots) && closed == old(closed)
          invariant FirstFree(slots, 0) == FirstFree(slots, ndx)
          invariant forall j | 0 <= j < ndx :: slots[j].socket >= 0
        {
          if slots[ndx].socket < 0 {
            slots := slots[ndx := slots[ndx].(socket := socket)];
            return ndx;
          }
          ndx := ndx + 1;
        }
      }
      closed := closed + multiset{socket};
      minor := -1;
    }

    /** ptyPollInitialize. */
    method PollInitialize(minor: nat, tty: Tty) returns (status: int)
      requires |slots| == MAX_PTYS
      modifies this`slots
      ensures State() == Opened(old(State()), minor, tty)
      ensures status == if minor < 5 && old(slots)[minor].socket >= 0 then 0 else -1
      ensures status == 0 ==>
        var (was, p) := (old(slots)[minor], slots[minor]);
        && p.active && p.socket == was.socket && p.tty == tty
        && p.d.mode == 0 && p.d.ind == 0 && p.d.width == 0 && p.d.height == 0
        && p.d.lastCr == was.d.lastCr && p.d.buf == was.d.buf
    {
      if minor < MAX_PTYS {
        if slots[minor].socket < 0 {
          return -1;
        }
        var p := slots[minor].(active := true);
        p := p.(tty := tty);
        p := p.(d := p.d.(mode := 0));
        p := p.(d := p.d.(ind := 0));
        p := p.(d := p.d.(width := 0));
        p := p.(d := p.d.(height := 0));
        slots := slots[minor := p];
        status := 0;
      } else {
        status := -1;
      }
    }

    /** ptyShutdown. */
    method Shutdown(minor: nat) returns (status: int)
      requires |slots| == MAX_PTYS
      modifies this`slots, this`closed
      ensures State() == ShutDown(old(State()), minor)
      ensures minor < 5 ==> slots[minor].socket == -1 && !slots[minor].active && slots[minor].d == old(slots)[minor].d
      ensures status == if minor < MAX_PTYS then 0 else -1
    {
      if minor < MAX_PTYS {
        var p := slots[minor].(active := false);
        if p.socket >= 0 {
          closed := closed + multiset{p.socket};
        }
        slots := slots[minor := p.(socket := -1)];
        status := 0;
      } else {
        status := -1;
      }
    }

    /** ptyPollRead and read_pty. */
    method PollRead(minor: nat, input: Input, veof: Byte) returns (result: int, sent: seq<Byte>)
      requires DriverOk(State())
      modifies this`slots
      ensures DriverOk(State())
      ensures
        match input
        case Got(b) => State() == Received(old(State()), minor, b)
        case End => State() == HungUp(old(State()), minor)
        case Failure => State() == old(State())
      ensures
        if minor >= MAX_PTYS || old(slots)[minor].socket < 0 || input == Failure then result == -1 && sent == []
        else if input == End then
          && result == veof && sent == [] && slots[minor].d == old(slots)[minor].d
          && slots[minor].tty.ccount == old(slots)[minor].tty.ccount
          && slots[minor].tty.cindex == slots[minor].tty.ccount + 1
        else Out(result, sent) == Step(old(slots)[minor].d, input.b).1
    {
      sent := [];
      if minor >= MAX_PTYS || slots[minor].socket < 0 {
        return -1, sent;
      }
      match input
      case Failure => result := -1;
      case End =>
        var p := slots[minor];
        slots := slots[minor := p.(tty := p.tty.(cindex := p.tty.ccount + 1))];
        result := veof;
      case Got(value) =>
        var d;
        d, result, sent := ReadPty(slots[minor].d, value);
        slots := slots[minor := slots[minor].(d := d)];
    }
  }

  /** The byte machine of read_pty, branch by branch. */
  method ReadPty(was: Decoder, value: Byte) returns (d: Decoder, result: int, sent: seq<Byte>)
    requires Telnet.Ok(was)
    ensures (d, Out(result, sent)) == Step(was, value)
  {
    var omod := was.mode;
    d, result, sent := was.(mode := 0), -1, [];
    var low := omod % 256;
    if low == IAC {
      if value == IAC {
        d, result := d.(mode := omod / 256), 255;
      } else if value == DONT || value == DO || value == WONT || value == WILL {
        d := d.(mode := value);
      } else if value == SB {
        d, result := d.(mode := value, ind := 0), -100;
      } else if value == EL {
        result := 3;
      } else if value == EC {
        result := 8;
      } else if value == AYT {
        sent := AytReply();
      } else if value == IP {
        sent := IpReply();
      } else if value == BRK {
        sent := BrkReply();
      } else if value == DMARK {
        result := -2;
      } else if value == SE {
        if d.buf[0] == 31 {
          d := d.(width := Pair(d.buf[1], d.buf[2]), height := Pair(d.buf[3], d.buf[4]));
        }
        result := -101;
      } else if value == EOR {
        result := -102;
      }
    } else if low == SB {
      d := d.(mode := omod);
      if value == IAC {
        d := d.(mode := omod * 256 + value);
      } else if d.ind < SB_MAX {
        d := d.(buf := d.buf[d.ind := value], ind := d.ind + 1);
      }
    } else if low == WILL {
      if value == 34 {
        sent := [IAC, DONT, 34];
        sent := sent + [IAC, DO, 1];
        assert sent == [IAC, DONT, 34, IAC, DO, 1];
      } else if value == 31 {
        sent := [IAC, DO, 31];
      } else {
        sent := [IAC, DONT, value];
      }
    } else if low == DONT {
    } else if low == DO {
      if value == 3 {
        sent := [IAC, WILL, 3];
      } else if value == 1 {
      } else {
        sent := [IAC, WONT, value];
      }
    } else if low == WONT {
      if value == 1 {
        sent := [IAC, WILL, 1];
      } else {
        sent := [IAC, WONT, value];
      }
    } else {
      if value == IAC {
        d := d.(mode := value);
      } else {
        result := value;
        if value == 0 && d.lastCr {
          result := -1;
        }
        d := d.(lastCr := value == CR);
      }
    }
  }

  // Runs.

  datatype Event =
    | Connect(socket: nat)
    | Open(minor: nat, tty: Tty)
    | Close(minor: nat)
    | Hangup(minor: nat)
    | Receive(minor: nat, b: Byte)

  function Apply(p: Driver, e: Event): (p': Driver)
    requires DriverOk(p)
    ensures DriverOk(p')
  {
    match e
    case Connect(s) => Connected(p, s)
    case Open(i, tty) => Opened(p, i, tty)
    case Close(i) => ShutDown(p, i)
    case Hangup(i) => HungUp(p, i)
    case Receive(i, b) => Received(p, i, b)
  }

  function Runs(p: Driver, es: seq<Event>): (p': Driver)
    requires DriverOk(p)
    ensures DriverOk(p')
    decreases |es|
  {
    if es == [] then p else Runs(Apply(p, es[0]), es[1..])
  }

  /** How often a socket is in a slot, and how often a run brings it. */
  function Held(slots: seq<Slot>, socket: nat): nat {
    if slots == [] then 0 else (if slots[0].socket == socket then 1 else 0) + Held(slots[1..], socket)
  }

  function Accepted(es: seq<Event>, socket: nat): nat {
    if es == [] then 0 else (if es[0] == Connect(socket) then 1 else 0) + Accepted(es[1..], socket)
  }

  lemma {:induction false} HeldUpdate(slots: seq<Slot>, i: nat, x: Slot, socket: nat)
    requires i < |slots|
    ensures Held(slots[i := x], socket) + (if slots[i].socket == socket then 1 else 0)
         == Held(slots, socket) + (if x.socket == socket then 1 else 0)
  {
    if i == 0 {
      assert slots[i := x][1..] == slots[1..];
    } else {
      assert slots[i := x][1..] == slots[1..][i - 1 := x];
      HeldUpdate(slots[1..], i - 1, x, socket);
    }
  }

  lemma ApplyConserves(p: Driver, e: Event, socket: nat)
    requires DriverOk(p)
    ensures
      var p' := Apply(p, e);
      Held(p'.slots, socket) + p'.closed[socket]
      == Held(p.slots, socket) + p.closed[socket] + (if e == Connect(socket) then 1 else 0)
  {
    var p', i := Apply(p, e), if e.Connect? then FirstFree(p.slots, 0) else e.minor;
    if i < |p.slots| {
      assert p'.slots == p.slots[i := p'.slots[i]];
      HeldUpdate(p.slots, i, p'.slots[i], socket);
    }
  }

  /** Conservation: over every run each accepted socket is either in a slot or closed, exactly
      as often as it was accepted. */
  lemma {:induction false} SocketsConserved(p: Driver, es: seq<Event>, socket: nat)
    requires DriverOk(p)
    ensures
      var p' := Runs(p, es);
      Held(p'.slots, socket) + p'.closed[socket]
      == Held(p.slots, socket) + p.closed[socket] + Accepted(es, socket)
    decreases |es|
  {
    if es != [] {
      ApplyConserves(p, es[0], socket);
      SocketsConserved(Apply(p, es[0]), es[1..], socket);
    }
  }

  /** The bytes a run brings to slot i. */
  function BytesFor(es: seq<Event>, i: nat): seq<Byte> {
    if es == [] then []
    else (if es[0].Receive? && es[0].minor == i then [es[0].b] else []) + BytesFor(es[1..], i)
  }

  predicate Undisturbed(es: seq<Event>, i: nat) {
    forall k | 0 <= k < |es| :: (es[k].Open? || es[k].Close? || es[k].Hangup?) ==> es[k].minor != i
  }

  /** What the terminal of slot i gets in a run. */
  function Delivered(p: Driver, es: seq<Event>, i: nat): seq<int>
    requires DriverOk(p) && i < MAX_PTYS
    decreases |es|
  {
    if es == [] then []
    else
      (if es[0].Receive? && es[0].minor == i && p.slots[i].socket >= 0
       then [Step(p.slots[i].d, es[0].b).1.result] else [])
      + Delivered(Apply(p, es[0]), es[1..], i)
  }

  /** Sessions do not interfere: what slot i decodes depends on its own bytes alone, however
      other connections are opened, closed and read in between. */
  lemma {:induction false} SessionsIsolated(p: Driver, es: seq<Event>, i: nat)
    requires DriverOk(p) && i < MAX_PTYS && p.slots[i].socket >= 0 && Undisturbed(es, i)
    ensures
      var o := Feed(p.slots[i].d, BytesFor(es, i));
      Runs(p, es).slots[i] == p.slots[i].(d := o.d) && Delivered(p, es, i) == o.results
    decreases |es|
  {
    if es != [] {
      var p1 := Apply(p, es[0]);
      SessionsIsolated(p1, es[1..], i);
      var rest := BytesFor(es[1..], i);
      if es[0].Receive? && es[0].minor == i {
        assert BytesFor(es, i) == [es[0].b] + rest && ([es[0].b] + rest)[1..] == rest;
      } else {
        assert p1.slots[i] == p.slots[i];
        assert BytesFor(es, i) == rest;
      }
    }
  }

  // Invariants of all runs.

  /** No 255 is ever in a subnegotiation buffer. */
  predicate BuffersFree(p: Driver)
    requires DriverOk(p)
  {
    forall i | 0 <= i < MAX_PTYS :: Free(p.slots[i].d.buf)
  }

  lemma ApplyFree(p: Driver, e: Event)
    requires DriverOk(p) && BuffersFree(p)
    ensures BuffersFree(Apply(p, e))
  {
    if e.Receive? && e.minor < MAX_PTYS {
      var d := p.slots[e.minor].d;
      assert Free(d.buf);
      FeedOne(d, e.b);
      BufferStaysFree(d, [e.b]);
    }
  }

  lemma {:induction false} RunsFree(p: Driver, es: seq<Event>)
    requires DriverOk(p) && BuffersFree(p)
    ensures BuffersFree(Runs(p, es))
    decreases |es|
  {
    if es != [] {
      ApplyFree(p, es[0]);
      RunsFree(Apply(p, es[0]), es[1..]);
    }
  }

  /** The text bytes that slot i has read in a run, over all its sessions. */
  function TextOf(p: Driver, es: seq<Event>, i: nat): seq<Byte>
    requires DriverOk(p) && i < MAX_PTYS
    decreases |es|
  {
    if es == [] then [] else TextIn(p, es[0], i) + TextOf(Apply(p, es[0]), es[1..], i)
  }

  function TextIn(p: Driver, e: Event, i: nat): seq<Byte>
    requires DriverOk(p) && i < MAX_PTYS
  {
    if e.Receive? && e.minor == i && p.slots[i].socket >= 0 && IsText(p.slots[i].d, e.b) then [e.b] else []
  }

  lemma ApplyLastCr(p: Driver, e: Event, i: nat)
    requires DriverOk(p) && i < MAX_PTYS
    ensures Apply(p, e).slots[i].d.lastCr == EndsInCr(p.slots[i].d.lastCr, TextIn(p, e, i))
  {
    if e.Receive? {
      StepLastCr(p.slots[i].d, e.b);
    }
  }

  /** last_cr of a slot is set exactly if the last text byte of its whole past was CR: neither
      closing nor opening a session, nor a session without text, makes a difference. */
  lemma {:induction false} LastCrOverRuns(p: Driver, es: seq<Event>, i: nat)
    requires DriverOk(p) && i < MAX_PTYS
    ensures Runs(p, es).slots[i].d.lastCr == EndsInCr(p.slots[i].d.lastCr, TextOf(p, es, i))
    decreases |es|
  {
    if es != [] {
      var p1 := Apply(p, es[0]);
      ApplyLastCr(p, es[0], i);
      LastCrOverRuns(p1, es[1..], i);
      EndsInCrThen(p.slots[i].d.lastCr, TextIn(p, es[0], i), TextOf(p1, es[1..], i));
    }
  }

  // Sessions.

  /** A session: after any past of the driver, a connected slot is opened and sent the units of
      a client, while anything may happen on the other slots. All its data arrive and nothing
      else does, except that a NUL in front is lost exactly if the last text byte that the slot
      has ever read was CR. */
  lemma SessionTransparentIff(past: seq<Event>, i: nat, tty: Tty, us: seq<Unit>, es: seq<Event>)
    requires i < MAX_PTYS && Runs(StartDriver(), past).slots[i].socket >= 0
    requires UnitsOk(us) && Undisturbed(es, i) && BytesFor(es, i) == EncodeAll(us)
    ensures
      var p := Apply(Runs(StartDriver(), past), Open(i, tty));
      Data(Delivered(p, es, i)) == Meanings(us)
      <==> !(EndsInCr(false, TextOf(StartDriver(), past, i)) && StartsWithNul(us))
  {
    LastCrOverRuns(StartDriver(), past, i);
    var p := Apply(Runs(StartDriver(), past), Open(i, tty));
    SessionsIsolated(p, es, i);
    StreamTransparentIff(p.slots[i].d, us);
  }

  /** After any past, a NAWS message that reaches a slot between units sets the window size to
      the values sent exactly if it has no 255 in it. */
  lemma SessionNawsIff(past: seq<Event>, i: nat, es: seq<Event>, w1: Byte, w0: Byte, h1: Byte, h0: Byte)
    requires i < MAX_PTYS
    requires var slot := Runs(StartDriver(), past).slots[i]; slot.socket >= 0 && slot.d.mode == 0
    requires Undisturbed(es, i) && BytesFor(es, i) == [IAC, SB] + Doubled([31, w1, w0, h1, h0]) + [IAC, SE]
    ensures
      var d := Runs(Runs(StartDriver(), past), es).slots[i].d;
      d.width == (w1 as int) * 256 + w0 as int && d.height == (h1 as int) * 256 + h0 as int
      <==> Free([w1, w0, h1, h0])
  {
    var p := Runs(StartDriver(), past);
    RunsFree(StartDriver(), past);
    assert Free(p.slots[i].d.buf);
    SessionsIsolated(p, es, i);
    NawsSetsIff(p.slots[i].d, w1, w0, h1, h0);
  }

  // A session that loses its NUL.

  lemma OneMore(p: Driver, e: Event, es: seq<Event>, i: nat)
    requires DriverOk(p) && i < MAX_PTYS
    ensures Runs(p, [e] + es) == Runs(Apply(p, e), es)
    ensures TextOf(p, [e] + es, i) == TextIn(p, e, i) + TextOf(Apply(p, e), es, i)
  {
    assert ([e] + es)[1..] == es;
  }

  /** The first session sends CR and ends, the second sends nothing, the third one connects. */
  function ThreeSessions(tty: Tty): seq<Event> {
    [Connect(3)] + ([Open(0, tty)] + ([Receive(0, CR)] + ([Close(0)] +
    ([Connect(4)] + ([Open(0, tty)] + ([Close(0)] + ([Connect(5)] + [])))))))
  }

  lemma CrIsRemembered(tty: Tty)
    ensures
      var p := StartDriver();
      Runs(p, ThreeSessions(tty)).slots[0].socket == 5 && TextOf(p, ThreeSessions(tty), 0) == [CR]
  {
    var p0 := StartDriver();
    var p1 := Apply(p0, Connect(3));
    assert p1.slots[0].socket == 3 && p1.slots[0].d.mode == 0;
    var p2 := Apply(p1, Open(0, tty));
    var p3 := Apply(p2, Receive(0, CR));
    var p4 := Apply(p3, Close(0));
    var p5 := Apply(p4, Connect(4));
    assert p5.slots[0].socket == 4;
    var p6 := Apply(p5, Open(0, tty));
    var p7 := Apply(p6, Close(0));
    var p8 := Apply(p7, Connect(5));
    assert p8.slots[0].socket == 5;
    var e8: seq<Event> := [];
    var e7 := [Connect(5)] + e8;
    var e6 := [Close(0)] + e7;
    var e5 := [Open(0, tty)] + e6;
    var e4 := [Connect(4)] + e5;
    var e3 := [Close(0)] + e4;
    var e2 := [Receive(0, CR)] + e3;
    var e1 := [Open(0, tty)] + e2;
    OneMore(p7, Connect(5), e8, 0);
    OneMore(p6, Close(0), e7, 0);
    OneMore(p5, Open(0, tty), e6, 0);
    OneMore(p4, Connect(4), e5, 0);
    OneMore(p3, Close(0), e4, 0);
    OneMore(p2, Receive(0, CR), e3, 0);
    OneMore(p1, Open(0, tty), e2, 0);
    OneMore(p0, Connect(3), e1, 0);
  }

  /** In the third session a NUL is sent and nothing arrives. */
  lemma NulIsLost(tty: Tty)
    ensures
      var p := Apply(Runs(StartDriver(), ThreeSessions(tty)), Open(0, tty));
      Data(Delivered(p, [Receive(0, 0)], 0)) == [] && Meanings([Plain(0)]) == [0]
  {
    CrIsRemembered(tty);
    var us, es := [Plain(0)], [Receive(0, 0)];
    assert us[1..] == [] && es[1..] == [];
    assert EncodeAll(us) == [0] && BytesFor(es, 0) == [0] && Meanings(us) == [0];
    assert StartsWithNul(us);
    SessionTransparentIff(ThreeSessions(tty), 0, tty, us, es);
    var p := Apply(Runs(StartDriver(), ThreeSessions(tty)), Open(0, tty));
    var r := Step(p.slots[0].d, 0).1.result;
    assert Delivered(p, es, 0) == [r];
    assert [r][1..] == [];
  }
}
