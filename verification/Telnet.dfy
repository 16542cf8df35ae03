/** The telnet decoder of telnetd/pty.c: one byte at a time, against the units that a client
    sends according to RFC 854, 855 and 1073. */
module Telnet {

  type Byte = x: int | 0 <= x < 256

  const IAC: Byte := 255
  const DONT: Byte := 254
  const DO: Byte := 253
  const WONT: Byte := 252
  const WILL: Byte := 251
  const SB: Byte := 250
  const EL: Byte := 248
  const EC: Byte := 247
  const AYT: Byte := 246
  const IP: Byte := 244
  const BRK: Byte := 243
  const DMARK: Byte := 242
  const SE: Byte := 240
  const EOR: Byte := 239

  const SB_MAX := 16
  const SB_IAC := 250 * 256 + 255
  const CR: Byte := 13
  const LF: Byte := 10

  function AytReply(): seq<Byte> {
    [13, 10, 65, 89, 84, 63, 32, 89, 101, 115, 44, 32, 82, 84, 69, 77, 83, 45, 83, 72, 69, 76, 76, 32,
     105, 115, 32, 104, 101, 114, 101, 13, 10]
  }

  function BrkReply(): seq<Byte> {
    [60, 42, 66, 114, 101, 97, 107, 42, 62]
  }

  function IpReply(): seq<Byte> {
    [60, 42, 73, 110, 116, 101, 114, 114, 117, 112, 116, 42, 62]
  }

  /** The decoding state of one pseudo terminal. */
  datatype Decoder = Decoder(mode: nat, lastCr: bool, buf: seq<Byte>, ind: nat, width: nat, height: nat)

  /** What one byte leads to: the value handed to termios (negative: nothing) and the bytes
      written back to the socket. */
  datatype Out = Out(result: int, sent: seq<Byte>)

  predicate Mode(m: nat) {
    m == 0 || 250 <= m <= 255 || m == SB_IAC
  }

  predicate Ok(d: Decoder) {
    Mode(d.mode) && |d.buf| == SB_MAX && d.ind <= SB_MAX
  }

  /** A 16-bit value in network order. */
  function Pair(hi: int, lo: int): nat
    requires 0 <= hi && 0 <= lo
  {
    hi * 256 + lo
  }

  /** The subnegotiation buffer and the window size. */
  datatype Screen = Screen(buf: seq<Byte>, width: nat, height: nat)

  function ScreenOf(d: Decoder): Screen {
    Screen(d.buf, d.width, d.height)
  }

  /** handleSB: the window size, if the buffer starts with the NAWS option. */
  function Resized(s: Screen): Screen
    requires |s.buf| == SB_MAX
  {
    if s.buf[0] == 31
    then s.(width := Pair(s.buf[1], s.buf[2]), height := Pair(s.buf[3], s.buf[4]))
    else s
  }

  function HandleSb(d: Decoder): Decoder
    requires Ok(d)
  {
    var s := Resized(ScreenOf(d));
    d.(width := s.width, height := s.height)
  }

  /** The byte after IAC, in a subnegotiation or outside one. */
  function AfterIac(d: Decoder, b: Byte): (Decoder, Out)
    requires Ok(d)
  {
    if b == IAC then (d.(mode := d.mode / 256), Out(255, []))
    else if WILL <= b <= DONT then (d.(mode := b), Out(-1, []))
    else if b == SB then (d.(mode := SB, ind := 0), Out(-100, []))
    else if b == SE then (HandleSb(d).(mode := 0), Out(-101, []))
    else (d.(mode := 0), Command(b))
  }

  function Command(b: Byte): Out {
    if b == EL then Out(3, [])
    else if b == EC then Out(8, [])
    else if b == AYT then Out(-1, AytReply())
    else if b == IP then Out(-1, IpReply())
    else if b == BRK then Out(-1, BrkReply())
    else if b == DMARK then Out(-2, [])
    else if b == EOR then Out(-102, [])
    else Out(-1, [])
  }

  /** The answer to a negotiation verb and its option. */
  function Answer(verb: int, option: Byte): seq<Byte> {
    if verb == WILL then
      if option == 34 then [IAC, DONT, 34, IAC, DO, 1]
      else if option == 31 then [IAC, DO, 31]
      else [IAC, DONT, option]
    else if verb == DO then
      if option == 3 then [IAC, WILL, 3]
      else if option == 1 then []
      else [IAC, WONT, option]
    else if verb == WONT then
      if option == 1 then [IAC, WILL, 1] else [IAC, WONT, option]
    else []
  }

  function Step(d: Decoder, b: Byte): (r: (Decoder, Out))
    requires Ok(d)
    ensures Ok(r.0)
  {
    if d.mode == IAC || d.mode == SB_IAC then AfterIac(d, b)
    else if d.mode == SB then
      if b == IAC then (d.(mode := SB_IAC), Out(-1, []))
      else if d.ind < SB_MAX then (d.(buf := d.buf[d.ind := b], ind := d.ind + 1), Out(-1, []))
      else (d, Out(-1, []))
    else if WILL <= d.mode <= DONT then (d.(mode := 0), Out(-1, Answer(d.mode, b)))
    else if b == IAC then (d.(mode := IAC), Out(-1, []))
    else (d.(lastCr := b == CR), Out(if b == 0 && d.lastCr then -1 else b, []))
  }

  /** A stream of bytes. */
  datatype Outcome = Outcome(d: Decoder, results: seq<int>, sent: seq<Byte>)

  function Feed(d: Decoder, s: seq<Byte>): (o: Outcome)
    requires Ok(d)
    ensures Ok(o.d) && |o.results| == |s|
    decreases |s|
  {
    if s == [] then Outcome(d, [], [])
    else
      var (d1, o1) := Step(d, s[0]);
      var o := Feed(d1, s[1..]);
      Outcome(o.d, [o1.result] + o.results, o1.sent + o.sent)
  }

  /** The bytes that reach the terminal. */
  function Data(rs: seq<int>): seq<int> {
    if rs == [] then [] else (if rs[0] >= 0 then [rs[0]] else []) + Data(rs[1..])
  }

  // What a client sends.

  datatype Unit =
    | Plain(b: Byte)                               // one byte of data
    | LineEnd                                      // CR LF
    | Cmd(c: Byte)                                 // IAC c
    | Negotiate(verb: Byte, option: Byte)          // IAC verb option
    | Subneg(payload: seq<Byte>)                   // IAC SB payload IAC SE

  predicate UnitOk(u: Unit) {
    match u
    case Cmd(c) => c < 250
    case Negotiate(v, _) => 251 <= v <= 254
    case Subneg(p) => Free(p)
    case _ => true
  }

  /** The encoding of RFC 854: CR as CR NUL, 255 doubled. From here to ScreenAfter the bytes are
      those of the RFCs, written out. */
  function Encode(u: Unit): seq<Byte> {
    match u
    case Plain(b) => if b == 13 then [13, 0] else if b == 255 then [255, 255] else [b]
    case LineEnd => [13, 10]
    case Cmd(c) => [255, c]
    case Negotiate(v, o) => [255, v, o]
    case Subneg(p) => [255, 250] + p + [255, 240]
  }

  /** What the terminal should see of it: the data, control-C for "erase line" and backspace for
      "erase character". */
  function Meaning(u: Unit): seq<int> {
    match u
    case Plain(b) => [b]
    case LineEnd => [13, 10]
    case Cmd(c) => if c == 248 then [3] else if c == 247 then [8] else []
    case _ => []
  }

  function Spelled(s: string): seq<Byte> {
    seq(|s|, i requires 0 <= i < |s| => s[i] as int % 256)
  }

  /** What the client gets back. "Are you there", "interrupt process" and "break" are answered in
      words. Of what the client offers (WILL, 251) only the window size (31) is accepted (DO,
      253) and all else refused (DONT, 254); instead of the line mode (34) echo (1) is asked for.
      Of what it asks for (DO) only "suppress go ahead" (3) is promised (WILL), echo goes without
      saying, and all else is refused (WONT, 252). A refusal (WONT) of echo is overruled, any
      other one confirmed; DONT gets no answer. */
  function Reply(u: Unit): seq<Byte> {
    match u
    case Cmd(c) =>
      if c == 246 then Spelled("\r\nAYT? Yes, RTEMS-SHELL is here\r\n")
      else if c == 244 then Spelled("<*Interrupt*>")
      else if c == 243 then Spelled("<*Break*>")
      else []
    case Negotiate(v, o) =>
      if v == 251 then [255, if o == 31 then 253 else 254, o] + (if o == 34 then [255, 253, 1] else [])
      else if v == 253 then (if o == 1 then [] else [255, if o == 3 then 251 else 252, o])
      else if v == 252 then [255, if o == 1 then 251 else 252, o]
      else []
    case _ => []
  }

  /** What read_pty returns for each byte of it, the negative codes included. */
  function Codes(u: Unit, lastCr: bool): seq<int> {
    match u
    case Plain(b) =>
      if b == 13 then [13, -1] else if b == 255 then [-1, 255] else if b == 0 && lastCr then [-1] else [b as int]
    case LineEnd => [13, 10]
    case Cmd(c) =>
      [-1, if c == 248 then 3 else if c == 247 then 8 else if c == 242 then -2
           else if c == 240 then -101 else if c == 239 then -102 else -1]
    case Negotiate(_, _) => [-1, -1, -1]
    case Subneg(p) => [-1, -100] + seq(|p|, i => -1) + [-1, -101]
  }

  /** A payload in the buffer: its first bytes, then what was there. */
  function Overlaid(buf: seq<Byte>, p: seq<Byte>): (r: seq<Byte>)
    requires |buf| == SB_MAX
    ensures |r| == SB_MAX
  {
    if |p| >= SB_MAX then p[..SB_MAX] else p + buf[|p|..]
  }

  /** Only the end of a subnegotiation changes the window size. */
  function ScreenAfter(s: Screen, u: Unit): (r: Screen)
    requires |s.buf| == SB_MAX
    ensures |r.buf| == SB_MAX
  {
    match u
    case Subneg(p) => Resized(s.(buf := Overlaid(s.buf, p)))
    case Cmd(c) => if c == 240 then Resized(s) else s
    case _ => s
  }

  function EncodeAll(us: seq<Unit>): seq<Byte> {
    if us == [] then [] else Encode(us[0]) + EncodeAll(us[1..])
  }

  function Meanings(us: seq<Unit>): seq<int> {
    if us == [] then [] else Meaning(us[0]) + Meanings(us[1..])
  }

  function Replies(us: seq<Unit>): seq<Byte> {
    if us == [] then [] else Reply(us[0]) + Replies(us[1..])
  }

  function ScreenAfterAll(s: Screen, us: seq<Unit>): (r: Screen)
    requires |s.buf| == SB_MAX
    decreases |us|
  {
    if us == [] then s else ScreenAfterAll(ScreenAfter(s, us[0]), us[1..])
  }

  predicate UnitsOk(us: seq<Unit>) {
    forall i | 0 <= i < |us| :: UnitOk(us[i])
  }

  // Feeding in parts.

  lemma {:induction false} DataAppend(a: seq<int>, b: seq<int>)
    ensures Data(a + b) == Data(a) + Data(b)
  {
    if a == [] {
      assert a + b == b;
    } else {
      var first := if a[0] >= 0 then [a[0]] else [];
      assert (a + b)[1..] == a[1..] + b;
      assert Data(a + b) == first + Data(a[1..] + b);
      DataAppend(a[1..], b);
      assert first + (Data(a[1..]) + Data(b)) == first + Data(a[1..]) + Data(b);
    }
  }

  lemma {:induction false} FeedAppend(d: Decoder, s: seq<Byte>, t: seq<Byte>)
    requires Ok(d)
    ensures
      var o1 := Feed(d, s);
      var o2 := Feed(o1.d, t);
      Feed(d, s + t) == Outcome(o2.d, o1.results + o2.results, o1.sent + o2.sent)
    decreases |s|
  {
    if s == [] {
      assert s + t == t;
    } else {
      assert (s + t)[1..] == s[1..] + t;
      FeedAppend(Step(d, s[0]).0, s[1..], t);
    }
  }

  /** The same, in terms of what the terminal sees. */
  lemma FeedThen(d: Decoder, s: seq<Byte>, t: seq<Byte>)
    requires Ok(d)
    ensures
      var o1 := Feed(d, s);
      var o2 := Feed(o1.d, t);
      var o := Feed(d, s + t);
      o.d == o2.d && Data(o.results) == Data(o1.results) + Data(o2.results) && o.sent == o1.sent + o2.sent
  {
    FeedAppend(d, s, t);
    DataAppend(Feed(d, s).results, Feed(Feed(d, s).d, t).results);
  }

  function Visible(o: Out): seq<int> {
    if o.result >= 0 then [o.result] else []
  }

  lemma FeedOne(d: Decoder, b: Byte)
    requires Ok(d)
    ensures
      var (d1, o1) := Step(d, b);
      var o := Feed(d, [b]);
      o.d == d1 && Data(o.results) == Visible(o1) && o.sent == o1.sent
  {
    assert [b][1..] == [];
    var r := Step(d, b).1.result;
    assert Feed(d, [b]).results == [r] && [r][1..] == [];
  }

  lemma FeedTwo(d: Decoder, b: Byte, c: Byte)
    requires Ok(d)
    ensures
      var (d1, o1) := Step(d, b);
      var (d2, o2) := Step(d1, c);
      var o := Feed(d, [b, c]);
      o.d == d2 && Data(o.results) == Visible(o1) + Visible(o2) && o.sent == o1.sent + o2.sent
  {
    assert [b] + [c] == [b, c];
    FeedOne(d, b);
    FeedOne(Step(d, b).0, c);
    FeedThen(d, [b], [c]);
  }

  // Subnegotiations.

  /** RFC 855 doubles a 255 inside a subnegotiation as well. */
  function Doubled(p: seq<Byte>): seq<Byte> {
    if p == [] then [] else (if p[0] == IAC then [IAC, IAC] else [p[0]]) + Doubled(p[1..])
  }

  /** The bytes other than 255, and the others. */
  function Strip(p: seq<Byte>): seq<Byte> {
    if p == [] then [] else (if p[0] == IAC then [] else [p[0]]) + Strip(p[1..])
  }

  function Leaked(p: seq<Byte>): seq<int> {
    if p == [] then [] else (if p[0] == IAC then [255] else []) + Leaked(p[1..])
  }

  predicate Free(p: seq<Byte>) {
    forall i | 0 <= i < |p| :: p[i] != IAC
  }

  lemma {:induction false} FreeOf(p: seq<Byte>)
    ensures Free(p) ==> Doubled(p) == p && Strip(p) == p
    ensures Free(p) <==> Leaked(p) == []
    ensures Free(Strip(p))
  {
    if p != [] {
      FreeOf(p[1..]);
    }
  }

  /** A decoder that has stored the payload p so far. */
  predicate Collecting(d: Decoder, p: seq<Byte>) {
    && Ok(d) && d.mode == SB && d.ind == (if |p| < SB_MAX then |p| else SB_MAX)
    && d.buf == Overlaid(d.buf, p)
  }

  lemma Collect(d: Decoder, p: seq<Byte>, b: Byte)
    requires Collecting(d, p) && b != IAC
    ensures var (d1, o) := Step(d, b); Collecting(d1, p + [b]) && Visible(o) == [] && o.sent == []
    ensures var d1 := Step(d, b).0; d1 == d.(buf := Overlaid(d.buf, p + [b]), ind := d1.ind)
  {
  }

  lemma OverlaidTwice(buf: seq<Byte>, p: seq<Byte>, q: seq<Byte>)
    requires |buf| == SB_MAX
    ensures Overlaid(Overlaid(buf, p), p + q) == Overlaid(buf, p + q)
  {
  }

  /** Fed s, the decoder has stored q after p and passed the bytes leak on. */
  predicate StoredAs(d: Decoder, p: seq<Byte>, s: seq<Byte>, q: seq<Byte>, leak: seq<int>)
    requires Ok(d)
  {
    var o := Feed(d, s);
    Moved(d, p, o.d, q) && Data(o.results) == leak && o.sent == []
  }

  predicate Moved(d: Decoder, p: seq<Byte>, d1: Decoder, q: seq<Byte>)
    requires Ok(d)
  {
    Collecting(d1, p + q) && d1 == d.(buf := Overlaid(d.buf, p + q), ind := d1.ind)
  }

  lemma MovedThen(d: Decoder, p: seq<Byte>, d1: Decoder, q: seq<Byte>, d2: Decoder, q2: seq<Byte>)
    requires Ok(d) && Moved(d, p, d1, q) && Moved(d1, p + q, d2, q2)
    ensures Moved(d, p, d2, q + q2)
  {
    assert p + (q + q2) == p + q + q2;
    OverlaidTwice(d.buf, p + q, q2);
  }

  lemma OneStored(d: Decoder, p: seq<Byte>, b: Byte)
    requires Collecting(d, p)
    ensures if b == IAC then StoredAs(d, p, [IAC, IAC], [], [255]) else StoredAs(d, p, [b], [b], [])
  {
    if b == IAC {
      FeedTwo(d, IAC, IAC);
      assert p + [] == p;
    } else {
      FeedOne(d, b);
      Collect(d, p, b);
    }
  }

  lemma StoredThen(d: Decoder, p: seq<Byte>, s: seq<Byte>, q: seq<Byte>, leak: seq<int>,
                   s2: seq<Byte>, q2: seq<Byte>, leak2: seq<int>)
    requires Ok(d) && StoredAs(d, p, s, q, leak) && StoredAs(Feed(d, s).d, p + q, s2, q2, leak2)
    ensures StoredAs(d, p, s + s2, q + q2, leak + leak2)
  {
    FeedThen(d, s, s2);
    MovedThen(d, p, Feed(d, s).d, q, Feed(Feed(d, s).d, s2).d, q2);
  }

  /** The payload goes to the buffer, as far as there is room; every doubled 255 goes to the
      terminal instead. */
  lemma {:induction false} PayloadStored(d: Decoder, p: seq<Byte>, s: seq<Byte>)
    requires Collecting(d, p)
    ensures StoredAs(d, p, Doubled(s), Strip(s), Leaked(s))
    decreases |s|
  {
    if s == [] {
      assert p + Strip(s) == p;
    } else {
      OneStored(d, p, s[0]);
      var (b, q, leak) := if s[0] == IAC then ([IAC, IAC], [], [255]) else ([s[0]], [s[0]], []);
      PayloadStored(Feed(d, b).d, p + q, s[1..]);
      StoredThen(d, p, b, q, leak, Doubled(s[1..]), Strip(s[1..]), Leaked(s[1..]));
    }
  }

  /** A whole subnegotiation, with any payload: exactly its 255 bytes leak into the data, the
      buffer gets the others. */
  lemma SubnegExact(d: Decoder, p: seq<Byte>)
    requires Ok(d) && d.mode == 0
    ensures
      var o := Feed(d, [IAC, SB] + Doubled(p) + [IAC, SE]);
      && o.d.mode == 0 && o.d.lastCr == d.lastCr
      && ScreenOf(o.d) == ScreenAfter(ScreenOf(d), Subneg(Strip(p)))
      && Data(o.results) == Leaked(p) && o.sent == []
      && (Data(o.results) == [] <==> Free(p))
  {
    SubnegBody(d, p);
    var d2 := Feed(d, [IAC, SB] + Doubled(p)).d;
    SubnegClosed(d2);
    FeedThen(d, [IAC, SB] + Doubled(p), [IAC, SE]);
    FreeOf(p);
  }

  lemma SubnegBody(d: Decoder, p: seq<Byte>)
    requires Ok(d) && d.mode == 0
    ensures
      var o := Feed(d, [IAC, SB] + Doubled(p));
      && o.d == d.(mode := SB, ind := o.d.ind, buf := Overlaid(d.buf, Strip(p)))
      && Data(o.results) == Leaked(p) && o.sent == []
  {
    FeedTwo(d, IAC, SB);
    var d1 := d.(mode := SB, ind := 0);
    assert d.buf == Overlaid(d.buf, []);
    PayloadStored(d1, [], p);
    assert [] + Strip(p) == Strip(p);
    FeedThen(d, [IAC, SB], Doubled(p));
  }

  lemma SubnegFed(d: Decoder, p: seq<Byte>)
    requires Ok(d) && d.mode == 0 && UnitOk(Subneg(p))
    ensures FedAs(d, Subneg(p))
  {
    FreeOf(p);
    SubnegExact(d, p);
  }

  lemma SubnegClosed(d: Decoder)
    requires Ok(d) && d.mode == SB
    ensures
      var o := Feed(d, [IAC, SE]);
      && o.d.mode == 0 && o.d.lastCr == d.lastCr && ScreenOf(o.d) == Resized(ScreenOf(d))
      && Data(o.results) == [] && o.sent == []
  {
    FeedTwo(d, IAC, SE);
  }

  // One unit.

  /** A NUL right after a CR of the decoder's past is taken for the NUL of CR NUL. */
  predicate Swallowed(d: Decoder, u: Unit) {
    d.lastCr && u == Plain(0)
  }

  /** Units that leave last_cr as it is. */
  predicate Transparent(u: Unit) {
    !u.LineEnd? && (u.Plain? ==> u.b == IAC)
  }

  lemma AytSpelled()
    ensures AytReply() == Spelled("\r\nAYT? Yes, RTEMS-SHELL is here\r\n")
  {
  }

  lemma RepliesSpelled()
    ensures IpReply() == Spelled("<*Interrupt*>") && BrkReply() == Spelled("<*Break*>")
  {
  }

  /** The unit is understood. */
  predicate FedAs(d: Decoder, u: Unit)
    requires Ok(d)
  {
    var o := Feed(d, Encode(u));
    && o.d.mode == 0 && o.d.lastCr == (d.lastCr && Transparent(u))
    && ScreenOf(o.d) == ScreenAfter(ScreenOf(d), u)
    && Data(o.results) == (if Swallowed(d, u) then [] else Meaning(u))
    && o.sent == Reply(u)
  }

  lemma PlainFed(d: Decoder, b: Byte)
    requires Ok(d) && d.mode == 0
    ensures FedAs(d, Plain(b))
  {
    if b == CR {
      FeedTwo(d, CR, 0);
    } else if b == IAC {
      FeedTwo(d, IAC, IAC);
    } else {
      FeedOne(d, b);
    }
  }

  lemma CmdFed(d: Decoder, c: Byte)
    requires Ok(d) && d.mode == 0 && c < SB
    ensures FedAs(d, Cmd(c))
  {
    AytSpelled();
    RepliesSpelled();
    FeedTwo(d, IAC, c);
  }

  lemma AnswerDue(v: Byte, o: Byte)
    requires WILL <= v <= DONT
    ensures Answer(v, o) == Reply(Negotiate(v, o))
  {
  }

  lemma NegotiateFed(d: Decoder, v: Byte, o: Byte)
    requires Ok(d) && d.mode == 0 && WILL <= v <= DONT
    ensures FedAs(d, Negotiate(v, o))
  {
    FeedTwo(d, IAC, v);
    FeedOne(d.(mode := v), o);
    FeedThen(d, [IAC, v], [o]);
    assert [IAC, v] + [o] == Encode(Negotiate(v, o));
    AnswerDue(v, o);
  }

  lemma UnitFed(d: Decoder, u: Unit)
    requires Ok(d) && d.mode == 0 && UnitOk(u)
    ensures FedAs(d, u)
  {
    match u
    case Plain(b) => PlainFed(d, b);
    case LineEnd => FeedTwo(d, CR, LF);
    case Cmd(c) => CmdFed(d, c);
    case Negotiate(v, o) => NegotiateFed(d, v, o);
    case Subneg(p) => SubnegFed(d, p);
  }

  // The results of single bytes.

  lemma OneResult(d: Decoder, b: Byte)
    requires Ok(d)
    ensures Feed(d, [b]).results == [Step(d, b).1.result] && Feed(d, [b]).d == Step(d, b).0
  {
    assert [b][1..] == [];
  }

  lemma TwoResults(d: Decoder, b: Byte, c: Byte)
    requires Ok(d)
    ensures
      var (d1, o1) := Step(d, b);
      var o := Feed(d, [b, c]);
      o.results == [o1.result, Step(d1, c).1.result] && o.d == Step(d1, c).0
  {
    assert [b] + [c] == [b, c];
    OneResult(d, b);
    OneResult(Step(d, b).0, c);
    FeedAppend(d, [b], [c]);
  }

  lemma {:induction false} PayloadResults(d: Decoder, p: seq<Byte>)
    requires Ok(d) && d.mode == SB && Free(p)
    ensures Feed(d, p).results == seq(|p|, i => -1) && Feed(d, p).d.mode == SB
    decreases |p|
  {
    if p != [] {
      assert p[0] != IAC;
      PayloadResults(Step(d, p[0]).0, p[1..]);
      assert [-1] + seq(|p| - 1, i => -1) == seq(|p|, i => -1);
    }
  }

  lemma SubnegResults(d: Decoder, p: seq<Byte>)
    requires Ok(d) && d.mode == 0 && Free(p)
    ensures Feed(d, Encode(Subneg(p))).results == Codes(Subneg(p), d.lastCr)
  {
    TwoResults(d, IAC, SB);
    var d1 := Feed(d, [IAC, SB]).d;
    PayloadResults(d1, p);
    FeedAppend(d, [IAC, SB], p);
    TwoResults(Feed(d1, p).d, IAC, SE);
    FeedAppend(d, [IAC, SB] + p, [IAC, SE]);
  }

  lemma NegotiateResults(d: Decoder, v: Byte, o: Byte)
    requires Ok(d) && d.mode == 0 && WILL <= v <= DONT
    ensures Feed(d, Encode(Negotiate(v, o))).results == [-1, -1, -1]
  {
    TwoResults(d, IAC, v);
    OneResult(Feed(d, [IAC, v]).d, o);
    FeedAppend(d, [IAC, v], [o]);
    assert [IAC, v] + [o] == Encode(Negotiate(v, o));
  }

  /** Byte by byte, every unit yields exactly these codes. */
  lemma UnitCodes(d: Decoder, u: Unit)
    requires Ok(d) && d.mode == 0 && UnitOk(u)
    ensures Feed(d, Encode(u)).results == Codes(u, d.lastCr)
  {
    match u
    case Plain(b) => PlainResults(d, b);
    case LineEnd => TwoResults(d, CR, LF);
    case Cmd(c) => CmdResults(d, c);
    case Negotiate(v, o) => NegotiateResults(d, v, o);
    case Subneg(p) => SubnegResults(d, p);
  }

  lemma PlainResults(d: Decoder, b: Byte)
    requires Ok(d) && d.mode == 0
    ensures Feed(d, Encode(Plain(b))).results == Codes(Plain(b), d.lastCr)
  {
    if b == CR {
      TwoResults(d, CR, 0);
    } else if b == IAC {
      TwoResults(d, IAC, IAC);
    } else {
      OneResult(d, b);
    }
  }

  lemma CmdResults(d: Decoder, c: Byte)
    requires Ok(d) && d.mode == 0 && c < SB
    ensures Feed(d, Encode(Cmd(c))).results == Codes(Cmd(c), d.lastCr)
  {
    TwoResults(d, IAC, c);
  }

  // Whole streams.

  /** Transparency: whatever units a client sends, the terminal sees exactly the data in them,
      the client gets exactly the replies due, and the window size is the one last announced. */
  lemma {:induction false} StreamTransparent(d: Decoder, us: seq<Unit>)
    requires Ok(d) && d.mode == 0 && !d.lastCr && UnitsOk(us)
    ensures
      var o := Feed(d, EncodeAll(us));
      && o.d.mode == 0 && !o.d.lastCr
      && Data(o.results) == Meanings(us) && o.sent == Replies(us)
      && ScreenOf(o.d) == ScreenAfterAll(ScreenOf(d), us)
    decreases |us|
  {
    if us != [] {
      UnitFed(d, us[0]);
      FeedThen(d, Encode(us[0]), EncodeAll(us[1..]));
      StreamTransparent(Feed(d, Encode(us[0])).d, us[1..]);
    }
  }

  function PlainBytes(us: seq<Unit>): seq<int> {
    if us == [] then [] else (if us[0].Plain? then [us[0].b as int] else []) + PlainBytes(us[1..])
  }

  predicate Silent(u: Unit) {
    u.Plain? || u.Negotiate? || u.Subneg? || (u.Cmd? && u.c != EL && u.c != EC)
  }

  /** Bytes interspersed with commands, negotiations and subnegotiations in any way come out
      as they went in. */
  lemma {:induction false} BytesTransparent(d: Decoder, us: seq<Unit>)
    requires Ok(d) && d.mode == 0 && !d.lastCr && UnitsOk(us)
    requires forall i | 0 <= i < |us| :: Silent(us[i])
    ensures Data(Feed(d, EncodeAll(us)).results) == PlainBytes(us)
  {
    StreamTransparent(d, us);
    MeaningsArePlain(us);
  }

  lemma {:induction false} MeaningsArePlain(us: seq<Unit>)
    requires forall i | 0 <= i < |us| :: Silent(us[i])
    ensures Meanings(us) == PlainBytes(us)
  {
    if us != [] {
      assert Silent(us[0]);
      MeaningsArePlain(us[1..]);
    }
  }

  /** The first unit that is not transparent to last_cr is a NUL. */
  predicate StartsWithNul(us: seq<Unit>) {
    us != [] && (us[0] == Plain(0) || (Transparent(us[0]) && StartsWithNul(us[1..])))
  }

  predicate NoText(us: seq<Unit>) {
    us == [] || (Transparent(us[0]) && NoText(us[1..]))
  }

  /** With an arbitrary last_cr, as at the opening of a session, exactly that NUL can be lost;
      and last_cr stays set exactly if the units contain no text. */
  lemma {:induction false} StreamTransparentIff(d: Decoder, us: seq<Unit>)
    requires Ok(d) && d.mode == 0 && UnitsOk(us)
    ensures
      var o := Feed(d, EncodeAll(us));
      && (Data(o.results) == Meanings(us) <==> !(d.lastCr && StartsWithNul(us)))
      && |Data(o.results)| == |Meanings(us)| - (if d.lastCr && StartsWithNul(us) then 1 else 0)
      && (o.d.lastCr <==> d.lastCr && NoText(us))
    decreases |us|
  {
    if us != [] {
      UnitFed(d, us[0]);
      FeedThen(d, Encode(us[0]), EncodeAll(us[1..]));
      var d1 := Feed(d, Encode(us[0])).d;
      if d1.lastCr {
        StreamTransparentIff(d1, us[1..]);
        LostLater(Meaning(us[0]), Data(Feed(d1, EncodeAll(us[1..])).results), Meanings(us[1..]));
      } else {
        StreamTransparent(d1, us[1..]);
      }
    }
  }

  lemma LostLater(a: seq<int>, b: seq<int>, c: seq<int>)
    ensures a + b == a + c <==> b == c
  {
    if a + b == a + c {
      assert b == (a + b)[|a|..] == (a + c)[|a|..] == c;
    }
  }

  // last_cr.

  /** The bytes read as text: in mode 0, and other than 255. */
  function Text(d: Decoder, s: seq<Byte>): (t: seq<Byte>)
    requires Ok(d)
    decreases |s|
  {
    if s == [] then []
    else (if IsText(d, s[0]) then [s[0]] else []) + Text(Step(d, s[0]).0, s[1..])
  }

  predicate IsText(d: Decoder, b: Byte) {
    d.mode == 0 && b != IAC
  }

  /** last_cr in closed form: whether the last text byte was CR, however many commands,
      negotiations or escaped bytes followed it. */
  predicate EndsInCr(was: bool, t: seq<Byte>) {
    if t == [] then was else t[|t| - 1] == CR
  }

  lemma EndsInCrThen(was: bool, t: seq<Byte>, u: seq<Byte>)
    ensures EndsInCr(was, t + u) == EndsInCr(EndsInCr(was, t), u)
  {
    if u == [] {
      assert t + u == t;
    }
  }

  lemma StepLastCr(d: Decoder, b: Byte)
    requires Ok(d)
    ensures Step(d, b).0.lastCr == EndsInCr(d.lastCr, if IsText(d, b) then [b] else [])
  {
  }

  lemma {:induction false} LastCrIs(d: Decoder, s: seq<Byte>)
    requires Ok(d)
    ensures Feed(d, s).d.lastCr == EndsInCr(d.lastCr, Text(d, s))
    decreases |s|
  {
    if s != [] {
      var d1 := Step(d, s[0]).0;
      StepLastCr(d, s[0]);
      LastCrIs(d1, s[1..]);
      EndsInCrThen(d.lastCr, if IsText(d, s[0]) then [s[0]] else [], Text(d1, s[1..]));
    }
  }

  // The window size.

  /** The window size after a subnegotiation, in terms of the bytes sent and, where these are
      fewer, of the bytes that were in the buffer: only the option 31 changes it. */
  lemma SubnegSize(d: Decoder, p: seq<Byte>)
    requires Ok(d) && d.mode == 0 && Free(p)
    ensures
      var q: seq<int> := if |p| < 16 then p + d.buf[|p|..] else p;
      var d' := Feed(d, Encode(Subneg(p))).d;
      if q[0] == 31 then d'.width == q[1] * 256 + q[2] && d'.height == q[3] * 256 + q[4]
      else d'.width == d.width && d'.height == d.height
  {
    SubnegFed(d, p);
  }

  /** A full NAWS message without a 255 byte sets the size to the two values sent. */
  lemma NawsSets(d: Decoder, w1: Byte, w0: Byte, h1: Byte, h0: Byte)
    requires Ok(d) && d.mode == 0 && w1 != IAC && w0 != IAC && h1 != IAC && h0 != IAC
    ensures
      var d' := Feed(d, Encode(Subneg([31, w1, w0, h1, h0]))).d;
      d'.width == (w1 as int) * 256 + w0 as int && d'.height == (h1 as int) * 256 + h0 as int
  {
    SubnegFed(d, [31, w1, w0, h1, h0]);
  }

  /** A 255 never gets into the buffer. */
  lemma {:induction false} BufferStaysFree(d: Decoder, s: seq<Byte>)
    requires Ok(d) && Free(d.buf)
    ensures Free(Feed(d, s).d.buf)
    decreases |s|
  {
    if s != [] {
      BufferStaysFree(Step(d, s[0]).0, s[1..]);
    }
  }

  /** Encoded as RFC 1073 demands, with any 255 doubled, a NAWS message sets the size to the
      values sent exactly if there is no 255 in it: for every decoder whose buffer holds none,
      as is the case in every run. */
  lemma NawsSetsIff(d: Decoder, w1: Byte, w0: Byte, h1: Byte, h0: Byte)
    requires Ok(d) && d.mode == 0 && Free(d.buf)
    ensures
      var d' := Feed(d, [IAC, SB] + Doubled([31, w1, w0, h1, h0]) + [IAC, SE]).d;
      d'.width == (w1 as int) * 256 + w0 as int && d'.height == (h1 as int) * 256 + h0 as int
      <==> Free([w1, w0, h1, h0])
  {
    var p := [31, w1, w0, h1, h0];
    FreeOf(p);
    if Free([w1, w0, h1, h0]) {
      FreeNaws(w1, w0, h1, h0);
      NawsSets(d, w1, w0, h1, h0);
    } else {
      SubnegExact(d, p);
      var q := Strip(p[1..]);
      assert Strip(p) == [31] + q;
      OverlaidFree(d.buf, [31] + q);
      WrongSize(Overlaid(d.buf, [31] + q), w1, w0, h1, h0);
    }
  }

  lemma FreeNaws(w1: Byte, w0: Byte, h1: Byte, h0: Byte)
    requires Free([w1, w0, h1, h0])
    ensures w1 != IAC && w0 != IAC && h1 != IAC && h0 != IAC && Free([31, w1, w0, h1, h0])
  {
    var s := [w1, w0, h1, h0];
    assert s[0] == w1 && s[1] == w0 && s[2] == h1 && s[3] == h0;
  }

  lemma OverlaidFree(buf: seq<Byte>, p: seq<Byte>)
    requires |buf| == SB_MAX && Free(buf) && Free(p)
    ensures Free(Overlaid(buf, p)) && (p != [] ==> Overlaid(buf, p)[0] == p[0])
  {
  }

  lemma WrongSize(buf: seq<Byte>, w1: Byte, w0: Byte, h1: Byte, h0: Byte)
    requires |buf| == SB_MAX && Free(buf) && !Free([w1, w0, h1, h0])
    ensures Pair(buf[1], buf[2]) != Pair(w1, w0) || Pair(buf[3], buf[4]) != Pair(h1, h0)
  {
  }

  // Inside a subnegotiation.

  predicate InSb(m: nat) {
    m == SB || m == SB_IAC
  }

  predicate Holds(d: Decoder, p: seq<Byte>) {
    d.ind == (if |p| < 16 then |p| else 16) && d.ind <= |d.buf| && d.buf[..d.ind] == p[..d.ind]
  }

  predicate SawIac(m: nat) {
    m == IAC || m == SB_IAC
  }

  /** The subnegotiation that a stream ends in began at k: the decoder had seen an IAC (the byte
      before, unless the stream started after it) and then read SB. All of the stream since then
      is payload, and its first sixteen bytes other than 255 are in the buffer. */
  ghost predicate BeganAt(d: Decoder, s: seq<Byte>, k: nat)
    requires Ok(d)
  {
    Opens(d, s, k) && Inside(d, s, k)
  }

  predicate Opens(d: Decoder, s: seq<Byte>, k: nat)
    requires Ok(d)
  {
    && 0 < k <= |s| && s[k - 1] == SB
    && SawIac(Feed(d, s[..k - 1]).d.mode) && (if k == 1 then SawIac(d.mode) else s[k - 2] == IAC)
  }

  ghost predicate Inside(d: Decoder, s: seq<Byte>, k: nat)
    requires Ok(d)
  {
    && k <= |s| && (forall j | k <= j <= |s| :: InSb(Feed(d, s[..j]).d.mode))
    && Holds(Feed(d, s).d, Strip(s[k..]))
  }

  lemma {:induction false} StripSnoc(p: seq<Byte>, b: Byte)
    ensures Strip(p + [b]) == if b == IAC then Strip(p) else Strip(p) + [b]
  {
    if p == [] {
      assert p + [b] == [b] && [b][1..] == [];
    } else {
      assert (p + [b])[1..] == p[1..] + [b];
      StripSnoc(p[1..], b);
    }
  }

  lemma FeedSnoc(d: Decoder, s: seq<Byte>, b: Byte)
    requires Ok(d)
    ensures Feed(d, s + [b]).d == Step(Feed(d, s).d, b).0
  {
    FeedOne(Feed(d, s).d, b);
    FeedThen(d, s, [b]);
  }

  /** Every stream that leaves the decoder inside a subnegotiation contains the SB it is in. */
  lemma {:induction false} InsideSubneg(d: Decoder, s: seq<Byte>) returns (k: nat)
    requires Ok(d) && !InSb(d.mode) && InSb(Feed(d, s).d.mode)
    ensures BeganAt(d, s, k)
    decreases |s|
  {
    var s', b := s[..|s| - 1], s[|s| - 1];
    assert s == s' + [b];
    FeedSnoc(d, s', b);
    var d' := Feed(d, s').d;
    if InSb(d'.mode) && !(d'.mode == SB_IAC && b == SB) {
      k := InsideSubneg(d, s');
      StillOpened(d, s', b, k);
      StillInside(d, s', b, k);
    } else {
      k := |s|;
      EntersSb(d', b);
      JustOpened(d, s);
      NothingYet(d, s);
    }
  }

  /** Only an IAC leads into these modes. */
  lemma IacBefore(d: Decoder, s: seq<Byte>)
    requires Ok(d) && SawIac(Feed(d, s).d.mode)
    ensures if s == [] then SawIac(d.mode) else s[|s| - 1] == IAC
  {
    if s != [] {
      var s', b := s[..|s| - 1], s[|s| - 1];
      assert s == s' + [b];
      FeedSnoc(d, s', b);
    }
  }

  lemma EntersSb(d: Decoder, b: Byte)
    requires Ok(d) && InSb(Step(d, b).0.mode) && (InSb(d.mode) ==> d.mode == SB_IAC && b == SB)
    ensures b == SB && SawIac(d.mode) && Holds(Step(d, b).0, [])
  {
  }

  lemma JustOpened(d: Decoder, s: seq<Byte>)
    requires Ok(d) && s != [] && s[|s| - 1] == SB && SawIac(Feed(d, s[..|s| - 1]).d.mode)
    ensures Opens(d, s, |s|)
  {
    IacBefore(d, s[..|s| - 1]);
  }

  lemma NothingYet(d: Decoder, s: seq<Byte>)
    requires Ok(d) && InSb(Feed(d, s).d.mode) && Holds(Feed(d, s).d, [])
    ensures Inside(d, s, |s|)
  {
    assert s[..|s|] == s && s[|s|..] == [];
  }

  lemma HoldsNext(d: Decoder, p: seq<Byte>, b: Byte)
    requires Ok(d) && InSb(d.mode) && Holds(d, p) && InSb(Step(d, b).0.mode) && !(d.mode == SB_IAC && b == SB)
    ensures Holds(Step(d, b).0, if b == IAC then p else p + [b])
  {
  }

  lemma StillInside(d: Decoder, s: seq<Byte>, b: Byte, k: nat)
    requires Ok(d) && Inside(d, s, k)
    requires var d1 := Feed(d, s).d; InSb(Step(d1, b).0.mode) && !(d1.mode == SB_IAC && b == SB)
    ensures Inside(d, s + [b], k)
  {
    var t := s + [b];
    assert s[..|s|] == s;
    FeedSnoc(d, s, b);
    HoldsNext(Feed(d, s).d, Strip(s[k..]), b);
    StripSnoc(s[k..], b);
    assert t[k..] == s[k..] + [b];
    forall j | k <= j <= |t|
      ensures InSb(Feed(d, t[..j]).d.mode)
    {
      if j < |t| {
        assert t[..j] == s[..j];
      } else {
        assert t[..j] == t;
      }
    }
  }

  lemma StillOpened(d: Decoder, s: seq<Byte>, b: Byte, k: nat)
    requires Ok(d) && Opens(d, s, k)
    ensures Opens(d, s + [b], k)
  {
    assert (s + [b])[..k - 1] == s[..k - 1];
  }
}
