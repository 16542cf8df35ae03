/** The assembly of save_vec_context and load_vec_context (altivec/vec_context.c), instruction
    by instruction: the macros S32VEC and L32VEC unfold to straight-line code that is run on a
    model of the vector registers and of word-addressed memory. */
module VecIsa {

  type Word = x: int | 0 <= x < 0x1_0000_0000

  datatype Vec = Vec(w0: Word, w1: Word, w2: Word, w3: Word) {
    function At(i: nat): Word
      requires i < 4
    {
      if i == 0 then w0 else if i == 1 then w1 else if i == 2 then w2 else w3
    }
  }

  /** Memory: the words that exist, by byte address (a multiple of four). */
  type Memory = map<int, Word>

  /** The vector context of one thread. */
  datatype VecFile = VecFile(v: seq<Vec>, vscr: Word, vrsave: Word) {
    predicate Ok() { |v| == 32 }
  }

  /** The processor as far as the two routines see it, watched: zeroed lists the cache lines
      that dcbz cleared, and orderly is lost by a vector store to a line that has not been
      cleared before, and by clearing a line a second time. */
  datatype Cpu = Cpu(file: VecFile, r0: Word, r4: int, r5: int, mem: Memory, zeroed: seq<int>, orderly: bool)

  datatype Gpr = R4 | R5

  /** Operand b stands for the register holding the address of (*buf) + b, 16 bytes apart. */
  datatype Instr =
    | MfVrsave                                   // mfvrsave 0
    | MtVrsave                                   // mtvrsave 4
    | MfVscr                                     // mfvscr 0
    | MtVscr                                     // mtvscr 0
    | Li(d: Gpr, n: int)                         // li d,n
    | Addi(d: Gpr, s: Gpr, n: int)               // addi d,s,n
    | Dcbz(b: nat, o: Gpr)                       // dcbz b,o
    | Stvxl(i: nat, b: nat, o: Gpr)              // stvxl i,b,o
    | Lvxl(i: nat, b: nat, o: Gpr)               // lvxl i,b,o
    | StwR0                                      // stw 0,0(buf)
    | LwzR4                                      // lwz 4,0(buf)
    | Stvewx(o: Gpr)                             // stvewx 0,buf,o
    | Lvewx(o: Gpr, undefined: Vec)              // lvewx 0,o,buf; the other elements are undefined

  /** Straight-line code, composed as the macros compose it. */
  datatype Code = Do(i: Instr) | Then(first: Code, second: Code)

  function Get(c: Cpu, g: Gpr): int {
    if g == R4 then c.r4 else c.r5
  }

  function Set(c: Cpu, g: Gpr, n: int): Cpu {
    if g == R4 then c.(r4 := n) else c.(r5 := n)
  }

  function Store(mem: Memory, a: int, x: Vec): Memory {
    mem[a := x.w0][a + 4 := x.w1][a + 8 := x.w2][a + 12 := x.w3]
  }

  const ZeroVec: Vec := Vec(0, 0, 0, 0)

  function Load(mem: Memory, a: int): Vec {
    Vec(Peek(mem, a), Peek(mem, a + 4), Peek(mem, a + 8), Peek(mem, a + 12))
  }

  function Peek(mem: Memory, a: int): Word {
    if a in mem then mem[a] else 0
  }

  function Exec(i: Instr, c: Cpu, buf: int): Cpu
    requires c.file.Ok()
  {
    match i
    case MfVrsave => c.(r0 := c.file.vrsave)
    case MtVrsave => if 0 <= c.r4 < 0x1_0000_0000 then c.(file := c.file.(vrsave := c.r4)) else c
    case MfVscr => c.(file := c.file.(v := c.file.v[0 := Vec(0, 0, 0, c.file.vscr)]))
    case MtVscr => c.(file := c.file.(vscr := c.file.v[0].w3))
    case Li(d, n) => Set(c, d, n)
    case Addi(d, s, n) => Set(c, d, Get(c, s) + n)
    case Dcbz(b, o) =>
      var ea := buf + 16 * b + Get(c, o);
      var line := ea - ea % 32;
      c.(mem := Store(Store(c.mem, line, ZeroVec), line + 16, ZeroVec),
         zeroed := c.zeroed + [line], orderly := c.orderly && line !in c.zeroed)
    case Stvxl(i, b, o) =>
      var ea := buf + 16 * b + Get(c, o);
      if i < 32
      then c.(mem := Store(c.mem, ea - ea % 16, c.file.v[i]), orderly := c.orderly && ea - ea % 32 in c.zeroed)
      else c
    case Lvxl(i, b, o) =>
      var ea := buf + 16 * b + Get(c, o);
      if i < 32 then c.(file := c.file.(v := c.file.v[i := Load(c.mem, ea - ea % 16)])) else c
    case StwR0 => c.(mem := c.mem[buf := c.r0])
    case LwzR4 => c.(r4 := Peek(c.mem, buf))
    case Stvewx(o) =>
      var ea := buf + Get(c, o);
      c.(mem := c.mem[ea - ea % 4 := c.file.v[0].At(ea % 16 / 4)])
    case Lvewx(o, u) =>
      var ea := buf + Get(c, o);
      var w := Peek(c.mem, ea - ea % 4);
      var k := ea % 16 / 4;
      c.(file := c.file.(v := c.file.v[0 := Vec(if k == 0 then w else u.w0, if k == 1 then w else u.w1,
                                               if k == 2 then w else u.w2, if k == 3 then w else u.w3)]))
  }

  function Run(p: Code, c: Cpu, buf: int): (c': Cpu)
    requires c.file.Ok()
    ensures c'.file.Ok()
  {
    match p
    case Do(i) => Exec(i, c, buf)
    case Then(a, b) => Run(b, Run(a, c, buf), buf)
  }

  // The macros.

  function S4Vec(i: nat, o: Gpr): Code {
    Then(Do(Stvxl(i, 0, o)), Then(Do(Stvxl(i + 1, 1, o)), Then(Do(Stvxl(i + 2, 2, o)), Do(Stvxl(i + 3, 3, o)))))
  }

  function L4Vec(i: nat, o: Gpr): Code {
    Then(Do(Lvxl(i, 0, o)), Then(Do(Lvxl(i + 1, 1, o)), Then(Do(Lvxl(i + 2, 2, o)), Do(Lvxl(i + 3, 3, o)))))
  }

  function P4Vec(ri: Gpr, rj: Gpr): Code {
    Then(Do(Addi(rj, ri, 64)), Then(Do(Dcbz(0, rj)), Do(Dcbz(2, rj))))
  }

  function S4VecP(i: nat, ri: Gpr, rj: Gpr): Code {
    Then(P4Vec(ri, rj), S4Vec(i, ri))
  }

  function S8VecP(i: nat, ri: Gpr, rj: Gpr): Code {
    Then(S4VecP(i, ri, rj), S4VecP(i + 4, rj, ri))
  }

  function S32Vec(ri: Gpr, rj: Gpr): Code {
    Then(S8VecP(0, ri, rj), Then(S8VecP(8, ri, rj), Then(S8VecP(16, ri, rj), Then(S4VecP(24, ri, rj), S4Vec(28, rj)))))
  }

  function L4VecA(i: nat, o: Gpr): Code {
    Then(L4Vec(i, o), Do(Addi(o, o, 64)))
  }

  function L8VecA(i: nat, o: Gpr): Code {
    Then(L4VecA(i, o), L4VecA(i + 4, o))
  }

  function L32Vec(o: Gpr): Code {
    Then(L8VecA(0, o), Then(L8VecA(8, o), Then(L8VecA(16, o), Then(L4VecA(24, o), L4Vec(28, o)))))
  }

  /** save_vec_context. The first line is not cleared: it holds the back pointer. */
  function SaveProgram(): Code {
    Then(Do(MfVrsave), Then(Do(Li(R5, 32)), Then(Do(Dcbz(0, R5)), Then(Do(Dcbz(2, R5)),
    Then(S32Vec(R5, R4), EpilogueCode())))))
  }

  function EpilogueCode(): Code {
    Then(Do(MfVscr), Then(Do(StwR0), Then(Do(Li(R5, 12)), Do(Stvewx(R5)))))
  }

  /** load_vec_context. */
  function LoadProgram(undefined: Vec): Code {
    Then(PrologueCode(undefined), L32Vec(R4))
  }

  function PrologueCode(undefined: Vec): Code {
    Then(Do(LwzR4), Then(Do(MtVrsave), Then(Do(Li(R4, 12)), Then(Do(Lvewx(R4, undefined)),
    Then(Do(MtVscr), Do(Addi(R4, R4, 20)))))))
  }

  // Context buffers in memory.

  const CONTEXT_SIZE := 544

  /** A buffer at buf exists in memory and is aligned to a cache line. */
  predicate Mapped(mem: Memory, buf: int) {
    && buf % 32 == 0
    && (forall a | buf <= a < buf + CONTEXT_SIZE && a % 4 == 0 :: a in mem)
  }

  /** Every address is that of a word. */
  predicate WordAligned(mem: Memory) {
    forall a | a in mem :: a % 4 == 0
  }

  /** The vector context stored in a buffer: VRSAVE in word 0, VSCR in word 3, the registers
      from byte 32 on. */
  function FileIn(mem: Memory, buf: int): (f: VecFile)
    ensures f.Ok()
  {
    VecFile(seq(32, i requires 0 <= i < 32 => Load(mem, buf + 32 + 16 * i)), Peek(mem, buf + 12), Peek(mem, buf))
  }

  /** Memory after a context has been stored in a buffer. */
  function Saved(mem: Memory, buf: int, f: VecFile): Memory
    requires f.Ok()
  {
    map a | a in mem :: Placed(buf, f, a, mem[a])
  }

  /** The word at address a; was is what stood there. */
  function Placed(buf: int, f: VecFile, a: int, was: Word): Word
    requires f.Ok()
  {
    if a == buf then f.vrsave
    else if a == buf + 12 then f.vscr
    else if buf + 32 <= a < buf + CONTEXT_SIZE then f.v[(a - buf - 32) / 16].At((a - buf) % 16 / 4)
    else was
  }

  // What the stores do.

  /** The sixteen bytes at a hold the vector x. */
  predicate HasVec(mem: Memory, a: int, x: Vec) {
    && a in mem && a + 4 in mem && a + 8 in mem && a + 12 in mem
    && mem[a] == x.w0 && mem[a + 4] == x.w1 && mem[a + 8] == x.w2 && mem[a + 12] == x.w3
  }

  /** Where register r belongs. */
  function RegAt(buf: int, r: int): int {
    buf + 32 + 16 * r
  }

  lemma StoreKeys(mem: Memory, a: int, x: Vec)
    requires a in mem && a + 4 in mem && a + 8 in mem && a + 12 in mem
    ensures Store(mem, a, x).Keys == mem.Keys
    ensures HasVec(Store(mem, a, x), a, x)
    ensures forall b | b in mem && (b < a || b >= a + 16) :: Store(mem, a, x)[b] == mem[b]
  {
  }

  /** The saving is under way: k registers are in place, m lines have been cleared, and
      outside those lines memory is as it was. */
  ghost predicate Stored(c0: Cpu, c: Cpu, buf: int, k: nat, m: nat)
    requires c0.file.Ok()
  {
    && c.file == c0.file && c.r0 == c0.r0 && k <= 2 * m <= 32
    && c.mem.Keys == c0.mem.Keys
    && (forall r | 0 <= r < k :: HasVec(c.mem, RegAt(buf, r), c0.file.v[r]))
    && (forall b | b in c0.mem && (b < buf + 32 || b >= buf + 32 + 32 * m) :: c.mem[b] == c0.mem[b])
    && c.zeroed == Lines(buf, m) && c.orderly
  }

  /** The cache lines from byte 32 of the buffer on. */
  function Lines(buf: int, m: nat): (r: seq<int>)
    ensures |r| == m
  {
    if m == 0 then [] else Lines(buf, m - 1) + [buf + 32 * m]
  }

  /** All of them lie in the register area. */
  lemma {:induction false} LinesInside(buf: int, m: nat, i: nat)
    requires i < m
    ensures Lines(buf, m)[i] == buf + 32 + 32 * i
  {
    if i < m - 1 {
      LinesInside(buf, m - 1, i);
    }
  }

  lemma {:induction false} LinesBelow(buf: int, m: nat)
    ensures forall x | x in Lines(buf, m) :: x <= buf + 32 * m
  {
    if m > 0 {
      LinesBelow(buf, m - 1);
    }
  }

  /** The line of a register is the one that was cleared for it. */
  lemma LineOfReg(buf: int, k: nat, m: nat)
    requires buf % 32 == 0 && k < 2 * m
    ensures RegAt(buf, k) - RegAt(buf, k) % 32 in Lines(buf, m)
  {
    var a := RegAt(buf, k);
    LinesInside(buf, m, k / 2);
    assert a == buf + 32 + 32 * (k / 2) + 16 * (k % 2);
    assert a - a % 32 == Lines(buf, m)[k / 2];
  }

  lemma MappedReg(mem: Memory, buf: int, r: nat)
    requires Mapped(mem, buf) && r < 32
    ensures RegAt(buf, r) in mem && RegAt(buf, r) + 4 in mem && RegAt(buf, r) + 8 in mem && RegAt(buf, r) + 12 in mem
    ensures RegAt(buf, r) % 16 == 0
  {
  }

  /** Storing the next register, inside the cleared lines. */
  lemma StoreStep(c0: Cpu, c: Cpu, buf: int, k: nat, m: nat, b: nat, o: Gpr)
    requires c0.file.Ok() && Mapped(c0.mem, buf)
    requires Stored(c0, c, buf, k, m) && k < 2 * m
    requires 16 * b + Get(c, o) == 32 + 16 * k
    ensures
      var c' := Exec(Stvxl(k, b, o), c, buf);
      Stored(c0, c', buf, k + 1, m) && c'.r4 == c.r4 && c'.r5 == c.r5
  {
    var a := RegAt(buf, k);
    MappedReg(c0.mem, buf, k);
    LineOfReg(buf, k, m);
    StoreKeys(c.mem, a, c.file.v[k]);
    var mem' := Store(c.mem, a, c.file.v[k]);
    forall r | 0 <= r < k + 1
      ensures HasVec(mem', RegAt(buf, r), c0.file.v[r])
    {
      if r < k {
        assert HasVec(c.mem, RegAt(buf, r), c0.file.v[r]);
        assert RegAt(buf, r) + 16 <= a;
      }
    }
  }

  lemma ClearKeys(mem: Memory, buf: int, m: nat)
    requires Mapped(mem, buf) && m < 16
    ensures
      var a := RegAt(buf, 2 * m);
      var mem' := Store(Store(mem, a, ZeroVec), a + 16, ZeroVec);
      && mem'.Keys == mem.Keys
      && (forall b | b in mem && (b < a || b >= a + 32) :: mem'[b] == mem[b])
  {
    var a := RegAt(buf, 2 * m);
    MappedReg(mem, buf, 2 * m);
    MappedReg(mem, buf, 2 * m + 1);
    StoreKeys(mem, a, ZeroVec);
    StoreKeys(Store(mem, a, ZeroVec), a + 16, ZeroVec);
  }

  /** Clearing the next line: the registers already stored lie below it. */
  lemma ClearStep(c0: Cpu, c: Cpu, buf: int, k: nat, m: nat, b: nat, o: Gpr)
    requires c0.file.Ok() && Mapped(c0.mem, buf)
    requires Stored(c0, c, buf, k, m) && m < 16
    requires 16 * b + Get(c, o) == 32 + 32 * m
    ensures
      var c' := Exec(Dcbz(b, o), c, buf);
      Stored(c0, c', buf, k, m + 1) && c'.r4 == c.r4 && c'.r5 == c.r5
  {
    var a := RegAt(buf, 2 * m);
    assert a % 32 == 0;
    LinesBelow(buf, m);
    assert Mapped(c.mem, buf);
    ClearKeys(c.mem, buf, m);
    var mem' := Store(Store(c.mem, a, ZeroVec), a + 16, ZeroVec);
    forall r | 0 <= r < k
      ensures HasVec(mem', RegAt(buf, r), c0.file.v[r])
    {
      assert HasVec(c.mem, RegAt(buf, r), c0.file.v[r]);
      assert RegAt(buf, r) + 16 <= a;
    }
  }

  /** S4VEC: four registers. */
  lemma FourStores(c0: Cpu, c: Cpu, buf: int, k: nat, m: nat, o: Gpr)
    requires c0.file.Ok() && Mapped(c0.mem, buf)
    requires Stored(c0, c, buf, k, m) && k + 4 <= 2 * m && Get(c, o) == 32 + 16 * k
    ensures
      var c' := Run(S4Vec(k, o), c, buf);
      Stored(c0, c', buf, k + 4, m) && c'.r4 == c.r4 && c'.r5 == c.r5
  {
    StoreStep(c0, c, buf, k, m, 0, o);
    var c1 := Exec(Stvxl(k, 0, o), c, buf);
    StoreStep(c0, c1, buf, k + 1, m, 1, o);
    var c2 := Exec(Stvxl(k + 1, 1, o), c1, buf);
    StoreStep(c0, c2, buf, k + 2, m, 2, o);
    var c3 := Exec(Stvxl(k + 2, 2, o), c2, buf);
    StoreStep(c0, c3, buf, k + 3, m, 3, o);
    var p3 := Do(Stvxl(k + 3, 3, o));
    var p2 := Then(Do(Stvxl(k + 2, 2, o)), p3);
    assert Run(p2, c2, buf) == Run(p3, c3, buf);
    assert Run(Then(Do(Stvxl(k + 1, 1, o)), p2), c1, buf) == Run(p2, c2, buf);
  }

  /** P4VEC: the two lines of the next group. */
  lemma TwoLines(c0: Cpu, c: Cpu, buf: int, k: nat, m: nat, ri: Gpr, rj: Gpr)
    requires c0.file.Ok() && Mapped(c0.mem, buf) && ri != rj
    requires Stored(c0, c, buf, k, m) && m + 2 <= 16 && Get(c, ri) + 64 == 32 + 32 * m
    ensures
      var c' := Run(P4Vec(ri, rj), c, buf);
      Stored(c0, c', buf, k, m + 2) && Get(c', ri) == Get(c, ri) && Get(c', rj) == 32 + 32 * m
  {
    var c1 := Exec(Addi(rj, ri, 64), c, buf);
    assert Stored(c0, c1, buf, k, m);
    ClearStep(c0, c1, buf, k, m, 0, rj);
    var c2 := Exec(Dcbz(0, rj), c1, buf);
    ClearStep(c0, c2, buf, k, m + 1, 2, rj);
    var p := Then(Do(Dcbz(0, rj)), Do(Dcbz(2, rj)));
    assert Run(p, c1, buf) == Exec(Dcbz(2, rj), c2, buf);
  }

  /** S4VEC_P: clear the two lines of the next group, then store this one. */
  lemma Group(c0: Cpu, c: Cpu, buf: int, k: nat, ri: Gpr, rj: Gpr)
    requires c0.file.Ok() && Mapped(c0.mem, buf) && ri != rj
    requires k % 4 == 0 && k <= 24 && Stored(c0, c, buf, k, k / 2 + 2) && Get(c, ri) == 32 + 16 * k
    ensures
      var c' := Run(S4VecP(k, ri, rj), c, buf);
      Stored(c0, c', buf, k + 4, k / 2 + 4) && Get(c', rj) == 32 + 16 * (k + 4)
  {
    var m := k / 2 + 2;
    TwoLines(c0, c, buf, k, m, ri, rj);
    var c1 := Run(P4Vec(ri, rj), c, buf);
    FourStores(c0, c1, buf, k, m + 2, ri);
    RunThen(P4Vec(ri, rj), S4Vec(k, ri), c, buf);
  }

  lemma TwoGroups(c0: Cpu, c: Cpu, buf: int, k: nat, ri: Gpr, rj: Gpr)
    requires c0.file.Ok() && Mapped(c0.mem, buf) && ri != rj
    requires k % 8 == 0 && k <= 16 && Stored(c0, c, buf, k, k / 2 + 2) && Get(c, ri) == 32 + 16 * k
    ensures
      var c' := Run(S8VecP(k, ri, rj), c, buf);
      Stored(c0, c', buf, k + 8, k / 2 + 6) && Get(c', ri) == 32 + 16 * (k + 8)
  {
    Group(c0, c, buf, k, ri, rj);
    Group(c0, Run(S4VecP(k, ri, rj), c, buf), buf, k + 4, rj, ri);
  }

  /** S32VEC: all registers, every line cleared before it is filled. */
  lemma AllGroups(c0: Cpu, c: Cpu, buf: int)
    requires c0.file.Ok() && Mapped(c0.mem, buf)
    requires Stored(c0, c, buf, 0, 2) && c.r5 == 32
    ensures Stored(c0, Run(S32Vec(R5, R4), c, buf), buf, 32, 16)
  {
    TwoGroups(c0, c, buf, 0, R5, R4);
    var c1 := Run(S8VecP(0, R5, R4), c, buf);
    TwoGroups(c0, c1, buf, 8, R5, R4);
    var c2 := Run(S8VecP(8, R5, R4), c1, buf);
    TwoGroups(c0, c2, buf, 16, R5, R4);
    var c3 := Run(S8VecP(16, R5, R4), c2, buf);
    Group(c0, c3, buf, 24, R5, R4);
    var c4 := Run(S4VecP(24, R5, R4), c3, buf);
    FourStores(c0, c4, buf, 28, 16, R4);
    var p4 := Then(S4VecP(24, R5, R4), S4Vec(28, R4));
    var p3 := Then(S8VecP(16, R5, R4), p4);
    var p2 := Then(S8VecP(8, R5, R4), p3);
    assert S32Vec(R5, R4) == Then(S8VecP(0, R5, R4), p2);
    RunThen(S8VecP(0, R5, R4), p2, c, buf);
    RunThen(S8VecP(8, R5, R4), p3, c1, buf);
    RunThen(S8VecP(16, R5, R4), p4, c2, buf);
    RunThen(S4VecP(24, R5, R4), S4Vec(28, R4), c3, buf);
  }

  lemma RunThen(a: Code, b: Code, c: Cpu, buf: int)
    requires c.file.Ok()
    ensures Run(Then(a, b), c, buf) == Run(b, Run(a, c, buf), buf)
  {
  }

  /** Byte 12 of the buffer is the last element of a vector. */
  lemma VscrElement(buf: int)
    requires buf % 32 == 0
    ensures (buf + 12) % 16 == 12 && (buf + 12) % 4 == 0
  {
    var m := 2 * (buf / 32);
    assert buf == 16 * m;
    assert (16 * m + 12) % 16 == 12;
    assert (4 * (4 * m + 3)) % 4 == 0;
  }

  /** VSCR by way of v0, and VRSAVE. */
  lemma Epilogue(c: Cpu, buf: int)
    requires c.file.Ok() && buf % 32 == 0
    ensures
      var c' := Run(EpilogueCode(), c, buf);
      && c'.mem == c.mem[buf := c.r0][buf + 12 := c.file.vscr]
      && c'.file == c.file.(v := c.file.v[0 := Vec(0, 0, 0, c.file.vscr)])
      && c'.zeroed == c.zeroed && c'.orderly == c.orderly
  {
    var c1 := Exec(MfVscr, c, buf);
    var c2 := Exec(StwR0, c1, buf);
    var c3 := Exec(Li(R5, 12), c2, buf);
    VscrElement(buf);
    var p3 := Then(Do(Li(R5, 12)), Do(Stvewx(R5)));
    RunThen(Do(MfVscr), Then(Do(StwR0), p3), c, buf);
    RunThen(Do(StwR0), p3, c1, buf);
    RunThen(Do(Li(R5, 12)), Do(Stvewx(R5)), c2, buf);
  }

  /** One word of the register area. */
  lemma PlacedWord(mem: Memory, buf: int, f: VecFile, r: int, j: int, a: int, was: Word)
    requires f.Ok() && buf % 32 == 0 && 0 <= r < 32 && 0 <= j < 4 && a == RegAt(buf, r) + 4 * j
    requires HasVec(mem, RegAt(buf, r), f.v[r])
    ensures a in mem && mem[a] == Placed(buf, f, a, was)
  {
    assert (a - buf - 32) / 16 == r && (a - buf) % 16 / 4 == j;
    assert j == 0 || j == 1 || j == 2 || j == 3;
  }

  /** Register by register is address by address. */
  lemma StoredWord(c0: Cpu, c: Cpu, buf: int, a: int)
    requires c0.file.Ok() && buf % 32 == 0 && a % 4 == 0 && a in c0.mem
    requires Stored(c0, c, buf, 32, 16)
    ensures a in c.mem
    ensures c.mem[buf := c0.file.vrsave][buf + 12 := c0.file.vscr][a] == Placed(buf, c0.file, a, c0.mem[a])
  {
    if buf + 32 <= a < buf + CONTEXT_SIZE {
      var r, j := Split(buf, a);
      PlacedWord(c.mem, buf, c0.file, r, j, a, c0.mem[a]);
    }
  }

  lemma SavedByRegisters(c0: Cpu, c: Cpu, buf: int)
    requires c0.file.Ok() && WordAligned(c0.mem) && Mapped(c0.mem, buf)
    requires Stored(c0, c, buf, 32, 16)
    ensures c.mem[buf := c0.file.vrsave][buf + 12 := c0.file.vscr] == Saved(c0.mem, buf, c0.file)
  {
    var m, s := c.mem[buf := c0.file.vrsave][buf + 12 := c0.file.vscr], Saved(c0.mem, buf, c0.file);
    assert buf in c0.mem && buf + 12 in c0.mem;
    assert m.Keys == s.Keys;
    forall a | a in c0.mem
      ensures m[a] == s[a]
    {
      StoredWord(c0, c, buf, a);
    }
  }

  lemma Split(buf: int, a: int) returns (r: int, j: int)
    requires buf % 32 == 0 && a % 4 == 0 && buf + 32 <= a < buf + CONTEXT_SIZE
    ensures 0 <= r < 32 && 0 <= j < 4 && a == RegAt(buf, r) + 4 * j
  {
    r, j := (a - buf - 32) / 16, (a - buf) % 16 / 4;
  }

  /** The saving theorem: the buffer holds the context of the moment, the other words of
      memory (the back pointer in word 1 among them) are untouched, exactly the sixteen lines
      from byte 32 to byte 543 were cleared, each once and before any store to it, and of the
      registers only v0 changed. */
  lemma SaveCorrect(c: Cpu, buf: int)
    requires c.file.Ok() && WordAligned(c.mem) && Mapped(c.mem, buf) && c.zeroed == [] && c.orderly
    ensures
      var c' := Run(SaveProgram(), c, buf);
      && c'.mem == Saved(c.mem, buf, c.file)
      && c'.file == c.file.(v := c.file.v[0 := Vec(0, 0, 0, c.file.vscr)])
      && c'.zeroed == Lines(buf, 16) && c'.orderly
  {
    var p4 := Then(S32Vec(R5, R4), EpilogueCode());
    var p3 := Then(Do(Dcbz(2, R5)), p4);
    var p2 := Then(Do(Dcbz(0, R5)), p3);
    var p1 := Then(Do(Li(R5, 32)), p2);
    assert SaveProgram() == Then(Do(MfVrsave), p1);
    var c0 := Exec(MfVrsave, c, buf);
    RunThen(Do(MfVrsave), p1, c, buf);
    var c1 := Exec(Li(R5, 32), c0, buf);
    RunThen(Do(Li(R5, 32)), p2, c0, buf);
    assert Stored(c0, c1, buf, 0, 0);
    ClearStep(c0, c1, buf, 0, 0, 0, R5);
    var c2 := Exec(Dcbz(0, R5), c1, buf);
    RunThen(Do(Dcbz(0, R5)), p3, c1, buf);
    ClearStep(c0, c2, buf, 0, 1, 2, R5);
    var c3 := Exec(Dcbz(2, R5), c2, buf);
    RunThen(Do(Dcbz(2, R5)), p4, c2, buf);
    AllGroups(c0, c3, buf);
    var c4 := Run(S32Vec(R5, R4), c3, buf);
    RunThen(S32Vec(R5, R4), EpilogueCode(), c3, buf);
    Epilogue(c4, buf);
    SavedByRegisters(c0, c4, buf);
  }

  // What the loads do.

  /** The loading is under way: k registers are those of the buffer. */
  predicate Loaded(c0: Cpu, c: Cpu, buf: int, k: nat) {
    && c.mem == c0.mem && c.zeroed == c0.zeroed && c.file.Ok() && k <= 32
    && c.file.vscr == Peek(c0.mem, buf + 12) && c.file.vrsave == Peek(c0.mem, buf)
    && (forall r | 0 <= r < k :: c.file.v[r] == Load(c0.mem, RegAt(buf, r)))
  }

  lemma LoadStep(c0: Cpu, c: Cpu, buf: int, k: nat, b: nat, o: Gpr)
    requires buf % 32 == 0 && Loaded(c0, c, buf, k) && k < 32
    requires 16 * b + Get(c, o) == 32 + 16 * k
    ensures
      var c' := Exec(Lvxl(k, b, o), c, buf);
      Loaded(c0, c', buf, k + 1) && c'.r4 == c.r4 && c'.r5 == c.r5
  {
    assert RegAt(buf, k) % 16 == 0;
  }

  /** L4VEC: four registers. */
  lemma FourLoads(c0: Cpu, c: Cpu, buf: int, k: nat, o: Gpr)
    requires buf % 32 == 0 && Loaded(c0, c, buf, k) && k + 4 <= 32 && Get(c, o) == 32 + 16 * k
    ensures
      var c' := Run(L4Vec(k, o), c, buf);
      Loaded(c0, c', buf, k + 4) && Get(c', o) == Get(c, o)
  {
    LoadStep(c0, c, buf, k, 0, o);
    var c1 := Exec(Lvxl(k, 0, o), c, buf);
    LoadStep(c0, c1, buf, k + 1, 1, o);
    var c2 := Exec(Lvxl(k + 1, 1, o), c1, buf);
    LoadStep(c0, c2, buf, k + 2, 2, o);
    var c3 := Exec(Lvxl(k + 2, 2, o), c2, buf);
    LoadStep(c0, c3, buf, k + 3, 3, o);
    var p3 := Do(Lvxl(k + 3, 3, o));
    var p2 := Then(Do(Lvxl(k + 2, 2, o)), p3);
    var p1 := Then(Do(Lvxl(k + 1, 1, o)), p2);
    RunThen(Do(Lvxl(k, 0, o)), p1, c, buf);
    RunThen(Do(Lvxl(k + 1, 1, o)), p2, c1, buf);
    RunThen(Do(Lvxl(k + 2, 2, o)), p3, c2, buf);
  }

  /** L4VECA: and on to the next group. */
  lemma LoadGroup(c0: Cpu, c: Cpu, buf: int, k: nat, o: Gpr)
    requires buf % 32 == 0 && Loaded(c0, c, buf, k) && k + 4 <= 32 && Get(c, o) == 32 + 16 * k
    ensures
      var c' := Run(L4VecA(k, o), c, buf);
      Loaded(c0, c', buf, k + 4) && Get(c', o) == 32 + 16 * (k + 4)
  {
    FourLoads(c0, c, buf, k, o);
    RunThen(L4Vec(k, o), Do(Addi(o, o, 64)), c, buf);
  }

  lemma LoadTwoGroups(c0: Cpu, c: Cpu, buf: int, k: nat, o: Gpr)
    requires buf % 32 == 0 && Loaded(c0, c, buf, k) && k + 8 <= 32 && Get(c, o) == 32 + 16 * k
    ensures
      var c' := Run(L8VecA(k, o), c, buf);
      Loaded(c0, c', buf, k + 8) && Get(c', o) == 32 + 16 * (k + 8)
  {
    LoadGroup(c0, c, buf, k, o);
    LoadGroup(c0, Run(L4VecA(k, o), c, buf), buf, k + 4, o);
    RunThen(L4VecA(k, o), L4VecA(k + 4, o), c, buf);
  }

  /** L32VEC: all registers. */
  lemma LoadAll(c0: Cpu, c: Cpu, buf: int)
    requires buf % 32 == 0 && Loaded(c0, c, buf, 0) && c.r4 == 32
    ensures Loaded(c0, Run(L32Vec(R4), c, buf), buf, 32)
  {
    LoadTwoGroups(c0, c, buf, 0, R4);
    var c1 := Run(L8VecA(0, R4), c, buf);
    LoadTwoGroups(c0, c1, buf, 8, R4);
    var c2 := Run(L8VecA(8, R4), c1, buf);
    LoadTwoGroups(c0, c2, buf, 16, R4);
    var c3 := Run(L8VecA(16, R4), c2, buf);
    LoadGroup(c0, c3, buf, 24, R4);
    var c4 := Run(L4VecA(24, R4), c3, buf);
    FourLoads(c0, c4, buf, 28, R4);
    var p4 := Then(L4VecA(24, R4), L4Vec(28, R4));
    var p3 := Then(L8VecA(16, R4), p4);
    var p2 := Then(L8VecA(8, R4), p3);
    assert L32Vec(R4) == Then(L8VecA(0, R4), p2);
    RunThen(L8VecA(0, R4), p2, c, buf);
    RunThen(L8VecA(8, R4), p3, c1, buf);
    RunThen(L8VecA(16, R4), p4, c2, buf);
    RunThen(L4VecA(24, R4), L4Vec(28, R4), c3, buf);
  }

  /** VRSAVE by way of r4, VSCR by way of v0. */
  lemma Prologue(c: Cpu, buf: int, undefined: Vec)
    requires c.file.Ok() && buf % 32 == 0
    ensures
      var c' := Run(PrologueCode(undefined), c, buf);
      Loaded(c, c', buf, 0) && c'.r4 == 32
  {
    var p5 := Then(Do(MtVscr), Do(Addi(R4, R4, 20)));
    var p4 := Then(Do(Lvewx(R4, undefined)), p5);
    var p3 := Then(Do(Li(R4, 12)), p4);
    var p2 := Then(Do(MtVrsave), p3);
    var c1 := Exec(LwzR4, c, buf);
    var c2 := Exec(MtVrsave, c1, buf);
    VrsaveLoaded(c, buf);
    var c3 := Exec(Li(R4, 12), c2, buf);
    var c4 := Exec(Lvewx(R4, undefined), c3, buf);
    var c5 := Exec(MtVscr, c4, buf);
    VscrLoaded(c3, buf, undefined);
    RunThen(Do(LwzR4), p2, c, buf);
    RunThen(Do(MtVrsave), p3, c1, buf);
    RunThen(Do(Li(R4, 12)), p4, c2, buf);
    RunThen(Do(Lvewx(R4, undefined)), p5, c3, buf);
    RunThen(Do(MtVscr), Do(Addi(R4, R4, 20)), c4, buf);
  }

  lemma VrsaveLoaded(c: Cpu, buf: int)
    requires c.file.Ok()
    ensures
      var w := Peek(c.mem, buf);
      Exec(MtVrsave, Exec(LwzR4, c, buf), buf) == c.(r4 := w, file := c.file.(vrsave := w))
  {
  }

  lemma VscrLoaded(c: Cpu, buf: int, undefined: Vec)
    requires c.file.Ok() && buf % 32 == 0 && c.r4 == 12
    ensures
      var c' := Exec(MtVscr, Exec(Lvewx(R4, undefined), c, buf), buf);
      && c'.file.Ok() && c'.file.vscr == Peek(c.mem, buf + 12) && c'.file.vrsave == c.file.vrsave
      && c'.mem == c.mem && c'.r4 == 12 && c'.zeroed == c.zeroed
  {
    VscrElement(buf);
  }

  /** The loading theorem: the registers become the context in the buffer, whatever they held
      and whatever lvewx leaves in the other elements of v0; memory is only read. */
  lemma LoadCorrect(c: Cpu, buf: int, undefined: Vec)
    requires c.file.Ok() && buf % 32 == 0
    ensures
      var c' := Run(LoadProgram(undefined), c, buf);
      c'.file == FileIn(c.mem, buf) && c'.mem == c.mem && c'.zeroed == c.zeroed
  {
    Prologue(c, buf, undefined);
    var c1 := Run(PrologueCode(undefined), c, buf);
    LoadAll(c, c1, buf);
    RunThen(PrologueCode(undefined), L32Vec(R4), c, buf);
    var f, g := Run(L32Vec(R4), c1, buf).file, FileIn(c.mem, buf);
    forall r | 0 <= r < 32
      ensures f.v[r] == g.v[r]
    {
      assert RegAt(buf, r) == buf + 32 + 16 * r;
    }
    assert f.v == g.v;
  }

  // The two together.

  /** A stored context reads back. */
  lemma SavedReadsBack(mem: Memory, buf: int, f: VecFile)
    requires f.Ok() && Mapped(mem, buf)
    ensures FileIn(Saved(mem, buf, f), buf) == f
  {
    forall r | 0 <= r < 32
      ensures FileIn(Saved(mem, buf, f), buf).v[r] == f.v[r]
    {
      SavedVec(mem, buf, f, r);
    }
    SavedHeader(mem, buf, f);
  }

  lemma SavedHeader(mem: Memory, buf: int, f: VecFile)
    requires f.Ok() && Mapped(mem, buf)
    ensures Peek(Saved(mem, buf, f), buf) == f.vrsave && Peek(Saved(mem, buf, f), buf + 12) == f.vscr
  {
    assert buf in mem && buf + 12 in mem;
  }

  lemma SavedVec(mem: Memory, buf: int, f: VecFile, r: nat)
    requires f.Ok() && Mapped(mem, buf) && r < 32
    ensures Load(Saved(mem, buf, f), RegAt(buf, r)) == f.v[r]
  {
    var a := RegAt(buf, r);
    MappedReg(mem, buf, r);
    SavedElement(mem, buf, f, r, 0);
    SavedElement(mem, buf, f, r, 1);
    SavedElement(mem, buf, f, r, 2);
    SavedElement(mem, buf, f, r, 3);
  }

  lemma SavedElement(mem: Memory, buf: int, f: VecFile, r: nat, j: nat)
    requires f.Ok() && buf % 32 == 0 && r < 32 && j < 4 && RegAt(buf, r) + 4 * j in mem
    ensures Peek(Saved(mem, buf, f), RegAt(buf, r) + 4 * j) == f.v[r].At(j)
  {
    var a := RegAt(buf, r) + 4 * j;
    assert (a - buf - 32) / 16 == r && (a - buf) % 16 / 4 == j;
  }

  /** Storing into one buffer leaves a context in another one alone. */
  lemma SavedElsewhere(mem: Memory, buf: int, f: VecFile, other: int)
    requires f.Ok()
    requires other + CONTEXT_SIZE <= buf || buf + CONTEXT_SIZE <= other
    ensures FileIn(Saved(mem, buf, f), other) == FileIn(mem, other)
  {
    var s := Saved(mem, buf, f);
    forall a | other <= a < other + CONTEXT_SIZE
      ensures Peek(s, a) == Peek(mem, a)
    {
    }
    forall r | 0 <= r < 32
      ensures Load(s, other + 32 + 16 * r) == Load(mem, other + 32 + 16 * r)
    {
    }
    assert FileIn(s, other).v == FileIn(mem, other).v;
  }

  /** The round trip: a context saved from one processor state and loaded in any other one
      that still has the same memory restores every register, VSCR and VRSAVE, for any prior
      contents of the buffer. */
  lemma SaveLoadRoundTrip(c: Cpu, d: Cpu, buf: int, undefined: Vec)
    requires c.file.Ok() && WordAligned(c.mem) && Mapped(c.mem, buf) && c.zeroed == [] && c.orderly
    requires d.file.Ok() && d.mem == Run(SaveProgram(), c, buf).mem
    ensures Run(LoadProgram(undefined), d, buf).file == c.file
  {
    SaveCorrect(c, buf);
    LoadCorrect(d, buf, undefined);
    SavedReadsBack(c.mem, buf, c.file);
  }

  /** Every line that saving clears lies between byte 32 and byte 543, and the first line keeps
      its back pointer in word 1 and the unused word 2. */
  lemma SaveKeepsBackPointer(c: Cpu, buf: int)
    requires c.file.Ok() && WordAligned(c.mem) && Mapped(c.mem, buf) && c.zeroed == [] && c.orderly
    ensures
      var c' := Run(SaveProgram(), c, buf);
      && Peek(c'.mem, buf + 4) == Peek(c.mem, buf + 4) && Peek(c'.mem, buf + 8) == Peek(c.mem, buf + 8)
      && |c'.zeroed| == 16
      && (forall i | 0 <= i < 16 :: c'.zeroed[i] == buf + 32 + 32 * i)
  {
    SaveCorrect(c, buf);
    forall i | 0 <= i < 16
      ensures Lines(buf, 16)[i] == buf + 32 + 32 * i
    {
      LinesInside(buf, 16, i);
    }
  }
}
