/** Lazy switching of the vector registers between threads (altivec/vec_context.c, built
    without ALL_THREADS_ALTIVEC): the hooks as functions on the state of the machine. */
module VecSwitch {
  import opened VecIsa
  import opened VecHeap

  type Tid = nat

  datatype Option<T> = None | Some(value: T)

  /** The machine state register: the bit MSR_VE and the others. */
  datatype Msr = Msr(ve: bool, rest: Word)

  datatype Status = Dormant | Live

  /** What the hooks see of a thread: its saved MSR and its extension slot (0 if empty). */
  datatype Thread = Thread(status: Status, msr: Msr, slot: int)

  /** sound is cleared by what the hooks must never do: save or load with MSR_VE off, save or
      load at an address that is not a live context, free something that is no block, overwrite
      an occupied slot. */
  datatype Machine = Machine(
    threads: map<Tid, Thread>,
    executing: Tid,
    owner: Option<Tid>,
    msr: Msr,
    regs: VecFile,
    heap: Heap,
    sound: bool)

  function Slot(m: Machine, t: Tid): int {
    if t in m.threads then m.threads[t].slot else 0
  }

  function SetSlot(m: Machine, t: Tid, vp: int): Machine {
    if t in m.threads then m.(threads := m.threads[t := m.threads[t].(slot := vp)]) else m
  }

  function SetSavedVe(m: Machine, t: Tid, ve: bool): Machine {
    if t in m.threads
    then m.(threads := m.threads[t := m.threads[t].(msr := m.threads[t].msr.(ve := ve))])
    else m
  }

  function SetVe(m: Machine, ve: bool): Machine {
    m.(msr := m.msr.(ve := ve))
  }

  /** A buffer that belongs to an allocated context block. */
  predicate IsContext(h: Heap, vp: int) {
    ContextIn(h, vp, Peek(h.mem, vp + 4))
  }

  /** save_vec_context of the owner's buffer: v0 is lost in the process. */
  function SaveRegs(m: Machine, vp: int): Machine
    requires m.regs.Ok()
  {
    m.(heap := m.heap.(mem := Saved(m.heap.mem, vp, m.regs)),
       regs := m.regs.(v := m.regs.v[0 := Vec(0, 0, 0, m.regs.vscr)]),
       sound := m.sound && m.msr.ve && IsContext(m.heap, vp))
  }

  /** load_vec_context. */
  function LoadRegs(m: Machine, vp: int): Machine {
    m.(regs := FileIn(m.heap.mem, vp), sound := m.sound && m.msr.ve && IsContext(m.heap, vp))
  }

  /** vec_thread_switch. */
  function SwitchHook(m: Machine, heir: Tid): Machine
    requires m.regs.Ok()
  {
    var vp := Slot(m, heir);
    if vp != 0 && m.owner != Some(heir) then
      var m1 := SetVe(m, true);
      var m2 := if m1.owner.Some? then SaveRegs(m1, Slot(m1, m1.owner.value)) else m1;
      var m3 := LoadRegs(m2, vp);
      m3.(owner := Some(heir), msr := m.msr)
    else m
  }

  datatype EnableResult = Enabled | AlreadyEnabled | NoMemory

  /** vec_task_enable from the test of MSR_VE on; p is the answer of the allocator. */
  function EnableTask(m: Machine, p: int): (Machine, EnableResult)
    requires m.regs.Ok()
  {
    if m.msr.ve then (m, AlreadyEnabled)
    else
      var (h, vp) := ExtAlloc(m.heap, p);
      if vp == 0 then (m.(heap := h), NoMemory)
      else
        var m1 := m.(heap := h.(mem := InitContext(h.mem, vp)), sound := m.sound && Slot(m, m.executing) == 0);
        var m2 := SwitchHook(SetSlot(m1, m.executing, vp), m.executing);
        (SetVe(m2, true), Enabled)
  }

  /** vec_thread_fixup_env, and so vec_thread_start. */
  function FixupEnv(m: Machine, t: Tid): Machine {
    SetSavedVe(m, t, false)
  }

  /** vec_thread_delete. */
  function DeleteHook(m: Machine, t: Tid): Machine {
    var m1 :=
      if m.owner == Some(t) then (if m.executing == t then SetVe(m, false) else m).(owner := None) else m;
    var m2 := SetSavedVe(m1, t, false);
    var vc := Slot(m2, t);
    if vc != 0 then
      var (h, ok) := ExtFree(m2.heap, vc);
      SetSlot(m2.(heap := h, sound := m2.sound && ok), t, 0)
    else m2
  }

  /** vec_thread_restart. */
  function RestartHook(m: Machine, t: Tid): Machine {
    FixupEnv(DeleteHook(m, t), t)
  }

  // The steps: a hook together with what the kernel does around it.

  datatype Step =
    | Create(t: Tid, junk: Msr)
    | Start(t: Tid, env: Msr)
    | Enable(p: int)
    | Switch(t: Tid)
    | VecOp(op: VecFile -> VecFile)
    | Restart(t: Tid, env: Msr)
    | Delete(t: Tid)
    | OtherWrite(a: int, x: Word)

  predicate Alive(m: Machine, t: Tid) {
    t in m.threads && m.threads[t].status == Live
  }

  ghost predicate Possible(m: Machine, x: Step) {
    match x
    case Create(t, _) => t !in m.threads && t != m.executing
    case Start(t, _) => t in m.threads && m.threads[t].status == Dormant
    case Enable(p) => m.executing in m.threads && VecHeap.Grants(m.heap, p, CONTEXT_BLOCK)
    case Switch(t) => Alive(m, t)
    case VecOp(_) => true
    case Restart(t, _) => Alive(m, t)
    case Delete(t) => t in m.threads
    case OtherWrite(a, _) => a % 4 == 0 && forall p | p in m.heap.blocks :: a < p || p + m.heap.blocks[p] <= a
  }

  function Effect(op: VecFile -> VecFile, f: VecFile): VecFile {
    if op(f).Ok() then op(f) else f
  }

  /** The register swap that follows the hook; a thread that has deleted itself leaves nothing
      behind. */
  function SwapMsr(m: Machine, heir: Tid): Machine
    requires heir in m.threads
  {
    if heir == m.executing then m
    else
      var saved :=
        if m.executing in m.threads
        then m.threads[m.executing := m.threads[m.executing].(msr := m.msr)]
        else m.threads;
      m.(threads := saved, msr := saved[heir].msr, executing := heir)
  }

  function LoadEnv(m: Machine, t: Tid, env: Msr): Machine
    requires t in m.threads
  {
    m.(threads := m.threads[t := m.threads[t].(status := Live, msr := env)])
  }

  function Dispatch(m: Machine, heir: Tid): Machine
    requires m.regs.Ok() && heir in m.threads
  {
    SwapMsr(SwitchHook(m, heir), heir)
  }

  /** A thread that restarts itself continues with its new environment. */
  function RestartThread(m: Machine, t: Tid, env: Msr): Machine
    requires t in m.threads
  {
    var m1 := RestartHook(LoadEnv(m, t, env), t);
    if t == m.executing then m1.(msr := m1.threads[t].msr) else m1
  }

  function DeleteThread(m: Machine, t: Tid): Machine {
    var m1 := DeleteHook(m, t);
    m1.(threads := m1.threads - {t})
  }

  function Apply(m: Machine, x: Step): Machine
    requires m.regs.Ok()
  {
    match x
    case Create(t, junk) => m.(threads := m.threads[t := Thread(Dormant, junk, 0)])
    case Start(t, env) => if t in m.threads then FixupEnv(LoadEnv(m, t, env), t) else m
    case Enable(p) => EnableTask(m, p).0
    case Switch(t) => if t in m.threads then Dispatch(m, t) else m
    case VecOp(op) => if m.msr.ve then m.(regs := Effect(op, m.regs)) else m
    case Restart(t, env) => if t in m.threads then RestartThread(m, t, env) else m
    case Delete(t) => DeleteThread(m, t)
    case OtherWrite(a, x) => m.(heap := m.heap.(mem := m.heap.mem[a := x]))
  }

  /** Steps that cannot happen are skipped. */
  ghost function Runs(m: Machine, xs: seq<Step>): Machine
    requires m.regs.Ok()
    decreases |xs|
  {
    if xs == [] then m else Runs(Next(m, xs[0]), xs[1..])
  }

  ghost function Next(m: Machine, x: Step): (m': Machine)
    requires m.regs.Ok()
    ensures m'.regs.Ok()
  {
    if Possible(m, x) then Apply(m, x) else m
  }

  // The simple machine: every thread has an MSR and vector registers of its own.

  datatype PrivateThread = PrivateThread(status: Status, msr: Msr, file: Option<VecFile>)

  datatype Private = Private(threads: map<Tid, PrivateThread>, executing: Tid)

  datatype Act =
    | ACreate(t: Tid, junk: Msr)
    | AStart(t: Tid, env: Msr)
    | AEnable(file: Option<VecFile>)
    | ASwitch(t: Tid)
    | AVecOp(op: VecFile -> VecFile)
    | ARestart(t: Tid, env: Msr)
    | ADelete(t: Tid)
    | AStutter

  function Map(f: VecFile -> VecFile, x: Option<VecFile>): Option<VecFile> {
    if x.None? then None else Some(Effect(f, x.value))
  }

  function PrivateStep(s: Private, a: Act): Private {
    match a
    case ACreate(t, junk) => s.(threads := s.threads[t := PrivateThread(Dormant, junk, None)])
    case AStart(t, env) => s.(threads := s.threads[t := PrivateThread(Live, Msr(false, env.rest), None)])
    case AEnable(f) =>
      if s.executing in s.threads && s.threads[s.executing].file.None? && f.Some?
      then
        var me := s.threads[s.executing];
        s.(threads := s.threads[s.executing := PrivateThread(me.status, Msr(true, me.msr.rest), f)])
      else s
    case ASwitch(t) => s.(executing := t)
    case AVecOp(op) =>
      if s.executing in s.threads
      then s.(threads := s.threads[s.executing := s.threads[s.executing].(file := Map(op, s.threads[s.executing].file))])
      else s
    case ARestart(t, env) => s.(threads := s.threads[t := PrivateThread(Live, Msr(false, env.rest), None)])
    case ADelete(t) => s.(threads := s.threads - {t})
    case AStutter => s
  }

  /** The context a new owner starts with: what the granted memory holds, with VRSAVE all ones
      and VSCR zero. */
  function FreshFile(m: Machine, p: int): Option<VecFile> {
    var (h, vp) := ExtAlloc(m.heap, p);
    if vp == 0 then None else Some(FileIn(InitContext(h.mem, vp), vp))
  }

  ghost function Label(m: Machine, x: Step): Act {
    if !Possible(m, x) then AStutter
    else match x
      case Create(t, junk) => ACreate(t, junk)
      case Start(t, env) => AStart(t, env)
      case Enable(p) => AEnable(FreshFile(m, p))
      case Switch(t) => ASwitch(t)
      case VecOp(op) => AVecOp(op)
      case Restart(t, env) => ARestart(t, env)
      case Delete(t) => ADelete(t)
      case OtherWrite(_, _) => AStutter
  }

  /** The vector context of a thread, wherever it is kept. */
  function Logical(m: Machine, t: Tid): Option<VecFile> {
    if Slot(m, t) == 0 then None
    else Some(if m.owner == Some(t) then m.regs else FileIn(m.heap.mem, Slot(m, t)))
  }

  /** The MSR that a thread runs with: the live one, or the one it will get back. */
  function Effective(m: Machine, t: Tid): Msr
    requires t in m.threads
  {
    if t == m.executing then m.msr else m.threads[t].msr
  }

  function View(m: Machine, t: Tid): PrivateThread
    requires t in m.threads
  {
    PrivateThread(m.threads[t].status, Effective(m, t), Logical(m, t))
  }

  function Abs(m: Machine): Private {
    Private(map t | t in m.threads :: View(m, t), m.executing)
  }

  ghost function PrivateRuns(s: Private, acts: seq<Act>): Private
    decreases |acts|
  {
    if acts == [] then s else PrivateRuns(PrivateStep(s, acts[0]), acts[1..])
  }

  ghost function Labels(m: Machine, xs: seq<Step>): seq<Act>
    requires m.regs.Ok()
    decreases |xs|
  {
    if xs == [] then [] else [Label(m, xs[0])] + Labels(Next(m, xs[0]), xs[1..])
  }

  // The invariant.

  /** The contexts in use. */
  function Contexts(m: Machine): map<Tid, int> {
    map t | t in m.threads && m.threads[t].slot != 0 :: m.threads[t].slot
  }

  /** Every context is an aligned area of a block of its own, and no block is lost. */
  ghost predicate Housed(h: Heap, ctx: map<Tid, int>) {
    && VecHeap.Ok(h)
    && (forall t {:trigger IsContext(h, ctx[t])} | t in ctx :: IsContext(h, ctx[t]))
    && (forall t, u {:trigger Distinct(ctx[t], ctx[u])} | t in ctx && u in ctx && t != u :: Distinct(ctx[t], ctx[u]))
    && (forall p {:trigger Used(h, ctx, p)} | p in h.blocks :: Used(h, ctx, p))
  }

  predicate Distinct(a: int, b: int) {
    a != b
  }

  ghost predicate Used(h: Heap, ctx: map<Tid, int>, p: int) {
    exists t :: t in ctx && Peek(h.mem, ctx[t] + 4) == p
  }

  /** Whether a thread runs with MSR_VE set: in the live register or in the saved one. */
  predicate Ve(m: Machine, t: Tid)
    requires t in m.threads
  {
    Effective(m, t).ve
  }

  predicate FlagOk(m: Machine, t: Tid)
    requires t in m.threads
  {
    if m.threads[t].status == Live then Ve(m, t) <==> m.threads[t].slot != 0 else m.threads[t].slot == 0
  }

  /** Enough for the switch hook: it is called in the middle of vec_task_enable as well. */
  ghost predicate Coherent(m: Machine) {
    && m.sound && m.regs.Ok() && Housed(m.heap, Contexts(m))
    && (m.owner.Some? ==> Slot(m, m.owner.value) != 0)
  }

  ghost predicate Inv(m: Machine) {
    && Coherent(m)
    && (forall t {:trigger FlagOk(m, t)} | t in m.threads :: FlagOk(m, t))
    && (m.executing in m.threads ==> Alive(m, m.executing))
    && (m.executing !in m.threads ==> !m.msr.ve)
    && (Slot(m, m.executing) != 0 ==> m.owner == Some(m.executing))
  }

  /** The state in which the extension is installed. */
  ghost predicate Initial(m: Machine) {
    && m.sound && m.regs.Ok() && m.owner == None && !m.msr.ve && Alive(m, m.executing)
    && WordAligned(m.heap.mem) && m.heap.blocks == map[]
    && (forall t | t in m.threads :: m.threads[t].slot == 0 && !m.threads[t].msr.ve)
  }

  // The heap under the contexts.

  lemma ContextLayout(h: Heap, ctx: map<Tid, int>, t: Tid)
    requires Housed(h, ctx) && t in ctx
    ensures ctx[t] >= 32 && Mapped(h.mem, ctx[t])
  {
    assert IsContext(h, ctx[t]);
    ContextInside(h, ctx[t], Peek(h.mem, ctx[t] + 4));
  }

  lemma ContextsDisjoint(h: Heap, ctx: map<Tid, int>, t: Tid, u: Tid)
    requires Housed(h, ctx) && t in ctx && u in ctx && t != u
    ensures ctx[t] + CONTEXT_SIZE <= ctx[u] || ctx[u] + CONTEXT_SIZE <= ctx[t]
  {
    assert IsContext(h, ctx[t]) && IsContext(h, ctx[u]) && Distinct(ctx[t], ctx[u]);
    ContextsApart(h, ctx[t], Peek(h.mem, ctx[t] + 4), ctx[u], Peek(h.mem, ctx[u] + 4));
  }

  /** Memory may change as long as the back pointers stay. */
  lemma BackPointersStay(h: Heap, ctx: map<Tid, int>, m: Memory)
    requires Housed(h, ctx) && h.mem.Keys <= m.Keys && WordAligned(m)
    requires forall t | t in ctx :: Peek(m, ctx[t] + 4) == Peek(h.mem, ctx[t] + 4)
    ensures Housed(h.(mem := m), ctx)
  {
    var h' := h.(mem := m);
    assert forall a :: a in h.mem ==> a in m;
    forall p | p in h.blocks
      ensures BlockOk(h', p) && Used(h', ctx, p)
    {
      assert BlockOk(h, p) && Used(h, ctx, p);
      var t :| t in ctx && Peek(h.mem, ctx[t] + 4) == p;
      assert Peek(m, ctx[t] + 4) == p;
    }
    forall t | t in ctx
      ensures IsContext(h', ctx[t])
    {
      assert IsContext(h, ctx[t]);
    }
  }

  /** Saving into one context changes no other one. */
  lemma SavingKeeps(h: Heap, ctx: map<Tid, int>, t: Tid, f: VecFile)
    requires Housed(h, ctx) && t in ctx && f.Ok()
    ensures Housed(h.(mem := Saved(h.mem, ctx[t], f)), ctx)
    ensures FileIn(Saved(h.mem, ctx[t], f), ctx[t]) == f
    ensures forall u | u in ctx && u != t :: FileIn(Saved(h.mem, ctx[t], f), ctx[u]) == FileIn(h.mem, ctx[u])
  {
    ContextLayout(h, ctx, t);
    SavedReadsBack(h.mem, ctx[t], f);
    var m := Saved(h.mem, ctx[t], f);
    forall u | u in ctx
      ensures Peek(m, ctx[u] + 4) == Peek(h.mem, ctx[u] + 4)
      ensures u != t ==> FileIn(m, ctx[u]) == FileIn(h.mem, ctx[u])
    {
      if u != t {
        ContextsDisjoint(h, ctx, t, u);
        SavedElsewhere(h.mem, ctx[t], f, ctx[u]);
      }
    }
    BackPointersStay(h, ctx, m);
  }

  /** A context as read depends on its own words only. */
  lemma SameFile(m0: Memory, m1: Memory, buf: int)
    requires forall a | buf <= a < buf + CONTEXT_SIZE :: Peek(m0, a) == Peek(m1, a)
    ensures FileIn(m0, buf) == FileIn(m1, buf)
  {
    forall r | 0 <= r < 32
      ensures Load(m0, buf + 32 + 16 * r) == Load(m1, buf + 32 + 16 * r)
    {
    }
    assert FileIn(m0, buf).v == FileIn(m1, buf).v;
  }

  /** A write outside all blocks. */
  lemma WritingKeeps(h: Heap, ctx: map<Tid, int>, a: int, x: Word)
    requires Housed(h, ctx) && a % 4 == 0 && forall t | t in ctx :: a < ctx[t] || ctx[t] + CONTEXT_SIZE <= a
    ensures Housed(h.(mem := h.mem[a := x]), ctx)
    ensures forall u | u in ctx :: FileIn(h.mem[a := x], ctx[u]) == FileIn(h.mem, ctx[u])
  {
    BackPointersStay(h, ctx, h.mem[a := x]);
    forall u | u in ctx
      ensures FileIn(h.mem[a := x], ctx[u]) == FileIn(h.mem, ctx[u])
    {
      SameFile(h.mem, h.mem[a := x], ctx[u]);
    }
  }

  /** A granted block becomes a new context. */
  lemma GrantingKeeps(h: Heap, ctx: map<Tid, int>, t: Tid, p: int)
    requires Housed(h, ctx) && t !in ctx && p != 0 && VecHeap.Grants(h, p, CONTEXT_BLOCK)
    ensures
      var (h1, vp) := ExtAlloc(h, p);
      var m := InitContext(h1.mem, vp);
      && vp != 0
      && Housed(h1.(mem := m), ctx[t := vp])
      && (forall u | u in ctx :: FileIn(m, ctx[u]) == FileIn(h.mem, ctx[u]))
  {
    var (h1, vp) := ExtAlloc(h, p);
    var h2 := h1.(mem := InitContext(h1.mem, vp));
    ContextFits(p);
    assert vp in h.mem && vp + 4 in h.mem && vp + 12 in h.mem by {
      assert VecHeap.Present(h.mem, p, CONTEXT_BLOCK);
    }
    assert h2.mem.Keys == h.mem.Keys;
    GrantKeepsOk(h, h2, p, CONTEXT_BLOCK);
    forall u | u in ctx
      ensures IsContext(h2, ctx[u]) && Distinct(ctx[u], vp) && Distinct(vp, ctx[u])
      ensures Peek(h2.mem, ctx[u] + 4) == Peek(h.mem, ctx[u] + 4)
      ensures FileIn(h2.mem, ctx[u]) == FileIn(h.mem, ctx[u])
    {
      assert IsContext(h, ctx[u]);
      GrantedApart(h, h2, ctx[u], p, vp);
    }
    forall u, v | u in ctx && v in ctx && u != v
      ensures Distinct(ctx[u], ctx[v])
    {
    }
    GrantUsed(h, h2, ctx, t, p, vp);
    GrantedHoused(h2, ctx, t, vp);
  }

  lemma GrantedHoused(h: Heap, ctx: map<Tid, int>, t: Tid, vp: int)
    requires VecHeap.Ok(h) && t !in ctx && IsContext(h, vp)
    requires forall u | u in ctx :: IsContext(h, ctx[u]) && Distinct(ctx[u], vp) && Distinct(vp, ctx[u])
    requires forall u, v | u in ctx && v in ctx && u != v :: Distinct(ctx[u], ctx[v])
    requires forall q | q in h.blocks :: Used(h, ctx[t := vp], q)
    ensures Housed(h, ctx[t := vp])
  {
  }

  /** A context that was there before the grant. */
  lemma GrantedApart(h: Heap, h2: Heap, old_vp: int, p: int, vp: int)
    requires VecHeap.Ok(h) && IsContext(h, old_vp)
    requires p != 0 && VecHeap.Grants(h, p, CONTEXT_BLOCK) && vp == ContextAt(p)
    requires 0 <= p < SPAN && h2.mem == InitContext(Poke(h.mem, vp + 4, p), vp)
    requires h2.blocks == h.blocks[p := CONTEXT_BLOCK]
    ensures IsContext(h2, old_vp) && old_vp != vp
    ensures Peek(h2.mem, old_vp + 4) == Peek(h.mem, old_vp + 4)
    ensures FileIn(h2.mem, old_vp) == FileIn(h.mem, old_vp)
  {
    var q := Peek(h.mem, old_vp + 4);
    ContextInside(h, old_vp, q);
    ContextFits(p);
    assert p + CONTEXT_BLOCK <= q || q + CONTEXT_BLOCK <= p;
    SameFile(h.mem, h2.mem, old_vp);
  }

  lemma GrantUsed(h: Heap, h2: Heap, ctx: map<Tid, int>, t: Tid, p: int, vp: int)
    requires Housed(h, ctx) && t !in ctx
    requires h2.blocks == h.blocks[p := CONTEXT_BLOCK] && Peek(h2.mem, vp + 4) == p
    requires forall u | u in ctx :: Peek(h2.mem, ctx[u] + 4) == Peek(h.mem, ctx[u] + 4)
    ensures forall q | q in h2.blocks :: Used(h2, ctx[t := vp], q)
  {
    var ctx2 := ctx[t := vp];
    forall q | q in h2.blocks
      ensures Used(h2, ctx2, q)
    {
      if q == p {
        assert t in ctx2 && ctx2[t] == vp;
      } else {
        assert Used(h, ctx, q);
        var u :| u in ctx && Peek(h.mem, ctx[u] + 4) == q;
        assert u in ctx2 && ctx2[u] == ctx[u];
      }
    }
  }

  /** Freeing a context releases its block and no other. */
  lemma FreeingKeeps(h: Heap, ctx: map<Tid, int>, t: Tid)
    requires Housed(h, ctx) && t in ctx
    ensures
      var (h', ok) := ExtFree(h, ctx[t]);
      ok && h'.mem == h.mem && Housed(h', ctx - {t})
  {
    var p := Peek(h.mem, ctx[t] + 4);
    var h' := ExtFree(h, ctx[t]).0;
    assert IsContext(h, ctx[t]);
    forall q | q in h'.blocks
      ensures BlockOk(h', q) && Used(h', ctx - {t}, q)
    {
      assert BlockOk(h, q) && Used(h, ctx, q);
      var u :| u in ctx && Peek(h.mem, ctx[u] + 4) == q;
      assert u in ctx - {t};
    }
    forall u | u in ctx - {t}
      ensures IsContext(h', ctx[u])
    {
      assert IsContext(h, ctx[u]) && Distinct(ctx[t], ctx[u]);
    }
  }

  // The steps.

  /** The switch hook moves contexts about but changes none, and puts the MSR back. */
  lemma SwitchHookKeeps(m: Machine, heir: Tid)
    requires Coherent(m)
    ensures
      var m' := SwitchHook(m, heir);
      && Coherent(m') && m'.msr == m.msr && m'.threads == m.threads && m'.executing == m.executing
      && m'.owner == (if Slot(m, heir) != 0 then Some(heir) else m.owner)
      && (forall t :: Logical(m', t) == Logical(m, t))
  {
    var vp := Slot(m, heir);
    if vp != 0 && m.owner != Some(heir) {
      var ctx := Contexts(m);
      assert heir in ctx && ctx[heir] == vp;
      assert IsContext(m.heap, vp);
      var m' := SwitchHook(m, heir);
      assert Contexts(m') == ctx;
      if m.owner.Some? {
        var o := m.owner.value;
        assert o in ctx && ctx[o] == Slot(m, o);
        assert IsContext(m.heap, ctx[o]);
        SavingKeeps(m.heap, ctx, o, m.regs);
        assert IsContext(m'.heap, vp);
      }
      forall t
        ensures Logical(m', t) == Logical(m, t)
      {
        assert Slot(m, t) != 0 ==> t in ctx && ctx[t] == Slot(m, t);
      }
    }
  }

  /** The whole of one step. */
  ghost predicate Refines(m: Machine, x: Step)
    requires m.regs.Ok()
  {
    Inv(Apply(m, x)) && Abs(Apply(m, x)) == PrivateStep(Abs(m), Label(m, x))
  }

  lemma SameContexts(m: Machine, m': Machine)
    requires forall t | t in m.threads || t in m'.threads :: Slot(m', t) == Slot(m, t)
    ensures Contexts(m') == Contexts(m)
  {
    assert forall t :: t in Contexts(m) ==> t in m.threads && Slot(m, t) == m.threads[t].slot;
    assert forall t :: t in Contexts(m') ==> t in m'.threads && Slot(m', t) == m'.threads[t].slot;
    assert forall t | t in m.threads :: t in m'.threads || Slot(m, t) == 0;
  }

  lemma AbsIs(m: Machine, s: Private)
    requires s.executing == m.executing && s.threads.Keys == m.threads.Keys
    requires forall t | t in m.threads :: s.threads[t] == View(m, t)
    ensures Abs(m) == s
  {
    assert Abs(m).threads == s.threads;
  }

  lemma StillCoherent(m: Machine, m': Machine)
    requires Coherent(m)
    requires m'.heap == m.heap && m'.sound == m.sound && m'.regs.Ok() && m'.owner == m.owner
    requires forall t :: Slot(m', t) == Slot(m, t)
    ensures Coherent(m')
  {
    SameContexts(m, m');
  }

  lemma CreateRefines(m: Machine, t: Tid, junk: Msr)
    requires Inv(m) && Possible(m, Create(t, junk))
    ensures Refines(m, Create(t, junk))
  {
    var m' := Apply(m, Create(t, junk));
    StillCoherent(m, m');
    assert forall u | u in m'.threads :: u != t ==> FlagOk(m, u);
  }

  lemma StartRefines(m: Machine, t: Tid, env: Msr)
    requires Inv(m) && Possible(m, Start(t, env))
    ensures Refines(m, Start(t, env))
  {
    var m' := Apply(m, Start(t, env));
    assert FlagOk(m, t);
    StillCoherent(m, m');
    assert forall u | u in m'.threads :: u != t ==> FlagOk(m, u);
    AbsIs(m', PrivateStep(Abs(m), AStart(t, env)));
  }

  lemma DispatchKeeps(m: Machine, t: Tid)
    requires Inv(m) && Alive(m, t)
    ensures Inv(Dispatch(m, t)) && Dispatch(m, t).threads.Keys == m.threads.Keys
    ensures forall u :: Logical(Dispatch(m, t), u) == Logical(m, u)
    ensures forall u | u in m.threads :: View(Dispatch(m, t), u) == View(m, u)
  {
    SwitchHookKeeps(m, t);
    var m1 := SwitchHook(m, t);
    var m' := SwapMsr(m1, t);
    StillCoherent(m1, m');
    forall u | u in m'.threads
      ensures FlagOk(m', u)
    {
      assert FlagOk(m, u) && FlagOk(m, t);
    }
    forall u
      ensures Logical(m', u) == Logical(m, u)
    {
      assert Logical(m1, u) == Logical(m, u) && Slot(m', u) == Slot(m1, u);
    }
  }

  lemma SwitchRefines(m: Machine, t: Tid)
    requires Inv(m) && Possible(m, Switch(t))
    ensures Refines(m, Switch(t))
  {
    DispatchKeeps(m, t);
    AbsIs(Dispatch(m, t), PrivateStep(Abs(m), ASwitch(t)));
  }

  lemma VecOpRefines(m: Machine, op: VecFile -> VecFile)
    requires Inv(m)
    ensures Refines(m, VecOp(op))
  {
    var m' := Apply(m, VecOp(op));
    assert Contexts(m') == Contexts(m);
    forall u | u in m'.threads
      ensures FlagOk(m', u)
    {
      assert FlagOk(m, u);
    }
    if m.executing in m.threads {
      assert FlagOk(m, m.executing);
    }
    assert Abs(m').threads == PrivateStep(Abs(m), AVecOp(op)).threads;
  }

  /** What the delete hook does, for vec_thread_restart as well. */
  lemma DeleteHookKeeps(m: Machine, t: Tid)
    requires Coherent(m) && t in m.threads
    ensures
      var m' := DeleteHook(m, t);
      && Coherent(m') && m'.executing == m.executing
      && m'.threads == m.threads[t := m.threads[t].(msr := m.threads[t].msr.(ve := false), slot := 0)]
      && m'.msr == (if m.owner == Some(t) && m.executing == t then m.msr.(ve := false) else m.msr)
      && m'.owner == (if m.owner == Some(t) then None else m.owner)
      && m'.regs == m.regs && m'.heap.mem == m.heap.mem
  {
    var m' := DeleteHook(m, t);
    var ctx := Contexts(m);
    if m.threads[t].slot != 0 {
      assert t in ctx && ctx[t] == m.threads[t].slot;
      FreeingKeeps(m.heap, ctx, t);
      assert Contexts(m') == ctx - {t};
    } else {
      assert Contexts(m') == ctx;
    }
  }

  lemma DeletedKeeps(m: Machine, t: Tid)
    requires Inv(m) && t in m.threads
    ensures Inv(DeleteThread(m, t))
    ensures forall u | u != t :: Logical(DeleteThread(m, t), u) == Logical(m, u)
  {
    DeleteHookKeeps(m, t);
    var m1 := DeleteHook(m, t);
    var m' := DeleteThread(m, t);
    assert FlagOk(m, t);
    StillCoherent(m1, m');
    forall u | u in m'.threads
      ensures FlagOk(m', u)
    {
      assert FlagOk(m, u);
    }
  }

  lemma DeleteRefines(m: Machine, t: Tid)
    requires Inv(m) && Possible(m, Delete(t))
    ensures Refines(m, Delete(t))
  {
    DeletedKeeps(m, t);
    DeleteHookKeeps(m, t);
    AbsIs(DeleteThread(m, t), PrivateStep(Abs(m), ADelete(t)));
  }

  lemma RestartedKeeps(m: Machine, t: Tid, env: Msr)
    requires Inv(m) && Alive(m, t)
    ensures
      var m' := RestartThread(m, t, env);
      && Inv(m') && m'.executing == m.executing
      && m'.threads.Keys == m.threads.Keys && Alive(m', t) && Slot(m', t) == 0
      && (forall u | u != t :: Logical(m', u) == Logical(m, u))
      && (forall u | u in m.threads && u != t :: m'.threads[u] == m.threads[u])
      && Effective(m', t) == Msr(false, env.rest) && (t != m.executing ==> m'.msr == m.msr)
  {
    var m0 := LoadEnv(m, t, env);
    StillCoherent(m, m0);
    DeleteHookKeeps(m0, t);
    var m1 := DeleteHook(m0, t);
    var m' := RestartThread(m, t, env);
    StillCoherent(m1, m');
    RestartedFlags(m, t, env, m0, m1);
  }

  lemma RestartedFlags(m: Machine, t: Tid, env: Msr, m0: Machine, m1: Machine)
    requires Inv(m) && Alive(m, t)
    requires m0 == LoadEnv(m, t, env) && m1 == DeleteHook(m0, t)
    requires m1.threads == m0.threads[t := m0.threads[t].(msr := m0.threads[t].msr.(ve := false), slot := 0)]
    requires m1.executing == m.executing && (t != m.executing ==> m1.msr == m.msr)
    ensures var m' := RestartThread(m, t, env); forall u | u in m'.threads :: FlagOk(m', u)
  {
    var m' := RestartThread(m, t, env);
    forall u | u in m'.threads
      ensures FlagOk(m', u)
    {
      assert FlagOk(m, u);
    }
  }

  lemma RestartRefines(m: Machine, t: Tid, env: Msr)
    requires Inv(m) && Possible(m, Restart(t, env))
    ensures Refines(m, Restart(t, env))
  {
    RestartedKeeps(m, t, env);
    AbsIs(RestartThread(m, t, env), PrivateStep(Abs(m), ARestart(t, env)));
  }

  lemma OtherWriteRefines(m: Machine, a: int, x: Word)
    requires Inv(m) && Possible(m, OtherWrite(a, x))
    ensures Refines(m, OtherWrite(a, x))
  {
    var m' := Apply(m, OtherWrite(a, x));
    var ctx := Contexts(m);
    assert Contexts(m') == ctx;
    forall t | t in ctx
      ensures a < ctx[t] || ctx[t] + CONTEXT_SIZE <= a
    {
      assert IsContext(m.heap, ctx[t]);
      ContextInside(m.heap, ctx[t], Peek(m.heap.mem, ctx[t] + 4));
    }
    WritingKeeps(m.heap, ctx, a, x);
    forall u | u in m'.threads
      ensures FlagOk(m', u) && Logical(m', u) == Logical(m, u)
    {
      assert FlagOk(m, u);
      assert Slot(m, u) != 0 ==> u in ctx && ctx[u] == Slot(m, u);
    }
    assert Abs(m').threads == Abs(m).threads;
  }

  /** vec_task_enable without memory, which still writes address 4. */
  lemma RefusedRefines(m: Machine)
    requires Inv(m) && m.executing in m.threads && !m.msr.ve
    ensures Refines(m, Enable(0))
  {
    var ctx := Contexts(m);
    forall t | t in ctx
      ensures 4 < ctx[t]
    {
      ContextLayout(m.heap, ctx, t);
    }
    WritingKeeps(m.heap, ctx, 4, 0);
    var m' := m.(heap := m.heap.(mem := m.heap.mem[4 := 0]));
    SameContexts(m, m');
    forall u | u in m'.threads
      ensures FlagOk(m', u) && Logical(m', u) == Logical(m, u)
    {
      assert FlagOk(m, u);
      assert Slot(m, u) != 0 ==> u in ctx && ctx[u] == Slot(m, u);
    }
    assert FlagOk(m, m.executing);
    assert EnableTask(m, 0).0 == m';
    AbsIs(m', PrivateStep(Abs(m), AEnable(None)));
  }

  /** Just before the switch hook runs: the new context is in its slot. */
  function Equipped(m: Machine, p: int): Machine {
    var (h, vp) := ExtAlloc(m.heap, p);
    SetSlot(m.(heap := h.(mem := InitContext(h.mem, vp)), sound := m.sound && Slot(m, m.executing) == 0),
            m.executing, vp)
  }

  lemma EquippedCoherent(m: Machine, p: int)
    requires Inv(m) && Possible(m, Enable(p)) && !m.msr.ve && p != 0
    ensures
      var m1 := Equipped(m, p);
      && Coherent(m1) && Slot(m1, m.executing) == ContextAt(p) != 0 && m1.owner != Some(m.executing)
      && FreshFile(m, p) == Logical(m1, m.executing)
      && (forall u | u != m.executing :: Logical(m1, u) == Logical(m, u))
  {
    var t, ctx := m.executing, Contexts(m);
    assert FlagOk(m, t);
    GrantingKeeps(m.heap, ctx, t, p);
    var m1 := Equipped(m, p);
    assert Contexts(m1) == ctx[t := ContextAt(p)];
    forall u | u != t
      ensures Logical(m1, u) == Logical(m, u)
    {
      assert Slot(m, u) != 0 ==> u in ctx && ctx[u] == Slot(m, u);
    }
  }

  lemma GrantedRefines(m: Machine, p: int)
    requires Inv(m) && Possible(m, Enable(p)) && !m.msr.ve && p != 0
    ensures Refines(m, Enable(p))
  {
    EquippedCoherent(m, p);
    var m1 := Equipped(m, p);
    SwitchHookKeeps(m1, m.executing);
    var m2 := SwitchHook(m1, m.executing);
    var m' := SetVe(m2, true);
    assert EnableTask(m, p).0 == m';
    StillCoherent(m2, m');
    forall u | u in m'.threads
      ensures FlagOk(m', u)
    {
      assert FlagOk(m, u);
    }
    EnabledFiles(m, p, m2, m');
  }

  lemma EnabledFiles(m: Machine, p: int, m2: Machine, m': Machine)
    requires Inv(m) && Possible(m, Enable(p)) && m' == SetVe(m2, true)
    requires m2.executing == m.executing && m2.msr == m.msr && m2.threads == Equipped(m, p).threads
    requires FreshFile(m, p).Some?
    requires FreshFile(m, p) == Logical(m2, m.executing) && Slot(m, m.executing) == 0
    requires forall u | u != m.executing :: Logical(m2, u) == Logical(m, u)
    ensures Abs(m') == PrivateStep(Abs(m), AEnable(FreshFile(m, p)))
  {
    assert forall u :: Logical(m', u) == Logical(m2, u);
    AbsIs(m', PrivateStep(Abs(m), AEnable(FreshFile(m, p))));
  }

  lemma EnableRefines(m: Machine, p: int)
    requires Inv(m) && Possible(m, Enable(p))
    ensures Refines(m, Enable(p))
  {
    if m.msr.ve {
      assert FlagOk(m, m.executing);
    } else if p == 0 {
      RefusedRefines(m);
    } else {
      GrantedRefines(m, p);
    }
  }

  /** What vec_task_enable returns: an error if the thread has a context already, "no memory" if
      the allocator refuses, success otherwise. */
  lemma EnableResults(m: Machine, p: int)
    requires Inv(m) && Possible(m, Enable(p))
    ensures EnableTask(m, p).1 == AlreadyEnabled <==> Slot(m, m.executing) != 0
    ensures EnableTask(m, p).1 == NoMemory <==> Slot(m, m.executing) == 0 && p == 0
    ensures EnableTask(m, p).1 == Enabled <==> Slot(m, m.executing) == 0 && p != 0
  {
    assert FlagOk(m, m.executing);
    if p != 0 {
      ContextFits(p);
    }
  }

  /** One step of the lazy machine is one step of the simple one and keeps the invariant. */
  lemma StepRefines(m: Machine, x: Step)
    requires Inv(m)
    ensures Inv(Next(m, x)) && Abs(Next(m, x)) == PrivateStep(Abs(m), Label(m, x))
  {
    if Possible(m, x) {
      match x
      case Create(t, junk) => CreateRefines(m, t, junk);
      case Start(t, env) => StartRefines(m, t, env);
      case Enable(p) => EnableRefines(m, p);
      case Switch(t) => SwitchRefines(m, t);
      case VecOp(op) => VecOpRefines(m, op);
      case Restart(t, env) => RestartRefines(m, t, env);
      case Delete(t) => DeleteRefines(m, t);
      case OtherWrite(a, y) => OtherWriteRefines(m, a, y);
    }
  }

  lemma InitialInv(m: Machine)
    requires Initial(m)
    ensures Inv(m)
    ensures forall t :: Logical(m, t) == None
  {
    assert Contexts(m) == map[];
  }

  /** The refinement theorem: over every run of steps, in any order, lazy switching looks like
      vector registers of one's own. */
  lemma {:induction false} RunsRefine(m: Machine, xs: seq<Step>)
    requires Inv(m)
    ensures Inv(Runs(m, xs))
    ensures Abs(Runs(m, xs)) == PrivateRuns(Abs(m), Labels(m, xs))
    decreases |xs|
  {
    if xs != [] {
      StepRefines(m, xs[0]);
      RunsRefine(Next(m, xs[0]), xs[1..]);
      assert Labels(m, xs)[1..] == Labels(Next(m, xs[0]), xs[1..]);
    }
  }

  /** The operations that thread t executes in a run. */
  ghost function OwnOps(m: Machine, xs: seq<Step>, t: Tid): seq<VecFile -> VecFile>
    requires m.regs.Ok()
    decreases |xs|
  {
    if xs == [] then []
    else
      (if xs[0].VecOp? && m.executing == t then [xs[0].op] else []) + OwnOps(Next(m, xs[0]), xs[1..], t)
  }

  function AfterOps(f: VecFile, ops: seq<VecFile -> VecFile>): VecFile
    decreases |ops|
  {
    if ops == [] then f else AfterOps(Effect(ops[0], f), ops[1..])
  }

  predicate Spares(x: Step, t: Tid) {
    match x
    case Restart(u, _) => u != t
    case Delete(u) => u != t
    case _ => true
  }

  predicate ActSpares(a: Act, t: Tid) {
    match a
    case ACreate(u, _) => u != t
    case AStart(u, _) => u != t
    case ARestart(u, _) => u != t
    case ADelete(u) => u != t
    case _ => true
  }

  /** In the simple machine this is plain. */
  lemma PrivateOwnStep(s: Private, a: Act, t: Tid)
    requires t in s.threads && s.threads[t].file.Some? && ActSpares(a, t)
    ensures
      var s' := PrivateStep(s, a);
      && t in s'.threads
      && s'.threads[t].file == if a.AVecOp? && s.executing == t then Map(a.op, s.threads[t].file) else s.threads[t].file
  {
  }

  lemma LabelSpares(m: Machine, x: Step, t: Tid)
    requires Inv(m) && Slot(m, t) != 0 && Spares(x, t)
    ensures ActSpares(Label(m, x), t)
    ensures Label(m, x).AVecOp? <==> x.VecOp?
    ensures x.VecOp? ==> Label(m, x) == AVecOp(x.op)
  {
    assert FlagOk(m, t);
  }

  lemma OwnStep(m: Machine, x: Step, t: Tid)
    requires Inv(m) && Logical(m, t).Some? && Spares(x, t)
    ensures
      Logical(Next(m, x), t) == if x.VecOp? && m.executing == t then Map(x.op, Logical(m, t)) else Logical(m, t)
  {
    StepRefines(m, x);
    LabelSpares(m, x, t);
    PrivateOwnStep(Abs(m), Label(m, x), t);
    AbsFile(Next(m, x), t);
  }

  lemma AbsFile(m: Machine, t: Tid)
    requires t in Abs(m).threads
    ensures Abs(m).threads[t].file == Logical(m, t)
  {
  }

  /** As long as a thread is neither restarted nor deleted, its vector context is what its own
      vector operations made of it: no switch, and nothing that another thread does, is
      visible in it. */
  lemma {:induction false} OnlyOwnOps(m: Machine, xs: seq<Step>, t: Tid)
    requires Inv(m) && Logical(m, t).Some?
    requires forall i | 0 <= i < |xs| :: Spares(xs[i], t)
    ensures Logical(Runs(m, xs), t) == Some(AfterOps(Logical(m, t).value, OwnOps(m, xs, t)))
    decreases |xs|
  {
    if xs != [] {
      StepRefines(m, xs[0]);
      OwnStep(m, xs[0], t);
      var m1 := Next(m, xs[0]);
      OnlyOwnOps(m1, xs[1..], t);
      var rest := OwnOps(m1, xs[1..], t);
      if xs[0].VecOp? && m.executing == t {
        assert OwnOps(m, xs, t) == [xs[0].op] + rest;
        assert OwnOps(m, xs, t)[1..] == rest;
      } else {
        assert OwnOps(m, xs, t) == rest;
      }
    }
  }

  /** What the invariant says in every state that a run from the installation reaches. */
  lemma ReachableStates(m: Machine, xs: seq<Step>)
    requires Initial(m)
    ensures
      var m' := Runs(m, xs);
      && m'.sound
      && (forall t | Alive(m', t) :: Ve(m', t) <==> Slot(m', t) != 0)
      && (Slot(m', m'.executing) != 0 ==> m'.owner == Some(m'.executing))
      && (m'.owner.Some? ==> Slot(m', m'.owner.value) != 0 && IsContext(m'.heap, Slot(m', m'.owner.value)))
      && (forall t | t in m'.threads && Slot(m', t) != 0 :: IsContext(m'.heap, Slot(m', t)))
      && (forall t, u | t in m'.threads && u in m'.threads && t != u && Slot(m', t) != 0 :: Slot(m', t) != Slot(m', u))
      && ((forall t | t in m'.threads :: Slot(m', t) == 0) ==> m'.heap.blocks == map[])
  {
    InitialInv(m);
    RunsRefine(m, xs);
    var m' := Runs(m, xs);
    var ctx := Contexts(m');
    forall t | t in m'.threads
      ensures FlagOk(m', t)
      ensures Slot(m', t) != 0 ==> t in ctx && ctx[t] == Slot(m', t) && IsContext(m'.heap, ctx[t])
    {
    }
    forall t, u | t in ctx && u in ctx && t != u
      ensures Distinct(ctx[t], ctx[u])
    {
    }
    if forall t | t in m'.threads :: Slot(m', t) == 0 {
      assert ctx == map[];
      forall p
        ensures p !in m'.heap.blocks
      {
        assert p in m'.heap.blocks ==> Used(m'.heap, ctx, p);
      }
      assert m'.heap.blocks.Keys == {};
    }
  }

  /** A newly enabled thread starts with VRSAVE all ones and VSCR zero, and owns the registers. */
  lemma FreshContext(m: Machine, p: int)
    requires Inv(m) && Possible(m, Enable(p)) && !m.msr.ve && p != 0
    ensures
      var (m', r) := EnableTask(m, p);
      && r == Enabled && m'.owner == Some(m.executing) && m'.msr == m.msr.(ve := true)
      && m'.regs.vrsave == 0xffff_ffff && m'.regs.vscr == 0
  {
    EquippedCoherent(m, p);
    SwitchHookKeeps(Equipped(m, p), m.executing);
    ContextFits(p);
  }
}
