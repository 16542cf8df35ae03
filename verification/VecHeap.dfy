/** Aligned areas inside heap blocks, with a back pointer to the block: extalloc, extfree and
    init_vec_ctxt (altivec/vec_context.c) and vec_malloc, vec_free, vec_calloc
    (altivec/vec_alloc.c). */
module VecHeap {
  import opened VecIsa

  const SPAN := 0x1_0000_0000
  const CONTEXT_BLOCK := CONTEXT_SIZE + 32 - 4

  /** Memory, and the blocks the underlying allocator has handed out: base to size. */
  datatype Heap = Heap(mem: Memory, blocks: map<int, nat>)

  predicate Present(mem: Memory, p: int, n: int) {
    forall a | p <= a < p + n && a % 4 == 0 :: a in mem
  }

  predicate BlockOk(h: Heap, p: int)
    requires p in h.blocks
  {
    p > 0 && p % 4 == 0 && p + h.blocks[p] <= SPAN && Present(h.mem, p, h.blocks[p])
  }

  ghost predicate Ok(h: Heap) {
    && WordAligned(h.mem)
    && (forall p {:trigger BlockOk(h, p)} | p in h.blocks :: BlockOk(h, p))
    && (forall p, q | p in h.blocks && q in h.blocks && p < q :: p + h.blocks[p] <= q)
  }

  /** What the underlying allocator may answer to a request for n bytes: nothing, or a word
      aligned block of existing memory that overlaps no other block. */
  ghost predicate Grants(h: Heap, p: int, n: nat) {
    || p == 0
    || (&& p > 0 && p % 4 == 0 && p + n <= SPAN && p !in h.blocks && Present(h.mem, p, n)
        && (forall q | q in h.blocks :: p + n <= q || q + h.blocks[q] <= p)
        && (forall q | q in h.blocks :: p < q || q < p))
  }

  function Poke(mem: Memory, a: int, x: int): Memory {
    if 0 <= x < SPAN then mem[a := x] else mem
  }

  /** (p + 28) & ~31 */
  function ContextAt(p: int): int {
    p + 28 - (p + 28) % 32
  }

  /** (p + 16) & ~15 */
  function AreaAt(p: int): int {
    p + 16 - (p + 16) % 16
  }

  /** extalloc; p is the answer of the workspace allocator. The back pointer is written even
      if that answer is null, to address 4. */
  function ExtAlloc(h: Heap, p: int): (r: (Heap, int)) {
    var vc := ContextAt(p);
    var blocks := if p == 0 then h.blocks else h.blocks[p := CONTEXT_BLOCK];
    (Heap(Poke(h.mem, vc + 4, p), blocks), vc)
  }

  /** free: the flag says that p was the base of a block. */
  function Free(h: Heap, p: int): (r: (Heap, bool)) {
    (h.(blocks := h.blocks - {p}), p in h.blocks)
  }

  function ExtFree(h: Heap, vc: int): (r: (Heap, bool)) {
    Free(h, Peek(h.mem, vc + 4))
  }

  /** init_vec_ctxt. */
  function InitContext(mem: Memory, vc: int): Memory {
    mem[vc := 0xffff_ffff][vc + 12 := 0]
  }

  /** The request that vec_malloc passes on: size_t has 32 bits. */
  function Request(s: nat): nat {
    (s + 16) % SPAN
  }

  function VecMalloc(h: Heap, s: nat, p: int): (r: (Heap, int)) {
    if s == 0 || p == 0 then (h, 0)
    else (Heap(Poke(h.mem, AreaAt(p) - 4, p), h.blocks[p := Request(s)]), AreaAt(p))
  }

  function VecFree(h: Heap, v: int): (r: (Heap, bool)) {
    if v == 0 then (h, true) else Free(h, Peek(h.mem, v - 4))
  }

  /** memset to zero, of s bytes from the word at v on; words are big-endian. */
  function Cleared(mem: Memory, v: int, s: nat): Memory {
    map a | a in mem ::
      if v <= a && a + 4 <= v + s then 0
      else if v <= a < v + s then mem[a] % Low(v + s - a)
      else mem[a]
  }

  function Low(bytes: int): (m: int)
    ensures 0 < m <= SPAN
  {
    if bytes == 1 then 0x100_0000 else if bytes == 2 then 0x1_0000 else if bytes == 3 then 0x100 else 1
  }

  function VecCalloc(h: Heap, n: nat, s: nat, p: int): (r: (Heap, int)) {
    var total := s * n % SPAN;
    var (h', v) := VecMalloc(h, total, p);
    if v == 0 then (h', v) else (h'.(mem := Cleared(h'.mem, v, total)), v)
  }

  /** The heap that the C functions update in place; granted and answer stand for what the
      underlying allocator returns. */
  class AlignedHeap {
    var mem: Memory
    var blocks: map<int, nat>

    ghost function State(): Heap
      reads this
    {
      Heap(mem, blocks)
    }

    constructor (m: Memory)
      ensures State() == Heap(m, map[])
    {
      mem, blocks := m, map[];
    }

    method Allocate(granted: int, n: nat)
      modifies this
      ensures mem == old(mem) && blocks == if granted == 0 then old(blocks) else old(blocks)[granted := n]
    {
      if granted != 0 {
        blocks := blocks[granted := n];
      }
    }

    method ExtAllocate(granted: int) returns (vc: int)
      requires 0 <= granted < SPAN
      modifies this
      ensures (State(), vc) == ExtAlloc(old(State()), granted)
    {
      Allocate(granted, CONTEXT_BLOCK);
      vc := granted + 32 - 4;
      vc := vc - vc % 32;
      mem := mem[vc + 4 := granted];
    }

    method Release(p: int) returns (ok: bool)
      modifies this
      ensures (State(), ok) == Free(old(State()), p)
    {
      ok := p in blocks;
      blocks := blocks - {p};
    }

    method ExtRelease(vc: int) returns (ok: bool)
      modifies this
      ensures (State(), ok) == ExtFree(old(State()), vc)
    {
      ok := Release(Peek(mem, vc + 4));
    }

    method Malloc(s: nat, granted: int) returns (v: int)
      requires 0 <= granted < SPAN
      modifies this
      ensures (State(), v) == VecMalloc(old(State()), s, granted)
    {
      if s == 0 {
        return 0;
      }
      Allocate(granted, (s + 16) % SPAN);
      if granted == 0 {
        return 0;
      }
      v := granted + 16;
      v := v - v % 16;
      mem := mem[v - 4 := granted];
    }

    method FreeArea(v: int) returns (ok: bool)
      modifies this
      ensures (State(), ok) == VecFree(old(State()), v)
    {
      ok := true;
      if v != 0 {
        ok := Release(Peek(mem, v - 4));
      }
    }

    method Calloc(n: nat, s: nat, granted: int) returns (v: int)
      requires 0 <= granted < SPAN
      modifies this
      ensures (State(), v) == VecCalloc(old(State()), n, s, granted)
    {
      var total := s * n % SPAN;
      v := Malloc(total, granted);
      if v != 0 {
        mem := Cleared(mem, v, total);
      }
    }
  }

  // Layout.

  /** A context area: where the back pointer leads back to. */
  predicate ContextIn(h: Heap, vc: int, p: int) {
    && p in h.blocks && h.blocks[p] == CONTEXT_BLOCK && vc == ContextAt(p) && Peek(h.mem, vc + 4) == p
  }

  /** The aligned context lies inside its block. */
  lemma ContextInside(h: Heap, vc: int, p: int)
    requires Ok(h) && ContextIn(h, vc, p)
    ensures vc % 32 == 0 && p <= vc && vc + 544 <= p + 572
    ensures vc >= 32 && Mapped(h.mem, vc)
  {
    assert BlockOk(h, p);
    ContextFits(p);
    assert forall a | vc <= a < vc + CONTEXT_SIZE && a % 4 == 0 :: p <= a < p + h.blocks[p];
  }

  lemma ContextFits(p: int)
    requires p > 0 && p % 4 == 0
    ensures var vc := ContextAt(p); vc % 32 == 0 && vc % 16 == 0 && p <= vc <= p + 28 && vc >= 32
  {
    assert (p + 28) % 32 % 4 == 0;
  }

  lemma AreaFits(p: int)
    requires p > 0 && p % 4 == 0
    ensures var v := AreaAt(p); v % 16 == 0 && p + 4 <= v <= p + 16
  {
    assert (p + 16) % 16 % 4 == 0;
  }

  /** 572 bytes are just enough: some bases leave no byte to spare. */
  lemma BlockIsTight(p: int)
    requires p % 32 == 4
    ensures ContextAt(p) + 544 == p + 572 && CONTEXT_SIZE == 544 && CONTEXT_BLOCK == 572
  {
  }

  lemma ContextsApart(h: Heap, v1: int, p1: int, v2: int, p2: int)
    requires Ok(h) && ContextIn(h, v1, p1) && ContextIn(h, v2, p2) && p1 != p2
    ensures v1 + CONTEXT_SIZE <= v2 || v2 + CONTEXT_SIZE <= v1
  {
    ContextInside(h, v1, p1);
    ContextInside(h, v2, p2);
    assert p1 < p2 || p2 < p1;
  }

  /** A plain area fits its block, back pointer included, whatever base is granted, exactly
      if the request does not wrap around. */
  lemma AreaInsideIff(s: nat, p: int)
    requires 0 < s < SPAN && p > 0 && p % 4 == 0
    ensures (p <= AreaAt(p) - 4 && AreaAt(p) + s <= p + Request(s)) <==> s + 16 < SPAN
  {
    AreaFits(p);
  }

  /** The same for vec_calloc, where the product can wrap around as well. */
  lemma CallocInsideIff(n: nat, s: nat, p: int)
    requires s * n % SPAN != 0 && p > 0 && p % 4 == 0
    ensures (p <= AreaAt(p) - 4 && AreaAt(p) + s * n <= p + Request(s * n % SPAN)) <==> s * n + 16 < SPAN
  {
    AreaFits(p);
    var total := s * n;
    assert total % SPAN <= total;
    if total < SPAN {
      AreaInsideIff(total, p);
    }
  }

  /** The largest size: its request wraps around to 15 bytes, and the area is far too small. */
  lemma LargestSizeTooSmall(p: int)
    requires p > 0 && p % 4 == 0
    ensures Request(SPAN - 1) == 15 && AreaAt(p) + (SPAN - 1) > p + Request(SPAN - 1)
  {
    AreaInsideIff(SPAN - 1, p);
    AreaFits(p);
  }

  // Runs.

  /** What the clients hold. The base is recorded here only to be compared with what is freed. */
  datatype Area = Context(base: int) | Plain(base: int, size: nat)

  datatype World = World(heap: Heap, areas: map<int, Area>, granted: multiset<int>, released: multiset<int>, ok: bool)

  datatype Event =
    | AllocContext(p: int)
    | AllocPlain(s: nat, p: int)
    | AllocCleared(n: nat, s: nat, p: int)
    | Release(v: int)
    | Write(v: int, a: int, x: Word)
    | Initialise(v: int)
    | SaveInto(v: int, f: VecFile)

  function BackAt(v: int, ar: Area): int {
    if ar.Context? then v + 4 else v - 4
  }

  function BlockSize(ar: Area): nat {
    if ar.Context? then CONTEXT_BLOCK else ar.size + 16
  }

  function StartOf(ar: Area): int {
    if ar.Context? then ContextAt(ar.base) else AreaAt(ar.base)
  }

  /** The words a client may write: all of its area except a back pointer. */
  predicate Writable(v: int, ar: Area, a: int) {
    && a % 4 == 0 && v <= a && a != BackAt(v, ar)
    && a + 4 <= v + (if ar.Context? then CONTEXT_SIZE else ar.size)
  }

  ghost predicate Possible(w: World, e: Event) {
    match e
    case AllocContext(p) => Grants(w.heap, p, CONTEXT_BLOCK)
    case AllocPlain(s, p) => s + 16 < SPAN && Grants(w.heap, p, s + 16)
    case AllocCleared(n, s, p) => s * n + 16 < SPAN && Grants(w.heap, p, s * n + 16)
    case Release(v) => v in w.areas
    case Write(v, a, _) => v in w.areas && Writable(v, w.areas[v], a)
    case Initialise(v) => v in w.areas && w.areas[v].Context?
    case SaveInto(v, f) => v in w.areas && w.areas[v].Context? && f.Ok()
  }

  ghost function Added(w: World, h: Heap, v: int, ar: Area): World {
    if v == 0 then w.(heap := h)
    else w.(heap := h, areas := w.areas[v := ar], granted := w.granted + multiset{ar.base})
  }

  ghost function Removed(w: World, h: Heap, ok: bool, v: int, p: int): World {
    w.(heap := h, areas := w.areas - {v}, released := w.released + multiset{p}, ok := w.ok && ok)
  }

  ghost function Apply(w: World, e: Event): World
    requires Possible(w, e)
  {
    match e
    case AllocContext(p) =>
      var (h, v) := ExtAlloc(w.heap, p);
      Added(w, h, v, Context(p))
    case AllocPlain(s, p) =>
      var (h, v) := VecMalloc(w.heap, s, p);
      Added(w, h, v, Plain(p, s))
    case AllocCleared(n, s, p) =>
      var (h, v) := VecCalloc(w.heap, n, s, p);
      Added(w, h, v, Plain(p, s * n))
    case Release(v) =>
      var (h, ok) := if w.areas[v].Context? then ExtFree(w.heap, v) else VecFree(w.heap, v);
      Removed(w, h, ok, v, Peek(w.heap.mem, BackAt(v, w.areas[v])))
    case _ => w.(heap := w.heap.(mem := Written(w.heap.mem, e)))
  }

  /** What a client does to memory. */
  function Written(mem: Memory, e: Event): Memory
    requires e.SaveInto? ==> e.f.Ok()
  {
    match e
    case Write(v, a, x) => mem[a := x]
    case Initialise(v) => InitContext(mem, v)
    case SaveInto(v, f) => Saved(mem, v, f)
    case _ => mem
  }

  /** Events that cannot happen are skipped. */
  ghost function Runs(w: World, es: seq<Event>): World
    decreases |es|
  {
    if es == [] then w
    else Runs(if Possible(w, es[0]) then Apply(w, es[0]) else w, es[1..])
  }

  /** An area and its back pointer are where they belong. */
  ghost predicate AreaOk(h: Heap, v: int, ar: Area) {
    && ar.base in h.blocks && h.blocks[ar.base] == BlockSize(ar)
    && v == StartOf(ar) && (ar.Plain? ==> ar.size > 0)
    && Peek(h.mem, BackAt(v, ar)) == ar.base
  }

  predicate Apart(a: Area, b: Area) {
    a.base != b.base
  }

  ghost predicate Balanced(w: World) {
    w.granted == w.released + multiset(w.heap.blocks.Keys)
  }

  ghost predicate Good(w: World) {
    && w.ok && Ok(w.heap) && Balanced(w)
    && AreasOk(w.heap, w.areas) && Unshared(w.areas) && NoLeak(w)
  }

  ghost predicate AreasOk(h: Heap, areas: map<int, Area>) {
    forall v {:trigger AreaOk(h, v, areas[v])} | v in areas :: AreaOk(h, v, areas[v])
  }

  ghost predicate Unshared(areas: map<int, Area>) {
    forall v, u | v in areas && u in areas && v != u :: Apart(areas[v], areas[u])
  }

  ghost predicate NoLeak(w: World) {
    forall p {:trigger Held(w, p)} | p in w.heap.blocks :: Held(w, p)
  }

  /** Some client can still free the block. */
  ghost predicate Held(w: World, p: int) {
    exists v :: v in w.areas && w.areas[v].base == p
  }

  ghost predicate Initial(w: World) {
    w.ok && WordAligned(w.heap.mem) && w.heap.blocks == map[] && w.areas == map[]
    && w.granted == multiset{} && w.released == multiset{}
  }

  /** The extent of an area, back pointer included, lies inside its own block. */
  lemma AreaExtent(h: Heap, v: int, ar: Area)
    requires Ok(h) && AreaOk(h, v, ar)
    ensures ar.base <= v < ar.base + BlockSize(ar)
    ensures ar.base <= BackAt(v, ar) && BackAt(v, ar) + 4 <= ar.base + BlockSize(ar)
    ensures v + (if ar.Context? then CONTEXT_SIZE else ar.size) <= ar.base + BlockSize(ar)
    ensures v % 16 == 0 && v > 0 && (ar.Context? ==> v % 32 == 0)
  {
    assert BlockOk(h, ar.base);
    if ar.Context? {
      ContextFits(ar.base);
    } else {
      AreaFits(ar.base);
    }
  }

  /** No two areas of a good world overlap, back pointers included. */
  lemma AreasDisjoint(w: World, v: int, u: int)
    requires Good(w) && v in w.areas && u in w.areas && v != u
    ensures
      var (a, b) := (w.areas[v], w.areas[u]);
      a.base + BlockSize(a) <= b.base || b.base + BlockSize(b) <= a.base
  {
    assert AreaOk(w.heap, v, w.areas[v]) && AreaOk(w.heap, u, w.areas[u]);
    assert Apart(w.areas[v], w.areas[u]);
  }

  /** Memory changed in place: the same words, and outside lo to hi the same contents. */
  ghost predicate Within(m0: Memory, m1: Memory, lo: int, hi: int) {
    && m1.Keys == m0.Keys
    && (forall a | a in m0 && (a < lo || hi <= a) :: m1[a] == m0[a])
  }

  /** Such a change to one block, its back pointer excepted, keeps the world good. */
  lemma WriteKeeps(w: World, v: int, m: Memory)
    requires Good(w) && v in w.areas
    requires
      var ar := w.areas[v];
      && Within(w.heap.mem, m, ar.base, ar.base + BlockSize(ar))
      && Peek(m, BackAt(v, ar)) == Peek(w.heap.mem, BackAt(v, ar))
    ensures Good(w.(heap := w.heap.(mem := m)))
  {
    var w' := w.(heap := w.heap.(mem := m));
    SameWords(w.heap, m);
    forall u | u in w'.areas
      ensures AreaOk(w'.heap, u, w'.areas[u])
    {
      assert AreaOk(w.heap, u, w.areas[u]);
      if u != v {
        AreaExtent(w.heap, u, w.areas[u]);
        AreasDisjoint(w, v, u);
      }
    }
    forall p | p in w'.heap.blocks
      ensures Held(w', p)
    {
      assert Held(w, p);
    }
  }

  lemma SameWords(h: Heap, m: Memory)
    requires Ok(h) && m.Keys == h.mem.Keys
    ensures Ok(h.(mem := m))
  {
    assert forall a :: a in m <==> a in h.mem;
    assert forall p | p in h.blocks :: BlockOk(h, p);
  }

  /** A granted block takes a new area. */
  lemma AllocKeeps(w: World, h: Heap, v: int, ar: Area)
    requires Good(w) && ar.base != 0 && Grants(w.heap, ar.base, BlockSize(ar))
    requires h.blocks == w.heap.blocks[ar.base := BlockSize(ar)] && v == StartOf(ar)
    requires Peek(h.mem, BackAt(v, ar)) == ar.base && (ar.Plain? ==> ar.size > 0)
    requires Within(w.heap.mem, h.mem, ar.base, ar.base + BlockSize(ar))
    ensures Good(Added(w, h, v, ar))
  {
    GrantKeepsOk(w.heap, h, ar.base, BlockSize(ar));
    var w' := Added(w, h, v, ar);
    AreaExtent(h, v, ar);
    OldAreas(w, h, ar, v);
    AllHeld(w, w', v, ar);
    AddedBalances(w, h, v, ar);
  }

  lemma OldAreas(w: World, h: Heap, ar: Area, v: int)
    requires Good(w) && Ok(h) && AreaOk(h, v, ar) && ar.base !in w.heap.blocks
    requires h.blocks == w.heap.blocks[ar.base := BlockSize(ar)]
    requires Within(w.heap.mem, h.mem, ar.base, ar.base + BlockSize(ar))
    ensures v !in w.areas && AreasOk(h, w.areas[v := ar]) && Unshared(w.areas[v := ar])
  {
    forall u | u in w.areas
      ensures u != v && AreaOk(h, u, w.areas[u]) && Apart(ar, w.areas[u]) && Apart(w.areas[u], ar)
    {
      OldArea(w, h, ar, v, u);
    }
  }

  lemma AddedBalances(w: World, h: Heap, v: int, ar: Area)
    requires Balanced(w) && ar.base !in w.heap.blocks && v != 0
    requires h.blocks.Keys == w.heap.blocks.Keys + {ar.base}
    ensures Balanced(Added(w, h, v, ar))
  {
  }

  lemma AllHeld(w: World, w': World, v: int, ar: Area)
    requires NoLeak(w)
    requires w'.areas == w.areas[v := ar] && v !in w.areas
    requires forall p | p in w'.heap.blocks :: p == ar.base || p in w.heap.blocks
    ensures NoLeak(w')
  {
    forall p | p in w'.heap.blocks
      ensures Held(w', p)
    {
      if p != ar.base {
        assert Held(w, p);
        var u :| u in w.areas && w.areas[u].base == p;
        assert u in w'.areas && w'.areas[u] == w.areas[u];
      } else {
        assert v in w'.areas && w'.areas[v].base == p;
      }
    }
  }

  /** An area that was there before. */
  lemma OldArea(w: World, h: Heap, ar: Area, v: int, u: int)
    requires Good(w) && u in w.areas
    requires Ok(h) && AreaOk(h, v, ar) && ar.base !in w.heap.blocks
    requires h.blocks == w.heap.blocks[ar.base := BlockSize(ar)]
    requires Within(w.heap.mem, h.mem, ar.base, ar.base + BlockSize(ar))
    ensures u != v && AreaOk(h, u, w.areas[u]) && ar.base != w.areas[u].base
  {
    var was := w.areas[u];
    assert AreaOk(w.heap, u, was);
    AreaExtent(w.heap, u, was);
    AreaExtent(h, v, ar);
    assert was.base in h.blocks && h.blocks[was.base] == BlockSize(was) && was.base != ar.base;
    assert was.base < ar.base || ar.base < was.base;
    assert was.base + BlockSize(was) <= ar.base || ar.base + BlockSize(ar) <= was.base;
    assert BackAt(u, was) in w.heap.mem by {
      assert BlockOk(w.heap, was.base);
    }
  }

  lemma GrantKeepsOk(h0: Heap, h: Heap, p: int, n: nat)
    requires Ok(h0) && p != 0 && Grants(h0, p, n)
    requires h.blocks == h0.blocks[p := n] && h.mem.Keys == h0.mem.Keys
    ensures Ok(h)
  {
    assert forall a :: a in h.mem <==> a in h0.mem;
    forall q | q in h.blocks
      ensures BlockOk(h, q)
    {
      if q != p {
        assert BlockOk(h0, q);
      }
    }
  }

  lemma FreeKeeps(w: World, v: int)
    requires Good(w) && v in w.areas
    ensures
      var ar := w.areas[v];
      && Peek(w.heap.mem, BackAt(v, ar)) == ar.base && ar.base in w.heap.blocks
      && Good(Removed(w, w.heap.(blocks := w.heap.blocks - {ar.base}), true, v, ar.base))
  {
    var ar := w.areas[v];
    assert AreaOk(w.heap, v, ar);
    var h := w.heap.(blocks := w.heap.blocks - {ar.base});
    var w' := Removed(w, h, true, v, ar.base);
    assert forall p | p in h.blocks :: BlockOk(w.heap, p) ==> BlockOk(h, p);
    forall p | p in h.blocks
      ensures Held(w', p)
    {
      assert Held(w, p);
      var u :| u in w.areas && w.areas[u].base == p;
      assert u in w'.areas && w'.areas[u] == w.areas[u];
    }
    forall u | u in w'.areas
      ensures AreaOk(h, u, w'.areas[u])
    {
      assert AreaOk(w.heap, u, w.areas[u]);
      assert Apart(w.areas[v], w.areas[u]);
    }
    assert h.blocks.Keys == w.heap.blocks.Keys - {ar.base};
  }

  /** A refused context still writes address 4; no area reaches that low. */
  lemma RefusalKeeps(w: World)
    requires Good(w)
    ensures ContextAt(0) == 0 && Good(w.(heap := w.heap.(mem := w.heap.mem[4 := 0])))
  {
    var w' := w.(heap := w.heap.(mem := w.heap.mem[4 := 0]));
    forall p | p in w.heap.blocks
      ensures BlockOk(w'.heap, p) && Held(w', p)
    {
      assert BlockOk(w.heap, p) && Held(w, p);
    }
    forall v | v in w.areas
      ensures AreaOk(w'.heap, v, w.areas[v])
    {
      assert AreaOk(w.heap, v, w.areas[v]);
      AreaExtent(w.heap, v, w.areas[v]);
    }
  }

  lemma ContextAllocKeeps(w: World, p: int)
    requires Good(w) && Possible(w, AllocContext(p))
    ensures Good(Apply(w, AllocContext(p)))
  {
    if p == 0 {
      RefusalKeeps(w);
    } else {
      ContextFits(p);
      var vc := ContextAt(p);
      assert vc + 4 in w.heap.mem by {
        assert Present(w.heap.mem, p, CONTEXT_BLOCK);
      }
      AllocKeeps(w, ExtAlloc(w.heap, p).0, vc, Context(p));
    }
  }

  lemma PlainAllocKeeps(w: World, s: nat, p: int)
    requires Good(w) && Possible(w, AllocPlain(s, p))
    ensures Good(Apply(w, AllocPlain(s, p)))
  {
    if s != 0 && p != 0 {
      AreaFits(p);
      MallocWrites(w.heap, s, p);
      var (h, v) := VecMalloc(w.heap, s, p);
      AllocKeeps(w, h, v, Plain(p, s));
    }
  }

  lemma MallocWrites(h: Heap, s: nat, p: int)
    requires 0 < s && s + 16 < SPAN && p != 0 && Grants(h, p, s + 16)
    ensures
      var (h', v) := VecMalloc(h, s, p);
      && v == AreaAt(p) && h'.blocks == h.blocks[p := s + 16]
      && Within(h.mem, h'.mem, p, p + s + 16) && Peek(h'.mem, v - 4) == p
  {
    AreaFits(p);
    assert Request(s) == s + 16;
    assert AreaAt(p) - 4 in h.mem by {
      assert Present(h.mem, p, s + 16);
    }
    PokeWithin(h.mem, AreaAt(p) - 4, p, p, p + s + 16);
  }

  lemma PokeWithin(mem: Memory, a: int, x: int, lo: int, hi: int)
    requires 0 <= x < SPAN && lo <= a < hi && a in mem
    ensures Within(mem, Poke(mem, a, x), lo, hi) && Peek(Poke(mem, a, x), a) == x
  {
  }

  /** vec_calloc clears the s * n bytes it returns and nothing else. */
  lemma ClearedAllocKeeps(w: World, n: nat, s: nat, p: int)
    requires Good(w) && Possible(w, AllocCleared(n, s, p))
    ensures Good(Apply(w, AllocCleared(n, s, p)))
  {
    var total := s * n;
    assert total % SPAN == total;
    PlainAllocKeeps(w, total, p);
    if total != 0 && p != 0 {
      AreaFits(p);
      var w1 := Apply(w, AllocPlain(total, p));
      assert w1.areas[AreaAt(p)] == Plain(p, total);
      WriteKeeps(w1, AreaAt(p), Cleared(w1.heap.mem, AreaAt(p), total));
    }
  }

  /** Releasing an area frees exactly the block it was carved from. */
  lemma ReleaseFreesOrigin(w: World, v: int)
    requires Good(w) && v in w.areas
    ensures
      var w' := Apply(w, Release(v));
      && Good(w')
      && w.areas[v].base in w.heap.blocks
      && w'.heap == w.heap.(blocks := w.heap.blocks - {w.areas[v].base})
      && w'.released == w.released + multiset{w.areas[v].base}
  {
    assert AreaOk(w.heap, v, w.areas[v]);
    AreaExtent(w.heap, v, w.areas[v]);
    FreeKeeps(w, v);
  }

  lemma ContextWriteKeeps(w: World, e: Event)
    requires Good(w) && Possible(w, e) && (e.Write? || e.Initialise? || e.SaveInto?)
    ensures Good(Apply(w, e))
  {
    BlockExtent(w, e.v);
    WritesWithin(w.heap.mem, w.areas[e.v], e);
    WriteKeeps(w, e.v, Written(w.heap.mem, e));
  }

  lemma BlockExtent(w: World, v: int)
    requires Good(w) && v in w.areas
    ensures
      var ar := w.areas[v];
      && v % 4 == 0 && ar.base <= v && Present(w.heap.mem, ar.base, BlockSize(ar))
      && v + (if ar.Context? then CONTEXT_SIZE else ar.size) <= ar.base + BlockSize(ar)
  {
    var ar := w.areas[v];
    assert AreaOk(w.heap, v, ar);
    AreaExtent(w.heap, v, ar);
    assert BlockOk(w.heap, ar.base);
  }

  lemma WritesWithin(mem: Memory, ar: Area, e: Event)
    requires e.Write? || ((e.Initialise? || e.SaveInto?) && ar.Context?)
    requires (e.Write? ==> Writable(e.v, ar, e.a)) && (e.SaveInto? ==> e.f.Ok())
    requires e.v % 4 == 0 && ar.base <= e.v && Present(mem, ar.base, BlockSize(ar))
    requires e.v + (if ar.Context? then CONTEXT_SIZE else ar.size) <= ar.base + BlockSize(ar)
    ensures
      var m := Written(mem, e);
      Within(mem, m, ar.base, ar.base + BlockSize(ar)) && Peek(m, BackAt(e.v, ar)) == Peek(mem, BackAt(e.v, ar))
  {
  }

  lemma EventKeeps(w: World, e: Event)
    requires Good(w) && Possible(w, e)
    ensures Good(Apply(w, e))
  {
    match e
    case AllocContext(p) => ContextAllocKeeps(w, p);
    case AllocPlain(s, p) => PlainAllocKeeps(w, s, p);
    case AllocCleared(n, s, p) => ClearedAllocKeeps(w, n, s, p);
    case Release(v) => ReleaseFreesOrigin(w, v);
    case _ => ContextWriteKeeps(w, e);
  }

  /** Conservation: over every run the areas stay disjoint inside their own blocks, every free
      hits an allocated block, and what was granted is what was released plus what is still
      held; if nothing is held any more, everything has been released exactly once. */
  lemma {:induction false} RunsKeep(w: World, es: seq<Event>)
    requires Good(w)
    ensures Good(Runs(w, es))
    ensures var w' := Runs(w, es); w'.areas == map[] ==> w'.heap.blocks == map[] && w'.granted == w'.released
    decreases |es|
  {
    if es != [] {
      if Possible(w, es[0]) {
        EventKeeps(w, es[0]);
        RunsKeep(Apply(w, es[0]), es[1..]);
      } else {
        RunsKeep(w, es[1..]);
      }
    } else if w.areas == map[] {
      NothingHeld(w);
    }
  }

  lemma NothingHeld(w: World)
    requires Good(w) && w.areas == map[]
    ensures w.heap.blocks == map[] && w.granted == w.released
  {
    forall p
      ensures p !in w.heap.blocks
    {
      assert p in w.heap.blocks ==> Held(w, p);
    }
    assert w.heap.blocks.Keys == {};
  }

  lemma InitialIsGood(w: World)
    requires Initial(w)
    ensures Good(w)
  {
  }

  /** The words of an area: those its client uses, and the back pointer. */
  predicate WordOf(v: int, ar: Area, a: int) {
    a == BackAt(v, ar) || (v <= a < v + (if ar.Context? then CONTEXT_SIZE else ar.size))
  }

  /** The area an event writes to, if it is an existing one. */
  predicate Touches(e: Event, v: int) {
    match e
    case Write(u, _, _) => u == v
    case Initialise(u) => u == v
    case SaveInto(u, _) => u == v
    case _ => false
  }

  /** Isolation: no allocation, free, write, initialisation or save in one area changes a word
      of another one. */
  lemma EventIsolated(w: World, e: Event, v: int, a: int)
    requires Good(w) && Possible(w, e) && v in w.areas && WordOf(v, w.areas[v], a) && !Touches(e, v)
    ensures Peek(Apply(w, e).heap.mem, a) == Peek(w.heap.mem, a)
  {
    match e
    case AllocContext(p) => ContextIsolated(w, p, v, a);
    case AllocPlain(s, p) => AllocIsolated(w, s, p, v, a);
    case AllocCleared(n, s, p) => ClearedIsolated(w, n, s, p, v, a);
    case Release(_) =>
    case _ => WriteIsolated(w, e, v, a);
  }

  lemma ContextIsolated(w: World, p: int, v: int, a: int)
    requires Good(w) && Grants(w.heap, p, CONTEXT_BLOCK) && v in w.areas && WordOf(v, w.areas[v], a)
    ensures Peek(ExtAlloc(w.heap, p).0.mem, a) == Peek(w.heap.mem, a)
  {
    WordInBlock(w, v, a);
    if p != 0 {
      ContextFits(p);
    }
  }

  lemma ClearedIsolated(w: World, n: nat, s: nat, p: int, v: int, a: int)
    requires Good(w) && s * n + 16 < SPAN && Grants(w.heap, p, s * n + 16)
    requires v in w.areas && WordOf(v, w.areas[v], a)
    ensures Peek(VecCalloc(w.heap, n, s, p).0.mem, a) == Peek(w.heap.mem, a)
  {
    assert s * n % SPAN == s * n;
    AllocIsolated(w, s * n, p, v, a);
  }

  lemma WordInBlock(w: World, v: int, a: int)
    requires Good(w) && v in w.areas && WordOf(v, w.areas[v], a)
    ensures
      var ar := w.areas[v];
      && ar.base in w.heap.blocks && w.heap.blocks[ar.base] == BlockSize(ar)
      && ar.base <= a < ar.base + BlockSize(ar) && a > 4
  {
    assert AreaOk(w.heap, v, w.areas[v]);
    AreaExtent(w.heap, v, w.areas[v]);
  }

  lemma AllocIsolated(w: World, s: nat, p: int, v: int, a: int)
    requires Good(w) && s + 16 < SPAN && Grants(w.heap, p, s + 16) && v in w.areas && WordOf(v, w.areas[v], a)
    ensures
      var (h, u) := VecMalloc(w.heap, s, p);
      && Peek(h.mem, a) == Peek(w.heap.mem, a)
      && (u != 0 ==> Peek(Cleared(h.mem, u, s), a) == Peek(h.mem, a))
  {
    WordInBlock(w, v, a);
    if p != 0 && s != 0 {
      AreaFits(p);
      MallocWrites(w.heap, s, p);
    }
  }

  lemma WriteIsolated(w: World, e: Event, v: int, a: int)
    requires Good(w) && Possible(w, e) && (e.Write? || e.Initialise? || e.SaveInto?)
    requires v in w.areas && WordOf(v, w.areas[v], a) && e.v != v
    ensures Peek(Apply(w, e).heap.mem, a) == Peek(w.heap.mem, a)
  {
    WordInBlock(w, v, a);
    AreasDisjoint(w, v, e.v);
    assert AreaOk(w.heap, e.v, w.areas[e.v]);
    AreaExtent(w.heap, e.v, w.areas[e.v]);
  }

  /** The area v outlives the event. */
  predicate Spares(e: Event, v: int) {
    !Touches(e, v) && e != Release(v)
  }

  /** Isolation over runs: whatever happens to other areas, none of its words changes. */
  lemma {:induction false} RunsIsolated(w: World, es: seq<Event>, v: int, a: int)
    requires Good(w) && v in w.areas && WordOf(v, w.areas[v], a)
    requires forall i | 0 <= i < |es| :: Spares(es[i], v)
    ensures Peek(Runs(w, es).heap.mem, a) == Peek(w.heap.mem, a)
    decreases |es|
  {
    if es != [] {
      assert Spares(es[0], v);
      if Possible(w, es[0]) {
        EventKeeps(w, es[0]);
        EventIsolated(w, es[0], v, a);
        StaysHeld(w, es[0], v);
        RunsIsolated(Apply(w, es[0]), es[1..], v, a);
      } else {
        RunsIsolated(w, es[1..], v, a);
      }
    }
  }

  /** An area stays where it is: a new one never takes its place. */
  lemma StaysHeld(w: World, e: Event, v: int)
    requires Good(w) && Possible(w, e) && v in w.areas && Spares(e, v)
    ensures var w' := Apply(w, e); v in w'.areas && w'.areas[v] == w.areas[v]
  {
    match e
    case AllocContext(p) => if p != 0 { NewPlace(w, Context(p), v); }
    case AllocPlain(s, p) => if p != 0 && s != 0 { NewPlace(w, Plain(p, s), v); }
    case AllocCleared(n, s, p) =>
      var total := s * n;
      assert total % SPAN == total;
      if p != 0 && total != 0 { NewPlace(w, Plain(p, total), v); }
    case _ =>
  }

  lemma NewPlace(w: World, ar: Area, v: int)
    requires Good(w) && v in w.areas && ar.base != 0 && Grants(w.heap, ar.base, BlockSize(ar))
    requires ar.Plain? ==> ar.size > 0
    ensures StartOf(ar) != v
  {
    assert AreaOk(w.heap, v, w.areas[v]);
    AreaExtent(w.heap, v, w.areas[v]);
    if ar.Context? {
      ContextFits(ar.base);
    } else {
      AreaFits(ar.base);
    }
  }

  /** Byte i of a big-endian word. */
  function ByteOf(w: Word, i: nat): int
    requires i < 4
  {
    if i == 0 then w / 0x100_0000 else if i == 1 then w / 0x1_0000 % 0x100
    else if i == 2 then w / 0x100 % 0x100 else w % 0x100
  }

  lemma LeadingBytesClear(w: Word, x: Word, r: int, i: nat)
    requires 0 <= i < r < 4 && x == w % Low(r)
    ensures ByteOf(x, i) == 0
  {
    assert x < Low(r);
  }

  /** Every byte that vec_calloc returns is zero, also in a last word that it shares. */
  lemma CallocIsZero(w: World, n: nat, s: nat, p: int, x: int)
    requires Good(w) && Possible(w, AllocCleared(n, s, p)) && p != 0
    requires AreaAt(p) <= x < AreaAt(p) + s * n
    ensures
      var (h, v) := VecCalloc(w.heap, n, s, p);
      v == AreaAt(p) && x - x % 4 in h.mem && ByteOf(h.mem[x - x % 4], x % 4) == 0
  {
    assert s * n % SPAN == s * n;
    MallocClears(w.heap, s * n, p, x);
  }

  lemma MallocClears(h0: Heap, total: nat, p: int, x: int)
    requires total + 16 < SPAN && p != 0 && Grants(h0, p, total + 16) && AreaAt(p) <= x < AreaAt(p) + total
    ensures
      var (h, v) := VecMalloc(h0, total, p);
      var m := Cleared(h.mem, v, total);
      v == AreaAt(p) && x - x % 4 in m && ByteOf(m[x - x % 4], x % 4) == 0
  {
    AreaFits(p);
    MallocWrites(h0, total, p);
    var (h, v) := VecMalloc(h0, total, p);
    var a := x - x % 4;
    assert p <= a < p + total + 16 && a % 4 == 0 && v <= a;
    assert a in h0.mem by {
      assert Present(h0.mem, p, total + 16);
    }
    ClearedByte(h.mem, v, total, a, x % 4);
  }

  lemma ClearedByte(mem: Memory, v: int, s: nat, a: int, i: nat)
    requires a in mem && v <= a && i < 4 && a + i < v + s
    ensures a in Cleared(mem, v, s) && ByteOf(Cleared(mem, v, s)[a], i) == 0
  {
    if v + s < a + 4 {
      LeadingBytesClear(mem[a], mem[a] % Low(v + s - a), v + s - a, i);
    }
  }

  lemma TrailingBytesKept(w: Word, x: Word, r: int, i: nat)
    requires 0 < r <= i < 4 && x == w % Low(r)
    ensures ByteOf(x, i) == ByteOf(w, i)
  {
    if r == 1 {
      BelowTop(w / 0x100_0000, x);
    } else if r == 2 {
      BelowTop(0, x);
      LowHalf(w / 0x1_0000, x);
    }
  }

  /** What is added above the lowest three bytes, or two, does not reach them. */
  lemma BelowTop(q: nat, x: nat)
    requires x < 0x100_0000
    ensures (0x100_0000 * q + x) / 0x1_0000 % 0x100 == x / 0x1_0000
    ensures (0x100_0000 * q + x) / 0x100 % 0x100 == x / 0x100 % 0x100
    ensures (0x100_0000 * q + x) % 0x100 == x % 0x100
  {
    var w := 0x100_0000 * q + x;
    assert w / 0x1_0000 == 0x100 * q + x / 0x1_0000;
    assert w / 0x100 == 0x100 * (0x100 * q) + x / 0x100;
  }

  lemma LowHalf(q: nat, x: nat)
    requires x < 0x1_0000
    ensures (0x1_0000 * q + x) / 0x100 % 0x100 == x / 0x100
    ensures (0x1_0000 * q + x) % 0x100 == x % 0x100
  {
    assert (0x1_0000 * q + x) / 0x100 == 0x100 * q + x / 0x100;
  }

  /** vec_calloc changes no byte outside the area it returns, other than the back pointer. */
  lemma CallocTouchesOnly(h0: Heap, n: nat, s: nat, p: int, x: int)
    requires s * n + 16 < SPAN && p != 0 && Grants(h0, p, s * n + 16) && x - x % 4 in h0.mem
    requires x < AreaAt(p) - 4 || AreaAt(p) + s * n <= x
    ensures
      var h := VecCalloc(h0, n, s, p).0;
      x - x % 4 in h.mem && ByteOf(h.mem[x - x % 4], x % 4) == ByteOf(h0.mem[x - x % 4], x % 4)
  {
    assert s * n % SPAN == s * n;
    AreaFits(p);
    if s * n != 0 {
      MallocWrites(h0, s * n, p);
      MallocClearsOnly(h0, s * n, p, x);
    }
  }

  lemma MallocClearsOnly(h0: Heap, total: nat, p: int, x: int)
    requires 0 < total && total + 16 < SPAN && p != 0 && Grants(h0, p, total + 16) && x - x % 4 in h0.mem
    requires x < AreaAt(p) - 4 || AreaAt(p) + total <= x
    ensures
      var (h, v) := VecMalloc(h0, total, p);
      var m := Cleared(h.mem, v, total);
      x - x % 4 in m && ByteOf(m[x - x % 4], x % 4) == ByteOf(h0.mem[x - x % 4], x % 4)
  {
    AreaFits(p);
    var (h, v) := VecMalloc(h0, total, p);
    var a := x - x % 4;
    assert a != v - 4 && h.mem[a] == h0.mem[a];
    if v <= a < v + total {
      TrailingBytesKept(h.mem[a], h.mem[a] % Low(v + total - a), v + total - a, x % 4);
    }
  }
}
