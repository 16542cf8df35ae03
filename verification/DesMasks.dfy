/** The OR-mask tables of telnetd/des.c: what one entry holds, and why OR-ing eight looked-up
    entries together performs a whole bit permutation at once. */
module DesMasks {
  import opened Bits
  import opened Fips46

  /** One family of masks. Bit t of an index of the given width stands for input position
      base + t; perm sends it to an output position, which counts for this table when it lies
      in lo..hi-1 and is then stored off bits further right. */
  datatype Masks = Masks(perm: seq<nat>, width: nat, lo: nat, hi: nat, off: nat) {
    predicate Ok() {
      lo <= hi && hi - lo + off <= 32
    }
  }

  /** The mask collected from the bits of an index. */
  function Entry(m: Masks, base: nat, index: seq<bool>): Word
    requires m.Ok() && base + |index| <= |m.perm|
  {
    if |index| == 0 then Zero()
    else Collected(m, base, index, Entry(m, base, index[..|index| - 1]))
  }

  /** One step of the loop over the index bits: the last bit of the index, if set, adds its
      output bit to the mask e. */
  function Collected(m: Masks, base: nat, index: seq<bool>, e: Word): Word
    requires m.Ok() && 0 < |index| && base + |index| <= |m.perm|
  {
    var j := |index| - 1;
    if index[j] && m.lo <= m.perm[base + j] < m.hi then Or(e, One(m.perm[base + j] - m.lo + m.off)) else e
  }

  /** perm is the inverse of the selection table, as far as the table goes. */
  ghost predicate InverseOf(perm: seq<nat>, table: seq<nat>) {
    && (forall q | 0 <= q < |table| :: 1 <= table[q] <= |perm|)
    && (forall x, q | 0 <= x < |perm| && 0 <= q < |table| :: perm[x] == q <==> x == table[q] - 1)
  }

  /** An entry holds exactly the selected bits: output bit q of the permutation is set iff the
      input bit named by table[q] lies under this entry and is set in the index. */
  lemma {:induction false} EntryBit(m: Masks, table: seq<nat>, base: nat, index: seq<bool>, q: nat)
    requires m.Ok() && base + |index| <= |m.perm|
    requires InverseOf(m.perm, table) && m.lo <= q < m.hi <= |table|
    ensures Entry(m, base, index)[q - m.lo + m.off]
            == (base <= table[q] - 1 < base + |index| && index[table[q] - 1 - base])
  {
    if |index| > 0 {
      var j := |index| - 1;
      EntryBit(m, table, base, index[..j], q);
      assert m.perm[base + j] == q <==> base + j == table[q] - 1;
    }
  }

  /** Outside the window an entry is zero. */
  lemma {:induction false} EntryOutside(m: Masks, base: nat, index: seq<bool>, o: nat)
    requires m.Ok() && base + |index| <= |m.perm|
    requires o < 32 && !(m.off <= o < m.off + m.hi - m.lo)
    ensures !Entry(m, base, index)[o]
  {
    if |index| > 0 {
      EntryOutside(m, base, index[..|index| - 1], o);
    }
  }

  /** First input position under entry k. */
  function Base(k: nat, stride: nat): nat
    requires k < 8
  {
    match k
    case 0 => 0
    case 1 => stride
    case 2 => 2 * stride
    case 3 => 3 * stride
    case 4 => 4 * stride
    case 5 => 5 * stride
    case 6 => 6 * stride
    case _ => 7 * stride
  }

  /** The first n of eight lookups OR-ed together; entry k covers the input positions from
      stride * k on. */
  function Lookups(m: Masks, stride: nat, x: seq<seq<bool>>, n: nat): Word
    requires m.Ok() && Fits(m, stride, x) && n <= 8
  {
    if n == 0 then Zero() else Or(Lookups(m, stride, x, n - 1), Entry(m, Base(n - 1, stride), x[n - 1]))
  }

  function Lookup8(m: Masks, stride: nat, x: seq<seq<bool>>): Word
    requires m.Ok() && Fits(m, stride, x)
  {
    Lookups(m, stride, x, 8)
  }

  predicate Fits(m: Masks, stride: nat, x: seq<seq<bool>>) {
    && |x| == 8 && (forall k | 0 <= k < 8 :: |x[k]| == m.width)
    && m.width <= stride && 7 * stride + m.width <= |m.perm|
  }

  lemma {:induction false} LookupsBit(m: Masks, table: seq<nat>, stride: nat, x: seq<seq<bool>>, q: nat, k: nat, n: nat)
    requires m.Ok() && Fits(m, stride, x) && n <= 8
    requires InverseOf(m.perm, table) && m.lo <= q < m.hi <= |table|
    requires k < 8 && Base(k, stride) <= table[q] - 1 < Base(k, stride) + m.width
    ensures Lookups(m, stride, x, n)[q - m.lo + m.off] == (k < n && x[k][table[q] - 1 - Base(k, stride)])
  {
    if n > 0 {
      LookupsBit(m, table, stride, x, q, k, n - 1);
      EntryBit(m, table, Base(n - 1, stride), x[n - 1], q);
      if k != n - 1 {
        BasesApart(k, n - 1, stride);
      }
    }
  }

  /** Entries of width at most stride do not overlap. */
  lemma BasesApart(k: nat, k': nat, stride: nat)
    requires k < 8 && k' < 8 && k != k'
    ensures Base(k, stride) + stride <= Base(k', stride) || Base(k', stride) + stride <= Base(k, stride)
  {
  }

  /** The permutation theorem: output bit q of the eight lookups is the input bit table[q],
      found in the index that covers it. */
  lemma Lookup8Bit(m: Masks, table: seq<nat>, stride: nat, x: seq<seq<bool>>, q: nat, k: nat)
    requires m.Ok() && Fits(m, stride, x)
    requires InverseOf(m.perm, table) && m.lo <= q < m.hi <= |table|
    requires k < 8 && Base(k, stride) <= table[q] - 1 < Base(k, stride) + m.width
    ensures Lookup8(m, stride, x)[q - m.lo + m.off] == x[k][table[q] - 1 - Base(k, stride)]
  {
    LookupsBit(m, table, stride, x, q, k, 8);
  }

  lemma {:induction false} LookupsOutside(m: Masks, stride: nat, x: seq<seq<bool>>, o: nat, n: nat)
    requires m.Ok() && Fits(m, stride, x) && n <= 8
    requires o < 32 && !(m.off <= o < m.off + m.hi - m.lo)
    ensures !Lookups(m, stride, x, n)[o]
  {
    if n > 0 {
      LookupsOutside(m, stride, x, o, n - 1);
      EntryOutside(m, Base(n - 1, stride), x[n - 1], o);
    }
  }

  // Inverting a selection table, as the initialisation loops do.

  /** What slot x of an inverse table holds after the first n entries of the table were
      entered into it: the last entry that names bit x + 1 wins. */
  function InverseAt(table: seq<nat>, x: nat, n: nat, initial: nat): nat
    requires n <= |table|
  {
    if n == 0 then initial
    else if table[n - 1] == x + 1 then n - 1
    else InverseAt(table, x, n - 1, initial)
  }

  /** The whole inverse table. */
  function Inverted(table: seq<nat>, size: nat, initial: nat): (r: seq<nat>)
    ensures |r| == size
  {
    seq(size, x requires 0 <= x < size => InverseAt(table, x, |table|, initial))
  }

  lemma {:induction false} InverseAtFound(table: seq<nat>, x: nat, n: nat, initial: nat, q: nat)
    requires q < n <= |table| && table[q] == x + 1
    requires Injective(table)
    ensures InverseAt(table, x, n, initial) == q
  {
    if q < n - 1 {
      assert Differ(table, q, n - 1);
      InverseAtFound(table, x, n - 1, initial, q);
    }
  }

  lemma {:induction false} InverseAtMissing(table: seq<nat>, x: nat, n: nat, initial: nat)
    requires n <= |table| && forall q | 0 <= q < n :: table[q] != x + 1
    ensures InverseAt(table, x, n, initial) == initial
  {
    if n > 0 {
      InverseAtMissing(table, x, n - 1, initial);
    }
  }

  /** The loops do invert: of a table without repetitions, provided that a slot left alone
      keeps a value that is no position, or that no slot is left alone. */
  lemma InvertedIsInverse(table: seq<nat>, size: nat, initial: nat)
    requires Injective(table)
    requires forall q | 0 <= q < |table| :: 1 <= table[q] <= size
    requires initial >= |table| || forall v | 1 <= v <= size :: v in table
    ensures InverseOf(Inverted(table, size, initial), table)
  {
    var perm := Inverted(table, size, initial);
    forall x, q | 0 <= x < size && 0 <= q < |table|
      ensures perm[x] == q <==> x == table[q] - 1
    {
      if x == table[q] - 1 {
        InverseAtFound(table, x, |table|, initial, q);
      } else if x + 1 in table {
        var p :| 0 <= p < |table| && table[p] == x + 1;
        InverseAtFound(table, x, |table|, initial, p);
      } else {
        InverseAtMissing(table, x, |table|, initial);
      }
    }
  }
}
