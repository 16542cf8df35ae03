/** des_init of telnetd/des.c: the loops that fill the lookup tables, each proved to leave the
    table that the functions of DesRound and DesKeys describe. */
module DesInit {
  import opened Bits
  import opened Fips46
  import opened DesMasks
  import opened DesRound

  // A two-dimensional table of the source is one array here, row after row: entry [k][i] of a
  // table with 256 (or 128) columns is element 256 * k + i (or 128 * k + i).

  /** Entry x of the table of a family of masks. Row k covers the positions from Base(k, stride) on. */
  function Cell(m: Masks, stride: nat, rows: nat, x: nat): Word
    requires m.Ok() && rows <= 8 && Covers(m, stride, rows) && x < rows * Columns(m)
  {
    if m.width == 8 then Entry(m, Base(x / 256, stride), BitsOf(m.width, x % 256))
    else Entry(m, Base(x / 128, stride), BitsOf(m.width, x % 128))
  }

  function Columns(m: Masks): nat {
    if m.width == 8 then 256 else 128
  }

  predicate Covers(m: Masks, stride: nat, rows: nat)
    requires rows <= 8
  {
    7 <= m.width <= 8 && forall k | 0 <= k < rows :: Base(k, stride) + m.width <= |m.perm|
  }

  /** The first n entries of the table are in place. */
  ghost predicate FilledTo(a: array<Word>, m: Masks, stride: nat, rows: nat, n: nat)
    reads a
  {
    && m.Ok() && rows <= 8 && Covers(m, stride, rows) && a.Length == rows * Columns(m) && n <= a.Length
    && forall x | 0 <= x < n :: a[x] == Cell(m, stride, rows, x)
  }

  /** The array holds the whole table. */
  ghost predicate Holds(a: array<Word>, m: Masks, stride: nat, rows: nat)
    reads a
  {
    FilledTo(a, m, stride, rows, a.Length)
  }

  /** Writes the next entry of a table. */
  method Store(a: array<Word>, w: Word, ghost m: Masks, ghost stride: nat, ghost rows: nat, x: nat)
    requires FilledTo(a, m, stride, rows, x) && x < a.Length && w == Cell(m, stride, rows, x)
    modifies a
    ensures FilledTo(a, m, stride, rows, x + 1)
  {
    a[x] := w;
  }

  /** The packed S-boxes are in place; entry [b][v] is element 4096 * b + v. */
  ghost predicate HoldsBoxes(a: array<nat>, t: Tables)
    reads a
  {
    && t.WellFormed() && a.Length == 4 * 4096
    && forall x | 0 <= x < 4 * 4096 :: a[x] == MEntry(t.s, x / 4096, x % 4096)
  }

  class Fixed {
    const t: Tables
    var initialised: bool
    var mSbox: array<nat>
    var ipMaskL: array<Word>
    var ipMaskR: array<Word>
    var fpMaskL: array<Word>
    var fpMaskR: array<Word>
    var keyPermMaskL: array<Word>
    var keyPermMaskR: array<Word>
    var compMaskL: array<Word>
    var compMaskR: array<Word>
    var psbox: array<Word>

    ghost function WordTables(): set<array<Word>>
      reads this
    {
      {ipMaskL, ipMaskR, fpMaskL, fpMaskR, keyPermMaskL, keyPermMaskR, compMaskL, compMaskR, psbox}
    }

    /** Once initialised, every table holds what its name says. */
    ghost predicate Valid()
      reads this, mSbox, ipMaskL, ipMaskR, fpMaskL, fpMaskR, keyPermMaskL, keyPermMaskR, compMaskL, compMaskR, psbox
    {
      t.WellFormed() && (initialised ==> Filled())
    }

    ghost predicate Filled()
      reads this, mSbox, ipMaskL, ipMaskR, fpMaskL, fpMaskR, keyPermMaskL, keyPermMaskR, compMaskL, compMaskR, psbox
      requires t.WellFormed()
    {
      BoxesFilled() && BlocksFilled() && KeysFilled()
    }

    ghost predicate BoxesFilled()
      reads this`mSbox, this`psbox, mSbox, psbox
      requires t.WellFormed()
    {
      HoldsBoxes(mSbox, t) && Holds(psbox, PMasks(t), 8, 4)
    }

    ghost predicate BlocksFilled()
      reads this`ipMaskL, this`ipMaskR, this`fpMaskL, this`fpMaskR, ipMaskL, ipMaskR, fpMaskL, fpMaskR
      requires t.WellFormed()
    {
      && Holds(ipMaskL, IpLeft(t), 8, 8) && Holds(ipMaskR, IpRight(t), 8, 8)
      && Holds(fpMaskL, FpLeft(t), 8, 8) && Holds(fpMaskR, FpRight(t), 8, 8)
    }

    ghost predicate KeysFilled()
      reads this`keyPermMaskL, this`keyPermMaskR, this`compMaskL, this`compMaskR
      reads keyPermMaskL, keyPermMaskR, compMaskL, compMaskR
      requires t.WellFormed()
    {
      && Holds(keyPermMaskL, KeyLeft(t), 8, 8) && Holds(keyPermMaskR, KeyRight(t), 8, 8)
      && Holds(compMaskL, CompLeft(t), 7, 8) && Holds(compMaskR, CompRight(t), 7, 8)
    }

    constructor (t: Tables)
      requires t.WellFormed()
      ensures Valid() && !initialised && this.t == t
    {
      this.t := t;
      initialised := false;
      mSbox := new nat[4 * 4096];
      ipMaskL := new Word[8 * 256];
      ipMaskR := new Word[8 * 256];
      fpMaskL := new Word[8 * 256];
      fpMaskR := new Word[8 * 256];
      keyPermMaskL := new Word[8 * 128];
      keyPermMaskR := new Word[8 * 128];
      compMaskL := new Word[8 * 128];
      compMaskR := new Word[8 * 128];
      psbox := new Word[4 * 256];
    }

    /** Fills the tables on the first call and leaves them alone afterwards. */
    method Init()
      requires Valid()
      modifies this
      ensures Valid() && initialised
      ensures old(initialised) ==> unchanged(this)
    {
      if initialised {
        return;
      }
      InitBoxes();
      var invKeyPerm := InitBlocks();
      InitKeys(invKeyPerm);
      MarkInitialised();
    }

    method MarkInitialised()
      requires t.WellFormed() && Filled()
      modifies this`initialised
      ensures Filled() && initialised
    {
      initialised := true;
    }

    method InitBoxes()
      requires t.WellFormed()
      modifies this`mSbox, this`psbox
      ensures BoxesFilled()
    {
      var u := InvertSBoxes(t.s);
      mSbox := PackSBoxes(t, u);
      psbox := PTable(t);
    }

    method InitBlocks() returns (invKeyPerm: array<nat>)
      requires t.WellFormed() && BoxesFilled()
      modifies this`ipMaskL, this`ipMaskR, this`fpMaskL, this`fpMaskR
      ensures BoxesFilled() && BlocksFilled()
      ensures fresh(invKeyPerm) && invKeyPerm.Length == 64 && forall x | 0 <= x < 64 :: invKeyPerm[x] == 255
    {
      ipMaskL, ipMaskR, fpMaskL, fpMaskR, invKeyPerm := BlockTables(t);
    }

    method InitKeys(invKeyPerm: array<nat>)
      requires t.WellFormed() && BoxesFilled() && BlocksFilled() && invKeyPerm != mSbox
      requires invKeyPerm.Length == 64 && forall x | 0 <= x < 64 :: invKeyPerm[x] == 255
      modifies this`keyPermMaskL, this`keyPermMaskR, this`compMaskL, this`compMaskR, invKeyPerm
      ensures BoxesFilled() && BlocksFilled() && KeysFilled()
    {
      keyPermMaskL, keyPermMaskR, compMaskL, compMaskR := KeyTables(t, invKeyPerm);
    }
  }

  /** The tables of the source, ready for des_init. */
  method StandardTables() returns (f: Fixed)
    ensures fresh(f) && f.Valid() && !f.initialised && f.t == DES
  {
    DesWellFormed();
    f := new Fixed(DES);
  }

  method BlockTables(t: Tables)
    returns (ipl: array<Word>, ipr: array<Word>, fpl: array<Word>, fpr: array<Word>, invKeyPerm: array<nat>)
    requires t.WellFormed()
    ensures fresh(ipl) && fresh(ipr) && fresh(fpl) && fresh(fpr)
    ensures Holds(ipl, IpLeft(t), 8, 8) && Holds(ipr, IpRight(t), 8, 8)
    ensures Holds(fpl, FpLeft(t), 8, 8) && Holds(fpr, FpRight(t), 8, 8)
    ensures fresh(invKeyPerm) && invKeyPerm.Length == 64 && forall x | 0 <= x < 64 :: invKeyPerm[x] == 255
  {
    var initPerm, finalPerm;
    initPerm, finalPerm, invKeyPerm := InvertIp(t.ip);
    assert finalPerm == FinalPerm(t);
    InverseRanges(t);
    ipl, ipr, fpl, fpr := FillBlockMasks(initPerm, finalPerm);
  }

  method KeyTables(t: Tables, invKeyPerm: array<nat>)
    returns (kpl: array<Word>, kpr: array<Word>, cl: array<Word>, cr: array<Word>)
    requires t.WellFormed()
    requires invKeyPerm.Length == 64 && forall x | 0 <= x < 64 :: invKeyPerm[x] == 255
    modifies invKeyPerm
    ensures fresh(kpl) && fresh(kpr) && fresh(cl) && fresh(cr)
    ensures Holds(kpl, KeyLeft(t), 8, 8) && Holds(kpr, KeyRight(t), 8, 8)
    ensures Holds(cl, CompLeft(t), 7, 8) && Holds(cr, CompRight(t), 7, 8)
  {
    var invCompPerm := InvertKeyPerm(t.pc1, invKeyPerm);
    InvertCompPerm(t.pc2, invCompPerm);
    InverseRanges(t);
    kpl, kpr := FillKeyMasks(invKeyPerm[..], 8, 28, 4);
    cl, cr := FillKeyMasks(invCompPerm[..], 7, 24, 8);
  }

  method PTable(t: Tables) returns (p: array<Word>)
    requires t.WellFormed()
    ensures fresh(p) && Holds(p, PMasks(t), 8, 4)
  {
    var unPbox := InvertP(t.p);
    InverseRanges(t);
    p := FillPMasks(unPbox);
  }

  /** Reorders the inputs of the S-boxes; entry [i][j] of u_sbox is element 64 * i + j. */
  method InvertSBoxes(s: seq<seq<nat>>) returns (u: array<nat>)
    requires |s| == 8 && forall i | 0 <= i < 8 :: |s[i]| == 64
    ensures fresh(u) && u.Length == 8 * 64
    ensures forall x | 0 <= x < 8 * 64 :: u[x] == s[x / 64][Reorder(x % 64)]
  {
    u := new nat[8 * 64];
    for i := 0 to 8
      invariant forall x | 0 <= x < 64 * i :: u[x] == s[x / 64][Reorder(x % 64)]
    {
      for j := 0 to 64
        invariant forall x | 0 <= x < 64 * i + j :: u[x] == s[x / 64][Reorder(x % 64)]
      {
        RowColumn64(i, j);
        u[64 * i + j] := s[i][Reorder(j)];
      }
    }
  }

  lemma RowColumn64(i: nat, j: nat)
    requires j < 64
    ensures (64 * i + j) / 64 == i && (64 * i + j) % 64 == j
  {
  }

  /** Packs two neighbouring boxes into one table of bytes, indexed by twelve bits. */
  method PackSBoxes(t: Tables, u: array<nat>) returns (m: array<nat>)
    requires t.WellFormed() && u.Length == 8 * 64
    requires forall x | 0 <= x < 8 * 64 :: u[x] == t.s[x / 64][Reorder(x % 64)]
    ensures fresh(m) && HoldsBoxes(m, t)
  {
    m := new nat[4 * 4096];
    for b := 0 to 4
      invariant BoxesTo(m, t, 4096 * b)
    {
      for i := 0 to 64
        invariant BoxesTo(m, t, 4096 * b + 64 * i)
      {
        for j := 0 to 64
          invariant BoxesTo(m, t, 4096 * b + 64 * i + j)
        {
          PackByte(t, u, m, b, i, j);
        }
      }
    }
  }

  method PackByte(ghost t: Tables, u: array<nat>, m: array<nat>, b: nat, i: nat, j: nat)
    requires b < 4 && i < 64 && j < 64 && u != m && BoxesTo(m, t, 4096 * b + 64 * i + j)
    requires u.Length == 8 * 64 && forall x | 0 <= x < 8 * 64 :: u[x] == t.s[x / 64][Reorder(x % 64)]
    modifies m
    ensures BoxesTo(m, t, 4096 * b + 64 * i + j + 1)
  {
    PackedCell(t, b, i, j);
    RowColumn64(2 * b, i);
    RowColumn64(2 * b + 1, j);
    StoreByte(m, t, 4096 * b + 64 * i + j, 16 * u[64 * (2 * b) + i] + u[64 * (2 * b + 1) + j]);
  }

  method StoreByte(m: array<nat>, ghost t: Tables, x: nat, v: nat)
    requires BoxesTo(m, t, x) && x < m.Length && v == MEntry(t.s, x / 4096, x % 4096)
    modifies m
    ensures BoxesTo(m, t, x + 1)
  {
    m[x] := v;
  }

  ghost predicate BoxesTo(m: array<nat>, t: Tables, n: nat)
    reads m
  {
    && t.WellFormed() && m.Length == 4 * 4096 && n <= m.Length
    && forall x | 0 <= x < n :: m[x] == MEntry(t.s, x / 4096, x % 4096)
  }

  lemma PackedCell(t: Tables, b: nat, i: nat, j: nat)
    requires t.WellFormed() && b < 4 && i < 64 && j < 64
    ensures
      var x := 4096 * b + 64 * i + j;
      && x < 4 * 4096
      && MEntry(t.s, x / 4096, x % 4096) == 16 * t.s[2 * b][Reorder(i)] + t.s[2 * b + 1][Reorder(j)]
  {
    var x := 4096 * b + 64 * i + j;
    assert x / 4096 == b && x % 4096 == 64 * i + j;
    RowColumn64(i, j);
  }

  /** Both forms of IP. The inverse starts out as zeros (static storage) and the table for
      the next loop is preset to 255. */
  method InvertIp(ip: seq<nat>) returns (initPerm: seq<nat>, finalPerm: seq<nat>, invKeyPerm: array<nat>)
    requires |ip| == 64 && forall i | 0 <= i < 64 :: 1 <= ip[i] <= 64
    ensures initPerm == Inverted(ip, 64, 0)
    ensures |finalPerm| == 64 && forall i | 0 <= i < 64 :: finalPerm[i] == ip[i] - 1
    ensures fresh(invKeyPerm) && invKeyPerm.Length == 64 && forall x | 0 <= x < 64 :: invKeyPerm[x] == 255
  {
    var a, b := new nat[64](i => 0), new nat[64](i => 0);
    invKeyPerm := new nat[64](i => 0);
    for i := 0 to 64
      invariant forall x | 0 <= x < 64 :: a[x] == InverseAt(ip, x, i, 0)
      invariant forall x | 0 <= x < i :: b[x] == ip[x] - 1 && invKeyPerm[x] == 255
    {
      b[i] := ip[i] - 1;
      a[b[i]] := i;
      invKeyPerm[i] := 255;
    }
    initPerm, finalPerm := a[..], b[..];
  }

  /** The inverse of PC-1, while the table for PC-2 is preset to 255. */
  method InvertKeyPerm(pc1: seq<nat>, invKeyPerm: array<nat>) returns (invCompPerm: array<nat>)
    requires |pc1| == 56 && forall i | 0 <= i < 56 :: 1 <= pc1[i] <= 64
    requires invKeyPerm.Length == 64 && forall x | 0 <= x < 64 :: invKeyPerm[x] == 255
    modifies invKeyPerm
    ensures invKeyPerm[..] == Inverted(pc1, 64, 255)
    ensures fresh(invCompPerm) && invCompPerm.Length == 56 && forall x | 0 <= x < 56 :: invCompPerm[x] == 255
  {
    invCompPerm := new nat[56](i => 0);
    for i := 0 to 56
      invariant forall x | 0 <= x < 64 :: invKeyPerm[x] == InverseAt(pc1, x, i, 255)
      invariant forall x | 0 <= x < i :: invCompPerm[x] == 255
    {
      invKeyPerm[pc1[i] - 1] := i;
      invCompPerm[i] := 255;
    }
  }

  method InvertCompPerm(pc2: seq<nat>, invCompPerm: array<nat>)
    requires |pc2| == 48 && forall i | 0 <= i < 48 :: 1 <= pc2[i] <= 56
    requires invCompPerm.Length == 56 && forall x | 0 <= x < 56 :: invCompPerm[x] == 255
    modifies invCompPerm
    ensures invCompPerm[..] == Inverted(pc2, 56, 255)
  {
    for i := 0 to 48
      invariant forall x | 0 <= x < 56 :: invCompPerm[x] == InverseAt(pc2, x, i, 255)
    {
      invCompPerm[pc2[i] - 1] := i;
    }
  }

  /** One entry of the four block tables: the loop over the bits of the index. */
  method BlockMasks(initPerm: seq<nat>, finalPerm: seq<nat>, base: nat, index: seq<bool>)
    returns (il: Word, ir: Word, fl: Word, fr: Word)
    requires |initPerm| == |finalPerm| == 64 && base + |index| <= 64
    requires forall x | 0 <= x < 64 :: initPerm[x] < 64 && finalPerm[x] < 64
    ensures il == Entry(Masks(initPerm, 8, 0, 32, 0), base, index)
    ensures ir == Entry(Masks(initPerm, 8, 32, 64, 0), base, index)
    ensures fl == Entry(Masks(finalPerm, 8, 0, 32, 0), base, index)
    ensures fr == Entry(Masks(finalPerm, 8, 32, 64, 0), base, index)
  {
    il, ir, fl, fr := Zero(), Zero(), Zero(), Zero();
    var j := 0;
    while j < |index|
      invariant 0 <= j <= |index|
      invariant il == Entry(Masks(initPerm, 8, 0, 32, 0), base, index[..j])
      invariant ir == Entry(Masks(initPerm, 8, 32, 64, 0), base, index[..j])
      invariant fl == Entry(Masks(finalPerm, 8, 0, 32, 0), base, index[..j])
      invariant fr == Entry(Masks(finalPerm, 8, 32, 64, 0), base, index[..j])
    {
      var inbit := base + j;
      assert index[..j + 1][..j] == index[..j];
      if index[j] {
        var obit := initPerm[inbit];
        if obit < 32 {
          il := Or(il, One(obit));
        } else {
          ir := Or(ir, One(obit - 32));
        }
        obit := finalPerm[inbit];
        if obit < 32 {
          fl := Or(fl, One(obit));
        } else {
          fr := Or(fr, One(obit - 32));
        }
      }
      j := j + 1;
    }
    assert index[..|index|] == index;
  }

  lemma {:induction false} InverseAtRange(table: seq<nat>, x: nat, n: nat, initial: nat)
    requires n <= |table|
    ensures InverseAt(table, x, n, initial) == initial || InverseAt(table, x, n, initial) < n
  {
    if n > 0 {
      InverseAtRange(table, x, n - 1, initial);
    }
  }

  /** The inverse tables hold output positions, or 255 where a key bit is dropped. */
  lemma InverseRanges(t: Tables)
    requires t.WellFormed()
    ensures forall x | 0 <= x < 64 :: InitPerm(t)[x] < 64 && FinalPerm(t)[x] < 64
    ensures forall x | 0 <= x < 64 :: Inverted(t.pc1, 64, 255)[x] == 255 || Inverted(t.pc1, 64, 255)[x] < 56
    ensures forall x | 0 <= x < 56 :: Inverted(t.pc2, 56, 255)[x] == 255 || Inverted(t.pc2, 56, 255)[x] < 48
    ensures forall x | 0 <= x < 32 :: Inverted(t.p, 32, 0)[x] < 32
  {
    InvertedRange(t.ip, 64, 0);
    InvertedRange(t.pc1, 64, 255);
    InvertedRange(t.pc2, 56, 255);
    InvertedRange(t.p, 32, 0);
  }

  lemma InvertedRange(table: seq<nat>, size: nat, initial: nat)
    ensures forall x | 0 <= x < size :: Inverted(table, size, initial)[x] == initial || Inverted(table, size, initial)[x] < |table|
  {
    var r := Inverted(table, size, initial);
    forall x | 0 <= x < size
      ensures r[x] == initial || r[x] < |table|
    {
      InverseAtRange(table, x, |table|, initial);
    }
  }

  lemma RowColumn256(k: nat, i: nat)
    requires i < 256
    ensures (256 * k + i) / 256 == k && (256 * k + i) % 256 == i
  {
  }

  lemma RowColumn128(k: nat, i: nat)
    requires i < 128
    ensures (128 * k + i) / 128 == k && (128 * k + i) % 128 == i
  {
  }

  method FillBlockMasks(initPerm: seq<nat>, finalPerm: seq<nat>)
      returns (ipl: array<Word>, ipr: array<Word>, fpl: array<Word>, fpr: array<Word>)
    requires |initPerm| == |finalPerm| == 64
    requires forall x | 0 <= x < 64 :: initPerm[x] < 64 && finalPerm[x] < 64
    ensures fresh(ipl) && fresh(ipr) && fresh(fpl) && fresh(fpr)
    ensures Holds(ipl, Masks(initPerm, 8, 0, 32, 0), 8, 8) && Holds(ipr, Masks(initPerm, 8, 32, 64, 0), 8, 8)
    ensures Holds(fpl, Masks(finalPerm, 8, 0, 32, 0), 8, 8) && Holds(fpr, Masks(finalPerm, 8, 32, 64, 0), 8, 8)
  {
    ipl, ipr := new Word[8 * 256], new Word[8 * 256];
    fpl, fpr := new Word[8 * 256], new Word[8 * 256];
    ghost var a, b := Masks(initPerm, 8, 0, 32, 0), Masks(initPerm, 8, 32, 64, 0);
    ghost var c, d := Masks(finalPerm, 8, 0, 32, 0), Masks(finalPerm, 8, 32, 64, 0);
    for k := 0 to 8
      invariant FilledTo(ipl, a, 8, 8, 256 * k) && FilledTo(ipr, b, 8, 8, 256 * k)
      invariant FilledTo(fpl, c, 8, 8, 256 * k) && FilledTo(fpr, d, 8, 8, 256 * k)
    {
      for i := 0 to 256
        invariant FilledTo(ipl, a, 8, 8, 256 * k + i) && FilledTo(ipr, b, 8, 8, 256 * k + i)
        invariant FilledTo(fpl, c, 8, 8, 256 * k + i) && FilledTo(fpr, d, 8, 8, 256 * k + i)
      {
        FillBlockEntry(initPerm, finalPerm, ipl, ipr, fpl, fpr, k, i);
      }
    }
  }

  method FillBlockEntry(initPerm: seq<nat>, finalPerm: seq<nat>,
                        ipl: array<Word>, ipr: array<Word>, fpl: array<Word>, fpr: array<Word>, k: nat, i: nat)
    requires |initPerm| == |finalPerm| == 64 && k < 8 && i < 256
    requires forall x | 0 <= x < 64 :: initPerm[x] < 64 && finalPerm[x] < 64
    requires ipl != ipr && ipl != fpl && ipl != fpr && ipr != fpl && ipr != fpr && fpl != fpr
    requires FilledTo(ipl, Masks(initPerm, 8, 0, 32, 0), 8, 8, 256 * k + i)
    requires FilledTo(ipr, Masks(initPerm, 8, 32, 64, 0), 8, 8, 256 * k + i)
    requires FilledTo(fpl, Masks(finalPerm, 8, 0, 32, 0), 8, 8, 256 * k + i)
    requires FilledTo(fpr, Masks(finalPerm, 8, 32, 64, 0), 8, 8, 256 * k + i)
    modifies ipl, ipr, fpl, fpr
    ensures FilledTo(ipl, Masks(initPerm, 8, 0, 32, 0), 8, 8, 256 * k + i + 1)
    ensures FilledTo(ipr, Masks(initPerm, 8, 32, 64, 0), 8, 8, 256 * k + i + 1)
    ensures FilledTo(fpl, Masks(finalPerm, 8, 0, 32, 0), 8, 8, 256 * k + i + 1)
    ensures FilledTo(fpr, Masks(finalPerm, 8, 32, 64, 0), 8, 8, 256 * k + i + 1)
  {
    var il, ir, fl, fr := BlockMasks(initPerm, finalPerm, 8 * k, BitsOf(8, i));
    RowColumn256(k, i);
    Store(ipl, il, Masks(initPerm, 8, 0, 32, 0), 8, 8, 256 * k + i);
    Store(ipr, ir, Masks(initPerm, 8, 32, 64, 0), 8, 8, 256 * k + i);
    Store(fpl, fl, Masks(finalPerm, 8, 0, 32, 0), 8, 8, 256 * k + i);
    Store(fpr, fr, Masks(finalPerm, 8, 32, 64, 0), 8, 8, 256 * k + i);
  }

  /** One entry of a pair of seven-bit tables: PC-1 with half 28, PC-2 with half 24. */
  method KeyMasks(inverse: seq<nat>, base: nat, index: seq<bool>, half: nat, off: nat) returns (il: Word, ir: Word)
    requires base + |index| <= |inverse| && half + off <= 32 && 2 * half <= 255
    requires forall x | 0 <= x < |inverse| :: inverse[x] == 255 || inverse[x] < 2 * half
    ensures il == Entry(Masks(inverse, 7, 0, half, off), base, index)
    ensures ir == Entry(Masks(inverse, 7, half, 2 * half, off), base, index)
  {
    il, ir := Zero(), Zero();
    for j := 0 to |index|
      invariant il == Entry(Masks(inverse, 7, 0, half, off), base, index[..j])
      invariant ir == Entry(Masks(inverse, 7, half, 2 * half, off), base, index[..j])
    {
      assert index[..j + 1][..j] == index[..j];
      if index[j] {
        var obit := inverse[base + j];
        if obit == 255 {
          continue;
        }
        if obit < half {
          il := Or(il, One(obit + off));
        } else {
          ir := Or(ir, One(obit - half + off));
        }
      }
    }
    assert index[..|index|] == index;
  }

  /** The masks for PC-1 (stride 8, half 28) and for PC-2 (stride 7, half 24). */
  method FillKeyMasks(inverse: seq<nat>, stride: nat, half: nat, off: nat) returns (l: array<Word>, r: array<Word>)
    requires 7 <= stride && |inverse| == 8 * stride && half + off <= 32 && 2 * half <= 255
    requires forall x | 0 <= x < |inverse| :: inverse[x] == 255 || inverse[x] < 2 * half
    ensures fresh(l) && fresh(r)
    ensures Holds(l, Masks(inverse, 7, 0, half, off), stride, 8)
    ensures Holds(r, Masks(inverse, 7, half, 2 * half, off), stride, 8)
  {
    l, r := new Word[8 * 128], new Word[8 * 128];
    ghost var a, b := Masks(inverse, 7, 0, half, off), Masks(inverse, 7, half, 2 * half, off);
    for k := 0 to 8
      invariant FilledTo(l, a, stride, 8, 128 * k) && FilledTo(r, b, stride, 8, 128 * k)
    {
      for i := 0 to 128
        invariant FilledTo(l, a, stride, 8, 128 * k + i) && FilledTo(r, b, stride, 8, 128 * k + i)
      {
        FillKeyEntry(inverse, stride, half, off, l, r, k, i);
      }
    }
  }

  method FillKeyEntry(inverse: seq<nat>, stride: nat, half: nat, off: nat, l: array<Word>, r: array<Word>, k: nat, i: nat)
    requires 7 <= stride && |inverse| == 8 * stride && half + off <= 32 && 2 * half <= 255 && k < 8 && i < 128
    requires forall x | 0 <= x < |inverse| :: inverse[x] == 255 || inverse[x] < 2 * half
    requires l != r
    requires FilledTo(l, Masks(inverse, 7, 0, half, off), stride, 8, 128 * k + i)
    requires FilledTo(r, Masks(inverse, 7, half, 2 * half, off), stride, 8, 128 * k + i)
    modifies l, r
    ensures FilledTo(l, Masks(inverse, 7, 0, half, off), stride, 8, 128 * k + i + 1)
    ensures FilledTo(r, Masks(inverse, 7, half, 2 * half, off), stride, 8, 128 * k + i + 1)
  {
    var il, ir := KeyMasks(inverse, Base(k, stride), BitsOf(7, i), half, off);
    RowColumn128(k, i);
    Store(l, il, Masks(inverse, 7, 0, half, off), stride, 8, 128 * k + i);
    Store(r, ir, Masks(inverse, 7, half, 2 * half, off), stride, 8, 128 * k + i);
  }

  /** The inverse of P. */
  method InvertP(p: seq<nat>) returns (inverse: seq<nat>)
    requires |p| == 32 && forall i | 0 <= i < 32 :: 1 <= p[i] <= 32
    ensures inverse == Inverted(p, 32, 0)
  {
    var unPbox := new nat[32](i => 0);
    for i := 0 to 32
      invariant forall x | 0 <= x < 32 :: unPbox[x] == InverseAt(p, x, i, 0)
    {
      unPbox[p[i] - 1] := i;
    }
    inverse := unPbox[..];
  }

  /** The masks that spread an S-box byte over the word. */
  method FillPMasks(inverse: seq<nat>) returns (p: array<Word>)
    requires |inverse| == 32 && forall x | 0 <= x < 32 :: inverse[x] < 32
    ensures fresh(p) && Holds(p, Masks(inverse, 8, 0, 32, 0), 8, 4)
  {
    p := new Word[4 * 256];
    ghost var m := Masks(inverse, 8, 0, 32, 0);
    for b := 0 to 4
      invariant FilledTo(p, m, 8, 4, 256 * b)
    {
      for i := 0 to 256
        invariant FilledTo(p, m, 8, 4, 256 * b + i)
      {
        var w := PMask(inverse, 8 * b, BitsOf(8, i));
        RowColumn256(b, i);
        Store(p, w, m, 8, 4, 256 * b + i);
      }
    }
  }

  method PMask(inverse: seq<nat>, base: nat, index: seq<bool>) returns (w: Word)
    requires |inverse| == 32 && (forall x | 0 <= x < 32 :: inverse[x] < 32) && base + |index| <= 32
    ensures w == Entry(Masks(inverse, 8, 0, 32, 0), base, index)
  {
    w := Zero();
    for j := 0 to |index|
      invariant w == Entry(Masks(inverse, 8, 0, 32, 0), base, index[..j])
    {
      assert index[..j + 1][..j] == index[..j];
      if index[j] {
        w := Or(w, One(inverse[base + j]));
      }
    }
    assert index[..|index|] == index;
  }
}
