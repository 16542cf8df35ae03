/** des_ctx_init, setup_salt, des_setkey and do_des of telnetd/des.c, over the tables that
    des_init fills. */
module DesCipher {
  import opened Bits
  import opened Fips46
  import opened FipsLaws
  import opened DesMasks
  import opened DesRound
  import opened DesKeys
  import opened DesInit

  // Table lookups.

  /** One lookup: tab[k][value of the index bits]. */
  method Read(a: array<Word>, k: nat, index: seq<bool>, ghost m: Masks, ghost stride: nat, ghost rows: nat)
    returns (w: Word)
    requires Holds(a, m, stride, rows) && k < rows && |index| == m.width
    ensures w == Entry(m, Base(k, stride), index)
  {
    ValueRoundTrip(index);
    var v := Value(index);
    if |index| == 8 {
      IndexBound8(v);
      RowColumn256(k, v);
      w := a[256 * k + v];
    } else {
      IndexBound7(v);
      RowColumn128(k, v);
      w := a[128 * k + v];
    }
  }

  lemma IndexBound8(v: nat)
    requires v < Pow2(8)
    ensures v < 256
  {
    assert Pow2(4) == 16;
  }

  lemma IndexBound7(v: nat)
    requires v < Pow2(7)
    ensures v < 128
  {
    assert Pow2(4) == 16;
  }

  lemma OrZero()
    ensures Or(Zero(), Zero()) == Zero()
  {
  }

  /** Eight lookups OR-ed together. */
  method Lookup(a: array<Word>, x: seq<seq<bool>>, ghost m: Masks, ghost stride: nat) returns (w: Word)
    requires Holds(a, m, stride, 8) && Fits(m, stride, x)
    ensures w == Lookup8(m, stride, x)
  {
    w := Read(a, 0, x[0], m, stride, 8);
    OrZeroLeft(w);
    assert w == Lookups(m, stride, x, 1);
    for k := 1 to 8
      invariant w == Lookups(m, stride, x, k)
    {
      var e := Read(a, k, x[k], m, stride, 8);
      w := Or(w, e);
    }
  }

  lemma OrZeroLeft(w: Word)
    ensures Or(Zero(), w) == w
  {
  }

  /** IP or its inverse: both halves of a block looked up in a pair of mask tables. */
  method Permute(a: array<Word>, b: array<Word>, l: Word, r: Word, ghost left: Masks, ghost right: Masks, ghost table: seq<nat>)
    returns (l': Word, r': Word)
    requires Holds(a, left, 8, 8) && Holds(b, right, 8, 8)
    requires left.perm == right.perm && |left.perm| == 64 && left.width == right.width == 8
    requires left.lo == 0 && left.hi == 32 == right.lo && right.hi == 64 && left.off == right.off == 0
    requires |table| == 64 && InverseOf(left.perm, table)
    ensures l' + r' == Select(l + r, table)
  {
    l' := Lookup(a, Bytes(l, r), left, 8);
    r' := Lookup(b, Bytes(l, r), right, 8);
    BlockPermutation(left, right, table, l, r);
  }

  /** One packed S-box lookup followed by its P-box masks: psbox[b][m_sbox[b][v]]. */
  method ReadBox(f: Fixed, b: nat, v: nat, ghost index: seq<bool>) returns (w: Word)
    requires f.Valid() && f.initialised && b < 4 && |index| == 12 && v == Value(index)
    ensures w == Entry(PMasks(f.t), 8 * b, BitsOf(8, MByte(f.t.s, b, index)))
  {
    SplitIndex(index);
    assert (4096 * b + v) / 4096 == b && (4096 * b + v) % 4096 == v;
    var m := f.mSbox[4096 * b + v];
    RowColumn256(b, m);
    w := f.psbox[256 * b + m];
  }

  // The salt.

  /** saltbits: the low 24 bits of the salt in reverse order. */
  function SaltBits(salt: Word): Word {
    seq(32, i requires 0 <= i < 32 => i >= 8 && salt[39 - i])
  }

  lemma TestBit(w: Word, o: nat)
    requires o < 32
    ensures And(w, One(o)) != Zero() <==> w[o]
  {
    assert And(w, One(o))[o] == w[o];
    if !w[o] {
      assert And(w, One(o)) == Zero();
    }
  }

  /** The loop of setup_salt: one bit walks up the salt while another walks down saltbits. */
  method ReverseSalt(salt: Word) returns (saltbits: Word)
    ensures saltbits == SaltBits(salt)
  {
    saltbits := Zero();
    var saltbit, obit := One(31), One(8);
    var i := 0;
    while i < 24
      invariant 0 <= i <= 24
      invariant saltbit == One(31 - i) && (i < 24 ==> obit == One(8 + i))
      invariant forall o | 0 <= o < 32 :: saltbits[o] == (8 <= o < 8 + i && salt[39 - o])
    {
      TestBit(salt, 31 - i);
      if And(salt, saltbit) != Zero() {
        saltbits := Or(saltbits, obit);
      }
      saltbit := Shl(saltbit, 1);
      obit := Shr(obit, 1);
      i := i + 1;
    }
  }

  // The key.

  function ScheduleLeft(t: Tables, a: Word, b: Word): (ks: seq<Word>)
    requires t.WellFormed()
    ensures |ks| == 16
  {
    seq(16, i requires 0 <= i < 16 => SubkeyLeft(t, a, b, i))
  }

  function ScheduleRight(t: Tables, a: Word, b: Word): (ks: seq<Word>)
    requires t.WellFormed()
    ensures |ks| == 16
  {
    seq(16, i requires 0 <= i < 16 => SubkeyRight(t, a, b, i))
  }

  /** The subkeys held in two arrays of 24-bit halves. */
  function Joined(l: seq<Word>, r: seq<Word>): (ks: seq<seq<bool>>)
    requires |l| == 16 && |r| == 16
    ensures Schedule(ks)
  {
    seq(16, i requires 0 <= i < 16 => l[i][8..] + r[i][8..])
  }

  predicate AllIs24(ks: seq<Word>) {
    forall i | 0 <= i < |ks| :: Is24(ks[i])
  }

  /** Enciphering and deciphering keys of a context are the schedule of the standard, forwards and backwards. */
  lemma ScheduleIsStandard(t: Tables, a: Word, b: Word)
    requires t.WellFormed()
    ensures AllIs24(ScheduleLeft(t, a, b)) && AllIs24(ScheduleRight(t, a, b))
    ensures AllIs24(Reverse(ScheduleLeft(t, a, b))) && AllIs24(Reverse(ScheduleRight(t, a, b)))
    ensures Joined(ScheduleLeft(t, a, b), ScheduleRight(t, a, b)) == KeySchedule(t, a + b)
    ensures Joined(Reverse(ScheduleLeft(t, a, b)), Reverse(ScheduleRight(t, a, b))) == Reverse(KeySchedule(t, a + b))
  {
    var l, r, ks := ScheduleLeft(t, a, b), ScheduleRight(t, a, b), KeySchedule(t, a + b);
    forall i | 0 <= i < 16
      ensures Is24(l[i]) && Is24(r[i]) && l[i][8..] + r[i][8..] == ks[i]
    {
      SubkeyIsStandard(t, a, b, i);
    }
    assert Joined(l, r) == ks;
    assert Joined(Reverse(l), Reverse(r)) == Reverse(ks);
  }

  datatype Outcome = Failed | Done(l: Word, r: Word)

  class Context {
    const t: Tables
    const enKeysL: array<Word>
    const enKeysR: array<Word>
    const deKeysL: array<Word>
    const deKeysR: array<Word>
    var saltbits: Word
    var oldSalt: Word
    var oldRaw0: Word
    var oldRaw1: Word
    ghost var keyed: bool   // some key has been set

    /** The key arrays hold the schedule of the key words a and b. */
    ghost predicate KeysFor(a: Word, b: Word)
      requires t.WellFormed()
      reads enKeysL, enKeysR, deKeysL, deKeysR
    {
      && enKeysL[..] == ScheduleLeft(t, a, b) && enKeysR[..] == ScheduleRight(t, a, b)
      && deKeysL[..] == Reverse(ScheduleLeft(t, a, b)) && deKeysR[..] == Reverse(ScheduleRight(t, a, b))
    }

    ghost predicate Valid()
      reads this, enKeysL, enKeysR, deKeysL, deKeysR
    {
      && t.WellFormed()
      && enKeysL.Length == enKeysR.Length == deKeysL.Length == deKeysR.Length == 16
      && enKeysL != enKeysR && enKeysL != deKeysL && enKeysL != deKeysR
      && enKeysR != deKeysL && enKeysR != deKeysR && deKeysL != deKeysR
      && saltbits == SaltBits(oldSalt)
      && (if keyed then KeysFor(oldRaw0, oldRaw1) else oldRaw0 == Zero() && oldRaw1 == Zero())
    }

    /** des_ctx_init: zero salt, zero cached key; the key arrays hold whatever malloc left. */
    constructor (t: Tables)
      requires t.WellFormed()
      ensures Valid() && this.t == t && !keyed && oldSalt == Zero()
      ensures fresh(enKeysL) && fresh(enKeysR) && fresh(deKeysL) && fresh(deKeysR)
    {
      this.t := t;
      enKeysL := new Word[16];
      enKeysR := new Word[16];
      deKeysL := new Word[16];
      deKeysR := new Word[16];
      oldRaw0, oldRaw1 := Zero(), Zero();
      saltbits, oldSalt := Zero(), Zero();
      keyed := false;
    }

    /** Whatever was set before, the salt bits are those of the salt given now. */
    method SetupSalt(salt: Word)
      requires Valid()
      modifies this`saltbits, this`oldSalt
      ensures Valid() && saltbits == SaltBits(salt) && oldSalt == salt
    {
      if salt == oldSalt {
        return;
      }
      oldSalt := salt;
      saltbits := ReverseSalt(salt);
    }

    /** Whatever was set before, and whether or not the cache answers, the key arrays hold
        the schedule of the key given now. */
    method SetKey(f: Fixed, raw0: Word, raw1: Word)
      requires Valid() && f.Valid() && f.initialised && f.t == t
      requires {enKeysL, enKeysR, deKeysL, deKeysR} !! f.WordTables()
      modifies this`oldRaw0, this`oldRaw1, this`keyed, enKeysL, enKeysR, deKeysL, deKeysR
      ensures Valid() && keyed && oldRaw0 == raw0 && oldRaw1 == raw1
    {
      if Or(raw0, raw1) != Zero() && raw0 == oldRaw0 && raw1 == oldRaw1 {
        OrZero();
        return;
      }
      oldRaw0, oldRaw1 := raw0, raw1;
      var k0 := Lookup(f.keyPermMaskL, KeyFields(raw0, raw1), KeyLeft(t), 8);
      var k1 := Lookup(f.keyPermMaskR, KeyFields(raw0, raw1), KeyRight(t), 8);
      FillSchedule(f, raw0, raw1, k0, k1);
      keyed := true;
    }

    /** The sixteen rounds of the schedule. */
    method FillSchedule(f: Fixed, ghost raw0: Word, ghost raw1: Word, k0: Word, k1: Word)
      requires t.WellFormed() && f.t == t && f.KeysFilled()
      requires enKeysL.Length == enKeysR.Length == deKeysL.Length == deKeysR.Length == 16
      requires enKeysL != enKeysR && enKeysL != deKeysL && enKeysL != deKeysR
      requires enKeysR != deKeysL && enKeysR != deKeysR && deKeysL != deKeysR
      requires {enKeysL, enKeysR, deKeysL, deKeysR} !! f.WordTables()
      requires k0 == KeyHalf(KeyLeft(t), raw0, raw1) && k1 == KeyHalf(KeyRight(t), raw0, raw1)
      modifies enKeysL, enKeysR, deKeysL, deKeysR
      ensures KeysFor(raw0, raw1)
    {
      ghost var l, r := ScheduleLeft(t, raw0, raw1), ScheduleRight(t, raw0, raw1);
      var shifts := 0;
      for round := 0 to 16
        invariant shifts == if round == 0 then 0 else TotalShift(round - 1)
        invariant f.KeysFilled() && Stored(l, r, round)
      {
        shifts := shifts + KeyShift(round);
        var kl, kr := CompressRound(f, raw0, raw1, k0, k1, shifts, round);
        StoreRound(l, r, round, kl, kr);
      }
      AllStored(l, r);
    }

    /** The keys of the first n rounds are in place, in both orders. */
    ghost predicate Stored(l: seq<Word>, r: seq<Word>, n: nat)
      requires n <= 16 && |l| == |r| == 16
      reads enKeysL, enKeysR, deKeysL, deKeysR
    {
      && enKeysL.Length == enKeysR.Length == deKeysL.Length == deKeysR.Length == 16
      && (forall i | 0 <= i < n :: enKeysL[i] == l[i] && enKeysR[i] == r[i])
      && (forall i | 16 - n <= i < 16 :: deKeysL[i] == l[15 - i] && deKeysR[i] == r[15 - i])
    }

    lemma AllStored(l: seq<Word>, r: seq<Word>)
      requires |l| == |r| == 16 && Stored(l, r, 16)
      ensures enKeysL[..] == l && enKeysR[..] == r && deKeysL[..] == Reverse(l) && deKeysR[..] == Reverse(r)
    {
    }

    method StoreRound(ghost l: seq<Word>, ghost r: seq<Word>, round: nat, kl: Word, kr: Word)
      requires |l| == |r| == 16 && round < 16 && Stored(l, r, round) && kl == l[round] && kr == r[round]
      requires enKeysL != enKeysR && enKeysL != deKeysL && enKeysL != deKeysR
      requires enKeysR != deKeysL && enKeysR != deKeysR && deKeysL != deKeysR
      modifies enKeysL, enKeysR, deKeysL, deKeysR
      ensures Stored(l, r, round + 1)
    {
      enKeysL[round], deKeysL[15 - round] := kl, kl;
      enKeysR[round], deKeysR[15 - round] := kr, kr;
    }

    /** One round: the original halves rotated by the total shift, then compressed. */
    method CompressRound(f: Fixed, ghost raw0: Word, ghost raw1: Word, k0: Word, k1: Word, shifts: nat, ghost round: nat)
        returns (kl: Word, kr: Word)
      requires t.WellFormed() && f.t == t && f.KeysFilled() && round < 16 && shifts == TotalShift(round)
      requires k0 == KeyHalf(KeyLeft(t), raw0, raw1) && k1 == KeyHalf(KeyRight(t), raw0, raw1)
      ensures kl == SubkeyLeft(t, raw0, raw1, round) && kr == SubkeyRight(t, raw0, raw1, round)
    {
      TotalShiftBound(round);
      var t0, t1 := Rotated(k0, shifts), Rotated(k1, shifts);
      kl := Lookup(f.compMaskL, Sevens(t0, t1), CompLeft(t), 7);
      kr := Lookup(f.compMaskR, Sevens(t0, t1), CompRight(t), 7);
    }

    /** do_des: enciphers (count > 0) or deciphers (count < 0) |count| times; 0 is refused. */
    method DoDes(f: Fixed, lIn: Word, rIn: Word, count: int) returns (o: Outcome)
      requires Valid() && keyed && f.Valid() && f.initialised && f.t == t
      ensures o == DesOutcome(Des(t, saltbits[8..]), KeySchedule(t, oldRaw0 + oldRaw1), lIn, rIn, count)
    {
      if count == 0 {
        return Failed;
      }
      ghost var ks := KeySchedule(t, oldRaw0 + oldRaw1);
      ScheduleIsStandard(t, oldRaw0, oldRaw1);
      if count > 0 {
        o := RunDes(f, lIn, rIn, count, enKeysL, enKeysR, ks);
      } else {
        o := RunDes(f, lIn, rIn, -count, deKeysL, deKeysR, Reverse(ks));
      }
    }

    /** IP, the passes, and the final permutation, with the chosen keys. */
    method RunDes(f: Fixed, lIn: Word, rIn: Word, count: nat, kl: array<Word>, kr: array<Word>, ghost ks: seq<seq<bool>>)
      returns (o: Outcome)
      requires Valid() && f.Valid() && f.initialised && f.t == t && count > 0
      requires kl.Length == kr.Length == 16 && AllIs24(kl[..]) && AllIs24(kr[..]) && Joined(kl[..], kr[..]) == ks
      ensures o == Run(Des(t, saltbits[8..]), ks, lIn, rIn, count)
    {
      var l, r := Permute(f.ipMaskL, f.ipMaskR, lIn, rIn, IpLeft(t), IpRight(t), t.ip) by { InitPermInverse(t); }
      l, r := RunPasses(f, l, r, count, kl, kr, ks);
      l, r := Permute(f.fpMaskL, f.fpMaskR, l, r, FpLeft(t), FpRight(t), t.fp) by { FinalPermInverse(t); }
      InnerPermutationsCancel(Des(t, saltbits[8..]), lIn + rIn, ks, count);
      o := Done(l, r);
    }

    /** The outer loop: count passes. */
    method RunPasses(f: Fixed, l0: Word, r0: Word, count: nat, kl: array<Word>, kr: array<Word>, ghost ks: seq<seq<bool>>)
      returns (l: Word, r: Word)
      requires Valid() && f.Valid() && f.initialised && f.t == t
      requires kl.Length == kr.Length == 16 && AllIs24(kl[..]) && AllIs24(kr[..]) && Joined(kl[..], kr[..]) == ks
      ensures l + r == Passes(Des(t, saltbits[8..]), l0 + r0, ks, count)
    {
      l, r := l0, r0;
      var n := 0;
      while n < count
        invariant 0 <= n <= count
        invariant l + r == Passes(Des(t, saltbits[8..]), l0 + r0, ks, n)
      {
        l, r := OnePass(f, l, r, kl, kr, ks);
        n := n + 1;
      }
    }

    /** Sixteen rounds, and the exchange of the halves that ends them. */
    method OnePass(f: Fixed, l0: Word, r0: Word, kl: array<Word>, kr: array<Word>, ghost ks: seq<seq<bool>>)
      returns (l: Word, r: Word)
      requires Valid() && f.Valid() && f.initialised && f.t == t
      requires kl.Length == kr.Length == 16 && AllIs24(kl[..]) && AllIs24(kr[..]) && Joined(kl[..], kr[..]) == ks
      ensures l + r == Pass(Des(t, saltbits[8..]), l0 + r0, ks)
    {
      ghost var c := Des(t, saltbits[8..]);
      assert (l0 + r0)[..32] == l0 && (l0 + r0)[32..] == r0;
      l, r := l0, r0;
      var v: Word := r0;
      for round := 0 to 16
        invariant (l, r) == Rounds(c, l0, r0, ks, round)
        invariant v == r
      {
        v := CipherRound(f, r, kl[round], kr[round]);
        assert ks[round] == kl[round][8..] + kr[round][8..];
        XorSwap(v, l);
        v := Xor(v, l);
        l := r;
        r := v;
      }
      r := l;
      l := v;
    }

    /** One evaluation of f: expansion, salt, key, S-boxes and P-box by table lookup. */
    method CipherRound(f: Fixed, r: Word, kl: Word, kr: Word) returns (v: Word)
      requires Valid() && f.Valid() && f.initialised && f.t == t && Is24(kl) && Is24(kr)
      ensures v == Cipher(t, r, saltbits[8..], kl[8..] + kr[8..])
    {
      var r48l, r48r := R48l(r), R48r(r);
      v := And(Xor(r48l, r48r), saltbits);
      r48l := Xor(r48l, Xor(v, kl));
      r48r := Xor(r48r, Xor(v, kr));
      UnmaskedIndex(r, saltbits, kl, kr);
      // r48l >> 12 is not masked: its upper bits are zero.
      var v0 := ReadBox(f, 0, Value(r48l[..20]), Field(r48l, 12, 12));
      var v1 := ReadBox(f, 1, Value(Field(r48l, 0, 12)), Field(r48l, 0, 12));
      var v2 := ReadBox(f, 2, Value(r48r[..20]), Field(r48r, 12, 12));
      var v3 := ReadBox(f, 3, Value(Field(r48r, 0, 12)), Field(r48r, 0, 12));
      v := Or(Or(Or(v0, v1), v2), v3);
      RoundIsCipher(t, r, saltbits, kl, kr);
    }
  }

  /** A call that a client of a context makes. */
  datatype Call = Salt(salt: Word) | Key(raw0: Word, raw1: Word)

  function LastSalt(calls: seq<Call>): Word {
    if calls == [] then Zero()
    else if calls[|calls| - 1].Salt? then calls[|calls| - 1].salt
    else LastSalt(calls[..|calls| - 1])
  }

  /** The last key, if there was one; the first component says so. */
  function LastKey(calls: seq<Call>): (bool, Word, Word) {
    if calls == [] then (false, Zero(), Zero())
    else if calls[|calls| - 1].Key? then (true, calls[|calls| - 1].raw0, calls[|calls| - 1].raw1)
    else LastKey(calls[..|calls| - 1])
  }

  /** The caches are transparent: after any sequence of calls on a new context the salt bits
      and all subkeys are those of the last salt and the last key. */
  method Replay(f: Fixed, calls: seq<Call>) returns (ctx: Context)
    requires f.Valid() && f.initialised
    ensures ctx.Valid() && ctx.t == f.t && ctx.saltbits == SaltBits(LastSalt(calls))
    ensures LastKey(calls).0 ==> ctx.KeysFor(LastKey(calls).1, LastKey(calls).2)
  {
    ctx := new Context(f.t);
    var i := 0;
    assert calls[..0] == [];
    while i < |calls|
      invariant 0 <= i <= |calls| && f.Valid() && f.initialised && fresh(ctx) && ctx.Valid() && ctx.t == f.t
      invariant fresh({ctx.enKeysL, ctx.enKeysR, ctx.deKeysL, ctx.deKeysR})
      invariant ctx.oldSalt == LastSalt(calls[..i]) && ctx.keyed == LastKey(calls[..i]).0
      invariant ctx.keyed ==> ctx.oldRaw0 == LastKey(calls[..i]).1 && ctx.oldRaw1 == LastKey(calls[..i]).2
    {
      assert calls[..i + 1][..i] == calls[..i];
      match calls[i] {
        case Salt(salt) => ctx.SetupSalt(salt);
        case Key(raw0, raw1) => ctx.SetKey(f, raw0, raw1);
      }
      i := i + 1;
    }
    assert calls[..i] == calls;
  }

  lemma XorSwap(a: Word, b: Word)
    ensures Xor(a, b) == Xor(b, a)
  {
  }

  /** The unmasked index r48l >> 12 stays inside its table of 4096 entries: it is the value of
      the twelve bits alone. */
  lemma UnmaskedIndex(r: Word, salt: Word, kl: Word, kr: Word)
    requires Is24(salt) && Is24(kl) && Is24(kr)
    ensures
      var a, b := Mixed(R48l(r), R48l(r), R48r(r), salt, kl), Mixed(R48r(r), R48l(r), R48r(r), salt, kr);
      && Value(a[..20]) == Value(Field(a, 12, 12)) < 4096
      && Value(b[..20]) == Value(Field(b, 12, 12)) < 4096
  {
    var a, b := Mixed(R48l(r), R48l(r), R48r(r), salt, kl), Mixed(R48r(r), R48l(r), R48r(r), salt, kr);
    forall i | 0 <= i < 8
      ensures !a[i] && !b[i]
    {
      MixedBits(r, salt, kl, kr, i);
    }
    assert a[..20] == a[..8] + Field(a, 12, 12) && b[..20] == b[..8] + Field(b, 12, 12);
    LeadingZeros(a[..8], Field(a, 12, 12));
    LeadingZeros(b[..8], Field(b, 12, 12));
    SplitIndex(Field(a, 12, 12));
    SplitIndex(Field(b, 12, 12));
  }

  /** A block of two words enciphered n times. */
  function Run(c: Network, ks: seq<seq<bool>>, l: Word, r: Word, n: nat): Outcome
    requires c.WellFormed() && Schedule(ks)
  {
    var out := EncipherTimes(c, l + r, ks, n);
    Done(out[..32], out[32..])
  }

  lemma RunUndone(c: Network, ks: seq<seq<bool>>, l: Word, r: Word, n: nat)
    requires c.WellFormed() && Schedule(ks)
    ensures
      var o := Run(c, ks, l, r, n);
      Run(c, Reverse(ks), o.l, o.r, n) == Done(l, r)
  {
    var o, out := Run(c, ks, l, r, n), EncipherTimes(c, l + r, ks, n);
    DecipherTimes(c, l + r, ks, n);
    assert o.l + o.r == out;
    assert (l + r)[..32] == l && (l + r)[32..] == r;
  }

  lemma RunSplit(c: Network, ks: seq<seq<bool>>, l: Word, r: Word, m: nat, n: nat)
    requires c.WellFormed() && Schedule(ks)
    ensures
      var o := Run(c, ks, l, r, m);
      Run(c, ks, o.l, o.r, n) == Run(c, ks, l, r, m + n)
  {
    var o := Run(c, ks, l, r, m);
    assert o.l + o.r == EncipherTimes(c, l + r, ks, m);
    EncipherSplit(c, l + r, ks, m, n);
  }

  lemma RunComplement(c: Network, ks: seq<seq<bool>>, l: Word, r: Word, n: nat)
    requires c.WellFormed() && Blind(c) && Schedule(ks)
    ensures
      var o := Run(c, ks, l, r, n);
      Run(c, ComplementAll(ks), Complement(l), Complement(r), n) == Done(Complement(o.l), Complement(o.r))
  {
    EncipherTimesComplement(c, l + r, ks, n);
    assert Complement(l) + Complement(r) == Complement(l + r);
  }

  function Magnitude(count: int): nat {
    if count > 0 then count else -count
  }

  /** The keys that do_des uses for a count: reversed for a negative one. */
  function KeysForCount(ks: seq<seq<bool>>, count: int): (r: seq<seq<bool>>)
    requires Schedule(ks)
    ensures Schedule(r)
  {
    if count > 0 then ks else Reverse(ks)
  }

  /** What do_des returns, in terms of the standard: the block enciphered |count| times with
      the key schedule, or with the reversed schedule for a negative count. */
  function DesOutcome(c: Network, ks: seq<seq<bool>>, l: Word, r: Word, count: int): Outcome
    requires c.WellFormed() && Schedule(ks)
  {
    if count == 0 then Failed
    else Run(c, KeysForCount(ks, count), l, r, Magnitude(count))
  }

  /** Deciphering undoes enciphering and the other way round, for every block, key schedule,
      salt and iteration count. */
  lemma DesInverse(c: Network, ks: seq<seq<bool>>, l: Word, r: Word, count: int)
    requires c.WellFormed() && Schedule(ks) && count != 0
    ensures
      var o := DesOutcome(c, ks, l, r, count);
      DesOutcome(c, ks, o.l, o.r, -count) == Done(l, r)
  {
    assert Reverse(KeysForCount(ks, count)) == KeysForCount(ks, -count);
    RunUndone(c, KeysForCount(ks, count), l, r, Magnitude(count));
  }

  /** One call with count m + n is a call with count m followed by one with count n; so count
      n is n calls with count 1. */
  lemma DesIterates(c: Network, ks: seq<seq<bool>>, l: Word, r: Word, m: int, n: int)
    requires c.WellFormed() && Schedule(ks) && ((m > 0 && n > 0) || (m < 0 && n < 0))
    ensures
      var o := DesOutcome(c, ks, l, r, m);
      DesOutcome(c, ks, o.l, o.r, n) == DesOutcome(c, ks, l, r, m + n)
  {
    RunTwice(c, KeysForCount(ks, m), KeysForCount(ks, n), KeysForCount(ks, m + n), l, r,
             Magnitude(m), Magnitude(n), Magnitude(m + n));
  }

  lemma RunTwice(c: Network, k1: seq<seq<bool>>, k2: seq<seq<bool>>, k3: seq<seq<bool>>, l: Word, r: Word,
                 m: nat, n: nat, total: nat)
    requires c.WellFormed() && Schedule(k1) && k1 == k2 && k2 == k3 && total == m + n
    ensures
      var o := Run(c, k1, l, r, m);
      Run(c, k2, o.l, o.r, n) == Run(c, k3, l, r, total)
  {
    RunSplit(c, k1, l, r, m, n);
  }

  lemma OutcomeComplement(c: Network, ks: seq<seq<bool>>, l: Word, r: Word, count: int)
    requires c.WellFormed() && Blind(c) && Schedule(ks) && count != 0
    ensures
      var o := DesOutcome(c, ks, l, r, count);
      DesOutcome(c, ComplementAll(ks), Complement(l), Complement(r), count) == Done(Complement(o.l), Complement(o.r))
  {
    assert KeysForCount(ComplementAll(ks), count) == ComplementAll(KeysForCount(ks, count));
    RunComplement(c, KeysForCount(ks, count), l, r, Magnitude(count));
  }

  /** The complementation property: complementing the whole key and the block complements the
      outcome, for every salt and count. */
  lemma DesComplement(t: Tables, salt: seq<bool>, key: seq<bool>, l: Word, r: Word, count: int)
    requires t.WellFormed() && |salt| == 24 && |key| == 64 && count != 0
    ensures
      var o := DesOutcome(Des(t, salt), KeySchedule(t, key), l, r, count);
      DesOutcome(Des(t, salt), KeySchedule(t, Complement(key)), Complement(l), Complement(r), count) == Done(Complement(o.l), Complement(o.r))
  {
    DesIsBlind(t, salt);
    ScheduleComplement(t, key);
    OutcomeComplement(Des(t, salt), KeySchedule(t, key), l, r, count);
  }
}
