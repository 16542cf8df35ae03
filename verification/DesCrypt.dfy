/** __des_crypt_r of telnetd/des.c: the password is copied into a key, a zero block is
    enciphered 25 times under a 12-bit salt, and the result is written in the 64-symbol
    alphabet. Characters are their codes, 0..255. */
module DesCrypt {
  import opened Bits
  import opened Fips46
  import opened DesMasks
  import opened DesRound
  import opened DesInit
  import opened DesKeys
  import opened DesCipher

  // The alphabet.

  /** ascii64, "./0-9A-Za-z", as character codes: '.', '/' and the digits are consecutive. */
  function Ascii64(i: nat): (c: nat)
    requires i < 64
  {
    if i < 12 then '.' as nat + i else if i < 38 then 'A' as nat + i - 12 else 'a' as nat + i - 38
  }

  function AsciiToBin(ch: nat): (v: nat) {
    if ch > 'z' as nat then 0
    else if ch >= 'a' as nat then ch - 'a' as nat + 38
    else if ch > 'Z' as nat then 0
    else if ch >= 'A' as nat then ch - 'A' as nat + 12
    else if ch > '9' as nat then 0
    else if ch >= '.' as nat then ch - '.' as nat
    else 0
  }

  /** ascii_to_bin inverts ascii64 on all 64 symbols. */
  lemma AsciiRoundTrip(i: nat)
    requires i < 64
    ensures AsciiToBin(Ascii64(i)) == i && 0 < Ascii64(i) < 128
  {
  }

  predicate IsSymbol(c: nat) {
    c == '.' as nat || c == '/' as nat || '0' as nat <= c <= '9' as nat
    || 'A' as nat <= c <= 'Z' as nat || 'a' as nat <= c <= 'z' as nat
  }

  /** The alphabet is these 64 symbols in the order of their codes. */
  lemma AlphabetInOrder(i: nat, j: nat)
    requires i < j < 64
    ensures IsSymbol(Ascii64(i)) && IsSymbol(Ascii64(j)) && Ascii64(i) < Ascii64(j)
  {
  }

  // The key.

  /** Where the copy of the key stops advancing: at the first character whose low seven bits
      are zero, which is the terminator or the character 128. */
  function Stop(key: seq<nat>): (n: nat)
    requires |key| > 0 && key[|key| - 1] == 0
    ensures n < |key| && key[n] % 128 == 0
    ensures forall i | 0 <= i < n :: key[i] % 128 != 0
  {
    if key[0] % 128 == 0 then 0 else 1 + Stop(key[1..])
  }

  /** What the copy leaves in the key buffer. */
  function CopiedKey(key: seq<nat>): (r: seq<nat>)
    requires |key| > 0 && key[|key| - 1] == 0
    ensures |r| == 8
  {
    seq(8, i requires 0 <= i < 8 => if i < Stop(key) then 2 * key[i] % 256 else 0)
  }

  /** Copies a terminated string, shifting every character up by one bit and padding with
      zeros. Reading never goes past the terminator: the read position stays at Stop(key). */
  method CopyKey(key: seq<nat>) returns (keybuf: seq<nat>)
    requires |key| > 0 && key[|key| - 1] == 0
    ensures keybuf == CopiedKey(key)
  {
    var q := new nat[8];
    var p := 0;
    var n := 0;
    while n < 8
      invariant 0 <= n <= 8 && p == (if n < Stop(key) then n else Stop(key))
      invariant forall i | 0 <= i < n :: q[i] == if i < Stop(key) then 2 * key[i] % 256 else 0
    {
      q[n] := 2 * key[p] % 256;
      n := n + 1;
      if q[n - 1] != 0 {
        p := p + 1;
      }
    }
    keybuf := q[..];
  }

  /** The first eight characters of a string, shifted and padded: what the comment promises. */
  function Padded(text: seq<nat>): (r: seq<nat>)
    ensures |r| == 8
  {
    seq(8, i requires 0 <= i < 8 => if i < |text| then 2 * text[i] % 256 else 0)
  }

  /** Among the first eight characters, only characters 128 follow a character 128. */
  predicate Only128After(text: seq<nat>, i: nat)
    requires i < |text|
  {
    text[i] == 128 ==> forall j | i < j < |text| && j < 8 :: text[j] == 128
  }

  lemma StopOfText(text: seq<nat>)
    requires forall i | 0 <= i < |text| :: 0 < text[i] < 256
    ensures Stop(text + [0]) <= |text|
    ensures Stop(text + [0]) < |text| ==> text[Stop(text + [0])] == 128
    ensures forall i | 0 <= i < Stop(text + [0]) :: text[i] != 128
  {
    var key := text + [0];
    var n := Stop(key);
    forall i | 0 <= i < n
      ensures text[i] != 128
    {
      assert key[i] % 128 != 0;
    }
    if n < |text| {
      assert key[n] == text[n];
      Multiple128(text[n]);
    }
  }

  lemma Multiple128(c: nat)
    requires 0 < c < 256 && c % 128 == 0
    ensures c == 128
  {
  }

  lemma Shift128(c: nat)
    requires 0 < c < 256
    ensures 2 * c % 256 == 0 <==> c == 128
  {
  }

  /** The copy is as promised exactly when, among the first eight characters, nothing but
      characters 128 follows a character 128; in particular for every 7-bit string. */
  lemma CopyKeyAsPromised(text: seq<nat>)
    requires forall i | 0 <= i < |text| :: 0 < text[i] < 256
    ensures CopiedKey(text + [0]) == Padded(text) <==> forall i | 0 <= i < |text| :: Only128After(text, i)
  {
    var a, b, n := CopiedKey(text + [0]), Padded(text), Stop(text + [0]);
    StopOfText(text);
    if forall i | 0 <= i < |text| :: Only128After(text, i) {
      forall k | 0 <= k < 8
        ensures a[k] == b[k]
      {
        if n <= k < |text| {
          assert Only128After(text, n);
          assert text[k] == 128;
        }
      }
      assert a == b;
    } else {
      var i :| 0 <= i < |text| && !Only128After(text, i);
      var j :| i < j < |text| && j < 8 && text[j] != 128;
      assert n <= i;
      Shift128(text[j]);
      assert a[j] != b[j];
    }
  }

  /** It is not as promised for a character 128 followed by an A: the copy stops at the first. */
  lemma CopyKeyStopsEarly()
    ensures CopiedKey([128, 65, 0]) == [0, 0, 0, 0, 0, 0, 0, 0]
    ensures Padded([128, 65]) == [0, 130, 0, 0, 0, 0, 0, 0]
  {
    assert Stop([128, 65, 0]) == 0;
  }

  /** A 32-bit word read from four bytes, most significant first (ntohl). */
  function RawWord(b: seq<nat>): Word
    requires |b| == 4
  {
    BitsOf(8, b[0]) + BitsOf(8, b[1]) + BitsOf(8, b[2]) + BitsOf(8, b[3])
  }

  // The result.

  /** The six bits of l that select a symbol: ascii64[(l >> shift) & 0x3f]. */
  function Symbol(l: Word, shift: nat): nat
    requires shift + 6 <= 32
  {
    var v := Value(Field(l, shift, 6));
    SixBits(Field(l, shift, 6));
    Ascii64(v)
  }

  lemma SixBits(b: seq<bool>)
    requires |b| == 6
    ensures Value(b) < 64 && BitsOf(6, Value(b)) == b
  {
    ValueRoundTrip(b);
    Pow2Six();
  }

  /** The eleven characters written for the result words. */
  function Encode(r0: Word, r1: Word): (s: seq<nat>)
    ensures |s| == 11
  {
    var l1 := Shr(r0, 8);
    var l2 := Second(r0, r1);
    var l3 := Shl(r1, 2);
    [Symbol(l1, 18), Symbol(l1, 12), Symbol(l1, 6), Symbol(l1, 0),
     Symbol(l2, 18), Symbol(l2, 12), Symbol(l2, 6), Symbol(l2, 0),
     Symbol(l3, 12), Symbol(l3, 6), Symbol(l3, 0)]
  }

  /** Six bits for every character, side by side. */
  function Decode(s: seq<nat>): (b: seq<bool>)
    ensures |b| == 6 * |s|
  {
    if |s| == 0 then [] else Decode(s[..|s| - 1]) + BitsOf(6, AsciiToBin(s[|s| - 1]))
  }

  lemma {:induction false} DecodeAt(s: seq<nat>, k: nat, j: nat)
    requires k < |s| && j < 6
    ensures Decode(s)[6 * k + j] == BitsOf(6, AsciiToBin(s[k]))[j]
  {
    if k < |s| - 1 {
      DecodeAt(s[..|s| - 1], k, j);
    }
  }

  lemma SymbolBits(l: Word, shift: nat)
    requires shift + 6 <= 32
    ensures BitsOf(6, AsciiToBin(Symbol(l, shift))) == Field(l, shift, 6)
  {
    SixBits(Field(l, shift, 6));
    AsciiRoundTrip(Value(Field(l, shift, 6)));
  }

  /** l = r0 >> 8 carries bits 0..23 of the result, the second word bits 24..47 and r1 << 2
      the last sixteen and two zeros. */
  function Second(r0: Word, r1: Word): Word {
    Or(Shl(r0, 16), And(Shr(r1, 16), Mask(16, 32)))
  }

  lemma FirstBits(r0: Word, r1: Word, k: nat, j: nat)
    requires k < 4 && j < 6
    ensures Field(Shr(r0, 8), 18 - 6 * k, 6)[j] == (r0 + r1 + [false, false])[6 * k + j]
  {
  }

  lemma SecondBits(r0: Word, r1: Word, k: nat, j: nat)
    requires k < 4 && j < 6
    ensures Field(Second(r0, r1), 18 - 6 * k, 6)[j] == (r0 + r1 + [false, false])[24 + 6 * k + j]
  {
  }

  lemma ThirdBits(r0: Word, r1: Word, k: nat, j: nat)
    requires k < 3 && j < 6
    ensures Field(Shl(r1, 2), 12 - 6 * k, 6)[j] == (r0 + r1 + [false, false])[48 + 6 * k + j]
  {
  }

  /** Symbol k of the encoding carries bits 6k to 6k + 5. */
  predicate Carries(r0: Word, r1: Word, k: nat, symbol: nat) {
    6 * k + 6 <= 66 && forall j | 0 <= j < 6 :: BitsOf(6, AsciiToBin(symbol))[j] == (r0 + r1 + [false, false])[6 * k + j]
  }

  lemma FirstSymbol(r0: Word, r1: Word, k: nat)
    requires k < 4
    ensures Carries(r0, r1, k, Symbol(Shr(r0, 8), 18 - 6 * k))
  {
    var shift := 18 - 6 * k;
    SymbolBits(Shr(r0, 8), shift);
    forall j | 0 <= j < 6
      ensures Field(Shr(r0, 8), shift, 6)[j] == (r0 + r1 + [false, false])[6 * k + j]
    {
      FirstBits(r0, r1, k, j);
    }
  }

  lemma SecondSymbol(r0: Word, r1: Word, k: nat)
    requires k < 4
    ensures Carries(r0, r1, 4 + k, Symbol(Second(r0, r1), 18 - 6 * k))
  {
    var shift := 18 - 6 * k;
    SymbolBits(Second(r0, r1), shift);
    forall j | 0 <= j < 6
      ensures Field(Second(r0, r1), shift, 6)[j] == (r0 + r1 + [false, false])[24 + 6 * k + j]
    {
      SecondBits(r0, r1, k, j);
    }
  }

  lemma ThirdSymbol(r0: Word, r1: Word, k: nat)
    requires k < 3
    ensures Carries(r0, r1, 8 + k, Symbol(Shl(r1, 2), 12 - 6 * k))
  {
    var shift := 12 - 6 * k;
    SymbolBits(Shl(r1, 2), shift);
    forall j | 0 <= j < 6
      ensures Field(Shl(r1, 2), shift, 6)[j] == (r0 + r1 + [false, false])[48 + 6 * k + j]
    {
      ThirdBits(r0, r1, k, j);
    }
  }

  lemma EncodeSplit(r0: Word, r1: Word, k: nat)
    requires k < 11
    ensures
      Encode(r0, r1)[k] == if k < 4 then Symbol(Shr(r0, 8), 18 - 6 * k)
                           else if k < 8 then Symbol(Second(r0, r1), 42 - 6 * k)
                           else Symbol(Shl(r1, 2), 60 - 6 * k)
  {
    assert k == 0 || k == 1 || k == 2 || k == 3 || k == 4 || k == 5 || k == 6 || k == 7 || k == 8 || k == 9 || k == 10;
  }

  /** Bit j of symbol k is bit 6k + j of the 64-bit result; two zero bits pad the last symbol. */
  lemma EncodeAt(r0: Word, r1: Word, k: nat)
    requires k < 11
    ensures Carries(r0, r1, k, Encode(r0, r1)[k])
  {
    EncodeSplit(r0, r1, k);
    if k < 4 {
      FirstSymbol(r0, r1, k);
    } else if k < 8 {
      SecondSymbol(r0, r1, k - 4);
    } else {
      ThirdSymbol(r0, r1, k - 8);
    }
  }

  /** The eleven characters carry the whole 64-bit result. */
  lemma DecodeEncode(r0: Word, r1: Word)
    ensures Decode(Encode(r0, r1)) == r0 + r1 + [false, false]
  {
    var s, b := Encode(r0, r1), r0 + r1 + [false, false];
    forall p | 0 <= p < 66
      ensures Decode(s)[p] == b[p]
    {
      DecodeAt(s, p / 6, p % 6);
      EncodeAt(r0, r1, p / 6);
    }
  }

  /** Hence different results have different encodings. */
  lemma EncodeInjective(r0: Word, r1: Word, q0: Word, q1: Word)
    requires Encode(r0, r1) == Encode(q0, q1)
    ensures r0 == q0 && r1 == q1
  {
    DecodeEncode(r0, r1);
    DecodeEncode(q0, q1);
    var a, b := r0 + r1 + [false, false], q0 + q1 + [false, false];
    assert a == b;
    assert a[..32] == r0 && b[..32] == q0 && a[32..64] == r1 && b[32..64] == q1;
  }

  // The whole function.

  datatype Crypted = TooSmall | Crypted(output: seq<nat>)

  /** The salt of a two-character setting, as a word. */
  function SettingSalt(s0: nat, s1: nat): Word {
    BitsOf(32, 64 * AsciiToBin(s1) + AsciiToBin(s0))
  }

  /** The key as 64 bits. */
  function KeyBits(keybuf: seq<nat>): (k: seq<bool>)
    requires |keybuf| == 8
    ensures |k| == 64
  {
    RawWord(keybuf[..4]) + RawWord(keybuf[4..])
  }

  /** crypt(3): the salt characters, the encoded result and the terminator. */
  function CryptOutput(o: Outcome, s0: nat, s1: nat): seq<nat>
    requires o.Done?
  {
    [s0, if s1 != 0 then s1 else s0] + Encode(o.l, o.r) + [0]
  }

  /** The outcome of 25 iterations on the zero block. */
  function CryptOutcome(t: Tables, key: seq<bool>, salt: Word): (o: Outcome)
    requires t.WellFormed() && |key| == 64
    ensures o.Done?
  {
    DesOutcome(Des(t, SaltBits(salt)[8..]), KeySchedule(t, key), Zero(), Zero(), 25)
  }

  method NewContext(f: Fixed, raw0: Word, raw1: Word) returns (ctx: Context)
    requires f.Valid() && f.initialised
    ensures fresh(ctx) && ctx.Valid() && ctx.t == f.t && ctx.keyed && ctx.oldRaw0 == raw0 && ctx.oldRaw1 == raw1
  {
    ctx := new Context(f.t);
    ctx.SetKey(f, raw0, raw1);
  }

  method Hash(f: Fixed, raw0: Word, raw1: Word, salt: Word) returns (o: Outcome)
    requires f.Valid() && f.initialised
    ensures o == CryptOutcome(f.t, raw0 + raw1, salt)
  {
    var ctx := NewContext(f, raw0, raw1);
    ctx.SetupSalt(salt);
    o := ctx.DoDes(f, Zero(), Zero(), 25);
  }

  // What crypt computes, from the characters it is given.

  /** The salt: which bits of E trade places with those 24 further on. Six bits for each of the
      two characters, the least significant one first. */
  function CryptSalt(s0: nat, s1: nat): (s: seq<bool>)
    ensures |s| == 24
  {
    seq(24, i requires 0 <= i < 24 =>
      if i < 6 then BitAt(AsciiToBin(s0), i) else i < 12 && BitAt(AsciiToBin(s1), i - 6))
  }

  /** The key: the seven low bits of each character, the most significant one first, then an
      unused bit; zeros from the end of the string on. */
  function CryptKey(key: seq<nat>): (k: seq<bool>)
    requires |key| > 0 && key[|key| - 1] == 0
    ensures |k| == 64
  {
    seq(64, p requires 0 <= p < 64 => p % 8 < 7 && p / 8 < Stop(key) && BitAt(key[p / 8], 6 - p % 8))
  }

  function ZeroBlock(): (b: seq<bool>)
    ensures |b| == 64
  {
    seq(64, i => false)
  }

  lemma SixBitValue(ch: nat)
    ensures AsciiToBin(ch) < Pow2(6)
  {
    Pow2Six();
  }

  lemma SettingSaltBits(s0: nat, s1: nat)
    ensures SaltBits(SettingSalt(s0, s1))[8..] == CryptSalt(s0, s1)
  {
    var a, b := AsciiToBin(s0), AsciiToBin(s1);
    SixBitValue(s0);
    SixBitValue(s1);
    Pow2Six();
    BitsConcat(26, b, 6, a);
    forall i | 0 <= i < 24
      ensures SaltBits(SettingSalt(s0, s1))[8 + i] == CryptSalt(s0, s1)[i]
    {
      SettingBit(SettingSalt(s0, s1), a, b, i);
    }
  }

  lemma SettingBit(w: Word, a: nat, b: nat, i: nat)
    requires a < Pow2(6) && b < Pow2(6) && i < 24 && w == BitsOf(26, b) + BitsOf(6, a)
    ensures SaltBits(w)[8 + i] == if i < 6 then BitAt(a, i) else i < 12 && BitAt(b, i - 6)
  {
    assert SaltBits(w)[8 + i] == w[31 - i];
    if i < 6 {
      BitsOfAt(6, a, i);
    } else {
      BitsOfAt(26, b, i - 6);
      if i >= 12 {
        NoBitBeyond(b, 6, i - 6);
      }
    }
  }

  /** One byte of the key. */
  lemma KeyByte(c: nat, j: nat)
    requires j < 8
    ensures BitsOf(8, 2 * c % 256)[j] == (j < 7 && BitAt(c, 6 - j))
  {
    assert Pow2(4) == 16;
    assert Pow2(8) == 256;
    BitsOfRemainder(8, 2 * c);
    assert 2 * c / 2 == c;
    if j < 7 {
      BitsOfAt(7, c, 6 - j);
    }
  }

  lemma ZeroByte(j: nat)
    requires j < 8
    ensures !BitsOf(8, 0)[j]
  {
    BitsOfAt(8, 0, 7 - j);
    NoBitBeyond(0, 0, 7 - j);
  }

  lemma KeyBitsAt(keybuf: seq<nat>, i: nat, j: nat)
    requires |keybuf| == 8 && i < 8 && j < 8
    ensures KeyBits(keybuf)[8 * i + j] == BitsOf(8, keybuf[i])[j]
  {
    var b := if i < 4 then keybuf[..4] else keybuf[4..];
    assert KeyBits(keybuf)[8 * i + j] == RawWord(b)[8 * (i % 4) + j];
    RawWordAt(b, i % 4, j);
  }

  lemma RawWordAt(b: seq<nat>, i: nat, j: nat)
    requires |b| == 4 && i < 4 && j < 8
    ensures RawWord(b)[8 * i + j] == BitsOf(8, b[i])[j]
  {
  }

  lemma CopiedKeyBits(key: seq<nat>)
    requires |key| > 0 && key[|key| - 1] == 0
    ensures KeyBits(CopiedKey(key)) == CryptKey(key)
  {
    forall p | 0 <= p < 64
      ensures KeyBits(CopiedKey(key))[p] == CryptKey(key)[p]
    {
      CopiedKeyBit(key, p / 8, p % 8);
    }
  }

  lemma CopiedKeyBit(key: seq<nat>, i: nat, j: nat)
    requires |key| > 0 && key[|key| - 1] == 0 && i < 8 && j < 8
    ensures KeyBits(CopiedKey(key))[8 * i + j] == (j < 7 && i < Stop(key) && BitAt(key[i], 6 - j))
  {
    KeyBitsAt(CopiedKey(key), i, j);
    if i < Stop(key) {
      KeyByte(key[i], j);
    } else {
      ZeroByte(j);
    }
  }

  /** The output: the two characters of the setting, eleven symbols, and the terminator. */
  predicate Output(out: seq<nat>, s0: nat, s1: nat) {
    && |out| == 14 && out[0] == s0 && out[1] == (if s1 != 0 then s1 else s0) && out[13] == 0
    && (forall k | 2 <= k < 13 :: IsSymbol(out[k]))
  }

  lemma EncodedSymbol(r0: Word, r1: Word, k: nat)
    requires k < 11
    ensures IsSymbol(Encode(r0, r1)[k])
  {
    EncodeSplit(r0, r1, k);
    if k < 4 {
      IsSymbolAt(Shr(r0, 8), 18 - 6 * k);
    } else if k < 8 {
      IsSymbolAt(Second(r0, r1), 42 - 6 * k);
    } else {
      IsSymbolAt(Shl(r1, 2), 60 - 6 * k);
    }
  }

  lemma IsSymbolAt(l: Word, shift: nat)
    requires shift + 6 <= 32
    ensures IsSymbol(Symbol(l, shift))
  {
    SixBits(Field(l, shift, 6));
  }

  lemma OutputIs(o: Outcome, s0: nat, s1: nat)
    requires o.Done?
    ensures Output(CryptOutput(o, s0, s1), s0, s1)
    ensures Decode(CryptOutput(o, s0, s1)[2..13]) == o.l + o.r + [false, false]
  {
    var out := CryptOutput(o, s0, s1);
    assert out[2..13] == Encode(o.l, o.r);
    DecodeEncode(o.l, o.r);
    forall k | 2 <= k < 13
      ensures IsSymbol(out[k])
    {
      EncodedSymbol(o.l, o.r, k - 2);
    }
  }

  lemma OutcomeIs(t: Tables, key: seq<nat>, s0: nat, s1: nat)
    requires t.WellFormed() && |key| > 0 && key[|key| - 1] == 0
    ensures
      var o := CryptOutcome(t, KeyBits(CopiedKey(key)), SettingSalt(s0, s1));
      o.l + o.r == EncipherTimes(Des(t, CryptSalt(s0, s1)), ZeroBlock(), KeySchedule(t, CryptKey(key)), 25)
  {
    SettingSaltBits(s0, s1);
    CopiedKeyBits(key);
    assert Zero() + Zero() == ZeroBlock();
  }

  /** __des_crypt_r for a terminated key and an output buffer of sz bytes. Of the setting the
      code reads the two bytes s0 and s1, whatever they are: after an empty setting s1 is what
      happens to follow the terminator. */
  method DesCryptR(f: Fixed, key: seq<nat>, s0: nat, s1: nat, sz: nat) returns (c: Crypted)
    requires f.Valid() && |key| > 0 && key[|key| - 1] == 0
    modifies f
    ensures f.Valid() && (c.TooSmall? <==> sz < 21)
    ensures c.Crypted? ==>
      && Output(c.output, s0, s1)
      && Decode(c.output[2..13])
         == EncipherTimes(Des(f.t, CryptSalt(s0, s1)), ZeroBlock(), KeySchedule(f.t, CryptKey(key)), 25) + [false, false]
  {
    if sz < 21 {
      return TooSmall;
    }
    f.Init();
    var keybuf := CopyKey(key);
    var o := Hash(f, RawWord(keybuf[..4]), RawWord(keybuf[4..]), SettingSalt(s0, s1));
    OutcomeIs(f.t, key, s0, s1);
    OutputIs(o, s0, s1);
    c := Crypted(CryptOutput(o, s0, s1));
  }

  /** crypt with the tables of the standard, which are those of the source: the symbols spell
      the zero block, enciphered 25 times. */
  method Crypt(key: seq<nat>, s0: nat, s1: nat, sz: nat) returns (c: Crypted)
    requires |key| > 0 && key[|key| - 1] == 0
    ensures DES.WellFormed() && (c.TooSmall? <==> sz < 21)
    ensures c.Crypted? ==>
      && Output(c.output, s0, s1)
      && Decode(c.output[2..13])
         == EncipherTimes(Des(DES, CryptSalt(s0, s1)), ZeroBlock(), KeySchedule(DES, CryptKey(key)), 25) + [false, false]
  {
    var f := StandardTables();
    c := DesCryptR(f, key, s0, s1, sz);
  }

  /** Bits i and i + 24 of E trade places exactly where the setting says so: bit i of the value
      of the first character, bit i - 6 of that of the second, never from 12 on. */
  lemma CryptSaltSwaps(e: seq<bool>, s0: nat, s1: nat, i: nat)
    requires |e| == 48 && i < 24
    ensures
      var swap := (i < 6 && BitAt(AsciiToBin(s0), i)) || (6 <= i < 12 && BitAt(AsciiToBin(s1), i - 6));
      var r := Salted(e, CryptSalt(s0, s1));
      if swap then r[i] == e[i + 24] && r[i + 24] == e[i] else r[i] == e[i] && r[i + 24] == e[i + 24]
  {
  }
}
