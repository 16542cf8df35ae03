/** The two Internet checksums of miscUtils/icmpping.c and miscUtils/traceroute.c, on
    big-endian words, against the closed form of the one's complement sum (section 2 of
    RFC 1071). */
module Checksum {

  type Byte = x: int | 0 <= x < 0x100
  type U16 = x: int | 0 <= x < 0x1_0000

  const WRAP := 0x1_0000_0000

  /** The 16-bit words of a buffer; an odd byte at the end is the high half of a word. */
  function Words(s: seq<Byte>): (ws: seq<U16>)
    ensures |ws| == (|s| + 1) / 2
  {
    if s == [] then [] else if |s| == 1 then [Pair(s[0], 0)] else [Pair(s[0], s[1])] + Words(s[2..])
  }

  function Pair(hi: int, lo: int): U16
    requires 0 <= hi < 0x100 && 0 <= lo < 0x100
  {
    hi * 256 + lo
  }

  function Total(ws: seq<U16>): nat {
    if ws == [] then 0 else Total(ws[..|ws| - 1]) + ws[|ws| - 1]
  }

  /** The one's complement sum that a total folds to: congruent modulo 65535, and zero only for
      zero. */
  function Norm(n: nat): (r: U16)
    ensures r == 0 <==> n == 0
  {
    if n == 0 then 0 else (n - 1) % 0xffff + 1
  }

  function Not(x: U16): U16 {
    0xffff - x
  }

  // Norm by quotient and remainder.

  lemma NormUnique(n: nat, r: int, q: int)
    requires n > 0 && n == r + 0xffff * q && 1 <= r <= 0xffff
    ensures Norm(n) == r
  {
    DivMod(n - 1, r - 1, q);
  }

  lemma DivMod(n: int, r: int, q: int)
    requires n == r + 0xffff * q && 0 <= r < 0xffff
    ensures n % 0xffff == r && n / 0xffff == q
  {
    var q', r' := n / 0xffff, n % 0xffff;
    assert 0xffff * (q' - q) == r - r';
  }

  lemma NormSplit(n: nat) returns (q: int)
    requires n > 0
    ensures q >= 0 && n == Norm(n) + 0xffff * q
  {
    q := (n - 1) / 0xffff;
  }

  /** Two totals fold alike exactly if they are congruent and zero together. */
  lemma NormIff(a: nat, b: nat, q: int)
    requires b == a + q
    ensures Norm(a) == Norm(b) <==> (q % 0xffff == 0 && (a == 0 <==> b == 0))
  {
    if a > 0 && b > 0 {
      var k := NormSplit(a);
      var l := NormSplit(b);
      var d: int := (Norm(b) as int) - (Norm(a) as int);
      assert q == d + 0xffff * (l - k);
      if d >= 0 {
        DivMod(q, d, l - k);
      } else {
        DivMod(q, d + 0xffff, l - k - 1);
      }
    }
  }

  // Folding at every step.

  /** ones_sum. */
  function OnesSum(a: U16, b: U16): U16 {
    (a + b) % 0x1_0000 + (a + b) / 0x1_0000
  }

  /** ones_sum adds totals. */
  lemma OnesSumNorm(n: nat, w: U16)
    ensures OnesSum(Norm(n), w) == Norm(n + w)
  {
    if n > 0 {
      var q := NormSplit(n);
      var t := Norm(n) + w;
      if t < 0x1_0000 {
        NormUnique(n + w, t, q);
      } else {
        NormUnique(n + w, t - 0xffff, q + 1);
      }
    } else if w > 0 {
      NormUnique(w, w, 0);
    }
  }

  lemma {:induction false} WordsAt(s: seq<Byte>, i: nat)
    requires 2 * i < |s|
    ensures Words(s)[i] == Pair(s[2 * i], if 2 * i + 1 < |s| then s[2 * i + 1] else 0)
  {
    if i > 0 {
      WordsAt(s[2..], i - 1);
    }
  }

  lemma TotalStep(ws: seq<U16>, i: nat)
    requires i < |ws|
    ensures Total(ws[..i + 1]) == Total(ws[..i]) + ws[i]
  {
    assert ws[..i + 1][..i] == ws[..i];
  }

  lemma SumStep(data: seq<Byte>, ws: seq<U16>, i: nat)
    requires ws == Words(data) && 2 * i < |data|
    ensures
      var w := Pair(data[2 * i], if 2 * i + 1 < |data| then data[2 * i + 1] else 0);
      OnesSum(Norm(Total(ws[..i])), w) == Norm(Total(ws[..i + 1]))
  {
    WordsAt(data, i);
    TotalStep(ws, i);
    OnesSumNorm(Total(ws[..i]), ws[i]);
  }

  /** ip_cksum. */
  method IpCksum(data: seq<Byte>) returns (c: U16)
    ensures c == Not(Norm(Total(Words(data))))
  {
    ghost var ws := Words(data);
    var rem, len := |data| % 2, |data| / 2;
    var s: U16 := 0;
    var i := 0;
    while i < len
      invariant 0 <= i <= len && s == Norm(Total(ws[..i]))
    {
      SumStep(data, ws, i);
      s := OnesSum(s, Pair(data[2 * i], data[2 * i + 1]));
      i := i + 1;
    }
    if rem != 0 {
      SumStep(data, ws, len);
      s := OnesSum(s, Pair(data[2 * len], 0));
    }
    assert ws[..|ws|] == ws;
    c := 0xffff - s;
  }

  // Deferring the carries.

  /** Two folds are enough for 32 bits. */
  lemma TwoFolds(acc: nat)
    requires acc < WRAP
    ensures
      var a := acc / 0x1_0000 + acc % 0x1_0000;
      (a + a / 0x1_0000) % 0x1_0000 == Norm(acc)
  {
    var h, l := acc / 0x1_0000, acc % 0x1_0000;
    var a := h + l;
    if a == 0 {
    } else if a < 0x1_0000 {
      NormUnique(acc, a, h);
    } else {
      assert a / 0x1_0000 == 1 && (a + 1) % 0x1_0000 == a - 0xffff;
      NormUnique(acc, a - 0xffff, h + 1);
    }
  }

  lemma WrapAdd(a: nat, b: nat)
    ensures (a % WRAP + b) % WRAP == (a + b) % WRAP
  {
    var q := a / WRAP;
    assert a + b == (a % WRAP + b) + WRAP * q;
    WrapShift(a % WRAP + b, q);
  }

  lemma WrapShift(x: nat, q: nat)
    ensures (x + WRAP * q) % WRAP == x % WRAP
  {
    var y := x + WRAP * q;
    assert y == x % WRAP + WRAP * (x / WRAP + q);
    assert WRAP * (y / WRAP - (x / WRAP + q)) == x % WRAP - y % WRAP;
  }

  lemma AccuStep(data: seq<Byte>, ws: seq<U16>, i: nat)
    requires ws == Words(data) && 2 * i < |data|
    ensures
      var w := Pair(data[2 * i], if 2 * i + 1 < |data| then data[2 * i + 1] else 0);
      (Total(ws[..i]) % WRAP + w) % WRAP == Total(ws[..i + 1]) % WRAP
  {
    WordsAt(data, i);
    TotalStep(ws, i);
    WrapAdd(Total(ws[..i]), ws[i]);
  }

  /** rtems_ping_cksum: the accumulator has 32 bits. */
  method PingCksum(data: seq<Byte>) returns (c: U16)
    ensures c == Not(Norm(Total(Words(data)) % WRAP))
  {
    ghost var ws := Words(data);
    var accu: nat := 0;
    var p, len := 0, |data|;
    while len > 1
      invariant 0 <= len && 2 * p + len == |data|
      invariant accu == Total(ws[..p]) % WRAP
    {
      AccuStep(data, ws, p);
      accu := (accu + Pair(data[2 * p], data[2 * p + 1])) % WRAP;
      p, len := p + 1, len - 2;
    }
    if len == 1 {
      AccuStep(data, ws, p);
      accu := (accu + Pair(data[2 * p], 0)) % WRAP;
    }
    assert ws[..|ws|] == ws;
    c := Fold(accu);
  }

  method Fold(acc: nat) returns (c: U16)
    requires acc < WRAP
    ensures c == Not(Norm(acc))
  {
    TwoFolds(acc);
    var accu := acc / 0x1_0000 + acc % 0x1_0000;
    accu := accu + accu / 0x1_0000;
    c := 0xffff - accu % 0x1_0000;
  }

  lemma {:induction false} TotalBound(ws: seq<U16>)
    ensures Total(ws) <= 0xffff * |ws|
  {
    if ws != [] {
      TotalBound(ws[..|ws| - 1]);
    }
  }

  /** For every buffer whose length fits an int, the deferred checksum equals the other one
      exactly if the accumulator did not wrap around. */
  lemma CksumsAgreeIff(s: seq<Byte>)
    requires |s| < 0x8000_0000
    ensures
      var t := Total(Words(s));
      Norm(t % WRAP) == Norm(t) <==> t < WRAP
  {
    var ws := Words(s);
    var t := Total(ws);
    TotalBound(ws);
    var q := t / WRAP;
    assert q < 0xffff;
    NormIff(t % WRAP, t, WRAP * q);
    DivMod(WRAP * q, q, 0x1_0001 * q);
  }

  /** Up to 65537 words it cannot wrap; the next length already fails. */
  lemma CksumsAgree(s: seq<Byte>)
    requires |s| <= 2 * 65537
    ensures Norm(Total(Words(s)) % WRAP) == Norm(Total(Words(s)))
  {
    TotalSmall(Words(s));
    CksumsAgreeIff(s);
  }

  lemma TotalSmall(ws: seq<U16>)
    requires |ws| <= 65537
    ensures Total(ws) < WRAP
  {
    TotalBound(ws);
  }

  function AllOnes(n: nat): (s: seq<Byte>)
    ensures |s| == 2 * n
  {
    if n == 0 then [] else [255, 255] + AllOnes(n - 1)
  }

  lemma {:induction false} AllOnesTotal(n: nat, i: nat)
    requires i <= n
    ensures Total(Words(AllOnes(n))[..i]) == 0xffff * i
  {
    if i > 0 {
      AllOnesTotal(n, i - 1);
      AllOnesAt(n, 2 * (i - 1));
      AllOnesAt(n, 2 * i - 1);
      WordsAt(AllOnes(n), i - 1);
      TotalStep(Words(AllOnes(n)), i - 1);
    }
  }

  lemma {:induction false} AllOnesAt(n: nat, i: nat)
    requires i < 2 * n
    ensures AllOnes(n)[i] == 255
  {
    if i >= 2 {
      AllOnesAt(n - 1, i - 2);
    }
  }

  lemma CksumsDiffer()
    ensures var t := Total(Words(AllOnes(65538))); Norm(t % WRAP) != Norm(t)
  {
    var s := AllOnes(65538);
    AllOnesTotal(65538, 65538);
    assert Words(s)[..65538] == Words(s);
    CksumsAgreeIff(s);
  }

  // A stored checksum.

  /** The buffer with word k replaced. */
  function Stored(s: seq<Byte>, k: nat, w: U16): (r: seq<Byte>)
    requires 2 * k + 1 < |s|
    ensures |r| == |s|
  {
    s[2 * k := w / 256][2 * k + 1 := w % 256]
  }

  lemma StoredWords(s: seq<Byte>, k: nat, w: U16)
    requires 2 * k + 1 < |s|
    ensures Words(Stored(s, k, w)) == Words(s)[k := w]
  {
    var r := Stored(s, k, w);
    forall i | 0 <= i < |Words(s)|
      ensures Words(r)[i] == Words(s)[k := w][i]
    {
      StoredWordAt(s, k, w, i);
    }
  }

  lemma StoredWordAt(s: seq<Byte>, k: nat, w: U16, i: nat)
    requires 2 * k + 1 < |s| && i < |Words(s)|
    ensures Words(Stored(s, k, w))[i] == if i == k then w else Words(s)[i]
  {
    WordsAt(s, i);
    WordsAt(Stored(s, k, w), i);
    assert Pair(w / 256, w % 256) == w;
  }

  lemma {:induction false} TotalUpdate(ws: seq<U16>, k: nat, w: U16)
    requires k < |ws|
    ensures Total(ws[k := w]) == Total(ws) - ws[k] + w
  {
    var n := |ws| - 1;
    if k == n {
      assert ws[k := w][..n] == ws[..n];
    } else {
      assert ws[k := w][..n] == ws[..n][k := w];
      TotalUpdate(ws[..n], k, w);
    }
  }

  function Changed(t: nat, was: int, w: int): nat
    requires was <= t && 0 <= w
  {
    t - was + w
  }

  lemma StoredTotal(s: seq<Byte>, k: nat, w: U16)
    requires 2 * k + 1 < |s|
    ensures
      var (t, was) := (Total(Words(s)), Words(s)[k]);
      was <= t && Total(Words(Stored(s, k, w))) == Changed(t, was, w)
  {
    StoredWords(s, k, w);
    TotalUpdate(Words(s), k, w);
    WordBelowTotal(Words(s), k);
  }

  /** A buffer verifies exactly if its total is a positive multiple of 65535. */
  lemma VerifiesIff(t: nat)
    ensures Not(Norm(t)) == 0 <==> t > 0 && t % 0xffff == 0
  {
    if t > 0 {
      var q := NormSplit(t);
      if Norm(t) == 0xffff {
        DivMod(t, 0, q + 1);
      } else {
        DivMod(t, Norm(t), q);
      }
    }
  }

  /** Storing the checksum of a buffer with a zeroed word in that word makes it verify,
      wherever the word is. */
  lemma StoredVerifies(s: seq<Byte>, k: nat)
    requires 2 * k + 1 < |s| && Words(s)[k] == 0
    ensures
      var c := Not(Norm(Total(Words(s))));
      Not(Norm(Total(Words(Stored(s, k, c))))) == 0
  {
    var t := Total(Words(s));
    var c := Not(Norm(t));
    StoredTotal(s, k, c);
    ComplementFolds(t, Total(Words(Stored(s, k, c))));
  }

  lemma ComplementFolds(t: nat, u: nat)
    requires u == Changed(t, 0, Not(Norm(t)))
    ensures Not(Norm(u)) == 0
  {
    if t > 0 {
      var q := NormSplit(t);
      NormUnique(u, 0xffff, q);
    }
  }

  /** A verified buffer in which one word has changed still verifies exactly if the word went
      from one form of zero to the other and is not all that there was. */
  lemma ChangeDetectedIff(s: seq<Byte>, k: nat, w: U16)
    requires 2 * k + 1 < |s| && Not(Norm(Total(Words(s)))) == 0
    ensures
      var was := Words(s)[k];
      var t := Total(Words(s));
      Not(Norm(Total(Words(Stored(s, k, w))))) == 0
      <==> w == was || (was == 0 && w == 0xffff) || (was == 0xffff && w == 0 && t > 0xffff)
  {
    StoredTotal(s, k, w);
    ChangeSeenIff(Total(Words(s)), Words(s)[k], w);
  }

  lemma ChangeSeenIff(t: nat, was: U16, w: U16)
    requires Not(Norm(t)) == 0 && was <= t
    ensures
      Not(Norm(Changed(t, was, w))) == 0
      <==> w == was || (was == 0 && w == 0xffff) || (was == 0xffff && w == 0 && t > 0xffff)
  {
    VerifiesIff(t);
    VerifiesIff(Changed(t, was, w));
    ChangedTotal(t, was, w, t / 0xffff);
  }

  lemma ChangedTotal(t: nat, was: int, w: int, q: int)
    requires t == 0xffff * q && q > 0 && 0 <= was <= t && was < 0x1_0000 && 0 <= w < 0x1_0000
    ensures
      var t' := Changed(t, was, w);
      t' > 0 && t' % 0xffff == 0
      <==> w == was || (was == 0 && w == 0xffff) || (was == 0xffff && w == 0 && t > 0xffff)
  {
    var d := w - was;
    if d == 0xffff {
      DivMod(t + d, 0, q + 1);
    } else if d == -0xffff {
      DivMod(t + d, 0, q - 1);
    } else if d >= 0 {
      DivMod(t + d, d, q);
    } else {
      DivMod(t + d, d + 0xffff, q - 1);
    }
  }

  lemma {:induction false} WordBelowTotal(ws: seq<U16>, k: nat)
    requires k < |ws|
    ensures ws[k] <= Total(ws)
  {
    if k < |ws| - 1 {
      WordBelowTotal(ws[..|ws| - 1], k);
    }
  }

  // Byte order.

  function Swap(w: U16): U16 {
    w % 256 * 256 + w / 256
  }

  function SwapAll(ws: seq<U16>): (r: seq<U16>)
    ensures |r| == |ws|
  {
    seq(|ws|, i requires 0 <= i < |ws| => Swap(ws[i]))
  }

  lemma {:induction false} SwappedTotal(ws: seq<U16>) returns (q: int)
    ensures Total(SwapAll(ws)) == 256 * Total(ws) - 0xffff * q
    ensures Total(SwapAll(ws)) == 0 <==> Total(ws) == 0
  {
    if ws == [] {
      q := 0;
    } else {
      var n := |ws| - 1;
      q := SwappedTotal(ws[..n]);
      assert SwapAll(ws)[..n] == SwapAll(ws[..n]);
      var w: int := ws[n];
      assert Swap(w) == 256 * w - 0xffff * (w / 256);
      q := q + w / 256;
    }
  }

  /** Summing the words in the other byte order gives the result in the other byte order. */
  lemma ByteOrderIrrelevant(ws: seq<U16>)
    ensures Not(Norm(Total(SwapAll(ws)))) == Swap(Not(Norm(Total(ws))))
  {
    var q := SwappedTotal(ws);
    SwappedNorm(Total(ws), Total(SwapAll(ws)), q);
    SwapNot(Norm(Total(ws)));
  }

  lemma SwappedNorm(t: nat, u: nat, q: int)
    requires u == 256 * t - 0xffff * q && (u == 0 <==> t == 0)
    ensures Norm(u) == Swap(Norm(t))
  {
    if t > 0 {
      var k := NormSplit(t);
      var x: int := Norm(t);
      assert Swap(x) == 256 * x - 0xffff * (x / 256);
      NormUnique(u, Swap(x), 256 * k - q + x / 256);
    }
  }

  lemma SwapNot(x: U16)
    ensures Not(Swap(x)) == Swap(Not(x))
  {
    var y: int := Not(x);
    assert y / 256 == 255 - x / 256 && y % 256 == 255 - x % 256;
  }

  /** The words that a little-endian host sees. */
  function LittleWords(s: seq<Byte>): (ws: seq<U16>) {
    if s == [] then [] else if |s| == 1 then [Pair(0, s[0])] else [Pair(s[1], s[0])] + LittleWords(s[2..])
  }

  lemma {:induction false} LittleWordsSwapped(s: seq<Byte>)
    ensures LittleWords(s) == SwapAll(Words(s))
  {
    if |s| >= 2 {
      LittleWordsSwapped(s[2..]);
      var a: int := s[0];
      var b: int := s[1];
      assert Pair(a, b) / 256 == a && Pair(a, b) % 256 == b;
      assert Swap(Pair(a, b)) == Pair(b, a);
    }
  }

  /** Stored in the host's own order, the checksum is the same two bytes on either host. */
  lemma HostsAgree(s: seq<Byte>)
    ensures
      var big := Not(Norm(Total(Words(s))));
      var little := Not(Norm(Total(LittleWords(s))));
      little % 256 == big / 256 && little / 256 == big % 256
  {
    LittleWordsSwapped(s);
    ByteOrderIrrelevant(Words(s));
    var big: int := Not(Norm(Total(Words(s))));
    assert Swap(big) / 256 == big % 256 && Swap(big) % 256 == big / 256;
  }
}
