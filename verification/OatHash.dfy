/** The 64-bit one-at-a-time hash of node and file names. Words are numbers below 2^64 and every operation is
    taken modulo 2^64; each stage of the hash comes with its exact inverse. */
module OatHash {
  import opened Arithmetic

  const WORD_LIMIT := 0x1_0000_0000_0000_0000

  type word = x: int | 0 <= x < WORD_LIMIT

  /** Exclusive or, bit by bit. */
  function Xor(a: nat, b: nat): nat
    decreases a + b
  {
    if a == 0 then b
    else if b == 0 then a
    else 2 * Xor(a / 2, b / 2) + (if a % 2 == b % 2 then 0 else 1)
  }

  function Shr(h: nat, k: nat): (r: nat)
    ensures r <= h
    decreases k
  {
    if k == 0 then h else Shr(h / 2, k - 1)
  }

  function Shl(h: word, k: nat): word { h * Pow2(k) % WORD_LIMIT }

  function Add(a: word, b: word): word { (a + b) % WORD_LIMIT }

  lemma {:induction false} XorBound(a: nat, b: nat, n: nat)
    requires a < Pow2(n) && b < Pow2(n)
    ensures Xor(a, b) < Pow2(n)
  {
    if a != 0 && b != 0 {
      XorBound(a / 2, b / 2, n - 1);
    }
  }

  lemma WordIsPow2()
    ensures Pow2(64) == WORD_LIMIT
  {
    assert Pow2(8) == 0x100;
    assert Pow2(16) == 0x10000;
    assert Pow2(24) == 0x1000000;
    assert Pow2(32) == 0x100000000;
    assert Pow2(40) == 0x10000000000;
    assert Pow2(48) == 0x1000000000000;
    assert Pow2(56) == 0x100000000000000;
  }

  /** A char is signed: it is added to the hash sign-extended. */
  function SignExtend(c: byte): word { if c < 128 then c else c + WORD_LIMIT - 256 }

  /** h += h << k */
  function Mix(h: word, k: nat): word { Add(h, Shl(h, k)) }

  /** h ^= h >> k */
  function Fold(h: word, k: nat): word {
    WordIsPow2();
    XorBound(h, Shr(h, k), 64);
    Xor(h, Shr(h, k))
  }

  function Stir(h: word): word { Fold(Mix(h, 10), 6) }

  function Round(h: word, c: byte): word { Stir(Add(h, SignExtend(c))) }

  function Finish(h: word): word { Mix(Fold(Mix(h, 3), 11), 15) }

  function Absorb(h: word, p: seq<byte>): word
    decreases |p|
  {
    if p == [] then h else Absorb(Round(h, p[0]), p[1..])
  }

  function Hash(p: seq<byte>): word { Finish(Absorb(0, p)) }

  method OatHash(p: seq<byte>) returns (h: word)
    ensures h == Hash(p)
  {
    h := 0;
    for i := 0 to |p|
      invariant Absorb(h, p[i..]) == Absorb(0, p)
    {
      assert p[i..][1..] == p[i + 1..];
      h := Add(h, SignExtend(p[i]));
      h := Add(h, Shl(h, 10));
      h := Fold(h, 6);
    }
    h := Add(h, Shl(h, 3));
    h := Fold(h, 11);
    h := Add(h, Shl(h, 15));
  }

  // ---------- inverses: each stage is a bijection on words ----------

  lemma {:induction false} XorCancels(a: nat, b: nat)
    ensures Xor(Xor(a, b), b) == a
    decreases a + b
  {
    if a != 0 && b != 0 {
      XorCancels(a / 2, b / 2);
      var x := Xor(a, b);
      assert x / 2 == Xor(a / 2, b / 2);
      if x == 0 {
        assert Xor(a / 2, b / 2) == 0;
        assert Xor(0, b / 2) == b / 2;
      }
    } else if a == 0 {
      XorSelf(b);
    }
  }

  lemma {:induction false} XorSelf(a: nat)
    ensures Xor(a, a) == 0
  {
    if a != 0 {
      XorSelf(a / 2);
    }
  }

  lemma {:induction false} XorShr(a: nat, b: nat, k: nat)
    ensures Shr(Xor(a, b), k) == Xor(Shr(a, k), Shr(b, k))
    decreases k
  {
    if k > 0 {
      assert Xor(a, b) / 2 == Xor(a / 2, b / 2);
      XorShr(a / 2, b / 2, k - 1);
    }
  }

  lemma {:induction false} ShrShrinks(h: nat, k: nat)
    requires k > 0 && h > 0
    ensures Shr(h, k) < h
  {
  }

  /** The inverse of h ^ (h >> k): the high bits are known, and each block of k bits gives the next. */
  function Unfold(y: nat, k: nat): nat
    requires k > 0
    decreases y
  {
    if y == 0 then 0 else
      ShrShrinks(y, k);
      Xor(y, Unfold(Shr(y, k), k))
  }

  lemma {:induction false} UnfoldBound(y: nat, k: nat, n: nat)
    requires k > 0 && y < Pow2(n)
    ensures Unfold(y, k) < Pow2(n)
    decreases y
  {
    if y != 0 {
      ShrShrinks(y, k);
      UnfoldBound(Shr(y, k), k, n);
      XorBound(y, Unfold(Shr(y, k), k), n);
    }
  }

  lemma {:induction false} UnfoldFold(h: nat, k: nat)
    requires k > 0
    ensures Unfold(Xor(h, Shr(h, k)), k) == h
    decreases h
  {
    var y := Xor(h, Shr(h, k));
    if h != 0 {
      ShrShrinks(h, k);
      UnfoldFold(Shr(h, k), k);
      XorShr(h, Shr(h, k), k);
      XorCancels(h, Shr(h, k));
      assert y != 0;
    } else {
      ZeroShr(k);
    }
  }

  lemma {:induction false} ZeroShr(k: nat)
    ensures Shr(0, k) == 0
  {
  }

  lemma {:induction false} FoldUnfold(y: nat, k: nat)
    requires k > 0
    ensures var z := Unfold(y, k); Xor(z, Shr(z, k)) == y
    decreases y
  {
    if y == 0 {
      ZeroShr(k);
    } else {
      ShrShrinks(y, k);
      FoldUnfold(Shr(y, k), k);
      var u := Unfold(Shr(y, k), k);
      XorShr(y, u, k);
      XorCancels(u, Shr(u, k));
      XorCancels(y, u);
    }
  }

  function Unmix(y: word, inverse: word): word { y * inverse % WORD_LIMIT }

  const INVERSE_3: word := 0x8E38_E38E_38E3_8E39
  const INVERSE_10: word := 0x0FFC_00FF_C00F_FC01
  const INVERSE_15: word := 0x0FFF_E000_3FFF_8001

  predicate Inverses(k: nat, inverse: word) {
    (1 + Pow2(k)) * inverse % WORD_LIMIT == 1
  }

  lemma InverseConstants()
    ensures Inverses(3, INVERSE_3) && Inverses(10, INVERSE_10) && Inverses(15, INVERSE_15)
  {
    assert Pow2(10) == 1024;
    assert Pow2(15) == 32768;
  }

  lemma MulMod(a: int, b: int)
    ensures (a % WORD_LIMIT) * b % WORD_LIMIT == a * b % WORD_LIMIT
  {
    var q := a / WORD_LIMIT;
    assert a == q * WORD_LIMIT + a % WORD_LIMIT;
    assert a * b == (a % WORD_LIMIT) * b + WORD_LIMIT * (q * b);
  }

  /** Mix is multiplication by 1 + 2^k. */
  lemma MixMultiplies(h: word, k: nat)
    ensures Mix(h, k) == h * (1 + Pow2(k)) % WORD_LIMIT
  {
    AddMod(h, h * Pow2(k));
    assert h * (1 + Pow2(k)) == h + h * Pow2(k);
  }

  lemma AddMod(a: int, b: int)
    ensures (a + b % WORD_LIMIT) % WORD_LIMIT == (a + b) % WORD_LIMIT
  {
  }

  lemma UnmixMix(h: word, m: nat, inverse: nat)
    requires m * inverse % WORD_LIMIT == 1
    ensures (h * m % WORD_LIMIT) * inverse % WORD_LIMIT == h
  {
    MulMod(h * m, inverse);
    assert h * m * inverse == m * inverse * h;
    MulMod(m * inverse, h);
  }

  lemma MixInverse(h: word, k: nat, inverse: word)
    requires Inverses(k, inverse)
    ensures Unmix(Mix(h, k), inverse) == h && Mix(Unmix(h, inverse), k) == h
  {
    var m := 1 + Pow2(k);
    MixMultiplies(h, k);
    UnmixMix(h, m, inverse);
    MixMultiplies(Unmix(h, inverse), k);
    assert inverse * m == m * inverse;
    UnmixMix(h, inverse, m);
  }

  lemma FoldInverse(h: word, k: nat)
    requires k > 0
    ensures Unfold(Fold(h, k), k) == h
    ensures Unfold(h, k) < WORD_LIMIT && Fold(Unfold(h, k), k) == h
  {
    UnfoldFold(h, k);
    WordIsPow2();
    UnfoldBound(h, k, 64);
    FoldUnfold(h, k);
  }

  // ---------- the rounds and the finaliser ----------

  function Unfolded(h: word, k: nat): word
    requires k > 0
  {
    FoldInverse(h, k);
    Unfold(h, k)
  }

  function Unstir(h: word): word { Unmix(Unfolded(h, 6), INVERSE_10) }

  function Subtract(a: word, b: word): word { (a - b) % WORD_LIMIT }

  function Unround(h: word, c: byte): word { Subtract(Unstir(h), SignExtend(c)) }

  function Unfinish(h: word): word {
    Unmix(Unfolded(Unmix(h, INVERSE_15), 11), INVERSE_3)
  }

  /** For a fixed character a round is a bijection of words, with this inverse. */
  lemma RoundBijective(h: word, c: byte)
    ensures Unround(Round(h, c), c) == h && Round(Unround(h, c), c) == h
  {
    RoundBack(h, SignExtend(c));
  }

  lemma RoundBack(h: word, s: word)
    ensures Subtract(Unstir(Stir(Add(h, s))), s) == h
    ensures Stir(Add(Subtract(Unstir(h), s), s)) == h
  {
    StirBijective(h);
    StirBijective(Add(h, s));
    AddInverse(h, s);
    AddInverse(Unstir(h), s);
  }

  lemma AddInverse(h: word, s: word)
    ensures Subtract(Add(h, s), s) == h && Add(Subtract(h, s), s) == h
  {
    assert Add(h, s) == if h + s < WORD_LIMIT then h + s else h + s - WORD_LIMIT;
    assert Subtract(h, s) == if h >= s then h - s else h - s + WORD_LIMIT;
  }

  lemma StirBijective(h: word)
    ensures Unstir(Stir(h)) == h && Stir(Unstir(h)) == h
  {
    InverseConstants();
    FoldInverse(Mix(h, 10), 6);
    MixInverse(h, 10, INVERSE_10);
    FoldInverse(h, 6);
    MixInverse(Unfolded(h, 6), 10, INVERSE_10);
  }

  /** For a fixed word a round tells all characters apart. */
  lemma RoundSeparates(h: word, c: byte, d: byte)
    requires c != d
    ensures Round(h, c) != Round(h, d)
  {
    StirBijective(Add(h, SignExtend(c)));
    StirBijective(Add(h, SignExtend(d)));
    AddSeparates(h, c, d);
  }

  lemma AddSeparates(h: word, c: byte, d: byte)
    requires c != d
    ensures Add(h, SignExtend(c)) != Add(h, SignExtend(d))
  {
    AddInverse(SignExtend(c), h);
    AddInverse(SignExtend(d), h);
  }

  lemma FinishBijective(h: word)
    ensures Unfinish(Finish(h)) == h && Finish(Unfinish(h)) == h
  {
    InverseConstants();
    MixInverse(h, 3, INVERSE_3);
    FoldInverse(Mix(h, 3), 11);
    MixInverse(Fold(Mix(h, 3), 11), 15, INVERSE_15);
    var back := Unmix(h, INVERSE_15);
    MixInverse(h, 15, INVERSE_15);
    FoldInverse(back, 11);
    MixInverse(Unfolded(back, 11), 3, INVERSE_3);
  }

  lemma {:induction false} AbsorbConcat(h: word, p: seq<byte>, q: seq<byte>)
    ensures Absorb(h, p + q) == Absorb(Absorb(h, p), q)
    decreases |p|
  {
    if p == [] {
      assert p + q == q;
    } else {
      assert (p + q)[1..] == p[1..] + q;
      AbsorbConcat(Round(h, p[0]), p[1..], q);
    }
  }

  lemma {:induction false} AbsorbInjective(g: word, h: word, p: seq<byte>)
    requires Absorb(g, p) == Absorb(h, p)
    ensures g == h
    decreases |p|
  {
    if p != [] {
      AbsorbInjective(Round(g, p[0]), Round(h, p[0]), p[1..]);
      RoundBijective(g, p[0]);
      RoundBijective(h, p[0]);
    }
  }

  /** A common ending neither makes nor breaks a collision. */
  lemma CommonEnding(p: seq<byte>, q: seq<byte>, ending: seq<byte>)
    ensures Hash(p + ending) == Hash(q + ending) <==> Hash(p) == Hash(q)
  {
    AbsorbConcat(0, p, ending);
    AbsorbConcat(0, q, ending);
    FinishBijective(Absorb(0, p));
    FinishBijective(Absorb(0, q));
    FinishBijective(Absorb(0, p + ending));
    FinishBijective(Absorb(0, q + ending));
    if Hash(p + ending) == Hash(q + ending) {
      AbsorbInjective(Absorb(0, p), Absorb(0, q), ending);
    }
  }

  /** Names of one length that differ in exactly one character never collide. */
  lemma NoSingleCharacterCollision(p: seq<byte>, q: seq<byte>, k: nat)
    requires |p| == |q| && k < |p| && p[k] != q[k]
    requires forall i :: 0 <= i < |p| && i != k ==> p[i] == q[i]
    ensures Hash(p) != Hash(q)
  {
    var front, ending := p[..k], p[k + 1..];
    assert p == front + [p[k]] + ending;
    assert q == front + [q[k]] + ending;
    CommonEnding(front + [p[k]], front + [q[k]], ending);
    AbsorbConcat(0, front, [p[k]]);
    AbsorbConcat(0, front, [q[k]]);
    var h := Absorb(0, front);
    assert Absorb(h, [p[k]]) == Round(h, p[k]);
    assert Absorb(h, [q[k]]) == Round(h, q[k]);
    RoundSeparates(h, p[k], q[k]);
    FinishBijective(Round(h, p[k]));
    FinishBijective(Round(h, q[k]));
  }

  // ---------- the hash in plain arithmetic ----------

  lemma ShrDivides(h: nat, k: nat)
    ensures Shr(h, k) == h / Pow2(k)
  {
    var r := ShrRemainder(h, k);
    QuotientIs(h, Pow2(k), Shr(h, k), r);
  }

  lemma {:induction false} ShrRemainder(h: nat, k: nat) returns (r: nat)
    ensures r < Pow2(k) && h == Shr(h, k) * Pow2(k) + r
    decreases k
  {
    if k == 0 {
      r := 0;
    } else {
      var rest := ShrRemainder(h / 2, k - 1);
      r := 2 * rest + h % 2;
      Doubled(Shr(h, k), Pow2(k - 1));
    }
  }

  lemma Doubled(a: nat, b: nat)
    ensures a * (2 * b) == 2 * (a * b)
  {
  }

  lemma QuotientIs(x: nat, d: nat, q: nat, r: nat)
    requires d > 0 && x == q * d + r && r < d
    ensures x / d == q
  {
    var p := x / d;
    assert x == p * d + x % d;
    if p < q {
      ProductGrows(p + 1, q, d);
    } else if p > q {
      ProductGrows(q + 1, p, d);
    }
  }

  lemma ProductGrows(a: nat, b: nat, d: nat)
    requires 1 <= a <= b
    ensures a * d <= b * d && a * d == (a - 1) * d + d
  {
    assert b * d == a * d + (b - a) * d;
    assert (b - a) * d >= 0;
  }

  /** Exclusive or, decimal digit by binary digit: the lowest bits differ, and the rest likewise. */
  lemma XorBits(a: nat, b: nat)
    ensures Xor(a, b) % 2 == (a + b) % 2 && Xor(a, b) / 2 == Xor(a / 2, b / 2)
    ensures Xor(a, 0) == a && Xor(0, b) == b
  {
    if a == 0 {
      assert Xor(0, b) == b && Xor(0, b / 2) == b / 2;
    } else if b == 0 {
      assert Xor(a, 0) == a && Xor(a / 2, 0) == a / 2;
    }
  }

  /** A word multiplied, and what is left of it without its lowest bits. */
  predicate Mixed(h: int, factor: nat, divisor: nat, mixed: word, high: word) {
    divisor > 0 && mixed == h * factor % WORD_LIMIT && high == mixed / divisor
  }

  lemma XorInWord(a: word, b: word)
    ensures Xor(a, b) < WORD_LIMIT
  {
    WordIsPow2();
    XorBound(a, b, 64);
  }

  lemma RoundIs(h: word, c: byte, sum: int, mixed: word, high: word)
    requires sum == h + (if c < 128 then c else c - 256) && Mixed(sum, 1025, 64, mixed, high)
    ensures Round(h, c) == Xor(mixed, high)
  {
    var added := Add(h, SignExtend(c));
    SignedAdd(h, c);
    SmallPowers();
    MixIs(added, 10, 1025);
    MulMod(sum, 1025);
    FoldIs(Mix(added, 10), 6, 64, high);
  }

  lemma FinishIs(h: word, mixed: word, high: word, r: word)
    requires Mixed(h, 9, 2048, mixed, high) && Xor(mixed, high) < WORD_LIMIT
    requires Mixed(Xor(mixed, high), 32769, 1, r, r)
    ensures Finish(h) == r
  {
    SmallPowers();
    MixIs(h, 3, 9);
    FoldIs(mixed, 11, 2048, high);
    MixIs(Fold(mixed, 11), 15, 32769);
  }

  /** A round: add the signed character, multiply by 1025, fold in the word without its lowest 6 bits. */
  lemma RoundLiterally(h: word, c: byte)
    ensures var signed := if c < 128 then c else c - 256;
            var mixed := (h + signed) * 1025 % 0x1_0000_0000_0000_0000;
            Round(h, c) == Xor(mixed, mixed / 64)
  {
    var sum := h + if c < 128 then c else c - 256;
    var mixed := sum * 1025 % WORD_LIMIT;
    RoundIs(h, c, sum, mixed, mixed / 64);
  }

  lemma SignedAdd(h: word, c: byte)
    ensures Add(h, SignExtend(c)) == (h + (if c < 128 then c else c - 256)) % WORD_LIMIT
  {
  }

  lemma SmallPowers()
    ensures Pow2(3) == 8 && Pow2(6) == 64 && Pow2(10) == 1024 && Pow2(11) == 2048 && Pow2(15) == 32768
  {
  }

  lemma MixIs(h: word, k: nat, factor: nat)
    requires factor == 1 + Pow2(k)
    ensures Mix(h, k) == h * factor % WORD_LIMIT
  {
    MixMultiplies(h, k);
  }

  lemma FoldIs(h: word, k: nat, divisor: nat, high: nat)
    requires divisor == Pow2(k) && divisor > 0 && high == h / divisor
    ensures Fold(h, k) == Xor(h, high)
  {
    ShrDivides(h, k);
  }

  /** The finaliser: multiply by 9, fold in the word without its lowest 11 bits, multiply by 32769. */
  lemma FinishLiterally(h: word)
    ensures var mixed := h * 9 % 0x1_0000_0000_0000_0000;
            Finish(h) == Xor(mixed, mixed / 2048) * 32769 % 0x1_0000_0000_0000_0000
  {
    var mixed := h * 9 % WORD_LIMIT;
    XorInWord(mixed, mixed / 2048);
    FinishIs(h, mixed, mixed / 2048, Xor(mixed, mixed / 2048) * 32769 % WORD_LIMIT);
  }

  /** The empty name hashes to 0. */
  lemma HashOfEmpty(p: seq<byte>)
    requires p == []
    ensures Hash(p) == 0
  {
    assert Mixed(0, 9, 2048, 0, 0) && Mixed(0, 32769, 1, 0, 0);
    FinishedIs(p, 0, 0, 0, 0, 0);
  }

  lemma FinishedIs(p: seq<byte>, h: word, mixed: word, high: word, x: word, r: word)
    requires Absorb(0, p) == h && Mixed(h, 9, 2048, mixed, high) && Xor(mixed, high) == x
    requires Mixed(x, 32769, 1, r, r)
    ensures Hash(p) == r
  {
    FinishIs(h, mixed, high, r);
  }

  /** One more character is one more round before the finaliser. With HashOfEmpty and FinishBijective this is the hash
      of every name. */
  lemma HashGrows(p: seq<byte>, c: byte)
    ensures Hash(p + [c]) == Finish(Round(Unfinish(Hash(p)), c))
  {
    AbsorbMore(0, p, c);
    FinishBijective(Absorb(0, p));
  }

  lemma AbsorbMore(h: word, p: seq<byte>, c: byte)
    ensures Absorb(h, p + [c]) == Round(Absorb(h, p), c)
  {
    AbsorbConcat(h, p, [c]);
    var g := Absorb(h, p);
    assert [c][1..] == [];
    assert Absorb(g, [c]) == Absorb(Round(g, c), []);
  }

  /** One bit of an exclusive or. */
  lemma XorStep(a: nat, b: nat, x: nat)
    requires Xor(a / 2, b / 2) == x
    ensures Xor(a, b) == 2 * x + (a + b) % 2
  {
    XorBits(a, b);
  }

  lemma XorOfRound()
    ensures Xor(99425, 1553) == 98928
  {
    assert Xor(48, 0) == 48;
    XorStep(97, 1, 48);
    XorStep(194, 3, 96);
    XorStep(388, 6, 193);
    XorStep(776, 12, 386);
    XorStep(1553, 24, 772);
    XorStep(3107, 48, 1545);
    XorStep(6214, 97, 3091);
    XorStep(12428, 194, 6183);
    XorStep(24856, 388, 12366);
    XorStep(49712, 776, 24732);
    XorStep(99425, 1553, 49464);
  }

  lemma XorOfFinish()
    ensures Xor(890352, 434) == 889922
  {
    assert Xor(1738, 0) == 1738;
    XorStep(3477, 1, 1738);
    XorStep(6955, 3, 3476);
    XorStep(13911, 6, 6952);
    XorStep(27823, 13, 13905);
    XorStep(55647, 27, 27810);
    XorStep(111294, 54, 55620);
    XorStep(222588, 108, 111240);
    XorStep(445176, 217, 222480);
    XorStep(890352, 434, 444961);
  }

  lemma AbsorbedIs(p: seq<byte>, c: byte, mixed: word, high: word, x: word)
    requires p == [c] && c < 128 && Mixed(c, 1025, 64, mixed, high) && Xor(mixed, high) == x
    ensures Absorb(0, p) == x
  {
    AbsorbMore(0, [], c);
    assert [] + [c] == p;
    RoundIs(0, c, c, mixed, high);
  }

  lemma LetterA()
    ensures Mixed(97, 1025, 64, 99425, 1553)
    ensures Mixed(98928, 9, 2048, 890352, 434) && Mixed(889922, 32769, 1, 29161854018, 29161854018)
  {
  }

  /** The hash of "a". */
  lemma HashOfLetterA(p: seq<byte>)
    requires p == [97]
    ensures Hash(p) == 29161854018
  {
    LetterA();
    XorOfRound();
    AbsorbedIs(p, 97, 99425, 1553, 98928);
    XorOfFinish();
    FinishedIs(p, 98928, 890352, 434, 889922, 29161854018);
  }
}
