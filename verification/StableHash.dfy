/**
  The 32-bit string hash used for demo seeds and avatars: FNV-1a
  (draft-eastlake-fnv, section 2) fed UTF-16 code units instead of octets. The
  program computes on signed 32-bit numbers, as JavaScript's bit operators do;
  the specification is unsigned.
 */
module StableHash {
  import opened CodeUnits

  const TWO32: nat := 0x1_0000_0000
  const OFFSET_BASIS: nat := 2166136261
  const PRIME: nat := 16777619
  /** The inverse of PRIME modulo 2^32. */
  const PRIME_INVERSE: nat := 899433627

  type Word = n: nat | n < TWO32

  // ----- exclusive or on natural numbers -----

  /** Exclusive or of the lowest bits. */
  function LowBit(a: nat, b: nat): nat {
    if a % 2 == b % 2 then 0 else 1
  }

  function Xor(a: nat, b: nat): nat {
    if a == 0 && b == 0 then 0 else 2 * Xor(a / 2, b / 2) + LowBit(a, b)
  }

  function Pow2(k: nat): nat {
    if k == 0 then 1 else 2 * Pow2(k - 1)
  }

  /** Bit by bit: the lowest bit, and the rest one place up. */
  lemma XorBits(a: nat, b: nat)
    ensures Xor(a, b) == 2 * Xor(a / 2, b / 2) + LowBit(a, b)
  {
  }

  lemma XorOfDoubled(y: nat, bit: nat, b: nat)
    requires bit < 2
    ensures Xor(2 * y + bit, b) == 2 * Xor(y, b / 2) + LowBit(bit, b)
  {
    XorBits(2 * y + bit, b);
    assert (2 * y + bit) / 2 == y && (2 * y + bit) % 2 == bit % 2;
  }

  lemma XorUndone(a: nat, b: nat, y: nat, bit: nat)
    requires bit == LowBit(a, b) && Xor(y, b / 2) == a / 2
    ensures Xor(2 * y + bit, b) == a
  {
    XorOfDoubled(y, bit, b);
    assert LowBit(bit, b) == a % 2;
  }

  /** Applying the same mask twice gives the number back. */
  lemma {:induction false} XorInvolution(a: nat, b: nat)
    ensures Xor(Xor(a, b), b) == a
    decreases a + b
  {
    if a != 0 || b != 0 {
      XorInvolution(a / 2, b / 2);
      XorBits(a, b);
      XorUndone(a, b, Xor(a / 2, b / 2), LowBit(a, b));
    }
  }

  lemma {:induction false} XorSymmetric(a: nat, b: nat)
    ensures Xor(a, b) == Xor(b, a)
  {
    if a != 0 || b != 0 {
      XorSymmetric(a / 2, b / 2);
    }
  }

  lemma {:induction false} XorBound(a: nat, b: nat, k: nat)
    requires a < Pow2(k) && b < Pow2(k)
    ensures Xor(a, b) < Pow2(k)
  {
    if k > 0 && (a != 0 || b != 0) {
      XorBound(a / 2, b / 2, k - 1);
    }
  }

  lemma XorWord(h: Word, c: CodeUnit)
    ensures Xor(h, c) < TWO32
  {
    assert Pow2(8) == 0x100;
    assert Pow2(16) == 0x1_0000;
    assert Pow2(24) == 0x100_0000;
    assert Pow2(32) == TWO32;
    XorBound(h, c, 32);
  }

  // ----- unsigned specification -----

  function Mul32(h: nat): Word {
    h * PRIME % TWO32
  }

  /** Undoes `Mul32`. */
  lemma MulUndone(h: Word)
    ensures Mul32(h) * PRIME_INVERSE % TWO32 == h
  {
    var k := h * PRIME / TWO32;
    var t := PRIME * PRIME_INVERSE / TWO32;
    assert Mul32(h) == h * PRIME - TWO32 * k;
    assert Mul32(h) * PRIME_INVERSE == h + TWO32 * (h * t - k * PRIME_INVERSE);
    ModUnique(h, h * t - k * PRIME_INVERSE);
  }

  lemma ModUnique(x: Word, q: int)
    ensures (x + TWO32 * q) % TWO32 == x
  {
  }

  function Absorb(h: Word, c: CodeUnit): Word {
    Mul32(Xor(h, c))
  }

  /** The state after absorbing `s` from state `h`. */
  function HashFrom(h: Word, s: Text): Word
    decreases |s|
  {
    if s == [] then h else HashFrom(Absorb(h, s[0]), s[1..])
  }

  function Hash(s: Text): Word {
    HashFrom(OFFSET_BASIS, s)
  }

  lemma HashOne(h: Word, c: CodeUnit)
    requires Xor(h, c) == 0x811C9DA4
    ensures HashFrom(h, [c]) == 0xE40C292C
  {
    assert [c][1..] == [];
  }

  /** The published 32-bit FNV-1a value of "a". */
  lemma KnownValue()
    ensures Hash([0x61]) == 0xE40C292C
  {
    XorLowByte();
    HashOne(OFFSET_BASIS, 0x61);
  }

  /** 0x811C9DC5 with 0x61: the low byte becomes 0xA4. */
  lemma XorLowByte()
    ensures Xor(OFFSET_BASIS, 0x61) == 0x811C9DA4
  {
    XorZero(0x102393B);
    XorBits(0x2047277, 1);
    XorBits(0x408E4EE, 3);
    XorBits(0x811C9DC, 6);
    XorBits(0x102393B8, 0xC);
    XorBits(0x20472771, 0x18);
    XorBits(0x408E4EE2, 0x30);
    XorBits(0x811C9DC5, 0x61);
  }

  lemma {:induction false} XorZero(a: nat)
    ensures Xor(a, 0) == a
  {
    if a != 0 {
      XorZero(a / 2);
      XorBits(a, 0);
    }
  }

  lemma {:induction false} HashConcat(h: Word, s: Text, t: Text)
    ensures HashFrom(h, s + t) == HashFrom(HashFrom(h, s), t)
    decreases |s|
  {
    if s == [] {
      assert s + t == t;
    } else {
      HashConcat(Absorb(h, s[0]), s[1..], t);
      assert (s + t)[1..] == s[1..] + t;
    }
  }

  lemma XorCancel(a: nat, b: nat, c: nat)
    requires Xor(a, c) == Xor(b, c)
    ensures a == b
  {
    XorInvolution(a, c);
    XorInvolution(b, c);
  }

  /** One step is injective in the state and, for a fixed state, in the code unit. */
  lemma AbsorbInjective(h: Word, g: Word, c: CodeUnit, d: CodeUnit)
    requires Absorb(h, c) == Absorb(g, d)
    ensures c == d ==> h == g
    ensures h == g ==> c == d
  {
    XorWord(h, c);
    XorWord(g, d);
    MulUndone(Xor(h, c));
    MulUndone(Xor(g, d));
    if c == d {
      XorCancel(h, g, c);
    }
    if h == g {
      XorSymmetric(h, c);
      XorSymmetric(h, d);
      XorCancel(c, d, h);
    }
  }

  /** Every state is reached from some state: a step permutes the 2^32 states. */
  lemma AbsorbSurjective(g: Word, c: CodeUnit) returns (h: Word)
    ensures Absorb(h, c) == g
  {
    var x := g * PRIME_INVERSE % TWO32;
    XorWord(x, c);
    h := Xor(x, c);
    XorInvolution(x, c);
    InverseUndone(g);
  }

  lemma InverseUndone(g: Word)
    ensures Mul32(g * PRIME_INVERSE % TWO32) == g
  {
    var x := g * PRIME_INVERSE % TWO32;
    var k := g * PRIME_INVERSE / TWO32;
    var t := PRIME * PRIME_INVERSE / TWO32;
    assert x == g * PRIME_INVERSE - TWO32 * k;
    assert x * PRIME == g + TWO32 * (g * t - k * PRIME);
    ModUnique(g, g * t - k * PRIME);
  }

  /** Absorbing a whole string is injective in the state it starts from. */
  lemma {:induction false} HashFromInjective(h: Word, g: Word, s: Text)
    requires HashFrom(h, s) == HashFrom(g, s)
    ensures h == g
    decreases |s|
  {
    if s != [] {
      HashFromInjective(Absorb(h, s[0]), Absorb(g, s[0]), s[1..]);
      AbsorbInjective(h, g, s[0], s[0]);
    }
  }

  /** A common end plays no part in a collision: two strings collide exactly when they do without it. */
  lemma {:induction false} CommonSuffixCancels(s: Text, t: Text, suffix: Text)
    ensures Hash(s + suffix) == Hash(t + suffix) <==> Hash(s) == Hash(t)
  {
    HashConcat(OFFSET_BASIS, s, suffix);
    HashConcat(OFFSET_BASIS, t, suffix);
    if Hash(s + suffix) == Hash(t + suffix) {
      HashFromInjective(Hash(s), Hash(t), suffix);
    }
  }

  /** Two strings that differ in exactly one code unit never collide. */
  lemma {:induction false} OneUnitNeverCollides(p: Text, a: CodeUnit, b: CodeUnit, q: Text)
    requires a != b
    ensures Hash(p + [a] + q) != Hash(p + [b] + q)
  {
    CommonSuffixCancels(p + [a], p + [b], q);
    HashConcat(OFFSET_BASIS, p, [a]);
    HashConcat(OFFSET_BASIS, p, [b]);
    assert [a][1..] == [] && [b][1..] == [];
    if Absorb(Hash(p), a) == Absorb(Hash(p), b) {
      AbsorbInjective(Hash(p), Hash(p), a, b);
    }
  }

  // ----- the program's signed arithmetic -----

  /** Two's complement reading of the low 32 bits. */
  function ToInt32(n: int): int {
    (n + 0x8000_0000) % TWO32 - 0x8000_0000
  }

  function ToUint32(n: int): Word {
    n % TWO32
  }

  /** `^` on numbers. */
  function BitXor(a: int, b: int): int {
    ToInt32(Xor(ToUint32(a), ToUint32(b)))
  }

  /** `Math.imul`. */
  function Imul(a: int, b: int): int {
    ToInt32(ToInt32(a) * ToInt32(b))
  }

  lemma SignDoesNotMatter(n: int)
    ensures ToUint32(ToInt32(n)) == ToUint32(n)
  {
    var k := (n + 0x8000_0000) / TWO32;
    assert ToInt32(n) == n - TWO32 * k;
    var r, q := n % TWO32, n / TWO32;
    assert n - TWO32 * k == r + TWO32 * (q - k);
    ModUnique(r, q - k);
  }

  lemma ImulRefines(a: int)
    ensures ToUint32(Imul(a, PRIME)) == Mul32(ToUint32(a))
  {
    SignDoesNotMatter(a);
    var x := ToInt32(a);
    assert ToInt32(PRIME) == PRIME;
    SignDoesNotMatter(x * PRIME);
    var r, q := x % TWO32, x / TWO32;
    var r', q' := r * PRIME % TWO32, r * PRIME / TWO32;
    assert x * PRIME == r' + TWO32 * (q' + q * PRIME);
    ModUnique(r', q' + q * PRIME);
  }

  lemma WordIsUint32(n: int)
    requires 0 <= n < TWO32
    ensures ToUint32(n) == n
  {
  }

  lemma AbsorbRefines(hash: int, c: CodeUnit)
    ensures ToUint32(Imul(BitXor(hash, c), PRIME)) == Absorb(ToUint32(hash), c)
  {
    var word := ToUint32(hash);
    XorWord(word, c);
    WordIsUint32(c);
    var x := Xor(word, c);
    SignDoesNotMatter(x);
    WordIsUint32(x);
    var mixed := BitXor(hash, c);
    assert ToUint32(mixed) == x;
    ImulRefines(mixed);
  }

  /** The loop of the program: the signed computation ends in the unsigned hash. */
  method StableHash(value: Text) returns (r: Word)
    ensures r == Hash(value)
  {
    var hash: int := OFFSET_BASIS;
    for index := 0 to |value|
      invariant HashFrom(ToUint32(hash), value[index..]) == Hash(value)
    {
      AbsorbRefines(hash, value[index]);
      assert value[index..][1..] == value[index + 1..];
      hash := BitXor(hash, value[index]);
      hash := Imul(hash, PRIME);
    }
    r := ToUint32(hash);
  }

  // ----- the avatar drawn from a hash -----

  /** Which of 6 palettes, 4 shapes and 4 dot positions an avatar shows. */
  datatype Avatar = Avatar(palette: nat, shape: nat, dot: nat)

  function AvatarOf(hash: Word): Avatar {
    Avatar(hash % 6, hash / 6 % 4, hash / 24 % 4)
  }

  /** Two hashes draw the same avatar exactly when they agree modulo 96. */
  lemma SameAvatar(h: Word, g: Word)
    ensures AvatarOf(h) == AvatarOf(g) <==> h % 96 == g % 96
  {
    AvatarMod96(h);
    AvatarMod96(g);
  }

  lemma AvatarMod96(h: Word)
    ensures var a := AvatarOf(h);
      a.palette < 6 && a.shape < 4 && a.dot < 4 && h % 96 == a.palette + 6 * a.shape + 24 * a.dot
  {
    assert h / 6 / 4 == h / 24;
    assert h / 24 / 4 == h / 96;
  }

  /** All 96 combinations occur, and the residue tells which. */
  lemma AvatarReached(a: Avatar) returns (h: Word)
    requires a.palette < 6 && a.shape < 4 && a.dot < 4
    ensures h < 96 && AvatarOf(h) == a
  {
    h := a.palette + 6 * a.shape + 24 * a.dot;
    var rest := a.shape + 4 * a.dot;
    assert h == a.palette + 6 * rest;
    assert h / 6 == rest && h % 6 == a.palette;
    assert rest / 4 == a.dot && rest % 4 == a.shape;
    assert h / 24 == h / 6 / 4;
  }
}
