/**
  Machine words as natural numbers, and their bits, most significant first.

  A word of n bits is a natural number below Pow2(n). Shifts are multiplication and
  division by powers of two, truncation is the remainder, and the bitwise operators are
  defined digit by digit. Everything the codec writes or reads is related to the word it
  came from through `Bits` and `Val`.
*/
module Words {

  datatype Option<+T> = None | Some(value: T)

  const U64 := 0x1_0000_0000_0000_0000
  const I64 := 0x8000_0000_0000_0000

  type byte = x: int | 0 <= x < 256
  type uint16 = x: int | 0 <= x < 0x1_0000
  type uint64 = x: int | 0 <= x < U64
  type int64 = x: int | -I64 <= x < I64

  function Pow2(n: nat): (p: nat)
    ensures p >= 1
  {
    if n == 0 then 1 else 2 * Pow2(n - 1)
  }

  // Conversions between signed and unsigned 64-bit integers: arithmetic modulo 2^64.
  function ToU64(x: int): uint64 { x % U64 }

  function ToI64(x: int): (r: int64)
    ensures ToU64(r) == ToU64(x)
    ensures -I64 <= x < I64 ==> r == x
  {
    var u := x % U64;
    if u < I64 then u else u - U64
  }

  // Two signed integers with the same residue modulo 2^64 are equal.
  lemma SignedResidueUnique(a: int64, b: int64)
    requires ToU64(a) == ToU64(b)
    ensures a == b
  {
    assert a == ToI64(a) && b == ToI64(b);
  }

  lemma DivNonNegative(x: nat, d: nat)
    requires d > 0
    ensures x / d >= 0
  {
  }

  // Logical shift right.
  function Shr(v: nat, k: nat): nat
  {
    DivNonNegative(v, Pow2(k));
    v / Pow2(k)
  }

  function Zeros(n: nat): (z: seq<bool>)
    ensures |z| == n
    ensures forall i :: 0 <= i < n ==> !z[i]
  {
    seq(n, _ => false)
  }

  // The n low bits of v, most significant first.
  function Bits(v: nat, n: nat): (b: seq<bool>)
    ensures |b| == n
  {
    if n == 0 then [] else Bits(v / 2, n - 1) + [v % 2 == 1]
  }

  // The number a bit string denotes.
  function Val(b: seq<bool>): nat
  {
    if b == [] then 0 else 2 * Val(b[..|b| - 1]) + (if b[|b| - 1] then 1 else 0)
  }

  function Or(a: nat, b: nat): nat
    decreases a + b
  {
    if a == 0 && b == 0 then 0 else 2 * Or(a / 2, b / 2) + (if a % 2 == 1 || b % 2 == 1 then 1 else 0)
  }

  function Xor(a: nat, b: nat): nat
    decreases a + b
  {
    if a == 0 && b == 0 then 0 else 2 * Xor(a / 2, b / 2) + (if a % 2 != b % 2 then 1 else 0)
  }

  // Number of significant bits, and of trailing zero bits.
  function BitLen(x: nat): nat
  {
    if x == 0 then 0 else 1 + BitLen(x / 2)
  }

  function Ctz(x: nat): (t: nat)
    requires x > 0
  {
    if x % 2 == 1 then 0 else 1 + Ctz(x / 2)
  }

  function Clz(x: uint64): (z: int)
    requires x > 0
  {
    64 - BitLen(x)
  }

  // Powers of two ////////////////////////////////////////////////////////////////

  lemma {:induction false} Pow2Add(m: nat, n: nat)
    ensures Pow2(m + n) == Pow2(m) * Pow2(n)
  {
    if m > 0 { Pow2Add(m - 1, n); }
  }

  lemma Pow2Byte()
    ensures Pow2(1) == 2 && Pow2(2) == 4 && Pow2(3) == 8 && Pow2(4) == 16
    ensures Pow2(5) == 32 && Pow2(6) == 64 && Pow2(7) == 128 && Pow2(8) == 256
  {
    assert Pow2(4) == 16;
    assert Pow2(8) == 256;
  }

  lemma Pow2Half()
    ensures Pow2(13) == 0x2000 && Pow2(14) == 0x4000 && Pow2(16) == 0x1_0000
    ensures Pow2(17) == 0x2_0000 && Pow2(19) == 0x8_0000 && Pow2(20) == 0x10_0000
  {
    Pow2Byte();
    Pow2Add(8, 5);
    Pow2Add(8, 8);
    Pow2Add(16, 3);
    assert Pow2(14) == 2 * Pow2(13);
    assert Pow2(17) == 2 * Pow2(16);
    assert Pow2(20) == 2 * Pow2(19);
  }

  lemma Pow2Word()
    ensures Pow2(32) == 0x1_0000_0000 && Pow2(56) == 0x100_0000_0000_0000
    ensures Pow2(63) == I64 && Pow2(64) == U64
  {
    Pow2Byte();
    Pow2Half();
    Pow2Add(16, 16);
    Pow2Add(16, 8);
    Pow2Add(32, 24);
    Pow2Add(32, 32);
    assert Pow2(64) == 2 * Pow2(63);
  }

  lemma {:induction false} Pow2Monotone(m: nat, n: nat)
    requires m <= n
    ensures Pow2(m) <= Pow2(n)
    decreases n
  {
    if m < n { Pow2Monotone(m, n - 1); }
  }

  lemma {:induction false} DivStep(x: nat, d: nat)
    requires d > 0
    ensures (x / 2) / d == x / (2 * d)
    ensures (x / 2) % d * 2 + x % 2 == x % (2 * d)
  {
    var q, r := (x / 2) / d, (x / 2) % d;
    assert x == 2 * (q * d + r) + x % 2;
    assert x == q * (2 * d) + (2 * r + x % 2) by {
      assert 2 * (q * d) == q * (2 * d);
    }
    DivModUnique(x, 2 * d, q, 2 * r + x % 2);
  }

  lemma DivModUnique(x: int, d: int, q: int, r: int)
    requires d > 0 && 0 <= r < d && x == q * d + r
    ensures x / d == q && x % d == r
  {
    var q', r' := x / d, x % d;
    assert (q - q') * d == q * d - q' * d == r' - r;
    assert (q' - q) * d == r - r';
    if q > q' {
      MulAtLeast(q - q', d);
    } else if q < q' {
      MulAtLeast(q' - q, d);
    }
  }

  lemma MulAtLeast(a: int, d: int)
    requires a >= 1 && d >= 0
    ensures a * d >= d
  {
  }

  lemma MulMonotone(a: nat, b: nat, c: nat)
    requires a <= b
    ensures a * c <= b * c
  {
  }

  // Bits and Val are inverse ///////////////////////////////////////////////////////

  lemma {:induction false} ValOfBits(v: nat, n: nat)
    ensures Val(Bits(v, n)) == v % Pow2(n)
  {
    if n > 0 {
      var b := Bits(v, n);
      assert b[..n - 1] == Bits(v / 2, n - 1);
      ValOfBits(v / 2, n - 1);
      DivStep(v, Pow2(n - 1));
    }
  }

  lemma {:induction false} BitsOfVal(b: seq<bool>)
    ensures Val(b) < Pow2(|b|)
    ensures Bits(Val(b), |b|) == b
  {
    if b != [] {
      BitsOfVal(b[..|b| - 1]);
      assert Val(b) / 2 == Val(b[..|b| - 1]);
      assert b == b[..|b| - 1] + [b[|b| - 1]];
    }
  }

  lemma {:induction false} ValConcat(a: seq<bool>, b: seq<bool>)
    ensures Val(a + b) == Val(a) * Pow2(|b|) + Val(b)
  {
    if b == [] {
      assert a + b == a;
    } else {
      var c := b[..|b| - 1];
      assert (a + b)[..|a + b| - 1] == a + c;
      ValConcat(a, c);
      MulTwice(Val(a), Pow2(|c|));
    }
  }

  lemma MulTwice(x: nat, y: nat)
    ensures x * (2 * y) == 2 * (x * y)
  {
  }

  // Slices of Bits /////////////////////////////////////////////////////////////////

  lemma {:induction false} BitsHigh(v: nat, n: nat, k: nat)
    requires k <= n
    ensures Bits(v, n)[..n - k] == Bits(Shr(v, k), n - k)
  {
    if k > 0 {
      BitsHigh(v / 2, n - 1, k - 1);
      DivStep(v, Pow2(k - 1));
      assert Bits(v, n)[..n - k] == Bits(v / 2, n - 1)[..n - k];
    } else {
      assert Bits(v, n)[..n] == Bits(v, n);
    }
  }

  lemma {:induction false} BitsLow(v: nat, n: nat, k: nat)
    requires k <= n
    ensures Bits(v, n)[n - k..] == Bits(v, k)
  {
    if k > 0 {
      BitsLow(v / 2, n - 1, k - 1);
      assert Bits(v, n)[n - k..] == Bits(v / 2, n - 1)[n - k..] + [v % 2 == 1];
    } else {
      assert Bits(v, n)[n..] == [];
    }
  }

  lemma {:induction false} BitsSplit(v: nat, m: nat, k: nat)
    ensures Bits(v, m + k) == Bits(Shr(v, k), m) + Bits(v, k)
  {
    if k == 0 {
      assert Bits(v, m) + Bits(v, 0) == Bits(v, m);
    } else {
      BitsSplit(v / 2, m, k - 1);
      DivStep(v, Pow2(k - 1));
    }
  }

  lemma {:induction false} BitsShl(v: nat, n: nat, k: nat)
    ensures Bits(v * Pow2(k), n + k) == Bits(v, n) + Zeros(k)
  {
    if k == 0 {
      assert Bits(v, n) + Zeros(0) == Bits(v, n);
    } else {
      var w := v * Pow2(k - 1);
      assert v * Pow2(k) == 2 * w;
      BitsShl(v, n, k - 1);
      assert Bits(2 * w, n + k) == Bits(w, n + k - 1) + [false];
      assert Zeros(k) == Zeros(k - 1) + [false];
    }
  }

  lemma {:induction false} BitsOfZero(n: nat)
    ensures Bits(0, n) == Zeros(n)
  {
    if n > 0 {
      BitsOfZero(n - 1);
      assert Zeros(n) == Zeros(n - 1) + [false];
    }
  }

  // Truncation to m bits does not change the n <= m low bits.
  lemma {:induction false} BitsTruncate(v: nat, m: nat, n: nat)
    requires n <= m
    ensures Bits(v % Pow2(m), n) == Bits(v, n)
  {
    if n > 0 {
      DivStep(v, Pow2(m - 1));
      BitsTruncate(v / 2, m - 1, n - 1);
    }
  }

  // A word below Pow2(n) has only zeros above its n low bits.
  lemma {:induction false} BitsWiden(v: nat, n: nat, k: nat)
    requires v < Pow2(n)
    ensures Bits(v, k + n) == Zeros(k) + Bits(v, n)
  {
    BitsSplit(v, k, n);
    DivModUnique(v, Pow2(n), 0, v);
    BitsOfZero(k);
  }

  // The low k bits of v are all zero exactly when Pow2(k) divides v.
  lemma {:induction false} BitsLowZero(v: nat, k: nat)
    ensures v % Pow2(k) == 0 <==> Bits(v, k) == Zeros(k)
  {
    ValOfBits(v, k);
    BitsTruncate(v, k, k);
    BitsOfZero(k);
    ValOfBits(0, k);
  }

  // Bitwise or and exclusive or ///////////////////////////////////////////////////

  lemma {:induction false} OrBits(a: nat, b: nat, n: nat)
    ensures forall i :: 0 <= i < n ==> Bits(Or(a, b), n)[i] == (Bits(a, n)[i] || Bits(b, n)[i])
  {
    if n > 0 {
      if a == 0 && b == 0 {
      } else {
        assert Or(a, b) / 2 == Or(a / 2, b / 2);
      }
      OrBits(a / 2, b / 2, n - 1);
    }
  }

  lemma {:induction false} OrBound(a: nat, b: nat, n: nat)
    requires a < Pow2(n) && b < Pow2(n)
    ensures Or(a, b) < Pow2(n)
  {
    if n > 0 { OrBound(a / 2, b / 2, n - 1); }
  }

  // Or of words that occupy different bit positions is concatenation.
  lemma {:induction false} OrDisjoint(a: nat, b: nat, n: nat, k: nat)
    requires k <= n && a % Pow2(k) == 0 && b < Pow2(k)
    ensures Bits(Or(a, b), n) == Bits(a, n)[..n - k] + Bits(b, k)
  {
    OrBits(a, b, n);
    BitsLow(a, n, k);
    BitsLowZero(a, k);
    BitsWiden(b, k, n - k);
    var o, x, y := Bits(Or(a, b), n), Bits(a, n), Bits(b, n);
    assert y == Zeros(n - k) + Bits(b, k);
    forall i | 0 <= i < n
      ensures o[i] == (x[..n - k] + Bits(b, k))[i]
    {
      if i >= n - k { assert x[i] == x[n - k..][i - (n - k)]; }
    }
  }

  lemma {:induction false} OrCommutes(a: nat, b: nat)
    ensures Or(a, b) == Or(b, a)
    decreases a + b
  {
    if a != 0 || b != 0 { OrCommutes(a / 2, b / 2); }
  }

  // Or with a number that fits below the other's low zeros is addition.
  lemma {:induction false} OrAdds(a: nat, k: nat, x: nat)
    requires x < Pow2(k)
    ensures Or(a * Pow2(k), x) == a * Pow2(k) + x
  {
    if k == 0 {
      OrCommutes(a, 0);
      OrZero(a);
    } else {
      var h := a * Pow2(k - 1);
      assert a * Pow2(k) == 2 * h;
      OrAdds(a, k - 1, x / 2);
      assert Or(2 * h, x) == 2 * Or(h, x / 2) + x % 2;
    }
  }

  lemma {:induction false} OrZero(x: nat)
    ensures Or(0, x) == x
  {
    if x > 0 { OrZero(x / 2); }
  }

  lemma {:induction false} XorBound(a: nat, b: nat, n: nat)
    requires a < Pow2(n) && b < Pow2(n)
    ensures Xor(a, b) < Pow2(n)
  {
    if n > 0 { XorBound(a / 2, b / 2, n - 1); }
  }

  lemma {:induction false} XorCancel(a: nat, b: nat)
    ensures Xor(a, Xor(b, a)) == b
    decreases a + b
  {
    if a == 0 && b == 0 {
    } else {
      XorCancel(a / 2, b / 2);
      assert Xor(b, a) / 2 == Xor(b / 2, a / 2);
    }
  }

  lemma {:induction false} XorZero(a: nat, b: nat)
    ensures Xor(a, b) == 0 <==> a == b
    decreases a + b
  {
    if a == 0 && b == 0 {
    } else {
      XorZero(a / 2, b / 2);
    }
  }

  // Leading and trailing zeros ////////////////////////////////////////////////////

  lemma {:induction false} BitLenBound(x: nat, n: nat)
    ensures x < Pow2(BitLen(x))
    ensures x < Pow2(n) ==> BitLen(x) <= n
  {
    if x > 0 {
      BitLenBound(x / 2, if n > 0 then n - 1 else 0);
    }
  }

  lemma {:induction false} CtzDivides(x: nat, t: nat)
    requires x > 0 && t <= Ctz(x)
    ensures x % Pow2(t) == 0
  {
    if t > 0 {
      CtzDivides(x / 2, t - 1);
      DivStep(x, Pow2(t - 1));
    }
  }

  lemma {:induction false} CtzOfMultiple(x: nat, t: nat)
    requires x > 0 && x % Pow2(t) == 0
    ensures t <= Ctz(x)
  {
    if t > 0 {
      DivStep(x, Pow2(t - 1));
      CtzOfMultiple(x / 2, t - 1);
    }
  }

  lemma {:induction false} CtzBelowBitLen(x: nat)
    requires x > 0
    ensures Ctz(x) < BitLen(x)
  {
    if x % 2 == 0 { CtzBelowBitLen(x / 2); }
  }

  lemma {:induction false} ShrBound(x: nat, n: nat, k: nat)
    requires x < Pow2(n + k)
    ensures Shr(x, k) < Pow2(n)
  {
    if k > 0 {
      DivStep(x, Pow2(k - 1));
      ShrBound(x / 2, n, k - 1);
    }
  }

  lemma ShrExact(x: nat, k: nat)
    requires x % Pow2(k) == 0
    ensures Shr(x, k) * Pow2(k) == x
  {
  }

  // The window of a 64-bit word with at least `lead` leading and `trail` trailing zeros:
  // shifting right by `trail` leaves a number of 64 - lead - trail bits, and nothing is lost.
  lemma WindowRoom(x: uint64, lead: nat, trail: nat)
    requires x > 0 && lead <= Clz(x) && trail <= Ctz(x)
    ensures lead + trail <= 63
    ensures x < Pow2(64 - lead - trail + trail)
  {
    CtzBelowBitLen(x);
    Pow2Word();
    BitLenBound(x, 64);
    Pow2Monotone(BitLen(x), 64 - lead);
  }

  lemma {:induction false} Window(x: uint64, lead: nat, trail: nat)
    requires x > 0 && lead <= Clz(x) && trail <= Ctz(x)
    ensures lead + trail <= 63
    ensures Shr(x, trail) < Pow2(64 - lead - trail)
    ensures Shr(x, trail) * Pow2(trail) == x
  {
    WindowRoom(x, lead, trail);
    ShrBound(x, 64 - lead - trail, trail);
    CtzDivides(x, trail);
    ShrExact(x, trail);
  }

  // Truncating a left shift drops the bits that leave the word.
  lemma ShlTruncate(x: nat, s: nat, t: nat)
    ensures x * Pow2(s) % Pow2(s + t) == x % Pow2(t) * Pow2(s)
  {
    hide Pow2;
    var p, q := Pow2(s), Pow2(t);
    Pow2Add(s, t);
    var h, l := x / q, x % q;
    assert x == h * q + l;
    assert x * p == h * (p * q) + l * p by {
      assert (h * q + l) * p == h * q * p + l * p;
      assert h * q * p == h * (p * q);
    }
    MulMonotone(l + 1, q, p);
    assert (l + 1) * p == l * p + p;
    DivModUnique(x * p, p * q, h, l * p);
  }

  // Adding in one more group at bit position s of a 64-bit word.
  lemma OrShiftedIn(acc: nat, b: nat, s: nat)
    requires s <= 64 && acc < Pow2(s)
    ensures Or(acc, b * Pow2(s) % U64) == (acc + b * Pow2(s)) % U64
  {
    hide Or, Pow2;
    Pow2Word();
    var p, q := Pow2(s), Pow2(64 - s);
    Pow2Add(s, 64 - s);
    ShlTruncate(b, s, 64 - s);
    var c := b % q;
    OrCommutes(acc, c * p);
    OrAdds(c, s, acc);
    ShiftedSum(acc, b, p, q);
  }

  lemma ShiftedSum(acc: nat, b: nat, p: nat, q: nat)
    requires acc < p && q > 0
    ensures (acc + b * p) % (p * q) == acc + b % q * p
  {
    var h, l := b / q, b % q;
    assert b == h * q + l;
    assert acc + b * p == h * (p * q) + (acc + l * p) by {
      assert (h * q + l) * p == h * q * p + l * p;
      assert h * q * p == h * (p * q);
    }
    MulMonotone(l + 1, q, p);
    assert (l + 1) * p == l * p + p;
    DivModUnique(acc + b * p, p * q, h, acc + l * p);
  }
}
