// Products and powers modulo the largest prime below 2^64, in 64-bit arithmetic
// that wraps, and the key exchange built on them.

module PowModP {

  const WORD: nat := 0x1_0000_0000_0000_0000
  const P: nat := 0xffff_ffff_ffff_ffc5
  const G: nat := 5

  type Word = x: int | 0 <= x < WORD

  function Wrap(x: int): Word { x % WORD }

  function Pow(a: nat, n: nat): nat { if n == 0 then 1 else a * Pow(a, n - 1) }

  // ------------------------------------------------------------ congruence

  ghost predicate Cong(x: int, y: int) { x % P == y % P }

  lemma CongBy(x: int, y: int, k: int)
    requires x == y + k * P
    ensures Cong(x, y)
  {
  }

  lemma CongMul(a: int, b: int, c: int, d: int)
    requires Cong(a, b) && Cong(c, d)
    ensures Cong(a * c, b * d)
  {
    var i, j := a / P - b / P, c / P - d / P;
    assert a == b + i * P && c == d + j * P;
    Expand(b, d, i, j);
    CongBy(a * c, b * d, b * j + i * d + i * j * P);
  }

  lemma Expand(b: int, d: int, i: int, j: int)
    ensures (b + i * P) * (d + j * P) == b * d + (b * j + i * d + i * j * P) * P
  {
  }

  lemma CongSmall(x: nat, y: int)
    requires Cong(x, y) && x < P
    ensures x == y % P
  {
  }

  // ------------------------------------------------------------ products

  // One step: the lowest bit of 'b' adds 'a' to the sum, and 'a' is doubled,
  // both modulo P.
  lemma MulStep(m: nat, a: nat, b: nat, m': nat, a': nat, want: int)
    requires Cong(m + a * b, want)
    requires Cong(m', m + a * (b % 2)) && Cong(a', 2 * a)
    ensures Cong(m' + a' * (b / 2), want)
  {
    var h := b / 2;
    CongMul(a', 2 * a, h, h);
    assert a * b == 2 * a * h + a * (b % 2) by {
      assert b == 2 * h + b % 2;
      Distribute(a, h, b % 2);
    }
    var x, y := m + a * (b % 2), 2 * a * h;
    CongAdd(m', x, a' * h, y);
  }

  lemma Distribute(a: int, h: int, r: int)
    ensures a * (2 * h + r) == 2 * a * h + a * r
  {
  }

  lemma CongAdd(a: int, b: int, c: int, d: int)
    requires Cong(a, b) && Cong(c, d)
    ensures Cong(a + c, b + d)
  {
  }

  // Adding 'a' to the sum without leaving 64 bits.
  lemma SumStep(m: nat, a: nat)
    requires m < P && a <= P
    ensures m >= P - a ==> m - (P - a) < P && Cong(m - (P - a), m + a)
    ensures m < P - a ==> Wrap(m + a) == m + a < P && Cong(Wrap(m + a), m + a)
  {
    CongBy(m - (P - a), m + a, -1);
  }

  // Doubling 'a', which may wrap.
  lemma DoubleStep(a: nat)
    requires a <= P
    ensures a >= P - a ==> Wrap(Wrap(a * 2) - P) == 2 * a - P <= P && Cong(2 * a - P, 2 * a)
    ensures a < P - a ==> Wrap(a * 2) == 2 * a < P && Cong(Wrap(a * 2), 2 * a)
  {
    CongBy(2 * a - P, 2 * a, -1);
  }

  // One iteration.
  lemma IterStep(m: nat, a: nat, b: nat, want: int)
    requires m < P && a <= P && Cong(m + a * b, want)
    ensures
      var m' := if b % 2 == 1 then if m >= P - a then m - (P - a) else Wrap(m + a) else m;
      var a' := if a >= P - a then Wrap(Wrap(a * 2) - P) else Wrap(a * 2);
      0 <= m' < P && 0 <= a' <= P && Cong(m' + a' * (b / 2), want)
  {
    hide Wrap, Cong;
    var m' := if b % 2 == 1 then if m >= P - a then m - (P - a) else Wrap(m + a) else m;
    var a' := if a >= P - a then Wrap(Wrap(a * 2) - P) else Wrap(a * 2);
    SumStep(m, a);
    BitTimes(a, b % 2);
    CongRefl(m);
    DoubleStep(a);
    MulStep(m, a, b, m', a', want);
  }

  // The product is right for a factor up to P, and the sum stays reduced.
  method MulModP(a0: Word, b0: Word) returns (m: Word)
    requires a0 <= P
    ensures m == a0 * b0 % P
  {
    hide Wrap, Cong;
    m := 0;
    var a, b := a0, b0;
    CongRefl(a * b);
    while b != 0
      invariant 0 <= m < P && 0 <= a <= P && 0 <= b && Cong(m + a * b, a0 * b0)
      decreases b
    {
      IterStep(m, a, b, a0 * b0);
      if b % 2 == 1 {
        var t := P - a;
        if m >= t {
          m := m - t;
        } else {
          m := Wrap(m + a);
        }
      }
      if a >= P - a {
        a := Wrap(Wrap(a * 2) - P);
      } else {
        a := Wrap(a * 2);
      }
      b := b / 2;
    }
    BitTimes(a, 0);
    CongSmall(m, a0 * b0);
  }

  lemma CongRefl(x: int)
    ensures Cong(x, x)
  {
  }

  lemma BitTimes(a: int, r: int)
    requires r == 0 || r == 1
    ensures a * r == if r == 0 then 0 else a
  {
  }

  // ------------------------------------------------------------ powers

  lemma {:induction false} PowAdd(a: nat, m: nat, n: nat)
    ensures Pow(a, m + n) == Pow(a, m) * Pow(a, n)
    decreases m
  {
    if m > 0 {
      PowAdd(a, m - 1, n);
      Regroup(a, Pow(a, m - 1), Pow(a, n));
    }
  }

  lemma Regroup(a: int, b: int, c: int)
    ensures a * (b * c) == (a * b) * c
  {
  }

  lemma {:induction false} PowMul(a: nat, m: nat, n: nat)
    ensures Pow(Pow(a, m), n) == Pow(a, m * n)
    decreases n
  {
    if n > 0 {
      PowMul(a, m, n - 1);
      PowAdd(a, m, m * (n - 1));
      assert m + m * (n - 1) == m * n;
    } else {
      assert m * 0 == 0;
    }
  }

  lemma {:induction false} PowCong(a: nat, b: nat, n: nat)
    requires Cong(a, b)
    ensures Cong(Pow(a, n), Pow(b, n))
    decreases n
  {
    if n > 0 {
      PowCong(a, b, n - 1);
      CongMul(a, b, Pow(a, n - 1), Pow(b, n - 1));
    }
  }

  lemma ModMul(x: nat, y: nat)
    ensures (x % P) * (y % P) % P == x * y % P
  {
    CongMul(x % P, x, y % P, y);
  }

  // The power for a base up to P: reduced, unless the base is P itself and the
  // exponent 1, when the base comes back.
  method PowModPRec(a: Word, b: Word) returns (t: Word)
    requires a <= P && b > 0
    ensures t == if b == 1 then a else Pow(a, b) % P
    decreases b
  {
    if b == 1 {
      return a;
    }
    t := PowModPRec(a, b / 2);
    ghost var h := b / 2;
    HalfPower(a, h, t);
    PowAdd(a, h, h);
    ModMul(Pow(a, h), Pow(a, h));
    t := MulModP(t, t);
    if b % 2 == 1 {
      t := MulModP(t, a);
      OddPower(a, h);
    }
    assert b == 2 * h + b % 2;
  }

  lemma HalfPower(a: nat, h: nat, t: nat)
    requires a <= P && h > 0 && t == if h == 1 then a else Pow(a, h) % P
    ensures t <= P && t * t % P == (Pow(a, h) % P) * (Pow(a, h) % P) % P
  {
    if h == 1 {
      assert Pow(a, 1) == a * Pow(a, 0) == a;
    }
    ModMul(t, t);
    assert t % P == Pow(a, h) % P;
  }

  lemma OddPower(a: nat, h: nat)
    ensures (Pow(a, 2 * h) % P) * a % P == Pow(a, 2 * h + 1) % P
  {
    CongMul(Pow(a, 2 * h) % P, Pow(a, 2 * h), a, a);
    assert Pow(a, 2 * h + 1) == a * Pow(a, 2 * h);
  }

  // calc a^b % p
  method PowModulo(a0: Word, b: Word) returns (r: Word)
    requires b > 0
    ensures r == Pow(a0, b) % P <==> !(a0 == P && b == 1)
    ensures a0 == P && b == 1 ==> r == P
  {
    var a := a0;
    if a > P {
      a := a % P;
    }
    PowCong(a, a0, b);
    r := PowModPRec(a, b);
    if b == 1 {
      assert Pow(a0, 1) == a0 * Pow(a0, 0) == a0;
    }
  }

  // ------------------------------------------------------------ key exchange

  // 5 times this is 1 modulo P.
  const INVERSE: nat := (2 * P + 1) / 5

  // No power of the generator vanishes.
  lemma {:induction false} PowerUnit(n: nat)
    ensures Pow(G, n) % P != 0
  {
    assert G * INVERSE == 2 * P + 1;
    CongBy(G * INVERSE, 1, 2);
    PowerInverse(n);
    CongRefl(Pow(INVERSE, n));
    ZeroTimes(Pow(INVERSE, n));
    if Pow(G, n) % P == 0 {
      CongMul(Pow(G, n), 0, Pow(INVERSE, n), Pow(INVERSE, n));
    }
  }

  lemma ZeroTimes(x: int)
    ensures 0 * x == 0
  {
  }

  lemma {:induction false} PowerInverse(n: nat)
    ensures Cong(Pow(G, n) * Pow(INVERSE, n), 1)
    decreases n
  {
    if n > 0 {
      PowerInverse(n - 1);
      assert G * INVERSE == 2 * P + 1;
      CongBy(G * INVERSE, 1, 2);
      CongMul(G * INVERSE, 1, Pow(G, n - 1) * Pow(INVERSE, n - 1), 1);
      Interchange(G, INVERSE, Pow(G, n - 1), Pow(INVERSE, n - 1));
    }
  }

  lemma Interchange(a: int, b: int, c: int, d: int)
    ensures (a * c) * (b * d) == (a * b) * (c * d)
  {
  }

  datatype Result = Ok(value: Word) | Zero

  // ldhexchange
  method Exchange(x: Word) returns (r: Result)
    ensures r == if x == 0 then Zero else Ok(Pow(G, x) % P)
  {
    if x == 0 {
      return Zero;
    }
    var v := PowModulo(G, x);
    r := Ok(v);
  }

  // ldhsecret
  method Secret(x: Word, y: Word) returns (r: Result)
    ensures r.Zero? <==> x == 0 || y == 0
    ensures r.Ok? ==> r.value == if x == P && y == 1 then P else Pow(x, y) % P
  {
    if x == 0 || y == 0 {
      return Zero;
    }
    var v := PowModulo(x, y);
    r := Ok(v);
  }

  lemma SecretIs(x: nat, y: nat)
    ensures Pow(Pow(G, x) % P, y) % P == Pow(G, x * y) % P
  {
    PowCong(Pow(G, x) % P, Pow(G, x), y);
    PowMul(G, x, y);
  }

  // Both sides get the same secret, and it is not zero, whatever the non-zero
  // exponents.
  method KeyExchange(x: Word, y: Word) returns (left: Result, right: Result)
    requires x != 0 && y != 0
    ensures left == right && left.Ok? && left.value == Pow(G, x * y) % P && left.value != 0
  {
    var gx := Exchange(x);
    var gy := Exchange(y);
    PowerUnit(x);
    PowerUnit(y);
    left := Secret(gy.value, x);
    right := Secret(gx.value, y);
    SecretIs(x, y);
    SecretIs(y, x);
    assert x * y == y * x;
    PowerUnit(x * y);
  }
}
