/**
 JavaScript's 32-bit integer operators, and the strings of bits they act on. The operators reduce to
 the range from -2^31 to 2^31 - 1 after every step, as the language says; the lemmas tell which digits of
 an unbounded number survive that, and that numbers and bit strings of one length stand for each other.
 */
module JsBits {
  // ---------- JavaScript's 32-bit integer operators ----------

  function Pow2(n: nat): (p: nat)
    ensures p > 0
  {
    if n == 0 then 1 else 2 * Pow2(n - 1)
  }

  const WORD := 0x1_0000_0000

  function ToInt32(x: int): int {
    var m := x % WORD;
    if m >= 0x8000_0000 then m - WORD else m
  }

  function BitOr(a: nat, b: nat): nat {
    if a == 0 then b else if b == 0 then a
    else 2 * BitOr(a / 2, b / 2) + (if a % 2 == 1 || b % 2 == 1 then 1 else 0)
  }

  function BitAnd(a: nat, b: nat): nat {
    if a == 0 || b == 0 then 0
    else 2 * BitAnd(a / 2, b / 2) + (if a % 2 == 1 && b % 2 == 1 then 1 else 0)
  }

  function BitXor(a: nat, b: nat): nat {
    if a == 0 then b else if b == 0 then a
    else 2 * BitXor(a / 2, b / 2) + (if a % 2 != b % 2 then 1 else 0)
  }

  /** `a << n`, `a | b`, `a & b`, `a ^ b` and `a >> n` on 32-bit integers. */
  function Shl(a: int, n: nat): int
    decreases n
  {
    if n == 0 then ToInt32(a) else Shl(ToInt32(2 * a), n - 1)
  }

  function Or(a: int, b: int): int { ToInt32(BitOr(a % WORD, b % WORD)) }

  function And(a: int, b: int): int { ToInt32(BitAnd(a % WORD, b % WORD)) }

  function XorInt(a: int, b: int): int { ToInt32(BitXor(a % WORD, b % WORD)) }

  function Sar(a: int, n: nat): int
    decreases n
  {
    if n == 0 then a else Sar(a / 2, n - 1)
  }

  // ---------- strings of bits ----------

  /** The n low bits of v, most significant first. */
  function Bits(v: nat, n: nat): (b: seq<bool>)
    ensures |b| == n
  {
    if n == 0 then [] else Bits(v / 2, n - 1) + [v % 2 == 1]
  }

  function Value(b: seq<bool>): nat {
    if b == [] then 0 else 2 * Value(b[..|b| - 1]) + (if b[|b| - 1] then 1 else 0)
  }

  function Zeros(n: nat): seq<bool> {
    seq(n, _ => false)
  }

  function Xor(a: seq<bool>, b: seq<bool>): (r: seq<bool>)
    requires |a| == |b|
    ensures |r| == |a| && forall i :: 0 <= i < |a| ==> r[i] == (a[i] != b[i])
  {
    seq(|a|, i requires 0 <= i < |a| => a[i] != b[i])
  }

  // ---------- arithmetic of powers of two ----------

  lemma {:induction false} Pow2Add(a: nat, b: nat)
    ensures Pow2(a + b) == Pow2(a) * Pow2(b)
  {
    if a > 0 {
      Pow2Add(a - 1, b);
      assert Pow2(a + b) == 2 * Pow2(a - 1 + b);
      MulAssoc(2, Pow2(a - 1), Pow2(b));
    }
  }

  lemma MulAssoc(a: int, b: int, c: int)
    ensures (a * b) * c == a * (b * c)
  {
  }

  lemma WordIsPow2()
    ensures Pow2(32) == WORD
  {
    assert Pow2(8) == 256;
    Pow2Add(8, 8);
    Pow2Add(16, 16);
  }

  lemma DivMod(q: int, m: int, r: int)
    requires m > 0 && 0 <= r < m
    ensures (q * m + r) / m == q && (q * m + r) % m == r
  {
    var x := q * m + r;
    var d, e := x / m, x % m;
    assert x == d * m + e;
    assert d < q ==> d * m <= (q - 1) * m;
    assert d > q ==> d * m >= (q + 1) * m;
  }

  lemma ModDouble(a: nat, p: nat)
    requires p > 0
    ensures a % (2 * p) == 2 * (a / 2 % p) + a % 2
  {
    var q, r := a / 2 / p, a / 2 % p;
    assert a / 2 == q * p + r;
    assert 2 * (q * p) == q * (2 * p);
    DivMod(q, 2 * p, 2 * r + a % 2);
  }

  lemma {:induction false} OrDisjoint(a: nat, n: nat, v: nat)
    requires v < Pow2(n)
    ensures BitOr(a * Pow2(n), v) == a * Pow2(n) + v
  {
    if n > 0 && a > 0 && v > 0 {
      var h := a * Pow2(n - 1);
      assert a * Pow2(n) == 2 * h;
      OrDisjoint(a, n - 1, v / 2);
    } else if n == 0 {
    }
  }

  lemma {:induction false} AndMask(a: nat, n: nat)
    ensures BitAnd(a, Pow2(n) - 1) == a % Pow2(n)
  {
    var m := Pow2(n);
    if n == 0 {
      assert a % 1 == 0;
    } else if a == 0 {
      DivMod(0, m, 0);
    } else {
      var p := Pow2(n - 1);
      AndMask(a / 2, n - 1);
      ModDouble(a, p);
      assert m - 1 == 2 * (p - 1) + 1;
    }
  }

  // ---------- the wrapping accumulator keeps the bits that matter ----------

  /** Adding multiples of m does not change a remainder by m. */
  lemma ModShift(x: int, j: int, m: int)
    requires m > 0
    ensures (x + j * m) % m == x % m && (x + j * m) / m == x / m + j
  {
    var q, r := x / m, x % m;
    assert x + j * m == (q + j) * m + r by {
      assert (q + j) * m == q * m + j * m;
    }
    DivMod(q + j, m, r);
  }

  lemma ToInt32IsCongruent(x: int) returns (j: int)
    ensures ToInt32(x) == x + j * WORD
  {
    j := -(x / WORD) - (if x % WORD >= 0x8000_0000 then 1 else 0);
  }

  lemma ModOfMod(x: int, a: int, b: int)
    requires a > 0 && b > 0
    ensures a * b > 0 && (x % (a * b)) % a == x % a
  {
    assert a * b > 0;
    var m := a * b;
    var q, r := x / m, x % m;
    assert x == r + q * m;
    assert q * m == (q * b) * a by {
      MulAssoc(q, b, a);
    }
    ModShift(r, q * b, a);
  }

  lemma ModScale(x: int, a: int, p: int)
    requires a > 0 && p > 0
    ensures a * p > 0 && (x * p) % (a * p) == (x % a) * p
  {
    assert a * p > 0;
    var q, r := x / a, x % a;
    assert x * p == q * (a * p) + r * p;
    assert r * p <= (a - 1) * p;
    DivMod(q, a * p, r * p);
  }

  lemma Rearrange(j: int, p: int, t: int, u: int)
    ensures j * (p * (t * u)) == (j * u * t) * p
  {
  }

  lemma DivThenMod(x: int, m: int, n: int, p: int, t: int)
    requires p > 0 && t > 0 && m == n * t
    ensures (x + m * p) / p % t == x / p % t
  {
    ModShift(x, m, p);
    ModShift(x / p, n, t);
  }

  lemma Pow2Le(a: nat, b: nat)
    requires a <= b
    ensures Pow2(a) <= Pow2(b)
  {
    Pow2Add(a, b - a);
    assert Pow2(a) * Pow2(b - a) >= Pow2(a);
  }

  lemma HalfWord()
    ensures Pow2(31) == 0x8000_0000
  {
    WordIsPow2();
    assert Pow2(32) == 2 * Pow2(31);
  }

  /** Masking with 2^to - 1 keeps the remainder by 2^to. */
  lemma AndLow(x: int, to: nat)
    requires to <= 31
    ensures And(x, Pow2(to) - 1) == x % Pow2(to)
  {
    var t := Pow2(to);
    WordIsPow2();
    HalfWord();
    Pow2Le(to, 31);
    Pow2Add(to, 32 - to);
    ModOfMod(x, t, Pow2(32 - to));
    var w := x % WORD;
    assert w % t == x % t;
    AndMask(w, to);
    Small(t - 1);
    Small(x % t);
  }

  lemma Small(x: nat)
    requires x < 0x8000_0000
    ensures x % WORD == x && ToInt32(x) == x
  {
  }

  lemma WordSplits(k: nat, to: nat)
    requires k + to <= 32
    ensures Pow2(k) * (Pow2(to) * Pow2(32 - k - to)) == WORD
  {
    WordIsPow2();
    Pow2Add(k, 32 - k);
    Pow2Add(to, 32 - k - to);
  }

  lemma SameDigit(exact: int, acc: int, j: int, p: int, t: int, u: int)
    requires p > 0 && t > 0 && acc == exact + j * (p * (t * u))
    ensures acc / p % t == exact / p % t
  {
    Rearrange(j, p, t, u);
    DivThenMod(exact, j * u * t, j * u, p, t);
  }

  lemma {:induction false} SarDivides(a: int, n: nat)
    ensures Sar(a, n) == a / Pow2(n)
    decreases n
  {
    if n == 0 {
      assert a / 1 == a;
    } else {
      SarDivides(a / 2, n - 1);
      DivDouble(a, Pow2(n - 1));
    }
  }

  lemma DivDouble(a: int, p: int)
    requires p > 0
    ensures a / (2 * p) == a / 2 / p
  {
    var q, r := a / 2 / p, a / 2 % p;
    assert a / 2 == q * p + r;
    assert 2 * (q * p) == q * (2 * p);
    DivMod(q, 2 * p, 2 * r + a % 2);
  }

  lemma DigitAt(hi: nat, t: nat, d: nat, p: nat, lo: nat)
    requires d < t && lo < p
    ensures ((hi * t + d) * p + lo) / p % t == d
  {
    DivMod(hi * t + d, p, lo);
    DivMod(hi, t, d);
  }

  /** Reading `to` bits above position k of the wrapped accumulator reads them of the exact one. */
  lemma DigitOfWrapped(hi: nat, d: nat, lo: nat, k: nat, to: nat)
    requires k + to <= 32 && to <= 31 && d < Pow2(to) && lo < Pow2(k)
    ensures And(Sar(ToInt32((hi * Pow2(to) + d) * Pow2(k) + lo), k), Pow2(to) - 1) == d
  {
    var exact := (hi * Pow2(to) + d) * Pow2(k) + lo;
    var j := ToInt32IsCongruent(exact);
    WordSplits(k, to);
    var acc, p, t := ToInt32(exact), Pow2(k), Pow2(to);
    SameDigit(exact, acc, j, p, t, Pow2(32 - k - to));
    DigitAt(hi, t, d, p, lo);
    SarDivides(acc, k);
    AndLow(Sar(acc, k), to);
  }

  lemma CongruentToInt32(x: int, y: int, j: int)
    requires x == y + j * WORD
    ensures ToInt32(x) == ToInt32(y) && x % WORD == y % WORD
  {
    ModShift(y, j, WORD);
  }

  lemma {:induction false} ShlWrapped(exact: int, n: nat)
    ensures Shl(ToInt32(exact), n) == ToInt32(exact * Pow2(n))
    ensures Shl(ToInt32(exact), n) % WORD == exact * Pow2(n) % WORD
    decreases n
  {
    var j := ToInt32IsCongruent(exact);
    if n == 0 {
      CongruentToInt32(ToInt32(exact), exact, j);
      assert exact * 1 == exact;
    } else {
      CongruentToInt32(2 * ToInt32(exact), 2 * exact, 2 * j);
      ShlWrapped(2 * exact, n - 1);
      MulAssoc(exact, 2, Pow2(n - 1));
    }
  }

  lemma OrWrapped(s: int, m: nat, v: nat)
    requires s % WORD == m && v < WORD && BitOr(m, v) == m + v
    ensures Or(s, v) == ToInt32(m + v)
  {
    var w := v % WORD;
    assert w == v;
    assert BitOr(s % WORD, w) == m + v;
  }

  lemma SplitHigh(exact: nat, a: int, p: int)
    requires a > 0
    ensures exact * p == (exact % a) * p + exact / a * (a * p)
  {
    var q, h := exact / a, exact % a;
    assert (q * a + h) * p == h * p + q * (a * p);
  }

  /** Shifting in a digit on the wrapped accumulator is shifting it in exactly, then wrapping. */
  lemma ShiftInWrapped(exact: nat, from: nat, v: nat)
    requires from <= 32 && v < Pow2(from)
    ensures Or(Shl(ToInt32(exact), from), v) == ToInt32(exact * Pow2(from) + v)
  {
    var a, p := Pow2(32 - from), Pow2(from);
    WordIsPow2();
    Pow2Le(from, 32);
    Pow2Add(32 - from, from);
    ShlWrapped(exact, from);
    ModScale(exact, a, p);
    OrDisjoint(exact % a, from, v);
    OrWrapped(Shl(ToInt32(exact), from), (exact % a) * p, v);
    SplitHigh(exact, a, p);
    CongruentToInt32(exact * p + v, (exact % a) * p + v, exact / a);
  }

  // ---------- bit strings and the numbers they spell ----------

  lemma {:induction false} ValueBound(b: seq<bool>)
    ensures Value(b) < Pow2(|b|)
  {
    if b != [] {
      ValueBound(b[..|b| - 1]);
    }
  }

  lemma {:induction false} ValueConcat(x: seq<bool>, y: seq<bool>)
    ensures Value(x + y) == Value(x) * Pow2(|y|) + Value(y)
  {
    if y == [] {
      assert x + y == x;
    } else {
      var z, last := y[..|y| - 1], y[|y| - 1];
      var xy := x + y;
      assert xy[..|xy| - 1] == x + z && xy[|xy| - 1] == last;
      ValueConcat(x, z);
      Doubled(Value(x), Pow2(|z|));
    }
  }

  lemma Doubled(a: int, p: int)
    ensures a * (2 * p) == 2 * (a * p)
  {
  }

  lemma {:induction false} BitsOfValue(b: seq<bool>)
    ensures Bits(Value(b), |b|) == b
  {
    if b != [] {
      BitsOfValue(b[..|b| - 1]);
      assert b == b[..|b| - 1] + [b[|b| - 1]];
    }
  }

  lemma {:induction false} ValueOfBits(v: nat, n: nat)
    requires v < Pow2(n)
    ensures Value(Bits(v, n)) == v
  {
    if n > 0 {
      ValueOfBits(v / 2, n - 1);
      assert Bits(v, n)[..n - 1] == Bits(v / 2, n - 1);
    }
  }

  lemma {:induction false} ValueOfZeros(n: nat)
    ensures Value(Zeros(n)) == 0
  {
    if n > 0 {
      assert Zeros(n)[..n - 1] == Zeros(n - 1);
      ValueOfZeros(n - 1);
    }
  }

  /** `^` on numbers is exclusive or on their bits. */
  lemma {:induction false} XorOfValues(a: seq<bool>, b: seq<bool>)
    requires |a| == |b|
    ensures BitXor(Value(a), Value(b)) == Value(Xor(a, b))
  {
    if a != [] {
      var n := |a| - 1;
      XorOfValues(a[..n], b[..n]);
      assert Xor(a, b)[..n] == Xor(a[..n], b[..n]);
    }
  }
}
