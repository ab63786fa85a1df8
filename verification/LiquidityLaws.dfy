/**
 Laws of the pool: what every request keeps, what shares are worth, and what a run of swaps or an
 add followed by a remove can never win.
 */
module LiquidityLaws {
  import opened JsText
  import opened OrderedMap
  import opened WebLedger
  import opened LiquidityPool

  // ---------- products and quotients ----------

  lemma Quotient(n: int, d: int)
    requires d > 0
    ensures n / d * d <= n < n / d * d + d
    ensures n >= 0 ==> n / d >= 0
  {
  }

  lemma MulLe(a: int, b: int, x: int, y: int)
    requires 0 <= a <= b && 0 <= x <= y
    ensures 0 <= a * x <= b * y
  {
    assert a * x <= b * x <= b * y;
  }

  lemma MulCancel(a: int, b: int, d: int)
    requires d > 0 && a * d <= b * d
    ensures a <= b
  {
    assert a > b ==> (a - b) * d > 0;
  }

  lemma MulPos(a: int, d: int)
    requires d > 0 && a * d > 0
    ensures a > 0
  {
    assert a <= 0 ==> a * d <= 0;
  }

  lemma Rearrange(a: int, b: int, t: int)
    ensures (a * t) * (b * t) == (a * b) * (t * t)
  {
    assert (a * t) * (b * t) == a * (t * (b * t));
    assert t * (b * t) == b * (t * t);
    assert a * (b * (t * t)) == (a * b) * (t * t);
  }

  /** Value per share: k2 over t2 squared is at least k1 over t1 squared. */
  predicate WorthAtLeast(k2: int, t2: int, k1: int, t1: int) {
    k2 * (t1 * t1) >= k1 * (t2 * t2)
  }

  /** When each reserve per share does not fall, neither does the value per share. */
  lemma ReservesPerShare(a1: int, b1: int, t1: int, a2: int, b2: int, t2: int)
    requires a1 >= 0 && b1 >= 0 && t1 >= 0 && t2 >= 0
    requires a2 * t1 >= a1 * t2 && b2 * t1 >= b1 * t2
    ensures WorthAtLeast(a2 * b2, t2, a1 * b1, t1)
  {
    assert a1 * t2 >= 0 && b1 * t2 >= 0;
    MulLe(a1 * t2, a2 * t1, b1 * t2, b2 * t1);
    Rearrange(a1, b1, t2);
    Rearrange(a2, b2, t1);
  }

  /** A pool worth at least one per share stays so. */
  lemma WorthKeepsBound(k2: int, t2: int, k1: int, t1: int)
    requires t1 > 0 && k1 >= t1 * t1 && WorthAtLeast(k2, t2, k1, t1)
    ensures k2 >= t2 * t2
  {
    var x, y := t1 * t1, t2 * t2;
    assert x > 0 && y >= 0;
    MulLe(x, k1, y, y);
    assert x * y == y * x;
    MulCancel(y, k2, x);
  }

  lemma WorthTransitive(k3: int, t3: int, k2: int, t2: int, k1: int, t1: int)
    requires t2 > 0 && WorthAtLeast(k3, t3, k2, t2) && WorthAtLeast(k2, t2, k1, t1)
    ensures WorthAtLeast(k3, t3, k1, t1)
  {
    var x, y, z := t1 * t1, t2 * t2, t3 * t3;
    assert x >= 0 && y > 0 && z >= 0;
    assert (k3 * y) * x >= (k2 * z) * x by { MulRight(k2 * z, k3 * y, x); }
    assert (k2 * x) * z >= (k1 * y) * z by { MulRight(k1 * y, k2 * x, z); }
    assert (k3 * x) * y == (k3 * y) * x && (k2 * z) * x == (k2 * x) * z && (k1 * y) * z == (k1 * z) * y;
    MulCancel(k1 * z, k3 * x, y);
  }

  lemma MulRight(a: int, b: int, x: int)
    requires a <= b && x >= 0
    ensures a * x <= b * x
  {
  }

  // ---------- share arithmetic ----------

  /** Minted shares are in proportion to the smaller side of the deposit at most. */
  lemma MintBounds(p: Pool, a: nat, b: nat)
    requires p.totalShares > 0 && p.reserveA > 0 && p.reserveB > 0
    ensures MintedShares(p, a, b) * p.reserveA <= a * p.totalShares
    ensures MintedShares(p, a, b) * p.reserveB <= b * p.totalShares
  {
    var t, s := p.totalShares, MintedShares(p, a, b);
    var x, y := a * t, b * t;
    Quotient(x, p.reserveA);
    Quotient(y, p.reserveB);
    MulRight(s, x / p.reserveA, p.reserveA);
    MulRight(s, y / p.reserveB, p.reserveB);
  }

  lemma MintPerShare(r: int, a: int, t: int, s: int)
    requires s * r <= a * t
    ensures (r + a) * t >= r * (t + s)
  {
    assert (r + a) * t == r * t + a * t;
    assert r * (t + s) == r * t + s * r;
  }

  lemma BurnPerShare(r: int, t: int, s: int, out: int)
    requires t > 0 && r >= 0 && 0 < s <= t && out == r * s / t
    ensures 0 <= out <= r && (r - out) * t >= r * (t - s)
    ensures s == t ==> out == r
    ensures s < t && r > 0 ==> out < r
  {
    var n := r * s;
    assert n >= 0;
    Quotient(n, t);
    Distribute(r, out, t);
    Distribute(t, s, r);
    var rest := (t - s) * r;
    assert rest >= 0;
    assert (r - out) * t >= rest;
    BurnExtremes(r, t, s, out, rest);
  }

  lemma Distribute(a: int, b: int, c: int)
    ensures (a - b) * c == a * c - b * c
    ensures (a - b) * c == c * (a - b)
  {
  }

  lemma BurnExtremes(r: int, t: int, s: int, out: int, rest: int)
    requires t > 0 && r >= 0 && 0 < s <= t && rest == (t - s) * r && (r - out) * t >= rest >= 0
    requires out * t > r * s - t
    ensures out <= r
    ensures s == t ==> out == r
    ensures s < t && r > 0 ==> out < r
  {
    assert 0 * t <= (r - out) * t;
    MulCancel(0, r - out, t);
    if s == t {
      assert (r - out) * t == r * t - out * t;
      assert r - out >= 1 ==> (r - out) * t >= t;
    } else if r > 0 {
      MulPositive(t - s, r);
      MulPos(r - out, t);
    }
  }

  lemma MulPositive(a: int, b: int)
    requires a > 0 && b > 0
    ensures a * b > 0
  {
  }

  /** A swap leaves the other reserve positive and makes the product strictly larger. */
  lemma SwapGrows(reserveIn: nat, reserveOut: nat, amount: nat, out: int)
    requires reserveIn > 0 && reserveOut > 0 && amount > 0 && out == AmountOut(reserveIn, reserveOut, amount)
    ensures 0 <= out < reserveOut
    ensures (reserveIn + amount) * (reserveOut - out) > reserveIn * reserveOut
  {
    var x := 997 * amount;
    var d, n := 1000 * reserveIn + x, reserveOut * x;
    assert n >= 0;
    Quotient(n, d);
    var left := reserveOut - out;
    assert left * d == reserveOut * d - out * d;
    assert reserveOut * d == 1000 * (reserveIn * reserveOut) + n;
    assert reserveIn * reserveOut > 0;
    assert left * d >= 1000 * (reserveIn * reserveOut);
    MulPos(left, d);
    var big := 1000 * (reserveIn + amount);
    assert big == d + 3 * amount;
    assert left * big == left * d + 3 * (left * amount);
    assert left * amount > 0;
    assert left * big == 1000 * ((reserveIn + amount) * left);
  }

  // ---------- how much exactly ----------

  lemma FloorIsLargest(n: int, d: int, m: int)
    requires d > 0
    ensures m <= n / d <==> m * d <= n
  {
    Quotient(n, d);
    var q := n / d;
    if m <= q {
      MulRight(m, q, d);
    } else {
      MulRight(q + 1, m, d);
    }
  }

  /** A swap pays the most that keeps the product, counting 997 per mille of what comes in. */
  lemma PayoutIsLargest(reserveIn: nat, reserveOut: nat, amount: nat, m: int)
    requires amount > 0
    ensures m <= AmountOut(reserveIn, reserveOut, amount)
      <==> (1000 * reserveIn + 997 * amount) * (reserveOut - m) >= 1000 * (reserveIn * reserveOut)
  {
    var x := 997 * amount;
    var d, n := 1000 * reserveIn + x, reserveOut * x;
    FloorIsLargest(n, d, m);
    assert d * (reserveOut - m) == d * reserveOut - m * d;
    assert d * reserveOut == 1000 * (reserveIn * reserveOut) + n;
  }

  /** Later deposits mint the most shares in proportion to both reserves. */
  lemma MintIsLargest(p: Pool, a: nat, b: nat, m: int)
    requires p.totalShares > 0 && p.reserveA > 0 && p.reserveB > 0
    ensures m <= MintedShares(p, a, b) <==> m * p.reserveA <= a * p.totalShares && m * p.reserveB <= b * p.totalShares
  {
    FloorIsLargest(a * p.totalShares, p.reserveA, m);
    FloorIsLargest(b * p.totalShares, p.reserveB, m);
  }

  /** A withdrawal pays the most in proportion to the shares, of each reserve. */
  lemma WithdrawalIsLargest(u: Units, f: Files, did: JsString, shares: int, all: bool, m: int)
    requires f.pool.Some? && f.pool.value.totalShares > 0 && Remove(u, f, did, shares, all).1.Removed?
    ensures var p, r := f.pool.value, Remove(u, f, did, shares, all).1;
      && (m <= r.outA <==> m * p.totalShares <= p.reserveA * r.removed)
      && (m <= r.outB <==> m * p.totalShares <= p.reserveB * r.removed)
      && r.removed == if all then SharesOf(p, did) else shares
  {
    var p, r := f.pool.value, Remove(u, f, did, shares, all).1;
    FloorIsLargest(p.reserveA * r.removed, p.totalShares, m);
    FloorIsLargest(p.reserveB * r.removed, p.totalShares, m);
  }

  // ---------- share holders ----------

  ghost predicate Positive(m: Pairs<JsString, int>) {
    forall i :: 0 <= i < |m| ==> m[i].1 > 0
  }

  lemma {:induction false} ShareAtMostSum(m: Pairs<JsString, int>, did: JsString)
    requires Positive(m)
    ensures 0 <= Get(m, did).GetOr(0) <= Sum(m)
    ensures m != [] ==> Sum(m) > 0
  {
    if m != [] {
      ShareAtMostSum(m[1..], did);
    }
  }

  lemma {:induction false} PutPositive(m: Pairs<JsString, int>, did: JsString, v: int)
    requires Positive(m) && v > 0
    ensures Positive(Put(m, did, v))
  {
    if m != [] && m[0].0 != did {
      PutPositive(m[1..], did, v);
    }
  }

  lemma {:induction false} DropPut(m: Pairs<JsString, int>, did: JsString, v: int)
    requires Has(m, did)
    ensures Drop(Put(m, did, v), did) == Drop(m, did)
  {
    if m[0].0 != did {
      DropPut(m[1..], did, v);
    }
  }

  lemma {:induction false} DropPositive(m: Pairs<JsString, int>, did: JsString)
    requires Positive(m)
    ensures Positive(Drop(m, did))
  {
    if m != [] && m[0].0 != did {
      DropPositive(m[1..], did);
    }
  }

  ghost predicate HoldersOk(p: Pool) {
    Distinct(p.lpShares) && Positive(p.lpShares) && Sum(p.lpShares) == p.totalShares
  }

  lemma MintHolders(p: Pool, did: JsString, shares: int)
    requires HoldersOk(p) && shares > 0
    ensures HoldersOk(Minted(p, did, shares))
  {
    ShareAtMostSum(p.lpShares, did);
    PutHolder(p.lpShares, did, SharesOf(p, did) + shares);
  }

  lemma BurnHolders(p: Pool, did: JsString, shares: int)
    requires HoldersOk(p) && 0 < shares <= SharesOf(p, did)
    ensures HoldersOk(Burned(p, did, shares)) && shares <= p.totalShares
  {
    var left := SharesOf(p, did) - shares;
    ShareAtMostSum(p.lpShares, did);
    if left <= 0 {
      DropHolder(p.lpShares, did, left);
    } else {
      PutHolder(p.lpShares, did, left);
    }
  }

  lemma PutHolder(m: Pairs<JsString, int>, did: JsString, v: int)
    requires Distinct(m) && Positive(m) && v > 0
    ensures var r := Put(m, did, v); Distinct(r) && Positive(r) && Sum(r) == Sum(m) - Get(m, did).GetOr(0) + v
  {
    PutKeys(m, did, v);
    PutPositive(m, did, v);
    SumPut(m, did, v);
  }

  lemma DropHolder(m: Pairs<JsString, int>, did: JsString, v: int)
    requires Distinct(m) && Positive(m) && Get(m, did).Some?
    ensures var r := Drop(Put(m, did, v), did); Distinct(r) && Positive(r) && Sum(r) == Sum(m) - Get(m, did).value
  {
    HasIsMember(m, did);
    DropPut(m, did, v);
    DropKeys(m, did);
    SumDrop(m, did);
    DropPositive(m, did);
  }

  // ---------- balances ----------

  /** What one balance change does to a currency, of the same agent or another. */
  lemma ShiftReads(e: Entries, did: JsString, x: int, cur: JsString, v: JsString, c: JsString)
    requires cur != NO_CURRENCY && c != NO_CURRENCY && c != SATOSHI
    ensures BalanceOf(Shift(e, did, x, cur), v, c) == BalanceOf(e, v, c) + (if v == did && c == cur then x else 0)
    ensures Total(Shift(e, did, x, cur), c) == Total(e, c) + (if c == cur then x else 0)
    ensures Distinct(e) ==> Distinct(Shift(e, did, x, cur))
  {
    var n := BalanceOf(e, did, cur) + x;
    NamedReadOverNamedWrite(e, did, n, cur, v, c);
    TotalAfterWrite(e, did, n, cur, c);
    WriteDistinct(e, did, n, cur);
  }

  /** Two balance changes of one agent: every balance and the sum of any named currency. */
  lemma TwoShifts(e: Entries, did: JsString, x: int, a: JsString, y: int, b: JsString, v: JsString, c: JsString)
    requires a != NO_CURRENCY && b != NO_CURRENCY && c != NO_CURRENCY && c != SATOSHI
    ensures var f := Shift(Shift(e, did, x, a), did, y, b);
      && BalanceOf(f, v, c) == BalanceOf(e, v, c) + (if v == did && c == a then x else 0) + (if v == did && c == b then y else 0)
      && Total(f, c) == Total(e, c) + (if c == a then x else 0) + (if c == b then y else 0)
      && (Distinct(e) ==> Distinct(f))
  {
    ShiftReads(e, did, x, a, v, c);
    ShiftReads(Shift(e, did, x, a), did, y, b, v, c);
  }

  lemma WriteDistinct(e: Entries, did: JsString, n: int, c: JsString)
    requires c != NO_CURRENCY
    ensures Distinct(e) ==> Distinct(WithBalance(e, did, n, c))
  {
    PutKeys(e, did, Multi(Put(Listed(Get(e, did)), c, StringOf(n))));
  }

  // ---------- what every request keeps ----------

  lemma NonNegativeAfter(e: Entries, did: JsString, x: int, a: JsString, y: int, b: JsString, c: JsString)
    requires a != NO_CURRENCY && b != NO_CURRENCY && c != NO_CURRENCY && c != SATOSHI && NonNegative(e, c)
    requires BalanceOf(e, did, c) + (if c == a then x else 0) + (if c == b then y else 0) >= 0
    ensures NonNegative(Shift(Shift(e, did, x, a), did, y, b), c)
  {
    forall v ensures BalanceOf(Shift(Shift(e, did, x, a), did, y, b), v, c) >= 0 {
      TwoShifts(e, did, x, a, y, b, v, c);
      assert BalanceOf(e, v, c) >= 0;
    }
  }

  function Reserve(u: Units, pool: Option<Pool>, c: JsString): int {
    var p := pool.GetOr(EMPTY_POOL);
    if c == u.a then p.reserveA else if c == u.b then p.reserveB else 0
  }

  /** The ledger's part of a request: agents' balances move by x and y, within what they have. */
  lemma LedgerKept(u: Units, e: Entries, did: JsString, x: int, y: int, c: JsString)
    requires UnitsOk(u) && LedgerOk(u, e)
    requires BalanceOf(e, did, u.a) + x >= 0 && BalanceOf(e, did, u.b) + y >= 0
    requires c != NO_CURRENCY && c != SATOSHI
    ensures var f := Shift(Shift(e, did, x, u.a), did, y, u.b);
      && LedgerOk(u, f)
      && Total(f, c) == Total(e, c) + (if c == u.a then x else if c == u.b then y else 0)
  {
    TwoShifts(e, did, x, u.a, y, u.b, did, c);
    NonNegativeAfter(e, did, x, u.a, y, u.b, u.a);
    NonNegativeAfter(e, did, x, u.a, y, u.b, u.b);
  }

  lemma LedgerKeptSwapped(u: Units, e: Entries, did: JsString, x: int, y: int, c: JsString)
    requires UnitsOk(u) && LedgerOk(u, e)
    requires BalanceOf(e, did, u.a) + x >= 0 && BalanceOf(e, did, u.b) + y >= 0
    requires c != NO_CURRENCY && c != SATOSHI
    ensures var f := Shift(Shift(e, did, y, u.b), did, x, u.a);
      && LedgerOk(u, f)
      && Total(f, c) == Total(e, c) + (if c == u.a then x else if c == u.b then y else 0)
  {
    TwoShifts(e, did, y, u.b, x, u.a, did, c);
    NonNegativeAfter(e, did, y, u.b, x, u.a, u.a);
    NonNegativeAfter(e, did, y, u.b, x, u.a, u.b);
  }

  lemma MintWorthLater(ra: nat, rb: nat, t: nat, a: int, b: int, s: int)
    requires t > 0 && a > 0 && b > 0 && s > 0 && ra * rb >= t * t && s * ra <= a * t && s * rb <= b * t
    ensures WorthAtLeast((ra + a) * (rb + b), t + s, ra * rb, t)
    ensures (ra + a) * (rb + b) >= (t + s) * (t + s)
  {
    MintPerShare(ra, a, t, s);
    MintPerShare(rb, b, t, s);
    ReservesPerShare(ra, rb, t, ra + a, rb + b, t + s);
    WorthKeepsBound((ra + a) * (rb + b), t + s, ra * rb, t);
  }

  lemma MintWorth(p: Pool, a: int, b: int, shares: int)
    requires PoolOk(p) && a > 0 && b > 0 && shares == MintedShares(p, a, b) && shares > 0
    ensures WorthAtLeast((p.reserveA + a) * (p.reserveB + b), p.totalShares + shares, p.k, p.totalShares)
    ensures (p.reserveA + a) * (p.reserveB + b) >= (p.totalShares + shares) * (p.totalShares + shares)
  {
    if p.totalShares > 0 {
      MintBounds(p, a, b);
      MintWorthLater(p.reserveA, p.reserveB, p.totalShares, a, b, shares);
    } else {
      assert p.reserveA == 0 && p.reserveB == 0 && p.k == 0 by {
        assert p.reserveA * p.reserveB == p.k;
      }
      MintWorthFirst(a, b, shares, a * b);
    }
  }

  lemma MintWorthFirst(a: int, b: int, s: int, n: int)
    requires a > 0 && b > 0 && n == a * b && n >= 0 && s == Isqrt(n)
    ensures WorthAtLeast((0 + a) * (0 + b), 0 + s, 0, 0)
    ensures (0 + a) * (0 + b) >= (0 + s) * (0 + s)
  {
    IsqrtIsRoot(n);
    assert n * (0 * 0) == 0;
  }

  lemma MintPoolOk(p: Pool, did: JsString, a: int, b: int, shares: int)
    requires PoolOk(p) && a > 0 && b > 0 && shares == MintedShares(p, a, b) && shares > 0
    ensures var q := Minted(WithReserves(p, p.reserveA + a, p.reserveB + b), did, shares);
      PoolOk(q) && WorthAtLeast(q.k, q.totalShares, p.k, p.totalShares)
  {
    MintWorth(p, a, b, shares);
    MintHolders(WithReserves(p, p.reserveA + a, p.reserveB + b), did, shares);
  }

  lemma SoundAfterDeposit(u: Units, e: Entries, p: Pool, did: JsString, a: int, b: int, shares: int)
    requires UnitsOk(u) && LedgerOk(u, e) && BalanceOf(e, did, u.a) >= a && BalanceOf(e, did, u.b) >= b
    requires PoolOk(Minted(WithReserves(p, p.reserveA + a, p.reserveB + b), did, shares))
    ensures Sound(u, Deposited(u, e, p, did, a, b, shares))
  {
    LedgerKept(u, e, did, -a, -b, u.a);
  }

  lemma DepositKept(u: Units, f: Files, did: JsString, a: int, b: int, shares: int)
    requires Sound(u, f) && a > 0 && b > 0
    requires BalanceOf(f.entries, did, u.a) >= a && BalanceOf(f.entries, did, u.b) >= b
    requires shares == MintedShares(f.pool.GetOr(EMPTY_POOL), a, b) && shares > 0
    ensures var g := Deposited(u, f.entries, f.pool.GetOr(EMPTY_POOL), did, a, b, shares);
      Sound(u, g) && WorthAtLeast(K(g), Shares(g), K(f), Shares(f))
  {
    var p := f.pool.GetOr(EMPTY_POOL);
    assert PoolOk(p);
    MintPoolOk(p, did, a, b, shares);
    SoundAfterDeposit(u, f.entries, p, did, a, b, shares);
    DepositPool(u, f.entries, p, did, a, b, shares);
  }

  lemma DepositPool(u: Units, e: Entries, p: Pool, did: JsString, a: int, b: int, shares: int)
    ensures var g, q := Deposited(u, e, p, did, a, b, shares), Minted(WithReserves(p, p.reserveA + a, p.reserveB + b), did, shares);
      K(g) == q.k && Shares(g) == q.totalShares
  {
  }

  function Shares(f: Files): int {
    f.pool.GetOr(EMPTY_POOL).totalShares
  }

  function K(f: Files): int {
    f.pool.GetOr(EMPTY_POOL).k
  }

  lemma BurnWorth(p: Pool, shares: int, outA: int, outB: int)
    requires PoolOk(p) && 0 < shares <= p.totalShares
    requires outA == p.reserveA * shares / p.totalShares && outB == p.reserveB * shares / p.totalShares
    ensures WorthAtLeast((p.reserveA - outA) * (p.reserveB - outB), p.totalShares - shares, p.k, p.totalShares)
    ensures (p.reserveA - outA) * (p.reserveB - outB) >= (p.totalShares - shares) * (p.totalShares - shares)
    ensures 0 <= outA <= p.reserveA && 0 <= outB <= p.reserveB
    ensures shares < p.totalShares ==> outA < p.reserveA && outB < p.reserveB
    ensures shares == p.totalShares ==> outA == p.reserveA && outB == p.reserveB
  {
    var ra, rb, t := p.reserveA, p.reserveB, p.totalShares;
    BurnPerShare(ra, t, shares, outA);
    BurnPerShare(rb, t, shares, outB);
    ReservesPerShare(ra, rb, t, ra - outA, rb - outB, t - shares);
    WorthKeepsBound((ra - outA) * (rb - outB), t - shares, p.k, t);
  }

  lemma BurnPoolOk(p: Pool, did: JsString, shares: int, outA: int, outB: int)
    requires PoolOk(p) && p.totalShares > 0 && 0 < shares <= SharesOf(p, did)
    requires outA == p.reserveA * shares / p.totalShares && outB == p.reserveB * shares / p.totalShares
    ensures 0 <= outA && 0 <= outB
    ensures PoolOk(Burned(WithReserves(p, p.reserveA - outA, p.reserveB - outB), did, shares))
  {
    BurnHolders(WithReserves(p, p.reserveA - outA, p.reserveB - outB), did, shares);
    BurnWorth(p, shares, outA, outB);
  }

  lemma WithdrawKept(u: Units, f: Files, did: JsString, shares: int, outA: int, outB: int)
    requires Sound(u, f) && f.pool.Some? && 0 < shares <= SharesOf(f.pool.value, did) && f.pool.value.totalShares > 0
    requires outA == f.pool.value.reserveA * shares / f.pool.value.totalShares
    requires outB == f.pool.value.reserveB * shares / f.pool.value.totalShares
    ensures Sound(u, Withdrawn(u, f.entries, f.pool.value, did, outA, outB, shares))
  {
    BurnPoolOk(f.pool.value, did, shares, outA, outB);
    SoundAfterWithdraw(u, f.entries, f.pool.value, did, shares, outA, outB);
  }

  lemma SoundAfterWithdraw(u: Units, e: Entries, p: Pool, did: JsString, shares: int, outA: int, outB: int)
    requires UnitsOk(u) && LedgerOk(u, e) && outA >= 0 && outB >= 0
    requires PoolOk(Burned(WithReserves(p, p.reserveA - outA, p.reserveB - outB), did, shares))
    ensures Sound(u, Withdrawn(u, e, p, did, outA, outB, shares))
  {
    assert BalanceOf(e, did, u.a) >= 0 && BalanceOf(e, did, u.b) >= 0;
    LedgerKept(u, e, did, outA, outB, u.a);
  }

  /** The pool after a swap that sells the first unit, or the second. */
  function PoolAfterSwap(p: Pool, sellsA: bool, amount: int, out: int): Pool {
    if sellsA then WithReserves(p, p.reserveA + amount, p.reserveB - out) else WithReserves(p, p.reserveA - out, p.reserveB + amount)
  }

  function Payout(p: Pool, sellsA: bool, amount: nat): int
    requires amount > 0 && p.reserveA >= 0 && p.reserveB >= 0
  {
    if sellsA then AmountOut(p.reserveA, p.reserveB, amount) else AmountOut(p.reserveB, p.reserveA, amount)
  }

  lemma SwapPoolOk(p: Pool, sellsA: bool, amount: int, out: int)
    requires PoolOk(p) && p.k != 0 && amount > 0 && out == Payout(p, sellsA, amount)
    ensures PoolOk(PoolAfterSwap(p, sellsA, amount, out))
    ensures PoolAfterSwap(p, sellsA, amount, out).k > p.k
  {
    assert p.reserveA > 0 && p.reserveB > 0;
    if sellsA {
      SwapGrows(p.reserveA, p.reserveB, amount, out);
    } else {
      SwapGrows(p.reserveB, p.reserveA, amount, out);
    }
  }

  lemma TradeKept(u: Units, f: Files, did: JsString, sell: JsString, amount: int, out: int)
    requires Sound(u, f) && f.pool.Some? && f.pool.value.k != 0 && (sell == u.a || sell == u.b)
    requires 0 < amount <= BalanceOf(f.entries, did, sell) && out == Payout(f.pool.value, sell == u.a, amount) && out > 0
    ensures Sound(u, Exchanged(u, f.entries, f.pool.value, did, sell, amount, out))
  {
    SwapPoolOk(f.pool.value, sell == u.a, amount, out);
    SoundAfterTrade(u, f.entries, f.pool.value, did, sell, amount, out);
  }

  lemma SoundAfterTrade(u: Units, e: Entries, p: Pool, did: JsString, sell: JsString, amount: int, out: int)
    requires UnitsOk(u) && LedgerOk(u, e) && (sell == u.a || sell == u.b) && BalanceOf(e, did, sell) >= amount && out > 0
    requires PoolOk(PoolAfterSwap(p, sell == u.a, amount, out))
    ensures Sound(u, Exchanged(u, e, p, did, sell, amount, out))
  {
    assert BalanceOf(e, did, u.a) >= 0 && BalanceOf(e, did, u.b) >= 0;
    if sell == u.a {
      LedgerKept(u, e, did, -amount, out, u.a);
    } else {
      LedgerKeptSwapped(u, e, did, out, -amount, u.a);
    }
  }

  /** Every request keeps the files sound. */
  lemma StepKeepsSound(u: Units, f: Files, did: JsString, action: Action)
    requires Sound(u, f)
    ensures Sound(u, Step(u, f, did, action).0)
  {
    match action
    case AddLiquidity(a, b) =>
      if Add(u, f, did, a, b).1.Added? {
        DepositKept(u, f, did, a, b, Add(u, f, did, a, b).1.newShares);
      }
    case RemoveLiquidity(shares, all) =>
      var r := Remove(u, f, did, shares, all).1;
      if r.Removed? {
        WithdrawKept(u, f, did, r.removed, r.outA, r.outB);
      }
    case Swap(sell, amount, minReceived) =>
      var r := Sell(u, f, did, sell, amount, minReceived).1;
      if r.Swapped? {
        TradeKept(u, f, did, sell, amount, r.amountOut);
      }
    case OtherAction =>
  }

  lemma DepositConserves(u: Units, e: Entries, p: Pool, did: JsString, a: int, b: int, shares: int, c: JsString)
    requires UnitsOk(u) && c != NO_CURRENCY && c != SATOSHI
    ensures var g := Deposited(u, e, p, did, a, b, shares);
      Total(g.entries, c) + Reserve(u, g.pool, c) == Total(e, c) + Reserve(u, Some(p), c)
  {
    TwoShifts(e, did, -a, u.a, -b, u.b, did, c);
  }

  lemma WithdrawConserves(u: Units, e: Entries, p: Pool, did: JsString, outA: int, outB: int, shares: int, c: JsString)
    requires UnitsOk(u) && c != NO_CURRENCY && c != SATOSHI
    ensures var g := Withdrawn(u, e, p, did, outA, outB, shares);
      Total(g.entries, c) + Reserve(u, g.pool, c) == Total(e, c) + Reserve(u, Some(p), c)
  {
    TwoShifts(e, did, outA, u.a, outB, u.b, did, c);
  }

  lemma TradeConserves(u: Units, e: Entries, p: Pool, did: JsString, sell: JsString, amount: int, out: int, c: JsString)
    requires UnitsOk(u) && c != NO_CURRENCY && c != SATOSHI && (sell == u.a || sell == u.b)
    ensures var g := Exchanged(u, e, p, did, sell, amount, out);
      Total(g.entries, c) + Reserve(u, g.pool, c) == Total(e, c) + Reserve(u, Some(p), c)
  {
    TwoShifts(e, did, -amount, sell, out, if sell == u.a then u.b else u.a, did, c);
  }

  /** Every request moves value between agents and reserves without creating or losing any. */
  lemma StepConserves(u: Units, f: Files, did: JsString, action: Action, c: JsString)
    requires Sound(u, f) && c != NO_CURRENCY && c != SATOSHI
    ensures var g := Step(u, f, did, action).0;
      Total(g.entries, c) + Reserve(u, g.pool, c) == Total(f.entries, c) + Reserve(u, f.pool, c)
  {
    var p := f.pool.GetOr(EMPTY_POOL);
    match Step(u, f, did, action).1
    case Added(shares) =>
      DepositConserves(u, f.entries, p, did, action.amountA, action.amountB, shares, c);
    case Removed(outA, outB, shares) =>
      WithdrawConserves(u, f.entries, p, did, outA, outB, shares, c);
    case Swapped(out) =>
      TradeConserves(u, f.entries, p, did, action.sell, action.amount, out, c);
    case Refused(code) =>
  }

  lemma AddKeepsWorth(u: Units, f: Files, did: JsString, a: int, b: int)
    requires Sound(u, f)
    ensures var g := Add(u, f, did, a, b).0; WorthAtLeast(K(g), Shares(g), K(f), Shares(f))
  {
    var r := Add(u, f, did, a, b).1;
    if r.Added? {
      DepositKept(u, f, did, a, b, r.newShares);
    }
  }

  lemma RemoveKeepsWorth(u: Units, f: Files, did: JsString, shares: int, all: bool)
    requires Sound(u, f)
    ensures var g := Remove(u, f, did, shares, all).0; WorthAtLeast(K(g), Shares(g), K(f), Shares(f))
  {
    var r := Remove(u, f, did, shares, all).1;
    if r.Removed? {
      ShareAtMostSum(f.pool.value.lpShares, did);
      BurnWorth(f.pool.value, r.removed, r.outA, r.outB);
    }
  }

  /** A swap that goes through makes the constant product strictly larger; shares stay. */
  lemma SwapGrowsK(u: Units, f: Files, did: JsString, sell: JsString, amount: int, minReceived: int)
    requires Sound(u, f)
    ensures var g := Sell(u, f, did, sell, amount, minReceived);
      Shares(g.0) == Shares(f) && if g.1.Swapped? then K(g.0) > K(f) else g.0 == f
  {
    var r := Sell(u, f, did, sell, amount, minReceived).1;
    if r.Swapped? {
      SwapPoolOk(f.pool.value, sell == u.a, amount, r.amountOut);
    }
  }

  /** No request lowers what a share is worth. */
  lemma StepKeepsWorth(u: Units, f: Files, did: JsString, action: Action)
    requires Sound(u, f)
    ensures var g := Step(u, f, did, action).0; WorthAtLeast(K(g), Shares(g), K(f), Shares(f))
  {
    match action
    case AddLiquidity(a, b) =>
      AddKeepsWorth(u, f, did, a, b);
    case RemoveLiquidity(shares, all) =>
      RemoveKeepsWorth(u, f, did, shares, all);
    case Swap(sell, amount, minReceived) =>
      SwapGrowsK(u, f, did, sell, amount, minReceived);
      MulRight(K(f), K(Sell(u, f, did, sell, amount, minReceived).0), Shares(f) * Shares(f));
    case OtherAction =>
  }

  // ---------- whole runs ----------

  type Requests = seq<(JsString, Action)>

  ghost function Run(u: Units, f: Files, requests: Requests): Files
    requires Sound(u, f)
    ensures Sound(u, Run(u, f, requests))
    decreases |requests|
  {
    if requests == [] then f
    else
      var last := requests[|requests| - 1];
      var before := Run(u, f, requests[..|requests| - 1]);
      StepKeepsSound(u, before, last.0, last.1);
      Step(u, before, last.0, last.1).0
  }

  /** From sound files, any run keeps every sum, k at least shares squared, and reserves positive exactly when shares are. */
  lemma {:induction false} RunConserves(u: Units, f: Files, requests: Requests, c: JsString)
    requires Sound(u, f) && c != NO_CURRENCY && c != SATOSHI
    ensures var g := Run(u, f, requests);
      && Total(g.entries, c) + Reserve(u, g.pool, c) == Total(f.entries, c) + Reserve(u, f.pool, c)
      && K(g) >= Shares(g) * Shares(g)
      && (g.pool.Some? ==> (Shares(g) > 0 <==> g.pool.value.reserveA > 0) && (Shares(g) > 0 <==> g.pool.value.reserveB > 0))
    decreases |requests|
  {
    if requests != [] {
      var n := |requests| - 1;
      RunConserves(u, f, requests[..n], c);
      StepConserves(u, Run(u, f, requests[..n]), requests[n].0, requests[n].1, c);
    }
  }

  /** Through any run in which the pool is never empty, the value per share does not fall. */
  lemma {:induction false} RunKeepsWorth(u: Units, f: Files, requests: Requests)
    requires Sound(u, f)
    requires forall i :: 0 <= i <= |requests| ==> Shares(Run(u, f, requests[..i])) > 0
    ensures WorthAtLeast(K(Run(u, f, requests)), Shares(Run(u, f, requests)), K(f), Shares(f))
    decreases |requests|
  {
    if requests != [] {
      var n := |requests| - 1;
      var before := requests[..n];
      forall i | 0 <= i <= n ensures Shares(Run(u, f, before[..i])) > 0 {
        assert before[..i] == requests[..i];
      }
      RunKeepsWorth(u, f, before);
      var m, g := Run(u, f, before), Run(u, f, requests);
      StepKeepsWorth(u, m, requests[n].0, requests[n].1);
      WorthTransitive(K(g), Shares(g), K(m), Shares(m), K(f), Shares(f));
    }
  }

  // ---------- no gain for nothing ----------

  ghost predicate SwapGoes(u: Units, f: Files, did: JsString, action: Action)
    requires Sound(u, f)
  {
    action.Swap? && Step(u, f, did, action).1.Swapped?
  }

  /** Every request in the run is a swap that goes through. */
  ghost predicate AllSwaps(u: Units, f: Files, requests: Requests)
    requires Sound(u, f)
    decreases |requests|
  {
    requests == [] ||
      var n := |requests| - 1;
      && AllSwaps(u, f, requests[..n])
      && SwapGoes(u, Run(u, f, requests[..n]), requests[n].0, requests[n].1)
  }

  lemma {:induction false} SwapsGrowK(u: Units, f: Files, requests: Requests)
    requires Sound(u, f) && requests != [] && AllSwaps(u, f, requests)
    ensures K(Run(u, f, requests)) > K(f)
    decreases |requests|
  {
    var n := |requests| - 1;
    var m := Run(u, f, requests[..n]);
    if n > 0 {
      SwapsGrowK(u, f, requests[..n]);
    }
    var (did, action) := requests[n];
    SwapGrowsK(u, m, did, action.sell, action.amount, action.minReceived);
  }

  lemma KIsProduct(u: Units, f: Files)
    requires Sound(u, f)
    ensures Reserve(u, f.pool, u.a) >= 0 && Reserve(u, f.pool, u.b) >= 0
    ensures K(f) == Reserve(u, f.pool, u.a) * Reserve(u, f.pool, u.b)
  {
  }

  lemma OneGrows(a1: int, b1: int, a2: int, b2: int)
    requires a2 >= 0 && b2 >= 0 && a2 * b2 > a1 * b1
    ensures a2 <= a1 ==> b2 > b1
    ensures b2 <= b1 ==> a2 > a1
  {
    if a2 <= a1 && b2 <= b1 {
      MulLe(a2, a1, b2, b1);
    }
  }

  /** A run of swaps that leaves one reserve no higher leaves the other strictly higher. */
  lemma SwapsNeverDrain(u: Units, f: Files, requests: Requests)
    requires Sound(u, f) && requests != [] && AllSwaps(u, f, requests)
    ensures var g := Run(u, f, requests);
      && (Reserve(u, g.pool, u.a) <= Reserve(u, f.pool, u.a) ==> Reserve(u, g.pool, u.b) > Reserve(u, f.pool, u.b))
      && (Reserve(u, g.pool, u.b) <= Reserve(u, f.pool, u.b) ==> Reserve(u, g.pool, u.a) > Reserve(u, f.pool, u.a))
  {
    SwapsGrowK(u, f, requests);
    var g := Run(u, f, requests);
    KIsProduct(u, f);
    KIsProduct(u, g);
    OneGrows(Reserve(u, f.pool, u.a), Reserve(u, f.pool, u.b), Reserve(u, g.pool, u.a), Reserve(u, g.pool, u.b));
  }

  lemma RoundTrip(r: int, a: int, t: int, s: int)
    requires t >= 0 && s > 0 && a > 0 && r >= 0 && s * r <= a * t && (t == 0 ==> r == 0)
    ensures 0 <= (r + a) * s / (t + s) <= a
  {
    var n, d := (r + a) * s, t + s;
    assert n == s * r + a * s;
    assert a * d == a * t + a * s;
    assert n >= 0;
    Quotient(n, d);
    MulCancel(n / d, a, d);
  }

  lemma MintThenBurn(p: Pool, did: JsString, a: int, b: int, s: int, q: Pool)
    requires PoolOk(p) && a > 0 && b > 0 && s == MintedShares(p, a, b) && s > 0
    requires q == Minted(WithReserves(p, p.reserveA + a, p.reserveB + b), did, s)
    ensures SharesOf(q, did) >= s && q.totalShares > 0
    ensures 0 <= q.reserveA * s / q.totalShares <= a
    ensures 0 <= q.reserveB * s / q.totalShares <= b
  {
    ShareAtMostSum(p.lpShares, did);
    GetPut(p.lpShares, did, SharesOf(p, did) + s, did);
    if p.totalShares > 0 {
      MintBounds(p, a, b);
    } else {
      assert p.reserveA == 0 && p.reserveB == 0;
    }
    RoundTrip(p.reserveA, a, p.totalShares, s);
    RoundTrip(p.reserveB, b, p.totalShares, s);
  }

  lemma AddGoes(u: Units, f: Files, did: JsString, a: int, b: int, s: int)
    requires Usable(f.pool) && Add(u, f, did, a, b).1 == Added(s)
    ensures var p := f.pool.GetOr(EMPTY_POOL);
      && a > 0 && b > 0 && s > 0 && s == MintedShares(p, a, b)
      && BalanceOf(f.entries, did, u.a) >= a && BalanceOf(f.entries, did, u.b) >= b
      && Add(u, f, did, a, b).0 == Deposited(u, f.entries, p, did, a, b, s)
  {
  }

  lemma RemoveGoes(u: Units, f: Files, did: JsString, n: int)
    requires Usable(f.pool) && f.pool.Some? && f.pool.value.totalShares > 0 && 0 < n <= SharesOf(f.pool.value, did)
    ensures var q := f.pool.value;
      Remove(u, f, did, n, false).1 == Removed(q.reserveA * n / q.totalShares, q.reserveB * n / q.totalShares, n)
  {
  }

  /** Adding liquidity and at once removing the minted shares returns at most the deposit in each unit. */
  lemma AddThenRemove(u: Units, f: Files, did: JsString, a: int, b: int)
    requires Sound(u, f) && Add(u, f, did, a, b).1.Added?
    ensures var g := Add(u, f, did, a, b);
      && Usable(g.0.pool)
      && var r := Remove(u, g.0, did, g.1.newShares, false).1;
         r.Removed? && r.removed == g.1.newShares && 0 <= r.outA <= a && 0 <= r.outB <= b
  {
    var p, s := f.pool.GetOr(EMPTY_POOL), Add(u, f, did, a, b).1.newShares;
    AddGoes(u, f, did, a, b, s);
    assert PoolOk(p);
    DepositKept(u, f, did, a, b, s);
    var q := Minted(WithReserves(p, p.reserveA + a, p.reserveB + b), did, s);
    MintThenBurn(p, did, a, b, s, q);
    RemoveGoes(u, Add(u, f, did, a, b).0, did, s);
  }
}
