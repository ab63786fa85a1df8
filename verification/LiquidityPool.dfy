/**
 The constant-product pool (src/handlers/pay.js): add liquidity, remove liquidity and swap, over the
 web ledger. Doubles are idealised as exact integers and reals.
 */
module LiquidityPool {
  import opened JsText
  import opened OrderedMap
  import opened WebLedger

  datatype Pool = Pool(reserveA: int, reserveB: int, k: int, totalShares: int, lpShares: Pairs<JsString, int>)

  /** The two units the configuration pairs. */
  datatype Units = Units(a: JsString, b: JsString)

  /** The two files a request reads and rewrites. */
  datatype Files = Files(entries: Entries, pool: Option<Pool>)

  /** A request body, its numbers already floored; an absent number is 0. */
  datatype Action =
    | AddLiquidity(amountA: int, amountB: int)
    | RemoveLiquidity(shares: int, all: bool)
    | Swap(sell: JsString, amount: int, minReceived: int)
    | OtherAction

  datatype Reply =
    | Added(newShares: int)
    | Removed(outA: int, outB: int, removed: int)
    | Swapped(amountOut: int)
    | Refused(code: int)

  const BAD_REQUEST := 400
  const PAYMENT_REQUIRED := 402

  // ---------- arithmetic of one request ----------

  /** `Math.floor(Math.sqrt(n))` */
  function Isqrt(n: nat): nat {
    if n == 0 then 0 else RootFrom(n, 2 * Isqrt(n / 4))
  }

  function RootFrom(n: nat, r: nat): nat {
    if (r + 1) * (r + 1) <= n then r + 1 else r
  }

  /** The root of n, rounded down. */
  predicate IsRoot(n: nat, r: nat) {
    r * r <= n < (r + 1) * (r + 1)
  }

  lemma {:induction false} IsqrtIsRoot(n: nat)
    ensures IsRoot(n, Isqrt(n))
  {
    if n > 0 {
      IsqrtIsRoot(n / 4);
      IsqrtStep(n, Isqrt(n / 4));
    }
  }

  lemma RootFromIsRoot(n: nat, r: nat)
    requires r * r <= n < (r + 2) * (r + 2)
    ensures IsRoot(n, RootFrom(n, r))
  {
  }

  lemma IsqrtStep(n: nat, h: nat)
    requires IsRoot(n / 4, h)
    ensures IsRoot(n, RootFrom(n, 2 * h))
  {
    assert (2 * h) * (2 * h) == 4 * (h * h);
    assert (2 * h + 2) * (2 * h + 2) == 4 * ((h + 1) * (h + 1));
    RootFromIsRoot(n, 2 * h);
  }

  function Min(a: int, b: int): int {
    if a < b then a else b
  }

  /** Shares minted for a deposit, rounded down. */
  function MintedShares(p: Pool, amountA: nat, amountB: nat): int
    requires p.totalShares == 0 || (p.reserveA > 0 && p.reserveB > 0)
  {
    if p.totalShares == 0 then Isqrt(amountA * amountB)
    else Min(amountA * p.totalShares / p.reserveA, amountB * p.totalShares / p.reserveB)
  }

  /** What a swap pays out: the constant-product rule with 3 per mille kept, rounded down. */
  function AmountOut(reserveIn: nat, reserveOut: nat, amount: nat): int
    requires amount > 0
  {
    reserveOut * (997 * amount) / (1000 * reserveIn + 997 * amount)
  }

  const EMPTY_POOL := Pool(0, 0, 0, 0, [])

  function WithReserves(p: Pool, a: int, b: int): Pool {
    p.(reserveA := a, reserveB := b, k := a * b)
  }

  function SharesOf(p: Pool, did: JsString): int {
    Get(p.lpShares, did).GetOr(0)
  }

  function Minted(p: Pool, did: JsString, shares: int): Pool {
    p.(totalShares := p.totalShares + shares, lpShares := Put(p.lpShares, did, SharesOf(p, did) + shares))
  }

  function Burned(p: Pool, did: JsString, shares: int): Pool {
    var left := SharesOf(p, did) - shares;
    var written := Put(p.lpShares, did, left);
    p.(totalShares := p.totalShares - shares, lpShares := if left <= 0 then Drop(written, did) else written)
  }

  /** A balance moved by some amount, up or down. */
  function Shift(e: Entries, did: JsString, amount: int, unit: JsString): Entries {
    WithBalance(e, did, BalanceOf(e, did, unit) + amount, unit)
  }

  // ---------- one request as a function on the files ----------

  ghost predicate PoolOk(p: Pool) {
    && p.k == p.reserveA * p.reserveB
    && p.totalShares >= 0
    && (p.totalShares > 0 <==> p.reserveA > 0)
    && (p.totalShares > 0 <==> p.reserveB > 0)
    && p.reserveA >= 0 && p.reserveB >= 0
    && p.k >= p.totalShares * p.totalShares
    && Distinct(p.lpShares)
    && Sum(p.lpShares) == p.totalShares
    && forall i :: 0 <= i < |p.lpShares| ==> p.lpShares[i].1 > 0
  }

  /** Enough to compute with: no division by an empty reserve. */
  predicate Usable(pool: Option<Pool>) {
    pool.Some? ==>
      var p := pool.value;
      p.reserveA >= 0 && p.reserveB >= 0 && p.totalShares >= 0 && (p.totalShares > 0 ==> p.reserveA > 0 && p.reserveB > 0)
  }

  /** Units a ledger keeps apart from the default currency's 'satoshi' cell, and from each other. */
  predicate UnitsOk(u: Units) {
    u.a != u.b && u.a != NO_CURRENCY && u.b != NO_CURRENCY && u.a != SATOSHI && u.b != SATOSHI
  }

  ghost predicate NonNegative(e: Entries, c: JsString) {
    forall did :: BalanceOf(e, did, c) >= 0
  }

  /** What holds between requests. */
  ghost predicate Sound(u: Units, f: Files) {
    && UnitsOk(u)
    && (f.pool.Some? ==> PoolOk(f.pool.value))
    && LedgerOk(u, f.entries)
  }

  ghost predicate LedgerOk(u: Units, e: Entries) {
    Distinct(e) && NonNegative(e, u.a) && NonNegative(e, u.b)
  }

  function Deposited(u: Units, e: Entries, p: Pool, did: JsString, a: int, b: int, shares: int): Files {
    Files(Shift(Shift(e, did, -a, u.a), did, -b, u.b),
          Some(Minted(WithReserves(p, p.reserveA + a, p.reserveB + b), did, shares)))
  }

  function Withdrawn(u: Units, e: Entries, p: Pool, did: JsString, outA: int, outB: int, shares: int): Files {
    Files(Shift(Shift(e, did, outA, u.a), did, outB, u.b),
          Some(Burned(WithReserves(p, p.reserveA - outA, p.reserveB - outB), did, shares)))
  }

  function Exchanged(u: Units, e: Entries, p: Pool, did: JsString, sell: JsString, amount: int, out: int): Files {
    Files(Shift(Shift(e, did, -amount, sell), did, out, if sell == u.a then u.b else u.a),
          Some(if sell == u.a then WithReserves(p, p.reserveA + amount, p.reserveB - out)
               else WithReserves(p, p.reserveA - out, p.reserveB + amount)))
  }

  function Add(u: Units, f: Files, did: JsString, a: int, b: int): (Files, Reply)
    requires Usable(f.pool)
  {
    if a <= 0 || b <= 0 then (f, Refused(BAD_REQUEST))
    else if BalanceOf(f.entries, did, u.a) < a || BalanceOf(f.entries, did, u.b) < b then (f, Refused(PAYMENT_REQUIRED))
    else
      var p := f.pool.GetOr(EMPTY_POOL);
      var shares := MintedShares(p, a, b);
      if shares <= 0 then (f, Refused(BAD_REQUEST))
      else
        (Deposited(u, f.entries, p, did, a, b, shares), Added(shares))
  }

  function Remove(u: Units, f: Files, did: JsString, shares: int, all: bool): (Files, Reply) {
    if f.pool.None? || f.pool.value.totalShares == 0 then (f, Refused(BAD_REQUEST))
    else
      var p := f.pool.value;
      var toRemove := if all then SharesOf(p, did) else shares;
      if toRemove <= 0 || toRemove > SharesOf(p, did) then (f, Refused(BAD_REQUEST))
      else
        var outA, outB := p.reserveA * toRemove / p.totalShares, p.reserveB * toRemove / p.totalShares;
        (Withdrawn(u, f.entries, p, did, outA, outB, toRemove), Removed(outA, outB, toRemove))
  }

  function Sell(u: Units, f: Files, did: JsString, sell: JsString, amount: int, minReceived: int): (Files, Reply)
    requires Usable(f.pool)
  {
    if sell != u.a && sell != u.b then (f, Refused(BAD_REQUEST))
    else if amount <= 0 then (f, Refused(BAD_REQUEST))
    else if f.pool.None? || f.pool.value.k == 0 then (f, Refused(BAD_REQUEST))
    else if BalanceOf(f.entries, did, sell) < amount then (f, Refused(PAYMENT_REQUIRED))
    else
      var p := f.pool.value;
      var out := if sell == u.a then AmountOut(p.reserveA, p.reserveB, amount) else AmountOut(p.reserveB, p.reserveA, amount);
      if out <= 0 || (minReceived != 0 && out < minReceived) then (f, Refused(BAD_REQUEST))
      else
        (Exchanged(u, f.entries, p, did, sell, amount, out), Swapped(out))
  }

  function Step(u: Units, f: Files, did: JsString, action: Action): (Files, Reply)
    requires Usable(f.pool)
  {
    match action
    case AddLiquidity(a, b) => Add(u, f, did, a, b)
    case RemoveLiquidity(shares, all) => Remove(u, f, did, shares, all)
    case Swap(sell, amount, minReceived) => Sell(u, f, did, sell, amount, minReceived)
    case OtherAction => (f, Refused(BAD_REQUEST))
  }

  // ---------- doubles as reals ----------

  lemma QuotientBounds(n: int, d: int)
    requires d > 0
    ensures (n / d) as real <= n as real / d as real < (n / d) as real + 1.0
  {
    var q := n / d;
    assert q * d <= n < (q + 1) * d;
    var x := n as real / d as real;
    assert x * d as real == n as real;
    assert (q * d) as real == q as real * d as real;
    assert ((q + 1) * d) as real == (q as real + 1.0) * d as real;
    MulLtCancel(x, q as real + 1.0, d as real);
  }

  lemma MulLtCancel(a: real, b: real, d: real)
    requires d > 0.0 && a * d < b * d
    ensures a < b
  {
    assert a >= b ==> (a - b) * d >= 0.0;
  }

  lemma RatioTimes(a: int, d: int, t: int)
    requires d > 0
    ensures a as real / d as real * t as real == (a * t) as real / d as real
  {
    var x, y := a as real / d as real * t as real, (a * t) as real / d as real;
    assert a as real / d as real * d as real == a as real;
    assert y * d as real == (a * t) as real == a as real * t as real;
    assert x * d as real == (a as real / d as real * d as real) * t as real;
  }

  /** `Math.floor(a / d * t)` */
  lemma FloorOfRatio(a: int, d: int, t: int)
    requires d > 0
    ensures (a as real / d as real * t as real).Floor == a * t / d
  {
    RatioTimes(a, d, t);
    QuotientBounds(a * t, d);
  }

  /** `Math.floor(Math.min(ratioA, ratioB) * totalShares)` */
  lemma FloorOfMin(p: Pool, a: int, b: int)
    requires p.reserveA > 0 && p.reserveB > 0 && p.totalShares > 0
    ensures var x, y, t := a as real / p.reserveA as real, b as real / p.reserveB as real, p.totalShares as real;
      ((if x < y then x else y) * t).Floor == Min(a * p.totalShares / p.reserveA, b * p.totalShares / p.reserveB)
  {
    var x, y, t := a as real / p.reserveA as real, b as real / p.reserveB as real, p.totalShares as real;
    FloorOfRatio(a, p.reserveA, p.totalShares);
    FloorOfRatio(b, p.reserveB, p.totalShares);
  }

  const FEE := 0.003

  /** Amount, fee and reserves as reals, scaled by a thousand. */
  lemma Scaled(reserveIn: nat, reserveOut: nat, amount: nat, x: real, n: int, d: int)
    requires x == amount as real * (1.0 - FEE)
    requires n == reserveOut * (997 * amount) && d == 1000 * reserveIn + 997 * amount
    ensures d as real == 1000.0 * (reserveIn as real + x)
    ensures n as real == 1000.0 * (reserveOut as real * x)
  {
    var y := 997 * amount;
    assert y as real == 1000.0 * x;
    assert (reserveOut * y) as real == reserveOut as real * y as real;
  }

  lemma SwapQuotient(r: real, x: real, e: real, n: real, d: real)
    requires e > 0.0 && d == 1000.0 * e && n == 1000.0 * (r * x)
    ensures r * x / e == n / d
  {
    var q := r * x / e;
    assert q * e == r * x;
    assert q * d == n;
  }

  // ---------- the code ----------

  method NewShares(p: Pool, amountA: nat, amountB: nat) returns (newShares: int)
    requires p.totalShares >= 0
    requires p.totalShares == 0 || (p.reserveA > 0 && p.reserveB > 0)
    ensures newShares == MintedShares(p, amountA, amountB)
  {
    if p.totalShares == 0 {
      newShares := Isqrt(amountA * amountB);
    } else {
      var ratioA := amountA as real / p.reserveA as real;
      var ratioB := amountB as real / p.reserveB as real;
      FloorOfMin(p, amountA, amountB);
      newShares := ((if ratioA < ratioB then ratioA else ratioB) * p.totalShares as real).Floor;
    }
  }

  method Fraction(reserve: int, toRemove: int, totalShares: int) returns (out: int)
    requires totalShares > 0
    ensures out == reserve * toRemove / totalShares
  {
    var fraction := toRemove as real / totalShares as real;
    FloorOfRatio(toRemove, totalShares, reserve);
    assert reserve * toRemove == toRemove * reserve;
    assert reserve as real * fraction == fraction * reserve as real;
    out := (reserve as real * fraction).Floor;
  }

  method SwapOutput(reserveIn: nat, reserveOut: nat, amount: nat) returns (amountOut: int)
    requires amount > 0
    ensures amountOut == AmountOut(reserveIn, reserveOut, amount)
  {
    var amountInAfterFee := amount as real * (1.0 - FEE);
    ghost var n, d := reserveOut * (997 * amount), 1000 * reserveIn + 997 * amount;
    Scaled(reserveIn, reserveOut, amount, amountInAfterFee, n, d);
    amountOut := ((reserveOut as real * amountInAfterFee) / (reserveIn as real + amountInAfterFee)).Floor;
    SwapQuotient(reserveOut as real, amountInAfterFee, reserveIn as real + amountInAfterFee, n as real, d as real);
    QuotientBounds(n, d);
  }

  method Mint(p: Pool, did: JsString, amountA: int, amountB: int, newShares: int) returns (q: Pool)
    ensures q == Minted(WithReserves(p, p.reserveA + amountA, p.reserveB + amountB), did, newShares)
  {
    q := p.(reserveA := p.reserveA + amountA);
    q := q.(reserveB := q.reserveB + amountB);
    q := q.(k := q.reserveA * q.reserveB);
    q := q.(totalShares := q.totalShares + newShares);
    q := q.(lpShares := Put(q.lpShares, did, Get(q.lpShares, did).GetOr(0) + newShares));
  }

  method Burn(p: Pool, did: JsString, outA: int, outB: int, toRemove: int) returns (q: Pool)
    ensures q == Burned(WithReserves(p, p.reserveA - outA, p.reserveB - outB), did, toRemove)
  {
    q := p.(reserveA := p.reserveA - outA);
    q := q.(reserveB := q.reserveB - outB);
    q := q.(k := q.reserveA * q.reserveB);
    q := q.(totalShares := q.totalShares - toRemove);
    var left := Get(q.lpShares, did).GetOr(0) - toRemove;
    q := q.(lpShares := Put(q.lpShares, did, left));
    if left <= 0 {
      q := q.(lpShares := Drop(q.lpShares, did));
    }
  }

  class PayFiles {
    const units: Units
    var entries: Entries
    var credited: seq<JsString>
    var pool: Option<Pool>

    function State(): Files
      reads this
    {
      Files(entries, pool)
    }

    /** The writes of a deposit. Neither debit is checked, and both succeed. */
    method Deposit(ledger: Ledger, p: Pool, did: JsString, amountA: int, amountB: int, newShares: int)
      requires UnitsOk(units)
      requires BalanceOf(ledger.entries, did, units.a) >= amountA && BalanceOf(ledger.entries, did, units.b) >= amountB
      modifies ledger`entries, this`entries, this`pool
      ensures State() == Deposited(units, old(ledger.entries), p, did, amountA, amountB, newShares)
    {
      NamedReadOverNamedWrite(ledger.entries, did, BalanceOf(ledger.entries, did, units.a) - amountA, units.a, did, units.b);
      var okA, leftA := ledger.Debit(did, amountA, units.a);
      var okB, leftB := ledger.Debit(did, amountB, units.b);
      assert okA && okB;
      entries := ledger.entries;

      var q := Mint(p, did, amountA, amountB, newShares);
      pool := Some(q);
    }

    method Withdraw(ledger: Ledger, p: Pool, did: JsString, outA: int, outB: int, toRemove: int)
      modifies ledger`entries, this`entries, this`pool
      ensures State() == Withdrawn(units, old(ledger.entries), p, did, outA, outB, toRemove)
    {
      var newA := ledger.Credit(did, outA, units.a);
      var newB := ledger.Credit(did, outB, units.b);
      entries := ledger.entries;

      var q := Burn(p, did, outA, outB, toRemove);
      pool := Some(q);
    }

    /** The writes of a swap. The debit is not checked, and it succeeds. */
    method Trade(ledger: Ledger, p: Pool, did: JsString, sell: JsString, amount: int, amountOut: int)
      requires BalanceOf(ledger.entries, did, sell) >= amount
      modifies ledger`entries, this`entries, this`pool
      ensures State() == Exchanged(units, old(ledger.entries), p, did, sell, amount, amountOut)
    {
      var buy := if sell == units.a then units.b else units.a;
      var ok, left := ledger.Debit(did, amount, sell);
      assert ok;
      var bought := ledger.Credit(did, amountOut, buy);
      entries := ledger.entries;

      var q := p;
      if sell == units.a {
        q := q.(reserveA := q.reserveA + amount);
        q := q.(reserveB := q.reserveB - amountOut);
      } else {
        q := q.(reserveB := q.reserveB + amount);
        q := q.(reserveA := q.reserveA - amountOut);
      }
      q := q.(k := q.reserveA * q.reserveB);
      pool := Some(q);
    }

    method AddLiquidity(did: JsString, amountA: int, amountB: int) returns (reply: Reply)
      requires UnitsOk(units) && Usable(pool)
      modifies this`entries, this`pool
      ensures (State(), reply) == Add(units, old(State()), did, amountA, amountB)
    {
      if amountA <= 0 || amountB <= 0 {
        return Refused(BAD_REQUEST);
      }
      var ledger := new Ledger(entries, credited);
      var balA := ledger.GetBalance(did, units.a);
      var balB := ledger.GetBalance(did, units.b);
      if balA < amountA {
        return Refused(PAYMENT_REQUIRED);
      }
      if balB < amountB {
        return Refused(PAYMENT_REQUIRED);
      }
      var p := if pool.Some? then pool.value else EMPTY_POOL;
      var newShares := NewShares(p, amountA, amountB);
      if newShares <= 0 {
        return Refused(BAD_REQUEST);
      }
      Deposit(ledger, p, did, amountA, amountB, newShares);
      return Added(newShares);
    }

    method RemoveLiquidity(did: JsString, shares: int, all: bool) returns (reply: Reply)
      requires UnitsOk(units) && Usable(pool)
      modifies this`entries, this`pool
      ensures (State(), reply) == Remove(units, old(State()), did, shares, all)
    {
      if pool.None? || pool.value.totalShares == 0 {
        return Refused(BAD_REQUEST);
      }
      var p := pool.value;
      var userShares := Get(p.lpShares, did).GetOr(0);
      var toRemove := if all then userShares else shares;
      if toRemove <= 0 || toRemove > userShares {
        return Refused(BAD_REQUEST);
      }
      var outA := Fraction(p.reserveA, toRemove, p.totalShares);
      var outB := Fraction(p.reserveB, toRemove, p.totalShares);
      var ledger := new Ledger(entries, credited);
      Withdraw(ledger, p, did, outA, outB, toRemove);
      return Removed(outA, outB, toRemove);
    }

    method SwapRequest(did: JsString, sell: JsString, amount: int, minReceived: int) returns (reply: Reply)
      requires UnitsOk(units) && Usable(pool)
      modifies this`entries, this`pool
      ensures (State(), reply) == Sell(units, old(State()), did, sell, amount, minReceived)
    {
      if sell != units.a && sell != units.b {
        return Refused(BAD_REQUEST);
      }
      if amount <= 0 {
        return Refused(BAD_REQUEST);
      }
      if pool.None? || pool.value.k == 0 {
        return Refused(BAD_REQUEST);
      }
      var p := pool.value;
      var ledger := new Ledger(entries, credited);
      var userBal := ledger.GetBalance(did, sell);
      if userBal < amount {
        return Refused(PAYMENT_REQUIRED);
      }
      var reserveIn := if sell == units.a then p.reserveA else p.reserveB;
      var reserveOut := if sell == units.a then p.reserveB else p.reserveA;
      var amountOut := SwapOutput(reserveIn, reserveOut, amount);
      if amountOut <= 0 {
        return Refused(BAD_REQUEST);
      }
      if minReceived != 0 && amountOut < minReceived {
        return Refused(BAD_REQUEST);
      }
      Trade(ledger, p, did, sell, amount, amountOut);
      return Swapped(amountOut);
    }
  }
}
