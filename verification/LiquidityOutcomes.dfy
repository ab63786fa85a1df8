/**
 What each pool request does (src/handlers/pay.js): exactly when it goes through, whose balance, shares
 and reserves it then moves, and what it answers when it does not.
 */
module LiquidityOutcomes {
  import opened JsText
  import opened OrderedMap
  import opened WebLedger
  import opened LiquidityPool
  import opened LiquidityLaws

  /** One agent's balances move by x in one unit and y in another; no other balance in a named unit moves. */
  ghost predicate OnlyMoves(e: Entries, f: Entries, did: JsString, a: JsString, x: int, b: JsString, y: int) {
    forall v, c {:trigger BalanceOf(f, v, c)} :: c != NO_CURRENCY && c != SATOSHI ==>
      BalanceOf(f, v, c) == BalanceOf(e, v, c) + (if v == did && c == a then x else 0) + (if v == did && c == b then y else 0)
  }

  /** Only this agent's shares change, by x, and with them the total. */
  ghost predicate OnlyShares(p: Pool, q: Pool, did: JsString, x: int) {
    && q.totalShares == p.totalShares + x
    && forall v {:trigger SharesOf(q, v)} :: SharesOf(q, v) == SharesOf(p, v) + if v == did then x else 0
  }

  predicate HasReserves(q: Pool, a: int, b: int) {
    q.reserveA == a && q.reserveB == b && q.k == a * b
  }

  lemma TwoShiftsMove(e: Entries, did: JsString, x: int, a: JsString, y: int, b: JsString)
    requires a != NO_CURRENCY && b != NO_CURRENCY
    ensures OnlyMoves(e, Shift(Shift(e, did, x, a), did, y, b), did, a, x, b, y)
  {
    forall v, c | c != NO_CURRENCY && c != SATOSHI
      ensures BalanceOf(Shift(Shift(e, did, x, a), did, y, b), v, c) ==
        BalanceOf(e, v, c) + (if v == did && c == a then x else 0) + (if v == did && c == b then y else 0)
    {
      TwoShifts(e, did, x, a, y, b, v, c);
    }
  }

  // ---------- swap ----------

  /** Paying m out of the other reserve keeps the product, counting 997 per mille of what comes in. */
  predicate KeepsProduct(reserveIn: int, reserveOut: int, amount: int, m: int) {
    (1000 * reserveIn + 997 * amount) * (reserveOut - m) >= 1000 * (reserveIn * reserveOut)
  }

  ghost predicate LargestPayout(reserveIn: int, reserveOut: int, amount: int, out: int) {
    forall m {:trigger KeepsProduct(reserveIn, reserveOut, amount, m)} :: KeepsProduct(reserveIn, reserveOut, amount, m) <==> m <= out
  }

  lemma PayoutIs(reserveIn: nat, reserveOut: nat, amount: nat, out: int)
    requires amount > 0 && LargestPayout(reserveIn, reserveOut, amount, out)
    ensures out == AmountOut(reserveIn, reserveOut, amount)
  {
    var a := AmountOut(reserveIn, reserveOut, amount);
    PayoutIsLargest(reserveIn, reserveOut, amount, out);
    PayoutIsLargest(reserveIn, reserveOut, amount, a);
    assert KeepsProduct(reserveIn, reserveOut, amount, out) && KeepsProduct(reserveIn, reserveOut, amount, a);
  }

  function Other(u: Units, unit: JsString): JsString {
    if unit == u.a then u.b else u.a
  }

  predicate Trades(u: Units, unit: JsString) {
    unit == u.a || unit == u.b
  }

  /** The pool holds something to trade against. */
  predicate Liquid(pool: Option<Pool>) {
    pool.Some? && pool.value.reserveA > 0 && pool.value.reserveB > 0
  }

  lemma LiquidIffK(u: Units, f: Files)
    requires Sound(u, f)
    ensures Liquid(f.pool) <==> f.pool.Some? && f.pool.value.k != 0
  {
    if f.pool.Some? {
      var p := f.pool.value;
      assert p.reserveA == 0 || p.reserveB == 0 ==> p.k == 0;
      if p.reserveA > 0 && p.reserveB > 0 {
        MulPositive(p.reserveA, p.reserveB);
      }
    }
  }

  /** When a swap goes through: unit, liquidity, balance, a positive payout, and no less than was asked for. */
  lemma SwapGoesIff(u: Units, f: Files, did: JsString, sell: JsString, amount: int, minReceived: int, out: int)
    requires Sound(u, f)
    requires amount > 0 ==> LargestPayout(Reserve(u, f.pool, sell), Reserve(u, f.pool, Other(u, sell)), amount, out)
    ensures var (g, reply) := Step(u, f, did, Swap(sell, amount, minReceived));
      && (reply.Swapped? <==>
            Trades(u, sell) && Liquid(f.pool) && 0 < amount <= BalanceOf(f.entries, did, sell) && out > 0
            && (minReceived == 0 || out >= minReceived))
      && (reply.Swapped? ==> reply == Swapped(out))
      && (!reply.Swapped? ==> g == f && reply == Refused(
            if Trades(u, sell) && Liquid(f.pool) && 0 < amount && BalanceOf(f.entries, did, sell) < amount then 402 else 400))
  {
    LiquidIffK(u, f);
    if Trades(u, sell) && amount > 0 && Liquid(f.pool) {
      PayoutIs(Reserve(u, f.pool, sell), Reserve(u, f.pool, Other(u, sell)), amount, out);
    }
  }

  /** A swap that goes through: the trader's two balances, the two reserves, and nothing else. */
  lemma SwapMoves(u: Units, f: Files, did: JsString, sell: JsString, amount: int, minReceived: int, out: int)
    requires Sound(u, f) && Step(u, f, did, Swap(sell, amount, minReceived)).1 == Swapped(out)
    ensures var g := Step(u, f, did, Swap(sell, amount, minReceived)).0;
      && OnlyMoves(f.entries, g.entries, did, sell, -amount, Other(u, sell), out)
      && g.pool.Some?
      && Reserve(u, g.pool, sell) == Reserve(u, f.pool, sell) + amount
      && Reserve(u, g.pool, Other(u, sell)) == Reserve(u, f.pool, Other(u, sell)) - out
      && HasReserves(g.pool.value, Reserve(u, g.pool, u.a), Reserve(u, g.pool, u.b))
      && g.pool.value.lpShares == f.pool.value.lpShares && g.pool.value.totalShares == f.pool.value.totalShares
  {
    TwoShiftsMove(f.entries, did, -amount, sell, out, Other(u, sell));
  }

  // ---------- add liquidity ----------

  /** m shares are in proportion to both reserves, or, for the first deposit, within the root of the product. */
  predicate Proportional(p: Pool, a: int, b: int, m: int) {
    if p.totalShares == 0 then m < 0 || m * m <= a * b
    else m * p.reserveA <= a * p.totalShares && m * p.reserveB <= b * p.totalShares
  }

  ghost predicate LargestMint(p: Pool, a: int, b: int, shares: int) {
    forall m {:trigger Proportional(p, a, b, m)} :: Proportional(p, a, b, m) <==> m <= shares
  }

  lemma RootIsLargest(n: nat, m: int)
    ensures m <= Isqrt(n) <==> m < 0 || m * m <= n
  {
    IsqrtIsRoot(n);
    WithinRoot(n, Isqrt(n), m);
  }

  lemma WithinRoot(n: nat, r: nat, m: int)
    requires IsRoot(n, r)
    ensures m <= r <==> m < 0 || m * m <= n
  {
    if 0 <= m <= r {
      MulLe(m, r, m, r);
    } else if m > r {
      MulLe(r + 1, m, r + 1, m);
    }
  }

  lemma MintedIsLargest(p: Pool, a: nat, b: nat, m: int)
    requires PoolOk(p)
    ensures m <= MintedShares(p, a, b) <==> Proportional(p, a, b, m)
  {
    if p.totalShares == 0 {
      RootIsLargest(a * b, m);
    } else {
      MintIsLargest(p, a, b, m);
    }
  }

  lemma MintIs(p: Pool, a: nat, b: nat, shares: int)
    requires PoolOk(p) && LargestMint(p, a, b, shares)
    ensures shares == MintedShares(p, a, b)
  {
    var s := MintedShares(p, a, b);
    MintedIsLargest(p, a, b, s);
    MintedIsLargest(p, a, b, shares);
    assert Proportional(p, a, b, s) && Proportional(p, a, b, shares);
  }

  /** When a deposit goes through: positive amounts, both covered, and worth at least one share. */
  lemma AddGoesIff(u: Units, f: Files, did: JsString, a: int, b: int, shares: int)
    requires Sound(u, f) && (a > 0 && b > 0 ==> LargestMint(f.pool.GetOr(EMPTY_POOL), a, b, shares))
    ensures var (g, reply) := Step(u, f, did, AddLiquidity(a, b));
      var covered := BalanceOf(f.entries, did, u.a) >= a && BalanceOf(f.entries, did, u.b) >= b;
      && (reply.Added? <==> a > 0 && b > 0 && covered && shares > 0)
      && (reply.Added? ==> reply == Added(shares))
      && (!reply.Added? ==> g == f && reply == Refused(if a > 0 && b > 0 && !covered then 402 else 400))
  {
    if a > 0 && b > 0 {
      MintIs(f.pool.GetOr(EMPTY_POOL), a, b, shares);
    }
  }

  /** A deposit that goes through: the depositor's two balances and shares, and the two reserves. */
  lemma AddMoves(u: Units, f: Files, did: JsString, a: int, b: int, shares: int)
    requires Sound(u, f) && Step(u, f, did, AddLiquidity(a, b)).1 == Added(shares)
    ensures var (p, g) := (f.pool.GetOr(Pool(0, 0, 0, 0, [])), Step(u, f, did, AddLiquidity(a, b)).0);
      && OnlyMoves(f.entries, g.entries, did, u.a, -a, u.b, -b)
      && g.pool.Some? && HasReserves(g.pool.value, p.reserveA + a, p.reserveB + b) && OnlyShares(p, g.pool.value, did, shares)
  {
    AddGoes(u, f, did, a, b, shares);
    DepositMoves(u, f.entries, f.pool.GetOr(EMPTY_POOL), did, a, b, shares);
  }

  lemma DepositMoves(u: Units, e: Entries, p: Pool, did: JsString, a: int, b: int, shares: int)
    requires UnitsOk(u)
    ensures var g := Deposited(u, e, p, did, a, b, shares);
      && OnlyMoves(e, g.entries, did, u.a, -a, u.b, -b)
      && HasReserves(g.pool.value, p.reserveA + a, p.reserveB + b) && OnlyShares(p, g.pool.value, did, shares)
  {
    TwoShiftsMove(e, did, -a, u.a, -b, u.b);
    MintMoves(p, WithReserves(p, p.reserveA + a, p.reserveB + b), did, shares);
  }

  lemma MintMoves(p: Pool, q: Pool, did: JsString, shares: int)
    requires q.lpShares == p.lpShares && q.totalShares == p.totalShares
    ensures OnlyShares(p, Minted(q, did, shares), did, shares)
  {
    forall v ensures SharesOf(Minted(q, did, shares), v) == SharesOf(p, v) + if v == did then shares else 0 {
      GetPut(p.lpShares, did, SharesOf(p, did) + shares, v);
    }
  }

  // ---------- remove liquidity ----------

  /** m is within the share of the reserve that these shares stand for. */
  predicate Within(reserve: int, shares: int, totalShares: int, m: int) {
    m * totalShares <= reserve * shares
  }

  ghost predicate LargestWithdrawal(reserve: int, shares: int, totalShares: int, out: int) {
    forall m {:trigger Within(reserve, shares, totalShares, m)} :: Within(reserve, shares, totalShares, m) <==> m <= out
  }

  lemma WithdrawalIs(reserve: int, shares: int, totalShares: int, out: int)
    requires totalShares > 0 && LargestWithdrawal(reserve, shares, totalShares, out)
    ensures out == reserve * shares / totalShares
  {
    var q := reserve * shares / totalShares;
    FloorIsLargest(reserve * shares, totalShares, q);
    FloorIsLargest(reserve * shares, totalShares, out);
    assert Within(reserve, shares, totalShares, q) && Within(reserve, shares, totalShares, out);
  }

  /** The shares a withdrawal is about: all of the agent's, or as many as asked for. */
  function Asked(pool: Option<Pool>, did: JsString, shares: int, all: bool): int {
    if all then SharesOf(pool.GetOr(Pool(0, 0, 0, 0, [])), did) else shares
  }

  /** When a withdrawal goes through: the pool has shares, and the agent owns those asked for. */
  lemma RemoveGoesIff(u: Units, f: Files, did: JsString, shares: int, all: bool, outA: int, outB: int)
    requires Sound(u, f)
    requires f.pool.Some? && f.pool.value.totalShares > 0 ==>
      var (p, n) := (f.pool.value, Asked(f.pool, did, shares, all));
      LargestWithdrawal(p.reserveA, n, p.totalShares, outA) && LargestWithdrawal(p.reserveB, n, p.totalShares, outB)
    ensures var (g, reply) := Step(u, f, did, RemoveLiquidity(shares, all));
      && (reply.Removed? <==>
            f.pool.Some? && f.pool.value.totalShares > 0 && 0 < Asked(f.pool, did, shares, all) <= SharesOf(f.pool.value, did))
      && (reply.Removed? ==> reply == Removed(outA, outB, Asked(f.pool, did, shares, all)))
      && (!reply.Removed? ==> g == f && reply == Refused(400))
  {
    if f.pool.Some? && f.pool.value.totalShares > 0 {
      var p, n := f.pool.value, Asked(f.pool, did, shares, all);
      WithdrawalIs(p.reserveA, n, p.totalShares, outA);
      WithdrawalIs(p.reserveB, n, p.totalShares, outB);
    }
  }

  lemma BurnShares(p: Pool, did: JsString, n: int, v: JsString)
    requires Distinct(p.lpShares) && n <= SharesOf(p, did)
    ensures SharesOf(Burned(p, did, n), v) == SharesOf(p, v) - if v == did then n else 0
  {
    var left := SharesOf(p, did) - n;
    GetPut(p.lpShares, did, left, v);
    PutKeys(p.lpShares, did, left);
    GetDrop(Put(p.lpShares, did, left), did, v);
  }

  /** A holder's entry goes with the last share. */
  lemma BurnEntry(p: Pool, did: JsString, n: int)
    requires Distinct(p.lpShares) && n <= SharesOf(p, did)
    ensures Has(Burned(p, did, n).lpShares, did) <==> SharesOf(p, did) > n
  {
    var left := SharesOf(p, did) - n;
    var written := Put(p.lpShares, did, left);
    GetPut(p.lpShares, did, left, did);
    PutKeys(p.lpShares, did, left);
    DropKeys(written, did);
    HasIsMember(written, did);
  }

  /** A withdrawal that goes through: the owner's two balances and shares, and the two reserves. */
  lemma RemoveMoves(u: Units, f: Files, did: JsString, shares: int, all: bool, outA: int, outB: int, n: int)
    requires Sound(u, f) && Step(u, f, did, RemoveLiquidity(shares, all)).1 == Removed(outA, outB, n)
    ensures var (p, g) := (f.pool.GetOr(Pool(0, 0, 0, 0, [])), Step(u, f, did, RemoveLiquidity(shares, all)).0);
      && OnlyMoves(f.entries, g.entries, did, u.a, outA, u.b, outB)
      && g.pool.Some? && HasReserves(g.pool.value, p.reserveA - outA, p.reserveB - outB) && OnlyShares(p, g.pool.value, did, -n)
      && (Has(g.pool.value.lpShares, did) <==> SharesOf(p, did) > n)
  {
    TwoShiftsMove(f.entries, did, outA, u.a, outB, u.b);
    var p := f.pool.value;
    var left := WithReserves(p, p.reserveA - outA, p.reserveB - outB);
    forall v ensures SharesOf(Burned(left, did, n), v) == SharesOf(p, v) - if v == did then n else 0 {
      BurnShares(left, did, n, v);
    }
    BurnEntry(left, did, n);
  }
}
