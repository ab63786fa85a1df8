/**
 What the pod owes against the coins it holds, over runs of scans that may crash, claims, pool requests
 and withdrawals (src/handlers/pay.js), all on the same ledger and UTXO file.
 */
module PayEngine {
  import opened JsText
  import opened OrderedMap
  import opened WebLedger
  import opened Coins
  import opened DepositScan
  import Pool = LiquidityPool
  import Laws = LiquidityLaws
  import Spend = UtxoSelection

  // ---------- credited, not yet cached ----------

  ghost predicate IsKeyOf(world: Chains, chain: JsString, key: JsString, txid: JsString, vout: nat) {
    world.chainOf(txid, vout) == chain && key == Key(chain, txid, vout)
  }

  /** The value of the chain's outpoint with this key, if it is not cached. */
  ghost function Missing(world: Chains, coins: seq<Coin>, chain: JsString, key: JsString): nat {
    if exists txid, vout: nat :: IsKeyOf(world, chain, key, txid, vout) && !Cached(coins, txid, vout) then
      var txid, vout: nat :| IsKeyOf(world, chain, key, txid, vout) && !Cached(coins, txid, vout);
      world.valueOf(txid, vout)
    else 0
  }

  lemma MissingOf(world: Chains, coins: seq<Coin>, chain: JsString, txid: JsString, vout: nat)
    requires IsChain(chain) && IsChain(world.chainOf(txid, vout))
    ensures Missing(world, coins, chain, KeyOf(world, txid, vout)) ==
      if world.chainOf(txid, vout) == chain && !Cached(coins, txid, vout) then world.valueOf(txid, vout) else 0
  {
    var key := KeyOf(world, txid, vout);
    forall t, v: nat | IsKeyOf(world, chain, key, t, v) ensures t == txid && v == vout && world.chainOf(txid, vout) == chain {
      KeyInjective(chain, t, v, world.chainOf(txid, vout), txid, vout);
    }
    if world.chainOf(txid, vout) == chain {
      assert IsKeyOf(world, chain, key, txid, vout);
    }
  }

  /** The coin file has taken in one outpoint, or none that was not there. */
  ghost predicate Grown(a: seq<Coin>, b: seq<Coin>, txid: JsString, vout: nat) {
    forall t, v: nat :: Cached(b, t, v) <==> Cached(a, t, v) || (t == txid && v == vout)
  }

  lemma GrownBy(coins: seq<Coin>, x: Coin)
    ensures Grown(coins, coins + [x], x.txid, x.vout)
  {
    forall t, v: nat ensures Cached(coins + [x], t, v) <==> Cached(coins, t, v) || (t == x.txid && v == x.vout) {
      CachedSnoc(coins, x, t, v);
    }
  }

  /** A new outpoint is no longer missing; others stay as they were. */
  lemma MissingAfter(world: Chains, a: seq<Coin>, b: seq<Coin>, txid: JsString, vout: nat, chain: JsString, key: JsString)
    requires IsChain(chain) && Grown(a, b, txid, vout)
    ensures Missing(world, b, chain, key) == if IsKeyOf(world, chain, key, txid, vout) then 0 else Missing(world, a, chain, key)
  {
    if t, v: nat :| IsKeyOf(world, chain, key, t, v) {
      MissingOf(world, a, chain, t, v);
      MissingOf(world, b, chain, t, v);
      if IsKeyOf(world, chain, key, txid, vout) {
        KeyInjective(chain, t, v, chain, txid, vout);
      }
    }
  }

  /** The value on a chain that the first `n` keys have credited and no coin stands for yet. */
  ghost function UncachedTo(world: Chains, credited: seq<JsString>, n: nat, coins: seq<Coin>, chain: JsString): nat
    requires n <= |credited|
  {
    if n == 0 then 0 else UncachedTo(world, credited, n - 1, coins, chain) + Missing(world, coins, chain, credited[n - 1])
  }

  ghost function Uncached(world: Chains, credited: seq<JsString>, coins: seq<Coin>, chain: JsString): nat {
    UncachedTo(world, credited, |credited|, coins, chain)
  }

  ghost predicate Different(keys: seq<JsString>) {
    forall i, j :: 0 <= i < j < |keys| ==> keys[i] != keys[j]
  }

  lemma {:induction false} UncachedFront(world: Chains, credited: seq<JsString>, key: JsString, n: nat, coins: seq<Coin>, chain: JsString)
    requires n <= |credited|
    ensures UncachedTo(world, credited + [key], n, coins, chain) == UncachedTo(world, credited, n, coins, chain)
  {
    if n > 0 {
      UncachedFront(world, credited, key, n - 1, coins, chain);
    }
  }

  lemma UncachedKey(world: Chains, credited: seq<JsString>, key: JsString, coins: seq<Coin>, chain: JsString)
    ensures Uncached(world, credited + [key], coins, chain) ==
            Uncached(world, credited, coins, chain) + Missing(world, coins, chain, key)
  {
    UncachedFront(world, credited, key, |credited|, coins, chain);
  }

  lemma {:induction false} UncachedGrownTo(world: Chains, credited: seq<JsString>, n: nat, a: seq<Coin>, b: seq<Coin>,
                                           txid: JsString, vout: nat, chain: JsString)
    requires IsChain(chain) && Different(credited) && n <= |credited| && Grown(a, b, txid, vout)
    ensures UncachedTo(world, credited, n, b, chain) == UncachedTo(world, credited, n, a, chain)
      - if world.chainOf(txid, vout) == chain && KeyOf(world, txid, vout) in credited[..n]
        then Missing(world, a, chain, KeyOf(world, txid, vout)) else 0
  {
    if n > 0 {
      UncachedGrownTo(world, credited, n - 1, a, b, txid, vout, chain);
      MissingAfter(world, a, b, txid, vout, chain, credited[n - 1]);
      assert credited[..n] == credited[..n - 1] + [credited[n - 1]];
    }
  }

  /** Caching an outpoint takes its value out, if it was credited and not cached. */
  lemma UncachedCoin(world: Chains, credited: seq<JsString>, coins: seq<Coin>, x: Coin, chain: JsString)
    requires IsChain(chain) && IsChain(world.chainOf(x.txid, x.vout)) && Different(credited)
    ensures Uncached(world, credited, coins + [x], chain) == Uncached(world, credited, coins, chain)
      - if world.chainOf(x.txid, x.vout) == chain && KeyOf(world, x.txid, x.vout) in credited && !Cached(coins, x.txid, x.vout)
        then world.valueOf(x.txid, x.vout) else 0
  {
    GrownBy(coins, x);
    UncachedGrownTo(world, credited, |credited|, coins, coins + [x], x.txid, x.vout, chain);
    MissingOf(world, coins, chain, x.txid, x.vout);
    assert credited[..|credited|] == credited;
  }

  lemma UnitInjective(c: JsString, d: JsString)
    requires IsChain(c) && IsChain(d) && UnitOf(c) == UnitOf(d)
    ensures c == d
  {
    assert |U("tbtc3")| == 5 && |U("tbtc4")| == 5 && |U("btc")| == 3 && |U("ltc")| == 3 && |U("signet")| == 6;
    assert U("ltc")[0] == 108 && SAT[0] == 115;
  }

  // ---------- one scan ----------

  /** What the scan in progress has done to sums and keys, on one chain. */
  ghost predicate InStep(world: Chains, d: Disk, w: Work, chain: JsString) {
    var unit := UnitOf(chain);
    var start := Total(d.ledger.entries, unit);
    var owed := Total(w.entries, unit);
    && owed - Unspent(w.utxos, chain) - Uncached(world, w.credited, w.utxos, chain)
       == start - Unspent(d.utxos, chain) - Uncached(world, d.ledger.credited, d.utxos, chain)
    && owed - Uncached(world, w.credited, d.utxos, chain) == start - Uncached(world, d.ledger.credited, d.utxos, chain)
    && owed - Unspent(w.utxos, chain) - Uncached(world, d.ledger.credited, w.utxos, chain)
       == start - Unspent(d.utxos, chain) - Uncached(world, d.ledger.credited, d.utxos, chain)
    && start <= owed <= start + w.total
    && (!w.appended ==> w.utxos == d.utxos && w.total == 0)
  }

  /** New keys are of cached outpoints, and nothing cached is forgotten. */
  ghost predicate KeysKept(world: Chains, d: Disk, w: Work) {
    && Different(w.credited) && Different(d.ledger.credited)
    && (forall key :: key in d.ledger.credited ==> key in w.credited)
    && (forall t, v: nat :: Cached(d.utxos, t, v) ==> Cached(w.utxos, t, v))
    && (forall t, v: nat :: NewKey(world, d, w, t, v) ==> Cached(w.utxos, t, v))
  }

  lemma WriteKeepsLedger(u: Pool.Units, e: Entries, did: JsString, n: int, c: JsString)
    requires Pool.UnitsOk(u) && Pool.LedgerOk(u, e) && c != NO_CURRENCY && (c == u.a || c == u.b ==> n >= 0)
    ensures Pool.LedgerOk(u, WithBalance(e, did, n, c))
  {
    Laws.WriteDistinct(e, did, n, c);
    forall v ensures BalanceOf(WithBalance(e, did, n, c), v, u.a) >= 0 && BalanceOf(WithBalance(e, did, n, c), v, u.b) >= 0 {
      NamedReadOverNamedWrite(e, did, n, c, v, u.a);
      NamedReadOverNamedWrite(e, did, n, c, v, u.b);
    }
  }

  lemma CreditKeepsLedger(u: Pool.Units, e: Entries, did: JsString, chain: JsString, value: nat)
    requires Pool.UnitsOk(u) && Pool.LedgerOk(u, e) && IsChain(chain)
    ensures Pool.LedgerOk(u, WithBalance(e, did, BalanceOf(e, did, UnitOf(chain)) + value, UnitOf(chain)))
  {
    ChainText(chain);
    WriteKeepsLedger(u, e, did, BalanceOf(e, did, UnitOf(chain)) + value, UnitOf(chain));
  }

  ghost predicate NewKey(world: Chains, d: Disk, w: Work, txid: JsString, vout: nat) {
    IsChain(world.chainOf(txid, vout)) && KeyOf(world, txid, vout) in w.credited && KeyOf(world, txid, vout) !in d.ledger.credited
  }

  lemma SeeOneKeys(world: Chains, d: Disk, w: Work, chain: JsString, did: JsString, u: Seen)
    requires KeysKept(world, d, w) && Honest(world, chain, u)
    ensures KeysKept(world, d, SeeOne(w, chain, did, u))
  {
    var r := SeeOne(w, chain, did, u);
    if !Cached(w.utxos, u.txid, u.vout) {
      var x := Coin(u.txid, u.vout, u.value, u.script, chain, did, false);
      forall t, v: nat ensures Cached(r.utxos, t, v) <==> Cached(w.utxos, t, v) || (u.txid == t && u.vout == v) {
        CachedSnoc(w.utxos, x, t, v);
      }
      forall t, v: nat | NewKey(world, d, r, t, v) ensures Cached(r.utxos, t, v) {
        if !NewKey(world, d, w, t, v) {
          KeyInjective(world.chainOf(t, v), t, v, chain, u.txid, u.vout);
        }
      }
    }
  }

  /** A coin whose outpoint was credited before the scan, by one that crashed. */
  lemma CachedLater(world: Chains, d: Disk, w: Work, chain: JsString, x: Coin, r: Work)
    requires IsChain(chain) && InStep(world, d, w, chain) && KeysKept(world, d, w)
    requires IsChain(x.chain) && world.chainOf(x.txid, x.vout) == x.chain && world.valueOf(x.txid, x.vout) == x.amount && !x.spent
    requires !Cached(w.utxos, x.txid, x.vout) && KeyOf(world, x.txid, x.vout) in w.credited
    requires r == w.(utxos := w.utxos + [x], appended := true)
    ensures InStep(world, d, r, chain)
  {
    assert !NewKey(world, d, w, x.txid, x.vout);
    UnspentSnoc(w.utxos, x, chain);
    UncachedCoin(world, w.credited, w.utxos, x, chain);
    UncachedCoin(world, d.ledger.credited, w.utxos, x, chain);
  }

  /** What a credit adds to the sum of the chain's unit. */
  lemma OwedAfterCredit(e: Entries, did: JsString, at: JsString, value: nat, chain: JsString)
    requires IsChain(chain) && IsChain(at)
    ensures Total(WithBalance(e, did, BalanceOf(e, did, UnitOf(at)) + value, UnitOf(at)), UnitOf(chain)) ==
            Total(e, UnitOf(chain)) + if at == chain then value else 0
  {
    ChainText(chain);
    ChainText(at);
    TotalAfterWrite(e, did, BalanceOf(e, did, UnitOf(at)) + value, UnitOf(at), UnitOf(chain));
    if UnitOf(at) == UnitOf(chain) {
      UnitInjective(at, chain);
    }
  }

  /** What a new key adds to the credits no coin stands for yet. */
  lemma UncachedNewKey(world: Chains, credited: seq<JsString>, coins: seq<Coin>, txid: JsString, vout: nat, chain: JsString)
    requires IsChain(chain) && IsChain(world.chainOf(txid, vout))
    ensures Uncached(world, credited + [KeyOf(world, txid, vout)], coins, chain) == Uncached(world, credited, coins, chain)
      + if world.chainOf(txid, vout) == chain && !Cached(coins, txid, vout) then world.valueOf(txid, vout) else 0
  {
    UncachedKey(world, credited, KeyOf(world, txid, vout), coins, chain);
    MissingOf(world, coins, chain, txid, vout);
  }

  /** A coin credited and cached by the scan. */
  lemma CreditedNow(world: Chains, d: Disk, w: Work, chain: JsString, did: JsString, x: Coin, r: Work)
    requires IsChain(chain) && InStep(world, d, w, chain) && KeysKept(world, d, w)
    requires IsChain(x.chain) && world.chainOf(x.txid, x.vout) == x.chain && world.valueOf(x.txid, x.vout) == x.amount && !x.spent
    requires !Cached(w.utxos, x.txid, x.vout) && KeyOf(world, x.txid, x.vout) !in w.credited
    requires r.utxos == w.utxos + [x] && r.credited == w.credited + [KeyOf(world, x.txid, x.vout)]
    requires r.total == w.total + x.amount && r.appended
    requires r.entries == WithBalance(w.entries, did, BalanceOf(w.entries, did, UnitOf(x.chain)) + x.amount, UnitOf(x.chain))
    ensures InStep(world, d, r, chain)
  {
    OwedAfterCredit(w.entries, did, x.chain, x.amount, chain);
    UnspentSnoc(w.utxos, x, chain);
    UncachedCoin(world, w.credited, w.utxos, x, chain);
    UncachedCoin(world, d.ledger.credited, w.utxos, x, chain);
    CachedSnoc(w.utxos, x, x.txid, x.vout);
    UncachedNewKey(world, w.credited, r.utxos, x.txid, x.vout, chain);
    UncachedNewKey(world, w.credited, d.utxos, x.txid, x.vout, chain);
  }

  ghost predicate ScanOk(world: Chains, pair: Pool.Units, d: Disk, w: Work, chain: JsString) {
    IsChain(chain) && Pool.UnitsOk(pair) && InStep(world, d, w, chain) && KeysKept(world, d, w) && Pool.LedgerOk(pair, w.entries)
  }

  lemma SeeOneInStep(world: Chains, d: Disk, w: Work, chain: JsString, at: JsString, did: JsString, u: Seen)
    requires IsChain(chain) && InStep(world, d, w, chain) && KeysKept(world, d, w) && Honest(world, at, u)
    ensures InStep(world, d, SeeOne(w, at, did, u), chain)
  {
    var x := Coin(u.txid, u.vout, u.value, u.script, at, did, false);
    if Cached(w.utxos, u.txid, u.vout) {
    } else if Key(at, u.txid, u.vout) in w.credited {
      CachedLater(world, d, w, chain, x, SeeOne(w, at, did, u));
    } else {
      CreditedNow(world, d, w, chain, did, x, SeeOne(w, at, did, u));
    }
  }

  lemma SeeOneLedger(pair: Pool.Units, w: Work, at: JsString, did: JsString, u: Seen)
    requires IsChain(at) && Pool.UnitsOk(pair) && Pool.LedgerOk(pair, w.entries)
    ensures Pool.LedgerOk(pair, SeeOne(w, at, did, u).entries)
  {
    CreditKeepsLedger(pair, w.entries, did, at, u.value);
  }

  lemma SeeOneKeepsOk(world: Chains, pair: Pool.Units, d: Disk, w: Work, chain: JsString, at: JsString, did: JsString, u: Seen)
    requires ScanOk(world, pair, d, w, chain) && Honest(world, at, u)
    ensures ScanOk(world, pair, d, SeeOne(w, at, did, u), chain)
  {
    SeeOneKeys(world, d, w, at, did, u);
    SeeOneInStep(world, d, w, chain, at, did, u);
    SeeOneLedger(pair, w, at, did, u);
  }

  lemma {:induction false} SeeAllKeepsOk(world: Chains, pair: Pool.Units, d: Disk, w: Work, chain: JsString,
                                         at: JsString, did: JsString, outputs: seq<Seen>)
    requires ScanOk(world, pair, d, w, chain) && forall i :: 0 <= i < |outputs| ==> Honest(world, at, outputs[i])
    ensures ScanOk(world, pair, d, SeeAll(w, at, did, outputs), chain)
  {
    if outputs != [] {
      var n := |outputs| - 1;
      SeeAllKeepsOk(world, pair, d, w, chain, at, did, outputs[..n]);
      SeeOneKeepsOk(world, pair, d, SeeAll(w, at, did, outputs[..n]), chain, at, did, outputs[n]);
    }
  }

  lemma {:induction false} SeeChainsKeepsOk(world: Chains, pair: Pool.Units, d: Disk, w: Work, chain: JsString,
                                            did: JsString, answers: Answers)
    requires ScanOk(world, pair, d, w, chain) && Agrees(world, answers) && SeeChains(w, did, answers).Some?
    ensures ScanOk(world, pair, d, SeeChains(w, did, answers).value, chain)
  {
    if answers != [] {
      var n := |answers| - 1;
      SeeChainsKeepsOk(world, pair, d, w, chain, did, answers[..n]);
      if answers[n].1.Listed? {
        SeeAllKeepsOk(world, pair, d, SeeChains(w, did, answers[..n]).value, chain, answers[n].0, did, answers[n].1.outputs);
      }
    }
  }

  /** What the agents are owed in the chain's unit, less the unspent coins and the credits no coin stands for yet. */
  ghost function DiskGap(world: Chains, d: Disk, chain: JsString): int {
    Total(d.ledger.entries, UnitOf(chain)) - Unspent(d.utxos, chain) - Uncached(world, d.ledger.credited, d.utxos, chain)
  }

  /** The three ways the files can end up after a scan that was not given up. */
  lemma FilesAfterScan(world: Chains, d: Disk, w: Work, chain: JsString, r: Disk)
    requires InStep(world, d, w, chain) && KeysKept(world, d, w)
    requires r.utxos == d.utxos || r.utxos == w.utxos
    requires if w.total > 0 then r.ledger == LedgerFile(w.entries, w.credited) else r.ledger == d.ledger
    ensures DiskGap(world, r, chain) == DiskGap(world, d, chain) && Different(r.ledger.credited)
  {
  }

  /** A scan, wherever it crashes, moves neither side without the other. */
  lemma ScanKeepsGap(world: Chains, pair: Pool.Units, d: Disk, p: Poll, chain: JsString)
    requires IsChain(chain) && Agrees(world, p.answers) && Different(d.ledger.credited)
    requires Pool.UnitsOk(pair) && Pool.LedgerOk(pair, d.ledger.entries)
    ensures var r := Scanned(d, p.did, p.answers, p.crash);
      DiskGap(world, r, chain) == DiskGap(world, d, chain) && Different(r.ledger.credited) && Pool.LedgerOk(pair, r.ledger.entries)
  {
    if SeeChains(Opened(d), p.did, p.answers).Some? {
      SeeChainsKeepsOk(world, pair, d, Opened(d), chain, p.did, p.answers);
      var w := SeeChains(Opened(d), p.did, p.answers).value;
      if p.crash != BeforeWrites {
        FilesAfterScan(world, d, w, chain, Scanned(d, p.did, p.answers, p.crash));
      }
    }
  }

  // ---------- one claim, one withdrawal ----------

  /** A claim adds to both sides; an output that an interrupted scan had credited is thereby credited twice. */
  lemma ClaimMovesGap(world: Chains, pair: Pool.Units, d: Disk, did: JsString, at: JsString, txid: JsString, vout: nat,
                      found: Lookup, chain: JsString)
    requires IsChain(chain) && Different(d.ledger.credited) && Pool.UnitsOk(pair) && Pool.LedgerOk(pair, d.ledger.entries)
    requires ClaimHonest(world, at, txid, vout, found)
    ensures var (r, reply) := AfterClaim(d, did, at, txid, vout, found);
      && DiskGap(world, r, chain) == DiskGap(world, d, chain) + CreditedTwice(d, did, at, txid, vout, found, chain)
      && r.ledger.credited == d.ledger.credited && Pool.LedgerOk(pair, r.ledger.entries)
  {
    var (r, reply) := AfterClaim(d, did, at, txid, vout, found);
    if reply.Claimed? {
      var x := r.utxos[|d.utxos|];
      OwedAfterCredit(d.ledger.entries, did, at, found.value, chain);
      UnspentSnoc(d.utxos, x, chain);
      UncachedCoin(world, d.ledger.credited, d.utxos, x, chain);
      CreditKeepsLedger(pair, d.ledger.entries, did, at, found.value);
    }
  }

  ghost predicate ClaimHonest(world: Chains, at: JsString, txid: JsString, vout: nat, found: Lookup) {
    found.Found? && IsChain(at) ==> world.chainOf(txid, vout) == at && world.valueOf(txid, vout) == found.value
  }

  /** The value of an accepted claim for an output that has been credited under its key already. */
  function CreditedTwice(d: Disk, did: JsString, at: JsString, txid: JsString, vout: nat, found: Lookup, chain: JsString): nat {
    if at == chain && AfterClaim(d, did, at, txid, vout, found).1.Claimed? && Key(at, txid, vout) in d.ledger.credited
    then found.value else 0
  }

  /** The broadcast transaction is new: none of its outputs has been credited. */
  ghost predicate NewTransaction(world: Chains, credited: seq<JsString>, txid: JsString) {
    forall vout: nat :: KeyOf(world, txid, vout) !in credited
  }

  lemma MissingSame(world: Chains, a: seq<Coin>, b: seq<Coin>, chain: JsString, key: JsString)
    requires IsChain(chain) && forall t, v: nat :: Cached(a, t, v) <==> Cached(b, t, v)
    ensures Missing(world, a, chain, key) == Missing(world, b, chain, key)
  {
    if t, v: nat :| IsKeyOf(world, chain, key, t, v) {
      MissingOf(world, a, chain, t, v);
      MissingOf(world, b, chain, t, v);
    }
  }

  lemma {:induction false} UncachedSameTo(world: Chains, credited: seq<JsString>, n: nat, a: seq<Coin>, b: seq<Coin>, chain: JsString)
    requires IsChain(chain) && n <= |credited| && forall t, v: nat :: Cached(a, t, v) <==> Cached(b, t, v)
    ensures UncachedTo(world, credited, n, a, chain) == UncachedTo(world, credited, n, b, chain)
  {
    if n > 0 {
      UncachedSameTo(world, credited, n - 1, a, b, chain);
      MissingSame(world, a, b, chain, credited[n - 1]);
    }
  }

  /** Marking coins as spent and adding change takes in one outpoint at most, that of the change. */
  lemma PaidCached(coins: seq<Coin>, r: seq<Coin>, out: Spend.Outcome, txid: Option<JsString>)
    requires Spend.KeepsSpent(coins, r, out) && Spend.OnlyChangeIsNew(coins, r, txid)
    ensures |r| == |coins| ==> forall t, v: nat :: Cached(coins, t, v) <==> Cached(r, t, v)
    ensures |r| > |coins| ==> txid.Some? && Grown(coins, r, txid.value, 1)
  {
    forall t, v: nat | Cached(coins, t, v) ensures Cached(r, t, v) {
      var i :| 0 <= i < |coins| && coins[i].txid == t && coins[i].vout == v;
      assert Spend.StaysCoin(coins[i], r[i]);
    }
    forall t, v: nat | Cached(r, t, v)
      ensures Cached(coins, t, v) || (|r| > |coins| && txid == Some(t) && v == 1)
    {
      var i :| 0 <= i < |r| && r[i].txid == t && r[i].vout == v;
      if i < |coins| {
        assert Spend.StaysCoin(coins[i], r[i]);
      }
    }
    if |r| > |coins| {
      assert r[|coins|].txid == txid.value && r[|coins|].vout == 1;
    }
  }

  lemma PaidUncached(world: Chains, credited: seq<JsString>, coins: seq<Coin>, q: Spend.Request, chain: JsString)
    requires IsChain(chain) && q.amount > 0 && Different(credited)
    requires q.txid.Some? ==> NewTransaction(world, credited, q.txid.value)
    ensures Uncached(world, credited, Spend.Withdrawn(coins, q).0, chain) == Uncached(world, credited, coins, chain)
  {
    var (r, out) := Spend.Withdrawn(coins, q);
    Spend.WithdrawalKeepsSpent(coins, q);
    PaidCached(coins, r, out, q.txid);
    if |r| == |coins| {
      UncachedSameTo(world, credited, |credited|, coins, r, chain);
    } else {
      UncachedGrownTo(world, credited, |credited|, coins, r, q.txid.value, 1, chain);
    }
  }

  // ---------- the engine ----------

  datatype State = State(disk: Disk, pool: Option<Pool.Pool>)

  datatype Step =
    | Scan(p: Poll)
    | Claim(did: JsString, at: JsString, txid: JsString, vout: nat, found: Lookup)
    | Trade(did: JsString, action: Pool.Action)
    | Withdraw(did: JsString, at: JsString, amount: nat, sent: Option<JsString>, podScript: JsString)

  function FilesOf(s: State): Pool.Files {
    Pool.Files(s.disk.ledger.entries, s.pool)
  }

  /** What a withdrawal asks of the coins, given the balance it reads. */
  function RequestOf(s: State, step: Step): Spend.Request
    requires step.Withdraw?
  {
    Spend.Request(BalanceOf(s.disk.ledger.entries, step.did, UnitOf(step.at)), step.at, step.amount, step.sent, step.podScript)
  }

  predicate Asks(step: Step) {
    step.Withdraw? && IsChain(step.at) && step.amount > 0
  }

  function Next(pair: Pool.Units, s: State, step: Step): State
    requires Pool.Usable(s.pool)
  {
    match step
    case Scan(p) => s.(disk := Scanned(s.disk, p.did, p.answers, p.crash))
    case Claim(did, at, txid, vout, found) => s.(disk := AfterClaim(s.disk, did, at, txid, vout, found).0)
    case Trade(did, action) =>
      var files := Pool.Step(pair, FilesOf(s), did, action).0;
      State(s.disk.(ledger := s.disk.ledger.(entries := files.entries)), files.pool)
    case Withdraw(did, at, amount, _, _) =>
      if !Asks(step) then s
      else
        var (coins, out) := Spend.Withdrawn(s.disk.utxos, RequestOf(s, step));
        var entries := Spend.LedgerAfter(s.disk.ledger.entries, did, UnitOf(at), amount, out.Paid?);
        s.(disk := Disk(s.disk.ledger.(entries := entries), coins))
  }

  /** What the explorers and the network are taken to do. */
  ghost predicate Honestly(world: Chains, s: State, step: Step) {
    match step
    case Scan(p) => Agrees(world, p.answers)
    case Claim(_, at, txid, vout, found) => ClaimHonest(world, at, txid, vout, found)
    case Trade(_, _) => true
    case Withdraw(_, _, _, sent, _) => sent.Some? ==> NewTransaction(world, s.disk.ledger.credited, sent.value)
  }

  ghost predicate Orderly(pair: Pool.Units, s: State) {
    Pool.Sound(pair, FilesOf(s)) && Different(s.disk.ledger.credited)
  }

  /** What the pod owes in the chain's unit, to agents and to the pool, less what it holds or is about to cache. */
  ghost function Gap(world: Chains, pair: Pool.Units, s: State, chain: JsString): int {
    DiskGap(world, s.disk, chain) + Laws.Reserve(pair, s.pool, UnitOf(chain))
  }

  /** The step is a withdrawal on this chain, and it is paid. */
  predicate Pays(s: State, step: Step, chain: JsString) {
    Asks(step) && step.at == chain && Spend.Withdrawn(s.disk.utxos, RequestOf(s, step)).1.Paid?
  }

  function Twice(s: State, step: Step, chain: JsString): nat {
    if step.Claim? then CreditedTwice(s.disk, step.did, step.at, step.txid, step.vout, step.found, chain) else 0
  }

  lemma TradeKeepsGap(world: Chains, pair: Pool.Units, s: State, step: Step, chain: JsString)
    requires step.Trade? && IsChain(chain) && Orderly(pair, s)
    ensures Gap(world, pair, Next(pair, s, step), chain) == Gap(world, pair, s, chain) && Orderly(pair, Next(pair, s, step))
  {
    ChainText(chain);
    Laws.StepConserves(pair, FilesOf(s), step.did, step.action, UnitOf(chain));
    Laws.StepKeepsSound(pair, FilesOf(s), step.did, step.action);
  }

  lemma WithdrawKeepsOrder(pair: Pool.Units, s: State, step: Step)
    requires Asks(step) && Orderly(pair, s)
    ensures Orderly(pair, Next(pair, s, step))
  {
    var q, e, unit := RequestOf(s, step), s.disk.ledger.entries, UnitOf(step.at);
    ChainText(step.at);
    Spend.PaidIsCovered(s.disk.utxos, q);
    if Spend.Withdrawn(s.disk.utxos, q).1.Paid? {
      WriteKeepsLedger(pair, e, step.did, q.balance - q.amount, unit);
    }
  }

  /** What a withdrawal takes from the coins and from what is owed. */
  lemma WithdrawSums(s: State, step: Step, chain: JsString) returns (lost: nat)
    requires Asks(step) && IsChain(chain)
    ensures lost <= 546
    ensures var (coins, out) := Spend.Withdrawn(s.disk.utxos, RequestOf(s, step));
      var entries := Spend.LedgerAfter(s.disk.ledger.entries, step.did, UnitOf(step.at), step.amount, out.Paid?);
      var amount := if out.Paid? && step.at == chain then step.amount else 0;
      && Total(entries, UnitOf(chain)) == Total(s.disk.ledger.entries, UnitOf(chain)) - amount
      && Unspent(coins, chain) == Unspent(s.disk.utxos, chain) - if out.Paid? && step.at == chain then step.amount + 300 + lost else 0
  {
    ChainText(chain);
    ChainText(step.at);
    if UnitOf(step.at) == UnitOf(chain) {
      UnitInjective(step.at, chain);
    }
    lost := Spend.WithdrawalTakes(s.disk.utxos, RequestOf(s, step), chain);
    Spend.WithdrawalDebits(s.disk.utxos, RequestOf(s, step), s.disk.ledger.entries, step.did, UnitOf(step.at), UnitOf(chain));
  }

  /** A paid withdrawal takes more from the coins than from what is owed: the fee, and what the change falls short of dust. */
  lemma WithdrawMovesGap(world: Chains, pair: Pool.Units, s: State, step: Step, chain: JsString)
    requires Asks(step) && IsChain(chain) && Orderly(pair, s) && Honestly(world, s, step)
    ensures var r := Next(pair, s, step);
      if Pays(s, step, chain) then Gap(world, pair, s, chain) + 300 <= Gap(world, pair, r, chain) <= Gap(world, pair, s, chain) + 846
      else Gap(world, pair, r, chain) == Gap(world, pair, s, chain)
  {
    var lost := WithdrawSums(s, step, chain);
    PaidUncached(world, s.disk.ledger.credited, s.disk.utxos, RequestOf(s, step), chain);
  }

  function PaidAt(s: State, step: Step, chain: JsString): nat {
    if Pays(s, step, chain) then 1 else 0
  }

  /** From one gap to the next, given how many withdrawals were paid and what was credited twice. */
  predicate Moves(before: int, after: int, paid: nat, twice: nat) {
    before + 300 * paid + twice <= after <= before + 846 * paid + twice
  }

  lemma MovesOn(a: int, b: int, c: int, paid: nat, more: nat, twice: nat, again: nat)
    requires Moves(a, b, paid, twice) && Moves(b, c, more, again)
    ensures Moves(a, c, paid + more, twice + again)
  {
  }

  /**
   Each step moves what is owed and what is held together, except that a paid withdrawal leaves 300 to
   846 more owed than held, and a claim of an output already credited all of its value.
   */
  lemma StepMovesGap(world: Chains, pair: Pool.Units, s: State, step: Step, chain: JsString)
    requires IsChain(chain) && Orderly(pair, s) && Honestly(world, s, step)
    ensures var r := Next(pair, s, step);
      && Orderly(pair, r)
      && Moves(Gap(world, pair, s, chain), Gap(world, pair, r, chain), PaidAt(s, step, chain), Twice(s, step, chain))
  {
    match step
    case Scan(p) => ScanKeepsGap(world, pair, s.disk, p, chain);
    case Claim(did, at, txid, vout, found) => ClaimMovesGap(world, pair, s.disk, did, at, txid, vout, found, chain);
    case Trade(_, _) => TradeKeepsGap(world, pair, s, step, chain);
    case Withdraw(_, _, _, _, _) =>
      if Asks(step) {
        WithdrawKeepsOrder(pair, s, step);
        WithdrawMovesGap(world, pair, s, step, chain);
      }
  }

  /**
   A scan that crashes between its two writes has credited an output and not cached it. A claim of that
   output then credits it again, as the scan's own repetition would not.
   */
  lemma ClaimAfterCrash(did: JsString, txid: JsString)
    ensures var u, chain := Seen(txid, 0, 1000, []), U("tbtc4");
      var crashed := Scanned(Disk(LedgerFile([], []), []), did, [(chain, Listed([u]))], BetweenWrites);
      var (claimed, reply) := AfterClaim(crashed, did, chain, txid, 0, Found(1000, [], UserAddress));
      && BalanceOf(crashed.ledger.entries, did, chain) == 1000 && crashed.utxos == []
      && reply == Claimed(2000) && Unspent(claimed.utxos, chain) == 1000
      && CreditedTwice(crashed, did, chain, txid, 0, Found(1000, [], UserAddress), chain) == 1000
      && Scanned(crashed, did, [(chain, Listed([u]))], NoCrash).ledger == crashed.ledger
  {
    var u, chain := Seen(txid, 0, 1000, []), U("tbtc4");
    var empty := Disk(LedgerFile([], []), []);
    OneOutput(empty, did, chain, u);
    var crashed := Scanned(empty, did, [(chain, Listed([u]))], BetweenWrites);
    assert UnitOf(chain) == chain by {
      assert |chain| == 5 && |U("btc")| == 3;
    }
    ChainText(chain);
    NamedReadOverNamedWrite([], did, 1000, chain, did, chain);
    OneOutput(crashed, did, chain, u);
    UnspentSnoc([], Coin(txid, 0, 1000, [], chain, did, false), chain);
  }

  // ---------- runs ----------

  /** The states of a run, each made from the one before by its step. */
  ghost predicate IsRun(world: Chains, pair: Pool.Units, states: seq<State>, steps: seq<Step>) {
    && |states| == |steps| + 1 && Orderly(pair, states[0])
    && forall k :: 0 <= k < |steps| ==> RunStep(world, pair, states[k], steps[k], states[k + 1])
  }

  ghost predicate RunStep(world: Chains, pair: Pool.Units, s: State, step: Step, r: State) {
    Pool.Usable(s.pool) && Honestly(world, s, step) && r == Next(pair, s, step)
  }

  /** How many of the first `n` steps are withdrawals paid on the chain. */
  function PaidTo(states: seq<State>, steps: seq<Step>, n: nat, chain: JsString): nat
    requires n <= |steps| < |states|
  {
    if n == 0 then 0 else PaidTo(states, steps, n - 1, chain) + PaidAt(states[n - 1], steps[n - 1], chain)
  }

  /** The value of outputs that the first `n` steps credited a second time. */
  function TwiceTo(states: seq<State>, steps: seq<Step>, n: nat, chain: JsString): nat
    requires n <= |steps| < |states|
  {
    if n == 0 then 0 else TwiceTo(states, steps, n - 1, chain) + Twice(states[n - 1], steps[n - 1], chain)
  }

  lemma RunStepMovesGap(world: Chains, pair: Pool.Units, first: State, s: State, step: Step, r: State, chain: JsString, paid: nat, twice: nat)
    requires IsChain(chain) && Orderly(pair, s) && RunStep(world, pair, s, step, r)
    requires Moves(Gap(world, pair, first, chain), Gap(world, pair, s, chain), paid, twice)
    ensures Orderly(pair, r)
    ensures Moves(Gap(world, pair, first, chain), Gap(world, pair, r, chain), paid + PaidAt(s, step, chain), twice + Twice(s, step, chain))
  {
    StepMovesGap(world, pair, s, step, chain);
    MovesOn(Gap(world, pair, first, chain), Gap(world, pair, s, chain), Gap(world, pair, r, chain),
      paid, PaidAt(s, step, chain), twice, Twice(s, step, chain));
  }

  /**
   Over any run, with scans crashing anywhere, what is owed on a chain beyond what is held grows by 300 to
   846 for each withdrawal paid, by the outputs credited twice, and by nothing else.
   */
  lemma {:induction false} RunMovesGap(world: Chains, pair: Pool.Units, states: seq<State>, steps: seq<Step>, n: nat, chain: JsString)
    requires IsChain(chain) && IsRun(world, pair, states, steps) && n <= |steps|
    ensures Orderly(pair, states[n])
    ensures Moves(Gap(world, pair, states[0], chain), Gap(world, pair, states[n], chain),
                  PaidTo(states, steps, n, chain), TwiceTo(states, steps, n, chain))
  {
    if n > 0 {
      RunMovesGap(world, pair, states, steps, n - 1, chain);
      assert RunStep(world, pair, states[n - 1], steps[n - 1], states[n - 1 + 1]);
      RunStepMovesGap(world, pair, states[0], states[n - 1], steps[n - 1], states[n], chain,
        PaidTo(states, steps, n - 1, chain), TwiceTo(states, steps, n - 1, chain));
    }
  }
}
