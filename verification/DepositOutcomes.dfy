/**
 What the deposit requests of src/handlers/pay.js leave in the two files, said by what was asked and answered.
 */
module DepositOutcomes {
  import opened JsText
  import opened OrderedMap
  import opened WebLedger
  import opened Coins
  import opened DepositScan
  import TokenBalances

  // ---------- the coins a scan caches ----------

  /** The coin is the listed output, on the chain asked, spendable with the agent's key, unspent. */
  predicate CoinOf(c: Coin, u: Seen, chain: JsString, did: JsString) {
    && c.txid == u.txid && c.vout == u.vout && c.amount == u.value && c.scriptpubkey == u.script
    && c.chain == chain && c.tweak == did && !c.spent
  }

  ghost predicate ListedCoin(c: Coin, did: JsString, answers: Answers) {
    exists a, i :: 0 <= a < |answers| && answers[a].1.Listed? && 0 <= i < |answers[a].1.outputs|
      && CoinOf(c, answers[a].1.outputs[i], answers[a].0, did)
  }

  /** The coins there were, then coins the answers list, no outpoint twice. */
  ghost predicate Grown(before: seq<Coin>, after: seq<Coin>, did: JsString, answers: Answers) {
    && |before| <= |after| && after[..|before|] == before
    && forall k :: |before| <= k < |after| ==> NewCoin(after, k, did, answers)
  }

  ghost predicate NewCoin(coins: seq<Coin>, k: nat, did: JsString, answers: Answers)
    requires k < |coins|
  {
    ListedCoin(coins[k], did, answers) && !Cached(coins[..k], coins[k].txid, coins[k].vout)
  }

  lemma GrownSnoc(before: seq<Coin>, after: seq<Coin>, c: Coin, did: JsString, answers: Answers)
    requires Grown(before, after, did, answers) && ListedCoin(c, did, answers) && !Cached(after, c.txid, c.vout)
    ensures Grown(before, after + [c], did, answers)
  {
    var more := after + [c];
    assert more[..|before|] == after[..|before|];
    forall k | |before| <= k < |more| ensures NewCoin(more, k, did, answers) {
      if k < |after| {
        assert NewCoin(after, k, did, answers);
        assert more[..k] == after[..k];
      } else {
        assert more[..k] == after;
      }
    }
  }

  lemma GrownLonger(before: seq<Coin>, after: seq<Coin>, did: JsString, answers: Answers, n: nat)
    requires n <= |answers| && Grown(before, after, did, answers[..n])
    ensures Grown(before, after, did, answers)
  {
    forall k | |before| <= k < |after| ensures NewCoin(after, k, did, answers) {
      assert NewCoin(after, k, did, answers[..n]);
      var a, i :| 0 <= a < n && answers[..n][a].1.Listed? && 0 <= i < |answers[..n][a].1.outputs|
        && CoinOf(after[k], answers[..n][a].1.outputs[i], answers[..n][a].0, did);
      assert CoinOf(after[k], answers[a].1.outputs[i], answers[a].0, did);
    }
  }

  lemma {:induction false} SeeAllGrows(before: seq<Coin>, w: Work, did: JsString, answers: Answers, a: nat, outputs: seq<Seen>)
    requires a < |answers| && answers[a].1.Listed? && outputs <= answers[a].1.outputs
    requires Grown(before, w.utxos, did, answers)
    ensures Grown(before, SeeAll(w, answers[a].0, did, outputs).utxos, did, answers)
  {
    if outputs != [] {
      var n := |outputs| - 1;
      var r, u := SeeAll(w, answers[a].0, did, outputs[..n]), outputs[n];
      SeeAllGrows(before, w, did, answers, a, outputs[..n]);
      if !Cached(r.utxos, u.txid, u.vout) {
        var c := Coin(u.txid, u.vout, u.value, u.script, answers[a].0, did, false);
        assert answers[a].1.outputs[n] == u && CoinOf(c, answers[a].1.outputs[n], answers[a].0, did);
        GrownSnoc(before, r.utxos, c, did, answers);
      }
    }
  }

  lemma {:induction false} SeeChainsGrows(w: Work, did: JsString, answers: Answers)
    requires SeeChains(w, did, answers).Some?
    ensures Grown(w.utxos, SeeChains(w, did, answers).value.utxos, did, answers)
  {
    if answers != [] {
      var n := |answers| - 1;
      var r := SeeChains(w, did, answers[..n]);
      SeeChainsGrows(w, did, answers[..n]);
      GrownLonger(w.utxos, r.value.utxos, did, answers, n);
      if answers[n].1.Listed? {
        SeeAllGrows(w.utxos, r.value, did, answers, n, answers[n].1.outputs);
      }
    }
  }

  /** A scan only adds coins, and each is an output listed for the agent, with its value, script and chain. */
  lemma ScanCaches(d: Disk, did: JsString, answers: Answers, crash: Crash)
    ensures Grown(d.utxos, Scanned(d, did, answers, crash).utxos, did, answers)
  {
    if SeeChains(Opened(d), did, answers).Some? {
      SeeChainsGrows(Opened(d), did, answers);
    }
  }

  /** Over any run of scans, every coin is one of the first or an output listed for the agent of a poll. */
  lemma {:induction false} RunCaches(d: Disk, polls: seq<Poll>, k: nat)
    requires k < |Run(d, polls).utxos|
    ensures k < |d.utxos| ==> Run(d, polls).utxos[k] == d.utxos[k]
    ensures k >= |d.utxos| ==> exists p :: 0 <= p < |polls| && ListedCoin(Run(d, polls).utxos[k], polls[p].did, polls[p].answers)
  {
    if polls != [] {
      var n := |polls| - 1;
      var p, before, after := polls[n], Run(d, polls[..n]).utxos, Run(d, polls).utxos;
      ScanCaches(Run(d, polls[..n]), p.did, p.answers, p.crash);
      if k < |before| {
        RunCaches(d, polls[..n], k);
        assert after[k] == after[..|before|][k] == before[k];
      } else {
        assert NewCoin(after, k, p.did, p.answers);
        RunKeepsCoins(d, polls[..n]);
      }
    }
  }

  lemma {:induction false} RunKeepsCoins(d: Disk, polls: seq<Poll>)
    ensures |d.utxos| <= |Run(d, polls).utxos|
  {
    if polls != [] {
      var n := |polls| - 1;
      RunKeepsCoins(d, polls[..n]);
      ScanCaches(Run(d, polls[..n]), polls[n].did, polls[n].answers, polls[n].crash);
    }
  }

  // ---------- keys and units ----------

  lemma KeyText(txid: JsString)
    ensures Key(U("btc"), txid, 7) == U("btc:") + txid + U(":7")
  {
  }

  /** The currency an output of the chain is credited in. */
  function Currency(chain: JsString): JsString {
    if chain == U("btc") then U("sat") else chain
  }

  // ---------- what a claim answers and leaves ----------

  predicate Known(coins: seq<Coin>, txid: JsString, vout: nat) {
    exists i :: 0 <= i < |coins| && coins[i].txid == txid && coins[i].vout == vout
  }

  /** The claimant's balance in the currency rises by the value, and no other named balance changes. */
  ghost predicate OnlyRises(before: Entries, after: Entries, did: JsString, currency: JsString, value: int) {
    forall who, c {:trigger BalanceOf(after, who, c)} :: c != U("satoshi") && c != NO_CURRENCY ==>
      BalanceOf(after, who, c) == BalanceOf(before, who, c) + if who == did && c == currency then value else 0
  }

  /** A claim succeeds exactly for an output of a known chain that pays the agent or the pod and is not known yet. */
  lemma ClaimOutcome(d: Disk, did: JsString, chain: JsString, txid: JsString, vout: nat, found: Lookup)
    ensures var (after, reply) := AfterClaim(d, did, chain, txid, vout, found);
      && (reply.Claimed? <==> IsChain(chain) && found.Found? && found.payee != Elsewhere && !Known(d.utxos, txid, vout))
      && (reply.Rejected? ==>
            && after == d
            && reply.code == (if (if IsChain(chain) then found.LookupFails? else TokenBalances.Inherited(chain)) then 502 else 400))
      && (reply.Claimed? ==>
            && after.ledger.credited == d.ledger.credited
            && OnlyRises(d.ledger.entries, after.ledger.entries, did, Currency(chain), found.value)
            && reply.balance == BalanceOf(after.ledger.entries, did, Currency(chain))
            && |after.utxos| == |d.utxos| + 1 && after.utxos[..|d.utxos|] == d.utxos
            && CoinOf(after.utxos[|d.utxos|], Seen(txid, vout, found.value, found.script), chain,
                      if found.payee == UserAddress then did else []))
  {
    var (after, reply) := AfterClaim(d, did, chain, txid, vout, found);
    if reply.Claimed? {
      ChainText(chain);
      ClaimRises(d.ledger.entries, did, UnitOf(chain), found.value);
    }
  }

  lemma ClaimRises(entries: Entries, did: JsString, currency: JsString, value: int)
    requires currency != NO_CURRENCY && currency != SATOSHI
    ensures OnlyRises(entries, WithBalance(entries, did, BalanceOf(entries, did, currency) + value, currency), did, currency, value)
  {
    var n := BalanceOf(entries, did, currency) + value;
    forall who, c | c != SATOSHI && c != NO_CURRENCY
      ensures BalanceOf(WithBalance(entries, did, n, currency), who, c) ==
        BalanceOf(entries, who, c) + if who == did && c == currency then value else 0
    {
      NamedReadOverNamedWrite(entries, did, n, currency, who, c);
    }
  }
}
