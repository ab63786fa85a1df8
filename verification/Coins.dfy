/**
 The UTXO file of the pay handler (src/handlers/pay.js): the coins the pod can spend, as scans, claims
 and withdrawals write them.
 */
module Coins {
  import opened JsText

  /** An output that pays the pod; the tweak is empty when its own key spends it. */
  datatype Coin = Coin(txid: JsString, vout: nat, amount: nat, scriptpubkey: JsString, chain: JsString, tweak: JsString, spent: bool)

  const NO_TWEAK: JsString := []

  predicate Cached(coins: seq<Coin>, txid: JsString, vout: nat) {
    exists i :: 0 <= i < |coins| && coins[i].txid == txid && coins[i].vout == vout
  }

  lemma CachedSnoc(coins: seq<Coin>, x: Coin, txid: JsString, vout: nat)
    ensures Cached(coins + [x], txid, vout) <==> Cached(coins, txid, vout) || (x.txid == txid && x.vout == vout)
  {
    var more := coins + [x];
    if i :| 0 <= i < |coins| && coins[i].txid == txid && coins[i].vout == vout {
      assert more[i] == coins[i];
    }
    assert more[|coins|] == x;
  }

  /** The value of the unspent coins of a chain among the first `n`. */
  function UnspentTo(coins: seq<Coin>, n: nat, chain: JsString): nat
    requires n <= |coins|
  {
    if n == 0 then 0
    else UnspentTo(coins, n - 1, chain) + if coins[n - 1].chain == chain && !coins[n - 1].spent then coins[n - 1].amount else 0
  }

  function Unspent(coins: seq<Coin>, chain: JsString): nat {
    UnspentTo(coins, |coins|, chain)
  }

  lemma {:induction false} UnspentFront(coins: seq<Coin>, c: Coin, n: nat, chain: JsString)
    requires n <= |coins|
    ensures UnspentTo(coins + [c], n, chain) == UnspentTo(coins, n, chain)
  {
    if n > 0 {
      UnspentFront(coins, c, n - 1, chain);
    }
  }

  lemma UnspentSnoc(coins: seq<Coin>, c: Coin, chain: JsString)
    ensures Unspent(coins + [c], chain) == Unspent(coins, chain) + if c.chain == chain && !c.spent then c.amount else 0
  {
    UnspentFront(coins, c, |coins|, chain);
  }
}
