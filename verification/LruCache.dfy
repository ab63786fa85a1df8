/**
 Bounded caches with a lifetime: resolved did:nostr keys (src/auth/did-nostr.js) and CID documents
 (src/auth/cid-doc-fetch.js). Both keep a `Map` in insertion order, move an entry to the end when it is
 used, and drop from the front.
 */
module LruCache {
  import opened JsText
  import opened OrderedMap

  /** An answer and when it was computed; failures live shorter. */
  datatype Entry<V> = Entry(answer: V, timestamp: int, failure: bool)

  type Cache<V> = Pairs<JsString, Entry<V>>

  datatype Limits = Limits(ttl: int, failureTtl: int, max: nat)

  const DID_LIMITS := Limits(300_000, 60_000, 10_000)
  const CID_LIMITS := Limits(300_000, 60_000, 1_000)

  // ---------- the operations as functions ----------

  predicate Fresh<V>(lim: Limits, now: int, e: Entry<V>) {
    now - e.timestamp < if e.failure then lim.failureTtl else lim.ttl
  }

  function Trim<V>(c: Cache<V>, max: nat): Cache<V> {
    if |c| <= max then c else c[|c| - max..]
  }

  /** `setCacheEntry`: delete, insert at the end, drop from the front. */
  function Touched<V>(lim: Limits, c: Cache<V>, k: JsString, e: Entry<V>): Cache<V> {
    Trim(Drop(c, k) + [(k, e)], lim.max)
  }

  /** `setCached`: without the delete an entry already there keeps its place. */
  function SetInPlace<V>(lim: Limits, c: Cache<V>, k: JsString, e: Entry<V>): Cache<V> {
    Trim(Put(c, k, e), lim.max)
  }

  predicate Hit<V>(lim: Limits, c: Cache<V>, now: int, k: JsString) {
    Get(c, k).Some? && Fresh(lim, now, Get(c, k).value)
  }

  /** A lookup: a fresh entry is served and moved to the end, a stale one deleted. */
  function LookedUp<V>(lim: Limits, c: Cache<V>, now: int, k: JsString): Cache<V> {
    if Hit(lim, c, now, k) then Touched(lim, c, k, Get(c, k).value) else Drop(c, k)
  }

  // ---------- the code ----------

  class Resolver<V> {
    const limits: Limits
    var cache: Cache<V>

    /** The loop that bounds both caches. */
    method Evict()
      modifies this
      ensures cache == Trim(old(cache), limits.max)
    {
      while |cache| > limits.max
        invariant |cache| <= |old(cache)| && cache == old(cache)[|old(cache)| - |cache|..]
        invariant |old(cache)| > limits.max ==> |cache| >= limits.max
        invariant |old(cache)| <= limits.max ==> cache == old(cache)
      {
        var oldest := cache[0].0;
        cache := Drop(cache, oldest);
      }
    }

    method SetCacheEntry(key: JsString, entry: Entry<V>)
      requires Distinct(cache)
      modifies this
      ensures cache == Touched(limits, old(cache), key, entry)
    {
      DropKeys(cache, key);
      if Has(cache, key) {
        cache := Drop(cache, key);
      }
      PutKeys(cache, key, entry);
      cache := Put(cache, key, entry);
      Evict();
    }

    method SetCached(url: JsString, entry: Entry<V>)
      modifies this
      ensures cache == SetInPlace(limits, old(cache), url, entry)
    {
      cache := Put(cache, url, entry);
      Evict();
    }

    /** The cached part of `resolveDidNostrToWebId`. */
    method Lookup(now: int, key: JsString) returns (answer: Option<V>)
      requires Distinct(cache)
      modifies this
      ensures cache == LookedUp(limits, old(cache), now, key)
      ensures answer == if Hit(limits, old(cache), now, key) then Some(Get(old(cache), key).value.answer) else None
    {
      var cached := Get(cache, key);
      DropKeys(cache, key);
      HasIsMember(cache, key);
      if cached.Some? {
        var ttl := if cached.value.failure then limits.failureTtl else limits.ttl;
        if now - cached.value.timestamp < ttl {
          SetCacheEntry(key, cached.value);
          return Some(cached.value.answer);
        }
        cache := Drop(cache, key);
      }
      return None;
    }

    /** The cached part of `fetchCidDocument`: a hit is deleted and set again. */
    method LookupCid(now: int, url: JsString) returns (answer: Option<V>)
      requires Distinct(cache) && |cache| <= limits.max
      modifies this
      ensures cache == LookedUp(limits, old(cache), now, url)
      ensures answer == if Hit(limits, old(cache), now, url) then Some(Get(old(cache), url).value.answer) else None
    {
      var cached := Get(cache, url);
      DropKeys(cache, url);
      HasIsMember(cache, url);
      if cached.Some? {
        var ttl := if cached.value.failure then limits.failureTtl else limits.ttl;
        if now - cached.value.timestamp < ttl {
          cache := Drop(cache, url);
          PutKeys(cache, url, cached.value);
          cache := Put(cache, url, cached.value);
          return Some(cached.value.answer);
        }
        cache := Drop(cache, url);
      }
      return None;
    }
  }

  // ---------- runs of lookups and stores, overlapping at will ----------

  /** A lookup, or the answer of a lookup that missed, stored with the time it is stored at. */
  datatype Step<V> = Lookup(now: int, key: JsString) | Store(now: int, key: JsString, answer: V, failure: bool)

  function EntryOf<V>(step: Step<V>): Entry<V>
    requires step.Store?
  {
    Entry(step.answer, step.now, step.failure)
  }

  function After<V>(lim: Limits, steps: seq<Step<V>>): Cache<V> {
    if steps == [] then []
    else
      var before, last := After(lim, steps[..|steps| - 1]), steps[|steps| - 1];
      if last.Lookup? then LookedUp(lim, before, last.now, last.key) else Touched(lim, before, last.key, EntryOf(last))
  }

  predicate Touches<V>(lim: Limits, before: Cache<V>, step: Step<V>, k: JsString) {
    step.key == k && (step.Store? || Hit(lim, before, step.now, k))
  }

  /** The last step that stored the key or served it, -1 when there is none. */
  function LastTouch<V>(lim: Limits, steps: seq<Step<V>>, k: JsString): (r: int)
    ensures -1 <= r < |steps|
  {
    if steps == [] then -1
    else
      var n := |steps| - 1;
      if Touches(lim, After(lim, steps[..n]), steps[n], k) then n else LastTouch(lim, steps[..n], k)
  }

  /** What was stored for the key last. */
  function LastStored<V>(steps: seq<Step<V>>, k: JsString): Option<Entry<V>> {
    if steps == [] then None
    else
      var last := steps[|steps| - 1];
      if last.Store? && last.key == k then Some(EntryOf(last)) else LastStored(steps[..|steps| - 1], k)
  }

  ghost predicate InTouchOrder<V>(lim: Limits, steps: seq<Step<V>>, c: Cache<V>) {
    forall i, j :: 0 <= i < j < |c| ==> LastTouch(lim, steps, c[i].0) < LastTouch(lim, steps, c[j].0)
  }

  /** Every entry is what was last stored for its key. */
  ghost predicate Latest<V>(steps: seq<Step<V>>, c: Cache<V>) {
    forall i :: 0 <= i < |c| ==> LastStored(steps, c[i].0) == Some(c[i].1)
  }

  /** Dropping keeps order: what is left are pairs of the cache, in their order. */
  lemma {:induction false} DropIsSub<V>(c: Cache<V>, k: JsString) returns (p: nat)
    requires Distinct(c)
    ensures p <= |c| && (Has(c, k) <==> p < |c|) && (p < |c| ==> c[p].0 == k)
    ensures Drop(c, k) == c[..p] + (if p < |c| then c[p + 1..] else [])
  {
    if c == [] {
      p := 0;
    } else if c[0].0 == k {
      p := 0;
    } else {
      var q := DropIsSub(c[1..], k);
      p := q + 1;
      assert c == [c[0]] + c[1..];
    }
  }

  lemma DropOrdered<V>(lim: Limits, steps: seq<Step<V>>, c: Cache<V>, k: JsString)
    requires Distinct(c) && InTouchOrder(lim, steps, c) && Latest(steps, c)
    ensures Distinct(Drop(c, k)) && InTouchOrder(lim, steps, Drop(c, k)) && Latest(steps, Drop(c, k))
    ensures forall i :: 0 <= i < |Drop(c, k)| ==> Drop(c, k)[i].0 != k
    ensures |Drop(c, k)| <= |c|
  {
    var p := DropIsSub(c, k);
    DropKeys(c, k);
    HasIsMember(c, k);
  }

  /** Putting the touched key at the end, and dropping from the front, keeps the order. */
  lemma TouchedOrdered<V>(lim: Limits, steps: seq<Step<V>>, rest: Cache<V>, e: Entry<V>)
    requires steps != [] && Distinct(rest) && InTouchOrder(lim, steps, rest) && Latest(steps, rest)
    requires var k := steps[|steps| - 1].key;
      && (forall i :: 0 <= i < |rest| ==> rest[i].0 != k)
      && LastTouch(lim, steps, k) == |steps| - 1 && LastStored(steps, k) == Some(e)
    ensures var c := Trim(rest + [(steps[|steps| - 1].key, e)], lim.max);
      Distinct(c) && InTouchOrder(lim, steps, c) && Latest(steps, c) && |c| <= lim.max
  {
    var k, n := steps[|steps| - 1].key, |steps| - 1;
    forall i | 0 <= i < |rest| ensures LastTouch(lim, steps, rest[i].0) < n {
    }
  }

  /**
   After any run of lookups and stores, overlapping or not, the keys stand in order of last touch,
   there are at most the maximum, and each holds what was stored for it last.
   */
  lemma {:induction false} CacheInOrder<V>(lim: Limits, steps: seq<Step<V>>)
    ensures var c := After(lim, steps);
      Distinct(c) && |c| <= lim.max && InTouchOrder(lim, steps, c) && Latest(steps, c)
  {
    if steps != [] {
      var n := |steps| - 1;
      var before, k := After(lim, steps[..n]), steps[n].key;
      CacheInOrder(lim, steps[..n]);
      DropOrdered(lim, steps[..n], before, k);
      if steps[n].Store? {
        TouchedOrdered(lim, steps, Drop(before, k), EntryOf(steps[n]));
      } else if Hit(lim, before, steps[n].now, k) {
        HitIsStored(steps[..n], before, k);
        TouchedOrdered(lim, steps, Drop(before, k), Get(before, k).value);
      }
    }
  }

  lemma HitIsStored<V>(steps: seq<Step<V>>, c: Cache<V>, k: JsString)
    requires Latest(steps, c) && Get(c, k).Some?
    ensures LastStored(steps, k) == Get(c, k)
  {
    GetIsPair(c, k);
    var i :| 0 <= i < |c| && c[i] == (k, Get(c, k).value);
  }

  ghost predicate ClockGoesOn<V>(steps: seq<Step<V>>) {
    forall i, j :: 0 <= i < j < |steps| ==> steps[i].now <= steps[j].now
  }

  /** The step that stored a key last. */
  lemma {:induction false} StoredAt<V>(steps: seq<Step<V>>, k: JsString) returns (i: nat)
    requires LastStored(steps, k).Some?
    ensures i < |steps| && steps[i].Store? && steps[i].key == k && LastStored(steps, k) == Some(EntryOf(steps[i]))
    ensures forall j :: i < j < |steps| && steps[j].Store? ==> steps[j].key != k
  {
    var n := |steps| - 1;
    if steps[n].Store? && steps[n].key == k {
      i := n;
    } else {
      i := StoredAt(steps[..n], k);
    }
  }

  /** Step i stored what a lookup at step n serves, as the last to store its key, no longer ago than its lifetime. */
  ghost predicate Source<V>(lim: Limits, steps: seq<Step<V>>, c: Cache<V>, n: nat, i: nat)
    requires i < n < |steps| && Get(c, steps[n].key).Some?
  {
    && steps[i].Store? && steps[i].key == steps[n].key
    && Get(c, steps[n].key).value.answer == steps[i].answer
    && (forall j :: i < j < n && steps[j].Store? ==> steps[j].key != steps[n].key)
    && 0 <= steps[n].now - steps[i].now < if steps[i].failure then lim.failureTtl else lim.ttl
  }

  /** From any cache that holds what was stored last, what is served was stored within its lifetime. */
  lemma ServedFrom<V>(lim: Limits, steps: seq<Step<V>>, c: Cache<V>, n: nat) returns (i: nat)
    requires ClockGoesOn(steps) && n < |steps| && Latest(steps[..n], c) && Hit(lim, c, steps[n].now, steps[n].key)
    ensures i < n && Source(lim, steps, c, n, i)
  {
    HitIsStored(steps[..n], c, steps[n].key);
    i := StoredAt(steps[..n], steps[n].key);
  }

  /**
   In any run under a clock that does not go back, the answer a did:nostr lookup is served was stored
   by an earlier step, the last to store that key, less than five minutes ago, or one for a failure.
   */
  lemma DidAnswersAreRecent<V>(steps: seq<Step<V>>, n: nat) returns (i: nat)
    requires ClockGoesOn(steps) && n < |steps| && steps[n].Lookup?
    requires Hit(DID_LIMITS, After(DID_LIMITS, steps[..n]), steps[n].now, steps[n].key)
    ensures i < n && Source(DID_LIMITS, steps, After(DID_LIMITS, steps[..n]), n, i)
    ensures 0 <= steps[n].now - steps[i].now < (if steps[i].failure then 60_000 else 300_000)
    ensures |After(DID_LIMITS, steps[..n])| <= 10_000
  {
    CacheInOrder(DID_LIMITS, steps[..n]);
    i := ServedFrom(DID_LIMITS, steps, After(DID_LIMITS, steps[..n]), n);
  }

  lemma TouchedKeepsKey<V>(lim: Limits, c: Cache<V>, k: JsString, e: Entry<V>)
    requires lim.max > 0
    ensures Has(Touched(lim, c, k, e), k)
  {
    var t := Touched(lim, c, k, e);
    assert t[|t| - 1].0 == k;
    HasIsMember(t, k);
  }

  /** Unless the cache is full a trim drops nothing, and then only the first key. */
  lemma SurvivesTrim<V>(rest: Cache<V>, k: JsString, e: Entry<V>, q: nat, max: nat)
    requires q < |rest| <= max && (q > 0 || |rest| < max)
    ensures Has(Trim(rest + [(k, e)], max), rest[q].0)
  {
    var all := rest + [(k, e)];
    var t := Trim(all, max);
    assert t[if |rest| < max then q else q - 1] == rest[q];
    HasIsMember(t, rest[q].0);
  }

  /** Another key's touch pushes a key out only when the cache was full and the key first. */
  lemma PushedOut<V>(lim: Limits, c: Cache<V>, other: JsString, e: Entry<V>, i: nat)
    requires Distinct(c) && |c| <= lim.max && i < |c| && c[i].0 != other && !Has(Touched(lim, c, other, e), c[i].0)
    ensures i == 0 && !Has(c, other) && |c| == lim.max
  {
    var p := DropIsSub(c, other);
    DropKeys(c, other);
    var rest, q := Drop(c, other), if i < p then i else i - 1;
    assert rest[q].0 == c[i].0;
    if q > 0 || |rest| < lim.max {
      SurvivesTrim(rest, other, e, q, lim.max);
    }
  }

  lemma StaleGone<V>(c: Cache<V>, other: JsString, i: nat)
    requires Distinct(c) && i < |c| && c[i].0 != other
    ensures Has(Drop(c, other), c[i].0)
  {
    DropKeys(c, other);
    HasIsMember(c, c[i].0);
  }

  /**
   A key leaves the cache only when its own entry is found stale, or when a full cache takes in a new
   key and it is the least recently touched of all.
   */
  lemma EvictsLeastRecent<V>(lim: Limits, steps: seq<Step<V>>, step: Step<V>, k: JsString)
    requires lim.max > 0 && Has(After(lim, steps), k) && !Has(After(lim, steps + [step]), k)
    ensures if step.key == k then step.Lookup? && !Hit(lim, After(lim, steps), step.now, k)
            else
              && step.Store? && !Has(After(lim, steps), step.key) && |After(lim, steps)| == lim.max
              && forall j :: Has(After(lim, steps), j) && j != k ==> LastTouch(lim, steps, k) < LastTouch(lim, steps, j)
  {
    var c, d := After(lim, steps), After(lim, steps + [step]);
    assert (steps + [step])[..|steps|] == steps;
    CacheInOrder(lim, steps);
    HasIsMember(c, k);
    var i :| 0 <= i < |c| && c[i].0 == k;
    var touch := step.Store? || Hit(lim, c, step.now, step.key);
    if touch {
      var e := if step.Store? then EntryOf(step) else Get(c, step.key).value;
      assert d == Touched(lim, c, step.key, e);
      TouchedKeepsKey(lim, c, step.key, e);
      PushedOut(lim, c, step.key, e, i);
      HasIsMember(c, step.key);
      forall j | Has(c, j) && j != k ensures LastTouch(lim, steps, k) < LastTouch(lim, steps, j) {
        HasIsMember(c, j);
      }
    } else if step.key != k {
      StaleGone(c, step.key, i);
    }
  }

  // ---------- what is recent enough is served ----------

  /** The keys other than k that steps after i and before n name. */
  function OtherKeys<V>(steps: seq<Step<V>>, i: nat, n: nat, k: JsString): set<JsString>
    requires i < n <= |steps|
  {
    set j | i < j < n && steps[j].key != k :: steps[j].key
  }

  lemma {:induction false} LastTouchIs<V>(lim: Limits, steps: seq<Step<V>>, k: JsString)
    ensures LastTouch(lim, steps, k) >= 0 ==> steps[LastTouch(lim, steps, k)].key == k
    ensures forall i :: 0 <= i < |steps| && steps[i].Store? && steps[i].key == k ==> i <= LastTouch(lim, steps, k)
  {
    if steps != [] {
      LastTouchIs(lim, steps[..|steps| - 1], k);
    }
  }

  function KeySet<V>(c: Cache<V>): set<JsString> {
    set p | 0 <= p < |c| :: c[p].0
  }

  lemma {:induction false} KeySetSize<V>(c: Cache<V>)
    requires Distinct(c)
    ensures |KeySet(c)| == |c|
  {
    if c != [] {
      var n := |c| - 1;
      KeySetSize(c[..n]);
      assert KeySet(c) == KeySet(c[..n]) + {c[n].0};
    }
  }

  lemma Smaller<T>(a: set<T>, b: set<T>)
    requires a <= b
    ensures |a| <= |b|
  {
    assert b == a + (b - a);
  }

  /** A key pushed out of a full cache saw as many other keys named since it was stored as the cache holds. */
  lemma PushedByOthers<V>(lim: Limits, steps: seq<Step<V>>, i: nat, m: nat, n: nat)
    requires lim.max > 0 && i < m < n <= |steps| && steps[i].Store? && steps[m].key != steps[i].key
    requires Has(After(lim, steps[..m]), steps[i].key) && !Has(After(lim, steps[..m] + [steps[m]]), steps[i].key)
    ensures |OtherKeys(steps, i, n, steps[i].key)| >= lim.max
  {
    var k, c := steps[i].key, After(lim, steps[..m]);
    CacheInOrder(lim, steps[..m]);
    EvictsLeastRecent(lim, steps[..m], steps[m], k);
    LastTouchIs(lim, steps[..m], k);
    assert steps[..m][i] == steps[i];
    KeySetSize(c);
    var others := OtherKeys(steps, i, n, k);
    forall j | j in KeySet(c) && j != k ensures j in others {
      var p :| 0 <= p < |c| && c[p].0 == j;
      HasIsMember(c, j);
      LastTouchIs(lim, steps[..m], j);
      assert steps[LastTouch(lim, steps[..m], j)].key == j;
    }
    HasIsMember(c, k);
    HasIsMember(c, steps[m].key);
    assert k in KeySet(c) && steps[m].key !in KeySet(c);
    Smaller(KeySet(c) - {k} + {steps[m].key}, others);
  }

  /** A stored answer that is not too old stays while fewer other keys are named than the cache holds. */
  lemma {:induction false} StaysCached<V>(lim: Limits, steps: seq<Step<V>>, i: nat, m: nat, n: nat)
    requires ClockGoesOn(steps) && lim.max > 0 && i < m <= n < |steps| && steps[i].Store?
    requires forall j :: i < j < n && steps[j].Store? ==> steps[j].key != steps[i].key
    requires Fresh(lim, steps[n].now, EntryOf(steps[i])) && |OtherKeys(steps, i, n, steps[i].key)| < lim.max
    ensures Get(After(lim, steps[..m]), steps[i].key) == Some(EntryOf(steps[i]))
    decreases m
  {
    var k, e := steps[i].key, EntryOf(steps[i]);
    assert steps[..m] == steps[..m - 1] + [steps[m - 1]];
    if m == i + 1 {
      TouchedKeepsKey(lim, After(lim, steps[..i]), k, e);
    } else {
      StaysCached(lim, steps, i, m - 1, n);
      HasIsMember(After(lim, steps[..m - 1]), k);
      if steps[m - 1].key == k {
        TouchedKeepsKey(lim, After(lim, steps[..m - 1]), k, e);
      } else if !Has(After(lim, steps[..m]), k) {
        PushedByOthers(lim, steps, i, m - 1, n);
      }
    }
    HeldIsStored(lim, steps, i, m);
  }

  lemma HeldIsStored<V>(lim: Limits, steps: seq<Step<V>>, i: nat, m: nat)
    requires i < m <= |steps| && steps[i].Store? && Has(After(lim, steps[..m]), steps[i].key)
    requires forall j :: i < j < m && steps[j].Store? ==> steps[j].key != steps[i].key
    ensures Get(After(lim, steps[..m]), steps[i].key) == Some(EntryOf(steps[i]))
  {
    var k := steps[i].key;
    CacheInOrder(lim, steps[..m]);
    HasIsMember(After(lim, steps[..m]), k);
    HitIsStored(steps[..m], After(lim, steps[..m]), k);
    LastStoredIs(steps, i, m, k);
  }

  lemma {:induction false} LastStoredIs<V>(steps: seq<Step<V>>, i: nat, m: nat, k: JsString)
    requires i < m <= |steps| && steps[i].Store? && steps[i].key == k
    requires forall j :: i < j < m && steps[j].Store? ==> steps[j].key != k
    ensures LastStored(steps[..m], k) == Some(EntryOf(steps[i]))
    decreases m
  {
    assert steps[..m][..m - 1] == steps[..m - 1];
    if i < m - 1 {
      LastStoredIs(steps, i, m - 1, k);
    }
  }

  /**
   A did:nostr lookup is served the answer stored last for its key if that is less than five minutes old,
   or one for a failure, and fewer than ten thousand other keys were named since.
   */
  lemma RecentIsServed<V>(steps: seq<Step<V>>, i: nat, n: nat)
    requires ClockGoesOn(steps) && i < n < |steps| && steps[i].Store? && steps[n].Lookup? && steps[n].key == steps[i].key
    requires forall j :: i < j < n && steps[j].Store? ==> steps[j].key != steps[i].key
    requires steps[n].now - steps[i].now < (if steps[i].failure then 60_000 else 300_000)
    requires |OtherKeys(steps, i, n, steps[i].key)| < 10_000
    ensures Hit(DID_LIMITS, After(DID_LIMITS, steps[..n]), steps[n].now, steps[n].key)
    ensures Get(After(DID_LIMITS, steps[..n]), steps[n].key).value.answer == steps[i].answer
  {
    StaysCached(DID_LIMITS, steps, i, n, n);
  }

  // ---------- CID documents ----------

  /** Setting in place is the touching set exactly when the key is absent or already last. */
  lemma InPlaceIffLast<V>(lim: Limits, c: Cache<V>, k: JsString, e: Entry<V>)
    requires Distinct(c) && |c| <= lim.max
    ensures SetInPlace(lim, c, k, e) == Touched(lim, c, k, e) <==> !Has(c, k) || c[|c| - 1].0 == k
  {
    PutKeys(c, k, e);
    DropKeys(c, k);
    var p := DropIsSub(c, k);
    HasIsMember(c, k);
    if Has(c, k) {
      var r, t := Put(c, k, e), Drop(c, k) + [(k, e)];
      assert r[|c| - 1].0 == c[|c| - 1].0 && t[|c| - 1].0 == k;
      if c[|c| - 1].0 == k {
        PutLast(c, k, e);
        assert p == |c| - 1;
      }
    }
  }

  lemma {:induction false} PutLast<V>(c: Cache<V>, k: JsString, e: Entry<V>)
    requires Distinct(c) && c != [] && c[|c| - 1].0 == k
    ensures Put(c, k, e) == c[..|c| - 1] + [(k, e)]
  {
    if |c| > 1 {
      PutLast(c[1..], k, e);
      assert c == [c[0]] + c[1..];
    } else {
      assert c[1..] == [];
    }
  }

  /** The CID cache after the same steps: a store sets in place. */
  function CidAfter<V>(lim: Limits, steps: seq<Step<V>>): Cache<V> {
    if steps == [] then []
    else
      var before, last := CidAfter(lim, steps[..|steps| - 1]), steps[|steps| - 1];
      if last.Lookup? then LookedUp(lim, before, last.now, last.key) else SetInPlace(lim, before, last.key, EntryOf(last))
  }

  /** Dropping and trimming leave entries that were stored last; setting adds one. */
  lemma TrimKeeps<V>(steps: seq<Step<V>>, c: Cache<V>, max: nat)
    requires Distinct(c) && Latest(steps, c)
    ensures Distinct(Trim(c, max)) && Latest(steps, Trim(c, max)) && |Trim(c, max)| <= max
  {
  }

  lemma OthersLatest<V>(steps: seq<Step<V>>, c: Cache<V>)
    requires steps != [] && Latest(steps[..|steps| - 1], c)
    requires forall i :: 0 <= i < |c| ==> c[i].0 != steps[|steps| - 1].key || steps[|steps| - 1].Lookup?
    ensures Latest(steps, c)
  {
  }

  lemma DropLatest<V>(steps: seq<Step<V>>, c: Cache<V>, k: JsString)
    requires Distinct(c) && Latest(steps, c)
    ensures Distinct(Drop(c, k)) && Latest(steps, Drop(c, k)) && |Drop(c, k)| <= |c|
    ensures forall i :: 0 <= i < |Drop(c, k)| ==> Drop(c, k)[i].0 != k
  {
    var p := DropIsSub(c, k);
    DropKeys(c, k);
    HasIsMember(c, k);
  }

  lemma PutLatest<V>(steps: seq<Step<V>>, c: Cache<V>)
    requires steps != [] && steps[|steps| - 1].Store? && Distinct(c) && Latest(steps[..|steps| - 1], c)
    ensures Distinct(Put(c, steps[|steps| - 1].key, EntryOf(steps[|steps| - 1])))
    ensures Latest(steps, Put(c, steps[|steps| - 1].key, EntryOf(steps[|steps| - 1])))
  {
    var k, e := steps[|steps| - 1].key, EntryOf(steps[|steps| - 1]);
    var r := Put(c, k, e);
    PutKeys(c, k, e);
    forall i | 0 <= i < |r| ensures LastStored(steps, r[i].0) == Some(r[i].1) {
      GetMember(r, i);
      GetPut(c, k, e, r[i].0);
      if r[i].0 != k {
        HitIsStored(steps[..|steps| - 1], c, r[i].0);
      }
    }
  }

  /** However lookups overlap, the CID cache stays within its bound and holds what was stored last. */
  lemma {:induction false} CidKeepsLatest<V>(lim: Limits, steps: seq<Step<V>>)
    ensures var c := CidAfter(lim, steps); Distinct(c) && |c| <= lim.max && Latest(steps, c)
  {
    if steps != [] {
      var n := |steps| - 1;
      var before, k := CidAfter(lim, steps[..n]), steps[n].key;
      CidKeepsLatest(lim, steps[..n]);
      if steps[n].Store? {
        PutLatest(steps, before);
        TrimKeeps(steps, Put(before, k, EntryOf(steps[n])), lim.max);
      } else {
        OthersLatest(steps, before);
        DropLatest(steps, before, k);
        if Hit(lim, before, steps[n].now, k) {
          HitIsStored(steps, before, k);
          var again := Drop(before, k) + [(k, Get(before, k).value)];
          TrimKeeps(steps, again, lim.max);
        }
      }
    }
  }

  /** The same age law for CID documents, however lookups overlap. */
  lemma CidAnswersAreRecent<V>(steps: seq<Step<V>>, n: nat) returns (i: nat)
    requires ClockGoesOn(steps) && n < |steps| && steps[n].Lookup?
    requires Hit(CID_LIMITS, CidAfter(CID_LIMITS, steps[..n]), steps[n].now, steps[n].key)
    ensures i < n && Source(CID_LIMITS, steps, CidAfter(CID_LIMITS, steps[..n]), n, i)
    ensures 0 <= steps[n].now - steps[i].now < (if steps[i].failure then 60_000 else 300_000)
    ensures |CidAfter(CID_LIMITS, steps[..n])| <= 1_000
  {
    CidKeepsLatest(CID_LIMITS, steps[..n]);
    i := ServedFrom(CID_LIMITS, steps, CidAfter(CID_LIMITS, steps[..n]), n);
  }

  // ---------- when the CID cache keeps its order ----------

  /** The last step that stored or served a document, -1 when there is none. */
  function CidTouch<V>(lim: Limits, steps: seq<Step<V>>, k: JsString): (r: int)
    ensures -1 <= r < |steps|
  {
    if steps == [] then -1
    else
      var n := |steps| - 1;
      if Touches(lim, CidAfter(lim, steps[..n]), steps[n], k) then n else CidTouch(lim, steps[..n], k)
  }

  ghost predicate CidInOrder<V>(lim: Limits, steps: seq<Step<V>>) {
    var c := CidAfter(lim, steps);
    forall i, j :: 0 <= i < j < |c| ==> CidTouch(lim, steps, c[i].0) < CidTouch(lim, steps, c[j].0)
  }

  predicate AbsentOrLast<V>(c: Cache<V>, k: JsString) {
    !Has(c, k) || c[|c| - 1].0 == k
  }

  /** Every store finds its document absent from the cache, or last in it. */
  ghost predicate StoresAtEnd<V>(lim: Limits, steps: seq<Step<V>>) {
    forall n :: 0 <= n < |steps| && steps[n].Store? ==> AbsentOrLast(CidAfter(lim, steps[..n]), steps[n].key)
  }

  lemma StoresAtEndFront<V>(lim: Limits, steps: seq<Step<V>>, m: nat)
    requires m <= |steps| && StoresAtEnd(lim, steps)
    ensures StoresAtEnd(lim, steps[..m])
  {
    forall n | 0 <= n < m && steps[..m][n].Store? ensures AbsentOrLast(CidAfter(lim, steps[..m][..n]), steps[..m][n].key) {
      assert steps[..m][..n] == steps[..n];
      assert steps[n].Store?;
    }
  }

  /** As long as stores go to the end the cache is the touching cache, touch for touch. */
  lemma {:induction false} SameAsTouching<V>(lim: Limits, steps: seq<Step<V>>)
    requires StoresAtEnd(lim, steps)
    ensures CidAfter(lim, steps) == After(lim, steps)
    ensures forall k :: CidTouch(lim, steps, k) == LastTouch(lim, steps, k)
  {
    if steps != [] {
      var n := |steps| - 1;
      StoresAtEndFront(lim, steps, n);
      SameAsTouching(lim, steps[..n]);
      if steps[n].Store? {
        CidKeepsLatest(lim, steps[..n]);
        InPlaceIffLast(lim, CidAfter(lim, steps[..n]), steps[n].key, EntryOf(steps[n]));
      }
    }
  }

  /** The same for CID documents, while stores go to the end. */
  lemma RecentDocumentIsServed<V>(steps: seq<Step<V>>, i: nat, n: nat)
    requires StoresAtEnd(CID_LIMITS, steps)
    requires ClockGoesOn(steps) && i < n < |steps| && steps[i].Store? && steps[n].Lookup? && steps[n].key == steps[i].key
    requires forall j :: i < j < n && steps[j].Store? ==> steps[j].key != steps[i].key
    requires steps[n].now - steps[i].now < (if steps[i].failure then 60_000 else 300_000)
    requires |OtherKeys(steps, i, n, steps[i].key)| < 1_000
    ensures Hit(CID_LIMITS, CidAfter(CID_LIMITS, steps[..n]), steps[n].now, steps[n].key)
    ensures Get(CidAfter(CID_LIMITS, steps[..n]), steps[n].key).value.answer == steps[i].answer
  {
    StaysCached(CID_LIMITS, steps, i, n, n);
    StoresAtEndFront(CID_LIMITS, steps, n);
    SameAsTouching(CID_LIMITS, steps[..n]);
  }

  /** A store that finds its document in front of another leaves it there, touched later than the other. */
  lemma MiddleStoreLosesOrder<V>(lim: Limits, steps: seq<Step<V>>)
    requires steps != [] && steps[|steps| - 1].Store?
    requires !AbsentOrLast(CidAfter(lim, steps[..|steps| - 1]), steps[|steps| - 1].key)
    ensures !CidInOrder(lim, steps)
    ensures CidAfter(lim, steps) != Touched(lim, CidAfter(lim, steps[..|steps| - 1]), steps[|steps| - 1].key, EntryOf(steps[|steps| - 1]))
  {
    var n := |steps| - 1;
    var before, k, e := CidAfter(lim, steps[..n]), steps[n].key, EntryOf(steps[n]);
    CidKeepsLatest(lim, steps[..n]);
    InPlaceIffLast(lim, before, k, e);
    PutKeys(before, k, e);
    HasIsMember(before, k);
    var p :| 0 <= p < |before| && before[p].0 == k;
    var c := CidAfter(lim, steps);
    assert c == Put(before, k, e) && c[p].0 == k && c[p + 1].0 == before[p + 1].0 != k;
    assert CidTouch(lim, steps, c[p].0) == n > CidTouch(lim, steps, c[p + 1].0);
  }

  ghost predicate AlwaysInOrder<V>(lim: Limits, steps: seq<Step<V>>) {
    forall n :: 0 <= n <= |steps| ==> CidInOrder(lim, steps[..n])
  }

  /**
   However lookups overlap, the CID cache stands in order of last touch throughout a run exactly when
   every store of the run finds its document absent or last.
   */
  lemma CidInOrderIff<V>(lim: Limits, steps: seq<Step<V>>)
    ensures AlwaysInOrder(lim, steps) <==> StoresAtEnd(lim, steps)
  {
    if StoresAtEnd(lim, steps) {
      forall n | 0 <= n <= |steps| ensures CidInOrder(lim, steps[..n]) {
        StoresAtEndFront(lim, steps, n);
        SameAsTouching(lim, steps[..n]);
        CacheInOrder(lim, steps[..n]);
      }
    } else {
      var n :| 0 <= n < |steps| && steps[n].Store? && !AbsentOrLast(CidAfter(lim, steps[..n]), steps[n].key);
      assert steps[..n + 1][..n] == steps[..n];
      MiddleStoreLosesOrder(lim, steps[..n + 1]);
    }
  }

  ghost predicate AlwaysTouching<V>(lim: Limits, steps: seq<Step<V>>) {
    forall n :: 0 <= n <= |steps| ==> CidAfter(lim, steps[..n]) == After(lim, steps[..n])
  }

  /** Under the same condition, and no other, it is throughout the touching cache, with all its laws. */
  lemma CidCacheIsTouching<V>(lim: Limits, steps: seq<Step<V>>)
    ensures AlwaysTouching(lim, steps) <==> StoresAtEnd(lim, steps)
  {
    if StoresAtEnd(lim, steps) {
      forall n | 0 <= n <= |steps| ensures CidAfter(lim, steps[..n]) == After(lim, steps[..n]) {
        StoresAtEndFront(lim, steps, n);
        SameAsTouching(lim, steps[..n]);
      }
    } else {
      var n :| 0 <= n < |steps| && steps[n].Store? && !AbsentOrLast(CidAfter(lim, steps[..n]), steps[n].key);
      assert steps[..n + 1][..n] == steps[..n];
      MiddleStoreLosesOrder(lim, steps[..n + 1]);
      assert CidAfter(lim, steps[..n]) == After(lim, steps[..n]) ==> CidAfter(lim, steps[..n + 1]) != After(lim, steps[..n + 1]);
    }
  }

  /** A lookup that found nothing fresh. */
  predicate Missed<V>(lim: Limits, steps: seq<Step<V>>, n: nat)
    requires n < |steps|
  {
    steps[n].Lookup? && !Hit(lim, CidAfter(lim, steps[..n]), steps[n].now, steps[n].key)
  }

  /** No overlap: each store follows its own missed lookup at once. */
  ghost predicate OneAtATime<V>(lim: Limits, steps: seq<Step<V>>) {
    forall n :: 0 <= n < |steps| && steps[n].Store? ==> n > 0 && steps[n - 1].key == steps[n].key && Missed(lim, steps, n - 1)
  }

  /** After a missed lookup the key is not in the cache. */
  lemma MissLeavesNone<V>(lim: Limits, steps: seq<Step<V>>, n: nat)
    requires n < |steps| && Missed(lim, steps, n)
    ensures !Has(CidAfter(lim, steps[..n + 1]), steps[n].key)
  {
    assert steps[..n + 1][..n] == steps[..n];
    CidKeepsLatest(lim, steps[..n]);
    DropKeys(CidAfter(lim, steps[..n]), steps[n].key);
  }

  /** Lookups that do not overlap meet the condition. */
  lemma OneAtATimeInOrder<V>(lim: Limits, steps: seq<Step<V>>)
    requires OneAtATime(lim, steps)
    ensures StoresAtEnd(lim, steps) && AlwaysInOrder(lim, steps) && AlwaysTouching(lim, steps)
  {
    forall n | 0 <= n < |steps| && steps[n].Store? ensures AbsentOrLast(CidAfter(lim, steps[..n]), steps[n].key) {
      MissLeavesNone(lim, steps, n - 1);
    }
    CidInOrderIff(lim, steps);
    CidCacheIsTouching(lim, steps);
  }

  // ---------- overlapping lookups of CID documents ----------

  function Change<V>(lim: Limits, steps: seq<Step<V>>, s: Step<V>, k: JsString): int {
    if s.key != k then 0 else if s.Store? then -1 else if !Hit(lim, CidAfter(lim, steps), s.now, k) then 1 else 0
  }

  /** How many lookups of a key missed and have not stored yet. */
  function Pending<V>(lim: Limits, steps: seq<Step<V>>, k: JsString): int {
    if steps == [] then 0
    else
      var n := |steps| - 1;
      Pending(lim, steps[..n], k) + Change(lim, steps[..n], steps[n], k)
  }

  /** Every store ends a lookup that missed before it. */
  ghost predicate StoresFollowMisses<V>(lim: Limits, steps: seq<Step<V>>) {
    forall n :: 0 <= n < |steps| && steps[n].Store? ==> Pending(lim, steps[..n], steps[n].key) > 0
  }

  lemma CidSnoc<V>(lim: Limits, steps: seq<Step<V>>, s: Step<V>)
    ensures CidAfter(lim, steps + [s]) ==
      if s.Lookup? then LookedUp(lim, CidAfter(lim, steps), s.now, s.key) else SetInPlace(lim, CidAfter(lim, steps), s.key, EntryOf(s))
    ensures After(lim, steps + [s]) ==
      if s.Lookup? then LookedUp(lim, After(lim, steps), s.now, s.key) else Touched(lim, After(lim, steps), s.key, EntryOf(s))
    ensures forall k :: Pending(lim, steps + [s], k) == Pending(lim, steps, k) + Change(lim, steps, s, k)
    ensures StoresFollowMisses(lim, steps) && (s.Store? ==> Pending(lim, steps, s.key) > 0) ==> StoresFollowMisses(lim, steps + [s])
  {
    var more := steps + [s];
    assert more[..|steps|] == steps;
    forall n | 0 <= n < |steps| ensures more[..n] == steps[..n] {
    }
  }

  /** Two lookups of one document miss, and the first of them stores. */
  lemma TwoLookups(a: JsString) returns (s: seq<Step<int>>)
    ensures s == [Lookup(0, a), Lookup(0, a), Store(1, a, 1, false)] && StoresFollowMisses(CID_LIMITS, s)
    ensures CidAfter(CID_LIMITS, s) == [(a, Entry(1, 1, false))] && After(CID_LIMITS, s) == [(a, Entry(1, 1, false))]
    ensures Pending(CID_LIMITS, s, a) == 1 && forall b :: b != a ==> Pending(CID_LIMITS, s, b) == 0
  {
    var lim := CID_LIMITS;
    var s1: seq<Step<int>> := [] + [Lookup(0, a)];
    var s2 := s1 + [Lookup(0, a)];
    s := s2 + [Store(1, a, 1, false)];
    CidSnoc<int>(lim, [], Lookup(0, a));
    CidSnoc(lim, s1, Lookup(0, a));
    CidSnoc(lim, s2, Store(1, a, 1, false));
  }

  /** Then another document is looked up and stored. */
  lemma ThenAnother(a: JsString, b: JsString, s: seq<Step<int>>) returns (t: seq<Step<int>>)
    requires a != b && StoresFollowMisses(CID_LIMITS, s)
    requires CidAfter(CID_LIMITS, s) == [(a, Entry(1, 1, false))] && After(CID_LIMITS, s) == [(a, Entry(1, 1, false))]
    requires Pending(CID_LIMITS, s, a) == 1 && Pending(CID_LIMITS, s, b) == 0
    ensures t == s + [Lookup(1, b)] + [Store(1, b, 2, false)] && StoresFollowMisses(CID_LIMITS, t)
    ensures CidAfter(CID_LIMITS, t) == [(a, Entry(1, 1, false)), (b, Entry(2, 1, false))] && After(CID_LIMITS, t) == CidAfter(CID_LIMITS, t)
    ensures Pending(CID_LIMITS, t, a) == 1
  {
    var lim := CID_LIMITS;
    OneAndOther(a, Entry(1, 1, false), b, Entry(2, 1, false));
    CidSnoc(lim, s, Lookup(1, b));
    CidSnoc(lim, s + [Lookup(1, b)], Store(1, b, 2, false));
    t := s + [Lookup(1, b)] + [Store(1, b, 2, false)];
  }

  /**
   Overlap can break the condition: two lookups of one document run at once, another document is stored
   between their stores, and the document stored last stands first in line for eviction.
   */
  lemma OverlapLosesOrder(a: JsString, b: JsString) returns (steps: seq<Step<int>>)
    requires a != b
    ensures steps == [Lookup(0, a), Lookup(0, a), Store(1, a, 1, false), Lookup(1, b), Store(1, b, 2, false), Store(2, a, 3, false)]
    ensures ClockGoesOn(steps) && StoresFollowMisses(CID_LIMITS, steps)
    ensures CidAfter(CID_LIMITS, steps) == [(a, Entry(3, 2, false)), (b, Entry(2, 1, false))]
    ensures After(CID_LIMITS, steps) == [(b, Entry(2, 1, false)), (a, Entry(3, 2, false))]
  {
    var s := TwoLookups(a);
    var t := ThenAnother(a, b, s);
    OneAndOther(a, Entry(1, 1, false), b, Entry(2, 1, false));
    CidSnoc(CID_LIMITS, t, Store(2, a, 3, false));
    steps := t + [Store(2, a, 3, false)];
  }

  lemma OneAndOther(a: JsString, x: Entry<int>, b: JsString, y: Entry<int>)
    requires a != b
    ensures Drop([(a, x)], b) == [(a, x)] && Put([(a, x)], b, y) == [(a, x), (b, y)] && Get([(a, x)], b) == None
    ensures Drop([(a, x), (b, y)], a) == [(b, y)]
    ensures forall z :: Put([(a, x), (b, y)], a, z) == [(a, z), (b, y)]
  {
    assert [(a, x)][1..] == [];
    assert [(a, x), (b, y)][1..] == [(b, y)];
  }
}
