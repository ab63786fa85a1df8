/**
 Replay caches: signed NIP-98 events (src/auth/nostr.js) and DPoP proofs (src/auth/solid-oidc.js). Both
 forget entries in periodic sweeps, and still accept nothing twice under a clock that does not go back.
 */
module ReplayCache {
  import opened JsText
  import opened OrderedMap

  // ---------- NIP-98 events ----------

  const TIMESTAMP_TOLERANCE := 60
  const REPLAY_WINDOW := TIMESTAMP_TOLERANCE * 2

  /** What a request presents: `valid` stands for every other check, which the caches do not touch. */
  datatype Signed = Signed(id: JsString, createdAt: real, gitRoute: bool, valid: bool)

  function Abs(x: real): real {
    if x < 0.0 then -x else x
  }

  predicate Timely(now: int, time: real, tolerance: int) {
    time != 0.0 && Abs(now as real - time) <= tolerance as real
  }

  type Seen = Pairs<JsString, int>

  function Accepts(seen: Seen, now: int, e: Signed): bool {
    Timely(now, e.createdAt, TIMESTAMP_TOLERANCE) && e.valid && (e.gitRoute || !Has(seen, e.id))
  }

  function Noted(seen: Seen, now: int, e: Signed): Seen {
    if Accepts(seen, now, e) && !e.gitRoute then Put(seen, e.id, now) else seen
  }

  function SweptIds(seen: Seen, now: int): Seen {
    Survivors(seen, (at: int) => now - at > REPLAY_WINDOW)
  }

  class EventIds {
    var seenEventIds: Seen

    method NoteEventId(id: JsString, now: int) returns (isNew: bool)
      modifies this
      ensures isNew == !Has(old(seenEventIds), id)
      ensures seenEventIds == if isNew then Put(old(seenEventIds), id, now) else old(seenEventIds)
    {
      if Has(seenEventIds, id) {
        return false;
      }
      seenEventIds := Put(seenEventIds, id, now);
      return true;
    }

    method SweepEventIds(now: int)
      requires Distinct(seenEventIds)
      modifies this
      ensures seenEventIds == SweptIds(old(seenEventIds), now)
    {
      var entries := seenEventIds;
      ghost var dead := (at: int) => now - at > REPLAY_WINDOW;
      for i := 0 to |entries|
        invariant seenEventIds == Survivors(entries[..i], dead) + entries[i..]
      {
        SweepStep(entries, i, dead);
        if now - entries[i].1 > REPLAY_WINDOW {
          seenEventIds := Drop(seenEventIds, entries[i].0);
        }
      }
      assert entries[..|entries|] == entries;
    }

    /** The time, validity and replay checks of `verifyNostrAuth`, in its order. */
    method Verify(now: int, e: Signed) returns (accepted: bool)
      modifies this
      ensures accepted == Accepts(old(seenEventIds), now, e)
      ensures seenEventIds == Noted(old(seenEventIds), now, e)
    {
      if e.createdAt == 0.0 || Abs(now as real - e.createdAt) > TIMESTAMP_TOLERANCE as real {
        return false;
      }
      if !e.valid {
        return false;
      }
      if !e.gitRoute {
        accepted := NoteEventId(e.id, now);
        return;
      }
      return true;
    }
  }

  /** A request or a sweep, at a time. */
  datatype EventStep = Present(now: int, event: Signed) | Sweep(now: int)

  function AfterEvents(steps: seq<EventStep>): Seen {
    if steps == [] then []
    else
      var before, last := AfterEvents(steps[..|steps| - 1]), steps[|steps| - 1];
      match last
      case Present(now, e) => Noted(before, now, e)
      case Sweep(now) => SweptIds(before, now)
  }

  predicate AcceptedAt(steps: seq<EventStep>, i: nat)
    requires i < |steps|
  {
    steps[i].Present? && Accepts(AfterEvents(steps[..i]), steps[i].now, steps[i].event)
  }

  ghost predicate ClockGoesOn(steps: seq<EventStep>) {
    forall i, j :: 0 <= i < j < |steps| ==> steps[i].now <= steps[j].now
  }

  lemma {:induction false} SeenDistinct(steps: seq<EventStep>)
    ensures Distinct(AfterEvents(steps))
  {
    if steps != [] {
      var n := |steps| - 1;
      var before := AfterEvents(steps[..n]);
      SeenDistinct(steps[..n]);
      match steps[n]
      case Present(now, e) => PutKeys(before, e.id, now);
      case Sweep(now) => GetSurvivor(before, (at: int) => now - at > REPLAY_WINDOW, []);
    }
  }

  /** A noted id stays noted until a sweep more than the window later. */
  lemma {:induction false} StaysNoted(steps: seq<EventStep>, i: nat)
    requires ClockGoesOn(steps) && i < |steps| && AcceptedAt(steps, i) && !steps[i].event.gitRoute
    requires forall k :: i < k < |steps| ==> steps[k].now - steps[i].now <= REPLAY_WINDOW
    ensures Get(AfterEvents(steps), steps[i].event.id) == Some(steps[i].now)
  {
    var n := |steps| - 1;
    var before, id := AfterEvents(steps[..n]), steps[i].event.id;
    if i == n {
      GetPut(before, id, steps[i].now, id);
    } else {
      assert steps[..n][..i] == steps[..i];
      StaysNoted(steps[..n], i);
      HasIsMember(before, id);
      match steps[n]
      case Present(now, e) => GetPut(before, e.id, now, id);
      case Sweep(now) =>
        SeenDistinct(steps[..n]);
        GetSurvivor(before, (at: int) => now - at > REPLAY_WINDOW, id);
    }
  }

  /** Off the git routes two acceptances of one id lie more than the replay window apart. */
  lemma AcceptancesFarApart(steps: seq<EventStep>, i: nat, j: nat)
    requires ClockGoesOn(steps) && i < j < |steps| && AcceptedAt(steps, i) && AcceptedAt(steps, j)
    requires !steps[i].event.gitRoute && !steps[j].event.gitRoute && steps[i].event.id == steps[j].event.id
    ensures steps[j].now - steps[i].now > REPLAY_WINDOW
  {
    if steps[j].now - steps[i].now <= REPLAY_WINDOW {
      assert steps[..j][..i] == steps[..i];
      StaysNoted(steps[..j], i);
      HasIsMember(AfterEvents(steps[..j]), steps[j].event.id);
    }
  }

  /** No signed event is accepted twice off the git routes. */
  lemma NoEventTwice(steps: seq<EventStep>, i: nat, j: nat)
    requires ClockGoesOn(steps) && i < j < |steps| && AcceptedAt(steps, i) && AcceptedAt(steps, j)
    requires !steps[i].event.gitRoute && !steps[j].event.gitRoute
    ensures steps[i].event.id != steps[j].event.id || steps[i].event.createdAt != steps[j].event.createdAt
  {
    if steps[i].event.id == steps[j].event.id {
      AcceptancesFarApart(steps, i, j);
    }
  }

  // ---------- forgetting makes no difference ----------

  /** All ids ever accepted off the git routes. */
  function Ever(steps: seq<EventStep>): set<JsString> {
    if steps == [] then {}
    else
      var before, last := Ever(steps[..|steps| - 1]), steps[|steps| - 1];
      if last.Present? && !last.event.gitRoute && Timely(last.now, last.event.createdAt, TIMESTAMP_TOLERANCE)
        && last.event.valid then before + {last.event.id}
      else before
  }

  /** The decision of a cache that never forgets. */
  predicate AcceptsForever(ever: set<JsString>, now: int, e: Signed) {
    Timely(now, e.createdAt, TIMESTAMP_TOLERANCE) && e.valid && (e.gitRoute || e.id !in ever)
  }

  /** An id is a hash of the event, so it fixes the event's time. */
  ghost predicate TimeOfId(created: JsString -> real, steps: seq<EventStep>) {
    forall i :: 0 <= i < |steps| && steps[i].Present? ==> steps[i].event.createdAt == created(steps[i].event.id)
  }

  ghost predicate Tracks(created: JsString -> real, seen: Seen, ever: set<JsString>, now: int) {
    && (forall id :: Get(seen, id).Some? ==> id in ever && Get(seen, id).value as real >= created(id) - 60.0)
    && (forall id :: id in ever && Get(seen, id).None? ==> now as real > created(id) + 60.0)
  }

  lemma {:induction false} CacheTracks(created: JsString -> real, steps: seq<EventStep>, now: int)
    requires ClockGoesOn(steps) && TimeOfId(created, steps) && forall i :: 0 <= i < |steps| ==> steps[i].now <= now
    ensures Tracks(created, AfterEvents(steps), Ever(steps), now)
  {
    if steps != [] {
      var n := |steps| - 1;
      var last, before, after := steps[n], AfterEvents(steps[..n]), AfterEvents(steps);
      CacheTracks(created, steps[..n], last.now);
      SeenDistinct(steps[..n]);
      forall id ensures Get(after, id).Some? ==> id in Ever(steps) && Get(after, id).value as real >= created(id) - 60.0
        ensures id in Ever(steps) && Get(after, id).None? ==> now as real > created(id) + 60.0
      {
        HasIsMember(before, id);
        HasIsMember(after, id);
        match last
        case Present(t, e) =>
          GetPut(before, e.id, t, id);
        case Sweep(t) =>
          GetSurvivor(before, (at: int) => t - at > REPLAY_WINDOW, id);
      }
    }
  }

  /** Every decision of a run is the one a cache that never forgets would take. */
  lemma ForgettingChangesNothing(created: JsString -> real, steps: seq<EventStep>, i: nat)
    requires ClockGoesOn(steps) && TimeOfId(created, steps) && i < |steps| && steps[i].Present?
    ensures AcceptedAt(steps, i) <==> AcceptsForever(Ever(steps[..i]), steps[i].now, steps[i].event)
  {
    CacheTracks(created, steps[..i], steps[i].now);
    HasIsMember(AfterEvents(steps[..i]), steps[i].event.id);
  }

  /** A request whose event is otherwise in order and was created within a minute of now, either way. */
  predicate Passes(s: EventStep) {
    s.Present? && s.event.valid && s.event.createdAt != 0.0
    && s.now as real - 60.0 <= s.event.createdAt <= s.now as real + 60.0
  }

  /** An earlier request off the git routes passed with the same id. */
  predicate PassedBefore(steps: seq<EventStep>, i: nat, id: JsString)
    requires i <= |steps|
  {
    exists j :: 0 <= j < i && Passes(steps[j]) && !steps[j].event.gitRoute && steps[j].event.id == id
  }

  lemma {:induction false} EverPassed(steps: seq<EventStep>, id: JsString)
    ensures id in Ever(steps) <==> PassedBefore(steps, |steps|, id)
  {
    if steps != [] {
      var n := |steps| - 1;
      EverPassed(steps[..n], id);
      assert PassedBefore(steps, n + 1, id) <==>
        PassedBefore(steps, n, id) || (Passes(steps[n]) && !steps[n].event.gitRoute && steps[n].event.id == id);
      assert PassedBefore(steps[..n], n, id) <==> PassedBefore(steps, n, id);
    }
  }

  /** A request is accepted exactly when it passes and, off the git routes, no earlier one passed with its id. */
  lemma AcceptedIff(created: JsString -> real, steps: seq<EventStep>, i: nat)
    requires ClockGoesOn(steps) && TimeOfId(created, steps) && i < |steps| && steps[i].Present?
    ensures AcceptedAt(steps, i) <==>
      Passes(steps[i]) && (steps[i].event.gitRoute || !PassedBefore(steps, i, steps[i].event.id))
  {
    ForgettingChangesNothing(created, steps, i);
    EverPassed(steps[..i], steps[i].event.id);
    assert PassedBefore(steps[..i], i, steps[i].event.id) <==> PassedBefore(steps, i, steps[i].event.id);
  }

  /** A sweep keeps exactly the ids noted at most two minutes ago. */
  lemma SweepKeepsWindow(seen: Seen, now: int, id: JsString, at: int)
    requires Distinct(seen)
    ensures Get(SweptIds(seen, now), id) == Some(at) <==> Get(seen, id) == Some(at) && now - at <= 120
  {
    GetSurvivor(seen, (at: int) => now - at > REPLAY_WINDOW, id);
  }

  // ---------- DPoP proofs ----------

  const DPOP_MAX_AGE := 300

  /**
   A jti claim: falsy or missing, a text or other primitive, or an array or object. A `Map` finds
   primitives by value and objects by identity, and every request parses a new object.
   */
  datatype Jti = Absent | Value(text: JsString) | Composite(text: JsString)

  datatype JtiKey = ByValue(text: JsString) | ByIdentity(id: nat)

  datatype Proof = Proof(jti: Jti, iat: real, valid: bool)

  type JtiCache = Pairs<JtiKey, real>

  /** The key of a claim in the request with number id. */
  function KeyOf(jti: Jti, id: nat): JtiKey
    requires jti != Absent
  {
    if jti.Value? then ByValue(jti.text) else ByIdentity(id)
  }

  predicate WellTimed(now: int, p: Proof) {
    p.valid && Timely(now, p.iat, DPOP_MAX_AGE) && p.jti != Absent
  }

  predicate AcceptsProof(cache: JtiCache, now: int, p: Proof, id: nat) {
    WellTimed(now, p) && !Has(cache, KeyOf(p.jti, id))
  }

  function Recorded(cache: JtiCache, now: int, p: Proof, id: nat): JtiCache {
    if AcceptsProof(cache, now, p, id) then Put(cache, KeyOf(p.jti, id), p.iat) else cache
  }

  function CleanedUp(cache: JtiCache, now: int): JtiCache {
    Survivors(cache, (iat: real) => iat < (now - DPOP_MAX_AGE) as real)
  }

  class Jtis {
    var dpopJtiCache: JtiCache

    method IsJtiUsed(jti: JtiKey) returns (used: bool)
      ensures used == Has(dpopJtiCache, jti)
    {
      used := Has(dpopJtiCache, jti);
    }

    method RecordJti(jti: JtiKey, iat: real)
      modifies this
      ensures dpopJtiCache == Put(old(dpopJtiCache), jti, iat)
    {
      dpopJtiCache := Put(dpopJtiCache, jti, iat);
    }

    method CleanupJtiCache(now: int)
      requires Distinct(dpopJtiCache)
      modifies this
      ensures dpopJtiCache == CleanedUp(old(dpopJtiCache), now)
    {
      var expiredBefore := now - DPOP_MAX_AGE;
      var entries := dpopJtiCache;
      ghost var dead := (iat: real) => iat < (now - DPOP_MAX_AGE) as real;
      for i := 0 to |entries|
        invariant dpopJtiCache == Survivors(entries[..i], dead) + entries[i..]
      {
        SweepStep(entries, i, dead);
        if entries[i].1 < expiredBefore as real {
          dpopJtiCache := Drop(dpopJtiCache, entries[i].0);
        }
      }
      assert entries[..|entries|] == entries;
    }

    /** The iat and jti part of `verifyDpopProof`, in the request with number id. */
    method VerifyDpopProof(now: int, p: Proof, id: nat) returns (accepted: bool)
      modifies this
      ensures accepted == AcceptsProof(old(dpopJtiCache), now, p, id)
      ensures dpopJtiCache == Recorded(old(dpopJtiCache), now, p, id)
    {
      if !p.valid {
        return false;
      }
      if p.iat == 0.0 || Abs(now as real - p.iat) > DPOP_MAX_AGE as real {
        return false;
      }
      if p.jti == Absent {
        return false;
      }
      var used := IsJtiUsed(KeyOf(p.jti, id));
      if used {
        return false;
      }
      RecordJti(KeyOf(p.jti, id), p.iat);
      return true;
    }
  }

  /** A cleanup keeps exactly the jtis of proofs issued at most five minutes ago. */
  lemma CleanupKeepsYoung(cache: JtiCache, now: int, key: JtiKey, iat: real)
    requires Distinct(cache)
    ensures Get(CleanedUp(cache, now), key) == Some(iat) <==> Get(cache, key) == Some(iat) && iat >= now as real - 300.0
  {
    GetSurvivor(cache, (iat: real) => iat < (now - DPOP_MAX_AGE) as real, key);
  }

  datatype ProofStep = Show(now: int, proof: Proof) | Cleanup(now: int)

  function AfterProofs(steps: seq<ProofStep>): JtiCache {
    if steps == [] then []
    else
      var before, last := AfterProofs(steps[..|steps| - 1]), steps[|steps| - 1];
      match last
      case Show(now, p) => Recorded(before, now, p, |steps| - 1)
      case Cleanup(now) => CleanedUp(before, now)
  }

  predicate ProofAcceptedAt(steps: seq<ProofStep>, i: nat)
    requires i < |steps|
  {
    steps[i].Show? && AcceptsProof(AfterProofs(steps[..i]), steps[i].now, steps[i].proof, i)
  }

  ghost predicate ProofClockGoesOn(steps: seq<ProofStep>) {
    forall i, j :: 0 <= i < j < |steps| ==> steps[i].now <= steps[j].now
  }

  lemma {:induction false} JtisDistinct(steps: seq<ProofStep>)
    ensures Distinct(AfterProofs(steps))
  {
    if steps != [] {
      var n := |steps| - 1;
      var before := AfterProofs(steps[..n]);
      JtisDistinct(steps[..n]);
      match steps[n]
      case Show(_, p) =>
        if p.jti != Absent {
          PutKeys(before, KeyOf(p.jti, n), p.iat);
        }
      case Cleanup(now) => GetSurvivor(before, (iat: real) => iat < (now - DPOP_MAX_AGE) as real, ByIdentity(0));
    }
  }

  /** A recorded jti stays until its proof is too old. */
  lemma {:induction false} StaysRecorded(steps: seq<ProofStep>, i: nat)
    requires ProofClockGoesOn(steps) && i < |steps| && ProofAcceptedAt(steps, i) && steps[i].proof.jti.Value?
    requires forall k :: i < k < |steps| ==> (steps[k].now - DPOP_MAX_AGE) as real <= steps[i].proof.iat
    ensures Get(AfterProofs(steps), ByValue(steps[i].proof.jti.text)) == Some(steps[i].proof.iat)
  {
    var n := |steps| - 1;
    var before, key := AfterProofs(steps[..n]), ByValue(steps[i].proof.jti.text);
    if i == n {
      GetPut(before, key, steps[i].proof.iat, key);
    } else {
      assert steps[..n][..i] == steps[..i];
      StaysRecorded(steps[..n], i);
      HasIsMember(before, key);
      match steps[n]
      case Show(_, p) =>
        if p.jti != Absent {
          GetPut(before, KeyOf(p.jti, n), p.iat, key);
        }
      case Cleanup(now) =>
        JtisDistinct(steps[..n]);
        GetSurvivor(before, (iat: real) => iat < (now - DPOP_MAX_AGE) as real, key);
    }
  }

  /** A primitive jti is accepted again only when the proof that first used it has become too old to verify. */
  lemma JtiReusedOnlyWhenExpired(steps: seq<ProofStep>, i: nat, j: nat)
    requires ProofClockGoesOn(steps) && i < j < |steps| && ProofAcceptedAt(steps, i) && ProofAcceptedAt(steps, j)
    requires steps[i].proof.jti == steps[j].proof.jti && steps[i].proof.jti.Value?
    ensures steps[j].now as real > steps[i].proof.iat + DPOP_MAX_AGE as real
  {
    if steps[j].now as real <= steps[i].proof.iat + DPOP_MAX_AGE as real {
      assert steps[..j][..i] == steps[..i];
      StaysRecorded(steps[..j], i);
      HasIsMember(AfterProofs(steps[..j]), ByValue(steps[j].proof.jti.text));
    }
  }

  /** Identities in the cache belong to earlier requests. */
  lemma {:induction false} IdentitiesAreOld(steps: seq<ProofStep>, id: nat)
    requires Has(AfterProofs(steps), ByIdentity(id))
    ensures id < |steps|
  {
    var n := |steps| - 1;
    var before, key := AfterProofs(steps[..n]), ByIdentity(id);
    HasIsMember(before, key);
    HasIsMember(AfterProofs(steps), key);
    if Has(before, key) {
      IdentitiesAreOld(steps[..n], id);
    } else {
      match steps[n]
      case Show(_, p) =>
        if p.jti != Absent {
          GetPut(before, KeyOf(p.jti, n), p.iat, key);
        }
      case Cleanup(now) =>
        JtisDistinct(steps[..n]);
        GetSurvivor(before, (iat: real) => iat < (now - DPOP_MAX_AGE) as real, key);
    }
  }

  /**
   A proof that was accepted and still verifies is accepted again exactly when its jti is an array or
   an object; no proof with a primitive jti is accepted twice.
   */
  lemma ProofTwiceIffComposite(steps: seq<ProofStep>, i: nat, j: nat)
    requires ProofClockGoesOn(steps) && i < j < |steps| && ProofAcceptedAt(steps, i)
    requires steps[j].Show? && steps[j].proof == steps[i].proof
    ensures ProofAcceptedAt(steps, j) <==> steps[i].proof.jti.Composite? && WellTimed(steps[j].now, steps[j].proof)
  {
    if steps[i].proof.jti.Value? {
      if ProofAcceptedAt(steps, j) {
        JtiReusedOnlyWhenExpired(steps, i, j);
      }
    } else if Has(AfterProofs(steps[..j]), ByIdentity(j)) {
      IdentitiesAreOld(steps[..j], j);
    }
  }

  /** A proof whose jti is an array, shown twice within its lifetime, is accepted twice. */
  lemma CompositeProofTwice(text: JsString) returns (steps: seq<ProofStep>)
    ensures |steps| == 2 && steps[0] == steps[1] && ProofClockGoesOn(steps)
    ensures ProofAcceptedAt(steps, 0) && ProofAcceptedAt(steps, 1)
  {
    var show := Show(1000, Proof(Composite(text), 1000.0, true));
    steps := [show, show];
    assert steps[..0] == [];
    assert ProofAcceptedAt(steps, 0);
    ProofTwiceIffComposite(steps, 0, 1);
  }

  /** No DPoP proof with a primitive jti is accepted twice. */
  lemma NoProofTwice(steps: seq<ProofStep>, i: nat, j: nat)
    requires ProofClockGoesOn(steps) && i < j < |steps| && ProofAcceptedAt(steps, i) && ProofAcceptedAt(steps, j)
    requires steps[i].proof.jti.Value?
    ensures steps[i].proof.jti != steps[j].proof.jti || steps[i].proof.iat != steps[j].proof.iat
  {
    if steps[i].proof.jti == steps[j].proof.jti {
      JtiReusedOnlyWhenExpired(steps, i, j);
    }
  }

  /** A key in the cache was accepted before: nobody is refused for a jti never shown. */
  lemma {:induction false} RecordedWasAccepted(steps: seq<ProofStep>, key: JtiKey)
    requires Has(AfterProofs(steps), key)
    ensures exists i :: 0 <= i < |steps| && ProofAcceptedAt(steps, i) && KeyOf(steps[i].proof.jti, i) == key
  {
    var n := |steps| - 1;
    var before := AfterProofs(steps[..n]);
    HasIsMember(before, key);
    HasIsMember(AfterProofs(steps), key);
    if Has(before, key) {
      RecordedWasAccepted(steps[..n], key);
      var i :| 0 <= i < n && ProofAcceptedAt(steps[..n], i) && KeyOf(steps[i].proof.jti, i) == key;
      assert steps[..n][..i] == steps[..i];
      assert ProofAcceptedAt(steps, i);
    } else {
      match steps[n]
      case Show(_, p) =>
        if p.jti != Absent {
          GetPut(before, KeyOf(p.jti, n), p.iat, key);
        }
        assert ProofAcceptedAt(steps, n);
      case Cleanup(now) =>
        JtisDistinct(steps[..n]);
        GetSurvivor(before, (iat: real) => iat < (now - DPOP_MAX_AGE) as real, key);
    }
  }

  /** A request whose proof is otherwise in order, has a jti, and was issued within five minutes of now, either way. */
  predicate ProofPasses(s: ProofStep) {
    s.Show? && s.proof.valid && s.proof.iat != 0.0 && s.proof.jti != Absent
    && s.now as real - 300.0 <= s.proof.iat <= s.now as real + 300.0
  }

  /** No earlier proof passed with this jti. */
  predicate NewJti(steps: seq<ProofStep>, i: nat)
    requires i < |steps| && steps[i].Show?
  {
    forall j :: 0 <= j < i && ProofPasses(steps[j]) ==> steps[j].proof.jti != steps[i].proof.jti
  }

  /** Request j was accepted with the primitive jti of request i, and its proof is not too old at i. */
  predicate StillHeld(steps: seq<ProofStep>, j: nat, i: nat)
    requires j < |steps| && i < |steps| && steps[i].Show?
  {
    && ProofAcceptedAt(steps, j) && steps[j].proof.jti == steps[i].proof.jti && steps[i].proof.jti.Value?
    && steps[i].now as real <= steps[j].proof.iat + 300.0
  }

  /**
   Only a proof that passes is accepted; it is accepted when its jti is composite or no earlier proof passed
   with it, and refused when an earlier accepted one with its jti could still verify.
   */
  lemma ProofAcceptedWhen(steps: seq<ProofStep>, i: nat)
    requires ProofClockGoesOn(steps) && i < |steps| && steps[i].Show?
    ensures ProofAcceptedAt(steps, i) ==> ProofPasses(steps[i])
    ensures ProofPasses(steps[i]) && (steps[i].proof.jti.Composite? || NewJti(steps, i)) ==> ProofAcceptedAt(steps, i)
    ensures (exists j :: 0 <= j < i && StillHeld(steps, j, i)) ==> !ProofAcceptedAt(steps, i)
  {
    var jti := steps[i].proof.jti;
    if ProofPasses(steps[i]) && Has(AfterProofs(steps[..i]), KeyOf(jti, i)) {
      RecordedWasAccepted(steps[..i], KeyOf(jti, i));
      var j :| 0 <= j < i && ProofAcceptedAt(steps[..i], j) && KeyOf(steps[..i][j].proof.jti, j) == KeyOf(jti, i);
      assert ProofPasses(steps[j]) && steps[j].proof.jti == jti && jti.Value?;
    }
    forall j | 0 <= j < i && StillHeld(steps, j, i) ensures !ProofAcceptedAt(steps, i) {
      if ProofAcceptedAt(steps, i) {
        JtiReusedOnlyWhenExpired(steps, j, i);
      }
    }
  }
}
