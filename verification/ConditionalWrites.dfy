/**
 Conditional PUT, DELETE and PATCH (src/handlers/resource.js; sections 13.1.1 and 13.1.2 of RFC 9110):
 early answers outside the lock, then stat, compare and write under it.
 */
module ConditionalWrites {
  import opened OrderedMap

  type Content = string

  /** An entity tag as compared: normalised, or the wildcard. A tag is a number, new for each write. */
  datatype Tag = Star | Etag(tag: nat)

  type Header = Option<seq<Tag>>

  datatype Doc = Doc(etag: nat, content: Content)

  /** The resource, and how many tags have been issued for it. */
  datatype Store = Store(doc: Option<Doc>, issued: nat)

  type ErrorCode = c: int | 400 <= c < 600 witness 500

  /** What the patch makes of the content, if the resource is there. */
  datatype PatchResult = Patched(content: Content) | Unpatchable(code: ErrorCode)

  datatype Request =
    | Put(ifMatch: Header, ifNoneMatch: Header, body: Content)
    | Delete(ifMatch: Header)
    | Patch(ifMatch: Header, change: Option<Content> -> PatchResult)

  /** What comes after the preconditions: the write goes through, or body, quota or storage fail it. */
  datatype Fate = Goes | Fails(code: ErrorCode)

  // ---------- preconditions ----------

  function EtagOf(doc: Option<Doc>): Option<nat> {
    if doc.Some? then Some(doc.value.etag) else None
  }

  predicate CheckIfMatch(header: Header, current: Option<nat>) {
    header.None? || (current.Some? && (Star in header.value || Etag(current.value) in header.value))
  }

  predicate CheckIfNoneMatch(header: Header, current: Option<nat>) {
    header.None? ||
    if Star in header.value then current.None? else !(current.Some? && Etag(current.value) in header.value)
  }

  // ---------- one request at a time ----------

  function Written(s: Store, content: Content): Store {
    Store(Some(Doc(s.issued, content)), s.issued + 1)
  }

  function Created(seen: Option<Doc>): int {
    if seen.Some? then 204 else 201
  }

  /** The part under the lock; `seen` is what stat found. */
  function Execute(s: Store, seen: Option<Doc>, req: Request, fate: Fate): (Store, int) {
    match req
    case Put(ifMatch, ifNoneMatch, body) =>
      if !CheckIfMatch(ifMatch, EtagOf(seen)) || !CheckIfNoneMatch(ifNoneMatch, EtagOf(seen)) then (s, 412)
      else if fate.Fails? then (s, fate.code)
      else (Written(s, body), Created(seen))
    case Delete(ifMatch) =>
      if seen.None? then (s, 404)
      else if !CheckIfMatch(ifMatch, EtagOf(seen)) then (s, 412)
      else if fate.Fails? then (s, fate.code)
      else (s.(doc := None), 204)
    case Patch(ifMatch, change) =>
      if seen.Some? && !CheckIfMatch(ifMatch, EtagOf(seen)) then (s, 412)
      else
        var result := change(if seen.Some? then Some(seen.value.content) else None);
        if result.Unpatchable? then (s, result.code)
        else if fate.Fails? then (s, fate.code)
        else (Written(s, result.content), Created(seen))
  }

  /** The answer given without taking the lock, if there is one. */
  function Early(doc: Option<Doc>, req: Request): Option<int> {
    match req
    case Put(ifMatch, _, _) => if ifMatch.Some? && doc.None? then Some(412) else None
    case Delete(_) => if doc.None? then Some(404) else None
    case Patch(_, _) => None
  }

  datatype Ending = Answered(fate: Fate) | LockTaken

  /** A whole request with nobody else about; a lock another process holds is answered 503. */
  function Alone(s: Store, req: Request, ending: Ending): (Store, int) {
    var early := Early(s.doc, req);
    if early.Some? then (s, early.value)
    else
      match ending
      case LockTaken => (s, 503)
      case Answered(fate) => Execute(s, s.doc, req, fate)
  }

  // ---------- the code under the lock ----------

  class Resource {
    var doc: Option<Doc>
    var issued: nat

    function Now(): Store
      reads this
    {
      Store(doc, issued)
    }

    method WriteResource(ifMatch: Header, ifNoneMatch: Header, body: Content, fate: Fate) returns (status: int)
      modifies this
      ensures (Now(), status) == Execute(old(Now()), old(doc), Put(ifMatch, ifNoneMatch, body), fate)
    {
      var stats := doc;
      var existed := stats.Some?;
      var currentEtag := if existed then Some(stats.value.etag) else None;
      if ifMatch.Some? && !CheckIfMatch(ifMatch, currentEtag) {
        return 412;
      }
      if ifNoneMatch.Some? && !CheckIfNoneMatch(ifNoneMatch, currentEtag) {
        return 412;
      }
      if fate.Fails? {
        return fate.code;
      }
      doc, issued := Some(Doc(issued, body)), issued + 1;
      status := if existed then 204 else 201;
    }

    method RemoveResource(ifMatch: Header, fate: Fate) returns (status: int)
      modifies this
      ensures (Now(), status) == Execute(old(Now()), old(doc), Delete(ifMatch), fate)
    {
      if doc.None? {
        return 404;
      }
      if ifMatch.Some? && !CheckIfMatch(ifMatch, Some(doc.value.etag)) {
        return 412;
      }
      if fate.Fails? {
        return fate.code;
      }
      doc := None;
      status := 204;
    }

    method ApplyPatchRequest(ifMatch: Header, change: Option<Content> -> PatchResult, fate: Fate) returns (status: int)
      modifies this
      ensures (Now(), status) == Execute(old(Now()), old(doc), Patch(ifMatch, change), fate)
    {
      var resourceExists := doc.Some?;
      if resourceExists && ifMatch.Some? && !CheckIfMatch(ifMatch, Some(doc.value.etag)) {
        return 412;
      }
      var result := change(if resourceExists then Some(doc.value.content) else None);
      if result.Unpatchable? {
        return result.code;
      }
      if fate.Fails? {
        return fate.code;
      }
      doc, issued := Some(Doc(issued, result.content)), issued + 1;
      status := if resourceExists then 204 else 201;
    }
  }

  // ---------- all interleavings ----------

  /**
   Where a request is: before its probe, waiting for the lock (its probe is point `mark` of the history),
   holding it, past its stat, answered.
   */
  datatype Phase = Arrived | Queued(mark: nat) | Holding | Checked(seen: Option<Doc>) | Replied(status: int)

  datatype Call = Call(req: Request, phase: Phase)

  /** A point of the history: a probe that found nothing to answer, or a whole request taking effect. */
  datatype Point =
    | Probed(call: nat, req: Request)
    | Whole(call: nat, req: Request, ending: Ending, status: int)

  datatype System = System(store: Store, holder: Option<nat>, calls: seq<Call>, history: seq<Point>)

  datatype Step =
    | Arrive(req: Request)
    | Probe(c: nat)
    | Acquire(c: nat)
    | GiveUp(c: nat)
    | Stat(c: nat)
    | Commit(c: nat, fate: Fate)

  predicate At(s: System, c: nat, phase: Phase) {
    c < |s.calls| && s.calls[c].phase == phase
  }

  /** Waiting for the lock. */
  predicate Waits(s: System, c: nat) {
    c < |s.calls| && s.calls[c].phase.Queued? && s.calls[c].phase.mark < |s.history|
  }

  predicate Enabled(s: System, step: Step) {
    match step
    case Arrive(_) => true
    case Probe(c) => At(s, c, Arrived)
    case Acquire(c) => Waits(s, c) && s.holder.None?
    case GiveUp(c) => Waits(s, c)
    case Stat(c) => At(s, c, Holding)
    case Commit(c, _) => c < |s.calls| && s.calls[c].phase.Checked?
  }

  function Moved(s: System, c: nat, phase: Phase): System
    requires c < |s.calls|
  {
    s.(calls := s.calls[c := s.calls[c].(phase := phase)])
  }

  /** The request takes effect and is answered. */
  function Answer(s: System, c: nat, ending: Ending, status: int): System
    requires c < |s.calls|
  {
    Moved(s, c, Replied(status)).(history := s.history + [Whole(c, s.calls[c].req, ending, status)])
  }

  /** The request waits, its probe marked in the history. */
  function Enqueue(s: System, c: nat): System
    requires c < |s.calls|
  {
    Moved(s, c, Queued(|s.history|)).(history := s.history + [Probed(c, s.calls[c].req)])
  }

  /** The request is answered 503, and takes effect where its probe was. */
  function Abandon(s: System, c: nat): System
    requires Waits(s, c)
  {
    var point := Whole(c, s.calls[c].req, LockTaken, 503);
    Moved(s, c, Replied(503)).(history := s.history[s.calls[c].phase.mark := point])
  }

  function Next(s: System, step: Step): System
    requires Enabled(s, step)
  {
    match step
    case Arrive(req) => s.(calls := s.calls + [Call(req, Arrived)])
    case Probe(c) =>
      var early := Early(s.store.doc, s.calls[c].req);
      if early.Some? then Answer(s, c, Answered(Goes), early.value) else Enqueue(s, c)
    case Acquire(c) => Moved(s, c, Holding).(holder := Some(c))
    case GiveUp(c) => Abandon(s, c)
    case Stat(c) => Moved(s, c, Checked(s.store.doc))
    case Commit(c, fate) =>
      var (store, status) := Execute(s.store, s.calls[c].phase.seen, s.calls[c].req, fate);
      Answer(s, c, Answered(fate), status).(store := store, holder := None)
  }

  // ---------- the order that explains a run ----------

  /** The store after the requests of a history, one at a time; a probe changes nothing. */
  function Replay(s: Store, history: seq<Point>): Store {
    if history == [] then s
    else
      var before, p := Replay(s, history[..|history| - 1]), history[|history| - 1];
      if p.Probed? then before else Alone(before, p.req, p.ending).0
  }

  /** What a point of the history says is what happens at that point with nobody else about. */
  predicate Fits(s: Store, p: Point) {
    match p
    case Probed(_, req) => Early(s.doc, req).None?
    case Whole(_, req, ending, status) => status == Alone(s, req, ending).1
  }

  /** Every request of the history gets the answer it would get alone, in that order. */
  ghost predicate Explains(s: Store, history: seq<Point>) {
    forall i :: 0 <= i < |history| ==> Fits(Replay(s, history[..i]), history[i])
  }

  ghost predicate LockOk(s: System) {
    && (s.holder.Some? ==> s.holder.value < |s.calls|)
    && forall c :: 0 <= c < |s.calls| ==>
        && (s.calls[c].phase == Holding || s.calls[c].phase.Checked? <==> s.holder == Some(c))
        && (s.calls[c].phase.Checked? ==> s.calls[c].phase.seen == s.store.doc)
  }

  ghost predicate Recorded(s: System, p: Point) {
    && p.call < |s.calls| && p.req == s.calls[p.call].req
    && match p
       case Probed(c, _) => s.calls[c].phase != Arrived
       case Whole(c, _, _, status) => s.calls[c].phase == Replied(status)
  }

  /** The call has its one whole point if it is answered, and its probe stands marked while it waits. */
  ghost predicate Marked(s: System, c: nat)
    requires c < |s.calls|
  {
    match s.calls[c].phase
    case Queued(mark) => mark < |s.history| && s.history[mark] == Probed(c, s.calls[c].req)
    case Replied(_) => exists i :: 0 <= i < |s.history| && IsWhole(s.history[i], c)
    case _ => true
  }

  predicate IsWhole(p: Point, c: nat) {
    p.Whole? && p.call == c
  }

  /** The history holds exactly the answered requests, once each, and marks of probes. */
  ghost predicate HistoryOk(s: System) {
    && (forall i :: 0 <= i < |s.history| ==> Recorded(s, s.history[i]))
    && (forall i, j :: 0 <= i < j < |s.history| && s.history[i].Whole? && s.history[j].Whole? ==>
          s.history[i].call != s.history[j].call)
    && (forall c :: 0 <= c < |s.calls| ==> Marked(s, c))
  }

  ghost predicate Inv(start: Store, s: System) {
    LockOk(s) && HistoryOk(s) && Explains(start, s.history) && Replay(start, s.history) == s.store
  }

  lemma ExplainsSnoc(start: Store, history: seq<Point>, p: Point)
    requires Explains(start, history) && Fits(Replay(start, history), p)
    ensures Explains(start, history + [p])
    ensures Replay(start, history + [p]) ==
            if p.Probed? then Replay(start, history) else Alone(Replay(start, history), p.req, p.ending).0
  {
    var longer := history + [p];
    assert longer[..|history|] == history;
    forall i | 0 <= i < |longer| ensures Fits(Replay(start, longer[..i]), longer[i]) {
      if i < |history| {
        assert longer[..i] == history[..i];
      }
    }
  }

  /** A request answered 503 changes the store no more than its probe did. */
  lemma {:induction false} ReplaySwap(start: Store, history: seq<Point>, k: nat, p: Point)
    requires k < |history| && history[k].Probed? && p.Whole? && p.ending == LockTaken
    ensures Replay(start, history[k := p]) == Replay(start, history)
  {
    var n := |history| - 1;
    if k == n {
      assert history[k := p][..n] == history[..n];
    } else {
      assert history[k := p][..n] == history[..n][k := p];
      ReplaySwap(start, history[..n], k, p);
    }
  }

  /** Where the probe found nothing to answer, 503 is the answer alone. */
  lemma ExplainsSwap(start: Store, history: seq<Point>, k: nat, p: Point)
    requires Explains(start, history) && k < |history| && history[k].Probed?
    requires p == Whole(history[k].call, history[k].req, LockTaken, 503)
    ensures Explains(start, history[k := p]) && Replay(start, history[k := p]) == Replay(start, history)
  {
    var swapped := history[k := p];
    ReplaySwap(start, history, k, p);
    forall i | 0 <= i < |swapped| ensures Fits(Replay(start, swapped[..i]), swapped[i]) {
      if i <= k {
        assert swapped[..i] == history[..i];
        assert Fits(Replay(start, history[..i]), history[i]);
      } else {
        assert swapped[..i] == history[..i][k := p];
        ReplaySwap(start, history[..i], k, p);
      }
    }
  }

  lemma MovedHistoryOk(s: System, c: nat, phase: Phase)
    requires HistoryOk(s) && c < |s.calls| && !s.calls[c].phase.Replied?
    requires phase.Holding? || phase.Checked?
    ensures HistoryOk(Moved(s, c, phase))
  {
    var r := Moved(s, c, phase);
    forall i | 0 <= i < |r.history| ensures Recorded(r, r.history[i]) {
      assert Recorded(s, s.history[i]);
    }
    forall d | 0 <= d < |r.calls| ensures Marked(r, d) {
      assert Marked(s, d);
    }
  }

  lemma AnswerHistoryOk(s: System, c: nat, ending: Ending, status: int)
    requires HistoryOk(s) && c < |s.calls| && !s.calls[c].phase.Replied?
    ensures HistoryOk(Answer(s, c, ending, status))
  {
    var r, n := Answer(s, c, ending, status), |s.history|;
    forall i | 0 <= i < |r.history| ensures Recorded(r, r.history[i]) {
      if i < n {
        assert Recorded(s, s.history[i]);
      }
    }
    forall i, j | 0 <= i < j < |r.history| && r.history[i].Whole? && r.history[j].Whole?
      ensures r.history[i].call != r.history[j].call
    {
      assert Recorded(s, s.history[i]);
    }
    forall d | 0 <= d < |r.calls| ensures Marked(r, d) {
      assert Marked(s, d);
      if d == c {
        assert IsWhole(r.history[n], d);
      } else if s.calls[d].phase.Replied? {
        var i :| 0 <= i < n && IsWhole(s.history[i], d);
        assert IsWhole(r.history[i], d);
      }
    }
  }

  lemma EnqueueHistoryOk(s: System, c: nat)
    requires HistoryOk(s) && At(s, c, Arrived)
    ensures HistoryOk(Enqueue(s, c))
  {
    var r, n := Enqueue(s, c), |s.history|;
    forall i | 0 <= i < |r.history| ensures Recorded(r, r.history[i]) {
      if i < n {
        assert Recorded(s, s.history[i]);
      }
    }
    forall d | 0 <= d < |r.calls| ensures Marked(r, d) {
      assert Marked(s, d);
      if d != c && s.calls[d].phase.Replied? {
        var i :| 0 <= i < n && IsWhole(s.history[i], d);
        assert IsWhole(r.history[i], d);
      }
    }
  }

  lemma AbandonHistoryOk(s: System, c: nat)
    requires HistoryOk(s) && Waits(s, c)
    ensures HistoryOk(Abandon(s, c))
  {
    var r, mark := Abandon(s, c), s.calls[c].phase.mark;
    assert Marked(s, c);
    forall i | 0 <= i < |r.history| ensures Recorded(r, r.history[i]) {
      assert Recorded(s, s.history[i]);
    }
    forall i, j | 0 <= i < j < |r.history| && r.history[i].Whole? && r.history[j].Whole?
      ensures r.history[i].call != r.history[j].call
    {
      assert Recorded(s, s.history[i]) && Recorded(s, s.history[j]);
    }
    forall d | 0 <= d < |r.calls| ensures Marked(r, d) {
      assert Marked(s, d);
      if d == c {
        assert IsWhole(r.history[mark], d);
      } else if s.calls[d].phase.Replied? {
        var i :| 0 <= i < |s.history| && IsWhole(s.history[i], d);
        assert IsWhole(r.history[i], d);
      }
    }
  }

  /** What a request finds under the lock is what it would have found alone. */
  lemma EarlyAgrees(s: Store, req: Request, fate: Fate)
    ensures Alone(s, req, Answered(fate)) == Execute(s, s.doc, req, fate)
  {
  }

  lemma NextLockOk(s: System, step: Step)
    requires LockOk(s) && Enabled(s, step)
    ensures LockOk(Next(s, step))
  {
  }

  lemma NextHistoryOk(s: System, step: Step)
    requires LockOk(s) && HistoryOk(s) && Enabled(s, step)
    ensures HistoryOk(Next(s, step))
  {
    match step
    case Arrive(req) =>
      var r := Next(s, step);
      forall i | 0 <= i < |r.history| ensures Recorded(r, r.history[i]) {
        assert Recorded(s, s.history[i]);
      }
      forall d | 0 <= d < |r.calls| ensures Marked(r, d) {
        assert d < |s.calls| ==> Marked(s, d);
      }
    case Probe(c) =>
      var early := Early(s.store.doc, s.calls[c].req);
      if early.Some? {
        AnswerHistoryOk(s, c, Answered(Goes), early.value);
      } else {
        EnqueueHistoryOk(s, c);
      }
    case Acquire(c) =>
      MovedHistoryOk(s, c, Holding);
      SameHistory(Moved(s, c, Holding), Next(s, step));
    case GiveUp(c) => AbandonHistoryOk(s, c);
    case Stat(c) => MovedHistoryOk(s, c, Checked(s.store.doc));
    case Commit(c, fate) =>
      var (store, status) := Execute(s.store, s.calls[c].phase.seen, s.calls[c].req, fate);
      AnswerHistoryOk(s, c, Answered(fate), status);
      SameHistory(Answer(s, c, Answered(fate), status), Next(s, step));
  }

  lemma SameHistory(s: System, r: System)
    requires HistoryOk(s) && r.calls == s.calls && r.history == s.history
    ensures HistoryOk(r)
  {
    forall i | 0 <= i < |r.history| ensures Recorded(r, r.history[i]) {
      assert Recorded(s, s.history[i]);
    }
    forall d | 0 <= d < |r.calls| ensures Marked(r, d) {
      assert Marked(s, d);
    }
  }

  lemma NextExplained(start: Store, s: System, step: Step)
    requires Inv(start, s) && Enabled(s, step)
    ensures Explains(start, Next(s, step).history) && Replay(start, Next(s, step).history) == Next(s, step).store
  {
    match step
    case Arrive(_) =>
    case Probe(c) =>
      var early := Early(s.store.doc, s.calls[c].req);
      var point := if early.Some? then Whole(c, s.calls[c].req, Answered(Goes), early.value)
                   else Probed(c, s.calls[c].req);
      ExplainsSnoc(start, s.history, point);
    case Acquire(_) =>
    case GiveUp(c) =>
      assert Marked(s, c);
      ExplainsSwap(start, s.history, s.calls[c].phase.mark, Whole(c, s.calls[c].req, LockTaken, 503));
    case Stat(_) =>
    case Commit(c, fate) =>
      var (store, status) := Execute(s.store, s.calls[c].phase.seen, s.calls[c].req, fate);
      EarlyAgrees(s.store, s.calls[c].req, fate);
      ExplainsSnoc(start, s.history, Whole(c, s.calls[c].req, Answered(fate), status));
  }

  lemma NextKeepsInv(start: Store, s: System, step: Step)
    requires Inv(start, s) && Enabled(s, step)
    ensures Inv(start, Next(s, step))
  {
    NextLockOk(s, step);
    NextHistoryOk(s, step);
    NextExplained(start, s, step);
  }

  /** The system after a run of steps, if each was enabled. */
  function Run(start: Store, steps: seq<Step>): Option<System>
    decreases |steps|
  {
    if steps == [] then Some(System(start, None, [], []))
    else
      var before, last := Run(start, steps[..|steps| - 1]), steps[|steps| - 1];
      if before.Some? && Enabled(before.value, last) then Some(Next(before.value, last)) else None
  }

  lemma {:induction false} RunInv(start: Store, steps: seq<Step>)
    requires Run(start, steps).Some?
    ensures Inv(start, Run(start, steps).value)
    decreases |steps|
  {
    if steps != [] {
      RunInv(start, steps[..|steps| - 1]);
      NextKeepsInv(start, Run(start, steps[..|steps| - 1]).value, steps[|steps| - 1]);
    }
  }

  /** The whole requests of a history, in its order. */
  function Wholes(history: seq<Point>): seq<Point> {
    if history == [] then []
    else
      var before, p := Wholes(history[..|history| - 1]), history[|history| - 1];
      if p.Whole? then before + [p] else before
  }

  /** The probes can be left out of the history. */
  lemma {:induction false} WholesExplain(s: Store, history: seq<Point>)
    requires Explains(s, history)
    ensures Explains(s, Wholes(history)) && Replay(s, Wholes(history)) == Replay(s, history)
  {
    if history != [] {
      var n := |history| - 1;
      var before, p := history[..n], history[n];
      forall i | 0 <= i < |before| ensures Fits(Replay(s, before[..i]), before[i]) {
        assert before[..i] == history[..i];
        assert Fits(Replay(s, history[..i]), history[i]);
      }
      WholesExplain(s, before);
      assert Fits(Replay(s, history[..n]), history[n]);
      if p.Whole? {
        ExplainsSnoc(s, Wholes(before), p);
      }
    }
  }

  lemma {:induction false} WholesHolds(history: seq<Point>, p: Point)
    ensures p in Wholes(history) <==> p in history && p.Whole?
  {
    if history != [] {
      var n := |history| - 1;
      WholesHolds(history[..n], p);
      assert history == history[..n] + [history[n]];
    }
  }

  lemma {:induction false} WholesOnce(history: seq<Point>)
    requires forall i, j :: 0 <= i < j < |history| && history[i].Whole? && history[j].Whole? ==> history[i].call != history[j].call
    ensures var w := Wholes(history); forall i, j :: 0 <= i < j < |w| ==> w[i].call != w[j].call
  {
    if history != [] {
      var n := |history| - 1;
      WholesOnce(history[..n]);
      forall i | 0 <= i < |Wholes(history[..n])| && history[n].Whole?
        ensures Wholes(history[..n])[i].call != history[n].call
      {
        WholesHolds(history[..n], Wholes(history[..n])[i]);
      }
    }
  }

  /** The order holds exactly the answered requests, once each and with the answer each got. */
  ghost predicate ListsAnswers(s: System, order: seq<Point>) {
    && (forall i :: 0 <= i < |order| ==> order[i].Whole? && Recorded(s, order[i]))
    && (forall i, j :: 0 <= i < j < |order| ==> order[i].call != order[j].call)
    && (forall c :: 0 <= c < |s.calls| && s.calls[c].phase.Replied? ==> exists i :: 0 <= i < |order| && IsWhole(order[i], c))
  }

  lemma WholesListAnswers(s: System)
    requires HistoryOk(s)
    ensures ListsAnswers(s, Wholes(s.history))
  {
    var order := Wholes(s.history);
    WholesOnce(s.history);
    forall i | 0 <= i < |order| ensures order[i].Whole? && Recorded(s, order[i]) {
      WholesHolds(s.history, order[i]);
    }
    forall c | 0 <= c < |s.calls| && s.calls[c].phase.Replied?
      ensures exists i :: 0 <= i < |order| && IsWhole(order[i], c)
    {
      assert Marked(s, c);
      var k :| 0 <= k < |s.history| && IsWhole(s.history[k], c);
      WholesHolds(s.history, s.history[k]);
      var i :| 0 <= i < |order| && order[i] == s.history[k];
      assert IsWhole(order[i], c);
    }
  }

  /**
   Every interleaving has an order of its answered requests, once each and with the answer each got,
   in which executing them one at a time gives those answers and the store as it is.
   */
  lemma EveryRunExplained(start: Store, steps: seq<Step>)
    requires Run(start, steps).Some?
    ensures var s := Run(start, steps).value;
      var order := Wholes(s.history);
      ListsAnswers(s, order) && Explains(start, order) && Replay(start, order) == s.store
  {
    RunInv(start, steps);
    WholesListAnswers(Run(start, steps).value);
    WholesExplain(start, Run(start, steps).value.history);
  }

  /** The history and the calls only grow; a point keeps its request, and a whole one stays as it is. */
  ghost predicate Later(s: System, r: System) {
    && |s.history| <= |r.history| && |s.calls| <= |r.calls|
    && forall i :: 0 <= i < |s.history| ==> Stays(s.history[i], r.history[i])
  }

  ghost predicate Stays(p: Point, q: Point) {
    p.call == q.call && (p.Whole? ==> q == p)
  }

  lemma NextIsLater(s: System, step: Step)
    requires HistoryOk(s) && Enabled(s, step)
    ensures Later(s, Next(s, step))
  {
    if step.GiveUp? {
      assert Marked(s, step.c);
    }
    forall i | 0 <= i < |s.history| ensures Stays(s.history[i], Next(s, step).history[i]) {
    }
  }

  lemma LaterStill(s: System, b: System, r: System)
    requires Later(s, b) && Later(b, r)
    ensures Later(s, r)
  {
    forall i | 0 <= i < |s.history| ensures Stays(s.history[i], r.history[i]) {
      assert Stays(s.history[i], b.history[i]) && Stays(b.history[i], r.history[i]);
    }
  }

  lemma {:induction false} RunIsLater(start: Store, steps: seq<Step>, n: nat)
    requires n <= |steps| && Run(start, steps).Some?
    ensures Run(start, steps[..n]).Some? && Later(Run(start, steps[..n]).value, Run(start, steps).value)
    decreases |steps|
  {
    if n == |steps| {
      assert steps[..n] == steps;
    } else {
      var m := |steps| - 1;
      assert steps[..m][..n] == steps[..n];
      RunIsLater(start, steps[..m], n);
      RunInv(start, steps[..m]);
      NextIsLater(Run(start, steps[..m]).value, steps[m]);
      LaterStill(Run(start, steps[..n]).value, Run(start, steps[..m]).value, Run(start, steps).value);
    }
  }

  /** In the history a request answered before another arrives comes before it. */
  lemma HistoryRespectsTime(start: Store, steps: seq<Step>, n: nat, i: nat, j: nat)
    requires n <= |steps| && Run(start, steps[..n]).Some? && Run(start, steps).Some?
    requires i < |Run(start, steps).value.history| && j < |Run(start, steps).value.history|
    requires Run(start, steps).value.history[i].Whole?
    requires AnsweredBy(start, steps, n, Run(start, steps).value.history[i].call)
    requires ArrivesAfter(start, steps, n, Run(start, steps).value.history[j].call)
    ensures i < j
  {
    RunInv(start, steps[..n]);
    RunInv(start, steps);
    RunIsLater(start, steps, n);
    var s, r := Run(start, steps[..n]).value, Run(start, steps).value;
    assert Marked(s, r.history[i].call);
    var k :| 0 <= k < |s.history| && IsWhole(s.history[k], r.history[i].call);
    assert Stays(s.history[k], r.history[k]);
    assert k == i;
    forall m | 0 <= m < |s.history| ensures r.history[m].call < |s.calls| {
      assert Stays(s.history[m], r.history[m]);
      assert Recorded(s, s.history[m]);
    }
  }

  /** After the first n steps the call has been answered. */
  predicate AnsweredBy(start: Store, steps: seq<Step>, n: nat, c: nat)
    requires n <= |steps| && Run(start, steps[..n]).Some?
  {
    c < |Run(start, steps[..n]).value.calls| && Run(start, steps[..n]).value.calls[c].phase.Replied?
  }

  /** The call is not among those of the first n steps. */
  predicate ArrivesAfter(start: Store, steps: seq<Step>, n: nat, c: nat)
    requires n <= |steps| && Run(start, steps[..n]).Some?
  {
    c >= |Run(start, steps[..n]).value.calls|
  }

  lemma {:induction false} WholesPrefix(history: seq<Point>, m: nat)
    requires m <= |history|
    ensures Wholes(history[..m]) <= Wholes(history)
  {
    if m == |history| {
      assert history[..m] == history;
    } else {
      assert history[..|history| - 1][..m] == history[..m];
      WholesPrefix(history[..|history| - 1], m);
    }
  }

  /** Leaving out the probes keeps the requests in order. */
  lemma WholesKeepOrder(history: seq<Point>, i: nat, j: nat, a: nat, b: nat)
    requires forall k, l :: 0 <= k < l < |history| && history[k].Whole? && history[l].Whole? ==> history[k].call != history[l].call
    requires i < |Wholes(history)| && j < |Wholes(history)| && a < b < |history|
    requires Wholes(history)[i] == history[a] && Wholes(history)[j] == history[b] && history[a].Whole? && history[b].Whole?
    ensures i < j
  {
    var front := history[..a + 1];
    WholesPrefix(history, a + 1);
    WholesOnce(history);
    WholesHolds(front, history[a]);
    assert front[a] == history[a];
    var k :| 0 <= k < |Wholes(front)| && Wholes(front)[k] == history[a];
    assert k == i;
    forall l | 0 <= l < |front| ensures front[l] != history[b] {
      assert front[l] == history[l];
    }
    WholesHolds(front, history[b]);
  }

  /** The order of the requests respects time: one answered before another arrives comes before it. */
  lemma OrderRespectsTime(start: Store, steps: seq<Step>, n: nat, i: nat, j: nat)
    requires n <= |steps| && Run(start, steps[..n]).Some? && Run(start, steps).Some?
    requires i < |Wholes(Run(start, steps).value.history)| && j < |Wholes(Run(start, steps).value.history)|
    requires AnsweredBy(start, steps, n, Wholes(Run(start, steps).value.history)[i].call)
    requires ArrivesAfter(start, steps, n, Wholes(Run(start, steps).value.history)[j].call)
    ensures i < j
  {
    RunInv(start, steps);
    var h := Run(start, steps).value.history;
    WholesHolds(h, Wholes(h)[i]);
    WholesHolds(h, Wholes(h)[j]);
    var a :| 0 <= a < |h| && h[a] == Wholes(h)[i];
    var b :| 0 <= b < |h| && h[b] == Wholes(h)[j];
    HistoryRespectsTime(start, steps, n, a, b);
    WholesKeepOrder(h, i, j, a, b);
  }

  // ---------- what each request answers and leaves ----------

  predicate Success(status: int) {
    200 <= status < 300
  }

  /** Section 13.1.1 of RFC 9110: the header is absent, or the resource is there and '*' or its tag is listed. */
  ghost predicate MatchMet(header: Header, doc: Option<Doc>) {
    header.Some? ==> doc.Some? && exists t :: t in header.value && (t == Star || t == Etag(doc.value.etag))
  }

  /** Section 13.1.2 of RFC 9110: absent, or '*' and no resource is there, or a list without the resource's tag. */
  ghost predicate NoneMatchMet(header: Header, doc: Option<Doc>) {
    match header
    case None => true
    case Some(tags) => if Star in tags then doc.None? else forall t :: t in tags ==> doc.None? || t != Etag(doc.value.etag)
  }

  /** The store the request at a point finds, and the one it leaves. */
  ghost predicate Between(start: Store, steps: seq<Step>, i: nat, before: Store, p: Point, after: Store) {
    && Run(start, steps).Some?
    && var h := Run(start, steps).value.history;
       i < |h| && p == h[i] && p.Whole? && before == Replay(start, h[..i]) && after == Replay(start, h[..i + 1])
  }

  lemma BetweenIsAlone(start: Store, steps: seq<Step>, i: nat, before: Store, p: Point, after: Store)
    requires Between(start, steps, i, before, p, after)
    ensures (after, p.status) == Alone(before, p.req, p.ending)
  {
    RunInv(start, steps);
    var h := Run(start, steps).value.history;
    assert Fits(Replay(start, h[..i]), h[i]);
    assert h[..i + 1][..i] == h[..i];
  }

  /** A PUT in any interleaving: when it succeeds, what it then leaves, and how it is refused. */
  lemma PutOutcome(start: Store, steps: seq<Step>, i: nat, before: Store, p: Point, after: Store)
    requires Between(start, steps, i, before, p, after) && p.req.Put?
    ensures Success(p.status) <==>
      p.ending == Answered(Goes) && MatchMet(p.req.ifMatch, before.doc) && NoneMatchMet(p.req.ifNoneMatch, before.doc)
    ensures Success(p.status) ==>
      && after == Store(Some(Doc(before.issued, p.req.body)), before.issued + 1)
      && p.status == if before.doc.None? then 201 else 204
    ensures !Success(p.status) ==>
      && after == before
      && p.status == if p.req.ifMatch.Some? && before.doc.None? then 412
                     else if p.ending == LockTaken then 503
                     else if MatchMet(p.req.ifMatch, before.doc) && NoneMatchMet(p.req.ifNoneMatch, before.doc) then p.ending.fate.code
                     else 412
  {
    BetweenIsAlone(start, steps, i, before, p, after);
  }

  /** A DELETE in any interleaving. */
  lemma DeleteOutcome(start: Store, steps: seq<Step>, i: nat, before: Store, p: Point, after: Store)
    requires Between(start, steps, i, before, p, after) && p.req.Delete?
    ensures Success(p.status) <==> p.ending == Answered(Goes) && before.doc.Some? && MatchMet(p.req.ifMatch, before.doc)
    ensures Success(p.status) ==> after == Store(None, before.issued) && p.status == 204
    ensures !Success(p.status) ==>
      && after == before
      && p.status == if before.doc.None? then 404
                     else if p.ending == LockTaken then 503
                     else if MatchMet(p.req.ifMatch, before.doc) then p.ending.fate.code
                     else 412
  {
    BetweenIsAlone(start, steps, i, before, p, after);
  }

  /** A PATCH in any interleaving; If-Match counts only when the resource is there. */
  lemma PatchOutcome(start: Store, steps: seq<Step>, i: nat, before: Store, p: Point, after: Store)
    requires Between(start, steps, i, before, p, after) && p.req.Patch?
    ensures var result := p.req.change(if before.doc.Some? then Some(before.doc.value.content) else None);
      var met := before.doc.None? || MatchMet(p.req.ifMatch, before.doc);
      && (Success(p.status) <==> p.ending == Answered(Goes) && met && result.Patched?)
      && (Success(p.status) ==>
            && after == Store(Some(Doc(before.issued, result.content)), before.issued + 1)
            && p.status == if before.doc.None? then 201 else 204)
      && (!Success(p.status) ==>
            && after == before
            && p.status == if p.ending == LockTaken then 503
                           else if !met then 412
                           else if result.Unpatchable? then result.code
                           else p.ending.fate.code)
  {
    BetweenIsAlone(start, steps, i, before, p, after);
  }

  /** A PUT that is only to create the resource. */
  ghost predicate OnlyCreates(p: Point) {
    p.Whole? && p.req.Put? && p.req.ifNoneMatch.Some? && Star in p.req.ifNoneMatch.value
  }

  ghost predicate NoDeleteIn(history: seq<Point>, i: nat, j: nat) {
    forall k :: i < k < j && k < |history| && history[k].Whole? ==> !history[k].req.Delete?
  }

  /** Without a DELETE the resource stays. */
  lemma {:induction false} StaysThere(start: Store, history: seq<Point>, i: nat, j: nat)
    requires i < j <= |history| && NoDeleteIn(history, i, j) && Replay(start, history[..i + 1]).doc.Some?
    ensures Replay(start, history[..j]).doc.Some?
    decreases j
  {
    if i + 1 < j {
      StaysThere(start, history, i, j - 1);
      assert history[..j][..j - 1] == history[..j - 1];
    }
  }

  /** In every interleaving, among the PUTs with If-None-Match '*' and no DELETE between them at most one succeeds. */
  lemma OneCreates(start: Store, steps: seq<Step>, i: nat, j: nat)
    requires Run(start, steps).Some? && i < j < |Run(start, steps).value.history|
    requires OnlyCreates(Run(start, steps).value.history[i]) && OnlyCreates(Run(start, steps).value.history[j])
    requires NoDeleteIn(Run(start, steps).value.history, i, j)
    ensures !(Success(Run(start, steps).value.history[i].status) && Success(Run(start, steps).value.history[j].status))
  {
    var h := Run(start, steps).value.history;
    if Success(h[i].status) {
      PutOutcome(start, steps, i, Replay(start, h[..i]), h[i], Replay(start, h[..i + 1]));
      StaysThere(start, h, i, j);
      PutOutcome(start, steps, j, Replay(start, h[..j]), h[j], Replay(start, h[..j + 1]));
    }
  }

  // ---------- the lost update ----------

  /** The tag is used up: it was issued, and the resource no longer carries it. */
  predicate Gone(s: Store, tag: nat) {
    tag < s.issued && EtagOf(s.doc) != Some(tag)
  }

  predicate TagsIssued(s: Store) {
    s.doc.Some? ==> s.doc.value.etag < s.issued
  }

  lemma {:induction false} ReplayIssued(s: Store, history: seq<Point>)
    requires TagsIssued(s)
    ensures TagsIssued(Replay(s, history))
  {
    if history != [] {
      ReplayIssued(s, history[..|history| - 1]);
    }
  }

  lemma {:induction false} StaysGone(s: Store, history: seq<Point>, i: nat, tag: nat)
    requires i <= |history| && Gone(Replay(s, history[..i]), tag)
    ensures Gone(Replay(s, history), tag)
  {
    if i == |history| {
      assert history[..i] == history;
    } else {
      var n := |history| - 1;
      assert history[..n][..i] == history[..i];
      StaysGone(s, history[..n], i, tag);
    }
  }

  /** Nothing in the list fits: its tags have been issued, and the resource carries none of them. */
  ghost predicate AllGone(s: Store, tags: seq<Tag>) {
    forall t :: t in tags ==> t.Etag? && Gone(s, t.tag)
  }

  ghost predicate AllIssued(s: Store, tags: seq<Tag>) {
    forall t :: t in tags ==> t.Etag? && t.tag < s.issued
  }

  lemma AllStayGone(s: Store, history: seq<Point>, i: nat, tags: seq<Tag>)
    requires i <= |history| && AllGone(Replay(s, history[..i]), tags)
    ensures AllGone(Replay(s, history), tags)
  {
    forall t | t in tags ensures t.Etag? && Gone(Replay(s, history), t.tag) {
      StaysGone(s, history, i, t.tag);
    }
  }

  /** A success changes the resource, so that no tag issued before it fits any more. */
  lemma SuccessUsesUp(s: Store, history: seq<Point>, i: nat, j: nat, tags: seq<Tag>)
    requires TagsIssued(s) && Explains(s, history) && i < j <= |history| && history[i].Whole? && Success(history[i].status)
    requires AllIssued(Replay(s, history[..i]), tags)
    ensures AllGone(Replay(s, history[..j]), tags)
  {
    assert Fits(Replay(s, history[..i]), history[i]);
    assert history[..i + 1][..i] == history[..i] && history[..j][..i + 1] == history[..i + 1];
    assert AllGone(Replay(s, history[..i + 1]), tags);
    AllStayGone(s, history[..j], i + 1, tags);
  }

  /** A PATCH that finds no resource, so that its If-Match is not looked at, and goes through. */
  ghost predicate Recreates(s: Store, p: Point)
    requires p.Whole?
  {
    p.req.Patch? && s.doc.None? && p.req.change(None).Patched? && p.ending == Answered(Goes)
  }

  /** A request whose If-Match lists only tags issued in this store. */
  ghost predicate NamesOld(s: Store, p: Point) {
    p.Whole? && p.req.ifMatch.Some? && AllIssued(s, p.req.ifMatch.value)
  }

  /**
   After any success, a later request whose If-Match lists only tags issued before that success succeeds
   exactly if it is such a PATCH.
   */
  lemma SecondUse(s: Store, history: seq<Point>, i: nat, j: nat)
    requires TagsIssued(s) && Explains(s, history) && i < j < |history| && history[i].Whole? && Success(history[i].status)
    requires NamesOld(Replay(s, history[..i]), history[j])
    ensures Success(history[j].status) <==> Recreates(Replay(s, history[..j]), history[j])
  {
    SuccessUsesUp(s, history, i, j, history[j].req.ifMatch.value);
    assert Fits(Replay(s, history[..j]), history[j]);
  }

  /** The same in every interleaving. */
  lemma SecondSuccess(start: Store, steps: seq<Step>, i: nat, j: nat)
    requires TagsIssued(start) && Run(start, steps).Some?
    requires i < j < |Run(start, steps).value.history|
    requires var p := Run(start, steps).value.history[i]; p.Whole? && Success(p.status)
    requires var h := Run(start, steps).value.history; NamesOld(Replay(start, h[..i]), h[j])
    ensures var h := Run(start, steps).value.history;
      Success(h[j].status) <==> Recreates(Replay(start, h[..j]), h[j])
  {
    RunInv(start, steps);
    SecondUse(start, Run(start, steps).value.history, i, j);
  }

  lemma {:induction false} IssuedGrows(s: Store, history: seq<Point>)
    ensures s.issued <= Replay(s, history).issued
  {
    if history != [] {
      IssuedGrows(s, history[..|history| - 1]);
    }
  }

  /** A PUT or DELETE whose If-Match lists only tags issued in this store. */
  ghost predicate WritesOld(s: Store, p: Point) {
    NamesOld(s, p) && !p.req.Patch?
  }

  /**
   In every interleaving, among the PUTs and DELETEs whose If-Match lists only tags issued at the start,
   the same or different ones, at most one succeeds.
   */
  lemma OneOldWinner(start: Store, steps: seq<Step>, i: nat, j: nat)
    requires TagsIssued(start) && Run(start, steps).Some?
    requires i < |Run(start, steps).value.history| && j < |Run(start, steps).value.history| && i != j
    requires WritesOld(start, Run(start, steps).value.history[i]) && Success(Run(start, steps).value.history[i].status)
    requires WritesOld(start, Run(start, steps).value.history[j])
    ensures !Success(Run(start, steps).value.history[j].status)
  {
    var h := Run(start, steps).value.history;
    if Success(h[j].status) {
      var a, b := if i < j then i else j, if i < j then j else i;
      IssuedGrows(start, h[..a]);
      SecondSuccess(start, steps, a, b);
    }
  }

  /** A request that names just this tag in If-Match. */
  ghost predicate Names(p: Point, tag: nat) {
    p.Whole? && p.req.ifMatch == Some([Etag(tag)])
  }

  /** A write that names one tag in If-Match. */
  ghost predicate WritesTag(p: Point, tag: nat) {
    Names(p, tag) && !p.req.Patch?
  }

  /** The tag a successful write names is that of the resource, so it has been issued. */
  lemma UsedTagIssued(s: Store, p: Point, tag: nat)
    requires TagsIssued(s) && Fits(s, p) && WritesTag(p, tag) && Success(p.status)
    ensures tag < s.issued
  {
  }

  /** After a successful PUT or DELETE that names a tag, this is so of every later request that names it. */
  lemma SameTagAgain(s: Store, history: seq<Point>, i: nat, j: nat, tag: nat)
    requires TagsIssued(s) && Explains(s, history) && i < j < |history|
    requires WritesTag(history[i], tag) && Success(history[i].status) && Names(history[j], tag)
    ensures Success(history[j].status) <==> Recreates(Replay(s, history[..j]), history[j])
  {
    ReplayIssued(s, history[..i]);
    UsedTagIssued(Replay(s, history[..i]), history[i], tag);
    SecondUse(s, history, i, j);
  }

  /** Among the PUTs and DELETEs that name the same concrete tag, whenever it was issued, at most one succeeds. */
  lemma OneWinner(start: Store, steps: seq<Step>, i: nat, j: nat, tag: nat)
    requires TagsIssued(start) && Run(start, steps).Some?
    requires i < |Run(start, steps).value.history| && j < |Run(start, steps).value.history| && i != j
    requires WritesTag(Run(start, steps).value.history[i], tag) && Success(Run(start, steps).value.history[i].status)
    requires WritesTag(Run(start, steps).value.history[j], tag)
    ensures !Success(Run(start, steps).value.history[j].status)
  {
    RunInv(start, steps);
    var h := Run(start, steps).value.history;
    if Success(h[j].status) {
      SameTagAgain(start, h, if i < j then i else j, if i < j then j else i, tag);
    }
  }

  lemma RunSnoc(start: Store, steps: seq<Step>, last: Step, s: System)
    requires Run(start, steps) == Some(s) && Enabled(s, last)
    ensures Run(start, steps + [last]) == Some(Next(s, last))
  {
    assert (steps + [last])[..|steps|] == steps;
  }

  /** Two requests that nothing answers early come to wait for the lock. */
  lemma BothWait(start: Store, first: Request, second: Request) returns (steps: seq<Step>, s: System)
    requires Early(start.doc, first).None? && Early(start.doc, second).None?
    ensures Run(start, steps) == Some(s)
    ensures s == System(start, None, [Call(first, Queued(0)), Call(second, Queued(1))],
                        [Probed(0, first), Probed(1, second)])
  {
    steps, s := BothArrive(start, first, second);
    var waiting := Next(s, Probe(0));
    RunSnoc(start, steps, Probe(0), s);
    RunSnoc(start, steps + [Probe(0)], Probe(1), waiting);
    steps, s := steps + [Probe(0)] + [Probe(1)], Next(waiting, Probe(1));
  }

  lemma BothArrive(start: Store, first: Request, second: Request) returns (steps: seq<Step>, s: System)
    ensures Run(start, steps) == Some(s)
    ensures s == System(start, None, [Call(first, Arrived), Call(second, Arrived)], [])
  {
    var none := System(start, None, [], []);
    var one := Next(none, Arrive(first));
    RunSnoc(start, [], Arrive(first), none);
    RunSnoc(start, [] + [Arrive(first)], Arrive(second), one);
    steps, s := [] + [Arrive(first)] + [Arrive(second)], Next(one, Arrive(second));
  }

  /** The waiting call takes the lock, looks, and commits. */
  lemma Served(start: Store, steps: seq<Step>, s: System, c: nat) returns (longer: seq<Step>, r: System)
    requires Run(start, steps) == Some(s) && Waits(s, c) && s.holder.None?
    ensures longer == steps + [Acquire(c), Stat(c), Commit(c, Goes)] && Run(start, longer) == Some(r)
    ensures var (store, status) := Execute(s.store, s.store.doc, s.calls[c].req, Goes);
      r == Answer(s, c, Answered(Goes), status).(store := store)
  {
    var held := Next(s, Acquire(c));
    RunSnoc(start, steps, Acquire(c), s);
    var seen := Next(held, Stat(c));
    RunSnoc(start, steps + [Acquire(c)], Stat(c), held);
    RunSnoc(start, steps + [Acquire(c)] + [Stat(c)], Commit(c, Goes), seen);
    longer, r := steps + [Acquire(c)] + [Stat(c)] + [Commit(c, Goes)], Next(seen, Commit(c, Goes));
    assert longer == steps + [Acquire(c), Stat(c), Commit(c, Goes)];
    var (store, status) := Execute(s.store, s.store.doc, s.calls[c].req, Goes);
    assert r.calls == Answer(s, c, Answered(Goes), status).calls;
  }

  /** A DELETE and then a PATCH, both naming the tag of the resource, both succeeding. */
  lemma PatchIgnoresIfMatchWhenMissing() returns (start: Store, steps: seq<Step>)
    ensures TagsIssued(start) && Run(start, steps).Some?
    ensures var h := Run(start, steps).value.history;
      |h| == 4 && forall i :: 2 <= i < 4 ==> Names(h[i], 0) && Success(h[i].status)
  {
    var tag := Some([Etag(0)]);
    start := Store(Some(Doc(0, "old")), 1);
    var s: System;
    steps, s := BothWait(start, Delete(tag), Patch(tag, _ => Patched("new")));
    steps, s := Served(start, steps, s, 0);
    steps, s := Served(start, steps, s, 1);
  }
}
