/**
 Reserved paths (src/plugins.js): reservations become regular expressions, and two plugins collide
 when theirs accept the same URLs.
 */
module Reservations {
  import opened JsText
  import opened OrderedMap
  import opened Paths

  // ---------- regular expressions ----------

  datatype Regex =
    | Text(text: JsString)
    | NoneOf(excluded: set<Unit>)
    | Star(body: Regex)
    | Then(first: Regex, second: Regex)
    | Optional(body: Regex)

  /** The whole string matches, as between `^` and `$`. */
  ghost predicate Matches(re: Regex, s: JsString)
    decreases re, |s|
  {
    match re
    case Text(t) => s == t
    case NoneOf(x) => |s| == 1 && s[0] !in x
    case Star(body) => s == [] || exists k :: 0 < k <= |s| && Matches(body, s[..k]) && Matches(re, s[k..])
    case Then(a, b) => exists k :: 0 <= k <= |s| && Matches(a, s[..k]) && Matches(b, s[k..])
    case Optional(body) => s == [] || Matches(body, s)
  }

  /** What `.` does not match. */
  const LINE_ENDS: set<Unit> := {10, 13, 0x2028, 0x2029}

  predicate OneLine(s: JsString) {
    forall i :: 0 <= i < |s| ==> s[i] !in LINE_ENDS
  }

  predicate Avoids(s: JsString, x: set<Unit>) {
    forall i :: 0 <= i < |s| ==> s[i] !in x
  }

  lemma {:induction false} StarOfClass(x: set<Unit>, s: JsString)
    ensures Matches(Star(NoneOf(x)), s) <==> Avoids(s, x)
    decreases |s|
  {
    if s != [] {
      if Matches(Star(NoneOf(x)), s) {
        var k :| 0 < k <= |s| && Matches(NoneOf(x), s[..k]) && Matches(Star(NoneOf(x)), s[k..]);
        StarOfClass(x, s[k..]);
        assert s[..k][0] == s[0];
        forall i | 0 <= i < |s| ensures s[i] !in x {
          assert i > 0 ==> s[k..][i - 1] == s[i];
        }
      }
      if Avoids(s, x) {
        StarOfClass(x, s[1..]);
        assert Matches(NoneOf(x), s[..1]);
      }
    }
  }

  lemma ThenText(t: JsString, re: Regex, s: JsString)
    ensures Matches(Then(Text(t), re), s) <==> |t| <= |s| && s[..|t|] == t && Matches(re, s[|t|..])
  {
    if Matches(Then(Text(t), re), s) {
      var k :| 0 <= k <= |s| && Matches(Text(t), s[..k]) && Matches(re, s[k..]);
      assert k == |t|;
    }
    if |t| <= |s| && s[..|t|] == t && Matches(re, s[|t|..]) {
      assert Matches(Text(t), s[..|t|]);
    }
  }

  // ---------- compiling reservations ----------

  const DOTS := Star(NoneOf(LINE_ENDS))

  /** `(?:\?.*)?` and `(?:/.*)?` */
  const QUERY_TAIL := Optional(Then(Text([QUESTION]), DOTS))
  const SUBTREE_TAIL := Optional(Then(Text([SLASH]), DOTS))

  predicate IsNameStart(u: Unit) {
    65 <= u <= 90 || 97 <= u <= 122 || u == 95
  }

  /** `/^:[A-Za-z_][A-Za-z0-9_]*$/` */
  predicate IsParam(seg: JsString) {
    |seg| >= 2 && seg[0] == 58 && IsNameStart(seg[1]) && forall i :: 2 <= i < |seg| ==> IsNameStart(seg[i]) || IsDigit(seg[i])
  }

  predicate IsParamPath(p: JsString) {
    exists i :: 0 <= i < |Split(p)| && IsParam(Split(p)[i])
  }

  function SegmentRegex(seg: JsString): Regex {
    if IsParam(seg) then Then(NoneOf({SLASH, QUESTION}), Star(NoneOf({SLASH, QUESTION}))) else Text(seg)
  }

  function SegmentsRegex(segs: seq<JsString>): Regex
    requires segs != []
  {
    if |segs| == 1 then SegmentRegex(segs[0])
    else Then(SegmentRegex(segs[0]), Then(Text([SLASH]), SegmentsRegex(segs[1..])))
  }

  function CompilePathPattern(p: JsString): Regex {
    Then(SegmentsRegex(Split(p)), QUERY_TAIL)
  }

  function CompileSubtreePattern(p: JsString): Regex {
    Then(Text(p), Then(SUBTREE_TAIL, QUERY_TAIL))
  }

  function Compile(p: JsString): Regex {
    if IsParamPath(p) then CompilePathPattern(p) else CompileSubtreePattern(p)
  }

  function TagOf(seg: JsString): JsString {
    if IsParam(seg) then [0, 80] else [0, 76] + seg
  }

  function TagsOf(segs: seq<JsString>): (r: seq<JsString>)
    ensures |r| == |segs|
  {
    seq(|segs|, i requires 0 <= i < |segs| => TagOf(segs[i]))
  }

  function ReservationKey(p: JsString): JsString {
    Join(TagsOf(Split(p)))
  }

  /** What `reservePath` accepts after trimming. */
  predicate Normalised(p: JsString) {
    |p| >= 2 && p[0] == SLASH && p[|p| - 1] != SLASH && QUESTION !in p && HASH !in p
  }

  // ---------- what the expressions accept ----------

  lemma TailMatches(mark: Unit, s: JsString)
    ensures Matches(Optional(Then(Text([mark]), DOTS)), s) <==> s == [] || (s[0] == mark && OneLine(s[1..]))
  {
    ThenText([mark], DOTS, s);
    if s != [] {
      StarOfClass(LINE_ENDS, s[1..]);
      assert s[..1] == [mark] <==> s[0] == mark;
    }
  }

  /** A literal reservation accepts itself, everything below it, and either with a query. */
  lemma SubtreeAccepts(p: JsString, u: JsString)
    ensures Matches(CompileSubtreePattern(p), u) <==>
      && |p| <= |u| && u[..|p|] == p
      && (|u| == |p| || ((u[|p|] == SLASH || u[|p|] == QUESTION) && OneLine(u[|p|..])))
  {
    ThenText(p, Then(SUBTREE_TAIL, QUERY_TAIL), u);
    if |p| <= |u| && u[..|p|] == p {
      TailsMatch(u[|p|..]);
    }
  }

  lemma TailsMatch(s: JsString)
    ensures Matches(Then(SUBTREE_TAIL, QUERY_TAIL), s) <==> s == [] || ((s[0] == SLASH || s[0] == QUESTION) && OneLine(s))
  {
    if Matches(Then(SUBTREE_TAIL, QUERY_TAIL), s) && s != [] {
      var k :| 0 <= k <= |s| && Matches(SUBTREE_TAIL, s[..k]) && Matches(QUERY_TAIL, s[k..]);
      TailMatches(SLASH, s[..k]);
      TailMatches(QUESTION, s[k..]);
      forall i | 0 <= i < |s| ensures s[i] !in LINE_ENDS {
        if 0 < i < k {
          assert s[..k][1..][i - 1] == s[i];
        } else if k < i {
          assert s[k..][1..][i - k - 1] == s[i];
        }
      }
    }
    if s == [] || (s[0] == SLASH && OneLine(s)) {
      TailMatches(SLASH, s);
      TailMatches(QUESTION, []);
      assert s[..|s|] == s && s[|s|..] == [];
    } else if s[0] == QUESTION && OneLine(s) {
      TailMatches(SLASH, []);
      TailMatches(QUESTION, s);
      assert s[..0] == [] && s[0..] == s;
    }
  }

  /** One segment of a URL against one of a reservation. */
  predicate SegmentOk(seg: JsString, part: JsString) {
    if IsParam(seg) then part != [] && Avoids(part, {SLASH, QUESTION}) else part == seg
  }

  predicate SegmentsOk(segs: seq<JsString>, parts: seq<JsString>) {
    |parts| == |segs| && forall i :: 0 <= i < |segs| ==> SegmentOk(segs[i], parts[i])
  }

  lemma SegmentMatches(seg: JsString, s: JsString)
    ensures Matches(SegmentRegex(seg), s) <==> SegmentOk(seg, s)
  {
    var x := {SLASH, QUESTION};
    if IsParam(seg) {
      if Matches(SegmentRegex(seg), s) {
        var k :| 0 <= k <= |s| && Matches(NoneOf(x), s[..k]) && Matches(Star(NoneOf(x)), s[k..]);
        StarOfClass(x, s[k..]);
        assert s[..k][0] == s[0];
        forall i | 0 <= i < |s| ensures s[i] !in x {
          assert i > 0 ==> s[k..][i - 1] == s[i];
        }
      }
      if SegmentOk(seg, s) {
        StarOfClass(x, s[1..]);
        assert Matches(NoneOf(x), s[..1]);
      }
    }
  }

  lemma ThenSlash(re: Regex, s: JsString)
    ensures Matches(Then(Text([SLASH]), re), s) <==> s != [] && s[0] == SLASH && Matches(re, s[1..])
  {
    ThenText([SLASH], re, s);
    if s != [] {
      assert s[..1] == [SLASH] <==> s[0] == SLASH;
    }
  }

  /** The joined expression accepts a path exactly when its segments fit one by one. */
  lemma {:induction false} SegmentsMatch(segs: seq<JsString>, s: JsString)
    requires segs != [] && NoSlashes(segs)
    ensures Matches(SegmentsRegex(segs), s) <==> SegmentsOk(segs, Split(s))
    decreases |segs|
  {
    if |segs| == 1 {
      SegmentMatches(segs[0], s);
      OneSegment(segs, s);
    } else {
      var rest := Then(Text([SLASH]), SegmentsRegex(segs[1..]));
      if Matches(SegmentsRegex(segs), s) {
        var k :| 0 <= k <= |s| && Matches(SegmentRegex(segs[0]), s[..k]) && Matches(rest, s[k..]);
        ThenSlash(SegmentsRegex(segs[1..]), s[k..]);
        assert s[k..][1..] == s[k + 1..];
        SegmentsMatch(segs[1..], s[k + 1..]);
        AcceptedSplits(segs, s, k);
      }
      if SegmentsOk(segs, Split(s)) {
        var k := CutFirst(s);
        FirstSegment(segs, s[..k], Split(s[k + 1..]));
        SegmentMatches(segs[0], s[..k]);
        SegmentsMatch(segs[1..], s[k + 1..]);
        assert s[k..][1..] == s[k + 1..];
        ThenSlash(SegmentsRegex(segs[1..]), s[k..]);
      }
    }
  }

  lemma AcceptedSplits(segs: seq<JsString>, s: JsString, k: nat)
    requires |segs| > 1 && NoSlashes(segs) && k < |s| && s[k] == SLASH
    requires Matches(SegmentRegex(segs[0]), s[..k]) && SegmentsOk(segs[1..], Split(s[k + 1..]))
    ensures SegmentsOk(segs, Split(s))
  {
    SegmentMatches(segs[0], s[..k]);
    assert s == s[..k] + [SLASH] + s[k + 1..];
    SplitFirst(s[..k], s[k + 1..]);
    FirstSegment(segs, s[..k], Split(s[k + 1..]));
  }

  lemma FirstSegment(segs: seq<JsString>, part: JsString, parts: seq<JsString>)
    requires |segs| > 1
    ensures SegmentsOk(segs, [part] + parts) <==> SegmentOk(segs[0], part) && SegmentsOk(segs[1..], parts)
  {
    if SegmentsOk(segs, [part] + parts) {
      forall i | 0 <= i < |segs[1..]| ensures SegmentOk(segs[1..][i], parts[i]) {
        assert SegmentOk(segs[i + 1], ([part] + parts)[i + 1]);
      }
      assert SegmentOk(segs[0], ([part] + parts)[0]);
    }
    if SegmentOk(segs[0], part) && SegmentsOk(segs[1..], parts) {
      forall i | 0 <= i < |segs| ensures SegmentOk(segs[i], ([part] + parts)[i]) {
        if i > 0 {
          assert SegmentOk(segs[1..][i - 1], parts[i - 1]);
        }
      }
    }
  }

  lemma OneSegment(segs: seq<JsString>, s: JsString)
    requires |segs| == 1 && NoSlashes(segs)
    ensures SegmentOk(segs[0], s) <==> SegmentsOk(segs, Split(s))
  {
    SplitSegments(s);
    if SegmentOk(segs[0], s) {
      SplitWhole(s);
    }
    if SegmentsOk(segs, Split(s)) {
      assert Join(Split(s)) == Split(s)[0];
    }
  }

  /** Where a string with several segments has its first slash. */
  lemma CutFirst(s: JsString) returns (k: nat)
    requires |Split(s)| > 1
    ensures k < |s| && s[k] == SLASH && Split(s) == [s[..k]] + Split(s[k + 1..])
  {
    SplitSegments(s);
    var segs := Split(s);
    k := |segs[0]|;
    assert s == segs[0] + [SLASH] + Join(segs[1..]);
    assert s[..k] == segs[0] && s[k + 1..] == Join(segs[1..]);
    assert NoSlashes(segs[1..]);
    SplitJoin(segs[1..]);
  }

  // ---------- acceptance and the query ----------

  lemma PatternNeedsPath(p: JsString, u: JsString)
    requires QUESTION !in p && Matches(CompilePathPattern(p), u)
    ensures SegmentsOk(Split(p), Split(PathPart(u))) && OneLine(QueryPart(u))
  {
    var k :| 0 <= k <= |u| && Matches(SegmentsRegex(Split(p)), u[..k]) && Matches(QUERY_TAIL, u[k..]);
    assert u == u[..k] + u[k..];
    PartsMatch(p, u[..k], u[k..]);
    PathIs(u[..k], u[k..]);
  }

  lemma PartsMatch(p: JsString, a: JsString, q: JsString)
    requires QUESTION !in p && Matches(SegmentsRegex(Split(p)), a) && Matches(QUERY_TAIL, q)
    ensures SegmentsOk(Split(p), Split(a)) && QUESTION !in a && (q == [] || q[0] == QUESTION) && OneLine(q)
  {
    SplitSegments(p);
    SegmentsMatch(Split(p), a);
    NoQuestion(p, a);
    TailMatches(QUESTION, q);
  }

  lemma PatternAcceptsPath(p: JsString, u: JsString)
    requires SegmentsOk(Split(p), Split(PathPart(u))) && OneLine(QueryPart(u))
    ensures Matches(CompilePathPattern(p), u)
  {
    SplitSegments(p);
    PathThenQuery(u);
    var k := |PathPart(u)|;
    assert u[..k] == PathPart(u) && u[k..] == QueryPart(u);
    SegmentsMatch(Split(p), u[..k]);
    TailMatches(QUESTION, u[k..]);
  }

  /** A parameterised reservation looks at the path's segments, and wants a query on one line. */
  lemma PatternAccepts(p: JsString, u: JsString)
    requires QUESTION !in p
    ensures Matches(CompilePathPattern(p), u) <==> SegmentsOk(Split(p), Split(PathPart(u))) && OneLine(QueryPart(u))
  {
    if Matches(CompilePathPattern(p), u) {
      PatternNeedsPath(p, u);
    } else if SegmentsOk(Split(p), Split(PathPart(u))) && OneLine(QueryPart(u)) {
      PatternAcceptsPath(p, u);
    }
  }

  lemma {:induction false} JoinMembers(segs: seq<JsString>, c: Unit)
    requires segs != [] && c != SLASH
    ensures c in Join(segs) <==> exists i :: 0 <= i < |segs| && c in segs[i]
  {
    if |segs| > 1 {
      JoinMembers(segs[1..], c);
      if c in Join(segs[1..]) {
        var i :| 0 <= i < |segs[1..]| && c in segs[1..][i];
        assert c in segs[i + 1];
      }
      if i :| 0 < i < |segs| && c in segs[i] {
        assert c in segs[1..][i - 1];
      }
    }
  }

  /** What fits a reservation without '?' has no '?'. */
  lemma NoQuestion(p: JsString, s: JsString)
    requires QUESTION !in p && SegmentsOk(Split(p), Split(s))
    ensures QUESTION !in s
  {
    SplitSegments(p);
    SplitSegments(s);
    JoinMembers(Split(p), QUESTION);
    JoinMembers(Split(s), QUESTION);
    forall i | 0 <= i < |Split(s)| ensures QUESTION !in Split(s)[i] {
      assert SegmentOk(Split(p)[i], Split(s)[i]);
    }
  }

  /**
   Whether a URL is accepted depends on the part before its first '?' only, save that a query with a
   line terminator is never accepted.
   */
  lemma QueryDoesNotMatter(p: JsString, u: JsString)
    requires Normalised(p)
    ensures Matches(Compile(p), u) <==> Matches(Compile(p), PathPart(u)) && OneLine(QueryPart(u))
  {
    PathThenQuery(u);
    var a, q := PathPart(u), QueryPart(u);
    assert a + [] == a;
    PathIs(a, []);
    if IsParamPath(p) {
      PatternAccepts(p, u);
      PatternAccepts(p, a);
    } else {
      SubtreeAccepts(p, u);
      SubtreeAccepts(p, a);
      SubtreeQuery(p, u, a, q);
    }
  }

  /** A URL without line terminators is accepted or not by its path alone. */
  lemma PathDecides(p: JsString, u: JsString)
    requires Normalised(p) && OneLine(u)
    ensures Matches(Compile(p), u) <==> Matches(Compile(p), PathPart(u))
  {
    QueryDoesNotMatter(p, u);
    PathThenQuery(u);
    forall i | 0 <= i < |QueryPart(u)| ensures QueryPart(u)[i] !in LINE_ENDS {
      assert QueryPart(u)[i] == u[|PathPart(u)| + i];
    }
  }

  /** The reservation of "/a" accepts "/a" and refuses it with a line feed for a query. */
  lemma LineFeedRefused()
    ensures var p, u := U("/a"), U("/a?") + [10];
      Normalised(p) && PathPart(u) == p && Matches(Compile(p), p) && !Matches(Compile(p), u)
  {
    var p, q := U("/a"), [QUESTION, 10];
    assert U("/a?") + [10] == p + q;
    PathIs(p, q);
    PathIs(p, []);
    assert p + [] == p;
    assert forall i :: 0 <= i < |Split(p)| ==> |Split(p)[i]| < 2;
    SubtreeAccepts(p, p);
    QueryDoesNotMatter(p, p + q);
    assert q[1] in LINE_ENDS;
  }

  predicate InSubtree(p: JsString, u: JsString) {
    && |p| <= |u| && u[..|p|] == p
    && (|u| == |p| || ((u[|p|] == SLASH || u[|p|] == QUESTION) && OneLine(u[|p|..])))
  }

  lemma SubtreeWithQuery(p: JsString, u: JsString, a: JsString, q: JsString)
    requires u == a + q && (q == [] || q[0] == QUESTION) && InSubtree(p, a) && OneLine(q)
    ensures InSubtree(p, u)
  {
    assert u[..|p|] == a[..|p|];
    forall i | 0 <= i < |u[|p|..]| ensures u[|p|..][i] !in LINE_ENDS {
      if i < |a| - |p| {
        assert u[|p|..][i] == a[|p|..][i];
      } else {
        assert u[|p|..][i] == q[i - (|a| - |p|)];
      }
    }
  }

  lemma SubtreeWithoutQuery(p: JsString, u: JsString, a: JsString, q: JsString)
    requires QUESTION !in p && u == a + q && QUESTION !in a && (q == [] || q[0] == QUESTION) && InSubtree(p, u)
    ensures InSubtree(p, a) && OneLine(q)
  {
    assert u == p + u[|p|..];
    PathAfter(p, u[|p|..]);
    PathIs(a, q);
    assert a[..|p|] == u[..|p|];
    forall i | |p| <= i < |u| ensures u[i] !in LINE_ENDS {
      assert u[|p|..][i - |p|] == u[i];
    }
    forall i | 0 <= i < |a[|p|..]| ensures a[|p|..][i] !in LINE_ENDS {
      assert a[|p|..][i] == u[|p| + i];
    }
    forall i | 0 <= i < |q| ensures q[i] !in LINE_ENDS {
      assert q[i] == u[|a| + i];
    }
  }

  lemma SubtreeQuery(p: JsString, u: JsString, a: JsString, q: JsString)
    requires QUESTION !in p && u == a + q && QUESTION !in a && (q == [] || q[0] == QUESTION)
    ensures InSubtree(p, u) <==> InSubtree(p, a) && OneLine(q)
  {
    if InSubtree(p, u) {
      SubtreeWithoutQuery(p, u, a, q);
    } else if InSubtree(p, a) && OneLine(q) {
      SubtreeWithQuery(p, u, a, q);
    }
  }

  // ---------- equal keys, equal matchers ----------

  /** The key says which segments are parameters, and what the others are. */
  lemma KeyIffTags(p: JsString, q: JsString)
    ensures ReservationKey(p) == ReservationKey(q) <==> TagsOf(Split(p)) == TagsOf(Split(q))
  {
    SplitSegments(p);
    SplitSegments(q);
    assert NoSlashes(TagsOf(Split(p)));
    assert NoSlashes(TagsOf(Split(q)));
    SplitJoin(TagsOf(Split(p)));
    SplitJoin(TagsOf(Split(q)));
  }

  lemma TagInjective(a: JsString, b: JsString)
    ensures TagOf(a) == TagOf(b) <==> if IsParam(a) then IsParam(b) else a == b
  {
    if TagOf(a) == TagOf(b) && !IsParam(a) && !IsParam(b) {
      assert TagOf(a)[2..] == a && TagOf(b)[2..] == b;
    }
    if IsParam(a) != IsParam(b) {
      assert TagOf(a)[1] != TagOf(b)[1];
    }
  }

  ghost predicate SameUrls(p: JsString, q: JsString) {
    forall u :: Matches(Compile(p), u) <==> Matches(Compile(q), u)
  }

  /** Same shape, same URLs. */
  lemma SameTagsSameUrls(p: JsString, q: JsString)
    requires Normalised(p) && Normalised(q) && TagsOf(Split(p)) == TagsOf(Split(q))
    ensures SameUrls(p, q)
  {
    var a, b := Split(p), Split(q);
    forall i | 0 <= i < |a| ensures if IsParam(a[i]) then IsParam(b[i]) else a[i] == b[i] {
      assert TagsOf(a)[i] == TagsOf(b)[i];
      TagInjective(a[i], b[i]);
    }
    if IsParamPath(p) {
      assert IsParamPath(q);
      forall u ensures Matches(Compile(p), u) <==> Matches(Compile(q), u) {
        PatternAccepts(p, u);
        PatternAccepts(q, u);
        SameShapeAccepts(a, b, Split(PathPart(u)));
        SameShapeAccepts(b, a, Split(PathPart(u)));
      }
    } else {
      assert a == b;
      SplitSegments(p);
      SplitSegments(q);
    }
  }

  lemma SameShapeAccepts(a: seq<JsString>, b: seq<JsString>, parts: seq<JsString>)
    requires |a| == |b| && forall i :: 0 <= i < |a| ==> TagOf(a[i]) == TagOf(b[i])
    ensures SegmentsOk(a, parts) ==> SegmentsOk(b, parts)
  {
    if SegmentsOk(a, parts) {
      forall i | 0 <= i < |b| ensures SegmentOk(b[i], parts[i]) {
        TagInjective(a[i], b[i]);
        assert SegmentOk(a[i], parts[i]);
      }
    }
  }

  /** A URL of the reservation's shape, with one value for every parameter. */
  function Filled(segs: seq<JsString>, value: JsString): (r: seq<JsString>)
    ensures |r| == |segs|
  {
    seq(|segs|, i requires 0 <= i < |segs| => if IsParam(segs[i]) then value else segs[i])
  }

  predicate IsValue(v: JsString) {
    v != [] && Avoids(v, {SLASH, QUESTION})
  }

  lemma FilledAccepted(p: JsString, value: JsString)
    requires Normalised(p) && IsParamPath(p) && IsValue(value)
    ensures var u := Join(Filled(Split(p), value));
      QUESTION !in u && PathPart(u) == u && Split(u) == Filled(Split(p), value) && Matches(Compile(p), u)
  {
    var segs := Split(p);
    var parts := Filled(segs, value);
    var u := Join(parts);
    SplitSegments(p);
    assert NoSlashes(parts);
    SplitJoin(parts);
    JoinMembers(segs, QUESTION);
    JoinMembers(parts, QUESTION);
    assert u + [] == u;
    PathIs(u, []);
    forall i | 0 <= i < |segs| ensures SegmentOk(segs[i], parts[i]) {
    }
    PatternAccepts(p, u);
  }

  /** Two parameterised reservations of different shape: one accepts what the other does not. */
  lemma PatternsDiffer(p: JsString, q: JsString, i: nat, value: JsString)
    requires Normalised(p) && Normalised(q) && IsParamPath(p) && IsParamPath(q) && IsValue(value)
    requires |Split(p)| != |Split(q)|
      || (i < |Split(p)| && !IsParam(Split(q)[i]) && (if IsParam(Split(p)[i]) then value else Split(p)[i]) != Split(q)[i])
    ensures !SameUrls(p, q)
  {
    FilledAccepted(p, value);
    var u := Join(Filled(Split(p), value));
    PatternAccepts(q, u);
    if |Split(p)| == |Split(q)| {
      assert !SegmentOk(Split(q)[i], Split(u)[i]);
    }
    assert Matches(Compile(p), u) && !Matches(Compile(q), u);
  }

  /** A parameterised reservation fixes the number of segments; a subtree does not. */
  lemma PatternIsNoSubtree(p: JsString, q: JsString)
    requires Normalised(p) && Normalised(q) && IsParamPath(p) && !IsParamPath(q)
    ensures !SameUrls(p, q)
  {
    var below := q + [SLASH];
    SubtreeAccepts(q, q);
    SubtreeAccepts(q, below);
    assert below[..|q|] == q && below[|q|..] == [SLASH];
    assert Matches(Compile(q), q) && Matches(Compile(q), below);
    assert q + [] == q && below + [] == below;
    PathIs(q, []);
    PathIs(below, []);
    PatternAccepts(p, q);
    PatternAccepts(p, below);
    OneMoreSegment(q);
  }

  lemma {:induction false} OneMoreSegment(s: JsString)
    ensures |Split(s + [SLASH])| == |Split(s)| + 1
  {
    if s == [] {
      assert Split([SLASH][1..]) == [[]];
    } else {
      assert (s + [SLASH])[1..] == s[1..] + [SLASH];
      OneMoreSegment(s[1..]);
    }
  }

  lemma SubtreesDiffer(p: JsString, q: JsString)
    requires Normalised(p) && Normalised(q) && !IsParamPath(p) && !IsParamPath(q) && SameUrls(p, q)
    ensures p == q
  {
    SubtreeAccepts(p, p);
    SubtreeAccepts(q, q);
    SubtreeAccepts(p, q);
    SubtreeAccepts(q, p);
    assert p[..|p|] == p && q[..|q|] == q;
    assert Matches(Compile(p), p) && Matches(Compile(q), q);
    assert Matches(Compile(q), p) && Matches(Compile(p), q);
  }

  lemma SameUrlsSameTags(p: JsString, q: JsString)
    requires Normalised(p) && Normalised(q) && SameUrls(p, q)
    ensures TagsOf(Split(p)) == TagsOf(Split(q))
  {
    if IsParamPath(p) && IsParamPath(q) {
      var a, b := Split(p), Split(q);
      if |a| != |b| {
        PatternsDiffer(p, q, 0, [120]);
      }
      forall i | 0 <= i < |a| ensures TagsOf(a)[i] == TagsOf(b)[i] {
        SameSegment(p, q, i);
      }
    } else if IsParamPath(p) {
      PatternIsNoSubtree(p, q);
    } else if IsParamPath(q) {
      SameUrlsFlip(p, q);
      PatternIsNoSubtree(q, p);
    } else {
      SubtreesDiffer(p, q);
    }
  }

  lemma SameUrlsFlip(p: JsString, q: JsString)
    requires SameUrls(p, q)
    ensures SameUrls(q, p)
  {
  }

  lemma SameSegment(p: JsString, q: JsString, i: nat)
    requires Normalised(p) && Normalised(q) && SameUrls(p, q) && IsParamPath(p) && IsParamPath(q)
    requires |Split(p)| == |Split(q)| && i < |Split(p)|
    ensures TagOf(Split(p)[i]) == TagOf(Split(q)[i])
  {
    var s, t := Split(p)[i], Split(q)[i];
    TagInjective(s, t);
    SameUrlsFlip(p, q);
    if !IsParam(t) && s != t {
      PatternsDiffer(p, q, i, if t == [120] then [121] else [120]);
    } else if !IsParam(s) && s != t {
      PatternsDiffer(q, p, i, if s == [120] then [121] else [120]);
    }
  }

  /** Two reservations have the same key exactly when their matchers accept the same URLs. */
  lemma KeyIffSameUrls(p: JsString, q: JsString)
    requires Normalised(p) && Normalised(q)
    ensures ReservationKey(p) == ReservationKey(q) <==> SameUrls(p, q)
  {
    KeyIffTags(p, q);
    if TagsOf(Split(p)) == TagsOf(Split(q)) {
      SameTagsSameUrls(p, q);
    }
    if SameUrls(p, q) {
      SameUrlsSameTags(p, q);
    }
  }

  // ---------- reserving ----------

  datatype Outcome = Reserved | AlreadyOurs | NotAbsolute | NotAPath | TakenBy(holder: JsString)

  function TrimStart(s: JsString): JsString {
    if s != [] && IsSpace(s[0]) then TrimStart(s[1..]) else s
  }

  function TrimEnd(s: JsString): JsString {
    if s != [] && IsSpace(s[|s| - 1]) then TrimEnd(s[..|s| - 1]) else s
  }

  function DropSlashes(s: JsString): JsString {
    if s != [] && s[|s| - 1] == SLASH then DropSlashes(s[..|s| - 1]) else s
  }

  lemma {:induction false} NoSlashLeft(s: JsString)
    ensures DropSlashes(s) == [] || DropSlashes(s)[|DropSlashes(s)| - 1] != SLASH
  {
    if s != [] && s[|s| - 1] == SLASH {
      NoSlashLeft(s[..|s| - 1]);
    }
  }

  /** An installed matcher, with the path it was compiled from and its methods. */
  datatype Pattern = Pattern(path: JsString, re: Regex, methods: set<JsString>)

  type Holders = Pairs<JsString, JsString>

  function KeyOf(p: JsString): JsString {
    DropSlashes(TrimEnd(TrimStart(p)))
  }

  function Reserve(held: Holders, patterns: seq<Pattern>, id: JsString, p: JsString, methods: set<JsString>): (Holders, seq<Pattern>, Outcome) {
    var key := KeyOf(p);
    if |key| < 2 || key[0] != SLASH then (held, patterns, NotAbsolute)
    else if QUESTION in key || HASH in key then (held, patterns, NotAPath)
    else
      var claim := ReservationKey(key);
      var holder := Get(held, claim);
      if holder == Some(id) then (held, patterns, AlreadyOurs)
      else if holder.Some? && holder.value != [] then (held, patterns, TakenBy(holder.value))
      else (Put(held, claim, id), patterns + [Pattern(key, Compile(key), methods)], Reserved)
  }

  class PluginHost {
    var reservations: Holders
    var appPathPatterns: seq<Pattern>

    method HasParam(p: JsString) returns (r: bool)
      ensures r == IsParamPath(p)
    {
      var segs := Split(p);
      for i := 0 to |segs|
        invariant forall j :: 0 <= j < i ==> !IsParam(segs[j])
      {
        if IsParam(segs[i]) {
          return true;
        }
      }
      return false;
    }

    method ReservePath(id: JsString, p: JsString, methods: set<JsString>) returns (out: Outcome)
      modifies this
      ensures (reservations, appPathPatterns, out) == Reserve(old(reservations), old(appPathPatterns), id, p, methods)
    {
      var key := DropSlashes(TrimEnd(TrimStart(p)));
      if |key| < 2 || key[0] != SLASH {
        return NotAbsolute;
      }
      if QUESTION in key || HASH in key {
        return NotAPath;
      }
      var claim := ReservationKey(key);
      var holder := Get(reservations, claim);
      if holder == Some(id) {
        return AlreadyOurs;
      }
      if holder.Some? && holder.value != [] {
        return TakenBy(holder.value);
      }
      reservations := Put(reservations, claim, id);
      var hasParam := HasParam(key);
      var re := if hasParam then CompilePathPattern(key) else CompileSubtreePattern(key);
      appPathPatterns := appPathPatterns + [Pattern(key, re, methods)];
      return Reserved;
    }
  }

  /** Each claim has one holder and one matcher, and no two matchers accept the same URLs. */
  ghost predicate Exclusive(held: Holders, patterns: seq<Pattern>) {
    && (forall i :: 0 <= i < |patterns| ==> Installed(held, patterns[i]))
    && (forall i, j :: 0 <= i < j < |patterns| ==> !SameUrls(patterns[i].path, patterns[j].path))
    && (forall k :: Get(held, k).Some? ==> Get(held, k).value != [] && exists i :: 0 <= i < |patterns| && ReservationKey(patterns[i].path) == k)
  }

  ghost predicate Installed(held: Holders, x: Pattern) {
    Normalised(x.path) && x.re == Compile(x.path) && Get(held, ReservationKey(x.path)).Some?
  }

  /**
   Reserving keeps matchers exclusive: a new matcher accepts other URLs than every installed one, and a
   path found taken or already held has an installed matcher that accepts the same URLs.
   */
  lemma ReserveKeepsExclusive(held: Holders, patterns: seq<Pattern>, id: JsString, p: JsString, methods: set<JsString>)
    requires Exclusive(held, patterns) && id != []
    ensures var (h, x, out) := Reserve(held, patterns, id, p, methods);
      && Exclusive(h, x)
      && (out == Reserved ==> Normalised(KeyOf(p)) && forall i :: 0 <= i < |patterns| ==> !SameUrls(patterns[i].path, KeyOf(p)))
      && (out.TakenBy? || out == AlreadyOurs ==> exists i :: 0 <= i < |patterns| && SameUrls(patterns[i].path, KeyOf(p)))
  {
    var key := KeyOf(p);
    var (h, x, out) := Reserve(held, patterns, id, p, methods);
    if out == Reserved || out.TakenBy? || out == AlreadyOurs {
      NoSlashLeft(TrimEnd(TrimStart(p)));
      var claim := ReservationKey(key);
      forall i | 0 <= i < |patterns|
        ensures SameUrls(patterns[i].path, key) <==> ReservationKey(patterns[i].path) == claim
      {
        assert Installed(held, patterns[i]);
        KeyIffSameUrls(patterns[i].path, key);
      }
      if out == Reserved {
        NewReservation(held, patterns, id, key, methods);
      }
    }
  }

  lemma NewReservation(held: Holders, patterns: seq<Pattern>, id: JsString, key: JsString, methods: set<JsString>)
    requires Exclusive(held, patterns) && id != [] && Normalised(key) && Get(held, ReservationKey(key)).None?
    requires forall i :: 0 <= i < |patterns| ==> (SameUrls(patterns[i].path, key) <==> ReservationKey(patterns[i].path) == ReservationKey(key))
    ensures Exclusive(Put(held, ReservationKey(key), id), patterns + [Pattern(key, Compile(key), methods)])
    ensures forall i :: 0 <= i < |patterns| ==> !SameUrls(patterns[i].path, key)
  {
    var claim := ReservationKey(key);
    var h, x := Put(held, claim, id), patterns + [Pattern(key, Compile(key), methods)];
    forall i | 0 <= i < |patterns| ensures !SameUrls(patterns[i].path, key) {
      assert Installed(held, patterns[i]);
    }
    forall i | 0 <= i < |x| ensures Installed(h, x[i]) {
      GetPut(held, claim, id, ReservationKey(x[i].path));
      if i < |patterns| {
        assert Installed(held, patterns[i]);
      }
    }
    forall k | Get(h, k).Some?
      ensures Get(h, k).value != [] && exists i :: 0 <= i < |x| && ReservationKey(x[i].path) == k
    {
      GetPut(held, claim, id, k);
      if k == claim {
        assert ReservationKey(x[|patterns|].path) == k;
      } else {
        var i :| 0 <= i < |patterns| && ReservationKey(patterns[i].path) == k;
        assert x[i] == patterns[i];
      }
    }
  }

  /** A plugin's later reservation of the same URLs says nothing and changes nothing: the first methods stay. */
  lemma FirstMethodsStay(held: Holders, patterns: seq<Pattern>, id: JsString, p: JsString, methods: set<JsString>,
                         q: JsString, wider: set<JsString>)
    requires Reserve(held, patterns, id, p, methods).2 == Reserved
    requires Normalised(KeyOf(p)) && Normalised(KeyOf(q)) && SameUrls(KeyOf(p), KeyOf(q))
    ensures var (h, x, _) := Reserve(held, patterns, id, p, methods);
      && x == patterns + [Pattern(KeyOf(p), Compile(KeyOf(p)), methods)]
      && Reserve(h, x, id, q, wider) == (h, x, AlreadyOurs)
  {
    KeyIffSameUrls(KeyOf(p), KeyOf(q));
    GetPut(held, ReservationKey(KeyOf(p)), id, ReservationKey(KeyOf(q)));
  }

  datatype Call = Call(id: JsString, path: JsString, methods: set<JsString>)

  function AfterCalls(calls: seq<Call>): (Holders, seq<Pattern>) {
    if calls == [] then ([], [])
    else
      var (h, x) := AfterCalls(calls[..|calls| - 1]);
      var c := calls[|calls| - 1];
      var (h2, x2, out) := Reserve(h, x, c.id, c.path, c.methods);
      (h2, x2)
  }

  /** After any reservations by any plugins no two installed matchers accept the same URLs. */
  lemma {:induction false} AlwaysExclusive(calls: seq<Call>)
    requires forall i :: 0 <= i < |calls| ==> calls[i].id != []
    ensures Exclusive(AfterCalls(calls).0, AfterCalls(calls).1)
  {
    if calls != [] {
      var n := |calls| - 1;
      AlwaysExclusive(calls[..n]);
      var (h, x) := AfterCalls(calls[..n]);
      ReserveKeepsExclusive(h, x, calls[n].id, calls[n].path, calls[n].methods);
    }
  }

  // ---------- first come, first served ----------

  ghost predicate AllSpace(s: JsString) {
    forall i :: 0 <= i < |s| ==> IsSpace(s[i])
  }

  ghost predicate AllSlashes(s: JsString) {
    forall i :: 0 <= i < |s| ==> s[i] == SLASH
  }

  /** The path without white space around it, and then without slashes at its end. */
  ghost predicate Trims(p: JsString, key: JsString, lead: JsString, slashes: JsString, tail: JsString) {
    && p == lead + (key + slashes) + tail && AllSpace(lead) && AllSpace(tail) && AllSlashes(slashes)
    && (key == [] || key[|key| - 1] != SLASH)
    && (key + slashes == [] || (!IsSpace((key + slashes)[0]) && !IsSpace((key + slashes)[|key + slashes| - 1])))
  }

  lemma {:induction false} TrimStartIs(s: JsString) returns (lead: JsString)
    ensures s == lead + TrimStart(s) && AllSpace(lead)
    ensures TrimStart(s) == [] || !IsSpace(TrimStart(s)[0])
  {
    if s != [] && IsSpace(s[0]) {
      lead := TrimStartIs(s[1..]);
      lead := [s[0]] + lead;
      assert s == [s[0]] + s[1..];
    } else {
      lead := [];
    }
  }

  lemma {:induction false} TrimEndIs(s: JsString) returns (tail: JsString)
    ensures s == TrimEnd(s) + tail && AllSpace(tail)
    ensures TrimEnd(s) == [] || !IsSpace(TrimEnd(s)[|TrimEnd(s)| - 1])
  {
    if s != [] && IsSpace(s[|s| - 1]) {
      tail := TrimEndIs(s[..|s| - 1]);
      tail := tail + [s[|s| - 1]];
      assert s == s[..|s| - 1] + [s[|s| - 1]];
    } else {
      tail := [];
    }
  }

  lemma {:induction false} DropSlashesIs(s: JsString) returns (slashes: JsString)
    ensures s == DropSlashes(s) + slashes && AllSlashes(slashes)
  {
    if s != [] && s[|s| - 1] == SLASH {
      slashes := DropSlashesIs(s[..|s| - 1]);
      slashes := slashes + [SLASH];
      assert s == s[..|s| - 1] + [SLASH];
    } else {
      slashes := [];
    }
  }

  lemma KeyIsTrimmed(p: JsString) returns (lead: JsString, slashes: JsString, tail: JsString)
    ensures Trims(p, KeyOf(p), lead, slashes, tail)
  {
    lead := TrimStartIs(p);
    tail := TrimEndIs(TrimStart(p));
    var core := TrimEnd(TrimStart(p));
    slashes := DropSlashesIs(core);
    NoSlashLeft(core);
    assert p == lead + (core + tail);
    assert core != [] ==> TrimStart(p)[0] == core[0];
  }

  /** The call names a path that can be reserved and that stands for the same URLs. */
  ghost predicate Asks(c: Call, key: JsString) {
    Normalised(KeyOf(c.path)) && SameUrls(KeyOf(c.path), key)
  }

  ghost predicate FirstToAsk(calls: seq<Call>, key: JsString, i: int) {
    0 <= i < |calls| && Asks(calls[i], key) && forall j :: 0 <= j < i ==> !Asks(calls[j], key)
  }

  ghost predicate NobodyAsks(calls: seq<Call>, key: JsString) {
    forall j :: 0 <= j < |calls| ==> !Asks(calls[j], key)
  }

  ghost predicate Named(calls: seq<Call>) {
    forall i :: 0 <= i < |calls| ==> calls[i].id != []
  }

  /** The first call that asks for the URLs of a key comes from this plugin. */
  ghost predicate FirstFrom(calls: seq<Call>, key: JsString, id: JsString) {
    exists i :: FirstToAsk(calls, key, i) && calls[i].id == id
  }

  /** The holder of a key is the plugin of the first call that asked for its URLs. */
  ghost predicate HeldByFirst(held: Holders, calls: seq<Call>, key: JsString) {
    var holder := Get(held, ReservationKey(key));
    if holder.None? then NobodyAsks(calls, key)
    else holder.value != [] && FirstFrom(calls, key, holder.value)
  }

  lemma AsksIffKey(c: Call, key: JsString)
    requires Normalised(key)
    ensures Asks(c, key) <==> Normalised(KeyOf(c.path)) && ReservationKey(KeyOf(c.path)) == ReservationKey(key)
  {
    if Normalised(KeyOf(c.path)) {
      KeyIffSameUrls(KeyOf(c.path), key);
    }
  }

  lemma ReserveHolds(held: Holders, patterns: seq<Pattern>, c: Call, key: JsString)
    requires Normalised(key) && c.id != []
    requires Get(held, ReservationKey(key)).Some? ==> Get(held, ReservationKey(key)).value != []
    ensures Get(Reserve(held, patterns, c.id, c.path, c.methods).0, ReservationKey(key)) ==
      if Get(held, ReservationKey(key)).None? && Asks(c, key) then Some(c.id) else Get(held, ReservationKey(key))
  {
    AsksIffKey(c, key);
    NoSlashLeft(TrimEnd(TrimStart(c.path)));
    GetPut(held, ReservationKey(KeyOf(c.path)), c.id, ReservationKey(key));
  }

  lemma FirstStays(calls: seq<Call>, c: Call, key: JsString, i: int)
    requires FirstToAsk(calls, key, i)
    ensures FirstToAsk(calls + [c], key, i) && (calls + [c])[i] == calls[i]
  {
  }

  lemma AskerIsFirst(calls: seq<Call>, c: Call, key: JsString)
    requires NobodyAsks(calls, key)
    ensures if Asks(c, key) then FirstToAsk(calls + [c], key, |calls|) else NobodyAsks(calls + [c], key)
  {
  }

  lemma {:induction false} HolderAskedFirst(calls: seq<Call>, key: JsString)
    requires Named(calls) && Normalised(key)
    ensures HeldByFirst(AfterCalls(calls).0, calls, key)
  {
    if calls != [] {
      var n := |calls| - 1;
      var (h, x) := AfterCalls(calls[..n]);
      HolderAskedFirst(calls[..n], key);
      ReserveHolds(h, x, calls[n], key);
      assert calls == calls[..n] + [calls[n]];
      if Get(h, ReservationKey(key)).None? {
        AskerIsFirst(calls[..n], calls[n], key);
      } else {
        var i :| FirstToAsk(calls[..n], key, i) && calls[i].id == Get(h, ReservationKey(key)).value;
        FirstStays(calls[..n], calls[n], key, i);
      }
    }
  }

  lemma OneFirst(calls: seq<Call>, key: JsString, a: JsString, b: JsString)
    requires FirstFrom(calls, key, a)
    ensures FirstFrom(calls, key, b) <==> a == b
    ensures !NobodyAsks(calls, key)
  {
    var i :| FirstToAsk(calls, key, i) && calls[i].id == a;
    if FirstFrom(calls, key, b) {
      var j :| FirstToAsk(calls, key, j) && calls[j].id == b;
      assert i == j;
    }
  }

  lemma ReserveByHolder(held: Holders, patterns: seq<Pattern>, c: Call)
    ensures var out, key := Reserve(held, patterns, c.id, c.path, c.methods).2, KeyOf(c.path);
      && (out == NotAbsolute <==> |key| < 2 || key[0] != SLASH)
      && (out == NotAPath <==> |key| >= 2 && key[0] == SLASH && (QUESTION in key || HASH in key))
      && (Normalised(key) <==> out == Reserved || out == AlreadyOurs || out.TakenBy?)
      && (Normalised(key) ==> out == match Get(held, ReservationKey(key))
                                     case None => Reserved
                                     case Some(holder) =>
                                       if holder == c.id then AlreadyOurs else if holder != [] then TakenBy(holder) else Reserved)
  {
    NoSlashLeft(TrimEnd(TrimStart(c.path)));
  }

  /** The answer to a call after others is decided by its path and by who asked first for the URLs it names. */
  lemma FirstComeFirstServed(calls: seq<Call>, c: Call, key: JsString, out: Outcome)
    requires Named(calls) && c.id != [] && key == KeyOf(c.path)
    requires out == Reserve(AfterCalls(calls).0, AfterCalls(calls).1, c.id, c.path, c.methods).2
    ensures out == NotAbsolute <==> |key| < 2 || key[0] != SLASH
    ensures out == NotAPath <==> |key| >= 2 && key[0] == SLASH && (QUESTION in key || HASH in key)
    ensures out == Reserved <==> Normalised(key) && NobodyAsks(calls, key)
    ensures out == AlreadyOurs <==> Normalised(key) && FirstFrom(calls, key, c.id)
    ensures forall other :: out == TakenBy(other) <==> Normalised(key) && other != c.id && FirstFrom(calls, key, other)
  {
    ReserveByHolder(AfterCalls(calls).0, AfterCalls(calls).1, c);
    if Normalised(key) {
      HolderAskedFirst(calls, key);
      var holder := Get(AfterCalls(calls).0, ReservationKey(key));
      if holder.Some? {
        forall other ensures FirstFrom(calls, key, other) <==> other == holder.value {
          OneFirst(calls, key, holder.value, other);
        }
        OneFirst(calls, key, holder.value, c.id);
      } else {
        forall other ensures !FirstFrom(calls, key, other) {
        }
      }
    }
  }

  /** Only a reservation changes anything: it adds one matcher, for the trimmed path, with the methods asked for. */
  lemma ReserveAddsOne(held: Holders, patterns: seq<Pattern>, c: Call)
    ensures var (h, x, out) := Reserve(held, patterns, c.id, c.path, c.methods);
      if out == Reserved
      then |x| == |patterns| + 1 && x[..|patterns|] == patterns
           && x[|patterns|] == Pattern(KeyOf(c.path), Compile(KeyOf(c.path)), c.methods)
      else h == held && x == patterns
  {
  }
}
