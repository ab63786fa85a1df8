/**
 Strings split at slashes and at the first question mark, as URLs are (src/plugins.js). Splitting and
 joining are inverse on segments without slashes, and the path part and the query part of a URL put
 together again are the URL. These are the facts about text that the laws of reserved paths rest on.
 */
module Paths {
  import opened JsText

  const SLASH: Unit := 47
  const QUESTION: Unit := 63
  const HASH: Unit := 35

  /** `s.split('/')` */
  function Split(s: JsString): (r: seq<JsString>)
    ensures |r| > 0
  {
    if s == [] then [[]]
    else
      var rest := Split(s[1..]);
      if s[0] == SLASH then [[]] + rest else [[s[0]] + rest[0]] + rest[1..]
  }

  /** `segments.join('/')` */
  function Join(segs: seq<JsString>): JsString
    requires segs != []
  {
    if |segs| == 1 then segs[0] else segs[0] + [SLASH] + Join(segs[1..])
  }

  ghost predicate NoSlashes(segs: seq<JsString>) {
    forall i :: 0 <= i < |segs| ==> SLASH !in segs[i]
  }

  lemma {:induction false} SplitWhole(a: JsString)
    requires SLASH !in a
    ensures Split(a) == [a]
  {
    if a != [] {
      SplitWhole(a[1..]);
      assert [a[0]] + a[1..] == a;
    }
  }

  /** A split ends its first segment at the first slash. */
  lemma {:induction false} SplitFirst(a: JsString, b: JsString)
    requires SLASH !in a
    ensures Split(a + [SLASH] + b) == [a] + Split(b)
  {
    var s := a + [SLASH] + b;
    if a == [] {
      assert s[1..] == b;
    } else {
      assert s[1..] == a[1..] + [SLASH] + b && s[0] == a[0];
      SplitFirst(a[1..], b);
      assert [a[0]] + a[1..] == a;
    }
  }

  lemma {:induction false} SplitSegments(s: JsString)
    ensures NoSlashes(Split(s))
    ensures Join(Split(s)) == s
  {
    if s != [] {
      var rest := Split(s[1..]);
      SplitSegments(s[1..]);
      if s[0] == SLASH {
        assert Split(s)[1..] == rest;
        assert [] + [SLASH] + Join(rest) == s;
      } else if |rest| == 1 {
        assert Join(Split(s)) == [s[0]] + rest[0];
      } else {
        assert Split(s)[1..] == rest[1..];
        assert [s[0]] + rest[0] + [SLASH] + Join(rest[1..]) == [s[0]] + (rest[0] + [SLASH] + Join(rest[1..]));
      }
    }
  }

  lemma {:induction false} SplitJoin(segs: seq<JsString>)
    requires segs != [] && NoSlashes(segs)
    ensures Split(Join(segs)) == segs
  {
    if |segs| == 1 {
      SplitWhole(segs[0]);
    } else {
      SplitJoin(segs[1..]);
      SplitFirst(segs[0], Join(segs[1..]));
    }
  }

  /** The part before the first '?', and the rest from it on. */
  function PathPart(u: JsString): JsString {
    if u == [] || u[0] == QUESTION then [] else [u[0]] + PathPart(u[1..])
  }

  function QueryPart(u: JsString): JsString {
    if u == [] || u[0] == QUESTION then u else QueryPart(u[1..])
  }

  lemma {:induction false} PathThenQuery(u: JsString)
    ensures PathPart(u) + QueryPart(u) == u && QUESTION !in PathPart(u)
    ensures QueryPart(u) == [] || QueryPart(u)[0] == QUESTION
  {
    if u != [] && u[0] != QUESTION {
      PathThenQuery(u[1..]);
    }
  }

  lemma {:induction false} PathIs(a: JsString, b: JsString)
    requires QUESTION !in a && (b == [] || b[0] == QUESTION)
    ensures PathPart(a + b) == a && QueryPart(a + b) == b
  {
    if a == [] {
      assert a + b == b;
    } else {
      assert (a + b)[1..] == a[1..] + b;
      PathIs(a[1..], b);
    }
  }

  lemma {:induction false} PathAfter(a: JsString, b: JsString)
    requires QUESTION !in a
    ensures PathPart(a + b) == a + PathPart(b)
  {
    if a == [] {
      assert a + b == b;
    } else {
      assert (a + b)[1..] == a[1..] + b;
      PathAfter(a[1..], b);
    }
  }
}
