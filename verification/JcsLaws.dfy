/**
 `jcs` has an inverse, so equal texts mean equal values whatever the key insertion order
 (section 3.2 of RFC 8785).
 */
module JcsLaws {
  import opened JsText
  import opened OrderedMap
  import opened Jcs

  // ---------- jcs is a plain printer applied to the canonical value ----------

  /** Prints a value in the key order it has. */
  function Print(v: Json): JsString
    decreases v, 1
  {
    match v
    case Arr(items) => [LBRACKET] + Join(PrintItems(items)) + [RBRACKET]
    case Obj(fields) => [LBRACE] + Join(Members(PrintFields(fields))) + [RBRACE]
    case _ => Jcs.Jcs(v)
  }

  function PrintItems(items: seq<Json>): seq<JsString>
    decreases items, 0
  {
    if items == [] then [] else [Print(items[0])] + PrintItems(items[1..])
  }

  function PrintFields(fields: Pairs<JsString, Json>): Pairs<JsString, JsString>
    decreases fields, 0
  {
    if fields == [] then [] else [PrintField(fields[0])] + PrintFields(fields[1..])
  }

  function PrintField(f: (JsString, Json)): (JsString, JsString)
    decreases f, 0
  {
    (f.0, Print(f.1))
  }

  lemma {:induction false} PrintInsert(p: (JsString, Json), m: Pairs<JsString, Json>)
    ensures PrintFields(Insert(p, m)) == Insert(PrintField(p), PrintFields(m))
  {
    if m == [] || !Less(m[0].0, p.0) {
      assert ([p] + m)[1..] == m;
    } else {
      PrintInsert(p, m[1..]);
      assert ([m[0]] + Insert(p, m[1..]))[1..] == Insert(p, m[1..]);
    }
  }

  lemma {:induction false} PrintSort(m: Pairs<JsString, Json>)
    ensures PrintFields(SortByKey(m)) == SortByKey(PrintFields(m))
  {
    if m != [] {
      PrintSort(m[1..]);
      PrintInsert(m[0], SortByKey(m[1..]));
    }
  }

  lemma {:induction false} JcsIsPrint(v: Json)
    ensures Jcs.Jcs(v) == Print(Canon(v))
    decreases v, 1
  {
    match v
    case Arr(items) => JcsItemsArePrint(items);
    case Obj(fields) =>
      JcsFieldsArePrint(fields);
      PrintSort(CanonFields(fields));
    case _ =>
  }

  lemma {:induction false} JcsItemsArePrint(items: seq<Json>)
    ensures JcsItems(items) == PrintItems(CanonItems(items))
    decreases items, 0
  {
    if items != [] {
      JcsIsPrint(items[0]);
      JcsItemsArePrint(items[1..]);
    }
  }

  lemma {:induction false} JcsFieldsArePrint(fields: Pairs<JsString, Json>)
    ensures JcsFields(fields) == PrintFields(CanonFields(fields))
    decreases fields, 0
  {
    if fields != [] {
      JcsFieldIsPrint(fields[0]);
      JcsFieldsArePrint(fields[1..]);
    }
  }

  lemma {:induction false} JcsFieldIsPrint(f: (JsString, Json))
    ensures JcsField(f) == PrintField(CanonField(f))
    decreases f, 0
  {
    JcsIsPrint(f.1);
  }

  // ---------- the parser inverts the printer ----------

  lemma Assoc<T>(a: seq<T>, b: seq<T>, c: seq<T>)
    ensures (a + b) + c == a + (b + c)
  {
  }

  /** What reading yields when the unit u comes before the text `tail`. */
  function ReadAfter(u: Unit, tail: JsString): Option<(JsString, JsString)> {
    match ReadChars(tail)
    case None => None
    case Some((str, rest)) => Some(([u] + str, rest))
  }

  lemma ReadEscaped(u: Unit, code: JsString, tail: JsString)
    requires ReadEscape(code + tail) == Some((u, |code|))
    ensures ReadChars([BACKSLASH] + code + tail) == ReadAfter(u, tail)
  {
    Assoc([BACKSLASH], code, tail);
    assert ([BACKSLASH] + code + tail)[1 + |code|..] == tail;
  }

  /** One escaped unit in front of any text is read back as that unit. */
  lemma ReadCharsUnit(s: JsString, i: nat, tail: JsString)
    requires i < |s|
    ensures ReadChars(Escape(s, i) + tail) == ReadAfter(s[i], tail)
  {
    var e := Escape(s, i);
    if e != [s[i]] {
      assert e == [BACKSLASH] + e[1..];
      assert ReadEscape(e[1..] + tail) == Some((s[i], |e[1..]|));
      ReadEscaped(s[i], e[1..], tail);
    }
  }

  lemma {:induction false} ReadCharsEscaped(s: JsString, i: nat, rest: JsString)
    requires i <= |s|
    ensures ReadChars(EscapeFrom(s, i) + ([QUOTE] + rest)) == Some((s[i..], rest))
    decreases |s| - i
  {
    if i == |s| {
      assert [] + ([QUOTE] + rest) == [QUOTE] + rest;
    } else {
      var tail := EscapeFrom(s, i + 1) + ([QUOTE] + rest);
      ReadCharsEscaped(s, i + 1, rest);
      ReadCharsUnit(s, i, tail);
      Assoc(Escape(s, i), EscapeFrom(s, i + 1), [QUOTE] + rest);
      assert s[i..] == [s[i]] + s[i + 1..];
    }
  }

  lemma ReadQuoted(s: JsString, rest: JsString)
    ensures Quote(s) + rest != [] && (Quote(s) + rest)[0] == QUOTE
    ensures ReadChars((Quote(s) + rest)[1..]) == Some((s, rest))
  {
    var body := EscapeFrom(s, 0);
    ReadCharsEscaped(s, 0, rest);
    Assoc([QUOTE] + body, [QUOTE], rest);
    Assoc([QUOTE], body, [QUOTE] + rest);
    assert s[0..] == s;
  }

  /** What may follow a value: anything that does not extend a number. */
  predicate Ends(rest: JsString) {
    rest == [] || !IsDigit(rest[0])
  }

  lemma ReadNumberOf(n: int, rest: JsString)
    requires Ends(rest)
    ensures ReadNumber(StringOf(n) + rest) == Some((Num(n), rest))
    ensures var u := StringOf(n)[0]; u == 45 || IsDigit(u)
  {
    var m := if n < 0 then -n else n;
    var d := Digits(m);
    DigitsValueOf(m);
    DigitRunOf(d, rest);
    assert (d + rest)[0] == d[0] && IsDigit(d[0]);
    assert (d + rest)[..|d|] == d && (d + rest)[|d|..] == rest;
    if n < 0 {
      Assoc([45], d, rest);
    }
  }

  lemma ReadWordOf(word: JsString, v: Json, rest: JsString)
    requires word != []
    ensures ReadWord(word + rest, word, v) == Some((v, rest))
  {
    assert (word + rest)[..|word|] == word && (word + rest)[|word|..] == rest;
  }

  lemma {:induction false} ParsePrint(v: Json, rest: JsString)
    requires Ends(rest)
    ensures Parse(Print(v) + rest) == Some((v, rest))
    decreases v, 1
  {
    match v
    case Null => ReadWordOf(U("null"), Null, rest);
    case Bool(b) => ReadWordOf(if b then U("true") else U("false"), v, rest);
    case Num(n) => ReadNumberOf(n, rest);
    case Str(str) => ReadQuoted(str, rest);
    case Arr(items) => ParsePrintArray(items, rest);
    case Obj(fields) => ParsePrintObject(fields, rest);
  }

  lemma Enclosed(open: Unit, body: JsString, close: Unit, rest: JsString)
    ensures ([open] + body + [close]) + rest == [open] + (body + ([close] + rest))
  {
  }

  lemma {:induction false} ParsePrintArray(items: seq<Json>, rest: JsString)
    ensures ParseArray(Print(Arr(items)) + rest) == Some((Arr(items), rest))
    decreases items, 1
  {
    var s := Print(Arr(items)) + rest;
    if items == [] {
      assert s == [LBRACKET, RBRACKET] + rest;
      assert s[2..] == rest;
    } else {
      var body := Join(PrintItems(items)) + ([RBRACKET] + rest);
      ParsePrintItems(items, rest);
      Enclosed(LBRACKET, Join(PrintItems(items)), RBRACKET, rest);
      assert body[0] == Print(items[0])[0];
    }
  }

  lemma {:induction false} ParsePrintItems(items: seq<Json>, rest: JsString)
    requires items != []
    ensures ParseItems(Join(PrintItems(items)) + ([RBRACKET] + rest)) == Some((items, rest))
    decreases items, 0
  {
    var first, texts := Print(items[0]), PrintItems(items[1..]);
    assert items == [items[0]] + items[1..];
    if |items| == 1 {
      assert items == [items[0]] && Join(PrintItems(items)) == first;
      ParsePrint(items[0], [RBRACKET] + rest);
    } else {
      var tail := Join(texts) + ([RBRACKET] + rest);
      ParsePrintItems(items[1..], rest);
      ParsePrint(items[0], [COMMA] + tail);
      assert texts != [];
      JoinCons(first, texts, [RBRACKET] + rest);
    }
  }

  lemma JoinCons(first: JsString, texts: seq<JsString>, rest: JsString)
    requires texts != []
    ensures Join([first] + texts) + rest == first + ([COMMA] + (Join(texts) + rest))
  {
    Assoc(first + [COMMA], Join(texts), rest);
    Assoc(first, [COMMA], Join(texts) + rest);
  }

  lemma {:induction false} ParsePrintObject(fields: Pairs<JsString, Json>, rest: JsString)
    ensures ParseObject(Print(Obj(fields)) + rest) == Some((Obj(fields), rest))
    decreases fields, 1
  {
    var s := Print(Obj(fields)) + rest;
    if fields == [] {
      assert s == [LBRACE, RBRACE] + rest;
      assert s[2..] == rest;
    } else {
      var body := Join(Members(PrintFields(fields))) + ([RBRACE] + rest);
      ParsePrintFields(fields, rest);
      Enclosed(LBRACE, Join(Members(PrintFields(fields))), RBRACE, rest);
    }
  }

  function FieldText(f: (JsString, Json)): JsString
  {
    Quote(f.0) + [COLON] + Print(f.1)
  }

  lemma {:induction false} ParsePrintField(f: (JsString, Json), rest: JsString)
    requires Ends(rest)
    ensures ParseField(FieldText(f) + rest) == Some((f, rest))
    decreases f, 0
  {
    var value := Print(f.1) + rest;
    ParsePrint(f.1, rest);
    ReadQuoted(f.0, [COLON] + value);
    Assoc(Quote(f.0) + [COLON], Print(f.1), rest);
    Assoc(Quote(f.0), [COLON], value);
  }

  lemma {:induction false} ParsePrintFields(fields: Pairs<JsString, Json>, rest: JsString)
    requires fields != []
    ensures var text := Join(Members(PrintFields(fields))) + ([RBRACE] + rest);
      text[0] == QUOTE && ParseFields(text) == Some((fields, rest))
    decreases fields, 0
  {
    var first, texts := FieldText(fields[0]), Members(PrintFields(fields[1..]));
    assert fields == [fields[0]] + fields[1..];
    assert Members(PrintFields(fields)) == [first] + texts;
    assert first[0] == QUOTE;
    if |fields| == 1 {
      assert fields == [fields[0]] && Join([first] + texts) == first;
      ParsePrintField(fields[0], [RBRACE] + rest);
    } else {
      var tail := Join(texts) + ([RBRACE] + rest);
      ParsePrintFields(fields[1..], rest);
      ParsePrintField(fields[0], [COMMA] + tail);
      assert texts != [];
      JoinCons(first, texts, [RBRACE] + rest);
    }
  }

  /** The inverse: parsing `jcs(v)` followed by any valid continuation gives v back, keys sorted. */
  lemma ParseJcs(v: Json, rest: JsString)
    requires Ends(rest)
    ensures Parse(Jcs.Jcs(v) + rest) == Some((Canon(v), rest))
  {
    JcsIsPrint(v);
    ParsePrint(Canon(v), rest);
  }

  // ---------- equal texts, same values ----------

  lemma {:induction false} LessIsStrictOrder(a: JsString, b: JsString, c: JsString)
    ensures !Less(a, a)
    ensures Less(a, b) && Less(b, c) ==> Less(a, c)
    ensures a == b || Less(a, b) || Less(b, a)
  {
    if a != [] && b != [] {
      assert a == [a[0]] + a[1..] && b == [b[0]] + b[1..];
      LessIsStrictOrder(a[1..], b[1..], if c == [] then [] else c[1..]);
    } else if a != [] {
      LessIsStrictOrder(a[1..], [], []);
    }
  }

  ghost predicate Sorted<V>(m: Pairs<JsString, V>) {
    forall i, j :: 0 <= i < j < |m| ==> Less(m[i].0, m[j].0)
  }

  lemma {:induction false} InsertSorts<V>(p: (JsString, V), m: Pairs<JsString, V>)
    requires Sorted(m) && !Has(m, p.0)
    ensures Sorted(Insert(p, m))
    ensures forall k :: Get(Insert(p, m), k) == if k == p.0 then Some(p.1) else Get(m, k)
  {
    if m == [] {
    } else if !Less(m[0].0, p.0) {
      LessIsStrictOrder(p.0, m[0].0, []);
      forall j | 0 < j < |m| ensures Less(p.0, m[j].0) {
        LessIsStrictOrder(p.0, m[0].0, m[j].0);
      }
    } else {
      InsertSorts(p, m[1..]);
      var r := Insert(p, m[1..]);
      forall j | 0 <= j < |r| ensures Less(m[0].0, r[j].0) {
        HasIsMember(r, r[j].0);
        HasIsMember(m[1..], r[j].0);
      }
      LessIsStrictOrder(m[0].0, m[0].0, []);
    }
  }

  lemma {:induction false} SortSorts<V>(m: Pairs<JsString, V>)
    requires Distinct(m)
    ensures Sorted(SortByKey(m))
    ensures forall k :: Get(SortByKey(m), k) == Get(m, k)
  {
    if m != [] {
      SortSorts(m[1..]);
      HasIsMember(m[1..], m[0].0);
      HasIsMember(SortByKey(m[1..]), m[0].0);
      InsertSorts(m[0], SortByKey(m[1..]));
    }
  }

  lemma {:induction false} AboveIsAbsent<V>(m: Pairs<JsString, V>, k: JsString)
    requires forall i :: 0 <= i < |m| ==> Less(k, m[i].0)
    ensures Get(m, k) == None
  {
    HasIsMember(m, k);
    LessIsStrictOrder(k, k, k);
  }

  /** A sorted object is determined by what its keys map to. */
  lemma {:induction false} SortedIsUnique<V>(m: Pairs<JsString, V>, n: Pairs<JsString, V>)
    requires Sorted(m) && Sorted(n)
    requires forall k :: Get(m, k) == Get(n, k)
    ensures m == n
  {
    if m == [] || n == [] {
      var k := if m != [] then m[0].0 else if n != [] then n[0].0 else [];
      assert Get(m, k) == Get(n, k);
    } else {
      var a, b := m[0].0, n[0].0;
      LessIsStrictOrder(a, b, a);
      if Less(a, b) {
        forall i | 0 <= i < |n| ensures Less(a, n[i].0) { LessIsStrictOrder(a, b, n[i].0); }
        AboveIsAbsent(n, a);
        assert false;
      }
      if Less(b, a) {
        forall i | 0 <= i < |m| ensures Less(b, m[i].0) { LessIsStrictOrder(b, a, m[i].0); }
        AboveIsAbsent(m, b);
        assert false;
      }
      assert Get(m, a) == Get(n, a);
      AboveIsAbsent(m[1..], a);
      AboveIsAbsent(n[1..], a);
      forall k ensures Get(m[1..], k) == Get(n[1..], k) {
        assert Get(m, k) == Get(n, k);
      }
      SortedIsUnique(m[1..], n[1..]);
    }
  }

  lemma {:induction false} CanonFieldsGet(fields: Pairs<JsString, Json>, k: JsString)
    ensures Get(CanonFields(fields), k) ==
      match Get(fields, k) case None => None case Some(v) => Some(Canon(v))
    ensures forall i :: 0 <= i < |fields| ==> CanonFields(fields)[i] == (fields[i].0, Canon(fields[i].1))
  {
    if fields != [] {
      CanonFieldsGet(fields[1..], k);
    }
  }

  lemma {:induction false} CanonItemsAt(items: seq<Json>)
    ensures forall i :: 0 <= i < |items| ==> CanonItems(items)[i] == Canon(items[i])
  {
    if items != [] {
      CanonItemsAt(items[1..]);
    }
  }

  lemma {:induction false} SameIffCanon(a: Json, b: Json)
    requires WellFormed(a) && WellFormed(b)
    ensures Same(a, b) <==> Canon(a) == Canon(b)
    decreases a, 1
  {
    match a
    case Arr(items) =>
      if b.Arr? {
        CanonItemsAt(items);
        CanonItemsAt(b.items);
        forall i | 0 <= i < |items| && i < |b.items|
          ensures Same(items[i], b.items[i]) <==> Canon(items[i]) == Canon(b.items[i])
        {
          SameIffCanon(items[i], b.items[i]);
        }
      }
    case Obj(fields) =>
      if b.Obj? {
        SameValuesIffCanon(a, b);
        if Canon(a) == Canon(b) {
          SameTextSameFields(fields, b.fields);
        } else if SameFields(fields, b.fields) {
          SameFieldsSameText(fields, b.fields);
          assert false;
        }
      }
    case _ =>
  }

  lemma {:induction false} SameValuesIffCanon(a: Json, b: Json)
    requires WellFormed(a) && WellFormed(b) && a.Obj? && b.Obj?
    ensures forall i :: 0 <= i < |a.fields| && Get(b.fields, a.fields[i].0).Some? ==>
      var w := Get(b.fields, a.fields[i].0).value;
      Same(a.fields[i].1, w) <==> Canon(a.fields[i].1) == Canon(w)
    decreases a, 0
  {
    forall i | 0 <= i < |a.fields| && Get(b.fields, a.fields[i].0).Some?
      ensures var w := Get(b.fields, a.fields[i].0).value;
        Same(a.fields[i].1, w) <==> Canon(a.fields[i].1) == Canon(w)
    {
      var w := Get(b.fields, a.fields[i].0).value;
      GetIsPair(b.fields, a.fields[i].0);
      assert WellFormed(w);
      SameIffCanon(a.fields[i].1, w);
    }
  }

  /** Two objects have the same keys, with the same value under each. */
  ghost predicate SameFields(f: Pairs<JsString, Json>, g: Pairs<JsString, Json>) {
    && (forall k :: Has(f, k) <==> Has(g, k))
    && (forall i :: 0 <= i < |f| ==>
         Get(g, f[i].0).Some? && Canon(f[i].1) == Canon(Get(g, f[i].0).value))
  }

  lemma SortedCanonGet(f: Pairs<JsString, Json>, k: JsString)
    requires Distinct(f)
    ensures Get(SortByKey(CanonFields(f)), k) ==
      match Get(f, k) case None => None case Some(v) => Some(Canon(v))
    ensures Has(f, k) <==> Get(f, k).Some?
  {
    CanonFieldsGet(f, k);
    SortSorts(CanonFields(f));
    HasIsMember(f, k);
  }

  lemma SameTextSameFields(f: Pairs<JsString, Json>, g: Pairs<JsString, Json>)
    requires Distinct(f) && Distinct(g)
    requires SortByKey(CanonFields(f)) == SortByKey(CanonFields(g))
    ensures SameFields(f, g)
  {
    forall k ensures Has(f, k) <==> Has(g, k) {
      SortedCanonGet(f, k);
      SortedCanonGet(g, k);
    }
    forall i | 0 <= i < |f|
      ensures Get(g, f[i].0).Some? && Canon(f[i].1) == Canon(Get(g, f[i].0).value)
    {
      GetMember(f, i);
      SortedCanonGet(f, f[i].0);
      SortedCanonGet(g, f[i].0);
    }
  }

  lemma SameFieldsSameText(f: Pairs<JsString, Json>, g: Pairs<JsString, Json>)
    requires Distinct(f) && Distinct(g) && SameFields(f, g)
    ensures SortByKey(CanonFields(f)) == SortByKey(CanonFields(g))
  {
    forall k ensures Get(SortByKey(CanonFields(f)), k) == Get(SortByKey(CanonFields(g)), k) {
      SortedCanonGet(f, k);
      SortedCanonGet(g, k);
      HasIsMember(f, k);
      if Has(f, k) {
        var i :| 0 <= i < |f| && f[i].0 == k;
        GetMember(f, i);
      }
    }
    CanonFieldsGet(f, []);
    CanonFieldsGet(g, []);
    SortSorts(CanonFields(f));
    SortSorts(CanonFields(g));
    SortedIsUnique(SortByKey(CanonFields(f)), SortByKey(CanonFields(g)));
  }

  /** Two values have the same canonical text exactly when they are the same value. */
  lemma JcsIffSame(a: Json, b: Json)
    requires WellFormed(a) && WellFormed(b)
    ensures Jcs.Jcs(a) == Jcs.Jcs(b) <==> Same(a, b)
  {
    ParseJcs(a, []);
    ParseJcs(b, []);
    assert Jcs.Jcs(a) + [] == Jcs.Jcs(a) && Jcs.Jcs(b) + [] == Jcs.Jcs(b);
    JcsIsPrint(a);
    JcsIsPrint(b);
    SameIffCanon(a, b);
  }
}
