/**
 A JavaScript object or `Map`: key/value pairs in insertion order. Reading finds the first pair with
 the key; writing an existing key keeps its place, writing a new key appends; deleting closes the gap.
 The laws say what each operation does to a read, to the keys, to their number and to sums of values.
 */
module OrderedMap {
  datatype Option<+T> = None | Some(value: T) {
    function GetOr(default: T): T {
      if Some? then value else default
    }
  }

  type Pairs<K, V> = seq<(K, V)>

  predicate Has<K(==), V>(m: Pairs<K, V>, k: K) {
    m != [] && (m[0].0 == k || Has(m[1..], k))
  }

  function Get<K(==), V>(m: Pairs<K, V>, k: K): Option<V> {
    if m == [] then None else if m[0].0 == k then Some(m[0].1) else Get(m[1..], k)
  }

  function Put<K(==), V>(m: Pairs<K, V>, k: K, v: V): Pairs<K, V> {
    if m == [] then [(k, v)]
    else if m[0].0 == k then [(k, v)] + m[1..]
    else [m[0]] + Put(m[1..], k, v)
  }

  function Drop<K(==), V>(m: Pairs<K, V>, k: K): Pairs<K, V> {
    if m == [] then [] else if m[0].0 == k then m[1..] else [m[0]] + Drop(m[1..], k)
  }

  /** Every key occurs once, as in a real object or `Map`. */
  ghost predicate Distinct<K, V>(m: Pairs<K, V>) {
    forall i, j :: 0 <= i < j < |m| ==> m[i].0 != m[j].0
  }

  function Sum<K>(m: Pairs<K, int>): int {
    if m == [] then 0 else m[0].1 + Sum(m[1..])
  }

  lemma {:induction false} HasIsMember<K, V>(m: Pairs<K, V>, k: K)
    ensures Has(m, k) <==> Get(m, k).Some?
    ensures Has(m, k) <==> exists i :: 0 <= i < |m| && m[i].0 == k
  {
    if m != [] {
      HasIsMember(m[1..], k);
      if m[0].0 != k && Has(m[1..], k) {
        var i :| 0 <= i < |m[1..]| && m[1..][i].0 == k;
        assert m[i + 1].0 == k;
      }
      if i :| 0 <= i < |m| && m[i].0 == k && m[0].0 != k {
        assert m[1..][i - 1].0 == k;
      }
    }
  }

  lemma {:induction false} GetPut<K, V>(m: Pairs<K, V>, k: K, v: V, j: K)
    ensures Get(Put(m, k, v), j) == if j == k then Some(v) else Get(m, j)
  {
    if m != [] && m[0].0 != k {
      GetPut(m[1..], k, v, j);
    }
  }

  lemma {:induction false} PutKeys<K, V>(m: Pairs<K, V>, k: K, v: V)
    ensures |Put(m, k, v)| == if Has(m, k) then |m| else |m| + 1
    ensures forall i :: 0 <= i < |m| ==> Put(m, k, v)[i].0 == m[i].0
    ensures !Has(m, k) ==> Put(m, k, v) == m + [(k, v)]
    ensures Distinct(m) ==> Distinct(Put(m, k, v))
  {
    if m != [] && m[0].0 != k {
      PutKeys(m[1..], k, v);
    }
    if !Has(m, k) {
      HasIsMember(m, k);
    }
  }

  lemma {:induction false} DropHas<K, V>(m: Pairs<K, V>, k: K, j: K)
    requires Distinct(m)
    ensures Has(Drop(m, k), j) <==> Has(m, j) && j != k
  {
    if m != [] {
      HasIsMember(m[1..], m[0].0);
      DropHas(m[1..], k, j);
    }
  }

  lemma {:induction false} DropKeys<K, V>(m: Pairs<K, V>, k: K)
    requires Distinct(m)
    ensures Distinct(Drop(m, k))
    ensures forall j :: Has(Drop(m, k), j) <==> Has(m, j) && j != k
    ensures |Drop(m, k)| == if Has(m, k) then |m| - 1 else |m|
    ensures !Has(m, k) ==> Drop(m, k) == m
  {
    if m != [] && m[0].0 != k {
      DropKeys(m[1..], k);
      HasIsMember(m[1..], m[0].0);
      HasIsMember(Drop(m[1..], k), m[0].0);
    }
    forall j ensures Has(Drop(m, k), j) <==> Has(m, j) && j != k {
      DropHas(m, k, j);
    }
  }

  lemma {:induction false} GetDrop<K, V>(m: Pairs<K, V>, k: K, j: K)
    requires Distinct(m)
    ensures Get(Drop(m, k), j) == if j == k then None else Get(m, j)
  {
    if m == [] {
    } else if m[0].0 == k {
      HasIsMember(m[1..], k);
    } else {
      GetDrop(m[1..], k, j);
    }
  }

  lemma {:induction false} GetMember<K, V>(m: Pairs<K, V>, i: nat)
    requires Distinct(m) && i < |m|
    ensures Get(m, m[i].0) == Some(m[i].1)
  {
    if i > 0 {
      GetMember(m[1..], i - 1);
    }
  }

  lemma {:induction false} GetIsPair<K, V>(m: Pairs<K, V>, k: K)
    ensures Get(m, k).Some? ==> (k, Get(m, k).value) in m
  {
    if m != [] && m[0].0 != k {
      GetIsPair(m[1..], k);
    }
  }

  lemma {:induction false} SumPut<K>(m: Pairs<K, int>, k: K, v: int)
    ensures Sum(Put(m, k, v)) == Sum(m) - Get(m, k).GetOr(0) + v
  {
    if m != [] && m[0].0 != k {
      SumPut(m[1..], k, v);
    }
  }

  lemma {:induction false} SumDrop<K>(m: Pairs<K, int>, k: K)
    ensures Sum(Drop(m, k)) == Sum(m) - Get(m, k).GetOr(0)
  {
    if m != [] && m[0].0 != k {
      SumDrop(m[1..], k);
    }
  }

  lemma {:induction false} DropMiddle<K, V>(a: Pairs<K, V>, k: K, v: V, b: Pairs<K, V>)
    requires !Has(a, k)
    ensures Drop(a + [(k, v)] + b, k) == a + b
  {
    if a == [] {
      assert a + [(k, v)] + b == [(k, v)] + b;
    } else {
      assert (a + [(k, v)] + b)[1..] == a[1..] + [(k, v)] + b;
      DropMiddle(a[1..], k, v, b);
    }
  }

  lemma PutAbsent<K, V>(m: Pairs<K, V>, k: K, v: V)
    requires Get(m, k).None?
    ensures Put(m, k, v) == m + [(k, v)]
  {
    HasIsMember(m, k);
    PutKeys(m, k, v);
  }

  lemma {:induction false} PutTwice<K, V>(m: Pairs<K, V>, k: K, v: V, w: V)
    ensures Put(Put(m, k, v), k, w) == Put(m, k, w)
  {
    if m != [] && m[0].0 != k {
      PutTwice(m[1..], k, v, w);
    }
  }

  // ---------- deleting while iterating ----------

  function Survivors<K, V>(m: Pairs<K, V>, dead: V -> bool): Pairs<K, V> {
    if m == [] then [] else if dead(m[0].1) then Survivors(m[1..], dead) else [m[0]] + Survivors(m[1..], dead)
  }

  lemma {:induction false} SurvivorsConcat<K, V>(a: Pairs<K, V>, b: Pairs<K, V>, dead: V -> bool)
    ensures Survivors(a + b, dead) == Survivors(a, dead) + Survivors(b, dead)
  {
    if a == [] {
      assert a + b == b;
    } else {
      assert (a + b)[1..] == a[1..] + b;
      SurvivorsConcat(a[1..], b, dead);
    }
  }

  lemma {:induction false} GetSurvivor<K, V>(m: Pairs<K, V>, dead: V -> bool, k: K)
    requires Distinct(m)
    ensures Distinct(Survivors(m, dead))
    ensures Get(Survivors(m, dead), k) == if Get(m, k).Some? && !dead(Get(m, k).value) then Get(m, k) else None
  {
    if m != [] {
      GetSurvivor(m[1..], dead, k);
      GetSurvivor(m[1..], dead, m[0].0);
      HasIsMember(m[1..], m[0].0);
      HasIsMember(Survivors(m[1..], dead), m[0].0);
    }
  }

  lemma SweepStep<K, V>(m: Pairs<K, V>, i: nat, dead: V -> bool)
    requires Distinct(m) && i < |m|
    ensures (if dead(m[i].1) then Drop(Survivors(m[..i], dead) + m[i..], m[i].0) else Survivors(m[..i], dead) + m[i..])
         == Survivors(m[..i + 1], dead) + m[i + 1..]
  {
    var (k, v) := m[i];
    var done, rest := Survivors(m[..i], dead), m[i + 1..];
    assert m[..i + 1] == m[..i] + [(k, v)];
    SurvivorsConcat(m[..i], [(k, v)], dead);
    assert done + m[i..] == done + [(k, v)] + rest;
    if dead(v) {
      GetSurvivor(m[..i], dead, k);
      HasIsMember(m[..i], k);
      HasIsMember(done, k);
      DropMiddle(done, k, v, rest);
    }
  }
}
