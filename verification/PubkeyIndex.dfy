/**
 The pubkey index (`rebuildPubkeyIndex` in src/idp/well-known-did-nostr.js): which account a Nostr key
 belongs to. Accounts publish profiles with verification methods; a method counts when its profile is
 about the account's WebID and authorises it, and keys that several accounts claim are left out.
 */
module PubkeyIndex {
  import opened JsText
  import opened OrderedMap

  /** One verification method of a profile, its ids made absolute; an empty id is a missing one. */
  datatype Method = Method(pubkey: JsString, id: JsString, controllers: set<JsString>)

  datatype Profile = Profile(controllers: set<JsString>, authentication: set<JsString>, methods: seq<Method>)

  /** A file where the profile may be. */
  datatype Candidate = Unusable | Parsed(subject: JsString, profile: Profile, mtimeMs: int)

  datatype Account = Unreadable | NoWebId | Account(webId: JsString, candidates: seq<Candidate>)

  /** One row of the WebID index, with what reading its account gives. */
  datatype Row = Row(accountId: JsString, account: Account)

  datatype Entry = Entry(accountId: JsString, webId: JsString, mtimeMs: int)

  /** An account's valid claim to a key. */
  datatype Claim = Claim(pubkey: JsString, entry: Entry)

  type Index = Pairs<JsString, Entry>
  type Claimants = Pairs<JsString, set<JsString>>

  // ---------- valid claims ----------

  predicate Valid(p: Profile, m: Method) {
    m.id != [] && m.id in p.authentication && exists c :: c in m.controllers && c in p.controllers
  }

  /** The first candidate that declares the account's WebID as its subject. */
  function Chosen(webId: JsString, candidates: seq<Candidate>): Option<Candidate> {
    if candidates == [] then None
    else if candidates[0].Parsed? && candidates[0].subject == webId then Some(candidates[0])
    else Chosen(webId, candidates[1..])
  }

  function ValidMethods(p: Profile, methods: seq<Method>, e: Entry): seq<Claim> {
    if methods == [] then []
    else
      var n := |methods| - 1;
      ValidMethods(p, methods[..n], e) + if Valid(p, methods[n]) then [Claim(methods[n].pubkey, e)] else []
  }

  function ClaimsOf(row: Row): seq<Claim> {
    if !row.account.Account? then []
    else
      var chosen := Chosen(row.account.webId, row.account.candidates);
      if chosen.None? || !chosen.value.Parsed? || chosen.value.profile.controllers == {} then []
      else ValidMethods(chosen.value.profile, chosen.value.profile.methods, Entry(row.accountId, row.account.webId, chosen.value.mtimeMs))
  }

  function AllClaims(rows: seq<Row>): seq<Claim> {
    if rows == [] then [] else AllClaims(rows[..|rows| - 1]) + ClaimsOf(rows[|rows| - 1])
  }

  // ---------- the tally ----------

  function AddClaim(idx: Index, seen: Claimants, c: Claim): (Index, Claimants) {
    (if Has(idx, c.pubkey) then idx else Put(idx, c.pubkey, c.entry),
     Put(seen, c.pubkey, Get(seen, c.pubkey).GetOr({}) + {c.entry.accountId}))
  }

  function Tally(claims: seq<Claim>): (Index, Claimants) {
    if claims == [] then ([], [])
    else
      var (idx, seen) := Tally(claims[..|claims| - 1]);
      AddClaim(idx, seen, claims[|claims| - 1])
  }

  function Pruned(idx: Index, seen: Claimants): Index {
    if seen == [] then idx
    else
      var rest := Pruned(idx, seen[..|seen| - 1]);
      if |seen[|seen| - 1].1| > 1 then Drop(rest, seen[|seen| - 1].0) else rest
  }

  function Rebuilt(rows: seq<Row>): Index {
    var (idx, seen) := Tally(AllClaims(rows));
    Pruned(idx, seen)
  }

  // ---------- the loops ----------

  lemma NextMethod(before: seq<Claim>, p: Profile, methods: seq<Method>, i: nat, e: Entry)
    requires i < |methods|
    ensures var (idx, seen) := Tally(before + ValidMethods(p, methods[..i], e));
      Tally(before + ValidMethods(p, methods[..i + 1], e))
      == if Valid(p, methods[i]) then AddClaim(idx, seen, Claim(methods[i].pubkey, e)) else (idx, seen)
  {
    assert methods[..i + 1][..i] == methods[..i];
    var soFar, c := ValidMethods(p, methods[..i], e), Claim(methods[i].pubkey, e);
    assert soFar + [] == soFar;
    assert before + (soFar + [c]) == before + soFar + [c];
  }

  lemma NextRow(rows: seq<Row>, i: nat)
    requires i < |rows|
    ensures AllClaims(rows[..i + 1]) == AllClaims(rows[..i]) + ClaimsOf(rows[i])
    ensures ClaimsOf(rows[i]) == [] ==> AllClaims(rows[..i + 1]) == AllClaims(rows[..i])
  {
    assert rows[..i + 1][..i] == rows[..i];
  }

  method ControllerOk(expected: set<JsString>, own: set<JsString>) returns (ok: bool)
    ensures ok <==> exists c :: c in own && c in expected
  {
    var left := own;
    while left != {}
      invariant left <= own && forall c :: c in own && c !in left ==> c !in expected
    {
      var c :| c in left;
      if c in expected {
        return true;
      }
      left := left - {c};
    }
    return false;
  }

  method ChooseProfile(webId: JsString, candidates: seq<Candidate>) returns (chosen: Option<Candidate>)
    ensures chosen == Chosen(webId, candidates)
  {
    for i := 0 to |candidates|
      invariant Chosen(webId, candidates) == Chosen(webId, candidates[i..])
    {
      if candidates[i].Unusable? {
        continue;
      }
      if candidates[i].subject != webId {
        continue;
      }
      return Some(candidates[i]);
    }
    return None;
  }

  class PubkeyTable {
    var idx: Index
    var seenAccounts: Claimants

    /** One valid claim: its account joins the key's claimants, and the first claim makes the entry. */
    method CountClaim(pubkey: JsString, entry: Entry)
      modifies this
      ensures (idx, seenAccounts) == AddClaim(old(idx), old(seenAccounts), Claim(pubkey, entry))
    {
      HasIsMember(seenAccounts, pubkey);
      if !Has(seenAccounts, pubkey) {
        PutTwice(seenAccounts, pubkey, {}, {} + {entry.accountId});
        GetPut(seenAccounts, pubkey, {}, pubkey);
        seenAccounts := Put(seenAccounts, pubkey, {});
      }
      seenAccounts := Put(seenAccounts, pubkey, Get(seenAccounts, pubkey).GetOr({}) + {entry.accountId});
      if !Has(idx, pubkey) {
        idx := Put(idx, pubkey, entry);
      }
    }

    /** The loop over one profile's methods. */
    method ScanMethods(profile: Profile, entry: Entry, ghost before: seq<Claim>)
      requires (idx, seenAccounts) == Tally(before)
      modifies this
      ensures (idx, seenAccounts) == Tally(before + ValidMethods(profile, profile.methods, entry))
    {
      var methods := profile.methods;
      assert before + [] == before;
      for i := 0 to |methods|
        invariant (idx, seenAccounts) == Tally(before + ValidMethods(profile, methods[..i], entry))
      {
        var vm := methods[i];
        NextMethod(before, profile, methods, i, entry);
        if vm.id == [] || vm.id !in profile.authentication {
          continue;
        }
        var controllerOk := ControllerOk(profile.controllers, vm.controllers);
        if !controllerOk {
          continue;
        }
        CountClaim(vm.pubkey, entry);
      }
      assert methods[..|methods|] == methods;
    }

    method ScanRows(rows: seq<Row>)
      modifies this
      ensures (idx, seenAccounts) == Tally(AllClaims(rows))
    {
      idx, seenAccounts := [], [];
      for i := 0 to |rows|
        invariant (idx, seenAccounts) == Tally(AllClaims(rows[..i]))
      {
        NextRow(rows, i);
        var account := rows[i].account;
        if !account.Account? {
          continue;
        }
        var chosen := ChooseProfile(account.webId, account.candidates);
        if chosen.None? || !chosen.value.Parsed? {
          continue;
        }
        if chosen.value.profile.controllers == {} {
          continue;
        }
        ScanMethods(chosen.value.profile, Entry(rows[i].accountId, account.webId, chosen.value.mtimeMs), AllClaims(rows[..i]));
      }
      assert rows[..|rows|] == rows;
    }

    method DropAmbiguous()
      modifies this`idx
      ensures idx == Pruned(old(idx), seenAccounts)
    {
      for i := 0 to |seenAccounts|
        invariant idx == Pruned(old(idx), seenAccounts[..i])
      {
        assert seenAccounts[..i + 1][..i] == seenAccounts[..i];
        if |seenAccounts[i].1| > 1 {
          idx := Drop(idx, seenAccounts[i].0);
        }
      }
      assert seenAccounts[..|seenAccounts|] == seenAccounts;
    }

    method Rebuild(rows: seq<Row>)
      modifies this
      ensures idx == Rebuilt(rows)
    {
      ScanRows(rows);
      DropAmbiguous();
    }
  }

  // ---------- what the index holds ----------

  function IdsOf(claims: seq<Claim>, pk: JsString): set<JsString> {
    set i | 0 <= i < |claims| && claims[i].pubkey == pk :: claims[i].entry.accountId
  }

  function FirstClaim(claims: seq<Claim>, pk: JsString): Option<Entry> {
    if claims == [] then None
    else
      var before := FirstClaim(claims[..|claims| - 1], pk);
      if before.Some? then before
      else if claims[|claims| - 1].pubkey == pk then Some(claims[|claims| - 1].entry) else None
  }

  lemma IndexStep(idx: Index, front: seq<Claim>, c: Claim, pk: JsString)
    requires Distinct(idx) && Get(idx, pk) == FirstClaim(front, pk)
    ensures var r := if Has(idx, c.pubkey) then idx else Put(idx, c.pubkey, c.entry);
      Distinct(r) && Get(r, pk) == FirstClaim(front + [c], pk)
  {
    assert (front + [c])[..|front|] == front;
    PutKeys(idx, c.pubkey, c.entry);
    GetPut(idx, c.pubkey, c.entry, pk);
    HasIsMember(idx, c.pubkey);
  }

  function IdsOrNone(claims: seq<Claim>, pk: JsString): Option<set<JsString>> {
    if IdsOf(claims, pk) == {} then None else Some(IdsOf(claims, pk))
  }

  lemma SeenStep(seen: Claimants, front: seq<Claim>, c: Claim, pk: JsString)
    requires Distinct(seen) && Get(seen, pk) == IdsOrNone(front, pk) && Get(seen, c.pubkey) == IdsOrNone(front, c.pubkey)
    ensures var r := Put(seen, c.pubkey, Get(seen, c.pubkey).GetOr({}) + {c.entry.accountId});
      Distinct(r) && Get(r, pk) == IdsOrNone(front + [c], pk)
  {
    var ids := Get(seen, c.pubkey).GetOr({});
    assert ids == IdsOf(front, c.pubkey);
    PutKeys(seen, c.pubkey, ids + {c.entry.accountId});
    GetPut(seen, c.pubkey, ids + {c.entry.accountId}, pk);
    IdsSnoc(front, c, pk);
    if pk == c.pubkey {
      assert c.entry.accountId in IdsOf(front + [c], pk);
    } else {
      assert IdsOf(front + [c], pk) == IdsOf(front, pk);
    }
  }

  lemma {:induction false} TallyMeans(claims: seq<Claim>, pk: JsString)
    ensures var (idx, seen) := Tally(claims);
      && Distinct(idx) && Distinct(seen)
      && Get(idx, pk) == FirstClaim(claims, pk)
      && Get(seen, pk) == IdsOrNone(claims, pk)
  {
    if claims == [] {
      assert IdsOf(claims, pk) == {};
    } else {
      var n := |claims| - 1;
      var c, front := claims[n], claims[..n];
      var (idx, seen) := Tally(front);
      TallyMeans(front, pk);
      TallyMeans(front, c.pubkey);
      assert claims == front + [c];
      IndexStep(idx, front, c, pk);
      SeenStep(seen, front, c, pk);
    }
  }

  lemma IdsSnoc(claims: seq<Claim>, c: Claim, pk: JsString)
    ensures IdsOf(claims + [c], pk) == IdsOf(claims, pk) + if c.pubkey == pk then {c.entry.accountId} else {}
  {
    var all := claims + [c];
    forall id | id in IdsOf(claims, pk) ensures id in IdsOf(all, pk) {
      var i :| 0 <= i < |claims| && claims[i].pubkey == pk && claims[i].entry.accountId == id;
      assert all[i] == claims[i];
    }
    if c.pubkey == pk {
      assert all[|claims|] == c;
    }
  }

  lemma {:induction false} PrunedMeans(idx: Index, seen: Claimants, pk: JsString)
    requires Distinct(idx) && Distinct(seen)
    ensures Distinct(Pruned(idx, seen))
    ensures Get(Pruned(idx, seen), pk) == if Get(seen, pk).Some? && |Get(seen, pk).value| > 1 then None else Get(idx, pk)
  {
    if seen != [] {
      var n := |seen| - 1;
      PrunedMeans(idx, seen[..n], pk);
      DropKeys(Pruned(idx, seen[..n]), seen[n].0);
      GetDrop(Pruned(idx, seen[..n]), seen[n].0, pk);
      GetLast(seen, pk);
      HasIsMember(seen[..n], pk);
    }
  }

  lemma {:induction false} GetFront<V>(m: Pairs<JsString, V>, n: nat, k: JsString)
    requires n < |m| && |m| == n + 1 && m[n].0 != k
    ensures Get(m, k) == Get(m[..n], k)
  {
    if n > 0 {
      var front, rest := m[..n], m[1..];
      assert front != [] && front[0] == m[0] && front[1..] == rest[..n - 1] && rest[n - 1] == m[n];
      GetFront(rest, n - 1, k);
      assert Get(m, k) == if m[0].0 == k then Some(m[0].1) else Get(rest, k);
      assert Get(front, k) == if front[0].0 == k then Some(front[0].1) else Get(front[1..], k);
    } else {
      assert m[1..] == [];
    }
  }

  lemma GetLast<V>(m: Pairs<JsString, V>, k: JsString)
    requires m != [] && Distinct(m)
    ensures Get(m, k) == if m[|m| - 1].0 == k then Some(m[|m| - 1].1) else Get(m[..|m| - 1], k)
  {
    GetMember(m, |m| - 1);
    if m[|m| - 1].0 != k {
      GetFront(m, |m| - 1, k);
    }
  }

  // ---------- exactly one claimant ----------

  /** Some row's account validly claims the key, with this entry. */
  ghost predicate Claims(rows: seq<Row>, pk: JsString, e: Entry) {
    exists i :: 0 <= i < |rows| && Claim(pk, e) in ClaimsOf(rows[i])
  }

  /** Rows that name the same account read the same account. */
  ghost predicate Consistent(rows: seq<Row>) {
    forall i, j :: 0 <= i < |rows| && 0 <= j < |rows| && rows[i].accountId == rows[j].accountId ==> rows[i].account == rows[j].account
  }

  /** Exactly one account claims the key. */
  ghost predicate SoleClaim(rows: seq<Row>, pk: JsString, e: Entry) {
    Claims(rows, pk, e) && forall f :: Claims(rows, pk, f) ==> f.accountId == e.accountId
  }

  lemma {:induction false} ClaimIsListed(rows: seq<Row>, pk: JsString, e: Entry)
    ensures Claims(rows, pk, e) <==> Claim(pk, e) in AllClaims(rows)
  {
    if rows != [] {
      var n := |rows| - 1;
      ClaimIsListed(rows[..n], pk, e);
      ClaimsSnoc(rows[..n], rows[n], pk, e);
      assert rows == rows[..n] + [rows[n]];
    }
  }

  lemma ClaimsSnoc(rows: seq<Row>, row: Row, pk: JsString, e: Entry)
    ensures Claims(rows + [row], pk, e) <==> Claims(rows, pk, e) || Claim(pk, e) in ClaimsOf(row)
  {
    var all := rows + [row];
    if Claims(rows, pk, e) {
      var i :| 0 <= i < |rows| && Claim(pk, e) in ClaimsOf(rows[i]);
      assert all[i] == rows[i];
    }
    assert all[|rows|] == row;
  }

  lemma {:induction false} ValidMethodsEntry(p: Profile, methods: seq<Method>, e: Entry)
    ensures forall c :: c in ValidMethods(p, methods, e) ==> c.entry == e
  {
    if methods != [] {
      ValidMethodsEntry(p, methods[..|methods| - 1], e);
    }
  }

  /** An account claims with one entry only. */
  lemma EntryOfAccount(rows: seq<Row>, pk: JsString, e: Entry, f: Entry)
    requires Consistent(rows) && Claims(rows, pk, e) && Claims(rows, pk, f) && e.accountId == f.accountId
    ensures e == f
  {
    var i :| 0 <= i < |rows| && Claim(pk, e) in ClaimsOf(rows[i]);
    var j :| 0 <= j < |rows| && Claim(pk, f) in ClaimsOf(rows[j]);
    RowEntry(rows[i], pk, e);
    RowEntry(rows[j], pk, f);
  }

  lemma RowEntry(row: Row, pk: JsString, e: Entry)
    requires Claim(pk, e) in ClaimsOf(row)
    ensures row.account.Account? && Chosen(row.account.webId, row.account.candidates).Some?
    ensures var chosen := Chosen(row.account.webId, row.account.candidates).value;
      chosen.Parsed? && e == Entry(row.accountId, row.account.webId, chosen.mtimeMs)
  {
    var chosen := Chosen(row.account.webId, row.account.candidates).value;
    ValidMethodsEntry(chosen.profile, chosen.profile.methods, Entry(row.accountId, row.account.webId, chosen.mtimeMs));
  }

  lemma {:induction false} FirstIsClaim(claims: seq<Claim>, pk: JsString)
    ensures FirstClaim(claims, pk).Some? ==> Claim(pk, FirstClaim(claims, pk).value) in claims
    ensures FirstClaim(claims, pk).None? ==> forall c :: c in claims ==> c.pubkey != pk
  {
    if claims != [] {
      FirstIsClaim(claims[..|claims| - 1], pk);
      assert claims == claims[..|claims| - 1] + [claims[|claims| - 1]];
    }
  }

  lemma SingleId(claims: seq<Claim>, pk: JsString, e: Entry)
    requires Claim(pk, e) in claims
    ensures e.accountId in IdsOf(claims, pk)
    ensures |IdsOf(claims, pk)| <= 1 <==> forall c :: c in claims && c.pubkey == pk ==> c.entry.accountId == e.accountId
  {
    var ids := IdsOf(claims, pk);
    var i :| 0 <= i < |claims| && claims[i] == Claim(pk, e);
    assert e.accountId in ids;
    if forall c :: c in claims && c.pubkey == pk ==> c.entry.accountId == e.accountId {
      assert ids == {e.accountId};
    }
    if |ids| <= 1 {
      forall c | c in claims && c.pubkey == pk ensures c.entry.accountId == e.accountId {
        var j :| 0 <= j < |claims| && claims[j] == c;
        assert c.entry.accountId in ids;
        OneMember(ids, e.accountId, c.entry.accountId);
      }
    }
  }

  lemma OneMember<T>(s: set<T>, x: T, y: T)
    requires |s| <= 1 && x in s && y in s
    ensures x == y
  {
    assert |s - {x}| == |s| - 1;
    assert x != y ==> y in s - {x};
  }

  /**
   The index holds a key exactly when one account and no other validly claims it, and then holds
   that account, its WebID and its profile's time.
   */
  lemma IndexIsExact(rows: seq<Row>, pk: JsString, e: Entry)
    requires Consistent(rows)
    ensures Get(Rebuilt(rows), pk) == Some(e) <==> SoleClaim(rows, pk, e)
  {
    var claims := AllClaims(rows);
    var (idx, seen) := Tally(claims);
    TallyMeans(claims, pk);
    PrunedMeans(idx, seen, pk);
    FirstIsClaim(claims, pk);
    ClaimIsListed(rows, pk, e);
    var first := FirstClaim(claims, pk);
    if first.Some? {
      var f := first.value;
      ClaimIsListed(rows, pk, f);
      SingleId(claims, pk, f);
      if Claims(rows, pk, e) && e.accountId == f.accountId {
        EntryOfAccount(rows, pk, e, f);
      }
      forall g ensures Claims(rows, pk, g) <==> Claim(pk, g) in claims {
        ClaimIsListed(rows, pk, g);
      }
      assert forall c :: c in claims && c.pubkey == pk ==> Claim(pk, c.entry) == c;
    }
  }

  // ---------- what a profile has to say ----------

  /** Candidate k is the first that parses and is about the WebID. */
  ghost predicate FirstAbout(webId: JsString, candidates: seq<Candidate>, k: nat) {
    && k < |candidates| && candidates[k].Parsed? && candidates[k].subject == webId
    && forall j :: 0 <= j < k ==> candidates[j].Unusable? || candidates[j].subject != webId
  }

  /** The profile lists the key in a method that it authenticates with and that a controller of its own controls. */
  ghost predicate Lists(p: Profile, pk: JsString) {
    exists k :: 0 <= k < |p.methods| && p.methods[k].pubkey == pk && Authorised(p, p.methods[k])
  }

  ghost predicate Authorised(p: Profile, m: Method) {
    && m.id != [] && m.id in p.authentication
    && exists c :: c in p.controllers && c in m.controllers
  }

  /** The account of a row publishes the key, with this WebID and this profile's time. */
  ghost predicate Publishes(row: Row, pk: JsString, e: Entry) {
    && row.account.Account? && e.accountId == row.accountId && e.webId == row.account.webId
    && exists k {:trigger row.account.candidates[k]} ::
         && 0 <= k && FirstAbout(row.account.webId, row.account.candidates, k)
         && Lists(row.account.candidates[k].profile, pk) && e.mtimeMs == row.account.candidates[k].mtimeMs
  }

  lemma {:induction false} ChosenIsFirst(webId: JsString, candidates: seq<Candidate>, k: nat)
    requires FirstAbout(webId, candidates, k)
    ensures Chosen(webId, candidates) == Some(candidates[k])
  {
    if k > 0 {
      assert candidates[0].Unusable? || candidates[0].subject != webId;
      ChosenIsFirst(webId, candidates[1..], k - 1);
    }
  }

  lemma {:induction false} ChosenPlace(webId: JsString, candidates: seq<Candidate>) returns (k: nat)
    requires Chosen(webId, candidates).Some?
    ensures FirstAbout(webId, candidates, k)
  {
    if candidates[0].Parsed? && candidates[0].subject == webId {
      k := 0;
    } else {
      k := ChosenPlace(webId, candidates[1..]);
      k := k + 1;
    }
  }

  lemma ListsIffValid(p: Profile, pk: JsString, e: Entry)
    ensures Lists(p, pk) <==> Claim(pk, e) in ValidMethods(p, p.methods, e)
    ensures Lists(p, pk) ==> p.controllers != {}
  {
    ValidMethodIn(p, p.methods, e, Claim(pk, e));
    if Lists(p, pk) {
      var k :| 0 <= k < |p.methods| && p.methods[k].pubkey == pk && Authorised(p, p.methods[k]);
      assert p.methods[k] in p.methods && Valid(p, p.methods[k]);
    }
    if m :| m in p.methods && Valid(p, m) && Claim(pk, e) == Claim(m.pubkey, e) {
      var k :| 0 <= k < |p.methods| && p.methods[k] == m;
      assert Authorised(p, p.methods[k]);
    }
  }

  lemma ClaimIffPublishes(row: Row, pk: JsString, e: Entry)
    ensures Claim(pk, e) in ClaimsOf(row) <==> Publishes(row, pk, e)
  {
    if Publishes(row, pk, e) {
      var k :| 0 <= k && FirstAbout(row.account.webId, row.account.candidates, k)
        && Lists(row.account.candidates[k].profile, pk) && e.mtimeMs == row.account.candidates[k].mtimeMs;
      ChosenIsFirst(row.account.webId, row.account.candidates, k);
      ListsIffValid(row.account.candidates[k].profile, pk, e);
    }
    if Claim(pk, e) in ClaimsOf(row) {
      RowEntry(row, pk, e);
      var k := ChosenPlace(row.account.webId, row.account.candidates);
      ChosenIsFirst(row.account.webId, row.account.candidates, k);
      ListsIffValid(row.account.candidates[k].profile, pk, e);
    }
  }

  /** A key resolves to an account exactly when that account publishes it and no other account does. */
  lemma ResolvesIff(rows: seq<Row>, pk: JsString, e: Entry)
    requires Consistent(rows)
    ensures Get(Rebuilt(rows), pk) == Some(e) <==>
      (exists i :: 0 <= i < |rows| && Publishes(rows[i], pk, e)) &&
      (forall i, f :: 0 <= i < |rows| && Publishes(rows[i], pk, f) ==> f.accountId == e.accountId)
  {
    IndexIsExact(rows, pk, e);
    forall i, f | 0 <= i < |rows| ensures Publishes(rows[i], pk, f) <==> Claim(pk, f) in ClaimsOf(rows[i]) {
      ClaimIffPublishes(rows[i], pk, f);
    }
  }

  // ---------- order does not matter ----------

  ghost predicate SameClaims(a: seq<Row>, b: seq<Row>) {
    forall pk, e :: Claims(a, pk, e) <==> Claims(b, pk, e)
  }

  /** The index depends on the valid claims only. */
  lemma ClaimsDecide(a: seq<Row>, b: seq<Row>, pk: JsString)
    requires Consistent(a) && Consistent(b) && SameClaims(a, b)
    ensures Get(Rebuilt(a), pk) == Get(Rebuilt(b), pk)
  {
    var x, y := Get(Rebuilt(a), pk), Get(Rebuilt(b), pk);
    if x.Some? {
      IndexIsExact(a, pk, x.value);
      IndexIsExact(b, pk, x.value);
    }
    if y.Some? {
      IndexIsExact(a, pk, y.value);
      IndexIsExact(b, pk, y.value);
    }
  }

  /** The index is the same for every order of accounts. */
  lemma AccountOrder(a: seq<Row>, b: seq<Row>, pk: JsString)
    requires Consistent(a) && multiset(a) == multiset(b)
    ensures Get(Rebuilt(a), pk) == Get(Rebuilt(b), pk)
  {
    forall r: Row ensures r in a <==> r in b {
      assert r in multiset(a) <==> r in multiset(b);
    }
    forall i, j | 0 <= i < |b| && 0 <= j < |b| && b[i].accountId == b[j].accountId ensures b[i].account == b[j].account {
      assert b[i] in a && b[j] in a;
    }
    forall k, e ensures Claims(a, k, e) <==> Claims(b, k, e) {
      ClaimByRow(a, k, e);
      ClaimByRow(b, k, e);
    }
    ClaimsDecide(a, b, pk);
  }

  lemma ClaimByRow(rows: seq<Row>, pk: JsString, e: Entry)
    ensures Claims(rows, pk, e) <==> exists r :: r in rows && Claim(pk, e) in ClaimsOf(r)
  {
    if Claims(rows, pk, e) {
      var i :| 0 <= i < |rows| && Claim(pk, e) in ClaimsOf(rows[i]);
      assert rows[i] in rows;
    }
  }

  /** Profiles that differ in the order of their methods only. */
  ghost predicate Reordered(p: Candidate, q: Candidate) {
    if p.Parsed? && q.Parsed? then
      && p.subject == q.subject && p.mtimeMs == q.mtimeMs
      && p.profile.controllers == q.profile.controllers && p.profile.authentication == q.profile.authentication
      && multiset(p.profile.methods) == multiset(q.profile.methods)
    else p == q
  }

  ghost predicate ReorderedRow(r: Row, s: Row) {
    r.accountId == s.accountId &&
    if r.account.Account? && s.account.Account? then
      && r.account.webId == s.account.webId && |r.account.candidates| == |s.account.candidates|
      && forall i :: 0 <= i < |r.account.candidates| ==> Reordered(r.account.candidates[i], s.account.candidates[i])
    else r.account == s.account
  }

  lemma {:induction false} ValidMethodIn(p: Profile, methods: seq<Method>, e: Entry, c: Claim)
    ensures c in ValidMethods(p, methods, e) <==> exists m :: m in methods && Valid(p, m) && c == Claim(m.pubkey, e)
  {
    if methods != [] {
      var n := |methods| - 1;
      ValidMethodIn(p, methods[..n], e, c);
      assert methods == methods[..n] + [methods[n]];
    }
  }

  lemma {:induction false} ChosenReordered(webId: JsString, a: seq<Candidate>, b: seq<Candidate>)
    requires |a| == |b| && forall i :: 0 <= i < |a| ==> Reordered(a[i], b[i])
    ensures var x, y := Chosen(webId, a), Chosen(webId, b);
      x.Some? == y.Some? && (x.Some? ==> x.value.Parsed? && y.value.Parsed? && Reordered(x.value, y.value))
  {
    if a != [] {
      assert Reordered(a[0], b[0]);
      ChosenReordered(webId, a[1..], b[1..]);
    }
  }

  lemma RowReordered(r: Row, s: Row, c: Claim)
    requires ReorderedRow(r, s)
    ensures c in ClaimsOf(r) <==> c in ClaimsOf(s)
  {
    if r.account.Account? && s.account.Account? {
      ChosenReordered(r.account.webId, r.account.candidates, s.account.candidates);
      var x, y := Chosen(r.account.webId, r.account.candidates), Chosen(s.account.webId, s.account.candidates);
      if x.Some? {
        var p, q := x.value.profile, y.value.profile;
        var e := Entry(r.accountId, r.account.webId, x.value.mtimeMs);
        ValidMethodIn(p, p.methods, e, c);
        ValidMethodIn(q, q.methods, e, c);
        forall m ensures (m in p.methods <==> m in q.methods) && (Valid(p, m) <==> Valid(q, m)) {
          assert m in multiset(p.methods) <==> m in multiset(q.methods);
        }
      }
    }
  }

  /** The index is the same for every order of the verification methods in the profiles. */
  lemma MethodOrder(a: seq<Row>, b: seq<Row>, pk: JsString)
    requires Consistent(a) && Consistent(b) && |a| == |b| && forall i :: 0 <= i < |a| ==> ReorderedRow(a[i], b[i])
    ensures Get(Rebuilt(a), pk) == Get(Rebuilt(b), pk)
  {
    forall k, e ensures Claims(a, k, e) <==> Claims(b, k, e) {
      forall i | 0 <= i < |a| ensures Claim(k, e) in ClaimsOf(a[i]) <==> Claim(k, e) in ClaimsOf(b[i]) {
        RowReordered(a[i], b[i], Claim(k, e));
      }
    }
    ClaimsDecide(a, b, pk);
  }
}
