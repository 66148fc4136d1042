/**
  The consents of a user: a list of records, one per application, that granting and revoking update
  in place.  Behind it stands a map from applications to sets of scopes.
 */
module Consent {

  datatype ConsentRecord = ConsentRecord(application: string, grantedScopes: seq<string>)

  type Records = seq<ConsentRecord>

  // ---------- Lists of scopes ----------

  ghost predicate NoDuplicates<T(!new)>(s: seq<T>) {
    forall i, j | 0 <= i < j < |s| :: s[i] != s[j]
  }

  function ScopeSet(scopes: seq<string>): set<string> {
    set s | s in scopes
  }

  /** `existing`, with the scopes appended that it does not have yet. */
  function AddScopes(existing: seq<string>, scopes: seq<string>): seq<string>
    decreases scopes
  {
    if scopes == [] then existing
    else AddScopes(if scopes[0] in existing then existing else existing + [scopes[0]], scopes[1..])
  }

  function RemoveScopes(existing: seq<string>, scopes: seq<string>): seq<string> {
    if existing == [] then []
    else (if existing[0] in scopes then [] else [existing[0]]) + RemoveScopes(existing[1..], scopes)
  }

  lemma {:induction false} AddScopesIsUnion(existing: seq<string>, scopes: seq<string>)
    ensures ScopeSet(AddScopes(existing, scopes)) == ScopeSet(existing) + ScopeSet(scopes)
    ensures NoDuplicates(existing) ==> NoDuplicates(AddScopes(existing, scopes))
    ensures existing <= AddScopes(existing, scopes)
    decreases scopes
  {
    if scopes != [] {
      var more := if scopes[0] in existing then existing else existing + [scopes[0]];
      AddScopesIsUnion(more, scopes[1..]);
      assert ScopeSet(scopes) == {scopes[0]} + ScopeSet(scopes[1..]);
      assert ScopeSet(more) == ScopeSet(existing) + {scopes[0]};
    }
  }

  lemma {:induction false} RemoveScopesIsDifference(existing: seq<string>, scopes: seq<string>)
    ensures ScopeSet(RemoveScopes(existing, scopes)) == ScopeSet(existing) - ScopeSet(scopes)
    ensures NoDuplicates(existing) ==> NoDuplicates(RemoveScopes(existing, scopes))
  {
    if existing != [] {
      RemoveScopesIsDifference(existing[1..], scopes);
      var rest, all := RemoveScopes(existing[1..], scopes), RemoveScopes(existing, scopes);
      assert ScopeSet(existing) == {existing[0]} + ScopeSet(existing[1..]);
      if existing[0] in scopes {
        assert all == rest && existing[0] in ScopeSet(scopes);
      } else {
        assert all == [existing[0]] + rest && existing[0] !in ScopeSet(scopes);
        assert ScopeSet(all) == {existing[0]} + ScopeSet(rest);
      }
      if NoDuplicates(existing) {
        assert forall i | 0 <= i < |rest| :: rest[i] in ScopeSet(rest) && rest[i] in existing[1..];
      }
    }
  }

  /** Scopes are added one after the other, each at the end, unless it is there already. */
  lemma {:induction false} AddScopesInTurn(existing: seq<string>, scopes: seq<string>, scope: string)
    ensures var before := AddScopes(existing, scopes);
            AddScopes(existing, scopes + [scope]) == if scope in before then before else before + [scope]
    decreases scopes
  {
    if scopes == [] {
      assert [scope][1..] == [] && scopes + [scope] == [scope];
    } else {
      AddScopesInTurn(if scopes[0] in existing then existing else existing + [scopes[0]], scopes[1..], scope);
      assert (scopes + [scope])[1..] == scopes[1..] + [scope];
    }
  }

  /** What is left keeps its order. */
  lemma {:induction false} RemoveScopesInTurn(existing: seq<string>, scope: string, scopes: seq<string>)
    ensures var before := RemoveScopes(existing, scopes);
            RemoveScopes(existing + [scope], scopes) == if scope in scopes then before else before + [scope]
  {
    if existing == [] {
      assert [scope][1..] == [] && existing + [scope] == [scope];
    } else {
      RemoveScopesInTurn(existing[1..], scope, scopes);
      assert (existing + [scope])[1..] == existing[1..] + [scope];
    }
  }

  lemma SomeScope(scopes: seq<string>)
    ensures scopes != [] ==> ScopeSet(scopes) != {}
  {
    if scopes != [] {
      assert scopes[0] in ScopeSet(scopes);
    }
  }

  // ---------- Lists of records ----------

  /** Records of pairwise distinct applications, each without duplicate scopes. */
  ghost predicate WellFormed(records: Records) {
    && (forall i, j | 0 <= i < j < |records| :: records[i].application != records[j].application)
    && (forall i | 0 <= i < |records| :: NoDuplicates(records[i].grantedScopes))
  }

  function Granted(records: Records, app: string, scopes: seq<string>): Records {
    if records == [] then [ConsentRecord(app, AddScopes([], scopes))]
    else if records[0].application == app then
      [ConsentRecord(app, AddScopes(records[0].grantedScopes, scopes))] + records[1..]
    else [records[0]] + Granted(records[1..], app, scopes)
  }

  /** What remains of a record: nothing if all its scopes are revoked. */
  function Remaining(record: ConsentRecord, app: string, scopes: seq<string>): Records {
    if record.application != app then [record]
    else
      var remaining := RemoveScopes(record.grantedScopes, scopes);
      if remaining == [] then [] else [record.(grantedScopes := remaining)]
  }

  function Revoked(records: Records, app: string, scopes: seq<string>): Records {
    if records == [] then [] else Remaining(records[0], app, scopes) + Revoked(records[1..], app, scopes)
  }

  /** The consents as a map. */
  function ToMap(records: Records): map<string, set<string>> {
    if records == [] then map[]
    else ToMap(records[1..])[records[0].application := ScopeSet(records[0].grantedScopes)]
  }

  /** The records of the other applications, in order. */
  function Others(records: Records, app: string): Records {
    if records == [] then []
    else (if records[0].application == app then [] else [records[0]]) + Others(records[1..], app)
  }

  function GrantedMap(m: map<string, set<string>>, app: string, scopes: set<string>): map<string, set<string>> {
    m[app := (if app in m then m[app] else {}) + scopes]
  }

  function RevokedMap(m: map<string, set<string>>, app: string, scopes: set<string>): map<string, set<string>> {
    if app !in m then m
    else if m[app] - scopes == {} then m - {app}
    else m[app := m[app] - scopes]
  }

  predicate HasApp(records: Records, app: string) {
    exists i :: 0 <= i < |records| && records[i].application == app
  }

  lemma {:induction false} MapKeys(records: Records, app: string)
    ensures app in ToMap(records) <==> HasApp(records, app)
  {
    if records != [] {
      MapKeys(records[1..], app);
      HasAppSplit(records, app);
    }
  }

  lemma WellFormedSplit(records: Records)
    requires records != []
    ensures WellFormed(records) <==>
            && WellFormed(records[1..]) && NoDuplicates(records[0].grantedScopes)
            && !HasApp(records[1..], records[0].application)
  {
    var rest := records[1..];
    assert forall i | 1 <= i < |records| :: records[i] == rest[i - 1];
    assert forall i | 0 <= i < |rest| :: rest[i] == records[i + 1];
  }

  lemma PrependWellFormed(record: ConsentRecord, rest: Records)
    ensures WellFormed([record] + rest) <==>
            WellFormed(rest) && NoDuplicates(record.grantedScopes) && !HasApp(rest, record.application)
  {
    WellFormedSplit([record] + rest);
    assert ([record] + rest)[1..] == rest;
  }

  lemma PrependToMap(record: ConsentRecord, rest: Records)
    ensures ToMap([record] + rest) == ToMap(rest)[record.application := ScopeSet(record.grantedScopes)]
    ensures forall app :: Others([record] + rest, app) == (if record.application == app then [] else [record]) + Others(rest, app)
  {
    assert ([record] + rest)[1..] == rest;
  }

  /** Granting is union on the map; the list stays well formed and leaves the other applications as they are, in order. */
  lemma {:induction false} GrantRefines(records: Records, app: string, scopes: seq<string>)
    requires WellFormed(records)
    ensures WellFormed(Granted(records, app, scopes))
    ensures ToMap(Granted(records, app, scopes)) == GrantedMap(ToMap(records), app, ScopeSet(scopes))
    ensures Others(Granted(records, app, scopes), app) == Others(records, app)
  {
    if records == [] {
      GrantNew(app, scopes);
    } else {
      var first, rest := records[0], records[1..];
      WellFormedSplit(records);
      if first.application == app {
        GrantFirst(first, rest, scopes);
      } else {
        GrantRefines(rest, app, scopes);
        PassFirst(first, rest, Granted(rest, app, scopes), app, ScopeSet(scopes));
      }
    }
  }

  lemma GrantNew(app: string, scopes: seq<string>)
    ensures WellFormed(Granted([], app, scopes))
    ensures ToMap(Granted([], app, scopes)) == GrantedMap(map[], app, ScopeSet(scopes))
    ensures Others(Granted([], app, scopes), app) == []
  {
    var record := ConsentRecord(app, AddScopes([], scopes));
    AddScopesIsUnion([], scopes);
    PrependWellFormed(record, []);
    PrependToMap(record, []);
    assert [record] + [] == [record] && ToMap([]) == map[] && ScopeSet([]) == {};
    assert Granted([], app, scopes) == [record];
  }

  lemma GrantFirst(first: ConsentRecord, rest: Records, scopes: seq<string>)
    requires WellFormed(rest) && NoDuplicates(first.grantedScopes) && !HasApp(rest, first.application)
    ensures var app := first.application;
            var records := [ConsentRecord(app, AddScopes(first.grantedScopes, scopes))] + rest;
            && WellFormed(records) && Others(records, app) == Others(rest, app)
            && ToMap(records) == GrantedMap(ToMap(rest)[app := ScopeSet(first.grantedScopes)], app, ScopeSet(scopes))
  {
    var record := ConsentRecord(first.application, AddScopes(first.grantedScopes, scopes));
    AddScopesIsUnion(first.grantedScopes, scopes);
    PrependWellFormed(record, rest);
    PrependToMap(record, rest);
  }

  lemma PassFirst(first: ConsentRecord, rest: Records, rest': Records, app: string, scopes: set<string>)
    requires WellFormed(rest') && NoDuplicates(first.grantedScopes) && !HasApp(rest, first.application)
    requires first.application != app
    requires ToMap(rest') == GrantedMap(ToMap(rest), app, scopes) && Others(rest', app) == Others(rest, app)
    ensures WellFormed([first] + rest')
    ensures ToMap([first] + rest')
         == GrantedMap(ToMap(rest)[first.application := ScopeSet(first.grantedScopes)], app, scopes)
    ensures Others([first] + rest', app) == [first] + Others(rest, app)
  {
    MapKeys(rest, first.application);
    MapKeys(rest', first.application);
    PrependWellFormed(first, rest');
    PrependToMap(first, rest');
  }

  /** Revoking is difference on the map, and an application without scopes left is dropped. */
  lemma {:induction false} RevokeRefines(records: Records, app: string, scopes: seq<string>)
    requires WellFormed(records)
    ensures WellFormed(Revoked(records, app, scopes))
    ensures ToMap(Revoked(records, app, scopes)) == RevokedMap(ToMap(records), app, ScopeSet(scopes))
    ensures Others(Revoked(records, app, scopes), app) == Others(records, app)
  {
    if records != [] {
      var first, rest := records[0], records[1..];
      var rest' := Revoked(rest, app, scopes);
      WellFormedSplit(records);
      RevokeRefines(rest, app, scopes);
      if first.application != app {
        KeepFirst(first, rest, rest', app, scopes);
      } else {
        NothingToRevoke(rest, app, scopes);
        RevokeFirst(first, rest, scopes);
      }
    }
  }

  lemma KeepFirst(first: ConsentRecord, rest: Records, rest': Records, app: string, scopes: seq<string>)
    requires WellFormed(rest') && NoDuplicates(first.grantedScopes) && !HasApp(rest, first.application)
    requires first.application != app
    requires ToMap(rest') == RevokedMap(ToMap(rest), app, ScopeSet(scopes)) && Others(rest', app) == Others(rest, app)
    ensures WellFormed([first] + rest')
    ensures ToMap([first] + rest')
         == RevokedMap(ToMap(rest)[first.application := ScopeSet(first.grantedScopes)], app, ScopeSet(scopes))
    ensures Others([first] + rest', app) == [first] + Others(rest, app)
  {
    MapKeys(rest, first.application);
    MapKeys(rest', first.application);
    PrependWellFormed(first, rest');
    PrependToMap(first, rest');
  }

  lemma RevokeFirst(first: ConsentRecord, rest: Records, scopes: seq<string>)
    requires WellFormed(rest) && NoDuplicates(first.grantedScopes) && !HasApp(rest, first.application)
    ensures var app := first.application;
            var records := Remaining(first, app, scopes) + rest;
            && WellFormed(records)
            && ToMap(records) == RevokedMap(ToMap(rest)[app := ScopeSet(first.grantedScopes)], app, ScopeSet(scopes))
            && Others(records, app) == Others(rest, app)
  {
    var app := first.application;
    var remaining := RemoveScopes(first.grantedScopes, scopes);
    RemoveScopesIsDifference(first.grantedScopes, scopes);
    MapKeys(rest, app);
    SomeScope(remaining);
    RevokedEntry(ToMap(rest), app, ScopeSet(first.grantedScopes), ScopeSet(scopes));
    if remaining == [] {
      assert Remaining(first, app, scopes) + rest == rest;
      assert ScopeSet(remaining) == {};
    } else {
      var record := first.(grantedScopes := remaining);
      PrependWellFormed(record, rest);
      PrependToMap(record, rest);
    }
  }

  lemma RevokedEntry(m: map<string, set<string>>, app: string, granted: set<string>, scopes: set<string>)
    requires app !in m
    ensures RevokedMap(m[app := granted], app, scopes) == if granted - scopes == {} then m else m[app := granted - scopes]
  {
  }

  lemma HasAppSplit(records: Records, app: string)
    requires records != []
    ensures HasApp(records, app) <==> records[0].application == app || HasApp(records[1..], app)
  {
    assert forall i | 0 <= i < |records[1..]| :: records[1..][i] == records[i + 1];
    if HasApp(records, app) && records[0].application != app {
      var i :| 0 <= i < |records| && records[i].application == app;
      assert records[1..][i - 1].application == app;
    }
  }

  lemma {:induction false} NothingToRevoke(records: Records, app: string, scopes: seq<string>)
    requires !HasApp(records, app)
    ensures Revoked(records, app, scopes) == records
  {
    if records != [] {
      HasAppSplit(records, app);
      NothingToRevoke(records[1..], app, scopes);
    }
  }

  // ---------- Any sequence of grants and revokes ----------

  datatype Operation = Grant(app: string, scopes: seq<string>) | Revoke(app: string, scopes: seq<string>)

  function Perform(records: Records, op: Operation): Records {
    match op
    case Grant(app, scopes) => Granted(records, app, scopes)
    case Revoke(app, scopes) => if app == "" || scopes == [] then records else Revoked(records, app, scopes)
  }

  function PerformOnMap(m: map<string, set<string>>, op: Operation): map<string, set<string>> {
    match op
    case Grant(app, scopes) => GrantedMap(m, app, ScopeSet(scopes))
    case Revoke(app, scopes) => if app == "" || scopes == [] then m else RevokedMap(m, app, ScopeSet(scopes))
  }

  function PerformAll(ops: seq<Operation>): Records {
    if ops == [] then [] else Perform(PerformAll(ops[..|ops| - 1]), ops[|ops| - 1])
  }

  function PerformAllOnMap(ops: seq<Operation>): map<string, set<string>> {
    if ops == [] then map[] else PerformOnMap(PerformAllOnMap(ops[..|ops| - 1]), ops[|ops| - 1])
  }

  /** From an empty list on, the list is well formed and is the map, operation by operation. */
  lemma {:induction false} ListRefinesMap(ops: seq<Operation>)
    ensures WellFormed(PerformAll(ops)) && ToMap(PerformAll(ops)) == PerformAllOnMap(ops)
  {
    if ops != [] {
      var before, op := ops[..|ops| - 1], ops[|ops| - 1];
      ListRefinesMap(before);
      match op
      case Grant(app, scopes) => GrantRefines(PerformAll(before), app, scopes);
      case Revoke(app, scopes) => RevokeRefines(PerformAll(before), app, scopes);
    }
  }

  lemma {:induction false} GrantToNew(records: Records, app: string, scopes: seq<string>)
    requires !HasApp(records, app)
    ensures Granted(records, app, scopes) == records + [ConsentRecord(app, AddScopes([], scopes))]
  {
    if records != [] {
      HasAppSplit(records, app);
      GrantToNew(records[1..], app, scopes);
    }
  }

  lemma {:induction false} RevokedConcat(a: Records, b: Records, app: string, scopes: seq<string>)
    ensures Revoked(a + b, app, scopes) == Revoked(a, app, scopes) + Revoked(b, app, scopes)
  {
    if a == [] {
      assert a + b == b;
    } else {
      assert (a + b)[1..] == a[1..] + b;
      RevokedConcat(a[1..], b, app, scopes);
    }
  }

  /** Revoking what was granted to a new application gives back the list as it was. */
  lemma RevokeUndoesGrant(records: Records, app: string, scopes: seq<string>)
    requires !HasApp(records, app)
    ensures Revoked(Granted(records, app, scopes), app, scopes) == records
  {
    var record := ConsentRecord(app, AddScopes([], scopes));
    GrantToNew(records, app, scopes);
    RevokedConcat(records, [record], app, scopes);
    NothingToRevoke(records, app, scopes);
    AddScopesIsUnion([], scopes);
    RemoveScopesIsDifference(record.grantedScopes, scopes);
    SomeScope(RemoveScopes(record.grantedScopes, scopes));
    assert Revoked([record], app, scopes) == [];
  }

  // ---------- The user object ----------

  class User {
    var applicationScopes: Records

    constructor ()
      ensures applicationScopes == []
    {
      applicationScopes := [];
    }

    /** The inner loops of granting: appends the scopes that are not there yet. */
    static method Append(granted: seq<string>, scopes: seq<string>) returns (all: seq<string>)
      ensures all == AddScopes(granted, scopes)
    {
      all := granted;
      var existing := ScopeSet(granted);
      for j := 0 to |scopes|
        invariant existing == ScopeSet(all)
        invariant AddScopes(all, scopes[j..]) == AddScopes(granted, scopes)
      {
        assert scopes[j..][1..] == scopes[j + 1..];
        if scopes[j] !in existing {
          all := all + [scopes[j]];
          existing := existing + {scopes[j]};
        }
      }
    }

    static lemma KeepStep(granted: seq<string>, j: nat, scopes: seq<string>)
      requires j < |granted|
      ensures RemoveScopes(granted[j..], scopes)
           == (if granted[j] in scopes then [] else [granted[j]]) + RemoveScopes(granted[j + 1..], scopes)
    {
      assert granted[j..][1..] == granted[j + 1..];
    }

    /** The inner loop of revoking: keeps the scopes that are not revoked. */
    static method Keep(granted: seq<string>, scopes: seq<string>) returns (remaining: seq<string>)
      ensures remaining == RemoveScopes(granted, scopes)
    {
      var revokeSet := ScopeSet(scopes);
      remaining := [];
      for j := 0 to |granted|
        invariant remaining + RemoveScopes(granted[j..], scopes) == RemoveScopes(granted, scopes)
      {
        KeepStep(granted, j, scopes);
        if granted[j] !in revokeSet {
          remaining := remaining + [granted[j]];
        }
      }
    }

    method GrantConsent(appId: string, scopes: seq<string>)
      modifies this
      ensures applicationScopes == Perform(old(applicationScopes), Grant(appId, scopes))
    {
      ghost var before := applicationScopes;
      for i := 0 to |applicationScopes|
        invariant applicationScopes == before
        invariant Granted(before, appId, scopes) == before[..i] + Granted(before[i..], appId, scopes)
      {
        assert before[i..][1..] == before[i + 1..];
        if applicationScopes[i].application == appId {
          var granted := Append(applicationScopes[i].grantedScopes, scopes);
          applicationScopes := applicationScopes[i := applicationScopes[i].(grantedScopes := granted)];
          return;
        }
        GrantPasses(before, i, appId, scopes);
      }
      var uniqueScopes := Append([], scopes);
      applicationScopes := applicationScopes + [ConsentRecord(appId, uniqueScopes)];
    }

    static lemma GrantPasses(records: Records, i: nat, app: string, scopes: seq<string>)
      requires i < |records| && records[i].application != app
      ensures records[..i] + Granted(records[i..], app, scopes) == records[..i + 1] + Granted(records[i + 1..], app, scopes)
    {
      assert records[i..][1..] == records[i + 1..];
    }

    /** Fails, and changes nothing, if no application or no scope is named. */
    method RevokeConsent(application: string, scopes: seq<string>) returns (ok: bool)
      modifies this
      ensures applicationScopes == Perform(old(applicationScopes), Revoke(application, scopes))
      ensures ok <==> application != "" && scopes != []
    {
      if application == "" || |scopes| == 0 {
        return false;
      }
      ghost var before := applicationScopes;
      var newScopes: Records := [];
      for i := 0 to |applicationScopes|
        invariant applicationScopes == before
        invariant newScopes == Revoked(before[..i], application, scopes)
      {
        var record := applicationScopes[i];
        RevokePasses(before, i, application, scopes);
        if record.application != application {
          newScopes := newScopes + [record];
          continue;
        }
        var remaining := Keep(record.grantedScopes, scopes);
        if |remaining| > 0 {
          newScopes := newScopes + [record.(grantedScopes := remaining)];
        }
      }
      assert before[..|before|] == before;
      applicationScopes := newScopes;
      ok := true;
    }

    static lemma RevokePasses(records: Records, i: nat, app: string, scopes: seq<string>)
      requires i < |records|
      ensures Revoked(records[..i + 1], app, scopes) == Revoked(records[..i], app, scopes) + Remaining(records[i], app, scopes)
    {
      RevokedConcat(records[..i], [records[i]], app, scopes);
      assert records[..i + 1] == records[..i] + [records[i]];
      assert Revoked([records[i]], app, scopes) == Remaining(records[i], app, scopes);
    }
  }
}
