/**
  Phone sign-in and sign-up keep at most one account per organization and number if and only if the forms
  that are let in get along: the runs that show it is necessary, and what follows for single forms.
 */
module PhoneUniqueness {
  import opened PhoneAccounts
  import opened PhoneSignin
  import opened UserLookup
  import opened Wrappers

  // ---------- A sign-up that nothing stands in the way of ----------

  lemma LatestIsLast(records: seq<Record>, r: Record)
    ensures Latest(records + [r], r.owner, r.receiver) == Some(|records|)
  {
  }

  lemma {:induction false} CountAtMost(records: seq<Record>, owner: string, receiver: Number, time: int)
    ensures CountSince(records, owner, receiver, time) <= |records|
  {
    if records != [] {
      CountAtMost(records[..|records| - 1], owner, receiver, time);
    }
  }

  /** So few codes have been sent that, a minute later, another one can be. */
  ghost predicate Calm(w: World, sends: nat) {
    |w.records| + sends <= SENDS_PER_DAY && forall r | r in w.records :: r.time <= w.clock
  }

  /** The latest record that a request reads is unused, and holds its code. */
  predicate HasCode(w: World, form: Form, receiver: Number) {
    var i := Latest(w.records, form.organization, receiver);
    form.code != "" && i.Some? && !w.records[i.value].used && w.records[i.value].code == form.code
  }

  /** A code of the form is sent a minute later. */
  lemma ReachSent(n: Numbers, start: seq<Account>, w: World, form: Form, number: Number, sends: nat) returns (w': World)
    requires Reachable(n, start, w) && Calm(w, sends + 1) && number !in w.held && form.code != ""
    ensures Reachable(n, start, w') && Calm(w', sends)
    ensures w' == w.(records := w'.records, clock := w'.clock)
    ensures HasCode(w', form, number)
  {
    w' := Reach(n, start, w, Tick(COOLDOWN));
    CountAtMost(w'.records, form.organization, number, w'.clock - DAY);
    LatestIsLast(w'.records, Record(form.organization, number, form.code, w'.clock, false));
    w' := Reach(n, start, w', Send(form.organization, number, form.code));
  }

  /** No account is noticed by the form, and its number is free to lock. */
  ghost predicate Unhindered(n: Numbers, w: World, form: Form) {
    && PlanOf(n, form).Some? && PlanOf(n, form).value.lock !in w.held
    && forall a | a in w.accounts && a.owner == form.organization :: !Notices(n, form, PlanOf(n, form).value, a.phone)
  }

  function Planned(n: Numbers, req: Request): Account
    requires PlanOf(n, req.form).Some?
  {
    Account(req.form.organization, req.Name(), PlanOf(n, req.form).value.phone, req.form.countryCode, req.id, req.form.idCard)
  }

  lemma ReachChecking(n: Numbers, start: seq<Account>, w: World, p: nat, req: Request) returns (w': World)
    requires Reachable(n, start, w) && Unhindered(n, w, req.form) && p !in w.requests
    ensures Reachable(n, start, w')
    ensures var lock := PlanOf(n, req.form).value.lock;
            w' == w.(held := w.held[lock := p], requests := w.requests[p := Checking(req, lock)])
  {
    w' := Reach(n, start, w, Start(p, req));
    w' := Reach(n, start, w', Move(p, true, 0));
    if !req.form.older {
      w' := Reach(n, start, w', Move(p, true, 0));
    }
    assert w'.requests == w.requests[p := Checking(req, PlanOf(n, req.form).value.lock)];
  }

  /** The request is about to add its account. */
  ghost predicate AboutToAdd(n: Numbers, w: World, p: nat, req: Request) {
    && PlanOf(n, req.form).Some? && p in w.requests && w.requests[p].Acting? && w.requests[p].req == req
    && w.requests[p].phone == PlanOf(n, req.form).value.lock && w.requests[p].aim == Add(Planned(n, req))
  }

  lemma ReachConsumed(n: Numbers, start: seq<Account>, w: World, p: nat) returns (w': World)
    requires Reachable(n, start, w) && p in w.requests && w.requests[p].Reading?
    requires HasCode(w, w.requests[p].req.form, w.requests[p].receiver)
    ensures Reachable(n, start, w')
    ensures var s, i := w.requests[p], Latest(w.records, w.requests[p].req.form.organization, w.requests[p].receiver).value;
            w' == w.(requests := w.requests[p := Acting(s.req, s.phone, Some(i), s.aim)],
                     records := w.records[i := w.records[i].(used := true)])
  {
    w' := Reach(n, start, w, Move(p, true, 0));
    w' := Reach(n, start, w', Move(p, true, 0));
    var s, i := w.requests[p], Latest(w.records, w.requests[p].req.form.organization, w.requests[p].receiver).value;
    assert w'.requests == w.requests[p := Acting(s.req, s.phone, Some(i), s.aim)];
  }

  lemma ReachPaid(n: Numbers, start: seq<Account>, w: World, p: nat, req: Request) returns (w': World)
    requires Reachable(n, start, w) && Unhindered(n, w, req.form) && p !in w.requests
    requires req.form.NeedsCode() ==> HasCode(w, req.form, PlanOf(n, req.form).value.number)
    ensures Reachable(n, start, w') && AboutToAdd(n, w', p, req)
    ensures w' == w.(held := w.held[PlanOf(n, req.form).value.lock := p], requests := w.requests[p := w'.requests[p]],
                     records := w'.records)
    ensures |w'.records| == |w.records| && forall i | 0 <= i < |w.records| :: w'.records[i].time == w.records[i].time
  {
    w' := ReachChecking(n, start, w, p, req);
    w' := Reach(n, start, w', Move(p, true, 0));
    if req.form.NeedsCode() {
      w' := ReachConsumed(n, start, w', p);
    }
    assert w'.requests == w.requests[p := w'.requests[p]];
  }

  lemma ReachActing(n: Numbers, start: seq<Account>, w: World, p: nat, req: Request, sends: nat) returns (w': World)
    requires Reachable(n, start, w) && Unhindered(n, w, req.form) && p !in w.requests && Calm(w, sends + 1)
    requires PlanOf(n, req.form).value.number !in w.held
    ensures Reachable(n, start, w') && AboutToAdd(n, w', p, req) && Calm(w', sends)
    ensures w'.accounts == w.accounts && w'.held == w.held[PlanOf(n, req.form).value.lock := p]
    ensures w'.requests == w.requests[p := w'.requests[p]]
  {
    w' := w;
    if req.form.NeedsCode() {
      w' := ReachSent(n, start, w, req.form, PlanOf(n, req.form).value.number, sends);
    }
    var before := w';
    w' := ReachPaid(n, start, w', p, req);
    forall r | r in w'.records
      ensures r.time <= w'.clock
    {
      var i :| 0 <= i < |w'.records| && w'.records[i] == r;
      assert before.records[i] in before.records;
    }
  }

  lemma ReachAdded(n: Numbers, start: seq<Account>, w: World, p: nat, req: Request) returns (w': World)
    requires Reachable(n, start, w) && AboutToAdd(n, w, p, req)
    requires !HasName(w.accounts, req.form.organization, req.Name())
    ensures Reachable(n, start, w') && w'.accounts == w.accounts + [Planned(n, req)]
    ensures w'.records == w.records && w'.clock == w.clock && w'.held == w.held - {PlanOf(n, req.form).value.lock}
    ensures w'.requests == w.requests[p := Finished(req)]
  {
    w' := Reach(n, start, w, Move(p, true, 0));
    w' := Reach(n, start, w', Move(p, true, 0));
    assert w'.requests == w.requests[p := Finished(req)];
  }

  // ---------- Forms that do not get along ----------

  lemma {:induction false} LongName(accounts: seq<Account>, avoid: string) returns (name: string)
    ensures |avoid| < |name| && forall a | a in accounts :: |a.name| < |name|
  {
    if accounts == [] {
      name := avoid + "_";
    } else {
      name := LongName(accounts[1..], avoid);
      name := accounts[0].name + name;
      assert forall a | a in accounts :: a == accounts[0] || a in accounts[1..];
    }
  }

  /** A request of the form, whose name is free, and is not the given one unless the form chooses it. */
  lemma PickRequest(accounts: seq<Account>, form: Form, avoid: string) returns (req: Request)
    requires forall a | a in accounts && a.owner == form.organization :: !ChosenName(form, a.name)
    ensures req.form == form && !HasName(accounts, form.organization, req.Name())
    ensures form.name == None ==> req.Name() != avoid
  {
    var name := LongName(accounts, avoid);
    req := Request(form, name, "");
  }

  function NameOr(form: Form): string {
    if form.name.Some? then form.name.value else ""
  }

  predicate SameName(f: Form, g: Form) {
    f.name.Some? && f.name == g.name
  }

  /** Both are open, and sign up for the same number under different names. */
  ghost predicate Collide(n: Numbers, start: seq<Account>, f: Form, g: Form) {
    && Open(n, start, f) && Open(n, start, g) && f.organization == g.organization && !SameName(f, g)
    && PlanOf(n, f).value.number == PlanOf(n, g).value.number
  }

  /** A sign-up by an open form, alone. */
  lemma ReachOne(n: Numbers, start: seq<Account>, f: Form, avoid: string) returns (w: World, req: Request)
    requires Open(n, start, f)
    ensures Reachable(n, start, w) && req.form == f && (f.name == None ==> req.Name() != avoid)
    ensures w.held == map[] && Calm(w, 1) && w.requests == map[0 := Finished(req)]
    ensures w.accounts == start + [Planned(n, req)]
  {
    req := PickRequest(start, f, avoid);
    w := ReachStart(n, start);
    w := ReachActing(n, start, w, 0, req, 1);
    w := ReachAdded(n, start, w, 0, req);
  }

  lemma LastTwoCollide(n: Numbers, start: seq<Account>, a: Account, b: Account)
    requires a.owner == b.owner && NumberOf(n, a) == NumberOf(n, b) && NumberOf(n, a).Some?
    ensures !Unique(n, start + [a] + [b])
  {
    var all := start + [a] + [b];
    assert all[|start|] == a && all[|start| + 1] == b;
  }

  /** One after the other, if the second does not notice the account of the first. */
  lemma TwoInTurn(n: Numbers, start: seq<Account>, f: Form, g: Form) returns (w: World)
    requires Collide(n, start, f, g) && !Notices(n, g, PlanOf(n, g).value, PlanOf(n, f).value.phone)
    ensures Reachable(n, start, w) && AllFrom(iset{f, g}, w) && !Unique(n, w.accounts)
  {
    var first: Request;
    w, first := ReachOne(n, start, f, NameOr(g));
    var second := PickRequest(w.accounts, g, "");
    w := ReachActing(n, start, w, 1, second, 0);
    w := ReachAdded(n, start, w, 1, second);
    LastTwoCollide(n, start, Planned(n, first), Planned(n, second));
  }

  /** At the same time, if they lock different numbers. */
  lemma TwoAtOnce(n: Numbers, start: seq<Account>, f: Form, g: Form) returns (w: World)
    requires Collide(n, start, f, g) && PlanOf(n, f).value.lock !in {PlanOf(n, g).value.lock, PlanOf(n, f).value.number}
    ensures Reachable(n, start, w) && AllFrom(iset{f, g}, w) && !Unique(n, w.accounts)
  {
    var first := PickRequest(start, f, NameOr(g));
    var second := PickRequest(start + [Planned(n, first)], g, "");
    w := ReachStart(n, start);
    w := ReachActing(n, start, w, 0, first, 1);
    w := ReachActing(n, start, w, 1, second, 0);
    w := ReachAdded(n, start, w, 0, first);
    assert !HasName(w.accounts, g.organization, second.Name());
    w := ReachAdded(n, start, w, 1, second);
    LastTwoCollide(n, start, Planned(n, first), Planned(n, second));
  }

  lemma Incompatible(n: Numbers, start: seq<Account>, f: Form, g: Form) returns (w: World)
    requires Open(n, start, f) && Open(n, start, g) && !Compatible(n, f, g)
    ensures Reachable(n, start, w) && AllFrom(iset{f, g}, w) && !Unique(n, w.accounts)
  {
    var p, q := PlanOf(n, f).value, PlanOf(n, g).value;
    if !Notices(n, g, q, p.phone) {
      w := TwoInTurn(n, start, f, g);
    } else if !Notices(n, f, p, q.phone) {
      w := TwoInTurn(n, start, g, f);
    } else if p.lock != p.number {
      w := TwoAtOnce(n, start, f, g);
    } else {
      w := TwoAtOnce(n, start, g, f);
    }
  }

  /** An open form signs up for a number that an account of the start has. */
  lemma Claimed(n: Numbers, start: seq<Account>, f: Form) returns (w: World)
    requires Open(n, start, f) && !Unclaimed(n, start, f)
    ensures Reachable(n, start, w) && AllFrom(iset{f}, w) && !Unique(n, w.accounts)
  {
    var req: Request;
    w, req := ReachOne(n, start, f, "");
    var i :| 0 <= i < |start| && start[i].owner == f.organization && NumberOf(n, start[i]) == Some(PlanOf(n, f).value.number);
    assert w.accounts[i] == start[i] && w.accounts[|start|] == Planned(n, req);
  }

  lemma NotAlong(n: Numbers, start: seq<Account>, forms: iset<Form>) returns (w: World)
    requires !GetAlong(n, start, forms)
    ensures Reachable(n, start, w) && AllFrom(forms, w) && !Unique(n, w.accounts)
  {
    if !Unique(n, start) {
      w := ReachStart(n, start);
    } else if f :| f in forms && Open(n, start, f) && !Unclaimed(n, start, f) {
      w := Claimed(n, start, f);
    } else {
      var f, g :| f in forms && g in forms && Open(n, start, f) && Open(n, start, g) && !Compatible(n, f, g);
      w := Incompatible(n, start, f, g);
    }
  }

  /** Forms that get along never lead to two accounts of one number. */
  lemma AlongIsUnique(n: Numbers, start: seq<Account>, forms: iset<Form>, w: World)
    requires GetAlong(n, start, forms) && Reachable(n, start, w) && AllFrom(forms, w)
    ensures Unique(n, w.accounts)
  {
    var run: seq<World> :| IsRun(n, run) && run[0].accounts == start && run[|run| - 1] == w;
    RunInv(n, forms, run, |run| - 1);
  }

  /**
    Whatever the accounts at the start, the forms that are let in, and the phone number library: accounts stay
    unique in all runs if and only if they are unique at the start, no open form signs up for a number of
    theirs, and any two open forms, or two requests of one, are compatible.
   */
  lemma UniqueIffGetAlong(n: Numbers, start: seq<Account>, forms: iset<Form>)
    ensures GetAlong(n, start, forms) <==> (forall w | Reachable(n, start, w) && AllFrom(forms, w) :: Unique(n, w.accounts))
  {
    if GetAlong(n, start, forms) {
      forall w | Reachable(n, start, w) && AllFrom(forms, w)
        ensures Unique(n, w.accounts)
      {
        AlongIsUnique(n, start, forms, w);
      }
    } else {
      var w := NotAlong(n, start, forms);
    }
  }

  // ---------- Single forms ----------

  /**
    Nothing can come of the form, or it locks the number of the account it creates, under the phone that the
    look-up for this number looks for; and an older sign-up looks for that phone.
   */
  predicate Safe(n: Numbers, form: Form) {
    match PlanOf(n, form)
    case None => true
    case Some(plan) => plan.number == plan.lock && plan.phone == n.national(plan.lock) && (form.older ==> form.checksPhone)
  }

  /** The account has no number, or is stored as the look-up for its number looks for it: by the national part. */
  predicate IsStored(n: Numbers, a: Account) {
    NumberOf(n, a) == None || a.phone == n.national(NumberOf(n, a).value)
  }

  lemma SafeGetAlong(n: Numbers, start: seq<Account>, forms: iset<Form>)
    requires Unique(n, start) && (forall a | a in start :: IsStored(n, a)) && forall f | f in forms :: Safe(n, f)
    ensures GetAlong(n, start, forms)
  {
    forall f | f in forms && Open(n, start, f)
      ensures Unclaimed(n, start, f)
    {
      forall a | a in start && a.owner == f.organization
        ensures NumberOf(n, a) != Some(PlanOf(n, f).value.number)
      {
        assert IsStored(n, a) && !Blocks(n, a, f, PlanOf(n, f).value);
      }
    }
    forall f, g | f in forms && g in forms && Open(n, start, f) && Open(n, start, g)
      ensures Compatible(n, f, g)
    {
    }
  }

  ghost function SafeForms(n: Numbers): iset<Form> {
    iset f | Safe(n, f)
  }

  /** Safe forms keep unique accounts unique that are stored by the national part of their number. */
  lemma SafeRunsAreUnique(n: Numbers, start: seq<Account>, w: World)
    requires Unique(n, start) && (forall a | a in start :: IsStored(n, a))
    requires Reachable(n, start, w) && AllFrom(SafeForms(n), w)
    ensures Unique(n, w.accounts)
  {
    SafeGetAlong(n, start, SafeForms(n));
    AlongIsUnique(n, start, SafeForms(n), w);
  }

  /** A form is safe if it passes the check that the code makes for existing accounts only. */
  lemma InRegionIsSafe(n: Numbers, form: Form)
    requires LockOf(n, form).Some? ==> InRegion(n, LockOf(n, form).value, form.countryCode)
    requires form.older ==> form.checksPhone
    ensures Safe(n, form)
  {
  }

  /** A sign-up with the number as an account of the form would store it. */
  function Twin(n: Numbers, form: Form): Form
    requires PlanOf(n, form).Some?
  {
    form.(username := PlanOf(n, form).value.phone, name := None, checksPhone := true)
  }

  /**
    An unsafe form whose own number is one of its country is not compatible with a safe sign-up for that
    number: the two lock different numbers.
   */
  lemma TwinIsIncompatible(n: Numbers, form: Form)
    requires PlanOf(n, form).Some? && !Safe(n, form) && (form.older ==> form.checksPhone)
    requires InRegion(n, PlanOf(n, form).value.number, form.countryCode)
    ensures PlanOf(n, Twin(n, form)).Some? && Safe(n, Twin(n, form)) && !Compatible(n, form, Twin(n, form))
  {
    var plan, twin := PlanOf(n, form).value, Twin(n, form);
    assert LockOf(n, twin) == Some(plan.number);
    assert plan.lock != plan.number;
  }

  /** An older sign-up that looks for no account of its number, nor chooses its name, adds one each time it is sent. */
  lemma UncheckedIsIncompatible(n: Numbers, form: Form)
    requires PlanOf(n, form).Some? && form.older && !form.checksPhone && form.name == None
    ensures !Compatible(n, form, form)
  {
  }

  /**
    A form can be let in among safe ones, without ever leading to two accounts of one organization and number,
    if and only if nothing can come of it, or it is compatible with itself and with all safe ones.
   */
  lemma LetInIffCompatible(n: Numbers, form: Form)
    ensures (forall w | Reachable(n, [], w) && AllFrom(SafeForms(n) + iset{form}, w) :: Unique(n, w.accounts))
            <==> (PlanOf(n, form).Some? ==>
                    && Compatible(n, form, form)
                    && forall f | Safe(n, f) && PlanOf(n, f).Some? :: Compatible(n, form, f))
  {
    UniqueIffGetAlong(n, [], SafeForms(n) + iset{form});
    forall f
      ensures Open(n, [], f) <==> PlanOf(n, f).Some?
    {
    }
  }

  /** Some safe form signs up for the number of the account, in its organization. */
  ghost predicate CanBeSignedUp(n: Numbers, a: Account) {
    exists f :: SignsUpFor(n, f, a)
  }

  predicate SignsUpFor(n: Numbers, f: Form, a: Account) {
    && Safe(n, f) && PlanOf(n, f).Some? && f.organization == a.owner
    && NumberOf(n, a) == Some(PlanOf(n, f).value.number)
  }

  /**
    An account stays the only one of its number in all runs of safe forms if and only if the look-up finds it,
    or no safe form signs up for its number anyway.
   */
  lemma UniqueIffStored(n: Numbers, a: Account)
    ensures (forall w | Reachable(n, [a], w) && AllFrom(SafeForms(n), w) :: Unique(n, w.accounts))
            <==> IsStored(n, a) || !CanBeSignedUp(n, a)
  {
    UniqueIffGetAlong(n, [a], SafeForms(n));
    if IsStored(n, a) {
      SafeGetAlong(n, [a], SafeForms(n));
    } else if f :| SignsUpFor(n, f, a) {
      MissedIsClaimed(n, a, f);
    } else {
      NobodySignsUp(n, a);
    }
  }

  lemma MissedIsClaimed(n: Numbers, a: Account, f: Form)
    requires !IsStored(n, a) && SignsUpFor(n, f, a)
    ensures !GetAlong(n, [a], SafeForms(n))
  {
    var g := f.(name := None);
    assert PlanOf(n, g) == PlanOf(n, f);
    assert Open(n, [a], g) && a in [a] && !Unclaimed(n, [a], g);
    assert g in SafeForms(n);
  }

  lemma NobodySignsUp(n: Numbers, a: Account)
    requires !CanBeSignedUp(n, a)
    ensures GetAlong(n, [a], SafeForms(n))
  {
    var forms := SafeForms(n);
    forall f | f in forms && Open(n, [a], f)
      ensures Unclaimed(n, [a], f)
    {
      assert !SignsUpFor(n, f, a);
    }
    SafeGetAlong(n, [], forms);
    forall f, g | f in forms && g in forms && Open(n, [a], f) && Open(n, [a], g)
      ensures Compatible(n, f, g)
    {
      assert Open(n, [], f) && Open(n, [], g);
    }
  }

  // ---------- Inputs that lead to two accounts ----------

  /** A national part that is a number of two countries. */
  function TwoCountries(): Numbers {
    Numbers((phone: string, countryCode: string) =>
              if phone == "2025550123" && countryCode == "CN" then Some("+862025550123")
              else if phone == "+12025550123" || (phone == "2025550123" && countryCode == "US") then Some("+12025550123")
              else None,
            (phone: Number) => "2025550123",
            (text: string) => text)
  }

  /** A form of phone sign-in for somebody new. */
  function SignupForm(username: string, countryCode: string): Form {
    Form(false, "org", username, countryCode, "123456", None, "", true, true, true, false)
  }

  /** An American number sent with China, and a Chinese one of the same national part, become two accounts of the Chinese number. */
  lemma ForeignNumberTwice() returns (w: World)
    ensures var foreign, domestic := SignupForm("+12025550123", "CN"), SignupForm("2025550123", "CN");
            && Reachable(TwoCountries(), [], w) && AllFrom(iset{foreign, domestic}, w)
            && !Unique(TwoCountries(), w.accounts) && Safe(TwoCountries(), domestic) && !Safe(TwoCountries(), foreign)
  {
    var n, foreign := TwoCountries(), SignupForm("+12025550123", "CN");
    assert "+862025550123"[1] != "+12025550123"[1];
    assert PlanOf(n, foreign) == Some(Plan("+12025550123", "2025550123", "+862025550123"));
    TwinIsIncompatible(n, foreign);
    w := Incompatible(n, [], foreign, Twin(n, foreign));
  }

  /** Two older sign-ups without a check, which ask for no code, become two accounts of one number. */
  lemma OlderSignupTwice() returns (w: World)
    ensures var form := SignupForm("2025550123", "US").(older := true, signup := false, code := "", checksPhone := false);
            Reachable(TwoCountries(), [], w) && AllFrom(iset{form}, w) && !Unique(TwoCountries(), w.accounts)
  {
    var n, form := TwoCountries(), SignupForm("2025550123", "US").(older := true, signup := false, code := "", checksPhone := false);
    assert PlanOf(n, form) == Some(Plan("+12025550123", "2025550123", "+12025550123"));
    UncheckedIsIncompatible(n, form);
    w := Incompatible(n, [], form, form);
  }

  /** An account that is stored with its plus sign is missed by the look-up, and gets a second one beside it. */
  lemma StoredWithPlusTwice() returns (w: World)
    ensures var a, form := Account("org", "alice", "+12025550123", "US", "1", ""), SignupForm("2025550123", "US");
            && Reachable(TwoCountries(), [a], w) && AllFrom(iset{form}, w) && !Unique(TwoCountries(), w.accounts)
            && Safe(TwoCountries(), form)
  {
    var n, a, form := TwoCountries(), Account("org", "alice", "+12025550123", "US", "1", ""), SignupForm("2025550123", "US");
    assert PlanOf(n, form) == Some(Plan("+12025550123", "2025550123", "+12025550123"));
    assert a.phone[0] != "2025550123"[0];
    assert a in [a] && NumberOf(n, a) == Some("+12025550123");
    assert Open(n, [a], form) && !Unclaimed(n, [a], form);
    w := Claimed(n, [a], form);
  }
}
