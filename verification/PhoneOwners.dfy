/**
  Whose account a phone sign-in ends in.  The number is locked and checked for the account that a look-up by
  number finds, but the account that is signed in is looked up once more, by the text that was typed in.
 */
module PhoneOwners {
  import opened PhoneAccounts
  import opened PhoneSignin
  import opened PhoneUniqueness
  import opened UserLookup
  import opened Wrappers

  /** A form of phone sign-in that can lock its number, and sends a code. */
  predicate CanLock(n: Numbers, form: Form, phone: Number) {
    !form.older && form.username != "" && form.countryCode != "" && form.code != "" && LockOf(n, form) == Some(phone)
  }

  /** If an account has the number, the number passes the check. */
  predicate Passes(n: Numbers, accounts: seq<Account>, form: Form, phone: Number) {
    HasAccount(n, accounts, form.organization, phone) ==> InRegion(n, phone, form.countryCode)
  }

  /** An account has the number, or none is to be added. */
  predicate IsLogin(n: Numbers, accounts: seq<Account>, form: Form, phone: Number) {
    HasAccount(n, accounts, form.organization, phone) || !form.signup
  }

  // ---------- Runs sign in to what the look-up finds ----------

  predicate SignsIn(u: Use, form: Form, a: Account) {
    u.form == form && u.aim.SignIn? && u.aim.account == a
  }

  /** Some run of requests with this form, and no others, signs in to the account. */
  ghost predicate CanEnter(n: Numbers, start: seq<Account>, form: Form, a: Account) {
    exists w, u :: Reachable(n, start, w) && AllFrom(iset{form}, w) && u in w.uses && SignsIn(u, form, a)
  }

  ghost predicate SteadyAim(n: Numbers, start: seq<Account>, form: Form, phone: Number, aim: Aim) {
    && aim.SignIn? && Passes(n, start, form, phone)
    && MayFind(n, start, form.organization, form.username, aim.account)
  }

  ghost predicate SteadyStage(n: Numbers, start: seq<Account>, form: Form, phone: Number, s: Stage) {
    && s.req.form == form && !s.Checking? && (HasLock(s) ==> s.phone == phone)
    && (s.Finding? ==> Passes(n, start, form, phone))
    && (s.Reading? || s.Using? || s.Acting? ==> SteadyAim(n, start, form, phone, s.aim))
  }

  /** No account is added: every request is on its way to a sign-in, or has been turned away. */
  ghost predicate Steady(n: Numbers, start: seq<Account>, form: Form, phone: Number, w: World) {
    && w.accounts == start
    && (forall p | p in w.requests :: SteadyStage(n, start, form, phone, w.requests[p]))
    && (forall u | u in w.uses :: u.form == form && SteadyAim(n, start, form, phone, u.aim))
  }

  lemma SteadyMove(n: Numbers, start: seq<Account>, form: Form, phone: Number, w: World, p: nat, ok: bool, pick: nat)
    requires w.accounts == start && CanLock(n, form, phone) && IsLogin(n, start, form, phone)
    requires p in w.requests && !w.requests[p].Finished? && SteadyStage(n, start, form, phone, w.requests[p])
    ensures var w' := MoveRequest(n, w, p, ok, pick);
            p in w'.requests && SteadyStage(n, start, form, phone, w'.requests[p]) && w'.accounts == start
  {
  }

  lemma SteadyUse(n: Numbers, start: seq<Account>, form: Form, phone: Number, w: World, p: nat, ok: bool, pick: nat)
    requires p in w.requests && !w.requests[p].Finished? && SteadyStage(n, start, form, phone, w.requests[p])
    ensures forall u | u in MoveRequest(n, w, p, ok, pick).uses && u !in w.uses ::
              u.form == form && SteadyAim(n, start, form, phone, u.aim)
  {
  }

  lemma SteadyStep(n: Numbers, start: seq<Account>, form: Form, phone: Number, w: World, step: Step)
    requires Steady(n, start, form, phone, w) && CanLock(n, form, phone) && IsLogin(n, start, form, phone)
    requires Enabled(w, step) && AllFrom(iset{form}, Apply(n, w, step))
    ensures Steady(n, start, form, phone, Apply(n, w, step))
  {
    var w' := Apply(n, w, step);
    if step.Move? {
      SteadyMove(n, start, form, phone, w, step.pid, step.ok, step.pick);
      SteadyUse(n, start, form, phone, w, step.pid, step.ok, step.pick);
    }
    forall q | q in w'.requests && !((step.Move? || step.Start?) && step.pid == q)
      ensures SteadyStage(n, start, form, phone, w'.requests[q])
    {
      OthersStay(n, w, step, q);
    }
  }

  lemma {:induction false} RunSteady(n: Numbers, form: Form, phone: Number, run: seq<World>, i: nat)
    requires IsRun(n, run) && i < |run| && AllFrom(iset{form}, run[i])
    requires CanLock(n, form, phone) && IsLogin(n, run[0].accounts, form, phone)
    ensures Steady(n, run[0].accounts, form, phone, run[i])
  {
    if i > 0 {
      var step := StepOf(n, run, i - 1);
      SameForms(n, iset{form}, run[i - 1], step);
      RunSteady(n, form, phone, run, i - 1);
      SteadyStep(n, run[0].accounts, form, phone, run[i - 1], step);
    }
  }

  /** A request with the form gets as far as looking for its account by fields. */
  lemma ReachFinding(n: Numbers, start: seq<Account>, form: Form, phone: Number) returns (w: World)
    requires CanLock(n, form, phone) && IsLogin(n, start, form, phone) && Passes(n, start, form, phone)
    ensures Reachable(n, start, w) && w.accounts == start && w.uses == []
    ensures w.requests == map[0 := Finding(Request(form, "", ""), phone)]
    ensures HasCode(w, form, phone)
  {
    w := ReachStart(n, start);
    w := ReachSent(n, start, w, form, phone, 0);
    w := Reach(n, start, w, Start(0, Request(form, "", "")));
    w := Reach(n, start, w, Move(0, true, 0));
    w := Reach(n, start, w, Move(0, true, 0));
  }

  lemma ReachPicked(n: Numbers, start: seq<Account>, form: Form, phone: Number, a: Account) returns (w: World)
    requires CanLock(n, form, phone) && IsLogin(n, start, form, phone) && Passes(n, start, form, phone)
    requires MayFind(n, start, form.organization, form.username, a)
    ensures Reachable(n, start, w) && w.uses == [] && HasCode(w, form, phone)
    ensures w.requests == map[0 := Reading(Request(form, "", ""), phone, phone, SignIn(a, start))]
  {
    w := ReachFinding(n, start, form, phone);
    var pick :| 0 <= pick < |start| && start[pick] == a;
    w := Reach(n, start, w, Move(0, true, pick));
  }

  /** The code that lets a request in to an account was sent to the number that it locked. */
  lemma ReachSignIn(n: Numbers, start: seq<Account>, form: Form, phone: Number, a: Account) returns (w: World, u: Use)
    requires CanLock(n, form, phone) && IsLogin(n, start, form, phone) && Passes(n, start, form, phone)
    requires MayFind(n, start, form.organization, form.username, a)
    ensures Reachable(n, start, w) && AllFrom(iset{form}, w) && u in w.uses && SignsIn(u, form, a)
    ensures u.record.Some? && u.record.value < |w.records| && w.records[u.record.value].receiver == phone
  {
    w := ReachPicked(n, start, form, phone, a);
    w := ReachConsumed(n, start, w, 0);
    w := Reach(n, start, w, Move(0, true, 0));
    u := w.uses[0];
  }

  lemma FoundEnters(n: Numbers, start: seq<Account>, form: Form, phone: Number, a: Account)
    requires CanLock(n, form, phone) && IsLogin(n, start, form, phone) && Passes(n, start, form, phone)
    requires MayFind(n, start, form.organization, form.username, a)
    ensures CanEnter(n, start, form, a)
  {
    var w, u := ReachSignIn(n, start, form, phone, a);
  }

  lemma UserIsFound(n: Numbers, form: Form, phone: Number, run: seq<World>, u: Use, a: Account)
    requires IsRun(n, run) && CanLock(n, form, phone) && IsLogin(n, run[0].accounts, form, phone)
    requires AllFrom(iset{form}, run[|run| - 1]) && u in run[|run| - 1].uses && SignsIn(u, form, a)
    ensures Passes(n, run[0].accounts, form, phone) && MayFind(n, run[0].accounts, form.organization, form.username, a)
  {
    RunSteady(n, form, phone, run, |run| - 1);
    assert SteadyAim(n, run[0].accounts, form, phone, u.aim);
  }

  lemma EnteredIsFound(n: Numbers, start: seq<Account>, form: Form, phone: Number, a: Account)
    requires CanLock(n, form, phone) && IsLogin(n, start, form, phone) && CanEnter(n, start, form, a)
    ensures Passes(n, start, form, phone) && MayFind(n, start, form.organization, form.username, a)
  {
    var w, u :| Reachable(n, start, w) && AllFrom(iset{form}, w) && u in w.uses && SignsIn(u, form, a);
    var run: seq<World> :| IsRun(n, run) && run[0].accounts == start && run[|run| - 1] == w;
    UserIsFound(n, form, phone, run, u, a);
  }

  /**
    The accounts that requests with a form can sign in to are exactly those that the look-up by its text may
    give, if the number passes the check; otherwise there are none.
   */
  lemma EntersIffFound(n: Numbers, start: seq<Account>, form: Form, phone: Number, a: Account)
    requires CanLock(n, form, phone) && IsLogin(n, start, form, phone)
    ensures CanEnter(n, start, form, a)
            <==> Passes(n, start, form, phone) && MayFind(n, start, form.organization, form.username, a)
  {
    if CanEnter(n, start, form, a) {
      EnteredIsFound(n, start, form, phone, a);
    } else if Passes(n, start, form, phone) && MayFind(n, start, form.organization, form.username, a) {
      FoundEnters(n, start, form, phone, a);
    }
  }

  // ---------- The owner of the number ----------

  /** What was typed in is looked up as the phone that the account of the number is stored with. */
  predicate PlainText(n: Numbers, text: string, phone: Number) {
    Wanted(n, ByPhone, text) == n.national(phone)
  }

  /** The account's name is what was typed in. */
  predicate Named(n: Numbers, organization: string, text: string, a: Account) {
    Matches(a, organization, ByName, Wanted(n, ByName, text))
  }

  /** The number itself is such a text, and so is its national part. */
  lemma NumbersArePlain(n: Numbers, text: string, phone: Number)
    requires n.trimmed(text) == text && (text == phone || (text == n.national(phone) && text[0] != '+'))
    ensures PlainText(n, text, phone)
  {
  }

  /**
    Accounts that are named like the text have the number; if there are none, it is a number of the country of
    every account that is stored with its national part.
   */
  ghost predicate Unambiguous(n: Numbers, accounts: seq<Account>, organization: string, text: string, phone: Number) {
    if exists a :: a in accounts && Named(n, organization, text, a)
    then forall a | a in accounts && Named(n, organization, text, a) :: NumberOf(n, a) == Some(phone)
    else forall a | a in accounts && a.owner == organization && a.phone == n.national(phone) :: InRegion(n, phone, a.countryCode)
  }

  lemma FoundByNameOrPhone(n: Numbers, accounts: seq<Account>, organization: string, text: string, phone: Number, a: Account)
    requires HasAccount(n, accounts, organization, phone) && PlainText(n, text, phone)
    ensures MayFind(n, accounts, organization, text, a)
            <==> a in accounts && if exists b :: b in accounts && Named(n, organization, text, b) then Named(n, organization, text, a)
                                  else a.owner == organization && a.phone == n.national(phone)
  {
    var owner :| owner in accounts && owner.owner == organization && owner.phone == n.national(phone);
    assert Matches(owner, organization, ByPhone, Wanted(n, ByPhone, text));
    if field :| FoundBy(n, accounts, organization, text, field, a) {
      assert field in {ByName, ByPhone} || ByPhone in Before(field);
      assert field == ByName || ByName in Before(field);
    }
    if a in accounts && Named(n, organization, text, a) {
      assert FoundBy(n, accounts, organization, text, ByName, a);
    } else if a in accounts && a.owner == organization && a.phone == n.national(phone)
           && forall b | b in accounts :: !Named(n, organization, text, b) {
      assert FoundBy(n, accounts, organization, text, ByPhone, a);
    }
  }

  /** Whatever the database gives for the text has the number if and only if the text is unambiguous. */
  lemma FoundOwnIffUnambiguous(n: Numbers, accounts: seq<Account>, organization: string, text: string, phone: Number)
    requires HasAccount(n, accounts, organization, phone) && PlainText(n, text, phone)
    ensures (forall a | MayFind(n, accounts, organization, text, a) :: NumberOf(n, a) == Some(phone))
            <==> Unambiguous(n, accounts, organization, text, phone)
  {
    forall a
      ensures MayFind(n, accounts, organization, text, a)
              <==> a in accounts && if exists b :: b in accounts && Named(n, organization, text, b) then Named(n, organization, text, a)
                                    else a.owner == organization && a.phone == n.national(phone)
    {
      FoundByNameOrPhone(n, accounts, organization, text, phone, a);
    }
  }

  /**
    All accounts that requests with a form can sign in to have the number that was locked, checked and sent
    the code, if and only if the text is unambiguous.
   */
  lemma OwnersEnterIffUnambiguous(n: Numbers, start: seq<Account>, form: Form, phone: Number)
    requires CanLock(n, form, phone) && PlainText(n, form.username, phone)
    requires HasAccount(n, start, form.organization, phone) && InRegion(n, phone, form.countryCode)
    ensures (forall a | CanEnter(n, start, form, a) :: NumberOf(n, a) == Some(phone))
            <==> Unambiguous(n, start, form.organization, form.username, phone)
  {
    forall a
      ensures CanEnter(n, start, form, a) <==> MayFind(n, start, form.organization, form.username, a)
    {
      EntersIffFound(n, start, form, phone, a);
    }
    FoundOwnIffUnambiguous(n, start, form.organization, form.username, phone);
  }

  /**
    Typed in as it is, with its plus sign, the number of an account lets in that account, and none that is not
    stored with that number, unless somebody is named like it.
   */
  lemma NumberEnters(n: Numbers, start: seq<Account>, form: Form, phone: Number, a: Account)
    requires CanLock(n, form, phone) && form.username == phone && n.trimmed(phone) == phone && form.organization != ""
    requires InRegion(n, phone, form.countryCode)
    requires forall b | b in start && b.owner == form.organization :: b.name != phone
    requires exists b :: b in start && b.owner == form.organization && b.phone == n.national(phone)
    ensures CanEnter(n, start, form, a) <==> a in start && a.owner == form.organization && a.phone == n.national(phone)
  {
    EntersIffFound(n, start, form, phone, a);
    FoundByPhone(n, start, form.organization, phone);
    assert exists b :: b in start && form.organization in {"", b.owner} && IsPhoneOf(n, phone, b.phone);
  }

  /** Somebody has the number, which was typed in as it is stored, and the text is unambiguous. */
  ghost predicate IsClear(n: Numbers, accounts: seq<Account>, organization: string, text: string, phone: Number) {
    && HasAccount(n, accounts, organization, phone) && PlainText(n, text, phone)
    && Unambiguous(n, accounts, organization, text, phone)
  }

  /**
    In every run, whatever forms are let in: each sign-in is to an account that the look-up gave among the accounts
    of that time, after the number was locked and let pass; if the text was unambiguous then, it has that number.
   */
  lemma SignInsOfRuns(n: Numbers, run: seq<World>, i: nat, k: nat)
    requires IsRun(n, run) && i < |run| && k < |run[i].uses| && run[i].uses[k].aim.SignIn?
    ensures var u, organization, text := run[i].uses[k], run[i].uses[k].form.organization, run[i].uses[k].form.username;
            && u.aim.seen <= run[i].accounts && LockOf(n, u.form) == Some(u.phone) && Admitted(n, u.aim.seen, u.form, u.phone)
            && MayFind(n, u.aim.seen, organization, text, u.aim.account)
    ensures var u, organization, text := run[i].uses[k], run[i].uses[k].form.organization, run[i].uses[k].form.username;
            IsClear(n, u.aim.seen, organization, text, u.phone) ==> NumberOf(n, u.aim.account) == Some(u.phone)
  {
    RunFacts(n, run, i);
    var u := run[i].uses[k];
    assert UseFacts(n, run[i], u);
    if IsClear(n, u.aim.seen, u.form.organization, u.form.username, u.phone) {
      FoundOwnIffUnambiguous(n, u.aim.seen, u.form.organization, u.form.username, u.phone);
    }
  }

  /** A text that is looked up as another phone never leads, by phone, to a stored account of the number. */
  lemma OtherTextMisses(n: Numbers, accounts: seq<Account>, form: Form, phone: Number, a: Account)
    requires !PlainText(n, form.username, phone) && IsStored(n, a)
    requires FoundBy(n, accounts, form.organization, form.username, ByPhone, a)
    ensures NumberOf(n, a) != Some(phone)
  {
  }

  /**
    Where nobody has the number, and accounts are stored by national part, a login that signs nobody up ends in
    no account of another number if and only if the look-up by its text finds nobody.
   */
  lemma NobodysNumber(n: Numbers, start: seq<Account>, form: Form, phone: Number)
    requires CanLock(n, form, phone) && !form.signup && form.organization != ""
    requires !HasAccount(n, start, form.organization, phone) && forall a | a in start :: IsStored(n, a)
    ensures (forall a | CanEnter(n, start, form, a) :: NumberOf(n, a) == Some(phone))
            <==> forall a :: !MayFind(n, start, form.organization, form.username, a)
  {
    forall a
      ensures CanEnter(n, start, form, a) <==> MayFind(n, start, form.organization, form.username, a)
      ensures MayFind(n, start, form.organization, form.username, a) ==> NumberOf(n, a) != Some(phone)
    {
      EntersIffFound(n, start, form, phone, a);
      if MayFind(n, start, form.organization, form.username, a) {
        assert IsStored(n, a) && a.owner == form.organization;
      }
    }
  }

  /** So it is when no name begins like a number, as sign-up demands of names, and the organization has one country. */
  lemma OneCountryIsUnambiguous(n: Numbers, accounts: seq<Account>, form: Form, phone: Number)
    requires InRegion(n, phone, form.countryCode)
    requires var typed := n.trimmed(form.username); typed != "" && (typed[0] == '+' || '0' <= typed[0] <= '9')
    requires forall a | a in accounts && OfOrganization(a, form.organization) ::
               (a.name != "" ==> a.name[0] != '+' && !('0' <= a.name[0] <= '9')) && a.countryCode == form.countryCode
    ensures Unambiguous(n, accounts, form.organization, form.username, phone)
  {
  }

  // ---------- Inputs that end in somebody else's account ----------

  /** Two numbers of one country. */
  function OneCountry(): Numbers {
    Numbers((phone: string, countryCode: string) =>
              if countryCode != "CN" then None
              else if phone == "13800138000" then Some("+8613800138000")
              else if phone == "13900139000" then Some("+8613900139000") else None,
            (phone: Number) => if |phone| > 3 then phone[3..] else phone,
            (text: string) => text)
  }

  function LoginForm(username: string, countryCode: string): Form {
    Form(false, "org", username, countryCode, "123456", None, "", false, true, true, false)
  }

  /** Bob's name is Alice's number: a code that was sent to Alice's number signs in to Bob's account. */
  lemma NamedLikeNumber() returns (w: World, u: Use)
    ensures var alice, bob := Account("org", "alice", "13800138000", "CN", "1", ""), Account("org", "13800138000", "13900139000", "CN", "2", "");
            && Reachable(OneCountry(), [alice, bob], w) && u in w.uses && u.aim.SignIn? && u.aim.account == bob
            && u.record.Some? && u.record.value < |w.records|
            && NumberOf(OneCountry(), alice) == Some(w.records[u.record.value].receiver)
            && NumberOf(OneCountry(), bob) == Some("+8613900139000") != NumberOf(OneCountry(), alice)
  {
    var n, form, phone := OneCountry(), LoginForm("13800138000", "CN"), "+8613800138000";
    var alice, bob := Account("org", "alice", "13800138000", "CN", "1", ""), Account("org", "13800138000", "13900139000", "CN", "2", "");
    assert phone[3..] == "13800138000" && "13800138000"[2] != "13900139000"[2];
    assert NumberOf(n, bob) == Some("+8613900139000") && "+8613900139000"[5] != phone[5];
    assert alice in [alice, bob] && bob in [alice, bob] && HasAccount(n, [alice, bob], "org", phone);
    assert FoundBy(n, [alice, bob], "org", form.username, ByName, bob);
    w, u := ReachSignIn(n, [alice, bob], form, phone, bob);
  }

  /** An American account is signed in to with a Chinese number of the same national part, and a code sent to that one. */
  lemma OtherCountrysAccount() returns (w: World, u: Use)
    ensures var a := Account("org", "alice", "2025550123", "US", "1", "");
            && Reachable(TwoCountries(), [a], w) && u in w.uses && u.aim.SignIn? && u.aim.account == a
            && u.record.Some? && u.record.value < |w.records|
            && w.records[u.record.value].receiver == "+862025550123" && NumberOf(TwoCountries(), a) == Some("+12025550123")
  {
    var n, form, phone := TwoCountries(), LoginForm("2025550123", "CN"), "+862025550123";
    var a := Account("org", "alice", "2025550123", "US", "1", "");
    assert form.username[0] != '+' && form.username != "+12025550123";
    assert a in [a] && HasAccount(n, [a], "org", phone);
    assert a.name[0] != form.username[0];
    assert FoundBy(n, [a], "org", form.username, ByPhone, a);
    w, u := ReachSignIn(n, [a], form, phone, a);
  }
}
