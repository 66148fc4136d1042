/**
  Exactly which forms may be let in together so that no two accounts of an organization ever have the
  same phone number, from any accounts at the start and for any phone number library.
 */
module PhoneAccounts {
  import opened PhoneSignin
  import opened UserLookup
  import opened Wrappers

  ghost predicate Unique(n: Numbers, accounts: seq<Account>) {
    forall i, j | 0 <= i < j < |accounts| && accounts[i].owner == accounts[j].owner ::
      NumberOf(n, accounts[i]) == None || NumberOf(n, accounts[i]) != NumberOf(n, accounts[j])
  }

  /** What a form that may sign up would do: lock a number, and store a phone that is a number. */
  datatype Plan = Plan(lock: Number, phone: National, number: Number)

  function PlanOf(n: Numbers, form: Form): Option<Plan> {
    if !form.MaySignUp() || form.username == "" || (form.NeedsCode() && form.code == "")
       || (!form.older && form.countryCode == "") then None
    else match LockOf(n, form)
      case None => None
      case Some(lock) =>
        match StoredPhone(n, form, lock)
        case None => None
        case Some(phone) =>
          match n.e164(phone, form.countryCode)
          case None => None
          case Some(number) => Some(Plan(lock, phone, number))
  }

  /** The look-up of phone sign-in, or the check for sign-ups if it is made, finds an account with this phone. */
  predicate Notices(n: Numbers, form: Form, plan: Plan, phone: string) {
    (!form.older && phone == n.national(plan.lock)) || (form.checksPhone && phone == plan.phone)
  }

  predicate ChosenName(form: Form, name: string) {
    form.name == Some(name)
  }

  /** The account stands in the way of a sign-up: it is noticed, or has the name that the form chooses. */
  predicate Blocks(n: Numbers, a: Account, form: Form, plan: Plan) {
    a.owner == form.organization && (Notices(n, form, plan, a.phone) || ChosenName(form, a.name))
  }

  /** Nothing that is there at the start stands in the way. */
  ghost predicate Open(n: Numbers, accounts: seq<Account>, form: Form) {
    PlanOf(n, form).Some? && forall a | a in accounts :: !Blocks(n, a, form, PlanOf(n, form).value)
  }

  /** No account of the organization has the number that the form signs up for. */
  ghost predicate Unclaimed(n: Numbers, accounts: seq<Account>, form: Form)
    requires PlanOf(n, form).Some?
  {
    forall a | a in accounts && a.owner == form.organization :: NumberOf(n, a) != Some(PlanOf(n, form).value.number)
  }

  /**
    If both sign up for one number, they choose the same name, or lock the same number, each noticing the
    account of the other.
   */
  predicate Compatible(n: Numbers, f: Form, g: Form)
    requires PlanOf(n, f).Some? && PlanOf(n, g).Some?
  {
    var p, q := PlanOf(n, f).value, PlanOf(n, g).value;
    f.organization == g.organization && p.number == q.number ==>
      || (f.name.Some? && f.name == g.name)
      || (p.lock == q.lock && Notices(n, f, p, q.phone) && Notices(n, g, q, p.phone))
  }

  /** The forms of a set get along, from these accounts on. */
  ghost predicate GetAlong(n: Numbers, accounts: seq<Account>, forms: iset<Form>) {
    && Unique(n, accounts)
    && (forall f | f in forms && Open(n, accounts, f) :: Unclaimed(n, accounts, f))
    && (forall f, g | f in forms && g in forms && Open(n, accounts, f) && Open(n, accounts, g) :: Compatible(n, f, g))
  }

  ghost predicate AllFrom(forms: iset<Form>, w: World) {
    forall p | p in w.requests :: w.requests[p].req.form in forms
  }

  // ---------- Forms that get along never lead to two accounts ----------

  /** An account that was added is that of some form of the set. */
  ghost predicate MadeBy(n: Numbers, start: seq<Account>, form: Form, a: Account) {
    && Open(n, start, form) && a.owner == form.organization && a.phone == PlanOf(n, form).value.phone
    && NumberOf(n, a) == Some(PlanOf(n, form).value.number) && (form.name.Some? ==> a.name == form.name.value)
  }

  ghost predicate AccountOk(n: Numbers, start: seq<Account>, forms: iset<Form>, a: Account) {
    a in start || NumberOf(n, a) == None || exists form :: form in forms && MadeBy(n, start, form, a)
  }

  ghost predicate AccountsOk(n: Numbers, start: seq<Account>, forms: iset<Form>, accounts: seq<Account>) {
    start <= accounts && Unique(n, accounts) && forall a | a in accounts :: AccountOk(n, start, forms, a)
  }

  /** The account has the number that the form signs up for, and not the name that the form chooses. */
  predicate Rival(n: Numbers, form: Form, plan: Plan, a: Account) {
    a.owner == form.organization && NumberOf(n, a) == Some(plan.number) && !ChosenName(form, a.name)
  }

  /** What the look-up of phone sign-in has seen, and what stays true of it while the lock is held. */
  ghost predicate LookUpOk(n: Numbers, start: seq<Account>, accounts: seq<Account>, form: Form, plan: Plan) {
    && (forall a | a in start && a.owner == form.organization :: a.phone != n.national(plan.lock))
    && (Open(n, start, form) ==> forall a | a in accounts && Rival(n, form, plan, a) :: a.phone != n.national(plan.lock))
  }

  /** What a request that is about to add an account may rely on. */
  ghost predicate AddOk(n: Numbers, start: seq<Account>, accounts: seq<Account>, form: Form, plan: Plan) {
    && (forall a | a in start && a.owner == form.organization :: !Notices(n, form, plan, a.phone))
    && (Open(n, start, form) ==> forall a | a in accounts :: !Rival(n, form, plan, a))
  }

  predicate IsAdding(s: Stage) {
    (s.Reading? || s.Using? || s.Acting?) && s.aim.Add?
  }

  ghost predicate StageOk(n: Numbers, start: seq<Account>, accounts: seq<Account>, s: Stage) {
    var form := s.req.form;
    && (HasLock(s) ==> LockOf(n, form) == Some(s.phone))
    && (form.username != "" && (form.older || form.countryCode != ""))
    && (s.Checking? && !form.older && PlanOf(n, form).Some? ==> LookUpOk(n, start, accounts, form, PlanOf(n, form).value))
    && (IsAdding(s) && NumberOf(n, s.aim.account).Some? ==> IsPlanned(n, start, accounts, s))
  }

  /** The account is the one of the form's plan, as far as there is a code to be consumed for it. */
  ghost predicate IsPlanned(n: Numbers, start: seq<Account>, accounts: seq<Account>, s: Stage)
    requires IsAdding(s)
  {
    var form, a := s.req.form, s.aim.account;
    && a.owner == form.organization && (form.name.Some? ==> a.name == form.name.value)
    && (form.NeedsCode() && form.code == "" ==> s.Reading?)
    && (PlanOf(n, form).Some? ==>
          && a.phone == PlanOf(n, form).value.phone && NumberOf(n, a) == Some(PlanOf(n, form).value.number)
          && AddOk(n, start, accounts, form, PlanOf(n, form).value))
    && (PlanOf(n, form) == None ==> form.NeedsCode() && form.code == "")
  }

  ghost predicate Inv(n: Numbers, start: seq<Account>, forms: iset<Form>, w: World) {
    && LockOk(w) && AccountsOk(n, start, forms, w.accounts)
    && forall p | p in w.requests :: StageOk(n, start, w.accounts, w.requests[p])
  }

  /** A sign-up passes its checks: no rival is left, since every one would have been noticed. */
  lemma NoRival(n: Numbers, start: seq<Account>, forms: iset<Form>, accounts: seq<Account>, form: Form)
    requires GetAlong(n, start, forms) && AccountsOk(n, start, forms, accounts) && form in forms && PlanOf(n, form).Some?
    requires !form.older ==> LookUpOk(n, start, accounts, form, PlanOf(n, form).value)
    requires form.checksPhone ==> !HasPhone(accounts, form.organization, PlanOf(n, form).value.phone)
    ensures AddOk(n, start, accounts, form, PlanOf(n, form).value)
  {
    var plan := PlanOf(n, form).value;
    forall a | a in start && a.owner == form.organization
      ensures !Notices(n, form, plan, a.phone)
    {
      assert a in accounts;
    }
    if Open(n, start, form) {
      forall a | a in accounts
        ensures !Rival(n, form, plan, a)
      {
        if Rival(n, form, plan, a) {
          RivalIsNoticed(n, start, forms, form, a);
        }
      }
    }
  }

  lemma RivalIsNoticed(n: Numbers, start: seq<Account>, forms: iset<Form>, form: Form, a: Account)
    requires GetAlong(n, start, forms) && form in forms && Open(n, start, form) && AccountOk(n, start, forms, a)
    requires Rival(n, form, PlanOf(n, form).value, a)
    ensures Notices(n, form, PlanOf(n, form).value, a.phone)
  {
    assert Unclaimed(n, start, form);
    var g :| g in forms && MadeBy(n, start, g, a);
    assert Compatible(n, form, g);
  }

  /** Two requests whose forms get along do not both hold their locks, or choose the same name. */
  lemma AddedIsNoRival(n: Numbers, start: seq<Account>, forms: iset<Form>, w: World, p: nat, q: nat, form: Form, a: Account)
    requires GetAlong(n, start, forms) && LockOk(w) && p in w.requests && q in w.requests && p != q
    requires HasLock(w.requests[p]) && HasLock(w.requests[q])
    requires w.requests[q].req.form == form && form in forms && Open(n, start, form)
    requires LockOf(n, form) == Some(w.requests[q].phone)
    requires var g := w.requests[p].req.form; g in forms && LockOf(n, g) == Some(w.requests[p].phone) && MadeBy(n, start, g, a)
    ensures !Rival(n, form, PlanOf(n, form).value, a)
  {
    var g := w.requests[p].req.form;
    assert Compatible(n, form, g);
    assert Holds(w.requests[p], w.requests[p].phone) && Holds(w.requests[q], w.requests[q].phone);
    assert w.held[w.requests[p].phone] == p && w.held[w.requests[q].phone] == q;
  }

  /** A request that adds an account of a number: its plan is open, and no account has its number. */
  lemma AdderIsAlone(n: Numbers, start: seq<Account>, forms: iset<Form>, w: World, p: nat)
    requires Inv(n, start, forms, w) && p in w.requests && w.requests[p].Acting? && w.requests[p].aim.Add?
    requires var a := w.requests[p].aim.account; NumberOf(n, a).Some? && !HasName(w.accounts, a.owner, a.name)
    ensures var s := w.requests[p]; MadeBy(n, start, s.req.form, s.aim.account)
    ensures var a := w.requests[p].aim.account; forall b | b in w.accounts && b.owner == a.owner :: NumberOf(n, b) != NumberOf(n, a)
  {
    var s := w.requests[p];
    var form, a := s.req.form, s.aim.account;
    assert StageOk(n, start, w.accounts, s) && IsPlanned(n, start, w.accounts, s);
    var plan := PlanOf(n, form).value;
    forall b | b in start && b.owner == form.organization
      ensures !ChosenName(form, b.name)
    {
      assert b in w.accounts;
    }
    forall b | b in w.accounts && b.owner == a.owner
      ensures NumberOf(n, b) != NumberOf(n, a)
    {
      assert !Rival(n, form, plan, b);
    }
  }

  lemma AddedOk(n: Numbers, start: seq<Account>, forms: iset<Form>, w: World, p: nat)
    requires Inv(n, start, forms, w) && AllFrom(forms, w) && p in w.requests && w.requests[p].Acting? && w.requests[p].aim.Add?
    requires var a := w.requests[p].aim.account; !HasName(w.accounts, a.owner, a.name)
    ensures AccountsOk(n, start, forms, w.accounts + [w.requests[p].aim.account])
  {
    var a := w.requests[p].aim.account;
    if NumberOf(n, a).Some? {
      AdderIsAlone(n, start, forms, w, p);
      assert w.requests[p].req.form in forms;
    }
    assert AccountOk(n, start, forms, a);
    assert forall i | 0 <= i < |w.accounts| :: w.accounts[i] in w.accounts;
  }

  /** What another request knows stays true when an account is added. */
  lemma AddedKeepsStage(n: Numbers, start: seq<Account>, forms: iset<Form>, w: World, p: nat, q: nat)
    requires GetAlong(n, start, forms) && Inv(n, start, forms, w) && AllFrom(forms, w)
    requires p in w.requests && w.requests[p].Acting? && w.requests[p].aim.Add? && q in w.requests && q != p
    requires var a := w.requests[p].aim.account; !HasName(w.accounts, a.owner, a.name)
    ensures StageOk(n, start, w.accounts + [w.requests[p].aim.account], w.requests[q])
  {
    var s, form, a := w.requests[q], w.requests[q].req.form, w.requests[p].aim.account;
    assert StageOk(n, start, w.accounts, s) && StageOk(n, start, w.accounts, w.requests[p]);
    if PlanOf(n, form).Some? && HasLock(s) {
      if Open(n, start, form) && NumberOf(n, a).Some? {
        AdderIsAlone(n, start, forms, w, p);
        AddedIsNoRival(n, start, forms, w, p, q, form, a);
      }
    }
  }

  lemma LookedUpOk(n: Numbers, start: seq<Account>, w: World, req: Request, phone: Number, ok: bool)
    requires start <= w.accounts && StageOk(n, start, w.accounts, LookingUp(req, phone))
    ensures StageOk(n, start, w.accounts, LookedUp(n, w, req, phone, ok))
  {
    assert forall a | a in start :: a in w.accounts;
  }

  lemma CheckedOk(n: Numbers, start: seq<Account>, forms: iset<Form>, w: World, req: Request, phone: Number, ok: bool)
    requires GetAlong(n, start, forms) && AccountsOk(n, start, forms, w.accounts) && req.form in forms
    requires StageOk(n, start, w.accounts, Checking(req, phone))
    ensures StageOk(n, start, w.accounts, Checked(n, w, req, phone, ok))
  {
    var s := Checked(n, w, req, phone, ok);
    if IsAdding(s) && PlanOf(n, req.form).Some? {
      NoRival(n, start, forms, w.accounts, req.form);
    }
  }

  lemma ReadOk(n: Numbers, start: seq<Account>, w: World, s: Stage, ok: bool)
    requires StageOk(n, start, w.accounts, s) && s.Reading?
    ensures StageOk(n, start, w.accounts, Read(w, s, ok))
  {
  }

  /** Only a request that is about to add an account does so. */
  lemma WhoAdds(n: Numbers, w: World, step: Step)
    requires Enabled(w, step)
    ensures Apply(n, w, step).accounts == w.accounts
            || (&& step.Move? && w.requests[step.pid].Acting? && w.requests[step.pid].aim.Add?
                && var a := w.requests[step.pid].aim.account;
                   !HasName(w.accounts, a.owner, a.name) && Apply(n, w, step).accounts == w.accounts + [a])
  {
  }

  lemma LockingOk(n: Numbers, start: seq<Account>, w: World, p: nat, ok: bool)
    requires p in w.requests && w.requests[p].Locking? && StageOk(n, start, w.accounts, w.requests[p])
    ensures var w' := Locked(n, w, p, w.requests[p].req, ok); p in w'.requests && StageOk(n, start, w'.accounts, w'.requests[p])
  {
  }

  lemma UsingOk(n: Numbers, start: seq<Account>, w: World, p: nat, ok: bool)
    requires p in w.requests && w.requests[p].Using? && StageOk(n, start, w.accounts, w.requests[p])
    ensures var w' := Used(w, p, w.requests[p], ok); p in w'.requests && StageOk(n, start, w'.accounts, w'.requests[p])
  {
  }

  lemma ActingOk(n: Numbers, start: seq<Account>, w: World, p: nat, ok: bool)
    requires p in w.requests && w.requests[p].Acting? && StageOk(n, start, w.accounts, w.requests[p])
    ensures var w' := Acted(w, p, w.requests[p], ok); p in w'.requests && StageOk(n, start, w'.accounts, w'.requests[p])
  {
  }

  /** The request that moves keeps its knowledge, or gains what it relies on next. */
  lemma MovedOk(n: Numbers, start: seq<Account>, forms: iset<Form>, w: World, p: nat, ok: bool, pick: nat)
    requires GetAlong(n, start, forms) && Inv(n, start, forms, w) && AllFrom(forms, w) && Enabled(w, Move(p, ok, pick))
    ensures var w' := MoveRequest(n, w, p, ok, pick); p in w'.requests && StageOk(n, start, w'.accounts, w'.requests[p])
  {
    var s := w.requests[p];
    assert StageOk(n, start, w.accounts, s) && s.req.form in forms;
    if s.Locking? {
      LockingOk(n, start, w, p, ok);
    } else if s.LookingUp? {
      LookedUpOk(n, start, w, s.req, s.phone, ok);
    } else if s.Checking? {
      CheckedOk(n, start, forms, w, s.req, s.phone, ok);
    } else if s.Reading? {
      ReadOk(n, start, w, s, ok);
    } else if s.Using? {
      UsingOk(n, start, w, p, ok);
    } else if s.Acting? {
      ActingOk(n, start, w, p, ok);
    }
  }

  lemma OthersOk(n: Numbers, start: seq<Account>, forms: iset<Form>, w: World, step: Step, q: nat)
    requires GetAlong(n, start, forms) && Inv(n, start, forms, w) && AllFrom(forms, w) && Enabled(w, step)
    requires q in Apply(n, w, step).requests && !((step.Move? || step.Start?) && step.pid == q)
    ensures StageOk(n, start, Apply(n, w, step).accounts, Apply(n, w, step).requests[q])
  {
    OthersStay(n, w, step, q);
    WhoAdds(n, w, step);
    if Apply(n, w, step).accounts != w.accounts {
      AddedKeepsStage(n, start, forms, w, step.pid, q);
    }
  }

  lemma StepAccounts(n: Numbers, start: seq<Account>, forms: iset<Form>, w: World, step: Step)
    requires Inv(n, start, forms, w) && AllFrom(forms, w) && Enabled(w, step)
    ensures AccountsOk(n, start, forms, Apply(n, w, step).accounts)
  {
    WhoAdds(n, w, step);
    if Apply(n, w, step).accounts != w.accounts {
      AddedOk(n, start, forms, w, step.pid);
    }
  }

  /** Every step of requests whose forms get along keeps the accounts unique, and what each request relies on. */
  lemma StepInv(n: Numbers, start: seq<Account>, forms: iset<Form>, w: World, step: Step)
    requires GetAlong(n, start, forms) && Inv(n, start, forms, w) && AllFrom(forms, w) && Enabled(w, step)
    ensures Inv(n, start, forms, Apply(n, w, step))
  {
    var w' := Apply(n, w, step);
    StepLock(n, w, step);
    StepAccounts(n, start, forms, w, step);
    forall q | q in w'.requests
      ensures StageOk(n, start, w'.accounts, w'.requests[q])
    {
      if step.Move? && step.pid == q {
        MovedOk(n, start, forms, w, q, step.ok, step.pick);
      } else if !(step.Start? && step.pid == q) {
        OthersOk(n, start, forms, w, step, q);
      }
    }
  }

  lemma MoverKeepsForm(n: Numbers, w: World, p: nat, ok: bool, pick: nat)
    requires p in w.requests
    ensures var w' := MoveRequest(n, w, p, ok, pick); p in w'.requests && w'.requests[p].req == w.requests[p].req
  {
  }

  lemma MoverIsAlone(n: Numbers, w: World, p: nat, ok: bool, pick: nat, q: nat)
    requires p in w.requests && q in w.requests && q != p
    ensures var w' := MoveRequest(n, w, p, ok, pick); q in w'.requests && w'.requests[q] == w.requests[q]
  {
  }

  lemma SameRequest(n: Numbers, w: World, step: Step, q: nat)
    requires Enabled(w, step) && q in w.requests
    ensures q in Apply(n, w, step).requests && Apply(n, w, step).requests[q].req == w.requests[q].req
  {
    if step.Move? {
      if step.pid == q {
        MoverKeepsForm(n, w, q, step.ok, step.pick);
      } else {
        MoverIsAlone(n, w, step.pid, step.ok, step.pick, q);
      }
    }
  }

  lemma SameForms(n: Numbers, forms: iset<Form>, w: World, step: Step)
    requires Enabled(w, step) && AllFrom(forms, Apply(n, w, step))
    ensures AllFrom(forms, w)
  {
    forall p | p in w.requests
      ensures w.requests[p].req.form in forms
    {
      SameRequest(n, w, step, p);
    }
  }

  lemma {:induction false} RunInv(n: Numbers, forms: iset<Form>, run: seq<World>, i: nat)
    requires IsRun(n, run) && i < |run| && GetAlong(n, run[0].accounts, forms) && AllFrom(forms, run[i])
    ensures Inv(n, run[0].accounts, forms, run[i])
  {
    if i > 0 {
      var step := StepOf(n, run, i - 1);
      SameForms(n, forms, run[i - 1], step);
      RunInv(n, forms, run, i - 1);
      StepInv(n, run[0].accounts, forms, run[i - 1], step);
    }
  }
}
