/**
  One-step phone sign-in: the lock of a phone number is held across looking up the account, consuming
  the code, and creating the account or signing in to it.  Steps of any number of requests interleave;
  the lock is tried, never waited for; every check that rests on data not modelled here may fail.
 */
module PhoneSignin {
  import opened Wrappers
  import opened UserLookup

  /** A code that was sent to a number for an organization. */
  datatype Record = Record(owner: string, receiver: Number, code: string, time: int, used: bool)

  /**
    What a client sends, past validation, and what the application makes of it: a form for phone sign-in,
    whose country has its default, or one of the older sign-up, whose phone number is `username` here.
    `name` is the name of a new account if the form chooses it; `checksPhone` tells whether sign-up looks
    for accounts of its number, and `checksCode` whether the older sign-up asks for a code.
   */
  datatype Form = Form(older: bool, organization: string, username: string, countryCode: string, code: string,
                       name: Option<string>, idCard: string, signup: bool, enableSignUp: bool,
                       checksPhone: bool, checksCode: bool)
  {
    predicate MaySignUp() {
      organization != "" && enableSignUp && (older || signup)
    }

    predicate NeedsCode() {
      !older || checksCode
    }
  }

  /** A form, with the name and the identifier that are generated for it. */
  datatype Request = Request(form: Form, generatedName: string, id: string)
  {
    function Name(): string {
      if form.name.Some? then form.name.value else generatedName
    }
  }

  /** What a code is consumed for: to add an account, or to sign in to one, found among `seen`. */
  datatype Aim = Add(account: Account) | SignIn(account: Account, seen: seq<Account>)

  /** Where a request stands. */
  datatype Stage =
    | Locking(req: Request)
    | LookingUp(req: Request, phone: Number)
    | Checking(req: Request, phone: Number)
    | Finding(req: Request, phone: Number)
    | Reading(req: Request, phone: Number, receiver: Number, aim: Aim)
    | Using(req: Request, phone: Number, index: nat, aim: Aim)
    | Acting(req: Request, phone: Number, record: Option<nat>, aim: Aim)
    | Unlocking(req: Request, phone: Number)
    | Finished(req: Request)

  /** An account was added or signed in to, by a request that locked `phone`, with the code of a record. */
  datatype Use = Use(form: Form, phone: Number, record: Option<nat>, aim: Aim)

  datatype World = World(held: map<Number, nat>, accounts: seq<Account>, uses: seq<Use>, records: seq<Record>,
                         requests: map<nat, Stage>, clock: int)
  {
    function Go(p: nat, stage: Stage): World {
      this.(requests := requests[p := stage])
    }
  }

  /**
    `ok` decides the checks, and the database and network calls, that this model leaves open; `pick` which
    account the database gives.  Sending a code is one step: it holds the lock of the number throughout.
   */
  datatype Step =
    | Start(pid: nat, req: Request)
    | Move(pid: nat, ok: bool, pick: nat)
    | Send(owner: string, receiver: Number, code: string)
    | Tick(seconds: nat)

  /** The seconds between two sends to a number, and the sends that a day allows. */
  const COOLDOWN := 60

  const DAY := 86400

  const SENDS_PER_DAY := 10

  /** The latest record of a number. */
  function Latest(records: seq<Record>, owner: string, receiver: Number): (i: Option<nat>)
    ensures i.Some? ==> i.value < |records| && records[i.value].owner == owner && records[i.value].receiver == receiver
  {
    if records == [] then None
    else
      var last := |records| - 1;
      if records[last].owner == owner && records[last].receiver == receiver then Some(last)
      else Latest(records[..last], owner, receiver)
  }

  function CountSince(records: seq<Record>, owner: string, receiver: Number, time: int): nat {
    if records == [] then 0
    else
      var last := records[|records| - 1];
      (if last.owner == owner && last.receiver == receiver && last.time > time then 1 else 0)
      + CountSince(records[..|records| - 1], owner, receiver, time)
  }

  predicate MaySend(w: World, owner: string, receiver: Number) {
    && receiver !in w.held && CountSince(w.records, owner, receiver, w.clock - DAY) < SENDS_PER_DAY
    && var i := Latest(w.records, owner, receiver);
       i.Some? && w.records[i.value].time > 0 ==> w.clock - w.records[i.value].time >= COOLDOWN
  }

  predicate Enabled(w: World, step: Step) {
    match step
    case Start(p, req) => p !in w.requests && req.form.username != "" && (req.form.older || req.form.countryCode != "")
    case Move(p, _, _) => p in w.requests && !w.requests[p].Finished?
    case Send(owner, receiver, code) => MaySend(w, owner, receiver) && code != ""
    case Tick(_) => true
  }

  /** HasUserByField finds an account: by organization and stored phone. */
  predicate HasPhone(accounts: seq<Account>, organization: string, phone: string) {
    phone != "" && exists a :: a in accounts && a.owner == organization && a.phone == phone
  }

  /** GetUserByPhone finds an account: by organization and national part, if there is one. */
  predicate HasAccount(n: Numbers, accounts: seq<Account>, organization: string, phone: Number) {
    organization != "" && HasPhone(accounts, organization, n.national(phone))
  }

  /** A number read again from its national part, in some country. */
  function Reread(n: Numbers, phone: Number, countryCode: string): Option<Number> {
    n.e164(n.national(phone), countryCode)
  }

  /** The check an existing account has to pass: the number is one of the country. */
  predicate InRegion(n: Numbers, phone: Number, countryCode: string) {
    Reread(n, phone, countryCode) == Some(phone)
  }

  /** The number that a form locks. */
  function LockOf(n: Numbers, form: Form): Option<Number> {
    n.e164(form.username, form.countryCode)
  }

  /**
    The phone of the account that a sign-up creates: the national part of the locked number, which phone
    sign-in has read once more before.
   */
  function StoredPhone(n: Numbers, form: Form, phone: Number): Option<National> {
    if form.older then Some(n.national(phone))
    else match Reread(n, phone, form.countryCode)
      case None => None
      case Some(again) => Some(n.national(again))
  }

  function NewAccount(n: Numbers, req: Request, phone: Number): Option<Account> {
    match StoredPhone(n, req.form, phone)
    case None => None
    case Some(stored) => Some(Account(req.form.organization, req.Name(), stored, req.form.countryCode, req.id, req.form.idCard))
  }

  function Locked(n: Numbers, w: World, p: nat, req: Request, ok: bool): World {
    var phone := LockOf(n, req.form);
    if phone == None || phone.value in w.held || !ok then w.Go(p, Finished(req))
    else
      w.Go(p, if req.form.older then Checking(req, phone.value) else LookingUp(req, phone.value)).(
      held := w.held[phone.value := p])
  }

  function LookedUp(n: Numbers, w: World, req: Request, phone: Number, ok: bool): Stage {
    if !ok then Unlocking(req, phone)
    else if HasAccount(n, w.accounts, req.form.organization, phone) then
      if InRegion(n, phone, req.form.countryCode) then Finding(req, phone) else Unlocking(req, phone)
    else if !req.form.signup then Finding(req, phone)
    else if !req.form.enableSignUp then Unlocking(req, phone)
    else Checking(req, phone)
  }

  function Checked(n: Numbers, w: World, req: Request, phone: Number, ok: bool): Stage {
    var account := NewAccount(n, req, phone);
    if account == None || !ok || !req.form.MaySignUp() then Unlocking(req, phone)
    else if req.form.checksPhone && HasPhone(w.accounts, req.form.organization, account.value.phone) then Unlocking(req, phone)
    else if !req.form.NeedsCode() then Acting(req, phone, None, Add(account.value))
    else if NumberOf(n, account.value) == None then Unlocking(req, phone)
    else Reading(req, phone, NumberOf(n, account.value).value, Add(account.value))
  }

  /** The account of a sign-in is looked up by what was typed in. */
  function Picked(n: Numbers, w: World, req: Request, phone: Number, ok: bool, pick: nat): Stage {
    if !ok || pick >= |w.accounts| then Unlocking(req, phone)
    else if MayFind(n, w.accounts, req.form.organization, req.form.username, w.accounts[pick])
    then Reading(req, phone, phone, SignIn(w.accounts[pick], w.accounts))
    else Unlocking(req, phone)
  }

  /** The latest record is read; only an unused one with the code of the form will do. */
  function Read(w: World, s: Stage, ok: bool): Stage
    requires s.Reading?
  {
    var i := Latest(w.records, s.req.form.organization, s.receiver);
    if i == None || w.records[i.value].used || s.req.form.code == "" || w.records[i.value].code != s.req.form.code || !ok
    then Unlocking(s.req, s.phone)
    else Using(s.req, s.phone, i.value, s.aim)
  }

  /** The record is marked as used, unless someone else has done so since. */
  function Used(w: World, p: nat, s: Stage, ok: bool): World
    requires s.Using?
  {
    if s.index >= |w.records| || w.records[s.index].used || !ok then w.Go(p, Unlocking(s.req, s.phone))
    else
      w.Go(p, Acting(s.req, s.phone, Some(s.index), s.aim)).(
      records := w.records[s.index := w.records[s.index].(used := true)])
  }

  /** An account is added, unless its name is taken, or signed in to. */
  function Acted(w: World, p: nat, s: Stage, ok: bool): World
    requires s.Acting?
  {
    var done := w.Go(p, Unlocking(s.req, s.phone));
    if !ok || (s.aim.Add? && HasName(w.accounts, s.aim.account.owner, s.aim.account.name)) then done
    else
      done.(uses := w.uses + [Use(s.req.form, s.phone, s.record, s.aim)],
      accounts := if s.aim.Add? then w.accounts + [s.aim.account] else w.accounts)
  }

  function MoveRequest(n: Numbers, w: World, p: nat, ok: bool, pick: nat): World
    requires p in w.requests
  {
    var s := w.requests[p];
    match s
    case Locking(req) => Locked(n, w, p, req, ok)
    case LookingUp(req, phone) => w.Go(p, LookedUp(n, w, req, phone, ok))
    case Checking(req, phone) => w.Go(p, Checked(n, w, req, phone, ok))
    case Finding(req, phone) => w.Go(p, Picked(n, w, req, phone, ok, pick))
    case Reading(_, _, _, _) => w.Go(p, Read(w, s, ok))
    case Using(_, _, _, _) => Used(w, p, s, ok)
    case Acting(_, _, _, _) => Acted(w, p, s, ok)
    case Unlocking(req, phone) => w.Go(p, Finished(req)).(held := w.held - {phone})
    case Finished(_) => w
  }

  function Apply(n: Numbers, w: World, step: Step): World
    requires Enabled(w, step)
  {
    match step
    case Start(p, req) => w.Go(p, Locking(req))
    case Move(p, ok, pick) => MoveRequest(n, w, p, ok, pick)
    case Send(owner, receiver, code) => w.(records := w.records + [Record(owner, receiver, code, w.clock, false)])
    case Tick(seconds) => w.(clock := w.clock + seconds)
  }

  /** At the start no request is on its way and nothing has been done; accounts and codes are whatever they are. */
  predicate Init(w: World) {
    w.held == map[] && w.requests == map[] && w.uses == []
  }

  ghost predicate Next(n: Numbers, w: World, w': World) {
    exists step :: Enabled(w, step) && w' == Apply(n, w, step)
  }

  ghost predicate IsRun(n: Numbers, run: seq<World>) {
    && |run| > 0 && Init(run[0])
    && forall i, j {:trigger Next(n, run[i], run[j])} | 0 <= i && j == i + 1 < |run| :: Next(n, run[i], run[j])
  }

  lemma StepOf(n: Numbers, run: seq<World>, i: nat) returns (step: Step)
    requires IsRun(n, run) && i + 1 < |run|
    ensures Enabled(run[i], step) && run[i + 1] == Apply(n, run[i], step)
  {
    var w, w' := run[i], run[i + 1];
    assert Next(n, w, w');
    step :| Enabled(w, step) && w' == Apply(n, w, step);
  }

  // ---------- Mutual exclusion ----------

  predicate HasLock(s: Stage) {
    !s.Locking? && !s.Finished?
  }

  /** The request holds the lock of `phone`. */
  predicate Holds(s: Stage, phone: Number) {
    HasLock(s) && s.phone == phone
  }

  ghost predicate HoldersLocked(w: World) {
    forall p, phone :: p in w.requests && Holds(w.requests[p], phone) ==> phone in w.held && w.held[phone] == p
  }

  ghost predicate LocksHeld(w: World) {
    forall phone :: phone in w.held ==> w.held[phone] in w.requests && Holds(w.requests[w.held[phone]], phone)
  }

  ghost predicate LockOk(w: World) {
    HoldersLocked(w) && LocksHeld(w)
  }

  /** A request that holds no lock takes a free one. */
  lemma TakingLock(w: World, w': World, p: nat, s: Stage)
    requires LockOk(w) && p in w.requests && !HasLock(w.requests[p])
    requires HasLock(s) && s.phone !in w.held
    requires w'.requests == w.requests[p := s] && w'.held == w.held[s.phone := p]
    ensures LockOk(w')
  {
    forall q, phone | q in w'.requests && Holds(w'.requests[q], phone)
      ensures phone in w'.held && w'.held[phone] == q
    {
      assert q != p ==> Holds(w.requests[q], phone);
    }
  }

  /** A request gives back the lock it holds. */
  lemma GivingLock(w: World, w': World, p: nat, s: Stage)
    requires LockOk(w) && p in w.requests && HasLock(w.requests[p]) && s.Finished?
    requires w'.requests == w.requests[p := s] && w'.held == w.held - {w.requests[p].phone}
    ensures LockOk(w')
  {
    forall q, phone | q in w'.requests && Holds(w'.requests[q], phone)
      ensures phone in w'.held && w'.held[phone] == q
    {
      assert q != p && Holds(w.requests[q], phone) && w.held[phone] == q;
      assert Holds(w.requests[p], w.requests[p].phone) && w.held[w.requests[p].phone] == p;
    }
  }

  /** A request goes on with the lock it holds, or without one. */
  lemma KeepingLock(w: World, w': World, p: nat, s: Stage)
    requires LockOk(w) && w'.requests == w.requests[p := s] && w'.held == w.held
    requires if p in w.requests && HasLock(w.requests[p]) then Holds(s, w.requests[p].phone) else !HasLock(s)
    ensures LockOk(w')
  {
    forall q, phone | q in w'.requests && Holds(w'.requests[q], phone)
      ensures phone in w'.held && w'.held[phone] == q
    {
      assert q in w.requests && Holds(w.requests[q], phone);
    }
    forall phone | phone in w'.held
      ensures w'.held[phone] in w'.requests && Holds(w'.requests[w'.held[phone]], phone)
    {
      assert Holds(w.requests[w.held[phone]], phone);
    }
  }

  lemma MoveLock(n: Numbers, w: World, p: nat, ok: bool, pick: nat)
    requires LockOk(w) && p in w.requests && !w.requests[p].Finished?
    ensures LockOk(MoveRequest(n, w, p, ok, pick))
  {
    var w' := MoveRequest(n, w, p, ok, pick);
    match w.requests[p]
    case Locking(_) =>
      if HasLock(w'.requests[p]) {
        TakingLock(w, w', p, w'.requests[p]);
      } else {
        KeepingLock(w, w', p, w'.requests[p]);
      }
    case LookingUp(_, _) => KeepingLock(w, w', p, w'.requests[p]);
    case Checking(_, _) => KeepingLock(w, w', p, w'.requests[p]);
    case Finding(_, _) => KeepingLock(w, w', p, w'.requests[p]);
    case Reading(_, _, _, _) => KeepingLock(w, w', p, w'.requests[p]);
    case Using(_, _, _, _) => KeepingLock(w, w', p, w'.requests[p]);
    case Acting(_, _, _, _) => KeepingLock(w, w', p, w'.requests[p]);
    case Unlocking(_, _) => GivingLock(w, w', p, w'.requests[p]);
  }

  lemma StepLock(n: Numbers, w: World, step: Step)
    requires LockOk(w) && Enabled(w, step)
    ensures LockOk(Apply(n, w, step))
  {
    match step
    case Move(p, ok, pick) => MoveLock(n, w, p, ok, pick);
    case Start(p, req) => KeepingLock(w, Apply(n, w, step), p, Locking(req));
    case Send(_, _, _) =>
    case Tick(_) =>
  }

  lemma {:induction false} RunLock(n: Numbers, run: seq<World>, i: nat)
    requires IsRun(n, run) && i < |run|
    ensures LockOk(run[i])
  {
    if i > 0 {
      RunLock(n, run, i - 1);
      var step := StepOf(n, run, i - 1);
      StepLock(n, run[i - 1], step);
    }
  }

  lemma OneHolder(w: World, p: nat, q: nat, phone: Number)
    requires LockOk(w) && p in w.requests && q in w.requests
    requires Holds(w.requests[p], phone) && Holds(w.requests[q], phone)
    ensures p == q
  {
    assert phone in w.held && w.held[phone] == p;
    assert w.held[phone] == q;
  }

  /** At any moment of a run, at most one request is between locking and unlocking a number. */
  lemma MutualExclusion(n: Numbers, run: seq<World>, i: nat, p: nat, q: nat, phone: Number)
    requires IsRun(n, run) && i < |run|
    requires p in run[i].requests && Holds(run[i].requests[p], phone)
    requires q in run[i].requests && Holds(run[i].requests[q], phone)
    ensures p == q
  {
    RunLock(n, run, i);
    OneHolder(run[i], p, q, phone);
  }

  /** When all requests are finished, no lock is held. */
  lemma AllLocksReleased(n: Numbers, run: seq<World>, i: nat)
    requires IsRun(n, run) && i < |run|
    requires forall p | p in run[i].requests :: run[i].requests[p].Finished?
    ensures run[i].held == map[]
  {
    RunLock(n, run, i);
    assert run[i].held.Keys == {};
  }


  // ---------- What a code is used for ----------

  /** The number that a code has to be sent to: the new account's own, or the one that is locked. */
  function Receives(n: Numbers, phone: Number, aim: Aim): Option<Number> {
    match aim
    case Add(account) => NumberOf(n, account)
    case SignIn(_, _) => Some(phone)
  }

  /** A sign-in goes on if the look-up found an account and the number passed the check, or if none was to be added. */
  predicate Admitted(n: Numbers, accounts: seq<Account>, form: Form, phone: Number) {
    && !form.older
    && (!form.signup || (HasAccount(n, accounts, form.organization, phone) && InRegion(n, phone, form.countryCode)))
  }

  ghost predicate AimOk(n: Numbers, accounts: seq<Account>, form: Form, phone: Number, aim: Aim) {
    match aim
    case Add(account) => form.MaySignUp() && account.owner == form.organization && StoredPhone(n, form, phone) == Some(account.phone)
                         && account.countryCode == form.countryCode
    case SignIn(account, seen) =>
      && seen <= accounts && Admitted(n, seen, form, phone)
      && MayFind(n, seen, form.organization, form.username, account)
  }

  /** The record holds a code of the form, sent for its organization to the right number. */
  predicate Sent(n: Numbers, records: seq<Record>, i: nat, form: Form, phone: Number, aim: Aim) {
    && i < |records| && records[i].owner == form.organization && records[i].code == form.code
    && Receives(n, phone, aim) == Some(records[i].receiver)
  }

  /** What was consumed for an aim: a used record, or nothing if the form needs none. */
  predicate Paid(n: Numbers, records: seq<Record>, record: Option<nat>, form: Form, phone: Number, aim: Aim) {
    match record
    case None => !form.NeedsCode()
    case Some(i) => Sent(n, records, i, form, phone, aim) && records[i].used
  }

  ghost predicate StageFacts(n: Numbers, w: World, s: Stage) {
    && (HasLock(s) ==> LockOf(n, s.req.form) == Some(s.phone))
    && (s.LookingUp? ==> !s.req.form.older)
    && (s.Finding? ==> Admitted(n, w.accounts, s.req.form, s.phone))
    && (s.Reading? ==> AimOk(n, w.accounts, s.req.form, s.phone, s.aim) && Receives(n, s.phone, s.aim) == Some(s.receiver))
    && (s.Using? ==> AimOk(n, w.accounts, s.req.form, s.phone, s.aim) && Sent(n, w.records, s.index, s.req.form, s.phone, s.aim))
    && (s.Acting? ==> AimOk(n, w.accounts, s.req.form, s.phone, s.aim) && Paid(n, w.records, s.record, s.req.form, s.phone, s.aim))
  }

  ghost predicate UseFacts(n: Numbers, w: World, u: Use) {
    && LockOf(n, u.form) == Some(u.phone) && AimOk(n, w.accounts, u.form, u.phone, u.aim)
    && Paid(n, w.records, u.record, u.form, u.phone, u.aim)
  }

  /** Who has spent a record: a past use, or a request that is about to act. */
  datatype Spender = Past(index: nat) | Present(pid: nat)

  function SpentBy(w: World, x: Spender): Option<nat> {
    match x
    case Past(k) => if k < |w.uses| then w.uses[k].record else None
    case Present(p) => if p in w.requests && w.requests[p].Acting? then w.requests[p].record else None
  }

  ghost predicate OneSpender(w: World) {
    forall x, y {:trigger SpentBy(w, x), SpentBy(w, y)} | SpentBy(w, x).Some? && SpentBy(w, x) == SpentBy(w, y) :: x == y
  }

  ghost predicate SpentIsUsed(w: World) {
    forall x | SpentBy(w, x).Some? :: SpentBy(w, x).value < |w.records| && w.records[SpentBy(w, x).value].used
  }

  ghost predicate Facts(n: Numbers, w: World) {
    && (forall p | p in w.requests :: StageFacts(n, w, w.requests[p]))
    && (forall k | 0 <= k < |w.uses| :: UseFacts(n, w, w.uses[k]))
    && OneSpender(w) && SpentIsUsed(w)
  }

  /** Records only grow in number, and from unused to used. */
  ghost predicate RecordsGrow(before: seq<Record>, after: seq<Record>) {
    && |before| <= |after|
    && forall i | 0 <= i < |before| :: after[i] == before[i] || after[i] == before[i].(used := true)
  }

  ghost predicate Grows(w: World, w': World) {
    w.accounts <= w'.accounts && RecordsGrow(w.records, w'.records)
  }

  lemma HasPhoneStays(accounts: seq<Account>, more: seq<Account>, organization: string, phone: string)
    requires accounts <= more && HasPhone(accounts, organization, phone)
    ensures HasPhone(more, organization, phone)
  {
  }

  lemma StageFactsStay(n: Numbers, w: World, w': World, s: Stage)
    requires StageFacts(n, w, s) && Grows(w, w')
    ensures StageFacts(n, w', s)
  {
    if s.Finding? && s.req.form.signup {
      HasPhoneStays(w.accounts, w'.accounts, s.req.form.organization, n.national(s.phone));
    }
  }

  lemma UseFactsStay(n: Numbers, w: World, w': World, u: Use)
    requires UseFacts(n, w, u) && Grows(w, w')
    ensures UseFacts(n, w', u)
  {
  }

  lemma StepGrows(n: Numbers, w: World, step: Step)
    requires Enabled(w, step)
    ensures Grows(w, Apply(n, w, step))
  {
  }

  lemma LookedUpFacts(n: Numbers, w: World, req: Request, phone: Number, ok: bool)
    requires StageFacts(n, w, LookingUp(req, phone))
    ensures StageFacts(n, w, LookedUp(n, w, req, phone, ok))
  {
  }

  lemma CheckedFacts(n: Numbers, w: World, req: Request, phone: Number, ok: bool)
    requires StageFacts(n, w, Checking(req, phone))
    ensures StageFacts(n, w, Checked(n, w, req, phone, ok))
  {
  }

  lemma PickedFacts(n: Numbers, w: World, req: Request, phone: Number, ok: bool, pick: nat)
    requires StageFacts(n, w, Finding(req, phone))
    ensures StageFacts(n, w, Picked(n, w, req, phone, ok, pick))
  {
  }

  lemma ReadFacts(n: Numbers, w: World, s: Stage, ok: bool)
    requires s.Reading? && StageFacts(n, w, s)
    ensures StageFacts(n, w, Read(w, s, ok))
  {
  }

  lemma UsedFacts(n: Numbers, w: World, p: nat, s: Stage, ok: bool)
    requires s.Using? && StageFacts(n, w, s)
    ensures var w' := Used(w, p, s, ok); p in w'.requests && StageFacts(n, w', w'.requests[p])
  {
  }

  /** What a request knows rests on accounts and records alone. */
  lemma FactsAlike(n: Numbers, w: World, w': World, s: Stage)
    requires StageFacts(n, w, s) && w'.accounts == w.accounts && w'.records == w.records
    ensures StageFacts(n, w', s)
  {
  }

  /** The stage that a request moves to has the facts it needs. */
  lemma MovedFacts(n: Numbers, w: World, p: nat, ok: bool, pick: nat)
    requires p in w.requests && !w.requests[p].Finished? && StageFacts(n, w, w.requests[p])
    ensures var w' := MoveRequest(n, w, p, ok, pick); p in w'.requests && StageFacts(n, w', w'.requests[p])
  {
    var s, w' := w.requests[p], MoveRequest(n, w, p, ok, pick);
    match s
    case Locking(_) =>
    case LookingUp(req, phone) =>
      LookedUpFacts(n, w, req, phone, ok);
      FactsAlike(n, w, w', LookedUp(n, w, req, phone, ok));
    case Checking(req, phone) =>
      CheckedFacts(n, w, req, phone, ok);
      FactsAlike(n, w, w', Checked(n, w, req, phone, ok));
    case Finding(req, phone) =>
      PickedFacts(n, w, req, phone, ok, pick);
      FactsAlike(n, w, w', Picked(n, w, req, phone, ok, pick));
    case Reading(_, _, _, _) =>
      ReadFacts(n, w, s, ok);
      FactsAlike(n, w, w', Read(w, s, ok));
    case Using(_, _, _, _) => UsedFacts(n, w, p, s, ok);
    case Acting(_, _, _, _) =>
    case Unlocking(_, _) =>
  }

  lemma OthersStay(n: Numbers, w: World, step: Step, q: nat)
    requires Enabled(w, step) && q in Apply(n, w, step).requests && !((step.Move? || step.Start?) && step.pid == q)
    ensures q in w.requests && Apply(n, w, step).requests[q] == w.requests[q]
  {
  }

  lemma NextFacts(n: Numbers, w: World, step: Step, q: nat)
    requires Facts(n, w) && Enabled(w, step) && q in Apply(n, w, step).requests
    ensures StageFacts(n, Apply(n, w, step), Apply(n, w, step).requests[q])
  {
    if step.Move? && q == step.pid {
      MovedFacts(n, w, q, step.ok, step.pick);
    } else if !(step.Start? && q == step.pid) {
      OthersStay(n, w, step, q);
      StepGrows(n, w, step);
      StageFactsStay(n, w, Apply(n, w, step), w.requests[q]);
    }
  }

  lemma NextUseFacts(n: Numbers, w: World, step: Step, k: nat)
    requires Facts(n, w) && Enabled(w, step) && k < |Apply(n, w, step).uses|
    ensures UseFacts(n, Apply(n, w, step), Apply(n, w, step).uses[k])
  {
    StepGrows(n, w, step);
    if k < |w.uses| {
      assert Apply(n, w, step).uses[k] == w.uses[k];
      UseFactsStay(n, w, Apply(n, w, step), w.uses[k]);
    } else {
      var s := w.requests[step.pid];
      UseFactsStay(n, w, Apply(n, w, step), Use(s.req.form, s.phone, s.record, s.aim));
    }
  }

  /** A step spends a record that nobody has spent, or passes a spent one on from a request to its use. */
  lemma StepSpenders(n: Numbers, w: World, step: Step)
    requires OneSpender(w) && SpentIsUsed(w) && Enabled(w, step)
    ensures OneSpender(Apply(n, w, step)) && SpentIsUsed(Apply(n, w, step))
  {
    var w' := Apply(n, w, step);
    if step.Move? && w.requests[step.pid].Using? {
      assert forall x | x != Present(step.pid) :: SpentBy(w', x) == SpentBy(w, x);
    } else if step.Move? && w.requests[step.pid].Acting? {
      assert SpentBy(w, Past(|w.uses|)) == None;
      assert forall x | x != Present(step.pid) && x != Past(|w.uses|) :: SpentBy(w', x) == SpentBy(w, x);
      assert SpentBy(w', Past(|w.uses|)) in {None, SpentBy(w, Present(step.pid))};
      assert SpentBy(w', Present(step.pid)) == None;
    } else {
      OthersSpend(n, w, step);
    }
  }

  lemma OthersSpend(n: Numbers, w: World, step: Step)
    requires OneSpender(w) && SpentIsUsed(w) && Enabled(w, step)
    requires step.Move? ==> !w.requests[step.pid].Using? && !w.requests[step.pid].Acting?
    ensures OneSpender(Apply(n, w, step)) && SpentIsUsed(Apply(n, w, step))
  {
    assert forall x :: SpentBy(Apply(n, w, step), x) in {None, SpentBy(w, x)};
  }

  lemma StepFacts(n: Numbers, w: World, step: Step)
    requires Facts(n, w) && Enabled(w, step)
    ensures Facts(n, Apply(n, w, step))
  {
    var w' := Apply(n, w, step);
    forall q | q in w'.requests
      ensures StageFacts(n, w', w'.requests[q])
    {
      NextFacts(n, w, step, q);
    }
    forall k | 0 <= k < |w'.uses|
      ensures UseFacts(n, w', w'.uses[k])
    {
      NextUseFacts(n, w, step, k);
    }
    StepSpenders(n, w, step);
  }

  lemma InitFacts(n: Numbers, w: World)
    requires Init(w)
    ensures Facts(n, w)
  {
    assert forall x :: SpentBy(w, x) == None;
  }

  lemma {:induction false} RunFacts(n: Numbers, run: seq<World>, i: nat)
    requires IsRun(n, run) && i < |run|
    ensures Facts(n, run[i])
  {
    if i == 0 {
      InitFacts(n, run[0]);
    } else {
      RunFacts(n, run, i - 1);
      var step := StepOf(n, run, i - 1);
      StepFacts(n, run[i - 1], step);
    }
  }

  /**
    In every run each use of a code has a record of its own, which was sent for the organization to the
    locked number, for a sign-in, or to the new account's own number, for a sign-up: no code serves twice,
    whatever numbers were locked.
   */
  lemma OneUsePerCode(n: Numbers, run: seq<World>, i: nat, k: nat, l: nat)
    requires IsRun(n, run) && i < |run| && k < |run[i].uses| && l < |run[i].uses|
    ensures var w, u := run[i], run[i].uses[k];
            && (u.record == None ==> u.form.older && !u.form.checksCode)
            && (u.record.Some? ==>
                  && u.record.value < |w.records| && w.records[u.record.value].used
                  && w.records[u.record.value].owner == u.form.organization && w.records[u.record.value].code == u.form.code
                  && Some(w.records[u.record.value].receiver)
                     == (if u.aim.Add? then n.e164(u.aim.account.phone, u.aim.account.countryCode) else LockOf(n, u.form))
                  && (w.uses[l].record == u.record ==> k == l))
  {
    RunFacts(n, run, i);
    assert UseFacts(n, run[i], run[i].uses[k]);
    assert SpentBy(run[i], Past(k)) == run[i].uses[k].record && SpentBy(run[i], Past(l)) == run[i].uses[l].record;
  }

  /**
    In every run accounts are added only for an organization whose application has sign-up enabled, to a form
    that asks for it, with the organization and the country of the form, and the phone that is made of the
    number it locks; the older sign-up never signs in.
   */
  lemma AddedAsAsked(n: Numbers, run: seq<World>, i: nat, k: nat)
    requires IsRun(n, run) && i < |run| && k < |run[i].uses|
    ensures var u := run[i].uses[k]; var a := u.aim.account;
            && n.e164(u.form.username, u.form.countryCode) == Some(u.phone)
            && (u.aim.Add? ==>
                  && a.owner == u.form.organization != "" && u.form.enableSignUp && (u.form.older || u.form.signup)
                  && a.countryCode == u.form.countryCode
                  && var again := n.e164(n.national(u.phone), u.form.countryCode);
                     if u.form.older then a.phone == n.national(u.phone)
                     else again.Some? && a.phone == n.national(again.value))
            && (u.aim.SignIn? ==> !u.form.older)
  {
    RunFacts(n, run, i);
    assert UseFacts(n, run[i], run[i].uses[k]);
  }

  function AddedBy(uses: seq<Use>): seq<Account> {
    if uses == [] then []
    else
      var last := uses[|uses| - 1];
      AddedBy(uses[..|uses| - 1]) + if last.aim.Add? then [last.aim.account] else []
  }

  lemma AddedByOne(uses: seq<Use>, u: Use)
    ensures AddedBy(uses + [u]) == AddedBy(uses) + if u.aim.Add? then [u.aim.account] else []
  {
    assert (uses + [u])[..|uses|] == uses;
  }

  lemma StepAdds(n: Numbers, start: seq<Account>, w: World, step: Step)
    requires Enabled(w, step) && w.accounts == start + AddedBy(w.uses)
    ensures Apply(n, w, step).accounts == start + AddedBy(Apply(n, w, step).uses)
  {
    if step.Move? && w.requests[step.pid].Acting? {
      var s := w.requests[step.pid];
      AddedByOne(w.uses, Use(s.req.form, s.phone, s.record, s.aim));
    }
  }

  /** The accounts are those of the start and, in order, those of the uses that add one. */
  lemma {:induction false} AccountsAreAdded(n: Numbers, run: seq<World>, i: nat)
    requires IsRun(n, run) && i < |run|
    ensures run[i].accounts == run[0].accounts + AddedBy(run[i].uses)
  {
    if i > 0 {
      AccountsAreAdded(n, run, i - 1);
      var step := StepOf(n, run, i - 1);
      StepAdds(n, run[0].accounts, run[i - 1], step);
    }
  }

  // ---------- Reachable worlds ----------

  /** A run from some accounts leads to the world. */
  ghost predicate Reachable(n: Numbers, accounts: seq<Account>, w: World) {
    exists run: seq<World> :: IsRun(n, run) && run[0].accounts == accounts && run[|run| - 1] == w
  }

  lemma Reach(n: Numbers, accounts: seq<Account>, w: World, step: Step) returns (w': World)
    requires Reachable(n, accounts, w) && Enabled(w, step)
    ensures w' == Apply(n, w, step) && Reachable(n, accounts, w')
  {
    w' := Apply(n, w, step);
    var run: seq<World> :| IsRun(n, run) && run[0].accounts == accounts && run[|run| - 1] == w;
    var longer := run + [w'];
    assert Next(n, w, w');
    forall i, j | 0 <= i && j == i + 1 < |longer|
      ensures Next(n, longer[i], longer[j])
    {
      if j < |run| {
        assert Next(n, run[i], run[j]);
      }
    }
    assert IsRun(n, longer) && longer[0].accounts == accounts && longer[|longer| - 1] == w';
  }

  lemma ReachStart(n: Numbers, accounts: seq<Account>) returns (w: World)
    ensures Reachable(n, accounts, w) && Init(w)
    ensures w == World(map[], accounts, [], [], map[], 1)
  {
    w := World(map[], accounts, [], [], map[], 1);
    assert IsRun(n, [w]) && [w][0].accounts == accounts && [w][|[w]| - 1] == w;
  }
}
