/**
  The device authorization flow (sections 3.1 to 3.5 of RFC 8628).

  One shared map holds two kinds of entry: a user-code entry, whose `userName` is the device code
  it stands for, and a device-code entry, which carries the sign-in result.  Three handlers touch
  the map.  Every operation on the map, and every reading of the clock, is one step here; steps of
  any number of handlers interleave freely.
 */
module DeviceFlow {
  import opened Wrappers

  /** Seconds for which a code may be used after its request. */
  const LIFETIME := 120

  /** How often the device handler looks again before it gives up on a user code. */
  const MAX_RETRIES := 5

  datatype Entry = Entry(signedIn: bool, userName: string, scope: string, applicationId: string, requestAt: int)
  {
    predicate Expired(now: int) {
      requestAt + LIFETIME < now
    }
  }

  datatype Reply =
    | Issued
    | UserCodeNotGenerated
    | UserCodeExpired
    | DeviceCodeInvalid
    | Approved
    | TokenExpired
    | AuthorizationPending
    | Redeemed(userName: string)

  /** Where a handler stands, with its local variables. */
  datatype Handler =
    // device authorization request
    | CheckingUserCode(deviceCode: string, userCode: string, scope: string, applicationId: string, generateTime: nat)
    | StampingDevice(deviceCode: string, userCode: string, scope: string, applicationId: string)
    | StampingUser(deviceCode: string, userCode: string, device: Entry)
    | StoringDevice(deviceCode: string, userCode: string, device: Entry, user: Entry)
    | StoringUser(deviceCode: string, userCode: string, user: Entry)
    // approval by a signed-in user
    | TakingUserCode(userCode: string, name: string)
    | CheckingTaken(taken: Entry, name: string)
    | LoadingDevice(taken: Entry, name: string, checkedAt: int)
    | StoringSignin(taken: Entry, name: string, checkedAt: int, device: Entry)
    // token request
    | Polling(deviceCode: string)
    | CheckingLoaded(deviceCode: string, loaded: Entry, loadedStep: nat)
    | Deleting(deviceCode: string, loaded: Entry, loadedStep: nat, checkedAt: int)
    // done
    | Finished(reply: Reply)

  /** An approver got past LoadAndDelete with the user-code entry of `deviceCode`. */
  datatype Claim = Claim(deviceCode: string, pid: nat)

  datatype Approval = Approval(deviceCode: string, name: string, pid: nat, userRequestAt: int, checkedAt: int,
                               storedAt: int, step: nat)

  datatype Redemption = Redemption(pid: nat, deviceCode: string, name: string, requestAt: int, checkedAt: int,
                                   loadedStep: nat, deletedStep: nat)

  /**
    The shared map, the handlers, a clock, and the history of what happened so far.
    `requests` remembers the device-code entry each device request made.
   */
  datatype World = World(
    entries: map<string, Entry>, handlers: map<nat, Handler>, clock: int, steps: nat,
    issued: set<string>, userCodes: set<string>, requests: map<string, Entry>,
    claims: seq<Claim>, approvals: seq<Approval>, redemptions: seq<Redemption>)
  {
    function Continue(p: nat, h: Handler): World {
      this.(handlers := handlers[p := h], steps := steps + 1)
    }

    function Finish(p: nat, reply: Reply): World {
      Continue(p, Finished(reply))
    }
  }

  datatype Step = Start(pid: nat, handler: Handler) | Move(pid: nat) | Tick(seconds: nat)

  /** One atomic step of handler `p`. */
  function MoveHandler(w: World, p: nat): World
    requires p in w.handlers
  {
    match w.handlers[p]
    case CheckingUserCode(deviceCode, userCode, scope, app, n) =>
      if n > MAX_RETRIES then w.Finish(p, UserCodeNotGenerated)
      else if userCode in w.entries then w.Continue(p, CheckingUserCode(deviceCode, userCode, scope, app, n + 1))
      else w.Continue(p, StampingDevice(deviceCode, userCode, scope, app))
    case StampingDevice(deviceCode, userCode, scope, app) =>
      var device := Entry(false, "", scope, app, w.clock);
      w.Continue(p, StampingUser(deviceCode, userCode, device)).(requests := w.requests[deviceCode := device])
    case StampingUser(deviceCode, userCode, device) =>
      var user := Entry(false, deviceCode, device.scope, device.applicationId, w.clock);
      w.Continue(p, StoringDevice(deviceCode, userCode, device, user))
    case StoringDevice(deviceCode, userCode, device, user) =>
      w.Continue(p, StoringUser(deviceCode, userCode, user)).(entries := w.entries[deviceCode := device])
    case StoringUser(deviceCode, userCode, user) =>
      w.Finish(p, Issued).(entries := w.entries[userCode := user])
    case TakingUserCode(userCode, name) =>
      if userCode !in w.entries then w.Finish(p, UserCodeExpired)
      else
        var taken := w.entries[userCode];
        w.Continue(p, CheckingTaken(taken, name)).(
        entries := w.entries - {userCode},
        claims := if userCode in w.userCodes then w.claims + [Claim(taken.userName, p)] else w.claims)
    case CheckingTaken(taken, name) =>
      if taken.Expired(w.clock) then w.Finish(p, UserCodeExpired)
      else w.Continue(p, LoadingDevice(taken, name, w.clock))
    case LoadingDevice(taken, name, checkedAt) =>
      if taken.userName !in w.entries then w.Finish(p, DeviceCodeInvalid)
      else w.Continue(p, StoringSignin(taken, name, checkedAt, w.entries[taken.userName]))
    case StoringSignin(taken, name, checkedAt, device) =>
      w.Finish(p, Approved).(
      entries := w.entries[taken.userName := device.(userName := name, signedIn := true)],
      approvals := w.approvals + [Approval(taken.userName, name, p, taken.requestAt, checkedAt, w.clock, w.steps)])
    case Polling(deviceCode) =>
      if deviceCode !in w.entries then w.Finish(p, TokenExpired)
      else if !w.entries[deviceCode].signedIn then w.Finish(p, AuthorizationPending)
      else w.Continue(p, CheckingLoaded(deviceCode, w.entries[deviceCode], w.steps))
    case CheckingLoaded(deviceCode, loaded, loadedStep) =>
      if loaded.Expired(w.clock) then w.Finish(p, TokenExpired)
      else w.Continue(p, Deleting(deviceCode, loaded, loadedStep, w.clock))
    case Deleting(deviceCode, loaded, loadedStep, checkedAt) =>
      w.Finish(p, Redeemed(loaded.userName)).(
      entries := w.entries - {deviceCode},
      redemptions := w.redemptions +
      [Redemption(p, deviceCode, loaded.userName, loaded.requestAt, checkedAt, loadedStep, w.steps)])
    case Finished(_) => w
  }

  /**
    A new handler.  Device codes are fresh; user codes may repeat, but are never device codes;
    codes are never account names.  Approvers and pollers may send any string as a code.
   */
  predicate MayStart(accounts: set<string>, w: World, h: Handler) {
    match h
    case CheckingUserCode(deviceCode, userCode, _, _, n) =>
      && n == 0 && deviceCode != userCode && "" !in {deviceCode, userCode}
      && deviceCode !in w.issued + w.userCodes + accounts
      && userCode !in w.issued + accounts
    case TakingUserCode(_, name) => name in accounts
    case Polling(deviceCode) => deviceCode != ""
    case _ => false
  }

  predicate Enabled(accounts: set<string>, w: World, step: Step) {
    match step
    case Start(p, h) => p !in w.handlers && MayStart(accounts, w, h)
    case Move(p) => p in w.handlers && !w.handlers[p].Finished?
    case Tick(_) => true
  }

  function Apply(w: World, step: Step): World
    requires step.Move? ==> step.pid in w.handlers
  {
    match step
    case Start(p, h) =>
      var started := w.Continue(p, h);
      if h.CheckingUserCode?
      then started.(issued := w.issued + {h.deviceCode}, userCodes := w.userCodes + {h.userCode})
      else started
    case Move(p) => MoveHandler(w, p)
    case Tick(seconds) => w.(clock := w.clock + seconds, steps := w.steps + 1)
  }

  ghost predicate Next(accounts: set<string>, w: World, w': World) {
    exists step: Step :: Enabled(accounts, w, step) && w' == Apply(w, step)
  }

  ghost predicate Init(accounts: set<string>, w: World) {
    && w.entries == map[] && w.handlers == map[] && w.issued == {} && w.userCodes == {} && w.requests == map[]
    && w.claims == [] && w.approvals == [] && w.redemptions == [] && "" !in accounts
  }

  /** A run: any number of handlers, interleaved in any way. */
  ghost predicate IsRun(accounts: set<string>, run: seq<World>) {
    && |run| > 0 && Init(accounts, run[0])
    && forall i, j {:trigger Next(accounts, run[i], run[j])} | 0 <= i && j == i + 1 < |run| :: Next(accounts, run[i], run[j])
  }

  // ---------- The inductive invariant ----------

  /**
    Whoever can still turn the one user-code entry of a device code into a sign-in: the request that
    has yet to store it, the map, or the approver that took it out.
   */
  datatype Holder = Requester(pid: nat) | UserCodeEntry(code: string) | Claimant(index: nat)

  function DeviceCodeOf(h: Handler): Option<string> {
    match h
    case CheckingUserCode(deviceCode, _, _, _, _) => Some(deviceCode)
    case StampingDevice(deviceCode, _, _, _) => Some(deviceCode)
    case StampingUser(deviceCode, _, _) => Some(deviceCode)
    case StoringDevice(deviceCode, _, _, _) => Some(deviceCode)
    case StoringUser(deviceCode, _, _) => Some(deviceCode)
    case _ => None
  }

  predicate Holds(w: World, holder: Holder, deviceCode: string) {
    match holder
    case Requester(p) => p in w.handlers && DeviceCodeOf(w.handlers[p]) == Some(deviceCode)
    case UserCodeEntry(code) => code in w.entries && code in w.userCodes && w.entries[code].userName == deviceCode
    case Claimant(i) => i < |w.claims| && w.claims[i].deviceCode == deviceCode
  }

  ghost predicate OneHolder(w: World) {
    forall a, b, deviceCode :: Holds(w, a, deviceCode) && Holds(w, b, deviceCode) ==> a == b
  }

  ghost predicate CodesDistinct(accounts: set<string>, w: World) {
    && w.issued !! w.userCodes && accounts !! (w.issued + w.userCodes)
    && "" !in w.issued + w.userCodes + accounts
    && w.entries.Keys <= w.issued + w.userCodes
    && w.requests.Keys <= w.issued
    && forall c | c in w.claims :: c.deviceCode in w.issued
  }

  /** `name` approved the device code, at a step before `step` and by time `time`. */
  ghost predicate Backed(w: World, deviceCode: string, name: string, step: nat, time: int) {
    exists a :: a in w.approvals && a.deviceCode == deviceCode && a.name == name && a.step < step && a.storedAt <= time
  }

  /** `e` is what a device code's entry is after an approval at a step before `step` and by time `time`. */
  ghost predicate ApprovedEntry(w: World, deviceCode: string, e: Entry, step: nat, time: int) {
    && deviceCode in w.requests
    && e == w.requests[deviceCode].(signedIn := true, userName := e.userName)
    && Backed(w, deviceCode, e.userName, step, time)
  }

  ghost predicate RequestsOk(w: World) {
    forall k | k in w.requests :: w.requests[k].userName == "" && !w.requests[k].signedIn
  }

  ghost predicate EntryOk(accounts: set<string>, w: World, key: string, e: Entry) {
    && (key in w.issued ==>
          && key in w.requests && e.userName in accounts + {""}
          && (e == w.requests[key] || ApprovedEntry(w, key, e, w.steps, w.clock)))
    && (key in w.userCodes ==> !e.signedIn && e.userName in w.issued)
  }

  ghost predicate EntriesOk(accounts: set<string>, w: World) {
    forall k | k in w.entries :: EntryOk(accounts, w, k, w.entries[k])
  }

  /** An approver in the middle of its work has the claim of the device code it works on. */
  ghost predicate ApproverOk(accounts: set<string>, w: World, p: nat, taken: Entry, name: string) {
    && name in accounts
    && taken.userName in w.issued + accounts + {""}
    && (taken.userName in w.issued ==>
          Claim(taken.userName, p) in w.claims)
  }

  ghost predicate LoadedBeforeDeletes(w: World, deviceCode: string, loadedStep: nat) {
    && loadedStep < w.steps
    && forall r | r in w.redemptions && r.deviceCode == deviceCode :: loadedStep < r.deletedStep
  }

  ghost predicate HandlerOk(accounts: set<string>, w: World, p: nat, h: Handler) {
    match h
    case CheckingUserCode(deviceCode, userCode, _, _, _) =>
      deviceCode in w.issued && userCode in w.userCodes && deviceCode !in w.requests
    case StampingDevice(deviceCode, userCode, _, _) =>
      deviceCode in w.issued && userCode in w.userCodes && deviceCode !in w.requests
    case StampingUser(deviceCode, userCode, device) =>
      && deviceCode in w.issued && userCode in w.userCodes
      && deviceCode in w.requests && w.requests[deviceCode] == device
    case StoringDevice(deviceCode, userCode, device, user) =>
      && deviceCode in w.issued && userCode in w.userCodes
      && deviceCode in w.requests && w.requests[deviceCode] == device
      && user.userName == deviceCode && !user.signedIn
    case StoringUser(deviceCode, userCode, user) =>
      && deviceCode in w.issued && userCode in w.userCodes
      && user.userName == deviceCode && !user.signedIn
    case TakingUserCode(userCode, name) => name in accounts
    case CheckingTaken(taken, name) => ApproverOk(accounts, w, p, taken, name)
    case LoadingDevice(taken, name, checkedAt) =>
      ApproverOk(accounts, w, p, taken, name) && !taken.Expired(checkedAt) && checkedAt <= w.clock
    case StoringSignin(taken, name, checkedAt, device) =>
      && ApproverOk(accounts, w, p, taken, name) && !taken.Expired(checkedAt) && checkedAt <= w.clock
      && taken.userName in w.requests && device == w.requests[taken.userName]
    case Polling(deviceCode) => true
    case CheckingLoaded(deviceCode, loaded, loadedStep) =>
      && ApprovedEntry(w, deviceCode, loaded, loadedStep, w.clock)
      && LoadedBeforeDeletes(w, deviceCode, loadedStep)
    case Deleting(deviceCode, loaded, loadedStep, checkedAt) =>
      && ApprovedEntry(w, deviceCode, loaded, loadedStep, checkedAt)
      && LoadedBeforeDeletes(w, deviceCode, loadedStep)
      && !loaded.Expired(checkedAt) && checkedAt <= w.clock
    case Finished(reply) =>
      reply.Redeemed? ==> exists r :: r in w.redemptions && r.pid == p && r.name == reply.userName
  }

  ghost predicate HandlersOk(accounts: set<string>, w: World) {
    forall p | p in w.handlers :: HandlerOk(accounts, w, p, w.handlers[p])
  }

  ghost predicate ApprovalOk(w: World, a: Approval) {
    && Claim(a.deviceCode, a.pid) in w.claims
    && a.pid in w.handlers && w.handlers[a.pid].Finished?
    && a.checkedAt <= a.userRequestAt + LIFETIME && a.checkedAt <= a.storedAt <= w.clock && a.step < w.steps
  }

  ghost predicate ApprovalsOk(w: World) {
    && (forall a | a in w.approvals :: ApprovalOk(w, a))
    && (forall i, j | 0 <= i < j < |w.approvals| :: w.approvals[i].deviceCode != w.approvals[j].deviceCode)
  }

  /** A redemption is backed by an approval of the same name, and its device code is gone. */
  ghost predicate RedemptionOk(w: World, r: Redemption) {
    && r.deviceCode in w.requests && r.requestAt == w.requests[r.deviceCode].requestAt
    && r.checkedAt <= r.requestAt + LIFETIME && r.checkedAt <= w.clock
    && r.loadedStep < r.deletedStep < w.steps
    && r.deviceCode !in w.entries
    && Backed(w, r.deviceCode, r.name, r.loadedStep, r.checkedAt)
  }

  ghost predicate RedemptionsOk(w: World) {
    && (forall r | r in w.redemptions :: RedemptionOk(w, r))
    && (forall i, j | 0 <= i < j < |w.redemptions| && w.redemptions[i].deviceCode == w.redemptions[j].deviceCode ::
          w.redemptions[j].loadedStep < w.redemptions[i].deletedStep < w.redemptions[j].deletedStep)
  }

  ghost predicate Inv(accounts: set<string>, w: World) {
    && CodesDistinct(accounts, w)
    && OneHolder(w)
    && RequestsOk(w) && EntriesOk(accounts, w)
    && HandlersOk(accounts, w)
    && ApprovalsOk(w)
    && RedemptionsOk(w)
  }

  lemma InitInv(accounts: set<string>, w: World)
    requires Init(accounts, w)
    ensures Inv(accounts, w)
  {
  }

  // ---------- Every step keeps the invariant ----------

  /** A step after which each holder of a device code traces back to its own holder before. */
  lemma HoldersTraceBack(w: World, w': World, origin: Holder -> Holder)
    requires OneHolder(w)
    requires forall h, d :: Holds(w', h, d) ==> Holds(w, origin(h), d)
    requires forall g, h, d :: Holds(w', g, d) && Holds(w', h, d) && origin(g) == origin(h) ==> g == h
    ensures OneHolder(w')
  {
    forall a, b, d | Holds(w', a, d) && Holds(w', b, d)
      ensures a == b
    {
      assert Holds(w, origin(a), d) && Holds(w, origin(b), d);
    }
  }

  /** The same, when holders only disappear. */
  lemma HoldersRemain(w: World, w': World)
    requires OneHolder(w)
    requires forall h, d :: Holds(w', h, d) ==> Holds(w, h, d)
    ensures OneHolder(w')
  {
    forall a, b, d | Holds(w', a, d) && Holds(w', b, d)
      ensures a == b
    {
      assert Holds(w, a, d) && Holds(w, b, d);
    }
  }

  /** Codes, requests and history only grow, time does not run back, and finished handlers stay finished. */
  ghost predicate Extends(w: World, w': World) {
    && w.issued <= w'.issued && w.userCodes <= w'.userCodes
    && (forall k | k in w.requests :: k in w'.requests && w'.requests[k] == w.requests[k])
    && w.claims <= w'.claims && w.approvals <= w'.approvals && w.redemptions <= w'.redemptions
    && (forall r | r in w'.redemptions && r !in w.redemptions :: w.steps <= r.deletedStep)
    && w.clock <= w'.clock && w.steps <= w'.steps
    && (forall p | p in w.handlers :: p in w'.handlers && (w.handlers[p].Finished? ==> w'.handlers[p] == w.handlers[p]))
  }

  lemma BackedRemains(w: World, w': World, deviceCode: string, name: string, step: nat, time: int)
    requires Extends(w, w') && Backed(w, deviceCode, name, step, time)
    ensures forall step', time' | step <= step' && time <= time' :: Backed(w', deviceCode, name, step', time')
  {
    var a :| a in w.approvals && a.deviceCode == deviceCode && a.name == name && a.step < step && a.storedAt <= time;
    var i :| 0 <= i < |w.approvals| && w.approvals[i] == a;
    assert w'.approvals[i] == a;
  }

  lemma PrefixMembers<T>(s: seq<T>, t: seq<T>)
    requires s <= t
    ensures forall x | x in s :: x in t
  {
    forall x | x in s
      ensures x in t
    {
      var i :| 0 <= i < |s| && s[i] == x;
      assert t[i] == x;
    }
  }

  lemma HandlerRemains(accounts: set<string>, w: World, w': World, p: nat, h: Handler)
    requires Extends(w, w') && HandlerOk(accounts, w, p, h) && CodesDistinct(accounts, w')
    requires h.CheckingUserCode? || h.StampingDevice? ==> h.deviceCode !in w'.requests
    ensures HandlerOk(accounts, w', p, h)
  {
    PrefixMembers(w.claims, w'.claims);
    PrefixMembers(w.redemptions, w'.redemptions);
    match h
    case CheckingLoaded(deviceCode, loaded, loadedStep) =>
      BackedRemains(w, w', deviceCode, loaded.userName, loadedStep, w.clock);
    case Deleting(deviceCode, loaded, loadedStep, checkedAt) =>
      BackedRemains(w, w', deviceCode, loaded.userName, loadedStep, checkedAt);
    case _ =>
  }

  lemma EntryRemains(accounts: set<string>, w: World, w': World, key: string)
    requires Extends(w, w') && CodesDistinct(accounts, w) && CodesDistinct(accounts, w')
    requires key in w.entries && EntryOk(accounts, w, key, w.entries[key])
    ensures EntryOk(accounts, w', key, w.entries[key])
  {
    var e := w.entries[key];
    if key in w.issued && e != w.requests[key] {
      BackedRemains(w, w', key, e.userName, w.steps, w.clock);
    }
  }

  lemma RedemptionRemains(w: World, w': World, r: Redemption)
    requires Extends(w, w') && RedemptionOk(w, r) && r.deviceCode !in w'.entries
    ensures RedemptionOk(w', r)
  {
    BackedRemains(w, w', r.deviceCode, r.name, r.loadedStep, r.checkedAt);
  }

  /** Adding at most one sound, new approval. */
  ghost predicate ApprovalsGrow(w: World, w': World) {
    w'.approvals != w.approvals ==>
      && |w'.approvals| == |w.approvals| + 1 && w.approvals <= w'.approvals
      && var a := w'.approvals[|w.approvals|];
         ApprovalOk(w', a) && forall b | b in w.approvals :: b.deviceCode != a.deviceCode
  }

  /** Adding at most one sound redemption, loaded before any earlier deletion of its code. */
  ghost predicate RedemptionsGrow(w: World, w': World) {
    w'.redemptions != w.redemptions ==>
      && |w'.redemptions| == |w.redemptions| + 1 && w.redemptions <= w'.redemptions
      && var r := w'.redemptions[|w.redemptions|];
         && RedemptionOk(w', r) && r.deletedStep == w.steps
         && LoadedBeforeDeletes(w, r.deviceCode, r.loadedStep)
  }

  lemma ApprovalsRemain(w: World, w': World)
    requires ApprovalsOk(w) && Extends(w, w') && ApprovalsGrow(w, w')
    ensures ApprovalsOk(w')
  {
    PrefixMembers(w.claims, w'.claims);
    forall i | 0 <= i < |w.approvals|
      ensures w'.approvals[i] == w.approvals[i] && w.approvals[i] in w.approvals && ApprovalOk(w', w.approvals[i])
    {
    }
  }

  lemma RedemptionsRemain(w: World, w': World)
    requires RedemptionsOk(w) && Extends(w, w') && RedemptionsGrow(w, w')
    requires forall r | r in w.redemptions :: r.deviceCode !in w'.entries
    ensures RedemptionsOk(w')
  {
    forall i | 0 <= i < |w.redemptions|
      ensures w'.redemptions[i] == w.redemptions[i] && w.redemptions[i] in w.redemptions
      ensures RedemptionOk(w', w.redemptions[i]) && w.redemptions[i].deletedStep < w.steps
    {
      RedemptionRemains(w, w', w.redemptions[i]);
    }
  }

  /** The invariant after a step of handler `p`, from what that step itself has to show. */
  lemma StepByHandler(accounts: set<string>, w: World, w': World, p: nat)
    requires Inv(accounts, w) && Extends(w, w') && CodesDistinct(accounts, w') && OneHolder(w') && RequestsOk(w')
    requires forall k | k in w'.entries ::
               (k in w.entries && w'.entries[k] == w.entries[k]) || EntryOk(accounts, w', k, w'.entries[k])
    requires forall q | q in w'.handlers && q != p :: q in w.handlers && w'.handlers[q] == w.handlers[q]
    requires forall q | q in w.handlers && q != p ::
               w.handlers[q].CheckingUserCode? || w.handlers[q].StampingDevice? ==> w.handlers[q].deviceCode !in w'.requests
    requires p in w'.handlers ==> HandlerOk(accounts, w', p, w'.handlers[p])
    requires ApprovalsGrow(w, w') && RedemptionsGrow(w, w')
    requires forall r | r in w.redemptions :: r.deviceCode !in w'.entries
    ensures Inv(accounts, w')
  {
    forall k | k in w'.entries
      ensures EntryOk(accounts, w', k, w'.entries[k])
    {
      if k in w.entries && w'.entries[k] == w.entries[k] {
        EntryRemains(accounts, w, w', k);
      }
    }
    forall q | q in w'.handlers
      ensures HandlerOk(accounts, w', q, w'.handlers[q])
    {
      if q != p {
        HandlerRemains(accounts, w, w', q, w.handlers[q]);
      }
    }
    ApprovalsRemain(w, w');
    RedemptionsRemain(w, w');
  }

  /** A step that touches neither the map nor the history, and moves at most handler `p`, to a stage that is in order. */
  lemma QuietStep(accounts: set<string>, w: World, w': World, p: nat)
    requires Inv(accounts, w) && p in w'.handlers
    requires w' == w.(handlers := w.handlers[p := w'.handlers[p]], clock := w'.clock, steps := w'.steps)
    requires w.clock <= w'.clock && w.steps <= w'.steps
    requires p in w.handlers && w.handlers[p].Finished? ==> w'.handlers[p] == w.handlers[p]
    requires HandlerOk(accounts, w', p, w'.handlers[p])
    requires var code := DeviceCodeOf(w'.handlers[p]);
             code != None ==> p in w.handlers && DeviceCodeOf(w.handlers[p]) == code
    ensures Inv(accounts, w') && Extends(w, w')
  {
    HoldersRemain(w, w');
    forall q | q in w.handlers && (w.handlers[q].CheckingUserCode? || w.handlers[q].StampingDevice?)
      ensures w.handlers[q].deviceCode !in w'.requests
    {
      assert HandlerOk(accounts, w, q, w.handlers[q]);
    }
    StepByHandler(accounts, w, w', p);
  }

  lemma ClaimHolds(w: World, c: Claim) returns (i: nat)
    requires c in w.claims
    ensures i < |w.claims| && w.claims[i] == c && Holds(w, Claimant(i), c.deviceCode)
  {
    i :| 0 <= i < |w.claims| && w.claims[i] == c;
  }

  /** While an approver still works on a device code, nobody has approved or redeemed that code. */
  lemma ClaimantIsFirst(accounts: set<string>, w: World, p: nat, deviceCode: string)
    requires Inv(accounts, w) && p in w.handlers && !w.handlers[p].Finished? && Claim(deviceCode, p) in w.claims
    ensures forall a | a in w.approvals :: a.deviceCode != deviceCode
    ensures forall r | r in w.redemptions :: r.deviceCode != deviceCode
  {
    var c := ClaimHolds(w, Claim(deviceCode, p));
    forall a | a in w.approvals
      ensures a.deviceCode != deviceCode
    {
      var d := ClaimHolds(w, Claim(a.deviceCode, a.pid));
    }
  }

  /** Nobody has redeemed a device code whose request has yet to store its user-code entry. */
  lemma RequesterIsFirst(accounts: set<string>, w: World, p: nat, deviceCode: string)
    requires Inv(accounts, w) && Holds(w, Requester(p), deviceCode)
    ensures forall r | r in w.redemptions :: r.deviceCode != deviceCode
  {
    forall r | r in w.redemptions
      ensures r.deviceCode != deviceCode
    {
      var a :| a in w.approvals && a.deviceCode == r.deviceCode;
      var d := ClaimHolds(w, Claim(a.deviceCode, a.pid));
    }
  }

  /** Requests that have yet to stamp their device code have codes of their own. */
  lemma OtherRequesters(w: World, p: nat)
    requires OneHolder(w) && p in w.handlers && w.handlers[p].StampingDevice?
    ensures forall q | q in w.handlers && q != p && (w.handlers[q].CheckingUserCode? || w.handlers[q].StampingDevice?) ::
              w.handlers[q].deviceCode != w.handlers[p].deviceCode
  {
    assert Holds(w, Requester(p), w.handlers[p].deviceCode);
    forall q | q in w.handlers && q != p && (w.handlers[q].CheckingUserCode? || w.handlers[q].StampingDevice?)
      ensures w.handlers[q].deviceCode != w.handlers[p].deviceCode
    {
      assert Holds(w, Requester(q), w.handlers[q].deviceCode);
    }
  }

  lemma StampingDeviceInv(accounts: set<string>, w: World, p: nat)
    requires Inv(accounts, w) && p in w.handlers && w.handlers[p].StampingDevice?
    ensures Inv(accounts, MoveHandler(w, p)) && Extends(w, MoveHandler(w, p))
  {
    var w' := MoveHandler(w, p);
    HoldersRemain(w, w');
    OtherRequesters(w, p);
    StepByHandler(accounts, w, w', p);
  }

  lemma StoringDeviceInv(accounts: set<string>, w: World, p: nat)
    requires Inv(accounts, w) && p in w.handlers && w.handlers[p].StoringDevice?
    ensures Inv(accounts, MoveHandler(w, p)) && Extends(w, MoveHandler(w, p))
  {
    var w' := MoveHandler(w, p);
    RequesterIsFirst(accounts, w, p, w.handlers[p].deviceCode);
    HoldersRemain(w, w');
    StepByHandler(accounts, w, w', p);
  }

  lemma StoringUserInv(accounts: set<string>, w: World, p: nat)
    requires Inv(accounts, w) && p in w.handlers && w.handlers[p].StoringUser?
    ensures Inv(accounts, MoveHandler(w, p)) && Extends(w, MoveHandler(w, p))
  {
    StoredHolders(w, p);
    StepByHandler(accounts, w, MoveHandler(w, p), p);
  }

  /** The entry takes the place of the request that stored it. */
  lemma StoredHolders(w: World, p: nat)
    requires OneHolder(w) && p in w.handlers && w.handlers[p].StoringUser?
    requires w.handlers[p].user.userName == w.handlers[p].deviceCode
    ensures OneHolder(MoveHandler(w, p))
  {
    var userCode := w.handlers[p].userCode;
    HoldersTraceBack(w, MoveHandler(w, p), h => if h == UserCodeEntry(userCode) then Requester(p) else h);
  }

  lemma TakingUserCodeInv(accounts: set<string>, w: World, p: nat)
    requires Inv(accounts, w) && p in w.handlers && w.handlers[p].TakingUserCode?
    ensures Inv(accounts, MoveHandler(w, p)) && Extends(w, MoveHandler(w, p))
  {
    if w.handlers[p].userCode in w.entries {
      TakenUserCodeInv(accounts, w, p);
    } else {
      QuietStep(accounts, w, MoveHandler(w, p), p);
    }
  }

  lemma TakenUserCodeInv(accounts: set<string>, w: World, p: nat)
    requires Inv(accounts, w) && p in w.handlers && w.handlers[p].TakingUserCode?
    requires w.handlers[p].userCode in w.entries
    ensures Inv(accounts, MoveHandler(w, p)) && Extends(w, MoveHandler(w, p))
  {
    TakenHolders(w, p);
    StepByHandler(accounts, w, MoveHandler(w, p), p);
  }

  /** The claim of the approver takes the place of the entry it took out. */
  lemma TakenHolders(w: World, p: nat)
    requires OneHolder(w) && p in w.handlers && w.handlers[p].TakingUserCode? && w.handlers[p].userCode in w.entries
    ensures OneHolder(MoveHandler(w, p))
  {
    var userCode := w.handlers[p].userCode;
    HoldersTraceBack(w, MoveHandler(w, p), h => if h == Claimant(|w.claims|) then UserCodeEntry(userCode) else h);
  }

  lemma LoadingDeviceInv(accounts: set<string>, w: World, p: nat)
    requires Inv(accounts, w) && p in w.handlers && w.handlers[p].LoadingDevice?
    ensures Inv(accounts, MoveHandler(w, p)) && Extends(w, MoveHandler(w, p))
  {
    var deviceCode := w.handlers[p].taken.userName;
    if deviceCode in w.entries {
      ClaimantIsFirst(accounts, w, p, deviceCode);
    }
    QuietStep(accounts, w, MoveHandler(w, p), p);
  }

  lemma StoringSigninInv(accounts: set<string>, w: World, p: nat)
    requires Inv(accounts, w) && p in w.handlers && w.handlers[p].StoringSignin?
    ensures Inv(accounts, MoveHandler(w, p)) && Extends(w, MoveHandler(w, p))
  {
    var w' := MoveHandler(w, p);
    var deviceCode := w.handlers[p].taken.userName;
    assert HandlerOk(accounts, w, p, w.handlers[p]);
    ClaimantIsFirst(accounts, w, p, deviceCode);
    HoldersRemain(w, w');
    assert Extends(w, w');
    StepByHandler(accounts, w, w', p);
  }

  lemma CheckingInv(accounts: set<string>, w: World, p: nat)
    requires Inv(accounts, w) && p in w.handlers
    requires w.handlers[p].CheckingUserCode? || w.handlers[p].StampingUser? || w.handlers[p].CheckingTaken?
    ensures Inv(accounts, MoveHandler(w, p)) && Extends(w, MoveHandler(w, p))
  {
    QuietStep(accounts, w, MoveHandler(w, p), p);
  }

  lemma PollingInv(accounts: set<string>, w: World, p: nat)
    requires Inv(accounts, w) && p in w.handlers && w.handlers[p].Polling?
    ensures Inv(accounts, MoveHandler(w, p)) && Extends(w, MoveHandler(w, p))
  {
    QuietStep(accounts, w, MoveHandler(w, p), p);
  }

  lemma CheckingLoadedInv(accounts: set<string>, w: World, p: nat)
    requires Inv(accounts, w) && p in w.handlers && w.handlers[p].CheckingLoaded?
    ensures Inv(accounts, MoveHandler(w, p)) && Extends(w, MoveHandler(w, p))
  {
    var h := w.handlers[p];
    assert HandlerOk(accounts, w, p, h);
    QuietStep(accounts, w, MoveHandler(w, p), p);
  }

  /** The redemption that a deletion records is backed by the approval that was loaded. */
  lemma DeletingRedeems(accounts: set<string>, w: World, p: nat)
    requires p in w.handlers && w.handlers[p].Deleting? && HandlerOk(accounts, w, p, w.handlers[p])
    ensures Extends(w, MoveHandler(w, p)) && RedemptionsGrow(w, MoveHandler(w, p))
  {
    var w', h := MoveHandler(w, p), w.handlers[p];
    BackedRemains(w, w', h.deviceCode, h.loaded.userName, h.loadedStep, h.checkedAt);
  }

  lemma DeletingInv(accounts: set<string>, w: World, p: nat)
    requires Inv(accounts, w) && p in w.handlers && w.handlers[p].Deleting?
    ensures Inv(accounts, MoveHandler(w, p)) && Extends(w, MoveHandler(w, p))
  {
    var w' := MoveHandler(w, p);
    assert HandlerOk(accounts, w, p, w.handlers[p]);
    HoldersRemain(w, w');
    DeletingRedeems(accounts, w, p);
    StepByHandler(accounts, w, w', p);
  }

  lemma TickInv(accounts: set<string>, w: World, seconds: nat)
    requires Inv(accounts, w)
    ensures Inv(accounts, Apply(w, Tick(seconds))) && Extends(w, Apply(w, Tick(seconds)))
  {
    var w' := Apply(w, Tick(seconds));
    HoldersRemain(w, w');
    if 0 in w.handlers {
      HandlerRemains(accounts, w, w', 0, w.handlers[0]);
    }
    StepByHandler(accounts, w, w', 0);
  }

  lemma StartInv(accounts: set<string>, w: World, p: nat, h: Handler)
    requires Inv(accounts, w) && Enabled(accounts, w, Start(p, h))
    ensures Inv(accounts, Apply(w, Start(p, h))) && Extends(w, Apply(w, Start(p, h)))
  {
    if h.CheckingUserCode? {
      StartRequestInv(accounts, w, p, h);
    } else {
      QuietStep(accounts, w, Apply(w, Start(p, h)), p);
    }
  }

  lemma StartRequestInv(accounts: set<string>, w: World, p: nat, h: Handler)
    requires Inv(accounts, w) && Enabled(accounts, w, Start(p, h)) && h.CheckingUserCode?
    ensures Inv(accounts, Apply(w, Start(p, h))) && Extends(w, Apply(w, Start(p, h)))
  {
    var w' := Apply(w, Start(p, h));
    forall a, b, d | Holds(w', a, d) && Holds(w', b, d)
      ensures a == b
    {
      if d in w.issued {
        assert Holds(w, a, d) && Holds(w, b, d);
      }
    }
    StepByHandler(accounts, w, w', p);
  }

  lemma StepInv(accounts: set<string>, w: World, step: Step)
    requires Inv(accounts, w) && Enabled(accounts, w, step)
    ensures Inv(accounts, Apply(w, step)) && Extends(w, Apply(w, step))
  {
    match step
    case Start(p, h) => StartInv(accounts, w, p, h);
    case Tick(seconds) => TickInv(accounts, w, seconds);
    case Move(p) =>
      match w.handlers[p]
      case StampingDevice(_, _, _, _) => StampingDeviceInv(accounts, w, p);
      case StoringDevice(_, _, _, _) => StoringDeviceInv(accounts, w, p);
      case StoringUser(_, _, _) => StoringUserInv(accounts, w, p);
      case TakingUserCode(_, _) => TakingUserCodeInv(accounts, w, p);
      case LoadingDevice(_, _, _) => LoadingDeviceInv(accounts, w, p);
      case StoringSignin(_, _, _, _) => StoringSigninInv(accounts, w, p);
      case Deleting(_, _, _, _) => DeletingInv(accounts, w, p);
      case CheckingLoaded(_, _, _) => CheckingLoadedInv(accounts, w, p);
      case Polling(_) => PollingInv(accounts, w, p);
      case CheckingUserCode(_, _, _, _, _) => CheckingInv(accounts, w, p);
      case StampingUser(_, _, _) => CheckingInv(accounts, w, p);
      case CheckingTaken(_, _) => CheckingInv(accounts, w, p);
      case Finished(_) => assert false;
  }
}
