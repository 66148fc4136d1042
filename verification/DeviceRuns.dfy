/** What holds in every run of the device flow, however the steps of its handlers interleave. */
module DeviceRuns {
  import opened DeviceFlow
  import opened Wrappers

  lemma ExtendsTransitive(u: World, v: World, w: World)
    requires Extends(u, v) && Extends(v, w)
    ensures Extends(u, w)
  {
    PrefixMembers(u.redemptions, v.redemptions);
  }

  lemma StepOf(accounts: set<string>, run: seq<World>, i: nat) returns (step: Step)
    requires IsRun(accounts, run) && i + 1 < |run|
    ensures Enabled(accounts, run[i], step) && run[i + 1] == Apply(run[i], step)
  {
    var w, w' := run[i], run[i + 1];
    assert Next(accounts, w, w');
    step :| Enabled(accounts, w, step) && w' == Apply(w, step);
  }

  lemma {:induction false} RunInvAt(accounts: set<string>, run: seq<World>, i: nat)
    requires IsRun(accounts, run) && i < |run|
    ensures Inv(accounts, run[i])
  {
    if i == 0 {
      InitInv(accounts, run[0]);
    } else {
      RunInvAt(accounts, run, i - 1);
      var step := StepOf(accounts, run, i - 1);
      StepInv(accounts, run[i - 1], step);
    }
  }

  lemma ExtendsNext(accounts: set<string>, run: seq<World>, i: nat)
    requires IsRun(accounts, run) && i + 1 < |run|
    ensures Extends(run[i], run[i + 1])
  {
    RunInvAt(accounts, run, i);
    var step := StepOf(accounts, run, i);
    StepInv(accounts, run[i], step);
  }

  lemma ExtendsItself(w: World)
    ensures Extends(w, w)
  {
  }

  lemma {:induction false} RunExtends(accounts: set<string>, run: seq<World>, i: nat, j: nat)
    requires IsRun(accounts, run) && i <= j < |run|
    ensures Extends(run[i], run[j])
    decreases j
  {
    if i == j {
      ExtendsItself(run[i]);
    } else {
      RunExtends(accounts, run, i, j - 1);
      ExtendsNext(accounts, run, j - 1);
      ExtendsTransitive(run[i], run[j - 1], run[j]);
    }
  }

  lemma RunInv(accounts: set<string>, run: seq<World>, i: nat, j: nat)
    requires IsRun(accounts, run) && i <= j < |run|
    ensures Inv(accounts, run[i]) && Inv(accounts, run[j]) && Extends(run[i], run[j])
  {
    RunInvAt(accounts, run, i);
    RunInvAt(accounts, run, j);
    RunExtends(accounts, run, i, j);
  }

  /** Handler `p` is an approver that got past LoadAndDelete for `deviceCode` and has not finished. */
  predicate Approving(w: World, p: nat, deviceCode: string) {
    && p in w.handlers
    && (w.handlers[p].CheckingTaken? || w.handlers[p].LoadingDevice? || w.handlers[p].StoringSignin?)
    && w.handlers[p].taken.userName == deviceCode && deviceCode in w.issued
  }

  lemma ApproverHasClaim(accounts: set<string>, w: World, p: nat, deviceCode: string)
    requires Inv(accounts, w) && Approving(w, p, deviceCode)
    ensures Claim(deviceCode, p) in w.claims
  {
    assert HandlerOk(accounts, w, p, w.handlers[p]);
  }

  /** At any two moments of a run, approvers that are past LoadAndDelete for a device code are one and the same. */
  lemma OneApproverPerDeviceCode(accounts: set<string>, run: seq<World>, i: nat, j: nat, p: nat, q: nat, deviceCode: string)
    requires IsRun(accounts, run) && i <= j < |run|
    requires Approving(run[i], p, deviceCode) && Approving(run[j], q, deviceCode)
    ensures p == q
  {
    RunInv(accounts, run, i, j);
    ApproverHasClaim(accounts, run[i], p, deviceCode);
    ApproverHasClaim(accounts, run[j], q, deviceCode);
    PrefixMembers(run[i].claims, run[j].claims);
    var c :| 0 <= c < |run[j].claims| && run[j].claims[c] == Claim(deviceCode, p);
    var d :| 0 <= d < |run[j].claims| && run[j].claims[d] == Claim(deviceCode, q);
    assert Holds(run[j], Claimant(c), deviceCode) && Holds(run[j], Claimant(d), deviceCode);
  }

  /** A device code goes from pending to signed-in at most once. */
  lemma ApprovedAtMostOnce(accounts: set<string>, run: seq<World>, n: nat, i: nat, j: nat)
    requires IsRun(accounts, run) && n < |run| && i < |run[n].approvals| && j < |run[n].approvals|
    requires run[n].approvals[i].deviceCode == run[n].approvals[j].deviceCode
    ensures i == j
  {
    RunInv(accounts, run, n, n);
  }

  /** Every reply that carries a user name is a redemption of a code that this very user approved. */
  lemma RedeemedReplyIsApproved(accounts: set<string>, run: seq<World>, n: nat, p: nat, name: string)
    requires IsRun(accounts, run) && n < |run|
    requires p in run[n].handlers && run[n].handlers[p] == Finished(Redeemed(name))
    ensures exists r, a :: r in run[n].redemptions && r.pid == p && r.name == name
                           && a in run[n].approvals && a.deviceCode == r.deviceCode && a.name == name
  {
    RunInv(accounts, run, n, n);
    assert HandlerOk(accounts, run[n], p, run[n].handlers[p]);
    var r :| r in run[n].redemptions && r.pid == p && r.name == name;
    assert Backed(run[n], r.deviceCode, r.name, r.loadedStep, r.checkedAt);
  }

  /** All redemptions of one device code give the same user name: that of its only approver. */
  lemma RedemptionsAgree(accounts: set<string>, run: seq<World>, n: nat, r: Redemption, s: Redemption)
    requires IsRun(accounts, run) && n < |run| && r in run[n].redemptions && s in run[n].redemptions
    requires r.deviceCode == s.deviceCode
    ensures r.name == s.name
    ensures exists i :: 0 <= i < |run[n].approvals| && run[n].approvals[i].deviceCode == r.deviceCode
                        && run[n].approvals[i].name == r.name
                        && forall a | a in run[n].approvals && a.deviceCode == r.deviceCode :: a == run[n].approvals[i]
  {
    RunInv(accounts, run, n, n);
    var i := OnlyApproval(run[n], r);
    var j := OnlyApproval(run[n], s);
    assert run[n].approvals[i] in run[n].approvals && run[n].approvals[j] in run[n].approvals;
  }

  /** The approval behind a redemption is the only one of its device code. */
  lemma OnlyApproval(w: World, r: Redemption) returns (i: nat)
    requires ApprovalsOk(w) && RedemptionsOk(w) && r in w.redemptions
    ensures i < |w.approvals| && w.approvals[i].deviceCode == r.deviceCode && w.approvals[i].name == r.name
    ensures forall a | a in w.approvals && a.deviceCode == r.deviceCode :: a == w.approvals[i]
  {
    assert RedemptionOk(w, r);
    var a :| a in w.approvals && a.deviceCode == r.deviceCode && a.name == r.name;
    i :| 0 <= i < |w.approvals| && w.approvals[i] == a;
  }

  /** No later step puts back a device code that a redemption deleted. */
  lemma RedeemedStaysDeleted(accounts: set<string>, run: seq<World>, i: nat, j: nat, r: Redemption)
    requires IsRun(accounts, run) && i <= j < |run| && r in run[i].redemptions
    ensures r.deviceCode !in run[j].entries
  {
    RunInv(accounts, run, i, j);
    PrefixMembers(run[i].redemptions, run[j].redemptions);
    assert RedemptionOk(run[j], r);
  }

  /**
    A redemption passes its check within the lifetime of the device request, after an approval that
    was itself in time; so a device code that nobody approved never yields a user name.
   */
  lemma RedeemedInTime(accounts: set<string>, run: seq<World>, n: nat, r: Redemption)
    requires IsRun(accounts, run) && n < |run| && r in run[n].redemptions
    ensures r.deviceCode in run[n].requests && r.checkedAt <= run[n].requests[r.deviceCode].requestAt + 120
    ensures exists a :: a in run[n].approvals && a.deviceCode == r.deviceCode && a.name == r.name
                        && a.checkedAt <= a.userRequestAt + 120
                        && a.checkedAt <= a.storedAt <= r.checkedAt && a.step < r.loadedStep
  {
    RunInv(accounts, run, n, n);
    var a :| a in run[n].approvals && a.deviceCode == r.deviceCode && a.name == r.name
             && a.step < r.loadedStep && a.storedAt <= r.checkedAt;
    assert ApprovalOk(run[n], a);
  }

  // ---------- How often a code is redeemed ----------

  /** The second of two redemptions loaded its entry before the first one deleted it. */
  predicate Overlap(r: Redemption, s: Redemption) {
    s.loadedStep < r.deletedStep && r.loadedStep < s.deletedStep
  }

  /** Any two redemptions of a code overlap: each loaded the entry before the other deleted it. */
  lemma RedemptionsOverlap(accounts: set<string>, run: seq<World>, n: nat, i: nat, j: nat)
    requires IsRun(accounts, run) && n < |run| && i < j < |run[n].redemptions|
    requires run[n].redemptions[i].deviceCode == run[n].redemptions[j].deviceCode
    ensures Overlap(run[n].redemptions[i], run[n].redemptions[j])
  {
    RunInv(accounts, run, n, n);
    var r, s := run[n].redemptions[i], run[n].redemptions[j];
    assert r in run[n].redemptions && s in run[n].redemptions;
    assert RedemptionOk(run[n], r) && RedemptionOk(run[n], s);
  }

  /** Handler `p` has loaded the signed-in entry of `deviceCode` and has yet to delete it. */
  predicate Redeeming(w: World, p: nat, deviceCode: string) {
    && p in w.handlers
    && (w.handlers[p].CheckingLoaded? || w.handlers[p].Deleting?) && w.handlers[p].deviceCode == deviceCode
  }

  ghost predicate OneRedeemer(w: World, deviceCode: string) {
    forall p, q :: Redeeming(w, p, deviceCode) && Redeeming(w, q, deviceCode) ==> p == q
  }

  ghost predicate RedeemedAtMostOnce(w: World, deviceCode: string) {
    && (forall i, j :: 0 <= i < j < |w.redemptions| && w.redemptions[i].deviceCode == deviceCode
                       ==> w.redemptions[j].deviceCode != deviceCode)
    && forall r, p :: r in w.redemptions && r.deviceCode == deviceCode ==> !Redeeming(w, p, deviceCode)
  }

  lemma RunRedemptions(accounts: set<string>, run: seq<World>, n: nat)
    requires IsRun(accounts, run) && n < |run|
    ensures RedemptionsOk(run[n])
  {
    RunInv(accounts, run, n, n);
  }

  /** Were a poll one atomic step, so that two polls of a code never overlap, the code would be redeemed at most once. */
  lemma {:induction false} AtomicPollsRedeemOnce(accounts: set<string>, run: seq<World>, n: nat, deviceCode: string)
    requires IsRun(accounts, run) && n < |run|
    requires forall k :: 0 <= k < |run| ==> OneRedeemer(run[k], deviceCode)
    ensures RedeemedAtMostOnce(run[n], deviceCode)
  {
    if n > 0 {
      AtomicPollsRedeemOnce(accounts, run, n - 1, deviceCode);
      RunRedemptions(accounts, run, n - 1);
      var step := StepOf(accounts, run, n - 1);
      AtomicStep(accounts, run[n - 1], step, deviceCode);
    }
  }

  lemma WhoRedeems(accounts: set<string>, w: World, step: Step, p: nat, deviceCode: string)
    requires Enabled(accounts, w, step) && Redeeming(Apply(w, step), p, deviceCode)
    ensures Redeeming(w, p, deviceCode) || (step == Move(p) && deviceCode in w.entries)
    ensures step == Move(p) ==> !w.handlers[p].Deleting?
  {
    if step == Move(p) {
      MoverRedeems(w, p, deviceCode);
    } else {
      assert Redeeming(w, p, deviceCode);
    }
  }

  lemma MoverRedeems(w: World, p: nat, deviceCode: string)
    requires p in w.handlers && Redeeming(MoveHandler(w, p), p, deviceCode)
    ensures Redeeming(w, p, deviceCode) || deviceCode in w.entries
    ensures !w.handlers[p].Deleting?
  {
  }

  lemma WhatIsRedeemed(accounts: set<string>, w: World, step: Step)
    requires Enabled(accounts, w, step)
    ensures Apply(w, step).redemptions == w.redemptions
            || (step.Move? && w.handlers[step.pid].Deleting?
                && exists r: Redemption :: r.deviceCode == w.handlers[step.pid].deviceCode
                               && Apply(w, step).redemptions == w.redemptions + [r])
  {
    if step.Move? && w.handlers[step.pid].Deleting? {
      var r := Apply(w, step).redemptions[|w.redemptions|];
      assert Apply(w, step).redemptions == w.redemptions + [r];
    }
  }

  lemma AtomicStep(accounts: set<string>, w: World, step: Step, deviceCode: string)
    requires RedemptionsOk(w) && Enabled(accounts, w, step) && OneRedeemer(w, deviceCode)
    requires RedeemedAtMostOnce(w, deviceCode)
    ensures RedeemedAtMostOnce(Apply(w, step), deviceCode)
  {
    var w' := Apply(w, step);
    WhatIsRedeemed(accounts, w, step);
    assert forall i :: 0 <= i < |w.redemptions| ==> w.redemptions[i] in w.redemptions;
    if step.Move? && Redeeming(w, step.pid, deviceCode) && w'.redemptions != w.redemptions {
      assert forall i :: 0 <= i < |w.redemptions| ==> w.redemptions[i].deviceCode != deviceCode;
    }
    forall r, p | r in w'.redemptions && r.deviceCode == deviceCode
      ensures !Redeeming(w', p, deviceCode)
    {
      assert r in w.redemptions ==> RedemptionOk(w, r);
      assert r !in w.redemptions ==> step.Move? && Redeeming(w, step.pid, deviceCode);
      if Redeeming(w', p, deviceCode) {
        WhoRedeems(accounts, w, step, p, deviceCode);
        assert false;
      }
    }
  }

  ghost predicate Reachable(accounts: set<string>, w: World) {
    exists run: seq<World> :: IsRun(accounts, run) && run[|run| - 1] == w
  }

  lemma Reach(accounts: set<string>, w: World, step: Step) returns (w': World)
    requires Reachable(accounts, w) && Enabled(accounts, w, step)
    ensures w' == Apply(w, step) && Reachable(accounts, w')
  {
    w' := Apply(w, step);
    var run: seq<World> :| IsRun(accounts, run) && run[|run| - 1] == w;
    var longer := run + [w'];
    assert Next(accounts, w, w');
    forall i, j | 0 <= i && j == i + 1 < |longer|
      ensures Next(accounts, longer[i], longer[j])
    {
      if j < |run| {
        assert Next(accounts, run[i], run[j]);
      }
    }
    assert IsRun(accounts, longer) && longer[|longer| - 1] == w';
  }

  /** Account names, and two codes that are neither account names nor equal. */
  predicate Names(accounts: set<string>, deviceCode: string, userCode: string) {
    "" !in accounts + {deviceCode, userCode} && deviceCode !in accounts && userCode !in accounts && deviceCode != userCode
  }

  /** A world at time 0 in which nobody has redeemed anything; only handlers below `n` have started. */
  ghost predicate UpTo(accounts: set<string>, w: World, n: nat) {
    Reachable(accounts, w) && w.clock == 0 && w.redemptions == [] && forall p | p in w.handlers :: p < n
  }

  lemma CheckCode(accounts: set<string>, user: Entry, userCode: string) returns (w: World)
    requires Names(accounts, user.userName, userCode)
    ensures UpTo(accounts, w, 1) && w.entries == map[]
    ensures 0 in w.handlers && w.handlers[0] == StampingDevice(user.userName, userCode, user.scope, user.applicationId)
  {
    w := World(map[], map[], 0, 0, {}, {}, map[], [], [], []);
    assert IsRun(accounts, [w]) && [w][|[w]| - 1] == w;
    w := Reach(accounts, w, Start(0, CheckingUserCode(user.userName, userCode, user.scope, user.applicationId, 0)));
    w := Reach(accounts, w, Move(0));
  }

  lemma StampCodes(accounts: set<string>, device: Entry, user: Entry, userCode: string) returns (w: World)
    requires Names(accounts, user.userName, userCode)
    requires device == Entry(false, "", user.scope, user.applicationId, 0) && user == device.(userName := user.userName)
    ensures UpTo(accounts, w, 1) && w.entries == map[]
    ensures 0 in w.handlers && w.handlers[0] == StoringDevice(user.userName, userCode, device, user)
  {
    w := CheckCode(accounts, user, userCode);
    w := Reach(accounts, w, Move(0));
    w := Reach(accounts, w, Move(0));
  }

  lemma IssueCodes(accounts: set<string>, device: Entry, user: Entry, userCode: string) returns (w: World)
    requires Names(accounts, user.userName, userCode)
    requires device == Entry(false, "", user.scope, user.applicationId, 0) && user == device.(userName := user.userName)
    ensures UpTo(accounts, w, 1) && w.entries == map[user.userName := device, userCode := user]
  {
    w := StampCodes(accounts, device, user, userCode);
    w := Reach(accounts, w, Move(0));
    w := Reach(accounts, w, Move(0));
  }

  lemma TakeCode(accounts: set<string>, name: string, device: Entry, user: Entry, userCode: string) returns (w: World)
    requires Names(accounts, user.userName, userCode) && name in accounts
    requires device == Entry(false, "", user.scope, user.applicationId, 0) && user == device.(userName := user.userName)
    ensures UpTo(accounts, w, 2) && w.entries == map[user.userName := device]
    ensures 1 in w.handlers && w.handlers[1] == CheckingTaken(user, name)
  {
    w := IssueCodes(accounts, device, user, userCode);
    w := Reach(accounts, w, Start(1, TakingUserCode(userCode, name)));
    w := Reach(accounts, w, Move(1));
  }

  lemma ApproveCode(accounts: set<string>, name: string, device: Entry, user: Entry, userCode: string) returns (w: World)
    requires Names(accounts, user.userName, userCode) && name in accounts
    requires device == Entry(false, "", user.scope, user.applicationId, 0) && user == device.(userName := user.userName)
    ensures UpTo(accounts, w, 2) && w.entries == map[user.userName := device.(signedIn := true, userName := name)]
  {
    w := TakeCode(accounts, name, device, user, userCode);
    w := Reach(accounts, w, Move(1));
    w := Reach(accounts, w, Move(1));
    w := Reach(accounts, w, Move(1));
  }

  /** A poll of a code that was approved at once redeems it for 120 seconds, and from then on it has expired. */
  lemma PollAfterWait(accounts: set<string>, name: string, deviceCode: string, userCode: string, wait: nat) returns (w: World)
    requires Names(accounts, deviceCode, userCode) && name in accounts
    ensures Reachable(accounts, w) && w.clock == wait && 2 in w.handlers
    ensures w.handlers[2] == Finished(if wait <= 120 then Redeemed(name) else TokenExpired)
  {
    var device := Entry(false, "", "", "", 0);
    w := ApproveCode(accounts, name, device, device.(userName := deviceCode), userCode);
    w := Reach(accounts, w, Tick(wait));
    w := Reach(accounts, w, Start(2, Polling(deviceCode)));
    w := Reach(accounts, w, Move(2));
    w := Reach(accounts, w, Move(2));
    if wait <= 120 {
      w := Reach(accounts, w, Move(2));
    }
  }

  /** Handler `p` has loaded the entry of a device code, and has checked it or can still check it in time. */
  predicate CanRedeem(w: World, p: nat, deviceCode: string) {
    && Redeeming(w, p, deviceCode)
    && (w.handlers[p].CheckingLoaded? ==> !w.handlers[p].loaded.Expired(w.clock))
  }

  lemma LoadTwice(accounts: set<string>, deviceCode: string, w: World) returns (w': World)
    requires UpTo(accounts, w, 2) && deviceCode in w.entries && deviceCode != ""
    requires w.entries[deviceCode].signedIn && !w.entries[deviceCode].Expired(w.clock)
    ensures UpTo(accounts, w', 4) && CanRedeem(w', 2, deviceCode) && CanRedeem(w', 3, deviceCode)
  {
    w' := Reach(accounts, w, Start(2, Polling(deviceCode)));
    w' := Reach(accounts, w', Start(3, Polling(deviceCode)));
    w' := Reach(accounts, w', Move(2));
    w' := Reach(accounts, w', Move(3));
  }

  /** A handler that can redeem does so in one or two steps, whatever the others have done. */
  lemma RedeemLoaded(accounts: set<string>, w: World, p: nat, deviceCode: string) returns (w': World)
    requires Reachable(accounts, w) && CanRedeem(w, p, deviceCode)
    ensures Reachable(accounts, w') && w'.clock == w.clock
    ensures forall q | q in w.handlers && q != p :: q in w'.handlers && w'.handlers[q] == w.handlers[q]
    ensures exists r: Redemption :: r.deviceCode == deviceCode && w'.redemptions == w.redemptions + [r]
  {
    w' := w;
    if w.handlers[p].CheckingLoaded? {
      w' := Reach(accounts, w', Move(p));
    }
    w' := DeleteLoaded(accounts, w', p);
  }

  lemma DeleteLoaded(accounts: set<string>, w: World, p: nat) returns (w': World)
    requires Reachable(accounts, w) && p in w.handlers && w.handlers[p].Deleting?
    ensures Reachable(accounts, w') && w'.clock == w.clock
    ensures forall q | q in w.handlers && q != p :: q in w'.handlers && w'.handlers[q] == w.handlers[q]
    ensures exists r: Redemption :: r.deviceCode == w.handlers[p].deviceCode && w'.redemptions == w.redemptions + [r]
  {
    w' := Reach(accounts, w, Move(p));
    assert w'.redemptions[|w.redemptions|].deviceCode == w.handlers[p].deviceCode;
  }

  /** Wherever two polls of a code can redeem at the same time, the run can go on so that both do. */
  lemma TwoRedeemersRedeemTwice(accounts: set<string>, w: World, p: nat, q: nat, deviceCode: string)
      returns (w': World)
    requires Reachable(accounts, w) && p != q && CanRedeem(w, p, deviceCode) && CanRedeem(w, q, deviceCode)
    ensures Reachable(accounts, w')
    ensures exists r: Redemption, s: Redemption ::
              r.deviceCode == s.deviceCode == deviceCode && w'.redemptions == w.redemptions + [r, s]
  {
    w' := RedeemLoaded(accounts, w, p, deviceCode);
    var r: Redemption :| r.deviceCode == deviceCode && w'.redemptions == w.redemptions + [r];
    assert CanRedeem(w', q, deviceCode);
    w' := RedeemLoaded(accounts, w', q, deviceCode);
    var s: Redemption :| s.deviceCode == deviceCode && w'.redemptions == (w.redemptions + [r]) + [s];
    assert (w.redemptions + [r]) + [s] == w.redemptions + [r, s];
  }

  /** Whatever the accounts and codes, there is a run in which two polls both load before either deletes, and redeem twice. */
  lemma OverlappingPollsRedeemTwice(accounts: set<string>, name: string, deviceCode: string, userCode: string)
      returns (w: World)
    requires Names(accounts, deviceCode, userCode) && name in accounts
    ensures Reachable(accounts, w)
    ensures |w.redemptions| == 2 && w.redemptions[0].deviceCode == w.redemptions[1].deviceCode == deviceCode
  {
    var device := Entry(false, "", "openid", "app", 0);
    w := ApproveCode(accounts, name, device, device.(userName := deviceCode), userCode);
    w := LoadTwice(accounts, deviceCode, w);
    w := TwoRedeemersRedeemTwice(accounts, w, 2, 3, deviceCode);
  }
}
