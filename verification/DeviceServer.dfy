/**
  The three request handlers of the device flow as they are written: straight-line code over the
  shared map.  Each is proved to do, when nobody interrupts it, what the steps of `DeviceFlow` do.
 */
module DeviceServer {
  import opened Wrappers
  import opened DeviceFlow

  /** A world in which one handler runs alone, at one instant. */
  function Alone(entries: map<string, Entry>, clock: int, h: Handler): World {
    World(entries, map[0 := h], clock, 0, {}, {}, map[], [], [], [])
  }

  /** How many steps a handler has left at most. */
  function Rank(h: Handler): nat {
    match h
    case CheckingUserCode(_, _, _, _, n) => if n > MAX_RETRIES then 5 else 5 + MAX_RETRIES + 1 - n
    case StampingDevice(_, _, _, _) => 4
    case StampingUser(_, _, _) => 3
    case StoringDevice(_, _, _, _) => 2
    case StoringUser(_, _, _) => 1
    case TakingUserCode(_, _) => 4
    case CheckingTaken(_, _) => 3
    case LoadingDevice(_, _, _) => 2
    case StoringSignin(_, _, _, _) => 1
    case Polling(_) => 3
    case CheckingLoaded(_, _, _) => 2
    case Deleting(_, _, _, _) => 1
    case Finished(_) => 0
  }

  /** The request handler comes closer to its reply with every step. */
  lemma RequestMoves(w: World, p: nat)
    requires p in w.handlers && DeviceCodeOf(w.handlers[p]).Some?
    ensures p in MoveHandler(w, p).handlers && Rank(MoveHandler(w, p).handlers[p]) < Rank(w.handlers[p])
  {
  }

  lemma ApproverMoves(w: World, p: nat)
    requires p in w.handlers
    requires var h := w.handlers[p]; h.TakingUserCode? || h.CheckingTaken? || h.LoadingDevice? || h.StoringSignin?
    ensures p in MoveHandler(w, p).handlers && Rank(MoveHandler(w, p).handlers[p]) < Rank(w.handlers[p])
  {
  }

  lemma PollMoves(w: World, p: nat)
    requires p in w.handlers
    requires var h := w.handlers[p]; h.Polling? || h.CheckingLoaded? || h.Deleting?
    ensures p in MoveHandler(w, p).handlers && Rank(MoveHandler(w, p).handlers[p]) < Rank(w.handlers[p])
  {
  }

  /** Every step brings a handler closer to its reply, so handlers finish under every interleaving. */
  lemma MovesFinish(w: World, p: nat)
    requires p in w.handlers && !w.handlers[p].Finished?
    ensures p in MoveHandler(w, p).handlers && Rank(MoveHandler(w, p).handlers[p]) < Rank(w.handlers[p])
  {
    var h := w.handlers[p];
    if DeviceCodeOf(h).Some? {
      RequestMoves(w, p);
    } else if h.Polling? || h.CheckingLoaded? || h.Deleting? {
      PollMoves(w, p);
    } else {
      ApproverMoves(w, p);
    }
  }

  ghost function Complete(w: World): (done: World)
    requires 0 in w.handlers
    ensures 0 in done.handlers && done.handlers[0].Finished?
    decreases Rank(w.handlers[0])
  {
    if w.handlers[0].Finished? then w
    else
      MovesFinish(w, 0);
      Complete(MoveHandler(w, 0))
  }

  /** What handler `h` leaves in the map and replies. */
  ghost function Effect(entries: map<string, Entry>, clock: int, h: Handler): (map<string, Entry>, Reply) {
    var done := Complete(Alone(entries, clock, h));
    (done.entries, done.handlers[0].reply)
  }

  lemma CompleteStep(w: World)
    requires 0 in w.handlers && !w.handlers[0].Finished?
    ensures 0 in MoveHandler(w, 0).handlers && Complete(w) == Complete(MoveHandler(w, 0))
  {
    MovesFinish(w, 0);
  }

  /** The retry loop looks at the same user code again and again, so alone it gives up when that code is taken. */
  lemma {:induction false} TakenUserCode(w: World, userCode: string)
    requires 0 in w.handlers && w.handlers[0].CheckingUserCode? && w.handlers[0].userCode == userCode
    requires userCode in w.entries
    ensures Complete(w).entries == w.entries && Complete(w).handlers[0] == Finished(UserCodeNotGenerated)
    decreases Rank(w.handlers[0])
  {
    CompleteStep(w);
    if w.handlers[0].generateTime <= MAX_RETRIES {
      TakenUserCode(MoveHandler(w, 0), userCode);
    }
  }

  /** It looks six times: so often it can find the code in the map, and only then it gives up. */
  lemma LooksSixTimes(w: World, n: nat)
    requires 0 in w.handlers && w.handlers[0].CheckingUserCode? && w.handlers[0].generateTime == n
    requires w.handlers[0].userCode in w.entries
    ensures 0 in MoveHandler(w, 0).handlers
    ensures if n < 6 then MoveHandler(w, 0).handlers[0] == w.handlers[0].(generateTime := n + 1)
            else MoveHandler(w, 0).handlers[0] == Finished(UserCodeNotGenerated)
  {
  }

  lemma EffectOfDeviceAuth(entries: map<string, Entry>, clock: int, deviceCode: string, userCode: string, scope: string, app: string)
    ensures Effect(entries, clock, CheckingUserCode(deviceCode, userCode, scope, app, 0)) ==
            if userCode in entries then (entries, UserCodeNotGenerated)
            else (entries[deviceCode := Entry(false, "", scope, app, clock)][userCode := Entry(false, deviceCode, scope, app, clock)],
                  Issued)
  {
    var w0 := Alone(entries, clock, CheckingUserCode(deviceCode, userCode, scope, app, 0));
    if userCode in entries {
      TakenUserCode(w0, userCode);
    } else {
      CompleteStep(w0);
      var w1 := MoveHandler(w0, 0);
      CompleteStep(w1);
      var w2 := MoveHandler(w1, 0);
      CompleteStep(w2);
      var w3 := MoveHandler(w2, 0);
      CompleteStep(w3);
      var w4 := MoveHandler(w3, 0);
      CompleteStep(w4);
    }
  }

  lemma EffectOfApprove(entries: map<string, Entry>, clock: int, userCode: string, name: string)
    ensures Effect(entries, clock, TakingUserCode(userCode, name)) ==
            if userCode !in entries then (entries, UserCodeExpired)
            else
              var rest := entries - {userCode};
              var target := entries[userCode].userName;
              if entries[userCode].Expired(clock) then (rest, UserCodeExpired)
              else if target !in rest then (rest, DeviceCodeInvalid)
              else (rest[target := rest[target].(userName := name, signedIn := true)], Approved)
  {
    var w0 := Alone(entries, clock, TakingUserCode(userCode, name));
    CompleteStep(w0);
    if userCode in entries {
      var w1 := MoveHandler(w0, 0);
      CompleteStep(w1);
      if !entries[userCode].Expired(clock) {
        var w2 := MoveHandler(w1, 0);
        CompleteStep(w2);
        if entries[userCode].userName in w2.entries {
          var w3 := MoveHandler(w2, 0);
          CompleteStep(w3);
        }
      }
    }
  }

  lemma EffectOfRedeem(entries: map<string, Entry>, clock: int, deviceCode: string)
    ensures Effect(entries, clock, Polling(deviceCode)) ==
            if deviceCode !in entries then (entries, TokenExpired)
            else if !entries[deviceCode].signedIn then (entries, AuthorizationPending)
            else if entries[deviceCode].Expired(clock) then (entries, TokenExpired)
            else (entries - {deviceCode}, Redeemed(entries[deviceCode].userName))
  {
    var w0 := Alone(entries, clock, Polling(deviceCode));
    CompleteStep(w0);
    if deviceCode in entries && entries[deviceCode].signedIn {
      var w1 := MoveHandler(w0, 0);
      CompleteStep(w1);
      if !entries[deviceCode].Expired(clock) {
        var w2 := MoveHandler(w1, 0);
        CompleteStep(w2);
      }
    }
  }

  /**
    Request at `t0`, approval at `t1`, poll at `t2`, and a second poll: the first poll yields the
    approver's name exactly when it comes within the lifetime, and then the map is as it was before.
   */
  lemma SignInRoundTrip(entries: map<string, Entry>, t0: int, t1: int, t2: int, t3: int,
                        deviceCode: string, userCode: string, scope: string, app: string, name: string)
    requires t0 <= t1 <= t2 <= t3 && deviceCode != userCode && deviceCode !in entries && userCode !in entries
    ensures var issued := Effect(entries, t0, CheckingUserCode(deviceCode, userCode, scope, app, 0));
            var approved := Effect(issued.0, t1, TakingUserCode(userCode, name));
            var first := Effect(approved.0, t2, Polling(deviceCode));
            var second := Effect(first.0, t3, Polling(deviceCode));
            && issued.1 == Issued
            && (approved.1 == Approved <==> t1 <= t0 + 120)
            && (first.1 == Redeemed(name) <==> t2 <= t0 + 120)
            && (first.1 == Redeemed(name) ==> first.0 == entries && second.1 == TokenExpired)
            && (approved.1 != Approved ==> first.1 == AuthorizationPending)
  {
    EffectOfDeviceAuth(entries, t0, deviceCode, userCode, scope, app);
    var issued := Effect(entries, t0, CheckingUserCode(deviceCode, userCode, scope, app, 0));
    EffectOfApprove(issued.0, t1, userCode, name);
    var approved := Effect(issued.0, t1, TakingUserCode(userCode, name));
    EffectOfRedeem(approved.0, t2, deviceCode);
    var first := Effect(approved.0, t2, Polling(deviceCode));
    EffectOfRedeem(first.0, t3, deviceCode);
    if t2 <= t0 + 120 {
      assert first.0 == entries;
    }
  }

  class Server {
    /** The shared map. */
    var entries: map<string, Entry>
    var clock: int

    method Load(key: string) returns (e: Option<Entry>)
      ensures e == if key in entries then Some(entries[key]) else None
    {
      e := if key in entries then Some(entries[key]) else None;
    }

    method Store(key: string, e: Entry)
      modifies this`entries
      ensures entries == old(entries)[key := e]
    {
      entries := entries[key := e];
    }

    method Delete(key: string)
      modifies this`entries
      ensures entries == old(entries) - {key}
    {
      entries := entries - {key};
    }

    method LoadAndDelete(key: string) returns (e: Option<Entry>)
      modifies this`entries
      ensures e == if key in old(entries) then Some(old(entries)[key]) else None
      ensures entries == old(entries) - {key}
    {
      e := Load(key);
      Delete(key);
    }

    method DeviceAuth(deviceCode: string, userCode: string, scope: string, applicationId: string) returns (reply: Reply)
      modifies this`entries
      ensures (entries, reply) == Effect(old(entries), clock, CheckingUserCode(deviceCode, userCode, scope, applicationId, 0))
    {
      EffectOfDeviceAuth(entries, clock, deviceCode, userCode, scope, applicationId);
      var generateTime := 0;
      while true
        invariant generateTime <= MAX_RETRIES + 1
        invariant entries == old(entries) && (generateTime > 0 ==> userCode in entries)
        decreases MAX_RETRIES + 1 - generateTime
      {
        if generateTime > MAX_RETRIES {
          return UserCodeNotGenerated;
        }
        var found := Load(userCode);
        if found == None {
          break;
        }
        generateTime := generateTime + 1;
      }
      var deviceAuthCache := Entry(false, "", scope, applicationId, clock);
      var userAuthCache := Entry(false, deviceCode, scope, applicationId, clock);
      Store(deviceCode, deviceAuthCache);
      Store(userCode, userAuthCache);
      reply := Issued;
    }

    /** A signed-in user approves a user code. */
    method Approve(userCode: string, name: string) returns (reply: Reply)
      modifies this`entries
      ensures (entries, reply) == Effect(old(entries), clock, TakingUserCode(userCode, name))
    {
      EffectOfApprove(entries, clock, userCode, name);
      var authCache := LoadAndDelete(userCode);
      if authCache == None {
        assert entries == old(entries);
        return UserCodeExpired;
      }
      if authCache.value.Expired(clock) {
        return UserCodeExpired;
      }
      var loaded := Load(authCache.value.userName);
      if loaded == None {
        return DeviceCodeInvalid;
      }
      var device := loaded.value.(userName := name);
      device := device.(signedIn := true);
      Store(authCache.value.userName, device);
      reply := Approved;
    }

    /** A token request with a device code. */
    method Redeem(deviceCode: string) returns (reply: Reply)
      modifies this`entries
      ensures (entries, reply) == Effect(old(entries), clock, Polling(deviceCode))
    {
      EffectOfRedeem(entries, clock, deviceCode);
      var loaded := Load(deviceCode);
      if loaded == None {
        return TokenExpired;
      }
      if !loaded.value.signedIn {
        return AuthorizationPending;
      }
      if loaded.value.Expired(clock) {
        return TokenExpired;
      }
      Delete(deviceCode);
      reply := Redeemed(loaded.value.userName);
    }
  }
}
