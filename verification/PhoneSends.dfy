/** How often a code is sent to a number, in every run. */
module PhoneSends {
  import opened PhoneSignin
  import opened UserLookup
  import opened Wrappers

  predicate SameNumber(r: Record, s: Record) {
    r.owner == s.owner && r.receiver == s.receiver
  }

  /** The latest record of a number is the last one in the list. */
  lemma {:induction false} NoLaterRecord(records: seq<Record>, owner: string, receiver: Number, j: nat)
    requires j < |records| && records[j].owner == owner && records[j].receiver == receiver
    ensures Latest(records, owner, receiver).Some? && j <= Latest(records, owner, receiver).value
  {
    if j < |records| - 1 {
      NoLaterRecord(records[..|records| - 1], owner, receiver, j);
    }
  }

  /** Whether codes are used makes no difference for their number. */
  lemma {:induction false} CountAlike(a: seq<Record>, b: seq<Record>, owner: string, receiver: Number, time: int)
    requires |a| == |b| && forall i | 0 <= i < |a| :: a[i].(used := true) == b[i].(used := true)
    ensures CountSince(a, owner, receiver, time) == CountSince(b, owner, receiver, time)
  {
    if a != [] {
      assert a[|a| - 1].(used := true) == b[|b| - 1].(used := true);
      CountAlike(a[..|a| - 1], b[..|b| - 1], owner, receiver, time);
    }
  }

  /** The records of a number after a time, by their places. */
  function PlacesSince(records: seq<Record>, owner: string, receiver: Number, time: int): set<int> {
    set i | 0 <= i < |records| && records[i].owner == owner && records[i].receiver == receiver && records[i].time > time
  }

  lemma {:induction false} CountIsNumber(records: seq<Record>, owner: string, receiver: Number, time: int)
    ensures CountSince(records, owner, receiver, time) == |PlacesSince(records, owner, receiver, time)|
  {
    if records != [] {
      var last, front := |records| - 1, records[..|records| - 1];
      CountIsNumber(front, owner, receiver, time);
      var places := PlacesSince(front, owner, receiver, time);
      assert last !in places;
      if records[last].owner == owner && records[last].receiver == receiver && records[last].time > time {
        assert PlacesSince(records, owner, receiver, time) == places + {last};
      } else {
        assert PlacesSince(records, owner, receiver, time) == places;
      }
    }
  }

  /** The record was sent at least a minute after all others to its number, and is one of no more than ten in a day. */
  ghost predicate SentInTime(records: seq<Record>, first: nat, j: nat)
    requires j < |records|
  {
    && (forall i | first <= i < j && SameNumber(records[i], records[j]) :: records[j].time - records[i].time >= 60)
    && CountSince(records[..j + 1], records[j].owner, records[j].receiver, records[j].time - 86400) <= 10
  }

  /** The records from `first` on were sent one after the other, up to now, and each in time. */
  ghost predicate SendsOk(records: seq<Record>, clock: int, first: nat) {
    && first <= |records| && 0 < clock
    && (forall j | first <= j < |records| :: 0 < records[j].time <= clock)
    && (forall i, j | first <= i < j < |records| :: records[i].time <= records[j].time)
    && (forall j | first <= j < |records| :: SentInTime(records, first, j))
  }

  /** The same records, some of them used by now, at a later time. */
  lemma SendsStay(a: seq<Record>, b: seq<Record>, before: int, after: int, first: nat)
    requires SendsOk(a, before, first) && before <= after
    requires |a| == |b| && forall i | 0 <= i < |a| :: a[i].(used := true) == b[i].(used := true)
    ensures SendsOk(b, after, first)
  {
    forall i | 0 <= i < |a|
      ensures a[i].time == b[i].time && a[i].owner == b[i].owner && a[i].receiver == b[i].receiver
    {
      assert a[i].(used := true) == b[i].(used := true);
    }
    forall j | first <= j < |b|
      ensures SentInTime(b, first, j)
    {
      assert SentInTime(a, first, j);
      CountAlike(a[..j + 1], b[..j + 1], b[j].owner, b[j].receiver, b[j].time - 86400);
    }
  }

  lemma NewIsInTime(w: World, owner: string, receiver: Number, code: string, first: nat)
    requires SendsOk(w.records, w.clock, first) && MaySend(w, owner, receiver)
    ensures var records := w.records + [Record(owner, receiver, code, w.clock, false)]; SentInTime(records, first, |w.records|)
  {
    var r := Record(owner, receiver, code, w.clock, false);
    var records := w.records + [r];
    assert records[..|w.records| + 1] == records && records[..|records| - 1] == w.records;
    forall i | first <= i < |w.records| && SameNumber(records[i], r)
      ensures r.time - records[i].time >= 60
    {
      NoLaterRecord(w.records, owner, receiver, i);
      var k := Latest(w.records, owner, receiver).value;
      assert w.records[i].time <= w.records[k].time;
    }
  }

  lemma SendKeeps(w: World, owner: string, receiver: Number, code: string, first: nat)
    requires SendsOk(w.records, w.clock, first) && MaySend(w, owner, receiver)
    ensures SendsOk(w.records + [Record(owner, receiver, code, w.clock, false)], w.clock, first)
  {
    var records := w.records + [Record(owner, receiver, code, w.clock, false)];
    forall j | first <= j < |records|
      ensures SentInTime(records, first, j)
    {
      if j < |w.records| {
        assert SentInTime(w.records, first, j) && records[..j + 1] == w.records[..j + 1];
      } else {
        NewIsInTime(w, owner, receiver, code, first);
      }
    }
  }

  /** Only a send adds a record. */
  lemma SameRecords(n: Numbers, w: World, step: Step)
    requires Enabled(w, step) && !step.Send?
    ensures var w' := Apply(n, w, step);
            && w.clock <= w'.clock && |w'.records| == |w.records|
            && forall i | 0 <= i < |w.records| :: w.records[i].(used := true) == w'.records[i].(used := true)
  {
  }

  lemma {:induction false} RunSends(n: Numbers, run: seq<World>, i: nat)
    requires IsRun(n, run) && i < |run| && run[0].clock > 0
    ensures SendsOk(run[i].records, run[i].clock, |run[0].records|)
  {
    if i > 0 {
      RunSends(n, run, i - 1);
      var step := StepOf(n, run, i - 1);
      if step.Send? {
        SendKeeps(run[i - 1], step.owner, step.receiver, step.code, |run[0].records|);
      } else {
        SameRecords(n, run[i - 1], step);
        SendsStay(run[i - 1].records, run[i].records, run[i - 1].clock, run[i].clock, |run[0].records|);
      }
    }
  }

  /**
    In every run two codes that are sent to a number for an organization are at least a minute apart, and at no
    time have more than ten been sent in the last day, those from before the run included.
   */
  lemma SendsAreLimited(n: Numbers, run: seq<World>, i: nat, j: nat)
    requires IsRun(n, run) && i < |run| && run[0].clock > 0 && |run[0].records| <= j < |run[i].records|
    ensures var records, r := run[i].records, run[i].records[j];
            && (forall k | |run[0].records| <= k < j && records[k].owner == r.owner && records[k].receiver == r.receiver ::
                  r.time - records[k].time >= 60)
            && |PlacesSince(records[..j + 1], r.owner, r.receiver, r.time - 86400)| <= 10
  {
    RunSends(n, run, i);
    var records, r := run[i].records, run[i].records[j];
    assert SentInTime(records, |run[0].records|, j);
    CountIsNumber(records[..j + 1], r.owner, r.receiver, r.time - 86400);
  }
}
