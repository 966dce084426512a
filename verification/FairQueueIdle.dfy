/** Which groups a collection drops, by the times at which they were last used. */
module FairQueueIdle {
  import opened Names
  import opened RoundRobin
  import opened FairQueueState
  import opened FairQueueRuns

  function TimeOf(op: Op): Option<int> {
    match op
    case Add(_, now) => Some(now)
    case Get(now) => Some(now)
    case Done(_, now) => Some(now)
    case Clean(now, _) => Some(now)
    case ShutDown => None
  }

  /** The operation makes the group `g`, or an item comes into it or goes out of it. */
  predicate Uses(s: Queue, op: Op, g: Name)
    requires Safe(s)
  {
    var t := After(s, op);
    g in t.groups && (g !in s.groups || t.groups[g].queue != s.groups[g].queue)
  }

  /** The time of the last operation of the run that uses `g`; `before` if there is none. */
  ghost function LastUse(s: Queue, ops: seq<Op>, g: Name, before: Option<int>): Option<int>
    requires Safe(s) && LegalRun(s, ops)
    decreases |ops|
  {
    if ops == [] then before
    else
      StepSafe(s, ops[0]);
      LastUse(After(s, ops[0]), ops[1..], g, if Uses(s, ops[0], g) then TimeOf(ops[0]) else before)
  }

  /** One operation leaves the time of a group alone, or uses it. */
  lemma StepKeepsTime(s: Queue, op: Op, g: Name)
    requires Safe(s) && g in After(s, op).groups
    ensures if Uses(s, op, g) then TimeOf(op) == Some(After(s, op).groups[g].lastActive)
      else g in s.groups && After(s, op).groups[g] == s.groups[g]
  {
  }

  lemma {:induction false} TimeIsLastUse(s: Queue, ops: seq<Op>, g: Name, before: Option<int>)
    requires Safe(s) && LegalRun(s, ops) && (g in s.groups ==> before == Some(s.groups[g].lastActive))
    ensures g in AfterRun(s, ops).groups ==>
      LastUse(s, ops, g, before) == Some(AfterRun(s, ops).groups[g].lastActive)
    decreases |ops|
  {
    if ops != [] {
      StepSafe(s, ops[0]);
      if g in After(s, ops[0]).groups { StepKeepsTime(s, ops[0], g); }
      TimeIsLastUse(After(s, ops[0]), ops[1..], g, if Uses(s, ops[0], g) then TimeOf(ops[0]) else before);
    }
  }

  /** In every run: a collection at `now` drops a group exactly if it has no item and was last used more than
      `expire` before; the other groups stay as they are. */
  lemma CollectedIff(ops: seq<Op>, g: Name, now: int, expire: int)
    requires Safe(START) && LegalRun(START, ops) && g in AfterRun(START, ops).groups
    ensures var s, last := AfterRun(START, ops), LastUse(START, ops, g, None); var t := After(s, Clean(now, expire));
      && last.Some?
      && (g !in t.groups <==> s.groups[g].queue == [] && last.value + expire < now)
      && (g in t.groups ==> t.groups[g] == s.groups[g])
      && forall h | h in t.groups :: h in s.groups
  {
    TimeIsLastUse(START, ops, g, None);
  }

  /** The times of the operations do not decrease. */
  predicate InTime(ops: seq<Op>) {
    forall i, j | 0 <= i < j < |ops| && TimeOf(ops[i]).Some? && TimeOf(ops[j]).Some? ::
      TimeOf(ops[i]).value <= TimeOf(ops[j]).value
  }

  /** The operation number `i` of the run uses `g`. */
  ghost predicate UsesAt(s: Queue, ops: seq<Op>, g: Name, i: nat)
    requires Safe(s) && LegalRun(s, ops)
    decreases |ops|
  {
    && i < |ops|
    && (StepSafe(s, ops[0]);
        if i == 0 then Uses(s, ops[0], g) else UsesAt(After(s, ops[0]), ops[1..], g, i - 1))
  }

  lemma {:induction false} LastIsNotEarlier(s: Queue, ops: seq<Op>, g: Name, before: Option<int>, i: nat)
    requires Safe(s) && LegalRun(s, ops) && InTime(ops)
    requires UsesAt(s, ops, g, i) && TimeOf(ops[i]).Some?
    ensures LastUse(s, ops, g, before).Some? ==> TimeOf(ops[i]).value <= LastUse(s, ops, g, before).value
    decreases |ops|
  {
    StepSafe(s, ops[0]);
    var rest := ops[1..];
    forall j, k | 0 <= j < k < |rest| && TimeOf(rest[j]).Some? && TimeOf(rest[k]).Some?
      ensures TimeOf(rest[j]).value <= TimeOf(rest[k]).value
    {
      assert rest[j] == ops[j + 1] && rest[k] == ops[k + 1];
    }
    var now := if Uses(s, ops[0], g) then TimeOf(ops[0]) else before;
    if i > 0 {
      assert rest[i - 1] == ops[i];
      LastIsNotEarlier(After(s, ops[0]), rest, g, now, i - 1);
    } else {
      NoneEarlier(After(s, ops[0]), rest, g, now, TimeOf(ops[0]).value);
    }
  }

  lemma {:induction false} NoneEarlier(s: Queue, ops: seq<Op>, g: Name, before: Option<int>, time: int)
    requires Safe(s) && LegalRun(s, ops) && before.Some? && time <= before.value
    requires forall i | 0 <= i < |ops| && TimeOf(ops[i]).Some? :: time <= TimeOf(ops[i]).value
    ensures LastUse(s, ops, g, before).Some? ==> time <= LastUse(s, ops, g, before).value
    decreases |ops|
  {
    if ops != [] {
      StepSafe(s, ops[0]);
      var now := if Uses(s, ops[0], g) then TimeOf(ops[0]) else before;
      if Uses(s, ops[0], g) { ShutDownUsesNothing(s, ops[0], g); }
      forall i | 0 <= i < |ops[1..]| && TimeOf(ops[1..][i]).Some? ensures time <= TimeOf(ops[1..][i]).value {
        assert ops[1..][i] == ops[i + 1];
      }
      NoneEarlier(After(s, ops[0]), ops[1..], g, now, time);
    }
  }

  lemma ShutDownUsesNothing(s: Queue, op: Op, g: Name)
    requires Safe(s) && Uses(s, op, g)
    ensures TimeOf(op).Some?
  {
  }

  /** So, if time does not run backwards, a group that was used within the last `expire` is not dropped. */
  lemma UsedIsKept(ops: seq<Op>, g: Name, i: nat, now: int, expire: int)
    requires Safe(START) && LegalRun(START, ops) && g in AfterRun(START, ops).groups && InTime(ops)
    requires UsesAt(START, ops, g, i) && TimeOf(ops[i]).Some? && now <= TimeOf(ops[i]).value + expire
    ensures g in After(AfterRun(START, ops), Clean(now, expire)).groups
  {
    CollectedIff(ops, g, now, expire);
    LastIsNotEarlier(START, ops, g, None, i);
  }
}
