/** The device scheduler (yunmao-device-edge `scheduler.rs`): commands already seen are dropped, the
others are executed device by device in the order they were queued. */
module Scheduler {
  import opened Bytes
  import opened Seqs
  import opened Simulator

  type Id = seq<Byte>

  const CAPACITY: nat := 8192

  // ---------- the set of seen commands ----------

  datatype Seen = Seen(ids: set<Id>, order: seq<Id>)

  const NONE_SEEN := Seen({}, [])

  function Trimmed(s: Seen, capacity: nat): Seen
  {
    if |s.order| > capacity then Seen(s.ids - {s.order[0]}, s.order[1..]) else s
  }

  /** `IdempotentSet::insert` */
  function Inserted(s: Seen, id: Id, capacity: nat): Seen
  {
    if id in s.ids then s else Trimmed(Seen(s.ids + {id}, s.order + [id]), capacity)
  }

  class IdempotentSet {
    const capacity: nat
    var ids: set<Id>
    var order: seq<Id>

    function View(): Seen
      reads this
    {
      Seen(ids, order)
    }

    constructor (c: nat)
      ensures capacity == c && View() == NONE_SEEN
    {
      capacity, ids, order := c, {}, [];
    }

    method Insert(id: Id) returns (isNew: bool)
      modifies this
      ensures isNew == (id !in old(ids)) && View() == Inserted(old(View()), id, capacity)
    {
      if id in ids {
        return false;
      }
      ids := ids + {id};
      order := order + [id];
      if |order| > capacity {
        ids := ids - {order[0]};
        order := order[1..];
      }
      isNew := true;
    }
  }

  /** The set holds the last `capacity` accepted ids, each once. */
  ghost predicate Remembers(s: Seen, log: seq<Id>, capacity: nat)
  {
    && s.order == LastOf(log, capacity) && Distinct(s.order)
    && forall id :: id in s.ids <==> id in s.order
  }

  function LogAfter(s: Seen, log: seq<Id>, id: Id): seq<Id>
  {
    if id in s.ids then log else log + [id]
  }

  lemma {:induction false} InsertRemembers(s: Seen, log: seq<Id>, id: Id, capacity: nat)
    requires Remembers(s, log, capacity)
    ensures Remembers(Inserted(s, id, capacity), LogAfter(s, log, id), capacity)
  {
    if id !in s.ids {
      LastSnoc(log, id, capacity);
      var grown, r := s.order + [id], Inserted(s, id, capacity);
      assert Distinct(grown);
      forall x ensures x in r.ids <==> x in r.order {
        if x in grown && |grown| > capacity && x != grown[0] {
          var i :| 0 <= i < |grown| && grown[i] == x;
          assert grown[1..][i - 1] == x;
        }
      }
    }
  }

  /** `run_worker`: one device, its queue from front to back. */
  method RunWorker(profile: Profile, queue: seq<Request>) returns (acks: seq<Ack>)
    ensures acks == AckAll(profile, queue)
  {
    hide AckOf, AfterRequest;
    var device := new SimulatedDevice(profile);
    acks := [];
    for i := 0 to |queue|
      invariant device.profile == AfterAll(profile, queue[..i]) && acks == AckAll(profile, queue[..i])
      invariant fresh(device)
    {
      var ack, _ := device.Execute(queue[i]);
      acks := acks + [ack];
      assert queue[..i + 1][..i] == queue[..i];
    }
    assert queue[..|queue|] == queue;
  }

  // ---------- the scheduler as steps ----------

  /** `waiting` are accepted commands not yet in their device's queue (the queues are bounded, so a
  submission may have to wait); `queued` and `acked` are, for each device, every command ever put
  into its queue and every acknowledgement. */
  datatype State = State(seen: Seen, accepted: seq<Request>, waiting: multiset<Request>,
                         queued: map<string, seq<Request>>, done: map<string, nat>, acks: map<string, seq<Ack>>)

  const IDLE := State(NONE_SEEN, [], multiset{}, map[], map[], map[])

  datatype Step =
    | Submit(req: Request)
    | Enqueue(req: Request)
    | Work(device: string)

  function Queued(s: State, device: string): seq<Request> { if device in s.queued then s.queued[device] else [] }

  function Done(s: State, device: string): nat { if device in s.done then s.done[device] else 0 }

  function Acks(s: State, device: string): seq<Ack> { if device in s.acks then s.acks[device] else [] }

  predicate Enabled(s: State, step: Step)
  {
    match step
    case Submit(_) => true
    case Enqueue(req) => req in s.waiting
    case Work(device) => Done(s, device) < |Queued(s, device)|
  }

  /** The device as its worker has it: the default profile, worked on by the commands done. */
  function DeviceOf(s: State, device: string): Profile
    requires Done(s, device) <= |Queued(s, device)|
  {
    AfterAll(DefaultProfile(device), Queued(s, device)[..Done(s, device)])
  }

  function Apply(s: State, step: Step): State
    requires Enabled(s, step)
  {
    match step
    case Submit(req) =>
      if req.commandId in s.seen.ids then s
      else s.(seen := Inserted(s.seen, req.commandId, CAPACITY), accepted := s.accepted + [req],
              waiting := s.waiting + multiset{req})
    case Enqueue(req) =>
      s.(waiting := s.waiting - multiset{req}, queued := s.queued[req.deviceId := Queued(s, req.deviceId) + [req]])
    case Work(device) =>
      var req := Queued(s, device)[Done(s, device)];
      s.(done := s.done[device := Done(s, device) + 1],
         acks := s.acks[device := Acks(s, device) + [AckOf(DeviceOf(s, device), req)]])
  }

  function Ids(reqs: seq<Request>): (r: seq<Id>)
    ensures |r| == |reqs|
  {
    seq(|reqs|, (i: int) requires 0 <= i < |reqs| => reqs[i].commandId)
  }

  /** How often a command is in all queues together, or rather in that of its device. */
  function TimesQueued(s: State, req: Request): nat
  {
    multiset(Queued(s, req.deviceId))[req]
  }

  ghost predicate Inv(s: State)
  {
    && Remembers(s.seen, Ids(s.accepted), CAPACITY)
    // every accepted command is waiting or queued, as often as it was accepted
    && (forall req :: multiset(s.accepted)[req] == s.waiting[req] + TimesQueued(s, req))
    // each device acknowledges its queue, in order
    && (forall d :: InStep(s, d))
  }

  /** Device `d` has acknowledged the first commands of its queue. */
  predicate InStep(s: State, d: string)
  {
    Done(s, d) <= |Queued(s, d)| && Acks(s, d) == AckAll(DefaultProfile(d), Queued(s, d)[..Done(s, d)])
  }

  lemma {:induction false} SubmitInStep(s: State, r: State, d: string)
    requires InStep(s, d) && r.queued == s.queued && r.done == s.done && r.acks == s.acks
    ensures InStep(r, d)
  {}

  lemma {:induction false} SubmitKeeps(s: State, req: Request)
    requires Inv(s)
    ensures Inv(Apply(s, Submit(req)))
  {
    var r := Apply(s, Submit(req));
    hide Remembers, Inserted, InStep;
    if req.commandId !in s.seen.ids {
      InsertRemembers(s.seen, Ids(s.accepted), req.commandId, CAPACITY);
      assert Ids(s.accepted + [req]) == Ids(s.accepted) + [req.commandId];
      SnocCount(s.accepted, req);
      assert forall q :: TimesQueued(r, q) == TimesQueued(s, q);
      forall d ensures InStep(r, d) {
        SubmitInStep(s, r, d);
      }
    }
  }

  lemma {:induction false} SnocCount(reqs: seq<Request>, req: Request)
    ensures multiset(reqs + [req]) == multiset(reqs) + multiset{req}
  {}

  lemma {:induction false} EnqueueCounts(s: State, req: Request, q: Request)
    requires req in s.waiting && multiset(s.accepted)[q] == s.waiting[q] + TimesQueued(s, q)
    ensures var r := Apply(s, Enqueue(req)); multiset(r.accepted)[q] == r.waiting[q] + TimesQueued(r, q)
  {
    SnocCount(Queued(s, req.deviceId), req);
  }

  lemma {:induction false} EnqueueInStep(s: State, req: Request, d: string)
    requires req in s.waiting && InStep(s, d)
    ensures InStep(Apply(s, Enqueue(req)), d)
  {
    hide AckAll;
    var r := Apply(s, Enqueue(req));
    assert Queued(r, d)[..Done(s, d)] == Queued(s, d)[..Done(s, d)];
  }

  lemma {:induction false} EnqueueKeeps(s: State, req: Request)
    requires Inv(s) && req in s.waiting
    ensures Inv(Apply(s, Enqueue(req)))
  {
    var r := Apply(s, Enqueue(req));
    hide Remembers, AckAll, Queued, Done, Acks, TimesQueued;
    forall q ensures multiset(r.accepted)[q] == r.waiting[q] + TimesQueued(r, q) {
      EnqueueCounts(s, req, q);
    }
    forall d ensures InStep(r, d) {
      assert InStep(s, d);
      EnqueueInStep(s, req, d);
    }
  }

  lemma {:induction false} WorkInStep(s: State, device: string, d: string)
    requires Enabled(s, Work(device)) && InStep(s, d)
    ensures InStep(Apply(s, Work(device)), d)
  {
    hide AckOf, AfterAll;
    if d == device {
      var n := Done(s, d);
      assert Queued(s, d)[..n + 1][..n] == Queued(s, d)[..n];
    }
  }

  lemma {:induction false} WorkKeeps(s: State, device: string)
    requires Inv(s) && Enabled(s, Work(device))
    ensures Inv(Apply(s, Work(device)))
  {
    hide Remembers, AckAll, AckOf, AfterAll;
    var r := Apply(s, Work(device));
    assert forall q :: TimesQueued(r, q) == TimesQueued(s, q);
    hide Queued, Done, Acks, TimesQueued;
    forall d ensures InStep(r, d) {
      assert InStep(s, d);
      WorkInStep(s, device, d);
    }
  }

  lemma {:induction false} StepKeeps(s: State, step: Step)
    requires Inv(s) && Enabled(s, step)
    ensures Inv(Apply(s, step))
  {
    hide Inv, Apply;
    match step
    case Submit(req) => SubmitKeeps(s, req);
    case Enqueue(req) => EnqueueKeeps(s, req);
    case Work(device) => WorkKeeps(s, device);
  }

  predicate Runs(s: State, steps: seq<Step>)
    decreases |steps|
  {
    steps == [] || (Enabled(s, steps[0]) && Runs(Apply(s, steps[0]), steps[1..]))
  }

  function After(s: State, steps: seq<Step>): State
    requires Runs(s, steps)
    decreases |steps|
  {
    if steps == [] then s else After(Apply(s, steps[0]), steps[1..])
  }

  lemma {:induction false} RunKeeps(s: State, steps: seq<Step>)
    requires Inv(s) && Runs(s, steps)
    ensures Inv(After(s, steps))
    decreases |steps|
  {
    if steps != [] {
      hide Inv, Enabled, Apply;
      StepKeeps(s, steps[0]);
      RunKeeps(Apply(s, steps[0]), steps[1..]);
    }
  }

  lemma {:induction false} IdleValid()
    ensures Inv(IDLE)
  {
    assert Ids([]) == [];
  }

  /** In every interleaving: the set of seen ids is exactly that of the last 8192 accepted commands. */
  lemma {:induction false} SeenAreTheLatest(steps: seq<Step>)
    requires Runs(IDLE, steps)
    ensures var s := After(IDLE, steps);
            s.seen.order == LastOf(Ids(s.accepted), CAPACITY) && forall id :: id in s.seen.ids <==> id in LastOf(Ids(s.accepted), CAPACITY)
  {
    hide Runs, After, LastOf, AckAll, TimesQueued;
    IdleValid();
    RunKeeps(IDLE, steps);
  }

  /** In every interleaving: an id is accepted again only after 8192 different other ids were accepted
  in between. */
  ghost predicate Spaced(accepted: seq<Id>)
  {
    forall i, j :: 0 <= i < j < |accepted| && accepted[i] == accepted[j] ==>
      j - i - 1 >= CAPACITY && Distinct(accepted[j - CAPACITY..j]) && accepted[j] !in accepted[j - CAPACITY..j]
  }

  lemma {:induction false} RecentIsKept(log: seq<Id>, i: nat, n: nat)
    requires i < |log|
    ensures i >= |log| - n ==> log[i] in LastOf(log, n)
  {
    if n < |log| <= i + n {
      assert LastOf(log, n)[i - (|log| - n)] == log[i];
    }
  }

  lemma {:induction false} AcceptSpaced(s: Seen, log: seq<Id>, id: Id)
    requires Remembers(s, log, CAPACITY) && Spaced(log) && id !in s.ids
    ensures Spaced(log + [id])
  {
    var next, n := log + [id], |log|;
    forall i, j | 0 <= i < j < |next| && next[i] == next[j]
      ensures j - i - 1 >= CAPACITY && Distinct(next[j - CAPACITY..j]) && next[j] !in next[j - CAPACITY..j]
    {
      if j < n {
        assert next[j - CAPACITY..j] == log[j - CAPACITY..j];
      } else {
        RecentIsKept(log, i, CAPACITY);
        assert next[n - CAPACITY..n] == log[n - CAPACITY..];
      }
    }
  }

  lemma {:induction false} StepSpaced(s: State, step: Step)
    requires Inv(s) && Enabled(s, step) && Spaced(Ids(s.accepted))
    ensures Spaced(Ids(Apply(s, step).accepted))
  {
    hide Inv, Spaced, Remembers, DeviceOf, AckOf, Inserted;
    if step.Submit? && step.req.commandId !in s.seen.ids {
      SeenValid(s);
      AcceptSpaced(s.seen, Ids(s.accepted), step.req.commandId);
      assert Ids(s.accepted + [step.req]) == Ids(s.accepted) + [step.req.commandId];
    }
  }

  lemma {:induction false} RunSpaced(s: State, steps: seq<Step>)
    requires Inv(s) && Runs(s, steps) && Spaced(Ids(s.accepted))
    ensures Spaced(Ids(After(s, steps).accepted))
    decreases |steps|
  {
    if steps != [] {
      hide Inv, Spaced, Ids, Apply, Enabled;
      StepKeeps(s, steps[0]);
      StepSpaced(s, steps[0]);
      RunSpaced(Apply(s, steps[0]), steps[1..]);
    }
  }

  lemma {:induction false} SeenValid(s: State)
    requires Inv(s)
    ensures Remembers(s.seen, Ids(s.accepted), CAPACITY)
  {}

  lemma {:induction false} AcceptedSpaced(steps: seq<Step>)
    requires Runs(IDLE, steps)
    ensures Spaced(Ids(After(IDLE, steps).accepted))
  {
    IdleValid();
    assert Spaced(Ids(IDLE.accepted));
    hide Inv, Runs, After, Spaced;
    RunSpaced(IDLE, steps);
  }

  /** In every interleaving: each accepted command is waiting, or queued at its device exactly as often
  as it was accepted; a device acknowledges its queue in order, each command once; and after each
  acknowledgement the food that remains and the food dispensed make 1000 g. */
  lemma {:induction false} DevicesKeepOrderAndFood(steps: seq<Step>, device: string)
    requires Runs(IDLE, steps)
    ensures var s := After(IDLE, steps);
            var acks := Acks(s, device);
            && (forall req :: multiset(s.accepted)[req] == s.waiting[req] + TimesQueued(s, req))
            && |acks| == Done(s, device) <= |Queued(s, device)|
            && (forall k :: 0 <= k < |acks| ==> acks[k].commandId == Queued(s, device)[k].commandId)
            && (forall k :: 0 <= k < |acks| ==> acks[k].remaining + Dispensed(acks[..k + 1]) == 1000)
            && (forall k :: 0 <= k < |acks| ==>
                  acks[k].status == if Queued(s, device)[k].grams <= 1000 - Dispensed(acks[..k]) then Succeeded else InsufficientFood)
  {
    hide Runs, After, Remembers;
    IdleValid();
    RunKeeps(IDLE, steps);
    var s := After(IDLE, steps);
    assert InStep(s, device);
    var reqs, p := Queued(s, device)[..Done(s, device)], DefaultProfile(device);
    hide AckAll, Dispensed, AfterAll;
    forall k | 0 <= k < |reqs|
      ensures AckAll(p, reqs)[k].commandId == Queued(s, device)[k].commandId
      ensures AckAll(p, reqs)[k].remaining + Dispensed(AckAll(p, reqs)[..k + 1]) == 1000
      ensures AckAll(p, reqs)[k].status
           == if reqs[k].grams <= 1000 - Dispensed(AckAll(p, reqs)[..k]) then Succeeded else InsufficientFood
    {
      DefaultNeverFails(device, reqs, k);
      FoodConserved(p, reqs, k + 1);
      AckIdAt(p, reqs, k);
    }
  }

  lemma {:induction false} AckIdAt(p: Profile, reqs: seq<Request>, k: nat)
    requires k < |reqs|
    ensures AckAll(p, reqs)[k].commandId == reqs[k].commandId
    decreases |reqs|
  {
    hide AfterAll, StatusOf;
    if k < |reqs| - 1 {
      AckIdAt(p, reqs[..|reqs| - 1], k);
    }
  }

  // ---------- from the steps alone ----------

  /** The submissions that are not repeated within 8192 accepted commands. */
  function AcceptedOf(steps: seq<Step>): seq<Request>
  {
    if steps == [] then []
    else
      var before, step := AcceptedOf(steps[..|steps| - 1]), steps[|steps| - 1];
      if step.Submit? && step.req.commandId !in LastOf(Ids(before), 8192) then before + [step.req] else before
  }

  /** What was put into a device's queue, in order. */
  function EnqueuedAt(steps: seq<Step>, device: string): seq<Request>
  {
    if steps == [] then []
    else
      var step := steps[|steps| - 1];
      EnqueuedAt(steps[..|steps| - 1], device) + if step.Enqueue? && step.req.deviceId == device then [step.req] else []
  }

  function WorkedAt(steps: seq<Step>, device: string): nat
  {
    if steps == [] then 0 else WorkedAt(steps[..|steps| - 1], device) + if steps[|steps| - 1] == Work(device) then 1 else 0
  }

  ghost predicate BySteps(s: State, steps: seq<Step>)
  {
    && s.accepted == AcceptedOf(steps)
    && (forall d :: Queued(s, d) == EnqueuedAt(steps, d))
    && (forall d :: Done(s, d) == WorkedAt(steps, d))
  }

  lemma {:induction false} AfterSnoc(s: State, steps: seq<Step>)
    requires Runs(s, steps) && steps != []
    ensures var before, last := steps[..|steps| - 1], steps[|steps| - 1];
            Runs(s, before) && Enabled(After(s, before), last) && After(s, steps) == Apply(After(s, before), last)
    decreases |steps|
  {
    hide Enabled, Apply;
    if |steps| > 1 {
      AfterSnoc(Apply(s, steps[0]), steps[1..]);
      assert steps[1..][..|steps[1..]| - 1] == steps[..|steps| - 1][1..] && steps[1..][|steps[1..]| - 1] == steps[|steps| - 1];
      assert steps[..|steps| - 1][0] == steps[0];
    } else {
      assert steps[..0] == [] && steps[1..] == [];
    }
  }

  lemma {:induction false} StepAccepts(s: State, before: seq<Step>, step: Step)
    requires Inv(s) && Enabled(s, step) && s.accepted == AcceptedOf(before)
    ensures Apply(s, step).accepted == AcceptedOf(before + [step])
  {
    hide TimesQueued, InStep, AckOf, DeviceOf, LastOf, Inserted, Queued, Acks, Done;
    assert (before + [step])[..|before|] == before;
    SeenValid(s);
  }

  lemma {:induction false} StepQueues(s: State, before: seq<Step>, step: Step, d: string)
    requires Enabled(s, step) && Queued(s, d) == EnqueuedAt(before, d) && Done(s, d) == WorkedAt(before, d)
    ensures Queued(Apply(s, step), d) == EnqueuedAt(before + [step], d)
    ensures Done(Apply(s, step), d) == WorkedAt(before + [step], d)
  {
    hide AckOf, DeviceOf, Inserted, Acks;
    assert (before + [step])[..|before|] == before;
    EmptyConcat(EnqueuedAt(before, d));
  }

  lemma {:induction false} StepBySteps(s: State, before: seq<Step>, step: Step)
    requires Inv(s) && Enabled(s, step) && BySteps(s, before)
    ensures BySteps(Apply(s, step), before + [step])
  {
    hide Inv, Apply, Enabled, Queued, Done, AcceptedOf, EnqueuedAt, WorkedAt;
    StepAccepts(s, before, step);
    forall d
      ensures Queued(Apply(s, step), d) == EnqueuedAt(before + [step], d) && Done(Apply(s, step), d) == WorkedAt(before + [step], d)
    {
      StepQueues(s, before, step, d);
    }
  }

  lemma {:induction false} NoSteps()
    ensures Runs(IDLE, []) && After(IDLE, []) == IDLE
  {}

  lemma {:induction false} IdleBySteps()
    ensures BySteps(IDLE, [])
  {}

  /** In every interleaving: a submission is accepted exactly when its id is not among those of the last
  8192 accepted; the queues hold what was put into them, and each turn of a worker takes one command. */
  lemma {:induction false} AcceptedExactly(steps: seq<Step>)
    requires Runs(IDLE, steps)
    ensures BySteps(After(IDLE, steps), steps)
  {
    hide Inv, BySteps, Enabled, Apply, Runs;
    if steps == [] {
      IdleBySteps();
      NoSteps();
    } else {
      var n := |steps| - 1;
      AfterSnoc(IDLE, steps);
      AcceptedExactly(steps[..n]);
      IdleValid();
      RunKeeps(IDLE, steps[..n]);
      StepBySteps(After(IDLE, steps[..n]), steps[..n], steps[n]);
      assert steps[..n] + [steps[n]] == steps;
    }
  }
}
