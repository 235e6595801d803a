/** The simulated feeder (yunmao-device-edge `simulator.rs`): what a command dispenses, and what is
left in the hopper. */
module Simulator {
  import opened Bytes
  import opened Seqs

  datatype Profile = Profile(deviceId: string, food: U32, failureRate: Byte, minMs: U32, maxMs: U32)

  function DefaultProfile(deviceId: string): Profile { Profile(deviceId, 1000, 0, 200, 800) }

  datatype Request = Request(commandId: seq<Byte>, deviceId: string, grams: U32)

  datatype Status = Succeeded | Failed | InsufficientFood

  datatype Ack = Ack(commandId: seq<Byte>, deviceId: string, status: Status, actual: U32, remaining: U32)

  // ---------- the hash ----------

  const FNV_OFFSET: bv64 := 0xcbf29ce484222325
  const FNV_PRIME: bv64 := 0x100000001b3

  function FnvStep(h: bv64, b: Byte): bv64 { (h ^ (b as int as bv64)) * FNV_PRIME }

  /** FNV-1a, 64 bits. */
  function Fnv(seed: seq<Byte>): bv64
  {
    if seed == [] then FNV_OFFSET
    else FnvStep(Fnv(seed[..|seed| - 1]), seed[|seed| - 1])
  }

  /** Published test vectors of FNV-1a: the empty text and "a". */
  lemma {:induction false} FnvVectors()
    ensures Fnv([]) == 0xcbf29ce484222325 && Fnv([0x61]) == 0xaf63dc4c8601ec8c
  {
    assert [0x61 as Byte][..0] == [];
    assert FnvStep(FNV_OFFSET, 0x61) == 0xaf63dc4c8601ec8c;
  }

  method Hash(seed: seq<Byte>) returns (h: bv64)
    ensures h == Fnv(seed)
  {
    hide FnvStep;
    h := FNV_OFFSET;
    for i := 0 to |seed|
      invariant h == Fnv(seed[..i])
    {
      h := FnvStep(h, seed[i]);
      assert seed[..i + 1][..i] == seed[..i];
    }
    assert seed[..|seed|] == seed;
  }

  function Roll(h: bv64): (r: nat)
    ensures r < 100
  {
    (h & 0xff) as int % 100
  }

  function MixedDelay(minMs: U32, maxMs: U32, h: bv64): (ms: U32)
    ensures ms >= minMs && (maxMs <= minMs ==> ms == minMs) && (minMs < maxMs ==> ms < maxMs)
  {
    if maxMs <= minMs then minMs else minMs + (h & 0xffff_ffff) as int % (maxMs - minMs)
  }

  // ---------- deciding ----------

  function StatusOf(p: Profile, req: Request): Status
  {
    if p.food < req.grams then InsufficientFood
    else if Roll(Fnv(req.commandId)) < p.failureRate then Failed
    else Succeeded
  }

  function Actual(p: Profile, req: Request): U32
  {
    if StatusOf(p, req).Succeeded? then req.grams else 0
  }

  function AfterRequest(p: Profile, req: Request): Profile
  {
    p.(food := Max(p.food - Actual(p, req), 0))
  }

  function AckOf(p: Profile, req: Request): Ack
  {
    Ack(req.commandId, req.deviceId, StatusOf(p, req), Actual(p, req), AfterRequest(p, req).food)
  }

  /** How long the answer takes, in milliseconds. */
  function DelayOf(p: Profile, req: Request): U32
  {
    match StatusOf(p, req)
    case InsufficientFood => 50
    case Failed => p.minMs
    case Succeeded => MixedDelay(p.minMs, p.maxMs, Fnv(req.commandId))
  }

  /** A refusal takes 50 ms, a failure the shortest time, a success a time between the two that depends on the
  command's id only. */
  lemma {:induction false} DelayExactly(p: Profile, req: Request)
    ensures var d := DelayOf(p, req);
            && (StatusOf(p, req).InsufficientFood? ==> d == 50) && (StatusOf(p, req).Failed? ==> d == p.minMs)
            && (StatusOf(p, req).Succeeded? ==>
                  d == p.minMs + if p.maxMs <= p.minMs then 0 else (Fnv(req.commandId) & 0xffff_ffff) as int % (p.maxMs - p.minMs))
  {
    hide Fnv;
  }

  class SimulatedDevice {
    var profile: Profile

    constructor (p: Profile)
      ensures profile == p
    {
      profile := p;
    }

    /** `execute` with its `decide`; the time it takes is returned instead of slept. */
    method Execute(req: Request) returns (ack: Ack, delay: U32)
      modifies this
      ensures ack == AckOf(old(profile), req) && profile == AfterRequest(old(profile), req)
      ensures old(profile).food == profile.food + ack.actual && ack.remaining == profile.food
      ensures ack.status.Succeeded? ==> ack.actual == req.grams && delay >= profile.minMs
      ensures !ack.status.Succeeded? ==> ack.actual == 0
      ensures ack.status.InsufficientFood? <==> old(profile).food < req.grams
      ensures delay == DelayOf(old(profile), req)
    {
      hide MixedDelay, Fnv;
      if profile.food < req.grams {
        return Ack(req.commandId, req.deviceId, InsufficientFood, 0, profile.food), 50;
      }
      var h := Hash(req.commandId);
      if Roll(h) < profile.failureRate {
        return Ack(req.commandId, req.deviceId, Failed, 0, profile.food), profile.minMs;
      }
      delay := MixedDelay(profile.minMs, profile.maxMs, h);
      profile := profile.(food := Max(profile.food - req.grams, 0));
      ack := Ack(req.commandId, req.deviceId, Succeeded, req.grams, profile.food);
    }
  }

  // ---------- a device's life ----------

  /** The profile after a list of commands. */
  function AfterAll(p: Profile, reqs: seq<Request>): Profile
  {
    if reqs == [] then p else AfterRequest(AfterAll(p, reqs[..|reqs| - 1]), reqs[|reqs| - 1])
  }

  /** The acknowledgements of a list of commands. */
  function AckAll(p: Profile, reqs: seq<Request>): (r: seq<Ack>)
    ensures |r| == |reqs|
  {
    if reqs == [] then []
    else AckAll(p, reqs[..|reqs| - 1]) + [AckOf(AfterAll(p, reqs[..|reqs| - 1]), reqs[|reqs| - 1])]
  }

  function Dispensed(acks: seq<Ack>): nat
  {
    if acks == [] then 0 else Dispensed(acks[..|acks| - 1]) + acks[|acks| - 1].actual
  }

  lemma {:induction false} OneRequest(p: Profile, req: Request)
    ensures AfterRequest(p, req).food + Actual(p, req) == p.food
  {
    hide Fnv;
  }

  /** Food is neither made nor lost: after every command what remains and what was dispensed so far
  add up to what was there, and the acknowledgement says what remains. */
  lemma {:induction false} FoodConserved(p: Profile, reqs: seq<Request>, k: nat)
    requires k <= |reqs|
    ensures AfterAll(p, reqs[..k]).food + Dispensed(AckAll(p, reqs)[..k]) == p.food
    ensures k > 0 ==> AckAll(p, reqs)[k - 1].remaining == AfterAll(p, reqs[..k]).food
    decreases k
  {
    hide StatusOf, Actual;
    if k > 0 {
      FoodConserved(p, reqs, k - 1);
      OneRequest(AfterAll(p, reqs[..k - 1]), reqs[k - 1]);
      AcksPrefix(p, reqs, k);
      AcksPrefix(p, reqs, k - 1);
      assert reqs[..k][..k - 1] == reqs[..k - 1];
      assert AckAll(p, reqs)[..k][..k - 1] == AckAll(p, reqs)[..k - 1];
    } else {
      assert reqs[..0] == [] && AckAll(p, reqs)[..0] == [];
    }
  }

  lemma {:induction false} AcksPrefix(p: Profile, reqs: seq<Request>, k: nat)
    requires k <= |reqs|
    ensures AckAll(p, reqs)[..k] == AckAll(p, reqs[..k])
    decreases |reqs|
  {
    hide AckOf, AfterAll;
    if k < |reqs| {
      AcksPrefix(p, reqs[..|reqs| - 1], k);
      assert reqs[..|reqs| - 1][..k] == reqs[..k];
      var init := AckAll(p, reqs[..|reqs| - 1]);
      assert AckAll(p, reqs)[..k] == init[..k];
    } else {
      assert reqs[..k] == reqs;
    }
  }

  /** A request is turned away exactly when it asks for more than is left. */
  lemma {:induction false} TurnedAway(p: Profile, reqs: seq<Request>, k: nat)
    requires k < |reqs|
    ensures AckAll(p, reqs)[k].status.InsufficientFood? <==> reqs[k].grams > p.food - Dispensed(AckAll(p, reqs)[..k])
  {
    FoodConserved(p, reqs, k);
    hide AfterAll;
    AcksPrefix(p, reqs, k + 1);
    assert AckAll(p, reqs)[..k + 1][k] == AckAll(p, reqs)[k];
    assert reqs[..k + 1][..k] == reqs[..k];
  }

  /** A command succeeds exactly when there is food enough and its roll, a number below 100 that depends on
  its id only, is not below the failure rate; then it dispenses what it asks for, else nothing. */
  lemma {:induction false} SucceedsExactly(p: Profile, reqs: seq<Request>, k: nat)
    requires k < |reqs|
    ensures var ack, left := AckAll(p, reqs)[k], p.food - Dispensed(AckAll(p, reqs)[..k]);
            && (ack.status.Succeeded? <==> reqs[k].grams <= left && (Fnv(reqs[k].commandId) & 0xff) as int % 100 >= p.failureRate)
            && (ack.status.Failed? <==> reqs[k].grams <= left && (Fnv(reqs[k].commandId) & 0xff) as int % 100 < p.failureRate)
            && ack.actual == (if ack.status.Succeeded? then reqs[k].grams else 0)
            && ack.commandId == reqs[k].commandId && ack.deviceId == reqs[k].deviceId
  {
    FoodConserved(p, reqs, k);
    SameProfile(p, reqs[..k]);
    AckAt(p, reqs, k);
    hide AfterAll, AckAll, Fnv, Dispensed;
  }

  lemma {:induction false} AckAt(p: Profile, reqs: seq<Request>, k: nat)
    requires k < |reqs|
    ensures AckAll(p, reqs)[k] == AckOf(AfterAll(p, reqs[..k]), reqs[k])
    decreases |reqs|
  {
    hide AckOf, AfterAll;
    AcksPrefix(p, reqs, k + 1);
    assert AckAll(p, reqs)[..k + 1][k] == AckAll(p, reqs)[k];
    assert reqs[..k + 1][..k] == reqs[..k];
  }

  /** Only the food changes. */
  lemma {:induction false} SameProfile(p: Profile, reqs: seq<Request>)
    ensures AfterAll(p, reqs) == p.(food := AfterAll(p, reqs).food)
  {
    if reqs != [] {
      hide Actual;
      SameProfile(p, reqs[..|reqs| - 1]);
    }
  }

  /** A device as the scheduler makes it, with 1000 g and failure rate 0, never fails: a command succeeds
  exactly when there is food enough. */
  lemma {:induction false} DefaultNeverFails(device: string, reqs: seq<Request>, k: nat)
    requires k < |reqs|
    ensures var acks := AckAll(DefaultProfile(device), reqs);
            acks[k].status == if reqs[k].grams <= 1000 - Dispensed(acks[..k]) then Succeeded else InsufficientFood
    ensures DelayOf(DefaultProfile(device), reqs[k]) == 50 || 200 <= DelayOf(DefaultProfile(device), reqs[k]) < 800
    ensures DefaultProfile(device) == Profile(device, 1000, 0, 200, 800)
  {
    hide AckAll, Dispensed, Fnv;
    SucceedsExactly(DefaultProfile(device), reqs, k);
  }
}
