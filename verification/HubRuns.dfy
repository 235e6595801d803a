/** The hub under concurrency: every lock scope of `hub.rs` is one step, so other calls fall between
the three phases of a broadcast and between its removals. */
module HubRuns {
  import opened Options
  import opened Hub

  /** Where a broadcast stands; its number is its payload. */
  datatype Broadcast =
    | Waiting(room: string)
    | Targeted(targets: set<string>)
    | Removing(dead: set<string>)

  datatype State = State(index: Index, channels: Channels, broadcasts: seq<Broadcast>)

  datatype Step =
    | Register(c: string, channel: nat)
    | Deregister(c: string)
    | Subscribe(c: string, rooms: set<string>)
    | Unsubscribe(c: string, rooms: set<string>)
    | Target(b: nat)
    | Send(b: nat)
    | Remove(b: nat, c: string)
    // `send_direct` looks the channel up in one lock scope and writes to it after that
    | Direct(channel: nat, p: Payload)
    // what the connection's writer does at the other end
    | Receive(channel: nat)
    | Close(channel: nat)
    | Open(channel: nat, capacity: nat)

  ghost predicate Enabled(s: State, step: Step)
  {
    match step
    // a connection is registered with a channel of its own
    case Register(c, channel) => forall d :: d in s.index.conns && s.index.conns[d] == channel ==> d == c
    case Target(b) => b < |s.broadcasts| && s.broadcasts[b].Waiting?
    case Send(b) => b < |s.broadcasts| && s.broadcasts[b].Targeted?
    case Remove(b, c) => b < |s.broadcasts| && s.broadcasts[b].Removing? && c in s.broadcasts[b].dead
    case Direct(_, p) => p >= |s.broadcasts|
    case Receive(channel) => channel in s.channels && s.channels[channel].waiting > 0
    case Close(channel) => channel in s.channels
    case Open(channel, _) => channel !in s.channels
    case _ => true
  }

  /** The targets still connected whose channel did not take the message. */
  function Failed(s: State, targets: set<string>): set<string>
  {
    set c | c in targets && c in s.index.conns && !Takes(s.channels, s.index.conns[c])
  }

  ghost function Apply(s: State, step: Step): State
    requires Enabled(s, step)
  {
    match step
    case Register(c, channel) => s.(index := Registered(s.index, c, channel))
    case Deregister(c) => s.(index := Deregistered(s.index, c))
    case Subscribe(c, rooms) => s.(index := Subscribed(s.index, c, rooms))
    case Unsubscribe(c, rooms) => s.(index := Unsubscribed(s.index, c, rooms))
    case Target(b) => s.(broadcasts := s.broadcasts[b := Targeted(MembersOf(s.index, s.broadcasts[b].room))])
    case Send(b) =>
      var targets := s.broadcasts[b].targets;
      s.(channels := SentTo(s.channels, s.index.conns, targets, b),
         broadcasts := s.broadcasts[b := Removing(Failed(s, targets))])
    case Remove(b, c) =>
      s.(index := Deregistered(s.index, c), broadcasts := s.broadcasts[b := Removing(s.broadcasts[b].dead - {c})])
    case Direct(channel, p) =>
      if Takes(s.channels, channel) then s.(channels := s.channels[channel := Put(s.channels[channel], p)]) else s
    case Receive(channel) =>
      var ch := s.channels[channel];
      s.(channels := s.channels[channel := ch.(waiting := ch.waiting - 1)])
    case Close(channel) => s.(channels := s.channels[channel := s.channels[channel].(open := false)])
    case Open(channel, capacity) => s.(channels := s.channels[channel := Channel(true, capacity, 0, [])])
  }

  // ---------- what every run keeps ----------

  /** `p` occurs at most once, or not at all. */
  ghost predicate AtMostOnce(sent: seq<Payload>, p: Payload)
  {
    forall i, j :: 0 <= i < |sent| && 0 <= j < |sent| && sent[i] == p && sent[j] == p ==> i == j
  }

  ghost predicate CopiesOk(s: State, ch: nat, b: nat)
    requires ch in s.channels && b < |s.broadcasts|
  {
    && AtMostOnce(s.channels[ch].sent, b)
    && (!s.broadcasts[b].Removing? ==> b !in s.channels[ch].sent)
  }

  ghost predicate Copies(s: State)
  {
    forall ch, b :: ch in s.channels && 0 <= b < |s.broadcasts| ==> CopiesOk(s, ch, b)
  }

  ghost predicate Bounded(s: State)
  {
    forall ch :: ch in s.channels ==> s.channels[ch].waiting <= s.channels[ch].capacity && s.channels[ch].waiting <= |s.channels[ch].sent|
  }

  ghost predicate Inv(s: State)
  {
    Consistent(s.index) && OwnChannels(s.index.conns) && Copies(s) && Bounded(s)
  }

  lemma {:induction false} IndexKeeps(s: State, step: Step)
    requires Consistent(s.index) && OwnChannels(s.index.conns) && Enabled(s, step)
    ensures var x := Apply(s, step).index; Consistent(x) && OwnChannels(x.conns)
  {
    hide Consistent, SentTo, Takes, Left, Joined;
    match step
    case Register(c, channel) =>
      RegisterKeeps(s.index, c, channel);
    case Deregister(c) => DeregisterKeeps(s.index, c);
    case Subscribe(c, rooms) => SubscribeKeeps(s.index, c, rooms);
    case Unsubscribe(c, rooms) => UnsubscribeKeeps(s.index, c, rooms);
    case Remove(b, c) => DeregisterKeeps(s.index, c);
    case _ =>
  }

  /** Appending one message. */
  lemma {:induction false} AppendedOnce(sent: seq<Payload>, p: Payload, b: Payload)
    requires AtMostOnce(sent, b) && (p == b ==> b !in sent)
    ensures AtMostOnce(sent + [p], b) && (b in sent + [p] <==> b in sent || b == p)
  {}

  lemma {:induction false} SendKeeps(s: State, b: nat)
    requires Copies(s) && Bounded(s) && Enabled(s, Send(b))
    ensures Copies(Apply(s, Send(b))) && Bounded(Apply(s, Send(b)))
  {
    var r := Apply(s, Send(b));
    hide Takes;
    forall ch, k | ch in r.channels && 0 <= k < |r.broadcasts| ensures CopiesOk(r, ch, k) {
      assert CopiesOk(s, ch, k) && CopiesOk(s, ch, b);
      AppendedOnce(s.channels[ch].sent, b, k);
    }
    forall ch | ch in r.channels
      ensures r.channels[ch].waiting <= r.channels[ch].capacity && r.channels[ch].waiting <= |r.channels[ch].sent|
    {
      if c :| c in Reached(s.channels, s.index.conns, s.broadcasts[b].targets) && s.index.conns[c] == ch {
        TakesHasRoom(s.channels, ch);
      }
    }
  }

  lemma {:induction false} TakesHasRoom(chs: Channels, ch: nat)
    requires Takes(chs, ch)
    ensures ch in chs && chs[ch].waiting < chs[ch].capacity
  {}

  lemma {:induction false} OtherKeeps(s: State, step: Step)
    requires Copies(s) && Bounded(s) && Enabled(s, step) && !step.Send?
    ensures Copies(Apply(s, step)) && Bounded(Apply(s, step))
  {
    var r := Apply(s, step);
    hide Left, Joined, MembersOf, RoomsOf, SentTo;
    forall ch, k | ch in r.channels && 0 <= k < |r.broadcasts| ensures CopiesOk(r, ch, k) {
      if ch in s.channels {
        assert CopiesOk(s, ch, k);
        if step.Direct? {
          AppendedOnce(s.channels[ch].sent, step.p, k);
        }
      }
    }
  }

  lemma {:induction false} StepKeeps(s: State, step: Step)
    requires Inv(s) && Enabled(s, step)
    ensures Inv(Apply(s, step))
  {
    hide Consistent, OwnChannels, Copies, Bounded, Apply, Enabled;
    IndexKeeps(s, step);
    if step.Send? {
      SendKeeps(s, step.b);
    } else {
      OtherKeeps(s, step);
    }
  }

  // ---------- runs ----------

  ghost predicate Start(s: State)
  {
    && s.index == NOBODY && s.channels == map[]
    && forall b :: 0 <= b < |s.broadcasts| ==> s.broadcasts[b].Waiting?
  }

  ghost predicate Runs(s: State, steps: seq<Step>)
    decreases |steps|
  {
    steps == [] || (Enabled(s, steps[0]) && Runs(Apply(s, steps[0]), steps[1..]))
  }

  ghost function After(s: State, steps: seq<Step>): State
    requires Runs(s, steps)
    decreases |steps|
  {
    if steps == [] then s else After(Apply(s, steps[0]), steps[1..])
  }

  lemma {:induction false} RunKeeps(s: State, steps: seq<Step>)
    requires Inv(s) && Runs(s, steps)
    ensures Inv(After(s, steps))
    decreases |steps|
  {
    if steps != [] {
      hide Inv, Enabled, Apply;
      StepKeeps(s, steps[0]);
      RunKeeps(Apply(s, steps[0]), steps[1..]);
    }
  }

  lemma {:induction false} StartValid(s: State)
    requires Start(s)
    ensures Inv(s)
  {}

  /** Under every interleaving the two indexes agree, no room is empty, exactly the registered
  connections have a room set, and the subscriptions counted either way are the same. */
  lemma {:induction false} IndexesAgree(s: State, steps: seq<Step>)
    requires Start(s) && Runs(s, steps)
    ensures var x := After(s, steps).index;
            && Consistent(x)
            && SizeSum(x.connRooms, x.connRooms.Keys) == SizeSum(x.rooms, x.rooms.Keys)
  {
    hide After, Runs, Consistent, Copies, Bounded, OwnChannels;
    StartValid(s);
    RunKeeps(s, steps);
    SubscriptionsCounted(After(s, steps).index);
  }

  /** Under every interleaving a broadcast puts at most one copy into any channel, and none before its
  second phase; no channel holds more than its capacity. */
  lemma {:induction false} OneCopyEach(s: State, steps: seq<Step>, ch: nat, b: nat)
    requires Start(s) && Runs(s, steps) && ch in After(s, steps).channels && b < |After(s, steps).broadcasts|
    ensures var r := After(s, steps);
            && AtMostOnce(r.channels[ch].sent, b)
            && (!r.broadcasts[b].Removing? ==> b !in r.channels[ch].sent)
            && r.channels[ch].waiting <= r.channels[ch].capacity
  {
    hide After, Runs, Consistent, OwnChannels, AtMostOnce;
    StartValid(s);
    RunKeeps(s, steps);
    assert CopiesOk(After(s, steps), ch, b);
  }

  // ---------- membership, from the calls alone ----------

  /** The channel with which `c` is connected: that of its latest registration, unless it was deregistered
  or dropped after that. */
  ghost function Connected(steps: seq<Step>, c: string): Option<nat>
  {
    if steps == [] then None
    else
      var before, step := steps[..|steps| - 1], steps[|steps| - 1];
      match step
      case Register(d, channel) => if d == c then Some(channel) else Connected(before, c)
      case Deregister(d) => if d == c then None else Connected(before, c)
      case Remove(_, d) => if d == c then None else Connected(before, c)
      case _ => Connected(before, c)
  }

  /** `c` listens to `r`: of the calls that name both, the latest that took effect was a subscription, and
  `c` was connected ever since. */
  ghost predicate Listens(steps: seq<Step>, c: string, r: string)
  {
    steps != []
    && var before, step := steps[..|steps| - 1], steps[|steps| - 1];
       match step
       case Subscribe(d, rooms) => Listens(before, c, r) || (d == c && r in rooms && Connected(before, c).Some?)
       case Unsubscribe(d, rooms) => Listens(before, c, r) && !(d == c && r in rooms)
       case Deregister(d) => Listens(before, c, r) && d != c
       case Remove(_, d) => Listens(before, c, r) && d != c
       case _ => Listens(before, c, r)
  }

  lemma {:induction false} AfterSnoc(s: State, steps: seq<Step>)
    requires Runs(s, steps) && steps != []
    ensures var before, last := steps[..|steps| - 1], steps[|steps| - 1];
            Runs(s, before) && Enabled(After(s, before), last) && After(s, steps) == Apply(After(s, before), last)
    decreases |steps|
  {
    hide Enabled, Apply;
    if |steps| > 1 {
      var t := Apply(s, steps[0]);
      AfterSnoc(t, steps[1..]);
      assert steps[1..][..|steps[1..]| - 1] == steps[..|steps| - 1][1..] && steps[1..][|steps[1..]| - 1] == steps[|steps| - 1];
      assert steps[..|steps| - 1][0] == steps[0];
    } else {
      assert steps[..0] == [] && steps[1..] == [];
    }
  }

  ghost predicate AsTheCallsSay(x: Index, steps: seq<Step>)
  {
    && (forall c :: c in x.conns <==> Connected(steps, c).Some?)
    && (forall c :: c in x.conns ==> x.conns[c] == Connected(steps, c).value)
    && (forall c, r :: c in MembersOf(x, r) <==> Listens(steps, c, r))
  }

  lemma {:induction false} StepAsCalled(s: State, before: seq<Step>, step: Step)
    requires Inv(s) && Enabled(s, step) && AsTheCallsSay(s.index, before)
    ensures AsTheCallsSay(Apply(s, step).index, before + [step])
  {
    hide SentTo, Takes, Left, Joined, Copies, Bounded, OwnChannels, Consistent;
    var steps, x, y := before + [step], s.index, Apply(s, step).index;
    assert steps[..|steps| - 1] == before;
    forall c, r ensures c in MembersOf(y, r) <==> Listens(steps, c, r) {
      hide Connected;
      assert c in MembersOf(x, r) <==> Listens(before, c, r);
      match step
      case Subscribe(d, rooms) => SubscribeMembers(x, d, rooms, r);
      case Unsubscribe(d, rooms) => UnsubscribeMembers(x, d, rooms, r);
      case Deregister(d) => DeregisterMembers(x, d);
      case Remove(_, d) => DeregisterMembers(x, d);
      case _ =>
    }
  }

  /** In every interleaving the hub holds what the calls say: who is connected, with which channel, and who
  listens to which room. */
  lemma {:induction false} MembersAreListeners(s: State, steps: seq<Step>)
    requires Start(s) && Runs(s, steps)
    ensures AsTheCallsSay(After(s, steps).index, steps)
    decreases |steps|
  {
    hide Inv, Enabled, Apply, AsTheCallsSay;
    if steps == [] {
      NobodyListens(s);
    } else {
      var n := |steps| - 1;
      AfterSnoc(s, steps);
      MembersAreListeners(s, steps[..n]);
      StartValid(s);
      RunKeeps(s, steps[..n]);
      StepAsCalled(After(s, steps[..n]), steps[..n], steps[n]);
      assert steps[..n] + [steps[n]] == steps;
    }
  }

  lemma {:induction false} NobodyListens(s: State)
    requires Start(s)
    ensures AsTheCallsSay(s.index, [])
  {}

  // ---------- what a broadcast does ----------

  /** Its first phase collects the members, its second puts one copy into each of their channels that is
  open and not full, and marks the others for removal; nothing else changes. */
  lemma {:induction false} PhasesExactly(s: State, b: nat)
    ensures Enabled(s, Target(b)) ==>
              Apply(s, Target(b)) == s.(broadcasts := s.broadcasts[b := Targeted(MembersOf(s.index, s.broadcasts[b].room))])
    ensures Enabled(s, Send(b)) ==>
              var r, targets := Apply(s, Send(b)), s.broadcasts[b].targets;
              && r.index == s.index && r.channels.Keys == s.channels.Keys
              && (forall ch :: ch in s.channels ==>
                    r.channels[ch] == if (exists c :: c in targets && c in s.index.conns && s.index.conns[c] == ch)
                                         && s.channels[ch].open && s.channels[ch].waiting < s.channels[ch].capacity
                                      then Channel(true, s.channels[ch].capacity, s.channels[ch].waiting + 1, s.channels[ch].sent + [b])
                                      else s.channels[ch])
              && r.broadcasts[b].Removing?
              && forall c :: c in r.broadcasts[b].dead
                        <==> c in targets && c in s.index.conns
                             && !(s.index.conns[c] in s.channels && s.channels[s.index.conns[c]].open
                                  && s.channels[s.index.conns[c]].waiting < s.channels[s.index.conns[c]].capacity)
  {
    if Enabled(s, Send(b)) {
      var targets := s.broadcasts[b].targets;
      var r := Apply(s, Send(b));
      forall ch | ch in s.channels
        ensures r.channels[ch] == if (exists c :: c in targets && c in s.index.conns && s.index.conns[c] == ch)
                                     && s.channels[ch].open && s.channels[ch].waiting < s.channels[ch].capacity
                                  then Channel(true, s.channels[ch].capacity, s.channels[ch].waiting + 1, s.channels[ch].sent + [b])
                                  else s.channels[ch]
      {
        DeliveredTo(s.channels, s.index.conns, targets, b, ch);
      }
    }
  }

  /** Its third phase drops the marked connections one by one. */
  lemma {:induction false} RemovesOneByOne(s: State, b: nat, c: string)
    requires Enabled(s, Remove(b, c))
    ensures var r := Apply(s, Remove(b, c));
            && r.broadcasts[b].Removing? && r.broadcasts[b].dead == s.broadcasts[b].dead - {c}
            && |r.broadcasts[b].dead| < |s.broadcasts[b].dead| && c !in r.index.conns
            && r.channels == s.channels && r.index == Apply(s, Deregister(c)).index
  {}

  /** Nothing in the hub waits for anything: calls come at any moment, a registration with a channel that no
  other connection has, and a broadcast always has its next phase. */
  lemma {:induction false} NothingBlocks(s: State, c: string, channel: nat, rooms: set<string>, b: nat)
    ensures (forall d :: d in s.index.conns ==> s.index.conns[d] != channel) ==> Enabled(s, Register(c, channel))
    ensures Enabled(s, Deregister(c)) && Enabled(s, Subscribe(c, rooms)) && Enabled(s, Unsubscribe(c, rooms))
    ensures b < |s.broadcasts| ==> Enabled(s, Target(b)) || Enabled(s, Send(b)) || (s.broadcasts[b].Removing? && (c in s.broadcasts[b].dead ==> Enabled(s, Remove(b, c))))
  {}

  /** What happens at the other end of a channel: it opens empty, gives up one message, or closes. */
  lemma {:induction false} OtherEnd(s: State, channel: nat, capacity: nat)
    ensures Enabled(s, Open(channel, capacity)) ==>
              Apply(s, Open(channel, capacity)) == s.(channels := s.channels[channel := Channel(true, capacity, 0, [])])
    ensures Enabled(s, Receive(channel)) ==>
              var r := Apply(s, Receive(channel));
              r == s.(channels := r.channels) && r.channels.Keys == s.channels.Keys
              && r.channels[channel].waiting + 1 == s.channels[channel].waiting && r.channels[channel].sent == s.channels[channel].sent
    ensures Enabled(s, Close(channel)) ==> !Apply(s, Close(channel)).channels[channel].open
  {}

  /** A direct message goes into the channel it was meant for, if that takes it. */
  lemma {:induction false} DirectExactly(s: State, channel: nat, p: Payload)
    requires Enabled(s, Direct(channel, p))
    ensures var r := Apply(s, Direct(channel, p));
            r == s.(channels := r.channels)
            && r.channels == if channel in s.channels && s.channels[channel].open && s.channels[channel].waiting < s.channels[channel].capacity
                             then s.channels[channel := Channel(true, s.channels[channel].capacity, s.channels[channel].waiting + 1,
                                                                s.channels[channel].sent + [p])]
                             else s.channels
  {}
}
