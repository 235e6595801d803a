/** The gateway's room hub (yunmao-gateway `hub.rs`): which connection listens to which room, kept
as two maps, and broadcasts that run between other calls. */
module Hub {
  import opened Options

  /** The indexes. `conns` gives each connection the channel it is written through. */
  datatype Index = Index(conns: map<string, nat>, rooms: map<string, set<string>>, connRooms: map<string, set<string>>)

  const NOBODY := Index(map[], map[], map[])

  // ---------- the calls as functions ----------

  function RoomsOf(x: Index, c: string): set<string>
  {
    if c in x.connRooms then x.connRooms[c] else {}
  }

  function MembersOf(x: Index, r: string): set<string>
  {
    if r in x.rooms then x.rooms[r] else {}
  }

  /** `c` leaves the rooms `rs`; a room nobody is left in disappears. */
  function Left(rooms: map<string, set<string>>, c: string, rs: set<string>): map<string, set<string>>
  {
    map r | r in rooms && !(r in rs && rooms[r] <= {c}) :: if r in rs then rooms[r] - {c} else rooms[r]
  }

  function Joined(rooms: map<string, set<string>>, c: string, rs: set<string>): map<string, set<string>>
  {
    map r | r in rooms.Keys + rs :: (if r in rooms then rooms[r] else {}) + if r in rs then {c} else {}
  }

  function Registered(x: Index, c: string, channel: nat): Index
  {
    Index(x.conns[c := channel], x.rooms, x.connRooms[c := RoomsOf(x, c)])
  }

  function Deregistered(x: Index, c: string): Index
  {
    Index(x.conns - {c}, Left(x.rooms, c, RoomsOf(x, c)), x.connRooms - {c})
  }

  /** Only a registered connection can subscribe. */
  function Subscribed(x: Index, c: string, rs: set<string>): Index
  {
    if c !in x.conns then x
    else Index(x.conns, Joined(x.rooms, c, rs - RoomsOf(x, c)), x.connRooms[c := RoomsOf(x, c) + rs])
  }

  function Unsubscribed(x: Index, c: string, rs: set<string>): Index
  {
    Index(x.conns, Left(x.rooms, c, rs), if c in x.connRooms then x.connRooms[c := x.connRooms[c] - rs] else x.connRooms)
  }

  // ---------- the invariant ----------

  /** The two maps tell the same story, no room is empty, and exactly the registered connections have
  a room set. */
  ghost predicate Consistent(x: Index)
  {
    && x.conns.Keys == x.connRooms.Keys
    && (forall r :: r in x.rooms ==> x.rooms[r] != {})
    && (forall c, r :: c in MembersOf(x, r) <==> r in RoomsOf(x, c))
  }

  lemma {:induction false} RegisterKeeps(x: Index, c: string, channel: nat)
    requires Consistent(x)
    ensures Consistent(Registered(x, c, channel))
  {
    var y := Registered(x, c, channel);
    assert forall d :: RoomsOf(y, d) == RoomsOf(x, d);
    assert forall r :: MembersOf(y, r) == MembersOf(x, r);
  }

  lemma {:induction false} LeftMembers(x: Index, c: string, rs: set<string>, r: string)
    ensures var y := Index(x.conns, Left(x.rooms, c, rs), x.connRooms);
            MembersOf(y, r) == if r in rs then MembersOf(x, r) - {c} else MembersOf(x, r)
  {}

  lemma {:induction false} DeregisterKeeps(x: Index, c: string)
    requires Consistent(x)
    ensures Consistent(Deregistered(x, c))
    ensures forall r :: c !in MembersOf(Deregistered(x, c), r)
  {
    var y := Deregistered(x, c);
    forall r ensures MembersOf(y, r) == MembersOf(x, r) - {c} {
      LeftMembers(x, c, RoomsOf(x, c), r);
      assert c in MembersOf(x, r) <==> r in RoomsOf(x, c);
    }
    assert forall d :: RoomsOf(y, d) == if d == c then {} else RoomsOf(x, d);
    forall d, r ensures d in MembersOf(y, r) <==> r in RoomsOf(y, d) {
      assert d in MembersOf(x, r) <==> r in RoomsOf(x, d);
    }
  }

  lemma {:induction false} JoinedMembers(x: Index, c: string, rs: set<string>, r: string)
    ensures var y := Index(x.conns, Joined(x.rooms, c, rs), x.connRooms);
            MembersOf(y, r) == MembersOf(x, r) + if r in rs then {c} else {}
  {}

  lemma {:induction false} SubscribeKeeps(x: Index, c: string, rs: set<string>)
    requires Consistent(x)
    ensures Consistent(Subscribed(x, c, rs))
  {
    if c in x.conns {
      var y := Subscribed(x, c, rs);
      forall r ensures MembersOf(y, r) == MembersOf(x, r) + if r in rs - RoomsOf(x, c) then {c} else {} {
        JoinedMembers(x, c, rs - RoomsOf(x, c), r);
      }
      assert forall d :: RoomsOf(y, d) == if d == c then RoomsOf(x, c) + rs else RoomsOf(x, d);
      forall d, r ensures d in MembersOf(y, r) <==> r in RoomsOf(y, d) {
        assert d in MembersOf(x, r) <==> r in RoomsOf(x, d);
      }
    }
  }

  lemma {:induction false} UnsubscribeKeeps(x: Index, c: string, rs: set<string>)
    requires Consistent(x)
    ensures Consistent(Unsubscribed(x, c, rs))
  {
    var y := Unsubscribed(x, c, rs);
    forall r ensures MembersOf(y, r) == if r in rs then MembersOf(x, r) - {c} else MembersOf(x, r) {
      LeftMembers(x, c, rs, r);
    }
    assert forall d :: RoomsOf(y, d) == if d == c then RoomsOf(x, c) - rs else RoomsOf(x, d);
    forall d, r ensures d in MembersOf(y, r) <==> r in RoomsOf(y, d) {
      assert d in MembersOf(x, r) <==> r in RoomsOf(x, d);
    }
  }

  // ---------- who is a member ----------

  lemma {:induction false} SubscribeMembers(x: Index, c: string, rs: set<string>, r: string)
    requires Consistent(x)
    ensures MembersOf(Subscribed(x, c, rs), r) == MembersOf(x, r) + if c in x.conns && r in rs then {c} else {}
  {
    if c in x.conns {
      JoinedMembers(x, c, rs - RoomsOf(x, c), r);
      assert c in MembersOf(x, r) <==> r in RoomsOf(x, c);
    }
  }

  lemma {:induction false} UnsubscribeMembers(x: Index, c: string, rs: set<string>, r: string)
    ensures MembersOf(Unsubscribed(x, c, rs), r) == MembersOf(x, r) - if r in rs then {c} else {}
  {
    LeftMembers(x, c, rs, r);
  }

  // ---------- counting ----------

  function Pairs(m: map<string, set<string>>): set<(string, string)>
  {
    set k, v | k in m && v in m[k] :: (k, v)
  }

  /** The sum of the sizes, over the keys `ks`. */
  ghost function SizeSum(m: map<string, set<string>>, ks: set<string>): nat
    requires ks <= m.Keys
  {
    if ks == {} then 0
    else
      var k :| k in ks;
      |m[k]| + SizeSum(m, ks - {k})
  }

  lemma {:induction false} SizeSumCountsPairs(m: map<string, set<string>>, ks: set<string>)
    requires ks <= m.Keys
    ensures SizeSum(m, ks) == |(set k, v | k in ks && v in m[k] :: (k, v))|
  {
    var all := set k, v | k in ks && v in m[k] :: (k, v);
    if ks == {} {
      assert all == {};
    } else {
      var k :| k in ks && SizeSum(m, ks) == |m[k]| + SizeSum(m, ks - {k});
      SizeSumCountsPairs(m, ks - {k});
      var rest := set j, v | j in ks - {k} && v in m[j] :: (j, v);
      var mine := set v | v in m[k] :: (k, v);
      assert all == rest + mine && rest * mine == {};
      TaggedSize(k, m[k]);
    }
  }

  lemma {:induction false} TaggedSize(k: string, s: set<string>)
    ensures |(set v | v in s :: (k, v))| == |s|
  {
    if s != {} {
      var v :| v in s;
      TaggedSize(k, s - {v});
      assert (set u | u in s :: (k, u)) == (set u | u in s - {v} :: (k, u)) + {(k, v)};
    }
  }

  lemma {:induction false} SwappedSize(p: set<(string, string)>)
    ensures |(set q | q in p :: (q.1, q.0))| == |p|
  {
    if p != {} {
      var q :| q in p;
      SwappedSize(p - {q});
      assert (set o | o in p :: (o.1, o.0)) == (set o | o in p - {q} :: (o.1, o.0)) + {(q.1, q.0)};
    }
  }

  /** The subscriptions counted by connection are those counted by room. */
  lemma {:induction false} SubscriptionsCounted(x: Index)
    requires Consistent(x)
    ensures SizeSum(x.connRooms, x.connRooms.Keys) == SizeSum(x.rooms, x.rooms.Keys)
  {
    SizeSumCountsPairs(x.connRooms, x.connRooms.Keys);
    SizeSumCountsPairs(x.rooms, x.rooms.Keys);
    var p, q := Pairs(x.connRooms), Pairs(x.rooms);
    forall c, r ensures (c, r) in p <==> (r, c) in q {
      assert c in MembersOf(x, r) <==> r in RoomsOf(x, c);
    }
    assert q == (set o | o in p :: (o.1, o.0)) by {
      forall o | o in q ensures o in (set o | o in p :: (o.1, o.0)) {
        assert (o.1, o.0) in p;
      }
    }
    SwappedSize(p);
    assert p == (set k, v | k in x.connRooms.Keys && v in x.connRooms[k] :: (k, v));
    assert q == (set k, v | k in x.rooms.Keys && v in x.rooms[k] :: (k, v));
  }

  // ---------- the hub, changed in place ----------

  type Payload = nat

  /** The receiving end of a connection: everything ever put in, how much of it still waits, and how
  much may wait. */
  datatype Channel = Channel(open: bool, capacity: nat, waiting: nat, sent: seq<Payload>)

  type Channels = map<nat, Channel>

  /** `try_send` succeeds on an open channel that is not full. */
  predicate Takes(chs: Channels, ch: nat)
  {
    ch in chs && chs[ch].open && chs[ch].waiting < chs[ch].capacity
  }

  function Put(c: Channel, p: Payload): Channel { c.(waiting := c.waiting + 1, sent := c.sent + [p]) }

  function AsSet(rs: seq<string>): set<string> { set r | r in rs }

  lemma {:induction false} AsSetSnoc(rs: seq<string>, i: nat)
    requires i < |rs|
    ensures AsSet(rs[..i + 1]) == AsSet(rs[..i]) + {rs[i]}
  {
    assert rs[..i + 1] == rs[..i] + [rs[i]];
  }

  lemma {:induction false} LeftOnce(rooms: map<string, set<string>>, c: string, rs: set<string>, r: string)
    ensures Left(rooms, c, rs + {r}) == Left(Left(rooms, c, rs), c, {r})
  {
    var a, b := Left(rooms, c, rs + {r}), Left(Left(rooms, c, rs), c, {r});
    assert a.Keys == b.Keys;
    assert forall q :: q in a ==> a[q] == b[q];
  }

  lemma {:induction false} JoinedOnce(rooms: map<string, set<string>>, c: string, rs: set<string>, r: string)
    ensures Joined(rooms, c, rs + {r}) == Joined(Joined(rooms, c, rs), c, {r})
  {
    var m := Joined(rooms, c, rs);
    var a, b := Joined(rooms, c, rs + {r}), Joined(m, c, {r});
    assert a.Keys == b.Keys;
    forall q | q in a ensures a[q] == b[q] {
      assert q in m ==> m[q] == (if q in rooms then rooms[q] else {}) + if q in rs then {c} else {};
    }
  }

  ghost predicate OwnChannels(conns: map<string, nat>)
  {
    forall c, d :: c in conns && d in conns && conns[c] == conns[d] ==> c == d
  }

  /** The targets that are connected and whose channel takes a message. */
  function Reached(chs: Channels, conns: map<string, nat>, targets: set<string>): set<string>
  {
    set c | c in targets && c in conns && Takes(chs, conns[c])
  }

  /** Every channel of a reached target gets one copy, the others none. */
  ghost function SentTo(chs: Channels, conns: map<string, nat>, targets: set<string>, p: Payload): Channels
  {
    map ch | ch in chs :: if exists c :: c in Reached(chs, conns, targets) && conns[c] == ch then Put(chs[ch], p) else chs[ch]
  }

  lemma {:induction false} SentToNobody(chs: Channels, conns: map<string, nat>, p: Payload)
    ensures SentTo(chs, conns, {}, p) == chs && Reached(chs, conns, {}) == {}
  {}

  /** A channel after a message to some targets: one copy more if it is that of a connected target, open and
  not full; else as before. */
  lemma {:induction false} DeliveredTo(chs: Channels, conns: map<string, nat>, targets: set<string>, p: Payload, ch: nat)
    requires ch in chs
    ensures var mine := exists c :: c in targets && c in conns && conns[c] == ch;
            && SentTo(chs, conns, targets, p).Keys == chs.Keys
            && SentTo(chs, conns, targets, p)[ch]
               == if mine && chs[ch].open && chs[ch].waiting < chs[ch].capacity
                  then Channel(true, chs[ch].capacity, chs[ch].waiting + 1, chs[ch].sent + [p])
                  else chs[ch]
  {
    if c :| c in targets && c in conns && conns[c] == ch {
      assert c in Reached(chs, conns, targets) <==> chs[ch].open && chs[ch].waiting < chs[ch].capacity;
    }
  }

  /** Who is reached: the targets whose connection has an open channel that is not full. */
  lemma {:induction false} ReachedExactly(chs: Channels, conns: map<string, nat>, targets: set<string>, c: string)
    ensures c in Reached(chs, conns, targets)
       <==> c in targets && c in conns && conns[c] in chs && chs[conns[c]].open && chs[conns[c]].waiting < chs[conns[c]].capacity
  {}

  /** Sending to one more target. */
  lemma {:induction false} OneMoreTarget(chs: Channels, conns: map<string, nat>, done: set<string>, c: string, p: Payload)
    requires OwnChannels(conns) && c !in done
    ensures var now := SentTo(chs, conns, done, p);
            var ch := if c in conns then conns[c] else 0;
            && (c in conns ==> (Takes(now, ch) <==> Takes(chs, ch)))
            && SentTo(chs, conns, done + {c}, p) == (if c in conns && Takes(chs, ch) then now[ch := Put(now[ch], p)] else now)
            && |Reached(chs, conns, done + {c})| == |Reached(chs, conns, done)| + (if c in conns && Takes(chs, ch) then 1 else 0)
  {
    var now, next := SentTo(chs, conns, done, p), SentTo(chs, conns, done + {c}, p);
    var a, b := Reached(chs, conns, done), Reached(chs, conns, done + {c});
    if c in conns {
      assert c in conns && Takes(chs, conns[c]) ==> b == a + {c};
      assert !Takes(chs, conns[c]) ==> b == a;
      if conns[c] in chs {
        assert now[conns[c]] == chs[conns[c]];
      }
    } else {
      assert b == a;
    }
    assert next.Keys == now.Keys == chs.Keys;
    forall ch | ch in chs ensures next[ch] == if c in b && conns[c] == ch then Put(now[ch], p) else now[ch] {
      assert c !in a;
    }
  }

  /** Dropping a connection takes it out of every room and leaves the rest. */
  lemma {:induction false} DeregisterMembers(x: Index, c: string)
    requires Consistent(x)
    ensures forall r :: MembersOf(Deregistered(x, c), r) == MembersOf(x, r) - {c}
  {
    forall r ensures MembersOf(Deregistered(x, c), r) == MembersOf(x, r) - {c} {
      LeftMembers(x, c, RoomsOf(x, c), r);
      assert c in MembersOf(x, r) <==> r in RoomsOf(x, c);
    }
  }

  /** Only the connections `gone` were dropped. */
  ghost predicate Dropped(before: Index, now: Index, gone: set<string>)
  {
    now.conns == before.conns - gone && forall r :: MembersOf(now, r) == MembersOf(before, r) - gone
  }

  lemma {:induction false} DropNone(x: Index)
    ensures Dropped(x, x, {})
  {}

  lemma {:induction false} DropOneMore(before: Index, now: Index, gone: set<string>, c: string)
    requires Consistent(now) && Dropped(before, now, gone)
    ensures Dropped(before, Deregistered(now, c), gone + {c})
  {
    DeregisterMembers(now, c);
    hide Consistent, Left, MembersOf;
    assert before.conns - gone - {c} == before.conns - (gone + {c});
  }

  lemma {:induction false} DroppedAll(before: Index, now: Index, gone: set<string>)
    requires Dropped(before, now, gone)
    ensures now.conns == before.conns - gone && forall r :: MembersOf(now, r) == MembersOf(before, r) - gone
  {}

  lemma {:induction false} MembersConnected(x: Index, r: string)
    requires Consistent(x)
    ensures MembersOf(x, r) <= x.conns.Keys
  {
    forall c | c in MembersOf(x, r) ensures c in x.conns {
      assert r in RoomsOf(x, c);
    }
  }

  class Hub {
    var conns: map<string, nat>
    var rooms: map<string, set<string>>
    var connRooms: map<string, set<string>>
    /** The channels' other ends. */
    var channels: Channels

    function View(): Index
      reads this
    {
      Index(conns, rooms, connRooms)
    }

    constructor ()
      ensures View() == NOBODY && channels == map[]
    {
      conns, rooms, connRooms, channels := map[], map[], map[], map[];
    }

    method Register(c: string, channel: nat)
      modifies this
      ensures View() == Registered(old(View()), c, channel) && channels == old(channels)
    {
      conns := conns[c := channel];
      if c !in connRooms {
        connRooms := connRooms[c := {}];
      }
    }

    method LeaveRoom(c: string, r: string)
      modifies this`rooms
      ensures rooms == Left(old(rooms), c, {r})
    {
      if r in rooms {
        var left := rooms[r] - {c};
        if left == {} {
          rooms := rooms - {r};
        } else {
          rooms := rooms[r := left];
        }
      }
    }

    method Deregister(c: string)
      modifies this
      ensures View() == Deregistered(old(View()), c) && channels == old(channels)
    {
      hide Left, Joined;
      conns := conns - {c};
      if c in connRooms {
        var todo := connRooms[c];
        ghost var all := todo;
        connRooms := connRooms - {c};
        NobodyLeft(rooms, c);
        assert all - todo == {};
        while todo != {}
          invariant todo <= all && rooms == Left(old(rooms), c, all - todo)
          invariant conns == old(conns) - {c} && connRooms == old(connRooms) - {c} && channels == old(channels)
          decreases |todo|
        {
          var r :| r in todo;
          LeftOnce(old(rooms), c, all - todo, r);
          assert all - (todo - {r}) == all - todo + {r};
          LeaveRoom(c, r);
          todo := todo - {r};
        }
        assert all - {} == all;
      } else {
        NobodyLeft(rooms, c);
        assert connRooms - {c} == connRooms;
      }
    }

    lemma {:induction false} NobodyLeft(rs: map<string, set<string>>, c: string)
      ensures Left(rs, c, {}) == rs && Joined(rs, c, {}) == rs
    {
      var a, b := Left(rs, c, {}), Joined(rs, c, {});
      assert a.Keys == rs.Keys && b.Keys == rs.Keys;
      assert forall r :: r in rs ==> b[r] == rs[r];
    }

    method Subscribe(c: string, rs: seq<string>)
      modifies this
      ensures View() == Subscribed(old(View()), c, AsSet(rs)) && channels == old(channels)
    {
      if c !in conns {
        return;
      }
      var mine := if c in connRooms then connRooms[c] else {};
      ghost var before := mine;
      var toAdd: seq<string> := [];
      assert AsSet(rs[..0]) == {};
      for i := 0 to |rs|
        invariant mine == before + AsSet(rs[..i]) && AsSet(toAdd) == AsSet(rs[..i]) - before
        invariant View() == old(View()) && channels == old(channels)
      {
        AsSetSnoc(rs, i);
        if rs[i] !in mine {
          mine := mine + {rs[i]};
          AsSetSnoc(toAdd + [rs[i]], |toAdd|);
          assert (toAdd + [rs[i]])[..|toAdd|] == toAdd && (toAdd + [rs[i]])[..|toAdd| + 1] == toAdd + [rs[i]];
          toAdd := toAdd + [rs[i]];
        }
      }
      assert rs[..|rs|] == rs;
      connRooms := connRooms[c := mine];
      NobodyLeft(rooms, c);
      assert AsSet(toAdd[..0]) == {};
      for i := 0 to |toAdd|
        invariant rooms == Joined(old(rooms), c, AsSet(toAdd[..i]))
        invariant conns == old(conns) && connRooms == old(connRooms)[c := mine] && channels == old(channels)
      {
        AsSetSnoc(toAdd, i);
        JoinedOnce(old(rooms), c, AsSet(toAdd[..i]), toAdd[i]);
        var r := toAdd[i];
        JoinRoom(c, r);
      }
      assert toAdd[..|toAdd|] == toAdd;
    }

    method JoinRoom(c: string, r: string)
      modifies this`rooms
      ensures rooms == Joined(old(rooms), c, {r})
    {
      ghost var goal := Joined(rooms, c, {r});
      rooms := rooms[r := (if r in rooms then rooms[r] else {}) + {c}];
      assert rooms.Keys == goal.Keys;
      assert forall q :: q in goal ==> rooms[q] == goal[q];
    }

    method Unsubscribe(c: string, rs: seq<string>)
      modifies this
      ensures View() == Unsubscribed(old(View()), c, AsSet(rs)) && channels == old(channels)
    {
      if c in connRooms {
        connRooms := connRooms[c := connRooms[c] - AsSet(rs)];
      }
      NobodyLeft(rooms, c);
      assert AsSet(rs[..0]) == {};
      for i := 0 to |rs|
        invariant rooms == Left(old(rooms), c, AsSet(rs[..i])) && channels == old(channels)
        invariant conns == old(conns)
        invariant connRooms == if c in old(connRooms) then old(connRooms)[c := old(connRooms)[c] - AsSet(rs)] else old(connRooms)
      {
        AsSetSnoc(rs, i);
        LeftOnce(old(rooms), c, AsSet(rs[..i]), rs[i]);
        LeaveRoom(c, rs[i]);
      }
      assert rs[..|rs|] == rs;
    }

    /** `broadcast` when nothing interferes. Connections own their channels. */
    method Broadcast(room: string, p: Payload) returns (delivered: nat)
      requires Consistent(View()) && OwnChannels(conns)
      modifies this
      ensures channels == SentTo(old(channels), old(conns), MembersOf(old(View()), room), p)
      ensures delivered == |Reached(old(channels), old(conns), MembersOf(old(View()), room))|
      ensures Consistent(View())
      ensures var dead := MembersOf(old(View()), room) - Reached(old(channels), old(conns), MembersOf(old(View()), room));
              && conns == old(conns) - dead
              && forall r :: MembersOf(View(), r) == MembersOf(old(View()), r) - dead
    {
      if room !in rooms {
        SentToNobody(channels, conns, p);
        return 0;
      }
      var targets := rooms[room];
      var dead;
      MembersConnected(View(), room);
      hide SentTo, Consistent, Takes;
      delivered, dead := SendAll(targets, p);
      RemoveAll(dead);
    }

    /** `send_direct` when nothing interferes: a connection that cannot take the message is dropped. */
    method SendDirect(c: string, p: Payload) returns (sent: bool)
      modifies this
      ensures sent <==> c in old(conns) && Takes(old(channels), old(conns)[c])
      ensures sent ==> channels == old(channels)[old(conns)[c] := Put(old(channels)[old(conns)[c]], p)]
      ensures !sent ==> channels == old(channels)
      ensures View() == if !sent && c in old(conns) then Deregistered(old(View()), c) else old(View())
    {
      if c !in conns {
        return false;
      }
      var ch := conns[c];
      sent := Takes(channels, ch);
      if sent {
        channels := channels[ch := Put(channels[ch], p)];
      } else {
        Deregister(c);
      }
    }

    /** The second phase: one message to every target that is still connected. */
    method SendAll(targets: set<string>, p: Payload) returns (delivered: nat, dead: set<string>)
      requires OwnChannels(conns)
      modifies this`channels
      ensures channels == SentTo(old(channels), conns, targets, p)
      ensures delivered == |Reached(old(channels), conns, targets)|
      ensures dead == set c | c in targets && c in conns && !Takes(old(channels), conns[c])
    {
      delivered, dead := 0, {};
      var todo := targets;
      SentToNobody(channels, conns, p);
      assert targets - todo == {};
      while todo != {}
        invariant todo <= targets && channels == SentTo(old(channels), conns, targets - todo, p)
        invariant delivered == |Reached(old(channels), conns, targets - todo)|
        invariant dead == set c | c in targets - todo && c in conns && !Takes(old(channels), conns[c])
        decreases |todo|
      {
        var c :| c in todo;
        ghost var done := targets - todo;
        assert targets - (todo - {c}) == done + {c};
        OneMoreTarget(old(channels), conns, done, c, p);
        if c in conns {
          var ch := conns[c];
          if Takes(channels, ch) {
            channels := channels[ch := Put(channels[ch], p)];
            delivered := delivered + 1;
          } else {
            dead := dead + {c};
          }
        }
        todo := todo - {c};
      }
      assert targets - {} == targets;
    }

    /** The third phase: failed connections are dropped. */
    method RemoveAll(dead: set<string>)
      requires Consistent(View())
      modifies this
      ensures Consistent(View()) && channels == old(channels)
      ensures conns == old(conns) - dead
      ensures forall r :: MembersOf(View(), r) == MembersOf(old(View()), r) - dead
    {
      hide Consistent, Deregistered, Dropped;
      ghost var before := View();
      var todo := dead;
      assert dead - todo == {};
      DropNone(before);
      while todo != {}
        invariant todo <= dead && Consistent(View()) && channels == old(channels)
        invariant Dropped(before, View(), dead - todo)
        decreases |todo|
      {
        var c :| c in todo;
        DeregisterKeeps(View(), c);
        DropOneMore(before, View(), dead - todo, c);
        assert dead - (todo - {c}) == dead - todo + {c};
        Deregister(c);
        todo := todo - {c};
      }
      assert dead - {} == dead;
      DroppedAll(before, View(), dead);
    }

    /** `metrics` */
    method Metrics() returns (connections: nat, subscriptions: nat)
      ensures connections == |conns| && subscriptions == |Pairs(connRooms)|
    {
      connections := |conns|;
      subscriptions := 0;
      var todo := connRooms.Keys;
      ghost var counted := {};
      while todo != {}
        invariant todo <= connRooms.Keys && counted == connRooms.Keys - todo
        invariant subscriptions == |(set k, v | k in counted && v in connRooms[k] :: (k, v))|
        decreases |todo|
      {
        var k :| k in todo;
        OneMoreKey(connRooms, counted, k);
        subscriptions := subscriptions + |connRooms[k]|;
        todo, counted := todo - {k}, counted + {k};
      }
      assert Pairs(connRooms) == (set k, v | k in counted && v in connRooms[k] :: (k, v));
    }
  }

  lemma {:induction false} OneMoreKey(m: map<string, set<string>>, ks: set<string>, k: string)
    requires ks <= m.Keys && k in m && k !in ks
    ensures |(set j, v | j in ks + {k} && v in m[j] :: (j, v))| == |(set j, v | j in ks && v in m[j] :: (j, v))| + |m[k]|
  {
    var all := set j, v | j in ks + {k} && v in m[j] :: (j, v);
    var rest := set j, v | j in ks && v in m[j] :: (j, v);
    var mine := set v | v in m[k] :: (k, v);
    assert all == rest + mine && rest * mine == {};
    TaggedSize(k, m[k]);
  }
}
