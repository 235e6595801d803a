/** The idempotency cache (go/pkg/yunmao/idempotent `idempotent.go`): a list of keys in insertion
order and a map from each key to its expiry, bounded in number and in time. */
module Idempotent {
  import opened Bytes
  import opened Options
  import opened Seqs

  /** `capacity <= 0` means no bound, `ttl == 0` that keys do not expire. */
  datatype Config = Config(capacity: int, ttl: int)

  /** The list, oldest key first, and the expiry of each key; `None` is Go's zero time. */
  datatype State = State(keys: seq<string>, m: map<string, Option<int>>)

  const EMPTY := State([], map[])

  /** `ttl == 0 || now.Before(expireAt)` */
  predicate Alive(cfg: Config, expireAt: Option<int>, now: int)
  {
    cfg.ttl == 0 || (expireAt.Some? && now < expireAt.value)
  }

  function Expiry(cfg: Config, now: int): Option<int> { if cfg.ttl > 0 then Some(now + cfg.ttl) else None }

  /** `list.Remove` of a key's element. */
  function Without(keys: seq<string>, key: string): seq<string>
  {
    if keys == [] then []
    else if keys[0] == key then keys[1..]
    else [keys[0]] + Without(keys[1..], key)
  }

  function Evicted(cfg: Config, s: State): State
  {
    if cfg.capacity > 0 && |s.keys| > cfg.capacity then State(s.keys[1..], s.m - {s.keys[0]}) else s
  }

  predicate Refused(cfg: Config, s: State, key: string, now: int)
  {
    key in s.m && Alive(cfg, s.m[key], now)
  }

  /** `Insert`: the state afterwards. */
  function Inserted(cfg: Config, s: State, key: string, now: int): State
  {
    if Refused(cfg, s, key, now) then s
    else
      var keys := if key in s.m then Without(s.keys, key) else s.keys;
      Evicted(cfg, State(keys + [key], s.m[key := Expiry(cfg, now)]))
  }

  /** `Has` */
  predicate Known(cfg: Config, s: State, key: string, now: int)
  {
    key in s.m && !(cfg.ttl > 0 && s.m[key].Some? && now > s.m[key].value)
  }

  class Cache {
    const cfg: Config
    var keys: seq<string>
    var m: map<string, Option<int>>

    function View(): State
      reads this
    {
      State(keys, m)
    }

    constructor (capacity: int, ttl: int)
      ensures cfg == Config(capacity, ttl) && View() == EMPTY
    {
      cfg, keys, m := Config(capacity, ttl), [], map[];
    }

    method Insert(key: string, now: int) returns (isNew: bool)
      modifies this
      ensures isNew == !Refused(cfg, old(View()), key, now) && View() == Inserted(cfg, old(View()), key, now)
    {
      if key in m {
        if cfg.ttl == 0 || (m[key].Some? && now < m[key].value) {
          return false;
        }
        Remove(key);
        m := m - {key};
      }
      keys := keys + [key];
      var expireAt := None;
      if cfg.ttl > 0 {
        expireAt := Some(now + cfg.ttl);
      }
      m := m[key := expireAt];
      assert View() == State((if key in old(m) then Without(old(keys), key) else old(keys)) + [key], old(m)[key := Expiry(cfg, now)]);
      if cfg.capacity > 0 && |keys| > cfg.capacity {
        m := m - {keys[0]};
        keys := keys[1..];
      }
      isNew := true;
    }

    method Remove(key: string)
      modifies this`keys
      ensures keys == Without(old(keys), key)
    {
      assert keys[0..] == keys;
      for i := 0 to |keys|
        invariant keys == old(keys)
        invariant Without(keys, key) == keys[..i] + Without(keys[i..], key)
      {
        assert keys[i..][1..] == keys[i + 1..];
        if keys[i] == key {
          keys := keys[..i] + keys[i + 1..];
          return;
        }
        assert keys[..i] + ([keys[i]] + Without(keys[i + 1..], key)) == keys[..i + 1] + Without(keys[i + 1..], key);
      }
      assert keys[..|keys|] == keys && Without([], key) == [];
      EmptyConcat(keys);
    }

    method Has(key: string, now: int) returns (b: bool)
      ensures b == Known(cfg, View(), key, now)
    {
      if key !in m {
        return false;
      }
      b := !(cfg.ttl > 0 && m[key].Some? && now > m[key].value);
    }
  }

  // ---------- list and map ----------

  /** The list has no duplicates and holds the keys of the map; it keeps the capacity. */
  ghost predicate Linked(cfg: Config, s: State)
  {
    && Distinct(s.keys)
    && (forall key :: key in s.m <==> key in s.keys)
    && (cfg.capacity > 0 ==> |s.keys| <= cfg.capacity)
  }

  lemma {:induction false} WithoutAt(keys: seq<string>, p: nat)
    requires Distinct(keys) && p < |keys|
    ensures Without(keys, keys[p]) == keys[..p] + keys[p + 1..]
  {
    if p > 0 {
      assert keys[0] != keys[p];
      assert Distinct(keys[1..]);
      WithoutAt(keys[1..], p - 1);
      assert keys[1..][p - 1] == keys[p];
      assert keys[..p] == [keys[0]] + keys[1..][..p - 1] && keys[1..][p..] == keys[p + 1..];
      ConcatAssoc([keys[0]], keys[1..][..p - 1], keys[p + 1..]);
    } else {
      EmptyConcat(keys[1..]);
    }
  }

  lemma {:induction false} RemovedLinked(keys: seq<string>, p: nat)
    requires Distinct(keys) && p < |keys|
    ensures var r := keys[..p] + keys[p + 1..];
            && |r| == |keys| - 1 && Distinct(r)
            && (forall key :: key in r <==> key in keys && key != keys[p])
  {
    var r := keys[..p] + keys[p + 1..];
    assert forall i :: 0 <= i < |r| ==> r[i] == keys[if i < p then i else i + 1];
    forall key | key in keys && key != keys[p] ensures key in r {
      var i :| 0 <= i < |keys| && keys[i] == key;
      assert r[if i < p then i else i - 1] == key;
    }
  }

  lemma {:induction false} PushedLinked(keys: seq<string>, key: string)
    requires Distinct(keys) && key !in keys
    ensures Distinct(keys + [key]) && forall x :: x in keys + [key] <==> x in keys || x == key
  {}

  lemma {:induction false} EvictedLinked(cfg: Config, s: State)
    requires Distinct(s.keys) && (forall key :: key in s.m <==> key in s.keys)
    requires cfg.capacity > 0 ==> |s.keys| <= cfg.capacity + 1
    ensures Linked(cfg, Evicted(cfg, s))
  {
    if cfg.capacity > 0 && |s.keys| > cfg.capacity {
      var e := Evicted(cfg, s);
      forall key ensures key in e.m <==> key in e.keys {
        if key in s.keys && key != s.keys[0] {
          var i :| 0 <= i < |s.keys| && s.keys[i] == key;
          assert e.keys[i - 1] == key;
        }
      }
    }
  }

  /** The list without the key that is inserted again. */
  lemma {:induction false} KeysWithout(cfg: Config, s: State, key: string)
    requires Linked(cfg, s)
    ensures var keys := if key in s.m then Without(s.keys, key) else s.keys;
            && Distinct(keys) && (cfg.capacity > 0 ==> |keys| <= cfg.capacity)
            && forall x :: x in keys <==> x in s.m && x != key
  {
    if key in s.m {
      var p :| 0 <= p < |s.keys| && s.keys[p] == key;
      WithoutAt(s.keys, p);
      RemovedLinked(s.keys, p);
    }
  }

  /** List and map always hold the same keys, each once. */
  lemma {:induction false} InsertKeepsLinked(cfg: Config, s: State, key: string, now: int)
    requires Linked(cfg, s)
    ensures Linked(cfg, Inserted(cfg, s, key, now))
  {
    hide Without, Alive, Evicted, Linked, Distinct;
    if !Refused(cfg, s, key, now) {
      var keys := if key in s.m then Without(s.keys, key) else s.keys;
      KeysWithout(cfg, s, key);
      PushedLinked(keys, key);
      EvictedLinked(cfg, State(keys + [key], s.m[key := Expiry(cfg, now)]));
    }
  }

  // ---------- the accepted insertions ----------

  /** An accepted insertion. */
  datatype Insertion = Insertion(key: string, time: int)

  predicate Fresh(cfg: Config, i: Insertion, now: int)
  {
    cfg.ttl == 0 || (cfg.ttl > 0 && now < i.time + cfg.ttl)
  }

  ghost predicate Chronological(log: seq<Insertion>, now: int)
  {
    && (forall i, j :: 0 <= i < j < |log| ==> log[i].time <= log[j].time)
    && (forall i :: 0 <= i < |log| ==> log[i].time <= now)
  }

  /** How many of the latest insertions are still fresh, at most the capacity. */
  function FreshCount(cfg: Config, log: seq<Insertion>, now: int): (n: nat)
    ensures n <= |log|
  {
    if log == [] || !Fresh(cfg, log[|log| - 1], now) then 0 else 1 + FreshCount(cfg, log[..|log| - 1], now)
  }

  function Kept(cfg: Config, log: seq<Insertion>, now: int): (n: nat)
    ensures n <= |log|
  {
    var n := FreshCount(cfg, log, now);
    if cfg.capacity > 0 && n > cfg.capacity then cfg.capacity else n
  }

  /** The end of the list is the end of the log, as far as that is fresh and within the capacity. */
  ghost predicate EndsAlike(keys: seq<string>, log: seq<Insertion>, n: nat)
  {
    n <= |keys| && n <= |log|
    && forall j :: |log| - n <= j < |log| ==> keys[|keys| - |log| + j] == log[j].key
  }

  /** `j` is the latest insertion of `key`. */
  ghost predicate Latest(log: seq<Insertion>, key: string, j: int)
  {
    0 <= j < |log| && log[j].key == key && forall i :: j < i < |log| ==> log[i].key != key
  }

  /** Every key in the map expires as its latest insertion says. */
  ghost predicate Dated(cfg: Config, s: State, log: seq<Insertion>)
  {
    forall key :: key in s.m ==> exists j :: Latest(log, key, j) && s.m[key] == Expiry(cfg, log[j].time)
  }

  ghost predicate Inv(cfg: Config, s: State, log: seq<Insertion>, now: int)
  {
    && Linked(cfg, s) && Chronological(log, now) && Dated(cfg, s, log)
    && EndsAlike(s.keys, log, Kept(cfg, log, now))
  }

  lemma {:induction false} FreshSuffix(cfg: Config, log: seq<Insertion>, now: int, j: nat)
    requires Chronological(log, now) && j < |log|
    ensures Fresh(cfg, log[j], now) <==> |log| - j <= FreshCount(cfg, log, now)
    decreases |log|
  {
    var n := |log| - 1;
    if j < n && Fresh(cfg, log[n], now) {
      FreshSuffix(cfg, log[..n], now, j);
    }
  }

  lemma {:induction false} FreshFades(cfg: Config, log: seq<Insertion>, now: int, later: int)
    requires now <= later
    ensures FreshCount(cfg, log, later) <= FreshCount(cfg, log, now)
  {
    if log != [] && Fresh(cfg, log[|log| - 1], later) {
      FreshFades(cfg, log[..|log| - 1], now, later);
    }
  }

  lemma {:induction false} InvLater(cfg: Config, s: State, log: seq<Insertion>, now: int, later: int)
    requires Inv(cfg, s, log, now) && now <= later
    ensures Inv(cfg, s, log, later)
  {
    hide Dated, Linked, FreshCount;
    FreshFades(cfg, log, now, later);
  }

  /** A key in the map is alive exactly when its latest insertion is fresh. */
  lemma {:induction false} AliveIsFresh(cfg: Config, s: State, log: seq<Insertion>, key: string, now: int) returns (j: nat)
    requires Dated(cfg, s, log) && key in s.m
    ensures Latest(log, key, j) && (Alive(cfg, s.m[key], now) <==> Fresh(cfg, log[j], now))
  {
    var i :| Latest(log, key, i) && s.m[key] == Expiry(cfg, log[i].time);
    j := i;
  }

  /** Some accepted insertion of the key has not expired, and fewer than `capacity` came after it. */
  ghost predicate SeenLately(cfg: Config, log: seq<Insertion>, key: string, now: int)
  {
    exists j :: 0 <= j < |log| && log[j].key == key && Fresh(cfg, log[j], now) && (cfg.capacity <= 0 || |log| - 1 - j < cfg.capacity)
  }

  /** An insertion is refused if and only if the key was accepted before, that insertion has not
  expired, and fewer than `capacity` insertions were accepted after it. */
  lemma {:induction false} RefusedExactly(cfg: Config, s: State, log: seq<Insertion>, key: string, now: int)
    requires Inv(cfg, s, log, now)
    ensures Refused(cfg, s, key, now) <==> SeenLately(cfg, log, key, now)
  {
    hide FreshCount, Dated, Fresh, Alive;
    if j :| 0 <= j < |log| && log[j].key == key && Fresh(cfg, log[j], now) && (cfg.capacity <= 0 || |log| - 1 - j < cfg.capacity) {
      FreshSuffix(cfg, log, now, j);
      assert s.keys[|s.keys| - |log| + j] == key;
      var i := AliveIsFresh(cfg, s, log, key, now);
      LatestFresh(cfg, log, key, i, j, now);
    }
    if Refused(cfg, s, key, now) {
      var j := AliveIsFresh(cfg, s, log, key, now);
      FreshSuffix(cfg, log, now, j);
      if cfg.capacity > 0 && |log| - 1 - j >= cfg.capacity {
        NotAmongLatest(cfg, s, log, key, j);
      }
      assert log[j].key == key && Fresh(cfg, log[j], now);
    }
  }

  lemma {:induction false} LatestFresh(cfg: Config, log: seq<Insertion>, key: string, i: nat, j: nat, now: int)
    requires Chronological(log, now) && Latest(log, key, i) && j < |log| && log[j].key == key && Fresh(cfg, log[j], now)
    ensures Fresh(cfg, log[i], now)
  {
    assert j <= i;
  }

  /** When the list is full of later insertions, an earlier key is gone. */
  lemma {:induction false} NotAmongLatest(cfg: Config, s: State, log: seq<Insertion>, key: string, j: nat)
    requires cfg.capacity > 0 && Linked(cfg, s) && Latest(log, key, j) && |log| - 1 - j >= cfg.capacity
    requires EndsAlike(s.keys, log, cfg.capacity)
    ensures key !in s.m
  {
    forall p | 0 <= p < |s.keys| ensures s.keys[p] != key {
      assert log[|log| - |s.keys| + p].key == s.keys[p];
    }
  }

  // ---------- one insertion ----------

  function LogAfter(cfg: Config, s: State, log: seq<Insertion>, key: string, now: int): seq<Insertion>
  {
    if Refused(cfg, s, key, now) then log else log + [Insertion(key, now)]
  }

  lemma {:induction false} DropEarlier(keys: seq<string>, log: seq<Insertion>, n: nat, p: nat)
    requires EndsAlike(keys, log, n) && p < |keys| - n
    ensures EndsAlike(keys[..p] + keys[p + 1..], log, n)
  {
    var r := keys[..p] + keys[p + 1..];
    forall j | |log| - n <= j < |log| ensures r[|r| - |log| + j] == log[j].key {
      assert keys[|keys| - |log| + j] == log[j].key;
    }
  }

  /** An expired key stands before the fresh end of the list. */
  lemma {:induction false} ExpiredStandsEarlier(cfg: Config, s: State, log: seq<Insertion>, p: nat, now: int)
    requires Inv(cfg, s, log, now) && p < |s.keys| && s.keys[p] in s.m && !Alive(cfg, s.m[s.keys[p]], now)
    ensures p < |s.keys| - Kept(cfg, log, now)
  {
    hide Alive, FreshCount, Fresh, Dated;
    var key := s.keys[p];
    var i := AliveIsFresh(cfg, s, log, key, now);
    if p >= |s.keys| - Kept(cfg, log, now) {
      var j := p - |s.keys| + |log|;
      assert log[j].key == key;
      FreshSuffix(cfg, log, now, j);
      LatestFresh(cfg, log, key, i, j, now);
    }
  }

  /** The list without an expired key still ends as the fresh part of the log. */
  lemma {:induction false} RemoveExpired(cfg: Config, s: State, log: seq<Insertion>, key: string, now: int)
    requires Inv(cfg, s, log, now) && key in s.m && !Alive(cfg, s.m[key], now)
    ensures EndsAlike(Without(s.keys, key), log, Kept(cfg, log, now)) && |Without(s.keys, key)| == |s.keys| - 1
  {
    var p :| 0 <= p < |s.keys| && s.keys[p] == key;
    hide Alive, FreshCount, Dated, Kept, EndsAlike, Without;
    ExpiredStandsEarlier(cfg, s, log, p, now);
    WithoutAt(s.keys, p);
    DropEarlier(s.keys, log, Kept(cfg, log, now), p);
  }

  lemma {:induction false} PushEndsAlike(cfg: Config, keys: seq<string>, log: seq<Insertion>, key: string, now: int)
    requires EndsAlike(keys, log, Kept(cfg, log, now)) && (cfg.capacity > 0 ==> |keys| <= cfg.capacity)
    ensures var grown := keys + [key];
            var kept := if cfg.capacity > 0 && |grown| > cfg.capacity then grown[1..] else grown;
            EndsAlike(kept, log + [Insertion(key, now)], Kept(cfg, log + [Insertion(key, now)], now))
  {
    var next := log + [Insertion(key, now)];
    assert next[..|next| - 1] == log;
    hide FreshCount;
    FreshSnoc(cfg, log, key, now);
  }

  lemma {:induction false} FreshSnoc(cfg: Config, log: seq<Insertion>, key: string, now: int)
    ensures FreshCount(cfg, log + [Insertion(key, now)], now) <= FreshCount(cfg, log, now) + 1
  {
    assert (log + [Insertion(key, now)])[..|log|] == log;
  }

  lemma {:induction false} InsertDated(cfg: Config, s: State, log: seq<Insertion>, key: string, now: int)
    requires Dated(cfg, s, log) && !Refused(cfg, s, key, now)
    ensures Dated(cfg, Inserted(cfg, s, key, now), log + [Insertion(key, now)])
  {
    hide Without, Alive;
    var t, next := Inserted(cfg, s, key, now), log + [Insertion(key, now)];
    forall x | x in t.m ensures exists j :: Latest(next, x, j) && t.m[x] == Expiry(cfg, next[j].time) {
      if x == key {
        assert Latest(next, x, |log|) && t.m[x] == Expiry(cfg, next[|log|].time);
      } else {
        var j :| Latest(log, x, j) && s.m[x] == Expiry(cfg, log[j].time);
        assert Latest(next, x, j) && t.m[x] == Expiry(cfg, next[j].time);
      }
    }
  }

  lemma {:induction false} InsertKeeps(cfg: Config, s: State, log: seq<Insertion>, key: string, now: int)
    requires Inv(cfg, s, log, now)
    ensures Inv(cfg, Inserted(cfg, s, key, now), LogAfter(cfg, s, log, key, now), now)
  {
    hide Without, Alive, FreshCount, Dated, Kept, EndsAlike;
    InsertKeepsLinked(cfg, s, key, now);
    if !Refused(cfg, s, key, now) {
      InsertDated(cfg, s, log, key, now);
      if key in s.m {
        RemoveExpired(cfg, s, log, key, now);
        PushEndsAlike(cfg, Without(s.keys, key), log, key, now);
      } else {
        PushEndsAlike(cfg, s.keys, log, key, now);
      }
    }
  }

  // ---------- runs ----------

  /** A run: the state, the accepted insertions and the answers, `true` for a new key. */
  datatype Trace = Trace(state: State, log: seq<Insertion>, answers: seq<bool>)

  function Run(cfg: Config, calls: seq<Insertion>): (t: Trace)
    ensures |t.answers| == |calls|
  {
    if calls == [] then Trace(EMPTY, [], [])
    else
      var t, c := Run(cfg, calls[..|calls| - 1]), calls[|calls| - 1];
      Trace(Inserted(cfg, t.state, c.key, c.time), LogAfter(cfg, t.state, t.log, c.key, c.time),
            t.answers + [!Refused(cfg, t.state, c.key, c.time)])
  }

  ghost predicate InOrder(calls: seq<Insertion>)
  {
    forall i, j :: 0 <= i < j < |calls| ==> calls[i].time <= calls[j].time
  }

  lemma {:induction false} RunKeeps(cfg: Config, calls: seq<Insertion>, now: int)
    requires InOrder(calls) && (calls != [] ==> calls[|calls| - 1].time <= now)
    ensures var t := Run(cfg, calls); Inv(cfg, t.state, t.log, now)
  {
    if calls == [] {
    } else {
      hide Inv, Inserted, LogAfter, Refused;
      var before, c := calls[..|calls| - 1], calls[|calls| - 1];
      RunKeeps(cfg, before, c.time);
      var t := Run(cfg, before);
      InsertKeeps(cfg, t.state, t.log, c.key, c.time);
      InvLater(cfg, Run(cfg, calls).state, Run(cfg, calls).log, c.time, now);
    }
  }

  /** The log is the accepted calls, in order. */
  function AcceptedOf(calls: seq<Insertion>, answers: seq<bool>): seq<Insertion>
    requires |calls| == |answers|
  {
    if calls == [] then []
    else
      var n := |calls| - 1;
      AcceptedOf(calls[..n], answers[..n]) + if answers[n] then [calls[n]] else []
  }

  lemma {:induction false} LogIsAccepted(cfg: Config, calls: seq<Insertion>)
    ensures Run(cfg, calls).log == AcceptedOf(calls, Run(cfg, calls).answers)
  {
    if calls != [] {
      hide Inserted, Refused;
      var n := |calls| - 1;
      LogIsAccepted(cfg, calls[..n]);
      assert Run(cfg, calls).answers[..n] == Run(cfg, calls[..n]).answers;
      EmptyConcat(Run(cfg, calls[..n]).log);
    }
  }

  lemma {:induction false} OrderOfCalls(calls: seq<Insertion>, c: Insertion)
    requires InOrder(calls + [c])
    ensures InOrder(calls) && (calls != [] ==> calls[|calls| - 1].time <= c.time)
  {
    var all := calls + [c];
    assert all[|calls|] == c && forall i :: 0 <= i < |calls| ==> all[i] == calls[i];
  }

  lemma {:induction false} LastAnswer(cfg: Config, calls: seq<Insertion>, c: Insertion)
    ensures Run(cfg, calls + [c]).answers[|calls|] == !Refused(cfg, Run(cfg, calls).state, c.key, c.time)
  {
    hide Inserted, Refused, LogAfter;
    assert (calls + [c])[..|calls|] == calls;
  }

  /** On every run with a clock that does not go back: a call is answered "seen before" if and only if
  its key was accepted before, that acceptance has not expired, and fewer than `capacity` keys were
  accepted since. */
  lemma {:induction false} AnswersExact(cfg: Config, calls: seq<Insertion>, c: Insertion)
    requires InOrder(calls + [c])
    ensures var answers := Run(cfg, calls + [c]).answers;
            var log := AcceptedOf(calls, Run(cfg, calls).answers);
            !answers[|calls|] <==> SeenLately(cfg, log, c.key, c.time)
  {
    hide SeenLately, Inserted, Refused, LogAfter, AcceptedOf, Inv;
    OrderOfCalls(calls, c);
    LastAnswer(cfg, calls, c);
    RunKeeps(cfg, calls, c.time);
    LogIsAccepted(cfg, calls);
    RefusedExactly(cfg, Run(cfg, calls).state, Run(cfg, calls).log, c.key, c.time);
  }

  /** `Has` and `Insert` disagree at one instant only, that of the expiry, and when the ttl is negative. */
  lemma {:induction false} KnownVersusRefused(cfg: Config, s: State, log: seq<Insertion>, key: string, now: int)
    requires Dated(cfg, s, log) && key in s.m
    ensures (Known(cfg, s, key, now) <==> Refused(cfg, s, key, now))
       <==> !(cfg.ttl < 0 || (cfg.ttl > 0 && s.m[key] == Some(now)))
  {
    var j :| Latest(log, key, j) && s.m[key] == Expiry(cfg, log[j].time);
  }
}
