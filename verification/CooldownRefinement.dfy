/** The cooldown over the store gives the same answers as the limiter in memory, and what both
promise: room feeds a cooldown apart, no cat fed more than its daily limit. */
module CooldownRefinement {
  import opened Bytes
  import opened Division
  import opened Options
  import opened Decimal
  import opened Cooldown

  // ---------- keys that cannot be confused ----------

  predicate Plain(s: string) { ':' !in s && '|' !in s }

  /** A separator that does not occur on its left splits a text in one way only. */
  lemma {:induction false} SplitLeft(a: string, b: string, c: string, d: string, sep: char)
    requires a + [sep] + b == c + [sep] + d && sep !in a && sep !in c
    ensures a == c && b == d
  {
    var s, t := a + [sep] + b, c + [sep] + d;
    // the separator's first place
    assert s[|a|] == sep && t[|c|] == sep;
    assert (forall i :: 0 <= i < |a| ==> s[i] == a[i]) && (forall i :: 0 <= i < |c| ==> t[i] == c[i]);
    assert |a| == |c|;
    assert a == s[..|a|] && c == t[..|c|] && b == s[|a| + 1..] && d == t[|c| + 1..];
  }

  /** One that does not occur on its right, too. */
  lemma {:induction false} SplitRight(a: string, b: string, c: string, d: string, sep: char)
    requires a + [sep] + b == c + [sep] + d && sep !in b && sep !in d
    ensures a == c && b == d
  {
    var s, t := a + [sep] + b, c + [sep] + d;
    // the separator's last place
    assert s[|a|] == sep && t[|c|] == sep;
    assert forall i :: |a| < i < |s| ==> s[i] == b[i - |a| - 1];
    assert forall i :: |c| < i < |t| ==> t[i] == d[i - |c| - 1];
    assert |a| == |c|;
    assert a == s[..|a|] && c == t[..|c|] && b == s[|a| + 1..] && d == t[|c| + 1..];
  }

  lemma {:induction false} SamePrefix(p: string, a: string, b: string)
    requires p + a == p + b
    ensures a == b
  {
    assert a == (p + a)[|p|..] && b == (p + b)[|p|..];
  }

  lemma {:induction false} RoomKeysDiffer(r: string, q: string)
    requires RoomKey(r) == RoomKey(q)
    ensures r == q
  {
    SamePrefix(PREFIX, "cool:room:" + r, "cool:room:" + q);
    SamePrefix("cool:room:", r, q);
  }

  lemma {:induction false} PairsDiffer(u: string, r: string, v: string, q: string)
    requires Plain(u) && Plain(v)
    ensures UserKey(u, r) == UserKey(v, q) ==> u == v && r == q
    ensures PairKey(u, r) == PairKey(v, q) ==> u == v && r == q
  {
    if UserKey(u, r) == UserKey(v, q) {
      SamePrefix(PREFIX, "cool:ur:" + u + ":" + r, "cool:ur:" + v + ":" + q);
      assert "cool:ur:" + u + ":" + r == "cool:ur:" + (u + ":" + r);
      assert "cool:ur:" + v + ":" + q == "cool:ur:" + (v + ":" + q);
      SamePrefix("cool:ur:", u + ":" + r, v + ":" + q);
      SplitLeft(u, r, v, q, ':');
    }
    if PairKey(u, r) == PairKey(v, q) {
      SplitLeft(u, r, v, q, '|');
    }
  }

  lemma {:induction false} CatDaysDiffer(a: string, d: nat, b: string, e: nat)
    ensures CatDay(a, d) == CatDay(b, e) ==> a == b && d == e
    ensures CatKey(a, d) == CatKey(b, e) ==> a == b && d == e
  {
    if CatKey(a, d) == CatKey(b, e) {
      SamePrefix(PREFIX, "cool:cat:" + CatDay(a, d), "cool:cat:" + CatDay(b, e));
      SamePrefix("cool:cat:", CatDay(a, d), CatDay(b, e));
    }
    if CatDay(a, d) == CatDay(b, e) {
      DigitsAreDigits(d);
      DigitsAreDigits(e);
      SplitRight(a, DateText(d), b, DateText(e), ':');
      DigitsInjective(d, e);
    }
  }

  /** The three kinds of keys are told apart by one letter. */
  lemma {:induction false} FamiliesDiffer(r: string, u: string, q: string, c: string, d: nat)
    ensures RoomKey(r) != UserKey(u, q) && RoomKey(r) != CatKey(c, d) && UserKey(u, q) != CatKey(c, d)
  {
    hide CatDay;
    assert RoomKey(r)[12] == 'r' && UserKey(u, q)[12] == 'u' && CatKey(c, d)[12] == 'c';
  }

  /** The users and rooms of some calls. */
  type Pairs = iset<(string, string)>

  /** The store's keys and the limiter's tell the same of the pairs apart from this one. */
  ghost predicate Apart(pairs: Pairs, v: string, q: string)
  {
    forall u, r :: (u, r) in pairs ==> (UserKey(u, r) == UserKey(v, q) <==> PairKey(u, r) == PairKey(v, q))
  }

  /** The store's keys and the limiter's tell the same pairs apart. */
  ghost predicate SeparatedAlike(pairs: Pairs)
  {
    forall v, q :: (v, q) in pairs ==> Apart(pairs, v, q)
  }

  /** They do when no user id contains a separator. */
  lemma {:induction false} PlainIdsSeparated(pairs: Pairs)
    requires forall u, r :: (u, r) in pairs ==> Plain(u)
    ensures SeparatedAlike(pairs)
  {
    hide UserKey, PairKey, Plain;
    forall v, q | (v, q) in pairs ensures Apart(pairs, v, q) {
      forall u, r | (u, r) in pairs ensures UserKey(u, r) == UserKey(v, q) <==> PairKey(u, r) == PairKey(v, q) {
        PairsDiffer(u, r, v, q);
      }
    }
  }

  // ---------- the store entry that stands for a limiter entry ----------

  /** `key` holds the instant `next`, or it is gone and `next` passed more than a second ago. */
  predicate NextAgrees(m: Entries, key: string, next: Option<int>, time: int)
  {
    if key in m then
      && next.Some? && m[key].val == Stamp(next.value)
      && (m[key].expire.Some? ==> m[key].expire.value >= next.value + SECOND)
    else next.Some? ==> next.value + SECOND < time
  }

  /** `key` holds the day's total as long as the day lasts. */
  predicate TotalAgrees(m: Entries, key: string, total: Option<U32>, day: nat, time: int, bound: nat)
  {
    time <= Midnight(day) ==>
      if key in m then
        && total.Some? && m[key].counter % TWO32 == total.value && 0 <= m[key].counter <= bound
        && m[key].val == Text(Digits(m[key].counter))
        && (m[key].expire.Some? ==> m[key].expire.value >= Midnight(day))
      else total.None?
  }

  /** The store agrees with the limiter at `time`, after calls that fed at most `bound` grams. */
  ghost predicate Agrees(cfg: Config, pairs: Pairs, m: Entries, l: LimiterState, time: int, bound: nat)
  {
    && (forall r :: NextAgrees(m, RoomKey(r), Lookup(l.roomNext, r), time))
    && (forall u, r :: (u, r) in pairs ==> NextAgrees(m, UserKey(u, r), Lookup(l.userNext, PairKey(u, r)), time))
    && (cfg.daily > 0 ==>
          forall c, d :: TotalAgrees(m, CatKey(c, d), Lookup(l.dailyTotal, CatDay(c, d)), d, time, bound))
  }

  lemma {:induction false} NextLive(m: Entries, key: string, next: Option<int>, time: int, later: int)
    requires NextAgrees(m, key, next, time) && time <= later
    ensures NextAgrees(Live(m, later), key, next, later) && NextAgrees(m, key, next, later)
  {}

  lemma {:induction false} TotalLive(m: Entries, key: string, total: Option<U32>, day: nat, time: int, later: int, bound: nat, more: nat)
    requires TotalAgrees(m, key, total, day, time, bound) && time <= later && bound <= more
    ensures TotalAgrees(Live(m, later), key, total, day, later, more) && TotalAgrees(m, key, total, day, later, more)
  {}

  /** Time passes, and expired entries may be collected. */
  lemma {:induction false} AgreesLater(cfg: Config, pairs: Pairs, m: Entries, l: LimiterState, time: int, later: int, bound: nat, more: nat)
    requires Agrees(cfg, pairs, m, l, time, bound) && time <= later && bound <= more
    ensures Agrees(cfg, pairs, Live(m, later), l, later, more) && Agrees(cfg, pairs, m, l, later, more)
  {
    hide RoomKey, UserKey, CatKey, PairKey, CatDay, NextAgrees, TotalAgrees, Live, Lookup;
    forall r ensures NextAgrees(Live(m, later), RoomKey(r), Lookup(l.roomNext, r), later) && NextAgrees(m, RoomKey(r), Lookup(l.roomNext, r), later) {
      NextLive(m, RoomKey(r), Lookup(l.roomNext, r), time, later);
    }
    forall u, r | (u, r) in pairs
      ensures NextAgrees(Live(m, later), UserKey(u, r), Lookup(l.userNext, PairKey(u, r)), later)
      ensures NextAgrees(m, UserKey(u, r), Lookup(l.userNext, PairKey(u, r)), later)
    {
      NextLive(m, UserKey(u, r), Lookup(l.userNext, PairKey(u, r)), time, later);
    }
    if cfg.daily > 0 {
      forall c, d
        ensures TotalAgrees(Live(m, later), CatKey(c, d), Lookup(l.dailyTotal, CatDay(c, d)), d, later, more)
        ensures TotalAgrees(m, CatKey(c, d), Lookup(l.dailyTotal, CatDay(c, d)), d, later, more)
      {
        TotalLive(m, CatKey(c, d), Lookup(l.dailyTotal, CatDay(c, d)), d, time, later, bound, more);
      }
    }
  }

  // ---------- the same decision ----------

  /** How late the store may be read: entries live a second longer than their cooldown, and are collected
  when that second is over. */
  const LATE: nat := SECOND + 1

  /** A read not more than `LATE` after `now` decides as the limiter does. */
  lemma {:induction false} SameBlock(m: Entries, key: string, next: Option<int>, time: int, now: int)
    requires NextAgrees(m, key, next, time) && time <= now + LATE
    ensures Before(now, NextOf(m, key)) <==> Before(now, next)
  {}

  /** A read before the day ends finds the day's total. */
  lemma {:induction false} SameTotal(m: Entries, key: string, l: LimiterState, name: string, day: nat, time: int, bound: nat)
    requires TotalAgrees(m, key, Lookup(l.dailyTotal, name), day, time, bound) && time <= Midnight(day) && bound <= MAX_INT64
    ensures CounterOf(m, key) % TWO32 == TotalOf(l, name)
  {
    if key in m {
      ParseInverts(m[key].counter);
    }
  }

  // ---------- the same record ----------

  lemma {:induction false} RoomRecorded(cfg: Config, pairs: Pairs, m: Entries, l: LimiterState, time: int, bound: nat, room: string, next: int, ttl: int, at: int)
    requires Agrees(cfg, pairs, m, l, time, bound) && next + SECOND <= at + ttl
    ensures Agrees(cfg, pairs, Stored(m, RoomKey(room), Stamp(next), ttl, at), l.(roomNext := l.roomNext[room := next]), time, bound)
  {
    hide RoomKey, UserKey, CatKey, PairKey, CatDay;
    var e, k := Stored(m, RoomKey(room), Stamp(next), ttl, at), l.(roomNext := l.roomNext[room := next]);
    forall r ensures NextAgrees(e, RoomKey(r), Lookup(k.roomNext, r), time) {
      assert NextAgrees(m, RoomKey(r), Lookup(l.roomNext, r), time);
      if RoomKey(r) == RoomKey(room) {
        RoomKeysDiffer(r, room);
      }
    }
    forall u, r | (u, r) in pairs ensures NextAgrees(e, UserKey(u, r), Lookup(k.userNext, PairKey(u, r)), time) {
      FamiliesDiffer(room, u, r, "", 0);
    }
    if cfg.daily > 0 {
      forall c, d ensures TotalAgrees(e, CatKey(c, d), Lookup(k.dailyTotal, CatDay(c, d)), d, time, bound) {
        FamiliesDiffer(room, "", "", c, d);
      }
    }
  }

  lemma {:induction false} UserRecorded(cfg: Config, pairs: Pairs, m: Entries, l: LimiterState, time: int, bound: nat, user: string, room: string, next: int, ttl: int, at: int)
    requires Agrees(cfg, pairs, m, l, time, bound) && next + SECOND <= at + ttl && Apart(pairs, user, room)
    ensures Agrees(cfg, pairs, Stored(m, UserKey(user, room), Stamp(next), ttl, at),
                   l.(userNext := l.userNext[PairKey(user, room) := next]), time, bound)
  {
    hide RoomKey, UserKey, CatKey, PairKey, CatDay;
    var e, k := Stored(m, UserKey(user, room), Stamp(next), ttl, at), l.(userNext := l.userNext[PairKey(user, room) := next]);
    forall r ensures NextAgrees(e, RoomKey(r), Lookup(k.roomNext, r), time) {
      FamiliesDiffer(r, user, room, "", 0);
    }
    forall u, r | (u, r) in pairs ensures NextAgrees(e, UserKey(u, r), Lookup(k.userNext, PairKey(u, r)), time) {
      assert NextAgrees(m, UserKey(u, r), Lookup(l.userNext, PairKey(u, r)), time);
    }
    if cfg.daily > 0 {
      forall c, d ensures TotalAgrees(e, CatKey(c, d), Lookup(k.dailyTotal, CatDay(c, d)), d, time, bound) {
        FamiliesDiffer("", user, room, c, d);
      }
    }
  }

  /** The counter of the day: on, or new. */
  lemma {:induction false} TotalRecorded(m: Entries, key: string, l: LimiterState, name: string, day: nat, time: int, bound: nat, amount: U32, until: int, incr: int)
    requires TotalAgrees(m, key, Lookup(l.dailyTotal, name), day, time, bound)
    requires time <= incr && until <= incr && bound + amount <= MAX_INT64
    ensures TotalAgrees(Incremented(m, key, amount, Midnight(day) - until, incr), key,
                        Some((TotalOf(l, name) + amount) % TWO32), day, incr, bound + amount)
  {
    if incr <= Midnight(day) && key in m {
      ModAdd(m[key].counter, amount, TWO32);
    }
  }

  lemma {:induction false} IncrementedElsewhere(m: Entries, key: string, delta: int, ttl: int, now: int, other: string)
    requires other != key
    ensures var e := Incremented(m, key, delta, ttl, now);
            (other in e <==> other in Live(m, now)) && (other in e ==> e[other] == Live(m, now)[other])
  {
    hide Formatted;
  }

  lemma {:induction false} NextElsewhere(m: Entries, e: Entries, key: string, next: Option<int>, time: int)
    requires NextAgrees(m, key, next, time) && (key in e <==> key in m) && (key in e ==> e[key] == m[key])
    ensures NextAgrees(e, key, next, time)
  {}

  lemma {:induction false} TotalElsewhere(m: Entries, e: Entries, key: string, total: Option<U32>, day: nat, time: int, bound: nat)
    requires TotalAgrees(m, key, total, day, time, bound) && (key in e <==> key in m) && (key in e ==> e[key] == m[key])
    ensures TotalAgrees(e, key, total, day, time, bound)
  {}

  lemma {:induction false} TotalAfter(cfg: Config, pairs: Pairs, m: Entries, l: LimiterState, time: int, bound: nat, cat: string, day: nat, amount: U32, until: int, incr: int, c: string, d: nat)
    requires Agrees(cfg, pairs, m, l, time, bound) && time <= incr && until <= incr && bound + amount <= MAX_INT64 && cfg.daily > 0
    ensures TotalAgrees(Incremented(m, CatKey(cat, day), amount, Midnight(day) - until, incr), CatKey(c, d),
                        Lookup(l.dailyTotal[CatDay(cat, day) := (TotalOf(l, CatDay(cat, day)) + amount) % TWO32], CatDay(c, d)),
                        d, incr, bound + amount)
  {
    hide RoomKey, UserKey, CatKey, PairKey, CatDay, Incremented, NextAgrees, TotalAgrees, Live, Formatted, TotalOf;
    assert TotalAgrees(m, CatKey(c, d), Lookup(l.dailyTotal, CatDay(c, d)), d, time, bound);
    CatDaysDiffer(c, d, cat, day);
    if c == cat && d == day {
      TotalRecorded(m, CatKey(c, d), l, CatDay(cat, day), day, time, bound, amount, until, incr);
    } else {
      var total := Lookup(l.dailyTotal, CatDay(c, d));
      TotalLive(m, CatKey(c, d), total, d, time, incr, bound, bound + amount);
      IncrementedElsewhere(m, CatKey(cat, day), amount, Midnight(day) - until, incr, CatKey(c, d));
      TotalElsewhere(Live(m, incr), Incremented(m, CatKey(cat, day), amount, Midnight(day) - until, incr), CatKey(c, d), total, d, incr, bound + amount);
    }
  }

  lemma {:induction false} DayRecorded(cfg: Config, pairs: Pairs, m: Entries, l: LimiterState, time: int, bound: nat, cat: string, day: nat, amount: U32, until: int, incr: int)
    requires Agrees(cfg, pairs, m, l, time, bound) && time <= incr && until <= incr && bound + amount <= MAX_INT64 && cfg.daily > 0
    ensures Agrees(cfg, pairs, Incremented(m, CatKey(cat, day), amount, Midnight(day) - until, incr),
                   l.(dailyTotal := l.dailyTotal[CatDay(cat, day) := (TotalOf(l, CatDay(cat, day)) + amount) % TWO32]),
                   incr, bound + amount)
  {
    var total := (TotalOf(l, CatDay(cat, day)) + amount) % TWO32;
    hide RoomKey, UserKey, CatKey, PairKey, CatDay, Incremented, NextAgrees, TotalAgrees, Live, Formatted;
    var key, ttl := CatKey(cat, day), Midnight(day) - until;
    var e, live, k := Incremented(m, key, amount, ttl, incr), Live(m, incr), l.(dailyTotal := l.dailyTotal[CatDay(cat, day) := total]);
    AgreesLater(cfg, pairs, m, l, time, incr, bound, bound + amount);
    forall r ensures NextAgrees(e, RoomKey(r), Lookup(k.roomNext, r), incr) {
      FamiliesDiffer(r, "", "", cat, day);
      IncrementedElsewhere(m, key, amount, ttl, incr, RoomKey(r));
      NextElsewhere(live, e, RoomKey(r), Lookup(k.roomNext, r), incr);
    }
    forall u, r | (u, r) in pairs ensures NextAgrees(e, UserKey(u, r), Lookup(k.userNext, PairKey(u, r)), incr) {
      FamiliesDiffer("", u, r, cat, day);
      IncrementedElsewhere(m, key, amount, ttl, incr, UserKey(u, r));
      NextElsewhere(live, e, UserKey(u, r), Lookup(k.userNext, PairKey(u, r)), incr);
    }
    forall c, d ensures TotalAgrees(e, CatKey(c, d), Lookup(k.dailyTotal, CatDay(c, d)), d, incr, bound + amount) {
      TotalAfter(cfg, pairs, m, l, time, bound, cat, day, amount, until, incr, c, d);
    }
  }

  // ---------- one call ----------

  /** The readings of the clock come in order, the reads of the two instants at most `late` after the
  start of the call, that of the day's counter at most `over` after the end of the day. */
  predicate Prompt(cfg: Config, late: nat, over: nat, t: Readings)
  {
    && t.now <= t.getRoom <= t.getUser <= t.getDaily <= t.setRoom <= t.setUser <= t.until <= t.incr
    && t.getUser <= t.now + late
    && (cfg.daily > 0 ==> t.getDaily <= Midnight(DayOf(t.now)) + over)
  }

  lemma {:induction false} RecordAgrees(cfg: Config, pairs: Pairs, m: Entries, l: LimiterState, c: Call, time: int, bound: nat)
    requires Agrees(cfg, pairs, m, l, time, bound) && Apart(pairs, c.user, c.room)
    requires Prompt(cfg, LATE, 0, c.clock) && time <= c.clock.setRoom
    requires bound + c.amount <= MAX_INT64
    ensures Agrees(cfg, pairs, Recorded(cfg, m, c), LimiterRecord(cfg, l, c), c.clock.incr, bound + c.amount)
  {
    hide RoomKey, UserKey, CatKey, PairKey, CatDay, Incremented, NextAgrees, TotalAgrees, Live, Stored, Agrees, Apart;
    var now := c.clock.now;
    var m4 := Stored(m, RoomKey(c.room), Stamp(now + cfg.room), cfg.room + SECOND, c.clock.setRoom);
    var l4 := l.(roomNext := l.roomNext[c.room := now + cfg.room]);
    RoomRecorded(cfg, pairs, m, l, time, bound, c.room, now + cfg.room, cfg.room + SECOND, c.clock.setRoom);
    var m5 := Stored(m4, UserKey(c.user, c.room), Stamp(now + cfg.user), cfg.user + SECOND, c.clock.setUser);
    var l5 := l4.(userNext := l4.userNext[PairKey(c.user, c.room) := now + cfg.user]);
    UserRecorded(cfg, pairs, m4, l4, time, bound, c.user, c.room, now + cfg.user, cfg.user + SECOND, c.clock.setUser);
    if cfg.daily > 0 {
      DayRecorded(cfg, pairs, m5, l5, time, bound, c.cat, DayOf(now), c.amount, c.clock.until, c.clock.incr);
    } else {
      AgreesLater(cfg, pairs, m5, l5, time, c.clock.incr, bound, bound + c.amount);
      UnlimitedAgrees(cfg, pairs, m5, l5, LimiterRecord(cfg, l, c), c.clock.incr, bound + c.amount);
    }
  }

  /** Without a daily limit the totals do not matter. */
  lemma {:induction false} UnlimitedAgrees(cfg: Config, pairs: Pairs, m: Entries, l: LimiterState, k: LimiterState, time: int, bound: nat)
    requires Agrees(cfg, pairs, m, l, time, bound) && cfg.daily == 0 && k.roomNext == l.roomNext && k.userNext == l.userNext
    ensures Agrees(cfg, pairs, m, k, time, bound)
  {
    hide RoomKey, UserKey, PairKey, NextAgrees;
  }

  lemma {:induction false} RoomDecision(cfg: Config, pairs: Pairs, m: Entries, l: LimiterState, c: Call, time: int, bound: nat)
    requires Agrees(cfg, pairs, m, l, time, bound) && time <= c.clock.now + LATE
    ensures Before(c.clock.now, NextOf(m, RoomKey(c.room))) <==> Before(c.clock.now, Lookup(l.roomNext, c.room))
  {
    hide RoomKey;
    SameBlock(m, RoomKey(c.room), Lookup(l.roomNext, c.room), time, c.clock.now);
  }

  lemma {:induction false} UserDecision(cfg: Config, pairs: Pairs, m: Entries, l: LimiterState, c: Call, time: int, bound: nat)
    requires Agrees(cfg, pairs, m, l, time, bound) && time <= c.clock.now + LATE && (c.user, c.room) in pairs
    ensures Before(c.clock.now, NextOf(m, UserKey(c.user, c.room)))
       <==> Before(c.clock.now, Lookup(l.userNext, PairKey(c.user, c.room)))
  {
    hide UserKey, PairKey;
    SameBlock(m, UserKey(c.user, c.room), Lookup(l.userNext, PairKey(c.user, c.room)), time, c.clock.now);
  }

  lemma {:induction false} DailyDecision(cfg: Config, pairs: Pairs, m: Entries, l: LimiterState, c: Call, time: int, bound: nat)
    requires Agrees(cfg, pairs, m, l, time, bound) && time <= Midnight(DayOf(c.clock.now)) && cfg.daily > 0 && bound <= MAX_INT64
    ensures var day := DayOf(c.clock.now); CounterOf(m, CatKey(c.cat, day)) % TWO32 == TotalOf(l, CatDay(c.cat, day))
  {
    hide CatKey, CatDay;
    var day := DayOf(c.clock.now);
    SameTotal(m, CatKey(c.cat, day), l, CatDay(c.cat, day), day, time, bound);
  }

  /** The daily limit stands against the call. */
  predicate OverDaily(cfg: Config, l: LimiterState, c: Call)
  {
    cfg.daily > 0 && (TotalOf(l, CatDay(c.cat, DayOf(c.clock.now))) + c.amount) % TWO32 > cfg.daily
  }

  /** One prompt call keeps the store in agreement with a limiter that records what the store accepts, and
  the room's cooldown and the daily limit are judged alike; so is the user's, for the pairs. */
  lemma {:induction false} ConsumeAgrees(cfg: Config, pairs: Pairs, m: Entries, l: LimiterState, c: Call, time: int, bound: nat)
    requires Agrees(cfg, pairs, m, l, time, bound) && Apart(pairs, c.user, c.room)
    requires Prompt(cfg, LATE, 0, c.clock) && time <= c.clock.now
    requires bound + c.amount <= MAX_INT64
    ensures var (e, o) := CacheConsume(cfg, m, c);
            && Agrees(cfg, pairs, e, if o.Accepted? then LimiterRecord(cfg, l, c) else l, c.clock.incr, bound + c.amount)
            && (o.BlockedRoom? <==> Before(c.clock.now, Lookup(l.roomNext, c.room)))
            && (o.Accepted? ==> !OverDaily(cfg, l, c))
            && ((c.user, c.room) in pairs ==> o == LimiterCheck(cfg, l, c))
  {
    hide RoomKey, UserKey, CatKey, PairKey, CatDay, Live, Agrees, Apart, Recorded, LimiterRecord, Before, NextOf, CounterOf, TotalOf, Lookup;
    var m1, m2 := Live(m, c.clock.getRoom), Live(Live(m, c.clock.getRoom), c.clock.getUser);
    AgreesLater(cfg, pairs, m, l, time, c.clock.getRoom, bound, bound);
    RoomDecision(cfg, pairs, m1, l, c, c.clock.getRoom, bound);
    AgreesLater(cfg, pairs, m1, l, c.clock.getRoom, c.clock.incr, bound, bound + c.amount);
    AgreesLater(cfg, pairs, m1, l, c.clock.getRoom, c.clock.getUser, bound, bound);
    if (c.user, c.room) in pairs {
      UserDecision(cfg, pairs, m2, l, c, c.clock.getUser, bound);
    }
    AgreesLater(cfg, pairs, m2, l, c.clock.getUser, c.clock.incr, bound, bound + c.amount);
    if cfg.daily > 0 {
      var m3 := Live(m2, c.clock.getDaily);
      AgreesLater(cfg, pairs, m2, l, c.clock.getUser, c.clock.getDaily, bound, bound);
      DailyDecision(cfg, pairs, m3, l, c, c.clock.getDaily, bound);
      AgreesLater(cfg, pairs, m3, l, c.clock.getDaily, c.clock.incr, bound, bound + c.amount);
      RecordAgrees(cfg, pairs, m3, l, c, c.clock.getDaily, bound);
    } else {
      RecordAgrees(cfg, pairs, m2, l, c, c.clock.getUser, bound);
    }
  }

  // ---------- runs ----------

  datatype CacheRun = CacheRun(entries: Entries, outcomes: seq<Outcome>)

  datatype LimiterRun = LimiterRun(state: LimiterState, outcomes: seq<Outcome>)

  function RunCache(cfg: Config, calls: seq<Call>): (r: CacheRun)
    ensures |r.outcomes| == |calls|
  {
    if calls == [] then CacheRun(map[], [])
    else
      var before := RunCache(cfg, calls[..|calls| - 1]);
      var (e, o) := CacheConsume(cfg, before.entries, calls[|calls| - 1]);
      CacheRun(e, before.outcomes + [o])
  }

  function RunLimiter(cfg: Config, calls: seq<Call>): (r: LimiterRun)
    ensures |r.outcomes| == |calls|
  {
    if calls == [] then LimiterRun(NO_FEEDS, [])
    else
      var before, c := RunLimiter(cfg, calls[..|calls| - 1]), calls[|calls| - 1];
      LimiterRun(LimiterAfter(cfg, before.state, c), before.outcomes + [LimiterCheck(cfg, before.state, c)])
  }

  /** One call after the other on one clock, each prompt. */
  ghost predicate OnTime(cfg: Config, late: nat, over: nat, calls: seq<Call>)
  {
    && (forall i :: 0 <= i < |calls| ==> Prompt(cfg, late, over, calls[i].clock))
    && (forall i :: 0 < i < |calls| ==> calls[i - 1].clock.incr <= calls[i].clock.now)
  }

  /** All calls are by the users and in the rooms of `pairs`. */
  ghost predicate Within(pairs: Pairs, calls: seq<Call>)
  {
    forall i :: 0 <= i < |calls| ==> (calls[i].user, calls[i].room) in pairs
  }

  function EndOf(calls: seq<Call>): nat { if calls == [] then 0 else calls[|calls| - 1].clock.incr }

  function Asked(calls: seq<Call>): nat
  {
    if calls == [] then 0 else Asked(calls[..|calls| - 1]) + calls[|calls| - 1].amount
  }

  /** On every such run the two implementations give the same answers. */
  lemma {:induction false} CacheRefinesLimiter(cfg: Config, pairs: Pairs, calls: seq<Call>)
    requires SeparatedAlike(pairs) && Within(pairs, calls) && OnTime(cfg, LATE, 0, calls) && Asked(calls) <= MAX_INT64
    ensures RunCache(cfg, calls).outcomes == RunLimiter(cfg, calls).outcomes
    ensures Agrees(cfg, pairs, RunCache(cfg, calls).entries, RunLimiter(cfg, calls).state, EndOf(calls), Asked(calls))
  {
    hide Agrees, CacheConsume, LimiterCheck, LimiterRecord, Prompt, Apart, RunCache, RunLimiter;
    if calls == [] {
      NoRuns(cfg);
      EmptyAgrees(cfg, pairs);
    } else {
      var before, c := calls[..|calls| - 1], calls[|calls| - 1];
      CacheRefinesLimiter(cfg, pairs, before);
      LastCall(cfg, calls);
      ConsumeAgrees(cfg, pairs, RunCache(cfg, before).entries, RunLimiter(cfg, before).state, c, EndOf(before), Asked(before));
    }
  }

  lemma {:induction false} NoRuns(cfg: Config)
    ensures RunCache(cfg, []) == CacheRun(map[], []) && RunLimiter(cfg, []) == LimiterRun(NO_FEEDS, [])
  {}

  lemma {:induction false} LastCall(cfg: Config, calls: seq<Call>)
    requires calls != []
    ensures var before, c := calls[..|calls| - 1], calls[|calls| - 1];
            var m, l := RunCache(cfg, before), RunLimiter(cfg, before);
            var (e, o) := CacheConsume(cfg, m.entries, c);
            && RunCache(cfg, calls) == CacheRun(e, m.outcomes + [o])
            && RunLimiter(cfg, calls) == LimiterRun(LimiterAfter(cfg, l.state, c), l.outcomes + [LimiterCheck(cfg, l.state, c)])
            && Asked(calls) == Asked(before) + c.amount
  {
    hide CacheConsume, LimiterCheck, LimiterAfter;
  }

  lemma {:induction false} EmptyAgrees(cfg: Config, pairs: Pairs)
    ensures Agrees(cfg, pairs, map[], NO_FEEDS, 0, 0)
  {
    hide RoomKey, UserKey, CatKey, PairKey, CatDay;
  }

  // ---------- and not beyond ----------

  /** Whatever the configuration, a program cannot tell the two implementations apart by calls for these
  users and rooms, read no later than that. */
  ghost predicate Interchangeable(pairs: Pairs, late: nat, over: nat)
  {
    forall cfg, calls :: Within(pairs, calls) && OnTime(cfg, late, over, calls) && Asked(calls) <= MAX_INT64 ==>
                           RunCache(cfg, calls).outcomes == RunLimiter(cfg, calls).outcomes
  }

  /** Exactly when the two kinds of keys tell the same pairs apart, instants are read at most a second and
  a nanosecond late, and the day's counter before the day is over. */
  lemma {:induction false} RefinesExactly(pairs: Pairs, late: nat, over: nat)
    ensures Interchangeable(pairs, late, over) <==> pairs == iset{} || (SeparatedAlike(pairs) && late <= LATE && over == 0)
  {
    hide RunCache, RunLimiter, SeparatedAlike, Prompt;
    if pairs == iset{} {
      NoCalls(late, over);
    } else if SeparatedAlike(pairs) && late <= LATE && over == 0 {
      forall cfg, calls | Within(pairs, calls) && OnTime(cfg, late, over, calls) && Asked(calls) <= MAX_INT64
        ensures RunCache(cfg, calls).outcomes == RunLimiter(cfg, calls).outcomes
      {
        OnTimeSooner(cfg, late, calls);
        CacheRefinesLimiter(cfg, pairs, calls);
      }
    } else {
      var pair :| pair in pairs;
      var (u, r) := pair;
      if !SeparatedAlike(pairs) {
        KeysDiffer(pairs, late, over);
      } else if late > LATE {
        SlowRead(pairs, late, over, u, r);
      } else {
        CounterGone(pairs, late, over, u, r);
      }
    }
  }

  lemma {:induction false} NoCalls(late: nat, over: nat)
    ensures Interchangeable(iset{}, late, over)
  {
    forall cfg: Config, calls: seq<Call> | Within(iset{}, calls)
      ensures RunCache(cfg, calls).outcomes == RunLimiter(cfg, calls).outcomes
    {
      NobodyCalls(calls);
    }
  }

  lemma {:induction false} NobodyCalls(calls: seq<Call>)
    ensures Within(iset{}, calls) ==> calls == []
  {
    if calls != [] {
      var none: Pairs := iset{};
      assert (calls[0].user, calls[0].room) !in none;
    }
  }

  lemma {:induction false} OnTimeSooner(cfg: Config, late: nat, calls: seq<Call>)
    requires OnTime(cfg, late, 0, calls) && late <= LATE
    ensures OnTime(cfg, LATE, 0, calls)
  {}

  function At(time: nat): Readings { Readings(time, time, time, time, time, time, time, time) }

  /** Two calls, the first of which nothing stands against. */
  lemma {:induction false} TwoCalls(cfg: Config, first: Call, second: Call)
    requires cfg.daily == 0 || first.amount <= cfg.daily
    ensures RunCache(cfg, [first, second]).outcomes == [Accepted, CacheConsume(cfg, Recorded(cfg, map[], first), second).1]
    ensures RunLimiter(cfg, [first, second]).state == LimiterAfter(cfg, LimiterRecord(cfg, NO_FEEDS, first), second)
    ensures RunLimiter(cfg, [first, second]).outcomes == [Accepted, LimiterCheck(cfg, LimiterRecord(cfg, NO_FEEDS, first), second)]
    ensures Asked([first, second]) == first.amount + second.amount
  {
    hide CacheConsume, LimiterCheck, Recorded, LimiterRecord;
    NothingStored(cfg, first);
    NothingFed(cfg, first);
    OneMoreCall(cfg, [], first);
    OneMoreCall(cfg, [first], second);
    assert [] + [first] == [first] && [first] + [second] == [first, second];
  }

  lemma {:induction false} OneMoreCall(cfg: Config, calls: seq<Call>, c: Call)
    ensures var (e, o) := CacheConsume(cfg, RunCache(cfg, calls).entries, c);
            RunCache(cfg, calls + [c]) == CacheRun(e, RunCache(cfg, calls).outcomes + [o])
    ensures var l := RunLimiter(cfg, calls);
            RunLimiter(cfg, calls + [c]) == LimiterRun(LimiterAfter(cfg, l.state, c), l.outcomes + [LimiterCheck(cfg, l.state, c)])
    ensures Asked(calls + [c]) == Asked(calls) + c.amount
  {
    hide RunCache, RunLimiter, CacheConsume, LimiterCheck, LimiterAfter;
    LastCall(cfg, calls + [c]);
    assert (calls + [c])[..|calls|] == calls;
  }

  lemma {:induction false} NothingStored(cfg: Config, c: Call)
    requires cfg.daily == 0 || c.amount <= cfg.daily
    ensures CacheConsume(cfg, map[], c) == (Recorded(cfg, map[], c), Accepted)
  {
    hide RoomKey, UserKey, CatKey, Recorded;
    assert Live(map[], c.clock.getRoom) == map[] && Live(map[], c.clock.getUser) == map[] && Live(map[], c.clock.getDaily) == map[];
  }

  lemma {:induction false} NothingFed(cfg: Config, c: Call)
    requires cfg.daily == 0 || c.amount <= cfg.daily
    ensures LimiterCheck(cfg, NO_FEEDS, c) == Accepted
  {
    hide PairKey, CatDay;
  }

  /** Two pairs that only one of the keys tells apart: the other makes the second call wait. */
  lemma {:induction false} KeysDiffer(pairs: Pairs, late: nat, over: nat)
    requires !SeparatedAlike(pairs)
    ensures !Interchangeable(pairs, late, over)
  {
    hide RoomKey, UserKey, CatKey, PairKey, CatDay, RunCache, RunLimiter, CacheConsume, Recorded, LimiterRecord, LimiterCheck;
    var v, q :| (v, q) in pairs && !Apart(pairs, v, q);
    var u, r :| (u, r) in pairs && (UserKey(u, r) == UserKey(v, q)) != (PairKey(u, r) == PairKey(v, q));
    var cfg, first, second := Config(0, 10 * SECOND, 0), Call(r, u, "cat", 5, At(0)), Call(q, v, "cat", 5, At(1));
    assert Within(pairs, [first, second]) && OnTime(cfg, late, over, [first, second]);
    TwoCalls(cfg, first, second);
    SecondUser(cfg, first, second);
  }

  /** With nothing but a user cooldown the second call waits exactly if its key is that of the first. */
  lemma {:induction false} SecondUser(cfg: Config, first: Call, second: Call)
    requires cfg == Config(0, 10 * SECOND, 0) && first.clock == At(0) && second.clock == At(1)
    ensures CacheConsume(cfg, Recorded(cfg, map[], first), second).1
         == if UserKey(first.user, first.room) == UserKey(second.user, second.room) then BlockedUser else Accepted
    ensures LimiterCheck(cfg, LimiterRecord(cfg, NO_FEEDS, first), second)
         == if PairKey(first.user, first.room) == PairKey(second.user, second.room) then BlockedUser else Accepted
  {
    FamiliesDiffer(first.room, second.user, second.room, "", 0);
    FamiliesDiffer(second.room, first.user, first.room, "", 0);
    hide RoomKey, UserKey, PairKey, CatKey;
  }

  /** A read of the store later than `LATE`: the entry is already collected although the cooldown, counted
  from the start of the call, is not over. */
  lemma {:induction false} SlowRead(pairs: Pairs, late: nat, over: nat, user: string, room: string)
    requires late > LATE && (user, room) in pairs
    ensures !Interchangeable(pairs, late, over)
  {
    hide RunCache, RunLimiter, CacheConsume, Recorded, LimiterRecord, LimiterCheck;
    var cfg, now := Config(10 * SECOND, 0, 0), 10 * SECOND - 1;
    var first := Call(room, user, "cat", 5, At(0));
    var second := Call(room, user, "cat", 5, At(now + late).(now := now));
    assert Within(pairs, [first, second]) && OnTime(cfg, late, over, [first, second]);
    TwoCalls(cfg, first, second);
    RoomCollected(first, second, late);
  }

  lemma {:induction false} RoomCollected(first: Call, second: Call, late: nat)
    requires late > LATE && first.room == second.room && first.user == second.user
    requires first.clock == At(0) && second.clock == At(10 * SECOND - 1 + late).(now := 10 * SECOND - 1)
    ensures var cfg := Config(10 * SECOND, 0, 0);
            && CacheConsume(cfg, Recorded(cfg, map[], first), second).1 == Accepted
            && LimiterCheck(cfg, LimiterRecord(cfg, NO_FEEDS, first), second) == BlockedRoom
  {
    FamiliesDiffer(first.room, first.user, first.room, "", 0);
    hide RoomKey, UserKey, PairKey;
  }

  /** A read of the day's counter after midnight, for a call that began before: the counter is collected
  and the cat is fed beyond its limit. */
  lemma {:induction false} CounterGone(pairs: Pairs, late: nat, over: nat, user: string, room: string)
    requires over > 0 && (user, room) in pairs
    ensures !Interchangeable(pairs, late, over)
  {
    hide RunCache, RunLimiter, CacheConsume, Recorded, LimiterRecord, LimiterCheck;
    var cfg := Config(0, 0, 50);
    var first := Call(room, user, "cat", 40, At(0));
    var second := Call(room, user, "cat", 40, At(DAY + over).(now := 1, getRoom := 1, getUser := 1));
    FirstDay();
    hide DayOf, Midnight;
    assert Within(pairs, [first, second]) && OnTime(cfg, late, over, [first, second]);
    TwoCalls(cfg, first, second);
    CounterCollected(first, second, over);
  }

  lemma {:induction false} FirstDay()
    ensures DayOf(0) == 0 && DayOf(1) == 0 && Midnight(0) == DAY
  {}

  lemma {:induction false} CounterCollected(first: Call, second: Call, over: nat)
    requires over > 0 && first.room == second.room && first.user == second.user && first.cat == second.cat
    requires first.clock == At(0) && second.clock == At(DAY + over).(now := 1, getRoom := 1, getUser := 1)
    requires first.amount == 40 && second.amount == 40
    ensures var cfg := Config(0, 0, 50);
            && CacheConsume(cfg, Recorded(cfg, map[], first), second).1 == Accepted
            && LimiterCheck(cfg, LimiterRecord(cfg, NO_FEEDS, first), second) == BlockedDaily
  {
    FirstDay();
    hide RoomKey, UserKey, PairKey, CatKey, CatDay, DayOf, Midnight, Incremented, Recorded;
    FirstRecorded(first);
    assert 40 % TWO32 == 40 && 80 % TWO32 == 80;
  }

  /** What a first call of 40 g leaves in the store. */
  lemma {:induction false} FirstRecorded(c: Call)
    requires c.clock == At(0) && c.amount == 40
    ensures var m := Recorded(Config(0, 0, 50), map[], c);
            && (RoomKey(c.room) in m ==> m[RoomKey(c.room)].val == Stamp(0))
            && (UserKey(c.user, c.room) in m ==> m[UserKey(c.user, c.room)].val == Stamp(0))
            && CatKey(c.cat, 0) in m && m[CatKey(c.cat, 0)].expire == Some(DAY)
  {
    FirstDay();
    FamiliesDiffer(c.room, c.user, c.room, c.cat, 0);
    hide RoomKey, UserKey, CatKey, DayOf, Midnight, Formatted;
  }

  /** A colon in a user id: user `a:b` in room `c` and user `a` in room `b:c` share one store key, so
  the second is made to wait for the first. */
  lemma {:induction false} ColonInUserId()
    ensures var cfg := Config(0, 10 * SECOND, 0);
            var calls := [Call("c", "a:b", "cat", 5, At(0)), Call("b:c", "a", "cat", 5, At(1))];
            && RunCache(cfg, calls).outcomes == [Accepted, BlockedUser]
            && RunLimiter(cfg, calls).outcomes == [Accepted, Accepted]
  {
    hide RunCache, RunLimiter, CacheConsume, Recorded, LimiterRecord, LimiterCheck;
    var first, second := Call("c", "a:b", "cat", 5, At(0)), Call("b:c", "a", "cat", 5, At(1));
    assert "cool:ur:" + "a:b" + ":" + "c" == "cool:ur:" + "a" + ":" + "b:c";
    assert PairKey("a:b", "c")[1] != PairKey("a", "b:c")[1];
    TwoCalls(Config(0, 10 * SECOND, 0), first, second);
    SecondUser(Config(0, 10 * SECOND, 0), first, second);
  }

  /** A bar in a user id: the same, with the limiter's key shared. */
  lemma {:induction false} BarInUserId()
    ensures var cfg := Config(0, 10 * SECOND, 0);
            var calls := [Call("c", "a|b", "cat", 5, At(0)), Call("b|c", "a", "cat", 5, At(1))];
            && RunCache(cfg, calls).outcomes == [Accepted, Accepted]
            && RunLimiter(cfg, calls).outcomes == [Accepted, BlockedUser]
  {
    hide RunCache, RunLimiter, CacheConsume, Recorded, LimiterRecord, LimiterCheck;
    var first, second := Call("c", "a|b", "cat", 5, At(0)), Call("b|c", "a", "cat", 5, At(1));
    assert PairKey("a|b", "c") == "a|b|c" == PairKey("a", "b|c");
    assert UserKey("a|b", "c")[16] != UserKey("a", "b|c")[16];
    TwoCalls(Config(0, 10 * SECOND, 0), first, second);
    SecondUser(Config(0, 10 * SECOND, 0), first, second);
  }

  // ---------- what the limiter promises ----------

  /** Two accepted feeds in a room are at least the room's cooldown apart. */
  lemma {:induction false} RoomFeedsApart(cfg: Config, calls: seq<Call>, i: nat, j: nat)
    requires i < j < |calls| && calls[i].room == calls[j].room
    requires forall k :: 0 < k < |calls| ==> calls[k - 1].clock.now <= calls[k].clock.now
    requires RunLimiter(cfg, calls).outcomes[i].Accepted? && RunLimiter(cfg, calls).outcomes[j].Accepted?
    ensures calls[j].clock.now >= calls[i].clock.now + cfg.room
  {
    hide RunLimiter;
    var before := calls[..j];
    OutcomeAt(cfg, calls, i);
    OutcomeAt(cfg, calls, j);
    OutcomeAt(cfg, before, i);
    assert before[..i] == calls[..i];
    NextFeed(cfg, before, i);
  }

  /** A run's answer to a call depends on the calls before it only. */
  lemma {:induction false} OutcomeAt(cfg: Config, calls: seq<Call>, k: nat)
    requires k < |calls|
    ensures RunLimiter(cfg, calls).outcomes[k] == LimiterCheck(cfg, RunLimiter(cfg, calls[..k]).state, calls[k])
    decreases |calls|
  {
    hide LimiterCheck, LimiterAfter;
    if k < |calls| - 1 {
      OutcomeAt(cfg, calls[..|calls| - 1], k);
      assert calls[..|calls| - 1][..k] == calls[..k];
    }
  }

  /** After an accepted feed the room's next instant is at least a cooldown later. */
  lemma {:induction false} NextFeed(cfg: Config, calls: seq<Call>, i: nat)
    requires i < |calls| && RunLimiter(cfg, calls).outcomes[i].Accepted?
    requires forall k :: 0 < k < |calls| ==> calls[k - 1].clock.now <= calls[k].clock.now
    ensures var l := RunLimiter(cfg, calls).state;
            calls[i].room in l.roomNext && l.roomNext[calls[i].room] >= calls[i].clock.now + cfg.room
    decreases |calls|
  {
    hide LimiterCheck;
    var n := |calls| - 1;
    if i < n {
      NextFeed(cfg, calls[..n], i);
      InOrder(calls, i, n);
    }
  }

  lemma {:induction false} InOrder(calls: seq<Call>, i: nat, j: nat)
    requires i <= j < |calls|
    requires forall k :: 0 < k < |calls| ==> calls[k - 1].clock.now <= calls[k].clock.now
    ensures calls[i].clock.now <= calls[j].clock.now
    decreases j
  {
    if i < j {
      InOrder(calls, i, j - 1);
    }
  }

  /** Grams fed to a cat on a day by the accepted calls. */
  function Grams(calls: seq<Call>, outcomes: seq<Outcome>, cat: string, day: nat): nat
    requires |calls| == |outcomes|
  {
    if calls == [] then 0
    else
      var n := |calls| - 1;
      Grams(calls[..n], outcomes[..n], cat, day)
      + if outcomes[n].Accepted? && calls[n].cat == cat && DayOf(calls[n].clock.now) == day then calls[n].amount else 0
  }

  function Fed(cfg: Config, calls: seq<Call>, cat: string, day: nat): nat
  {
    Grams(calls, RunLimiter(cfg, calls).outcomes, cat, day)
  }

  lemma {:induction false} FedSnoc(cfg: Config, calls: seq<Call>, cat: string, day: nat)
    requires calls != []
    ensures var before, c := calls[..|calls| - 1], calls[|calls| - 1];
            Fed(cfg, calls, cat, day) == Fed(cfg, before, cat, day)
            + if LimiterCheck(cfg, RunLimiter(cfg, before).state, c).Accepted? && c.cat == cat && DayOf(c.clock.now) == day
              then c.amount else 0
  {
    hide LimiterCheck, LimiterAfter;
    var n := |calls| - 1;
    assert RunLimiter(cfg, calls).outcomes[..n] == RunLimiter(cfg, calls[..n]).outcomes;
  }

  /** The running total is the grams fed, kept in 32 bits. */
  lemma {:induction false} TotalIsFed(cfg: Config, calls: seq<Call>, cat: string, day: nat)
    ensures TotalOf(RunLimiter(cfg, calls).state, CatDay(cat, day)) == Fed(cfg, calls, cat, day) % TWO32
  {
    if calls == [] {
      hide CatDay;
    } else {
      hide LimiterCheck, CatDay, PairKey, Fed;
      var before, c := calls[..|calls| - 1], calls[|calls| - 1];
      TotalIsFed(cfg, before, cat, day);
      FedSnoc(cfg, calls, cat, day);
      CatDaysDiffer(cat, day, c.cat, DayOf(c.clock.now));
      ModAdd(Fed(cfg, before, cat, day), c.amount, TWO32);
    }
  }

  /** Call `k` was accepted although it takes the cat's total past 32 bits. */
  predicate Overflows(cfg: Config, calls: seq<Call>, k: nat)
    requires k < |calls|
  {
    var c := calls[k];
    && LimiterCheck(cfg, RunLimiter(cfg, calls[..k]).state, c).Accepted?
    && Fed(cfg, calls[..k], c.cat, DayOf(c.clock.now)) + c.amount >= TWO32
  }

  /** Up to every moment every cat's day stays within the limit. */
  ghost predicate WithinLimit(cfg: Config, calls: seq<Call>)
  {
    forall k, cat, day :: 0 <= k <= |calls| ==> Fed(cfg, calls[..k], cat, day) <= cfg.daily
  }

  /** A positive limit holds if and only if no accepted call overflows the 32-bit total. */
  lemma {:induction false} LimitHolds(cfg: Config, calls: seq<Call>)
    requires cfg.daily > 0
    ensures WithinLimit(cfg, calls) <==> forall k :: 0 <= k < |calls| ==> !Overflows(cfg, calls, k)
  {
    hide LimiterCheck, Fed;
    if forall k :: 0 <= k < |calls| ==> !Overflows(cfg, calls, k) {
      forall k, cat, day | 0 <= k <= |calls| ensures Fed(cfg, calls[..k], cat, day) <= cfg.daily {
        NoOverflowWithin(cfg, calls, k, cat, day);
      }
    } else {
      var k :| 0 <= k < |calls| && Overflows(cfg, calls, k);
      OverflowExceeds(cfg, calls, k);
    }
  }

  lemma {:induction false} OverflowExceeds(cfg: Config, calls: seq<Call>, k: nat)
    requires k < |calls| && Overflows(cfg, calls, k)
    ensures !WithinLimit(cfg, calls)
  {
    hide LimiterCheck, Fed;
    var c, after := calls[k], calls[..k + 1];
    assert after[..|after| - 1] == calls[..k];
    FedSnoc(cfg, after, c.cat, DayOf(c.clock.now));
    assert Fed(cfg, calls[..k + 1], c.cat, DayOf(c.clock.now)) > cfg.daily;
  }

  /** One accepted call that does not overflow. */
  lemma {:induction false} AcceptedWithin(cfg: Config, l: LimiterState, c: Call, fed: nat)
    requires cfg.daily > 0 && LimiterCheck(cfg, l, c).Accepted? && fed <= cfg.daily && fed + c.amount < TWO32
    requires TotalOf(l, CatDay(c.cat, DayOf(c.clock.now))) == fed % TWO32
    ensures fed + c.amount <= cfg.daily
  {
    hide CatDay, TotalOf, PairKey, Lookup;
  }

  lemma {:induction false} NoOverflowWithin(cfg: Config, calls: seq<Call>, k: nat, cat: string, day: nat)
    requires cfg.daily > 0 && k <= |calls| && forall i :: 0 <= i < |calls| ==> !Overflows(cfg, calls, i)
    ensures Fed(cfg, calls[..k], cat, day) <= cfg.daily
    decreases k
  {
    if k > 0 {
      hide Fed, CatDay, LimiterCheck, RunLimiter;
      var before, c, after := calls[..k - 1], calls[k - 1], calls[..k];
      assert after[..|after| - 1] == before && after[|after| - 1] == c;
      NoOverflowWithin(cfg, calls, k - 1, cat, day);
      FedSnoc(cfg, after, cat, day);
      TotalIsFed(cfg, before, cat, day);
      assert !Overflows(cfg, calls, k - 1);
      if LimiterCheck(cfg, RunLimiter(cfg, before).state, c).Accepted? && c.cat == cat && DayOf(c.clock.now) == day {
        AcceptedWithin(cfg, RunLimiter(cfg, before).state, c, Fed(cfg, before, cat, day));
      }
    }
  }

  /** Amounts of at most 2^32 - 1 less the limit never overflow. */
  lemma {:induction false} ModestAmountsWithin(cfg: Config, calls: seq<Call>)
    requires cfg.daily > 0 && forall k :: 0 <= k < |calls| ==> calls[k].amount < TWO32 - cfg.daily
    ensures WithinLimit(cfg, calls)
  {
    hide LimiterCheck, Fed, Overflows;
    forall k | 0 <= k < |calls| ensures !Overflows(cfg, calls, k) {
      ModestFits(cfg, calls, k);
    }
    LimitHolds(cfg, calls);
  }

  /** By induction the total before call `k` is within the limit, so a modest amount fits. */
  lemma {:induction false} ModestFits(cfg: Config, calls: seq<Call>, k: nat)
    requires cfg.daily > 0 && k < |calls| && forall i :: 0 <= i < |calls| ==> calls[i].amount < TWO32 - cfg.daily
    ensures !Overflows(cfg, calls, k)
    decreases k
  {
    hide Fed, LimiterCheck, RunLimiter;
    var before, c := calls[..k], calls[k];
    forall i | 0 <= i < |before| ensures !Overflows(cfg, before, i) {
      ModestFits(cfg, calls, i);
      assert before[..i] == calls[..i];
    }
    NoOverflowWithin(cfg, before, k, c.cat, DayOf(c.clock.now));
    assert before[..k] == before;
  }

  // ---------- every answer, from the accepted feeds alone ----------

  /** When the latest accepted feed in the room was asked for. */
  function LastFeed(calls: seq<Call>, outcomes: seq<Outcome>, room: string): Option<nat>
    requires |calls| == |outcomes|
  {
    if calls == [] then None
    else
      var n := |calls| - 1;
      if outcomes[n].Accepted? && calls[n].room == room then Some(calls[n].clock.now) else LastFeed(calls[..n], outcomes[..n], room)
  }

  /** The latest accepted feed under the user's key. */
  function LastFeedBy(calls: seq<Call>, outcomes: seq<Outcome>, user: string, room: string): Option<nat>
    requires |calls| == |outcomes|
  {
    if calls == [] then None
    else
      var n := |calls| - 1;
      if outcomes[n].Accepted? && calls[n].user + "|" + calls[n].room == user + "|" + room then Some(calls[n].clock.now)
      else LastFeedBy(calls[..n], outcomes[..n], user, room)
  }

  function Plus(t: Option<nat>, d: int): Option<int> { if t.Some? then Some(t.value + d) else None }

  lemma {:induction false} NextIsLastFeed(cfg: Config, calls: seq<Call>, user: string, room: string)
    ensures var l := RunLimiter(cfg, calls);
            && Lookup(l.state.roomNext, room) == Plus(LastFeed(calls, l.outcomes, room), cfg.room)
            && Lookup(l.state.userNext, PairKey(user, room)) == Plus(LastFeedBy(calls, l.outcomes, user, room), cfg.user)
  {
    hide RunLimiter, LimiterCheck, LimiterAfter, PairKey, Lookup;
    if calls == [] {
      NoRuns(cfg);
      NothingNext(user, room);
    } else {
      var n := |calls| - 1;
      NextIsLastFeed(cfg, calls[..n], user, room);
      LastCall(cfg, calls);
      assert RunLimiter(cfg, calls).outcomes[..n] == RunLimiter(cfg, calls[..n]).outcomes;
      NextAfter(cfg, RunLimiter(cfg, calls[..n]).state, calls[n], user, room);
    }
  }

  lemma {:induction false} NothingNext(user: string, room: string)
    ensures Lookup(NO_FEEDS.roomNext, room) == None && Lookup(NO_FEEDS.userNext, PairKey(user, room)) == None
  {}

  lemma {:induction false} NextAfter(cfg: Config, l: LimiterState, c: Call, user: string, room: string)
    ensures var k, ok := LimiterAfter(cfg, l, c), LimiterCheck(cfg, l, c).Accepted?;
            && Lookup(k.roomNext, room) == (if ok && c.room == room then Some(c.clock.now + cfg.room) else Lookup(l.roomNext, room))
            && Lookup(k.userNext, PairKey(user, room))
               == (if ok && c.user + "|" + c.room == user + "|" + room then Some(c.clock.now + cfg.user)
                   else Lookup(l.userNext, PairKey(user, room)))
  {
    hide LimiterCheck, CatDay, TotalOf;
  }

  /** The answer to every call of every run: the room's cooldown counts from the latest accepted feed in the
  room, the user's from the latest under the same key, and the day's grams are those accepted for the cat
  since midnight, in 32-bit arithmetic. */
  lemma {:induction false} OutcomeExactly(cfg: Config, calls: seq<Call>, k: nat)
    requires k < |calls|
    ensures var before, c, now := calls[..k], calls[k], calls[k].clock.now;
            var o := RunLimiter(cfg, before).outcomes;
            var feed, mine := LastFeed(before, o, c.room), LastFeedBy(before, o, c.user, c.room);
            var grams := Grams(before, o, c.cat, now / 86_400_000_000_000);
            RunLimiter(cfg, calls).outcomes[k]
            == if feed.Some? && now < feed.value + cfg.room then BlockedRoom
               else if mine.Some? && now < mine.value + cfg.user then BlockedUser
               else if cfg.daily > 0 && (grams % 0x1_0000_0000 + c.amount) % 0x1_0000_0000 > cfg.daily then BlockedDaily
               else Accepted
  {
    var before, c := calls[..k], calls[k];
    OutcomeAt(cfg, calls, k);
    NextIsLastFeed(cfg, before, c.user, c.room);
    TotalIsFed(cfg, before, c.cat, DayOf(c.clock.now));
    DaysOfSeconds(c.clock.now);
    hide RunLimiter, Grams, LastFeed, LastFeedBy, PairKey, CatDay, DayOf, TotalOf, Lookup;
  }

  lemma {:induction false} DaysOfSeconds(time: nat)
    ensures DayOf(time) == time / 86_400_000_000_000 && Midnight(DayOf(time)) == (DayOf(time) + 1) * 86_400_000_000_000
  {}

  // ---------- what the store promises ----------

  /** A limiter that records what the store accepted. */
  function Followed(cfg: Config, calls: seq<Call>): LimiterState
  {
    if calls == [] then NO_FEEDS
    else
      var l, c := Followed(cfg, calls[..|calls| - 1]), calls[|calls| - 1];
      if RunCache(cfg, calls).outcomes[|calls| - 1].Accepted? then LimiterRecord(cfg, l, c) else l
  }

  /** It agrees with the store whatever the user ids are, but for the users' cooldowns. */
  lemma {:induction false} StoreIsFollowed(cfg: Config, calls: seq<Call>)
    requires OnTime(cfg, LATE, 0, calls) && Asked(calls) <= MAX_INT64
    ensures Agrees(cfg, iset{}, RunCache(cfg, calls).entries, Followed(cfg, calls), EndOf(calls), Asked(calls))
  {
    if calls == [] {
      EmptyAgrees(cfg, iset{});
    } else {
      hide Agrees, CacheConsume, LimiterRecord, Prompt;
      var before, c := calls[..|calls| - 1], calls[|calls| - 1];
      StoreIsFollowed(cfg, before);
      ConsumeAgrees(cfg, iset{}, RunCache(cfg, before).entries, Followed(cfg, before), c, EndOf(before), Asked(before));
    }
  }

  /** What the store judged when it accepted call `k`. */
  lemma {:induction false} AcceptedByStore(cfg: Config, calls: seq<Call>, k: nat)
    requires k < |calls| && OnTime(cfg, LATE, 0, calls[..k + 1]) && Asked(calls[..k + 1]) <= MAX_INT64
    requires RunCache(cfg, calls[..k + 1]).outcomes[k].Accepted?
    ensures var l := Followed(cfg, calls[..k]);
            !Before(calls[k].clock.now, Lookup(l.roomNext, calls[k].room)) && !OverDaily(cfg, l, calls[k])
  {
    hide Agrees, CacheConsume, Prompt, OverDaily, Before, LimiterRecord;
    var before, now := calls[..k], calls[..k + 1];
    assert now[..k] == before && now[|now| - 1] == calls[k];
    StoreIsFollowed(cfg, before);
    ConsumeAgrees(cfg, iset{}, RunCache(cfg, before).entries, Followed(cfg, before), calls[k], EndOf(before), Asked(before));
  }

  lemma {:induction false} PrefixOnTime(cfg: Config, calls: seq<Call>, k: nat)
    requires k <= |calls| && OnTime(cfg, LATE, 0, calls) && Asked(calls) <= MAX_INT64
    ensures OnTime(cfg, LATE, 0, calls[..k]) && Asked(calls[..k]) <= Asked(calls)
    ensures RunCache(cfg, calls[..k]).outcomes == RunCache(cfg, calls).outcomes[..k]
    decreases |calls|
  {
    hide Prompt, CacheConsume;
    if k < |calls| {
      var front := calls[..|calls| - 1];
      PrefixOnTime(cfg, front, k);
      assert front[..k] == calls[..k];
      assert RunCache(cfg, calls).outcomes[..k] == RunCache(cfg, front).outcomes[..k];
    } else {
      assert calls[..k] == calls;
    }
  }

  /** Once the store accepted call `i`, the room's next instant is at least a cooldown later. */
  lemma {:induction false} NextStoreFeed(cfg: Config, calls: seq<Call>, i: nat)
    requires i < |calls| && OnTime(cfg, LATE, 0, calls) && RunCache(cfg, calls).outcomes[i].Accepted?
    ensures var l := Followed(cfg, calls);
            calls[i].room in l.roomNext && l.roomNext[calls[i].room] >= calls[i].clock.now + cfg.room
    decreases |calls|
  {
    hide CacheConsume, PairKey, CatDay;
    var n := |calls| - 1;
    if i < n {
      NextStoreFeed(cfg, calls[..n], i);
      ClockRises(cfg, calls, i, n);
    }
  }

  lemma {:induction false} ClockRises(cfg: Config, calls: seq<Call>, i: nat, j: nat)
    requires i <= j < |calls| && OnTime(cfg, LATE, 0, calls)
    ensures calls[i].clock.now <= calls[j].clock.now
    decreases j
  {
    if i < j {
      ClockRises(cfg, calls, i, j - 1);
    }
  }

  /** Two feeds that the store accepts in a room are at least the room's cooldown apart, whatever the
  user ids. */
  lemma {:induction false} StoreFeedsApart(cfg: Config, calls: seq<Call>, i: nat, j: nat)
    requires OnTime(cfg, LATE, 0, calls) && Asked(calls) <= MAX_INT64 && i < j < |calls| && calls[i].room == calls[j].room
    requires RunCache(cfg, calls).outcomes[i].Accepted? && RunCache(cfg, calls).outcomes[j].Accepted?
    ensures calls[j].clock.now >= calls[i].clock.now + cfg.room
  {
    hide RunCache, Prompt, Followed, OverDaily, OnTime;
    PrefixOnTime(cfg, calls, j);
    PrefixOnTime(cfg, calls, j + 1);
    AcceptedByStore(cfg, calls, j);
    NextStoreFeed(cfg, calls[..j], i);
  }

  lemma {:induction false} GramsSnoc(calls: seq<Call>, outcomes: seq<Outcome>, cat: string, day: nat, k: nat)
    requires k < |calls| == |outcomes|
    ensures Grams(calls[..k + 1], outcomes[..k + 1], cat, day)
         == Grams(calls[..k], outcomes[..k], cat, day)
          + if outcomes[k].Accepted? && calls[k].cat == cat && DayOf(calls[k].clock.now) == day then calls[k].amount else 0
  {
    hide DayOf;
    assert calls[..k + 1][..k] == calls[..k] && outcomes[..k + 1][..k] == outcomes[..k];
  }

  lemma {:induction false} OneMoreFollowed(cfg: Config, calls: seq<Call>)
    requires calls != []
    ensures var n, o := |calls| - 1, RunCache(cfg, calls).outcomes;
            && o[..n] == RunCache(cfg, calls[..n]).outcomes
            && Followed(cfg, calls) == if o[n].Accepted? then LimiterRecord(cfg, Followed(cfg, calls[..n]), calls[n]) else Followed(cfg, calls[..n])
  {
    hide CacheConsume, LimiterRecord;
  }

  lemma {:induction false} LastGrams(calls: seq<Call>, outcomes: seq<Outcome>, cat: string, day: nat)
    requires |calls| == |outcomes| > 0
    ensures var n := |calls| - 1;
            Grams(calls, outcomes, cat, day)
            == Grams(calls[..n], outcomes[..n], cat, day)
               + if outcomes[n].Accepted? && calls[n].cat == cat && DayOf(calls[n].clock.now) == day then calls[n].amount else 0
  {
    hide DayOf;
  }

  /** The followed total is the grams the store accepted, kept in 32 bits. */
  lemma {:induction false} FollowedTotal(cfg: Config, calls: seq<Call>, cat: string, day: nat)
    ensures TotalOf(Followed(cfg, calls), CatDay(cat, day)) == Grams(calls, RunCache(cfg, calls).outcomes, cat, day) % TWO32
  {
    hide RunCache, CatDay, DayOf, LimiterRecord, TotalOf, Followed, Grams;
    if calls == [] {
      NothingFollowed(cfg, cat, day);
    } else {
      var n := |calls| - 1;
      FollowedTotal(cfg, calls[..n], cat, day);
      NextTotal(cfg, calls, cat, day);
    }
  }

  lemma {:induction false} NothingFollowed(cfg: Config, cat: string, day: nat)
    ensures TotalOf(Followed(cfg, []), CatDay(cat, day)) == 0 == Grams([], RunCache(cfg, []).outcomes, cat, day)
  {
    hide CatDay;
  }

  lemma {:induction false} NextTotal(cfg: Config, calls: seq<Call>, cat: string, day: nat)
    requires calls != []
    requires var before := calls[..|calls| - 1];
             TotalOf(Followed(cfg, before), CatDay(cat, day)) == Grams(before, RunCache(cfg, before).outcomes, cat, day) % TWO32
    ensures TotalOf(Followed(cfg, calls), CatDay(cat, day)) == Grams(calls, RunCache(cfg, calls).outcomes, cat, day) % TWO32
  {
    hide RunCache, CatDay, DayOf, LimiterRecord, TotalOf, Followed, Grams;
    var n, o := |calls| - 1, RunCache(cfg, calls).outcomes;
    OneMoreFollowed(cfg, calls);
    LastGrams(calls, o, cat, day);
    RecordedTotal(cfg, Followed(cfg, calls[..n]), calls[n], cat, day);
    ModAdd(Grams(calls[..n], o[..n], cat, day), calls[n].amount, TWO32);
  }

  lemma {:induction false} RecordedTotal(cfg: Config, l: LimiterState, c: Call, cat: string, day: nat)
    ensures TotalOf(LimiterRecord(cfg, l, c), CatDay(cat, day))
         == if c.cat == cat && DayOf(c.clock.now) == day then (TotalOf(l, CatDay(cat, day)) + c.amount) % TWO32
            else TotalOf(l, CatDay(cat, day))
  {
    hide CatDay, PairKey, DayOf;
    CatDaysDiffer(cat, day, c.cat, DayOf(c.clock.now));
  }

  /** The grams the store accepts keep the daily limit when no amount is near 2^32, whatever the user
  ids. */
  lemma {:induction false} StoreWithinLimit(cfg: Config, calls: seq<Call>, cat: string, day: nat, k: nat)
    requires k <= |calls| && OnTime(cfg, LATE, 0, calls) && Asked(calls) <= MAX_INT64
    requires cfg.daily > 0 && forall i :: 0 <= i < |calls| ==> calls[i].amount < TWO32 - cfg.daily
    ensures Grams(calls[..k], RunCache(cfg, calls).outcomes[..k], cat, day) <= cfg.daily
    decreases k
  {
    hide RunCache, Prompt, Followed, OnTime, DayOf, CatDay, Grams, OverDaily, TotalOf, Before;
    var o := RunCache(cfg, calls).outcomes;
    if k == 0 {
      NoGrams(calls, o, cat, day);
    } else {
      StoreWithinLimit(cfg, calls, cat, day, k - 1);
      GramsSnoc(calls, o, cat, day, k - 1);
      var c := calls[k - 1];
      if o[k - 1].Accepted? && c.cat == cat && DayOf(c.clock.now) == day {
        PrefixOnTime(cfg, calls, k - 1);
        PrefixOnTime(cfg, calls, k);
        AcceptedByStore(cfg, calls, k - 1);
        FollowedTotal(cfg, calls[..k - 1], cat, day);
        StillWithin(cfg, Followed(cfg, calls[..k - 1]), c, Grams(calls[..k - 1], o[..k - 1], cat, day));
      }
    }
  }

  lemma {:induction false} StillWithin(cfg: Config, l: LimiterState, c: Call, grams: nat)
    requires cfg.daily > 0 && !OverDaily(cfg, l, c) && grams <= cfg.daily && c.amount < TWO32 - cfg.daily
    requires TotalOf(l, CatDay(c.cat, DayOf(c.clock.now))) == grams % TWO32
    ensures grams + c.amount <= cfg.daily
  {
    hide TotalOf, CatDay, DayOf;
  }

  lemma {:induction false} NoGrams(calls: seq<Call>, outcomes: seq<Outcome>, cat: string, day: nat)
    requires |calls| == |outcomes|
    ensures Grams(calls[..0], outcomes[..0], cat, day) == 0
  {}

  /** A cat that had 20 g of its 50 g is given all but 10 of 2^32 grams. */
  lemma {:induction false} OverflowIsAccepted()
    ensures var cfg := Config(0, 0, 50);
            var calls := [Call("r", "u", "cat", 20, At(0)), Call("r", "u", "cat", TWO32 - 10, At(1))];
            RunLimiter(cfg, calls).outcomes == [Accepted, Accepted] && Fed(cfg, calls, "cat", 0) == TWO32 + 10
  {
    hide RunLimiter, RunCache, CacheConsume, Recorded, DayOf, LimiterCheck, LimiterRecord, Grams;
    var cfg, first, second := Config(0, 0, 50), Call("r", "u", "cat", 20, At(0)), Call("r", "u", "cat", TWO32 - 10, At(1));
    FirstDay();
    TwoCalls(cfg, first, second);
    SecondOverflows(first, second);
    TwoGrams(first, second, "cat", 0);
  }

  lemma {:induction false} SecondOverflows(first: Call, second: Call)
    requires first.clock == At(0) && second.clock == At(1) && first.cat == second.cat
    requires first.amount == 20 && second.amount == TWO32 - 10
    ensures LimiterCheck(Config(0, 0, 50), LimiterRecord(Config(0, 0, 50), NO_FEEDS, first), second) == Accepted
  {
    FirstDay();
    hide PairKey, CatDay, DayOf;
    assert (20 + (TWO32 - 10)) % TWO32 == 10 && 20 % TWO32 == 20;
  }

  lemma {:induction false} TwoGrams(first: Call, second: Call, cat: string, day: nat)
    requires first.cat == second.cat == cat && DayOf(first.clock.now) == DayOf(second.clock.now) == day
    ensures Grams([first, second], [Accepted, Accepted], cat, day) == first.amount + second.amount
  {
    hide DayOf;
    var calls, o := [first, second], [Accepted, Accepted];
    assert calls[..1] == [first] && o[..1] == [Accepted] && calls[..1][..0] == [] && o[..1][..0] == [];
    assert Grams([first], [Accepted], cat, day) == first.amount;
  }
}
