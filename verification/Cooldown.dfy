/** Feeding cooldowns and daily limits: the limiter in memory (go/pkg/yunmao/cooldown
`cooldown.go`) and the one over a key-value store with expiring entries (go/pkg/yunmao/cache
`cooldown.go` and `cache.go`). Times are nanoseconds since 1970 in UTC. */
module Cooldown {
  import opened Bytes
  import opened Options
  import opened Decimal

  const SECOND: int := 1_000_000_000
  const DAY: int := 86_400 * SECOND

  function DayOf(time: nat): nat { time / DAY }

  /** The instant a day ends. */
  function Midnight(day: nat): nat { (day + 1) * DAY }

  /** The calendar day in text; a day number stands for year, month and day. */
  function DateText(day: nat): string { Digits(day) }

  datatype Outcome = Accepted | BlockedRoom | BlockedUser | BlockedDaily

  datatype Config = Config(room: int, user: int, daily: U32)

  /** The clock readings of one call, in the order they are taken: at its start, at each read of the
  store, at each write of it. */
  datatype Readings = Readings(now: nat, getRoom: nat, getUser: nat, getDaily: nat, setRoom: nat, setUser: nat, until: nat, incr: nat)

  datatype Call = Call(room: string, user: string, cat: string, amount: U32, clock: Readings)

  // ---------- the limiter in memory ----------

  datatype LimiterState = LimiterState(roomNext: map<string, int>, userNext: map<string, int>, dailyTotal: map<string, U32>)

  const NO_FEEDS := LimiterState(map[], map[], map[])

  function Lookup<V>(m: map<string, V>, key: string): Option<V>
  {
    if key in m then Some(m[key]) else None
  }

  predicate Before(now: int, next: Option<int>) { next.Some? && now < next.value }

  function PairKey(user: string, room: string): string { user + "|" + room }

  function CatDay(cat: string, day: nat): string { cat + ":" + DateText(day) }

  function TotalOf(l: LimiterState, key: string): U32
  {
    if key in l.dailyTotal then l.dailyTotal[key] else 0
  }

  /** `Limiter.Check` without the waiting time. */
  function LimiterCheck(cfg: Config, l: LimiterState, c: Call): Outcome
  {
    var now := c.clock.now;
    if Before(now, Lookup(l.roomNext, c.room)) then BlockedRoom
    else if Before(now, Lookup(l.userNext, PairKey(c.user, c.room))) then BlockedUser
    else if cfg.daily > 0 && (TotalOf(l, CatDay(c.cat, DayOf(now))) + c.amount) % TWO32 > cfg.daily then BlockedDaily
    else Accepted
  }

  function LimiterRecord(cfg: Config, l: LimiterState, c: Call): LimiterState
  {
    var now := c.clock.now;
    var day := CatDay(c.cat, DayOf(now));
    LimiterState(l.roomNext[c.room := now + cfg.room],
                 l.userNext[PairKey(c.user, c.room) := now + cfg.user],
                 l.dailyTotal[day := (TotalOf(l, day) + c.amount) % TWO32])
  }

  function LimiterAfter(cfg: Config, l: LimiterState, c: Call): LimiterState
  {
    if LimiterCheck(cfg, l, c).Accepted? then LimiterRecord(cfg, l, c) else l
  }

  class Limiter {
    const cfg: Config
    var roomNext: map<string, int>
    var userNext: map<string, int>
    var dailyTotal: map<string, U32>

    function View(): LimiterState
      reads this
    {
      LimiterState(roomNext, userNext, dailyTotal)
    }

    constructor (c: Config)
      ensures cfg == c && View() == NO_FEEDS
    {
      cfg, roomNext, userNext, dailyTotal := c, map[], map[], map[];
    }

    /** `Check`: the outcome, and how long to wait. */
    method Check(c: Call) returns (o: Outcome, retryAfter: int)
      ensures o == LimiterCheck(cfg, View(), c)
      ensures o.BlockedRoom? || o.BlockedUser? <==> retryAfter > 0
      ensures o.BlockedRoom? ==> c.clock.now + retryAfter == roomNext[c.room]
      ensures o.BlockedUser? ==> c.clock.now + retryAfter == userNext[PairKey(c.user, c.room)]
    {
      var now := c.clock.now;
      if c.room in roomNext && now < roomNext[c.room] {
        return BlockedRoom, roomNext[c.room] - now;
      }
      var pair := c.user + "|" + c.room;
      if pair in userNext && now < userNext[pair] {
        return BlockedUser, userNext[pair] - now;
      }
      if cfg.daily > 0 {
        var day := c.cat + ":" + DateText(now / DAY);
        var total := if day in dailyTotal then dailyTotal[day] else 0;
        if (total + c.amount) % TWO32 > cfg.daily {
          return BlockedDaily, 0;
        }
      }
      return Accepted, 0;
    }

    method Consume(c: Call) returns (o: Outcome)
      modifies this
      ensures o == LimiterCheck(cfg, old(View()), c) && View() == LimiterAfter(cfg, old(View()), c)
    {
      var now := c.clock.now;
      if c.room in roomNext && now < roomNext[c.room] {
        return BlockedRoom;
      }
      var pair := c.user + "|" + c.room;
      if pair in userNext && now < userNext[pair] {
        return BlockedUser;
      }
      var day := c.cat + ":" + DateText(now / DAY);
      var total := if day in dailyTotal then dailyTotal[day] else 0;
      if cfg.daily > 0 && (total + c.amount) % TWO32 > cfg.daily {
        return BlockedDaily;
      }
      roomNext := roomNext[c.room := now + cfg.room];
      userNext := userNext[pair := now + cfg.user];
      dailyTotal := dailyTotal[day := (total + c.amount) % TWO32];
      return Accepted;
    }
  }

  // ---------- the store ----------

  /** A stored text: an instant in RFC 3339 form with nanoseconds, or any other text. */
  datatype Value = Stamp(time: int) | Text(s: string)

  datatype Entry = Entry(val: Value, counter: int, expire: Option<int>)

  type Entries = map<string, Entry>

  predicate Expired(e: Entry, now: int) { e.expire.Some? && now > e.expire.value }

  /** `gc` */
  function Live(m: Entries, now: int): Entries
  {
    map key | key in m && !Expired(m[key], now) :: m[key]
  }

  function Expiry(now: int, ttl: int): Option<int> { if ttl > 0 then Some(now + ttl) else None }

  /** `Set` */
  function Stored(m: Entries, key: string, v: Value, ttl: int, now: int): Entries
  {
    m[key := Entry(v, 0, Expiry(now, ttl))]
  }

  /** `IncrBy`; the expiry is set only when the counter is new. */
  function Incremented(m: Entries, key: string, delta: int, ttl: int, now: int): Entries
  {
    var live := Live(m, now);
    var e := if key in live then live[key] else Entry(Text(""), 0, Expiry(now, ttl));
    var n := Wrap64(e.counter + delta);
    live[key := Entry(Text(Formatted(n)), n, e.expire)]
  }

  /** A stored entry is found until its ttl is over, and for ever if it has none; a counter starts at 0 and
  keeps the expiry it was made with. */
  lemma {:induction false} EntriesLive(m: Entries, key: string, v: Value, ttl: int, now: int, later: int, delta: int)
    ensures var live := Live(Stored(m, key, v, ttl, now), later);
            && (key in live <==> ttl <= 0 || later <= now + ttl)
            && (key in live ==> live[key].val == v && live[key].counter == 0)
    ensures var n := Incremented(m, key, delta, ttl, now);
            var old_ := key in m && (m[key].expire.Some? ==> now <= m[key].expire.value);
            && key in n && n[key].counter == Wrap64((if old_ then m[key].counter else 0) + delta)
            && n[key].val == Text(Formatted(n[key].counter))
            && (old_ ==> n[key].expire == m[key].expire)
            && (!old_ ==> (key in Live(n, later) <==> ttl <= 0 || later <= now + ttl))
  {
    hide Formatted, Wrap64;
  }

  class MemoryStore {
    var m: Entries

    constructor ()
      ensures m == map[]
    {
      m := map[];
    }

    method Gc(now: int)
      modifies this
      ensures m == Live(old(m), now)
    {
      var todo := m.Keys;
      while todo != {}
        invariant todo <= old(m).Keys && m.Keys <= old(m).Keys
        invariant forall key :: key in m ==> m[key] == old(m)[key]
        invariant forall key :: key in todo ==> key in m
        invariant forall key :: key in old(m) && key !in todo ==> (key in m <==> !Expired(old(m)[key], now))
        decreases |todo|
      {
        var key :| key in todo;
        todo := todo - {key};
        if Expired(m[key], now) {
          m := m - {key};
        }
      }
    }

    method Set(key: string, v: Value, ttl: int, now: int)
      modifies this
      ensures m == Stored(old(m), key, v, ttl, now)
    {
      m := m[key := Entry(v, 0, Expiry(now, ttl))];
    }

    method Get(key: string, now: int) returns (v: Option<Value>)
      modifies this
      ensures m == Live(old(m), now) && v == if key in m then Some(m[key].val) else None
    {
      Gc(now);
      v := if key in m then Some(m[key].val) else None;
    }

    method IncrBy(key: string, delta: int, ttl: int, now: int) returns (n: int)
      modifies this
      ensures m == Incremented(old(m), key, delta, ttl, now) && key in m && n == m[key].counter
    {
      Gc(now);
      var e := if key in m then m[key] else Entry(Text(""), 0, Expiry(now, ttl));
      n := Wrap64(e.counter + delta);
      var text := FormatInt(n);
      m := m[key := Entry(Text(text), n, e.expire)];
    }
  }

  // ---------- the cooldown over the store ----------

  const PREFIX := "yunmao:"

  function Joined(parts: seq<string>): string
  {
    if parts == [] then ""
    else if |parts| == 1 then parts[0]
    else Joined(parts[..|parts| - 1]) + ":" + parts[|parts| - 1]
  }

  /** `K` */
  method K(parts: seq<string>) returns (b: string)
    ensures b == PREFIX + Joined(parts)
  {
    b := PREFIX;
    for i := 0 to |parts|
      invariant b == PREFIX + Joined(parts[..i])
    {
      assert parts[..i + 1][..i] == parts[..i];
      if i > 0 {
        b := b + ":";
      }
      b := b + parts[i];
    }
    assert parts[..|parts|] == parts;
  }

  function RoomKey(room: string): string { PREFIX + ("cool:room:" + room) }

  function UserKey(user: string, room: string): string { PREFIX + ("cool:ur:" + user + ":" + room) }

  function CatKey(cat: string, day: nat): string { PREFIX + ("cool:cat:" + CatDay(cat, day)) }

  /** What the keys look like in the store. */
  lemma {:induction false} KeyTexts()
    ensures RoomKey("r1") == "yunmao:cool:room:r1" && UserKey("u1", "r1") == "yunmao:cool:ur:u1:r1"
    ensures CatKey("c1", 7) == "yunmao:cool:cat:c1:7"
  {
    assert DateText(7) == "7";
    assert RoomKey("r1") == "yunmao:" + ("cool:room:" + "r1");
    assert UserKey("u1", "r1") == "yunmao:" + ("cool:ur:" + "u1" + ":" + "r1");
    assert CatKey("c1", 7) == "yunmao:" + ("cool:cat:" + ("c1" + ":" + "7"));
  }

  lemma {:induction false} KeysAreJoined(c: Call)
    ensures RoomKey(c.room) == PREFIX + Joined(["cool", "room", c.room])
    ensures UserKey(c.user, c.room) == PREFIX + Joined(["cool", "ur", c.user, c.room])
    ensures CatKey(c.cat, DayOf(c.clock.now)) == PREFIX + Joined(["cool", "cat", c.cat, DateText(DayOf(c.clock.now))])
  {
    hide DateText;
    Joined3("cool", "room", c.room);
    Joined4("cool", "ur", c.user, c.room);
    Joined4("cool", "cat", c.cat, DateText(DayOf(c.clock.now)));
    assert "cool" + ":" + "room" + ":" == "cool:room:";
    assert "cool" + ":" + "ur" + ":" == "cool:ur:";
    assert "cool" + ":" + "cat" + ":" == "cool:cat:";
    var d := DateText(DayOf(c.clock.now));
    assert "cool:cat:" + c.cat + ":" + d == "cool:cat:" + (c.cat + ":" + d);
  }

  lemma {:induction false} Joined3(a: string, b: string, c: string)
    ensures Joined([a, b, c]) == a + ":" + b + ":" + c
  {
    assert [a, b, c][..2] == [a, b] && [a, b][..1] == [a];
    assert Joined([a, b]) == a + ":" + b;
  }

  lemma {:induction false} Joined4(a: string, b: string, c: string, d: string)
    ensures Joined([a, b, c, d]) == a + ":" + b + ":" + c + ":" + d
  {
    assert [a, b, c, d][..3] == [a, b, c];
    Joined3(a, b, c);
  }

  /** The instant a stored text stands for, if it is one. */
  function NextOf(m: Entries, key: string): Option<int>
  {
    if key in m && m[key].val.Stamp? then Some(m[key].val.time) else None
  }

  /** `parseInt` of a stored text; nothing stored reads as 0. */
  function CounterOf(m: Entries, key: string): int
  {
    if key in m && m[key].val.Text? then Wrap64(Parse(0, m[key].val.s)) else 0
  }

  /** `Cooldown.Consume`: the entries it leaves and its outcome. */
  function CacheConsume(cfg: Config, m: Entries, c: Call): (Entries, Outcome)
  {
    var now := c.clock.now;
    var m1 := Live(m, c.clock.getRoom);
    if Before(now, NextOf(m1, RoomKey(c.room))) then (m1, BlockedRoom)
    else
      var m2 := Live(m1, c.clock.getUser);
      if Before(now, NextOf(m2, UserKey(c.user, c.room))) then (m2, BlockedUser)
      else
        var day := CatKey(c.cat, DayOf(now));
        var m3 := if cfg.daily > 0 then Live(m2, c.clock.getDaily) else m2;
        if cfg.daily > 0 && (CounterOf(m3, day) % TWO32 + c.amount) % TWO32 > cfg.daily then (m3, BlockedDaily)
        else (Recorded(cfg, m3, c), Accepted)
  }

  function Recorded(cfg: Config, m: Entries, c: Call): Entries
  {
    var now := c.clock.now;
    var m4 := Stored(m, RoomKey(c.room), Stamp(now + cfg.room), cfg.room + SECOND, c.clock.setRoom);
    var m5 := Stored(m4, UserKey(c.user, c.room), Stamp(now + cfg.user), cfg.user + SECOND, c.clock.setUser);
    if cfg.daily == 0 then m5
    else Incremented(m5, CatKey(c.cat, DayOf(now)), c.amount, Midnight(DayOf(now)) - c.clock.until, c.clock.incr)
  }

  class CacheCooldown {
    const store: MemoryStore
    const cfg: Config

    constructor (s: MemoryStore, c: Config)
      ensures store == s && cfg == c
    {
      store, cfg := s, c;
    }

    /** Reading an instant: what is not one counts as long past. */
    method Blocked(key: string, now: int, reading: int) returns (b: bool)
      modifies store
      ensures store.m == Live(old(store.m), reading) && b == Before(now, NextOf(store.m, key))
    {
      var v := store.Get(key, reading);
      b := v.Some? && v.value.Stamp? && now < v.value.time;
    }

    method Consume(c: Call) returns (o: Outcome)
      modifies store
      ensures (store.m, o) == CacheConsume(cfg, old(store.m), c)
    {
      hide Live, Joined, Incremented, Formatted;
      var now := c.clock.now;
      KeysAreJoined(c);
      var roomKey := K(["cool", "room", c.room]);
      var blocked := Blocked(roomKey, now, c.clock.getRoom);
      if blocked {
        return BlockedRoom;
      }
      var userKey := K(["cool", "ur", c.user, c.room]);
      blocked := Blocked(userKey, now, c.clock.getUser);
      if blocked {
        return BlockedUser;
      }
      var dayKey := K(["cool", "cat", c.cat, DateText(DayOf(now))]);
      if cfg.daily > 0 {
        var v := store.Get(dayKey, c.clock.getDaily);
        var current := 0;
        if v.Some? && v.value.Text? {
          current := ParseInt(v.value.s);
        }
        if (current % TWO32 + c.amount) % TWO32 > cfg.daily {
          return BlockedDaily;
        }
      }
      store.Set(roomKey, Stamp(now + cfg.room), cfg.room + SECOND, c.clock.setRoom);
      store.Set(userKey, Stamp(now + cfg.user), cfg.user + SECOND, c.clock.setUser);
      if cfg.daily > 0 {
        var ttl := Midnight(DayOf(now)) - c.clock.until;
        var _ := store.IncrBy(dayKey, c.amount, ttl, c.clock.incr);
      }
      return Accepted;
    }
  }
}
