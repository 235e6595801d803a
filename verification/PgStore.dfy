/** The cached policy store (go/pkg/yunmao/feedingsafety `pg_store.go`): policies live in a table, a
process caches what it read for `ttl`, and reads and writes interleave. */
module PgStore {
  import opened Options

  /** A row of the policy table; its columns do not matter here. */
  type Row = nat

  /** A cached answer, `value.None?` meaning that there was no row. */
  datatype Cached = Cached(value: Option<Row>, expires: int)

  type Cache = map<string, Cached>

  const DEFAULT_TTL: int := 30_000_000_000

  /** `NewPgStore`: a zero ttl becomes 30 s. */
  function TtlOf(ttl: int): (t: int)
    ensures ttl == 0 ==> t == 30_000_000_000
    ensures ttl != 0 ==> t == ttl
  {
    if ttl == 0 then DEFAULT_TTL else ttl
  }

  /** The table's key; the empty room name is the global policy. */
  function TableKey(room: string): string { if room == "" then "__global__" else room }

  /** Rooms have rows of their own; only the global policy could be asked for by its key as well. */
  lemma {:induction false} KeysSeparate(a: string, b: string)
    ensures TableKey(a) == TableKey(b) <==> a == b || (a == "" && b == "__global__") || (a == "__global__" && b == "")
    ensures a != "" ==> TableKey(a) == a
  {}

  /** The cached answer that is still valid at `now`. */
  function Hit(c: Cache, room: string, now: int): Option<Cached>
  {
    if room in c && now < c[room].expires then Some(c[room]) else None
  }

  function Remembered(c: Cache, room: string, value: Option<Row>, now: int, ttl: int): Cache
  {
    c[room := Cached(value, now + ttl)]
  }

  datatype Query = Rows(row: Option<Row>) | Failed

  datatype Answer = Answer(value: Option<Row>) | Error

  class Store {
    const ttl: int
    var cache: Cache

    constructor (t: int)
      ensures ttl == TtlOf(t) && cache == map[]
    {
      ttl, cache := TtlOf(t), map[];
    }

    /** `Get` when nothing interferes; `query` is the table's answer if it is asked. */
    method Get(room: string, now: int, query: Query) returns (a: Answer, asked: bool)
      modifies this
      ensures asked <==> Hit(old(cache), room, now).None?
      ensures !asked ==> a == Answer(Hit(old(cache), room, now).value.value) && cache == old(cache)
      ensures asked && query.Rows? ==> a == Answer(query.row) && cache == Remembered(old(cache), room, query.row, now, ttl)
      ensures asked && query.Failed? ==> a == Error && cache == old(cache)
    {
      if room in cache && now < cache[room].expires {
        return Answer(cache[room].value), false;
      }
      asked := true;
      match query
      case Failed => a := Error;
      case Rows(row) =>
        cache := cache[room := Cached(row, now + ttl)];
        a := Answer(row);
    }

    /** `Put` when nothing interferes; `stored` says whether the table took the row. */
    method Put(room: string, stored: bool) returns (ok: bool)
      modifies this
      ensures ok == stored && cache == if stored then old(cache) - {room} else old(cache)
    {
      if !stored {
        return false;
      }
      Invalidate(room);
      ok := true;
    }

    method Invalidate(room: string)
      modifies this
      ensures cache == old(cache) - {room}
    {
      cache := cache - {room};
    }
  }

  // ---------- interleaved steps ----------

  /** Where a `Get` stands; `reading` is its clock reading at the start. */
  datatype Getter =
    | Resting
    | Started(room: string, reading: int)
    | Missed(room: string, reading: int)
    | Loaded(room: string, reading: int, value: Option<Row>)
    | Returned(room: string, reading: int, value: Option<Row>)

  /** Where a `Put` stands. */
  datatype Putter = Quiet | Written(target: string)

  datatype State = State(now: int, table: map<string, Row>, cache: Cache, getters: seq<Getter>, putters: seq<Putter>)

  datatype Step =
    | Tick(elapsed: nat)
    | GetStart(g: nat, room: string)
    | GetCheck(g: nat)
    | GetLoad(g: nat)
    | GetFail(g: nat)
    | GetStore(g: nat)
    | GetDone(g: nat)
    | PutExec(p: nat, room: string, row: Row)
    | PutInvalidate(p: nat)
    | Invalidate(room: string)
    // another process writes a row, or deletes one
    | Elsewhere(key: string, stored: Option<Row>)

  function Stored(table: map<string, Row>, key: string): Option<Row>
  {
    if key in table then Some(table[key]) else None
  }

  function WithRow(table: map<string, Row>, key: string, row: Option<Row>): map<string, Row>
  {
    if row.Some? then table[key := row.value] else table - {key}
  }

  predicate Enabled(s: State, step: Step)
  {
    match step
    case Tick(_) => true
    case GetStart(g, _) => g < |s.getters| && s.getters[g].Resting?
    case GetCheck(g) => g < |s.getters| && s.getters[g].Started?
    case GetLoad(g) => g < |s.getters| && s.getters[g].Missed?
    case GetFail(g) => g < |s.getters| && s.getters[g].Missed?
    case GetStore(g) => g < |s.getters| && s.getters[g].Loaded?
    case GetDone(g) => g < |s.getters| && s.getters[g].Returned?
    case PutExec(p, _, _) => p < |s.putters| && s.putters[p].Quiet?
    case PutInvalidate(p) => p < |s.putters| && s.putters[p].Written?
    case Invalidate(_) => true
    case Elsewhere(_, _) => true
  }

  function WithGetter(s: State, g: nat, getter: Getter): State
    requires g < |s.getters|
  {
    s.(getters := s.getters[g := getter])
  }

  function Apply(ttl: int, s: State, step: Step): State
    requires Enabled(s, step)
  {
    match step
    case Tick(elapsed) => s.(now := s.now + elapsed)
    case GetStart(g, room) => WithGetter(s, g, Started(room, s.now))
    case GetCheck(g) =>
      var t := s.getters[g];
      var hit := Hit(s.cache, t.room, t.reading);
      WithGetter(s, g, if hit.Some? then Returned(t.room, t.reading, hit.value.value) else Missed(t.room, t.reading))
    case GetLoad(g) =>
      var t := s.getters[g];
      WithGetter(s, g, Loaded(t.room, t.reading, Stored(s.table, TableKey(t.room))))
    case GetFail(g) => WithGetter(s, g, Resting)
    case GetStore(g) =>
      var t := s.getters[g];
      WithGetter(s, g, Returned(t.room, t.reading, t.value))
      .(cache := Remembered(s.cache, t.room, t.value, t.reading, ttl))
    case GetDone(g) => WithGetter(s, g, Resting)
    case PutExec(p, room, row) =>
      s.(table := s.table[TableKey(room) := row], putters := s.putters[p := Written(room)])
    case PutInvalidate(p) =>
      s.(cache := s.cache - {s.putters[p].target}, putters := s.putters[p := Quiet])
    case Invalidate(room) => s.(cache := s.cache - {room})
    case Elsewhere(key, row) => s.(table := WithRow(s.table, key, row))
  }

  /** The states of a run; the first has nothing cached and nobody busy. */
  ghost predicate IsRun(ttl: int, run: seq<State>, steps: seq<Step>)
  {
    && |run| == |steps| + 1
    && run[0].cache == map[]
    && (forall g :: 0 <= g < |run[0].getters| ==> run[0].getters[g].Resting?)
    && forall i :: 0 <= i < |steps| ==> Enabled(run[i], steps[i]) && run[i + 1] == Apply(ttl, run[i], steps[i])
  }

  // ---------- how old an answer can be ----------

  /** In some state of the run so far, later than `after`, the table held `value` under `key`. */
  ghost predicate WasStored(run: seq<State>, key: string, value: Option<Row>, after: int)
  {
    exists i :: 0 <= i < |run| && run[i].now > after && Stored(run[i].table, key) == value
  }

  ghost predicate CacheFaithful(ttl: int, run: seq<State>, c: Cache)
  {
    forall room :: room in c ==> WasStored(run, TableKey(room), c[room].value, c[room].expires - ttl - 1)
  }

  ghost predicate GetterFaithful(ttl: int, run: seq<State>, now: int, g: Getter)
  {
    match g
    case Resting => true
    case Started(_, reading) => reading <= now
    case Missed(_, reading) => reading <= now
    case Loaded(room, reading, value) => reading <= now && WasStored(run, TableKey(room), value, reading - 1)
    case Returned(room, reading, value) => WasStored(run, TableKey(room), value, reading - ttl)
  }

  ghost predicate Faithful(ttl: int, run: seq<State>, s: State)
  {
    && CacheFaithful(ttl, run, s.cache)
    && forall g :: 0 <= g < |s.getters| ==> GetterFaithful(ttl, run, s.now, s.getters[g])
  }

  lemma {:induction false} StoredBefore(run: seq<State>, more: seq<State>, key: string, value: Option<Row>, after: int, earlier: int)
    requires WasStored(run, key, value, after) && earlier <= after
    ensures WasStored(run + more, key, value, earlier)
  {
    var i :| 0 <= i < |run| && run[i].now > after && Stored(run[i].table, key) == value;
    assert (run + more)[i] == run[i];
  }

  lemma {:induction false} StoredNow(run: seq<State>, s: State, key: string, after: int)
    requires run != [] && run[|run| - 1] == s && s.now > after
    ensures WasStored(run, key, Stored(s.table, key), after)
  {}

  lemma {:induction false} GetterLater(ttl: int, run: seq<State>, more: seq<State>, now: int, later: int, g: Getter)
    requires GetterFaithful(ttl, run, now, g) && now <= later
    ensures GetterFaithful(ttl, run + more, later, g)
  {
    hide Stored, WasStored;
    match g
    case Loaded(room, reading, value) => StoredBefore(run, more, TableKey(room), value, reading - 1, reading - 1);
    case Returned(room, reading, value) => StoredBefore(run, more, TableKey(room), value, reading - ttl, reading - ttl);
    case _ =>
  }

  lemma {:induction false} CacheLater(ttl: int, run: seq<State>, more: seq<State>, c: Cache, d: Cache)
    requires CacheFaithful(ttl, run, c) && forall room :: room in d ==> room in c && d[room] == c[room]
    ensures CacheFaithful(ttl, run + more, d)
  {
    hide WasStored, TableKey;
    forall room | room in d ensures WasStored(run + more, TableKey(room), d[room].value, d[room].expires - ttl - 1) {
      StoredBefore(run, more, TableKey(room), d[room].value, d[room].expires - ttl - 1, d[room].expires - ttl - 1);
    }
  }

  /** The getter that moves, after its step. */
  lemma {:induction false} MoverFaithful(ttl: int, run: seq<State>, s: State, step: Step, g: nat)
    requires ttl > 0 && run != [] && run[|run| - 1] == s && Faithful(ttl, run, s) && Enabled(s, step)
    requires g < |s.getters|
    ensures var r := Apply(ttl, s, step); GetterFaithful(ttl, run + [r], r.now, r.getters[g])
  {
    hide Stored, WasStored, TableKey;
    var r := Apply(ttl, s, step);
    var t := s.getters[g];
    assert GetterFaithful(ttl, run, s.now, t);
    if r.getters[g] == t {
      GetterLater(ttl, run, [r], s.now, r.now, t);
    } else {
      match step
      case GetCheck(h) =>
        if room :| room == t.room && room in s.cache && t.reading < s.cache[room].expires {
          StoredBefore(run, [r], TableKey(room), s.cache[room].value, s.cache[room].expires - ttl - 1, t.reading - ttl);
        }
      case GetLoad(h) =>
        StoredNow(run, s, TableKey(t.room), t.reading - 1);
        StoredBefore(run, [r], TableKey(t.room), Stored(s.table, TableKey(t.room)), t.reading - 1, t.reading - 1);
      case GetStore(h) =>
        StoredBefore(run, [r], TableKey(t.room), t.value, t.reading - 1, t.reading - ttl);
      case _ =>
    }
  }

  lemma {:induction false} StepFaithful(ttl: int, run: seq<State>, s: State, step: Step)
    requires ttl > 0 && run != [] && run[|run| - 1] == s && Faithful(ttl, run, s) && Enabled(s, step)
    ensures Faithful(ttl, run + [Apply(ttl, s, step)], Apply(ttl, s, step))
  {
    hide Stored, WasStored, TableKey, GetterFaithful, CacheFaithful;
    var r := Apply(ttl, s, step);
    GettersStay(ttl, s, step);
    forall g | 0 <= g < |r.getters| ensures GetterFaithful(ttl, run + [r], r.now, r.getters[g]) {
      MoverFaithful(ttl, run, s, step, g);
    }
    if step.GetStore? {
      var t := s.getters[step.g];
      assert GetterFaithful(ttl, run, s.now, t);
      CacheLater(ttl, run, [r], s.cache, s.cache);
      LoadedStored(ttl, run, s.now, t);
      StoredBefore(run, [r], TableKey(t.room), t.value, t.reading - 1, t.reading - 1);
      RememberedFaithful(ttl, run + [r], s.cache, t.room, t.value, t.reading);
    } else {
      CacheLater(ttl, run, [r], s.cache, r.cache);
    }
  }

  lemma {:induction false} LoadedStored(ttl: int, run: seq<State>, now: int, t: Getter)
    requires t.Loaded? && GetterFaithful(ttl, run, now, t)
    ensures WasStored(run, TableKey(t.room), t.value, t.reading - 1)
  {}

  lemma {:induction false} RememberedFaithful(ttl: int, run: seq<State>, c: Cache, room: string, value: Option<Row>, reading: int)
    requires CacheFaithful(ttl, run, c) && WasStored(run, TableKey(room), value, reading - 1)
    ensures CacheFaithful(ttl, run, Remembered(c, room, value, reading, ttl))
  {
    hide WasStored, TableKey;
  }

  lemma {:induction false} GettersStay(ttl: int, s: State, step: Step)
    requires Enabled(s, step)
    ensures |Apply(ttl, s, step).getters| == |s.getters|
  {}

  lemma {:induction false} RunFaithful(ttl: int, run: seq<State>, steps: seq<Step>)
    requires ttl > 0 && IsRun(ttl, run, steps)
    ensures Faithful(ttl, run, run[|run| - 1])
    decreases |steps|
  {
    if steps != [] {
      hide Faithful, Apply, Enabled;
      var n := |steps| - 1;
      RunFaithful(ttl, run[..n + 1], steps[..n]);
      StepFaithful(ttl, run[..n + 1], run[n], steps[n]);
      assert run == run[..n + 1] + [run[n + 1]];
    }
  }

  /** In every interleaving: what a `Get` returns was in the table at some moment later than its clock
  reading less the ttl. */
  lemma {:induction false} AnswersAreRecent(ttl: int, run: seq<State>, steps: seq<Step>, g: nat)
    requires ttl > 0 && IsRun(ttl, run, steps)
    requires g < |run[|run| - 1].getters| && run[|run| - 1].getters[g].Returned?
    ensures var t := run[|run| - 1].getters[g]; WasStored(run, TableKey(t.room), t.value, t.reading - ttl)
  {
    hide WasStored, TableKey, CacheFaithful;
    RunFaithful(ttl, run, steps);
    assert GetterFaithful(ttl, run, run[|run| - 1].now, run[|run| - 1].getters[g]);
  }

  // ---------- reading what was written ----------

  /** Everything known of `room` is the row in the table: the cached answer and what the reads under
  way have loaded. */
  ghost predicate UpToDate(s: State, room: string)
  {
    && (room in s.cache ==> s.cache[room].value == Stored(s.table, TableKey(room)))
    && forall g :: 0 <= g < |s.getters| && s.getters[g].Loaded? && s.getters[g].room == room ==>
                     s.getters[g].value == Stored(s.table, TableKey(room))
  }

  /** A step that writes the row of `room`. */
  predicate Writes(step: Step, room: string)
  {
    match step
    case PutExec(_, other, _) => TableKey(other) == TableKey(room)
    case Elsewhere(key, _) => key == TableKey(room)
    case _ => false
  }

  lemma {:induction false} StepStaysUpToDate(ttl: int, s: State, step: Step, room: string)
    requires UpToDate(s, room) && Enabled(s, step) && !Writes(step, room)
    ensures var r := Apply(ttl, s, step);
            && UpToDate(r, room) && Stored(r.table, TableKey(room)) == Stored(s.table, TableKey(room))
            && forall g :: 0 <= g < |r.getters| && r.getters[g].Returned? && r.getters[g].room == room && r.getters[g] != s.getters[g] ==>
                             r.getters[g].value == Stored(s.table, TableKey(room))
  {
    hide TableKey;
    GettersStay(ttl, s, step);
  }

  /** The states and steps of a continuation of a run. */
  ghost predicate Continues(ttl: int, s: State, run: seq<State>, steps: seq<Step>)
  {
    && |run| == |steps| + 1 && run[0] == s
    && forall i :: 0 <= i < |steps| ==> Enabled(run[i], steps[i]) && run[i + 1] == Apply(ttl, run[i], steps[i])
  }

  /** From an up-to-date state on, as long as nobody writes the row, every `Get` of the room that
  returns, returns the row. */
  lemma {:induction false} ReadsSeeTheRow(ttl: int, s: State, run: seq<State>, steps: seq<Step>, room: string)
    requires UpToDate(s, room) && Continues(ttl, s, run, steps)
    requires forall i :: 0 <= i < |steps| ==> !Writes(steps[i], room)
    ensures var last := run[|run| - 1];
            && UpToDate(last, room) && Stored(last.table, TableKey(room)) == Stored(s.table, TableKey(room))
            && |last.getters| == |s.getters|
            && forall g :: 0 <= g < |last.getters| && last.getters[g].Returned? && last.getters[g].room == room ==>
                             last.getters[g] == s.getters[g] || last.getters[g].value == Stored(s.table, TableKey(room))
    decreases |steps|
  {
    hide Apply, Enabled, UpToDate, TableKey, Stored;
    if steps != [] {
      var n := |steps| - 1;
      ReadsSeeTheRow(ttl, s, run[..n + 1], steps[..n], room);
      StepStaysUpToDate(ttl, run[n], steps[n], room);
      GettersStay(ttl, run[n], steps[n]);
    }
  }

  // ---------- reading after writing ----------

  /** The `Get` of `g` began after the first state of the run: `g` rested in between. */
  ghost predicate BegunLater(run: seq<State>, g: nat)
  {
    exists i :: 0 <= i < |run| && g < |run[i].getters| && run[i].getters[g].Resting?
  }

  /** The cache cannot answer a later `Get` with anything but the row. */
  predicate CacheHarmless(c: Cache, room: string, row: Option<Row>, now: int)
  {
    room in c ==> c[room].value == row || c[room].expires <= now
  }

  /** No read under way holds an old row that is still worth remembering: one whose `Get` began less
  than a ttl ago. */
  ghost predicate NoFreshOldRead(ttl: int, s: State, room: string)
  {
    forall g :: 0 <= g < |s.getters| ==> ReadHarmless(ttl, s.getters[g], room, Stored(s.table, TableKey(room)), s.now)
  }

  predicate ReadHarmless(ttl: int, t: Getter, room: string, row: Option<Row>, now: int)
  {
    t.Loaded? && t.room == room ==> t.value == row || t.reading + ttl <= now
  }

  /** A `Get` that began after `start` has seen nothing but the row. */
  predicate SeesRow(t: Getter, room: string, row: Option<Row>, start: int)
  {
    match t
    case Resting => true
    case Started(_, reading) => reading >= start
    case Missed(_, _) => true
    case Loaded(other, _, value) => other == room ==> value == row
    case Returned(other, _, value) => other == room ==> value == row
  }

  /** What holds after `run` when nobody wrote the row. */
  ghost predicate Settled(ttl: int, run: seq<State>, room: string)
    requires run != []
  {
    var s, last, row := run[0], run[|run| - 1], Stored(run[0].table, TableKey(room));
    && s.now <= last.now && Stored(last.table, TableKey(room)) == row
    && CacheHarmless(last.cache, room, row, s.now)
    && (forall g :: 0 <= g < |last.getters| ==> ReadHarmless(ttl, last.getters[g], room, row, s.now))
    && forall g :: 0 <= g < |last.getters| && BegunLater(run, g) ==> SeesRow(last.getters[g], room, row, s.now)
  }

  lemma {:induction false} BegunBefore(run: seq<State>, r: State, g: nat)
    requires run != [] && BegunLater(run + [r], g)
    ensures BegunLater(run, g) || (g < |r.getters| && r.getters[g].Resting?)
  {
    var all := run + [r];
    var i :| 0 <= i < |all| && g < |all[i].getters| && all[i].getters[g].Resting?;
    if i < |run| {
      assert run[i] == all[i];
    }
  }

  /** The getter that a step moves, or any other. */
  lemma {:induction false} GetterSettled(ttl: int, run: seq<State>, step: Step, room: string, g: nat)
    requires run != [] && Settled(ttl, run, room) && Enabled(run[|run| - 1], step) && !Writes(step, room)
    requires g < |run[|run| - 1].getters|
    ensures var last, start, row := run[|run| - 1], run[0].now, Stored(run[0].table, TableKey(room));
            var r := Apply(ttl, last, step);
            && g < |r.getters| && ReadHarmless(ttl, r.getters[g], room, row, start)
            && (BegunLater(run, g) || r.getters[g].Resting? ==> SeesRow(r.getters[g], room, row, start))
  {
    hide TableKey, Stored, BegunLater;
    var last := run[|run| - 1];
    var t := last.getters[g];
    if t.Resting? {
      RestingBegun(run, g);
    }
    assert ReadHarmless(ttl, t, room, Stored(run[0].table, TableKey(room)), run[0].now);
  }

  lemma {:induction false} RestingBegun(run: seq<State>, g: nat)
    requires run != [] && g < |run[|run| - 1].getters| && run[|run| - 1].getters[g].Resting?
    ensures BegunLater(run, g)
  {}

  lemma {:induction false} TableSettled(ttl: int, run: seq<State>, step: Step, room: string)
    requires run != [] && Settled(ttl, run, room) && Enabled(run[|run| - 1], step) && !Writes(step, room)
    ensures var last, start, row := run[|run| - 1], run[0].now, Stored(run[0].table, TableKey(room));
            var r := Apply(ttl, last, step);
            start <= r.now && Stored(r.table, TableKey(room)) == row && CacheHarmless(r.cache, room, row, start)
  {
    hide TableKey, BegunLater;
    if step.GetStore? {
      assert ReadHarmless(ttl, run[|run| - 1].getters[step.g], room, Stored(run[0].table, TableKey(room)), run[0].now);
    }
  }

  lemma {:induction false} StepSettles(ttl: int, run: seq<State>, step: Step, room: string)
    requires run != [] && Settled(ttl, run, room) && Enabled(run[|run| - 1], step) && !Writes(step, room)
    ensures Settled(ttl, run + [Apply(ttl, run[|run| - 1], step)], room)
  {
    hide TableKey, Stored, BegunLater, ReadHarmless, SeesRow, CacheHarmless, Apply, Enabled;
    var last, start, row := run[|run| - 1], run[0].now, Stored(run[0].table, TableKey(room));
    var r := Apply(ttl, last, step);
    GettersStay(ttl, last, step);
    TableSettled(ttl, run, step, room);
    forall g | 0 <= g < |r.getters|
      ensures ReadHarmless(ttl, r.getters[g], room, row, start)
      ensures BegunLater(run + [r], g) ==> SeesRow(r.getters[g], room, row, start)
    {
      GetterSettled(ttl, run, step, room, g);
      if BegunLater(run + [r], g) {
        BegunBefore(run, r, g);
      }
    }
    assert (run + [r])[0] == run[0];
  }

  lemma {:induction false} RunSettles(ttl: int, s: State, run: seq<State>, steps: seq<Step>, room: string)
    requires CacheHarmless(s.cache, room, Stored(s.table, TableKey(room)), s.now) && NoFreshOldRead(ttl, s, room)
    requires Continues(ttl, s, run, steps) && forall i :: 0 <= i < |steps| ==> !Writes(steps[i], room)
    ensures Settled(ttl, run, room)
    decreases |steps|
  {
    hide TableKey, Stored, Apply, Enabled, Settled;
    if steps == [] {
      StartSettled(ttl, s, room);
      assert run == [s];
    } else {
      var n := |steps| - 1;
      RunSettles(ttl, s, run[..n + 1], steps[..n], room);
      StepSettles(ttl, run[..n + 1], steps[n], room);
      assert run == run[..n + 1] + [run[n + 1]];
    }
  }

  lemma {:induction false} StartSettled(ttl: int, s: State, room: string)
    requires CacheHarmless(s.cache, room, Stored(s.table, TableKey(room)), s.now) && NoFreshOldRead(ttl, s, room)
    ensures Settled(ttl, [s], room)
  {
    hide TableKey, Stored;
  }

  /** In every continuation of `s` in which nobody writes the row of `room`, every `Get` of the room that
  began after `s` returns the row. */
  ghost predicate LaterGetsSeeTheRow(ttl: int, s: State, room: string)
  {
    forall run, steps, g ::
      Continues(ttl, s, run, steps) && (forall i :: 0 <= i < |steps| ==> !Writes(steps[i], room)) && BegunLater(run, g) ==>
        ReturnsRow(run, g, room, Stored(s.table, TableKey(room)))
  }

  ghost predicate ReturnsRow(run: seq<State>, g: nat, room: string, row: Option<Row>)
  {
    run != [] && g < |run[|run| - 1].getters| && run[|run| - 1].getters[g].Returned? && run[|run| - 1].getters[g].room == room ==>
      run[|run| - 1].getters[g].value == row
  }

  /** After `Put` returns every later `Get` of the room sees the row, until someone writes it, if and only
  if no read under way holds an old row that it loaded for a `Get` begun less than a ttl ago. */
  lemma {:induction false} PutBringsUpToDate(ttl: int, s: State, p: nat)
    requires Enabled(s, PutInvalidate(p))
    ensures var room := s.putters[p].target;
            LaterGetsSeeTheRow(ttl, Apply(ttl, s, PutInvalidate(p)), room) <==> NoFreshOldRead(ttl, s, room)
  {
    hide TableKey, Stored, ReadHarmless, Continues;
    var room, r := s.putters[p].target, Apply(ttl, s, PutInvalidate(p));
    assert r.getters == s.getters && r.table == s.table && r.now == s.now && room !in r.cache;
    var row := Stored(r.table, TableKey(room));
    if NoFreshOldRead(ttl, s, room) {
      forall run, steps, g | Continues(ttl, r, run, steps) && (forall i :: 0 <= i < |steps| ==> !Writes(steps[i], room)) && BegunLater(run, g)
        ensures ReturnsRow(run, g, room, row)
      {
        RunSettles(ttl, r, run, steps, room);
        SettledReturns(ttl, r, run, steps, room, g);
      }
    } else {
      var g :| 0 <= g < |s.getters| && !ReadHarmless(ttl, s.getters[g], room, row, s.now);
      var run, steps := OldReadWins(ttl, r, g, room);
    }
  }

  lemma {:induction false} SettledReturns(ttl: int, s: State, run: seq<State>, steps: seq<Step>, room: string, g: nat)
    requires Continues(ttl, s, run, steps) && Settled(ttl, run, room) && BegunLater(run, g)
    ensures ReturnsRow(run, g, room, Stored(s.table, TableKey(room)))
  {
    hide TableKey, Stored, BegunLater, ReadHarmless, CacheHarmless;
  }

  /** The other direction: the old read is remembered, and answers the next `Get`, even one by the same
  caller. */
  lemma {:induction false} OldReadWins(ttl: int, s: State, g: nat, room: string) returns (run: seq<State>, steps: seq<Step>)
    requires g < |s.getters| && !ReadHarmless(ttl, s.getters[g], room, Stored(s.table, TableKey(room)), s.now)
    ensures Continues(ttl, s, run, steps) && (forall i :: 0 <= i < |steps| ==> !Writes(steps[i], room)) && BegunLater(run, g)
    ensures !ReturnsRow(run, g, room, Stored(s.table, TableKey(room)))
  {
    hide TableKey, Stored;
    var s1 := Apply(ttl, s, GetStore(g));
    var s2 := Apply(ttl, s1, GetDone(g));
    var s3 := Apply(ttl, s2, GetStart(g, room));
    var s4 := Apply(ttl, s3, GetCheck(g));
    run, steps := [s, s1, s2, s3, s4], [GetStore(g), GetDone(g), GetStart(g, room), GetCheck(g)];
    assert run[2].getters[g].Resting?;
  }

  // ---------- nothing blocks ----------

  /** A `Get` that nothing interferes with returns: the cached answer while it lasts, else the row, which it
  remembers for the ttl. */
  lemma {:induction false} GetCompletes(ttl: int, s: State, g: nat, room: string) returns (run: seq<State>, steps: seq<Step>)
    requires g < |s.getters| && s.getters[g].Resting?
    ensures Continues(ttl, s, run, steps) && forall i :: 0 <= i < |steps| ==> !Writes(steps[i], room)
    ensures var last, hit := run[|run| - 1], room in s.cache && s.now < s.cache[room].expires;
            && last.table == s.table && |last.getters| == |s.getters|
            && last.getters[g] == Returned(room, s.now, if hit then s.cache[room].value else Stored(s.table, TableKey(room)))
            && last.cache == if hit then s.cache else s.cache[room := Cached(Stored(s.table, TableKey(room)), s.now + ttl)]
  {
    hide TableKey, Stored;
    var s1 := Apply(ttl, s, GetStart(g, room));
    var s2 := Apply(ttl, s1, GetCheck(g));
    if Hit(s.cache, room, s.now).Some? {
      run, steps := [s, s1, s2], [GetStart(g, room), GetCheck(g)];
    } else {
      var s3 := Apply(ttl, s2, GetLoad(g));
      var s4 := Apply(ttl, s3, GetStore(g));
      run, steps := [s, s1, s2, s3, s4], [GetStart(g, room), GetCheck(g), GetLoad(g), GetStore(g)];
    }
  }

  /** `Invalidate` forgets the room's answer and no other, and so does the second half of `Put`. */
  lemma {:induction false} InvalidateForgets(ttl: int, s: State, p: nat, room: string, other: string)
    ensures var c := Apply(ttl, s, Step.Invalidate(room)).cache;
            room !in c && (other != room ==> (other in c <==> other in s.cache) && (other in c ==> c[other] == s.cache[other]))
    ensures Enabled(s, PutInvalidate(p)) && s.putters[p].target == room ==>
              Apply(ttl, s, PutInvalidate(p)).cache == Apply(ttl, s, Step.Invalidate(room)).cache
  {}

  /** Time passes, other processes write, and callers write and invalidate at any moment. */
  lemma {:induction false} AnyMoment(s: State, elapsed: nat, p: nat, room: string, row: Row, key: string, stored: Option<Row>)
    ensures Enabled(s, Tick(elapsed)) && Enabled(s, Step.Invalidate(room)) && Enabled(s, Elsewhere(key, stored))
    ensures p < |s.putters| && s.putters[p].Quiet? ==> Enabled(s, PutExec(p, room, row))
    ensures p < |s.putters| && s.putters[p].Written? ==> Enabled(s, PutInvalidate(p))
  {}

  // ---------- from the table's update to the later reads ----------

  /** The first half of `Put` stores the row under the room's key and changes no other; what is not a write
  of the row leaves it. */
  lemma {:induction false} RowsChangeByWrites(ttl: int, s: State, step: Step, room: string)
    requires Enabled(s, step)
    ensures !Writes(step, room) ==> Stored(Apply(ttl, s, step).table, TableKey(room)) == Stored(s.table, TableKey(room))
    ensures step.PutExec? && TableKey(step.room) == TableKey(room) ==> Stored(Apply(ttl, s, step).table, TableKey(room)) == Some(step.row)
  {
    hide TableKey;
  }

  lemma {:induction false} RowStays(ttl: int, s: State, run: seq<State>, steps: seq<Step>, room: string)
    requires Continues(ttl, s, run, steps) && forall i :: 0 <= i < |steps| ==> !Writes(steps[i], room)
    ensures Stored(run[|run| - 1].table, TableKey(room)) == Stored(s.table, TableKey(room))
    decreases |steps|
  {
    if steps != [] {
      hide Apply, Enabled, TableKey, Stored;
      var n := |steps| - 1;
      RowStays(ttl, s, run[..n + 1], steps[..n], room);
      RowsChangeByWrites(ttl, run[n], steps[n], room);
    }
  }

  /** A whole `Put(room, row)`, other steps falling between its update of the table and its removal of the
  cached answer but no other write of the row: every `Get` begun after it returned returns `row`, until
  someone writes it again, if and only if no read under way holds an old row for a `Get` that began less
  than a ttl ago. */
  lemma {:induction false} PutIsSeen(ttl: int, s: State, p: nat, room: string, row: Row, run: seq<State>, steps: seq<Step>)
    requires Enabled(s, PutExec(p, room, row)) && Continues(ttl, Apply(ttl, s, PutExec(p, room, row)), run, steps)
    requires forall i :: 0 <= i < |steps| ==> !Writes(steps[i], room)
    requires Enabled(run[|run| - 1], PutInvalidate(p)) && run[|run| - 1].putters[p] == Written(room)
    ensures var r := Apply(ttl, run[|run| - 1], PutInvalidate(p));
            && Stored(r.table, TableKey(room)) == Some(row)
            && (LaterGetsSeeTheRow(ttl, r, room) <==> NoFreshOldRead(ttl, run[|run| - 1], room))
  {
    hide LaterGetsSeeTheRow, NoFreshOldRead, Stored;
    var last := run[|run| - 1];
    RowsChangeByWrites(ttl, s, PutExec(p, room, row), room);
    RowStays(ttl, Apply(ttl, s, PutExec(p, room, row)), run, steps, room);
    RowsChangeByWrites(ttl, last, PutInvalidate(p), room);
    PutBringsUpToDate(ttl, last, p);
  }
}
