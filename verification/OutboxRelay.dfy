/** The relay's code (`processBatch`, `publishWithRetry`, `defaultBackoff`): each method changes the
shared state only by steps of the protocol in module Outbox, and does what it promises. */
module OutboxRelay {
  import opened Outbox

  /** The answer of one publish call. A failed call may still have reached the bus; `stop` says that
  the relay is stopped in the pause after it. */
  datatype Try = Success | Failure(delivered: bool, stop: bool)

  /** What a row's publish calls come to: how many are made, and whether the last succeeded. */
  datatype Verdict = Verdict(tries: nat, ok: bool)

  function Judge(results: nat -> Try, max: nat, a: nat): (v: Verdict)
    requires a < max
    ensures a < v.tries <= max
    decreases max - a
  {
    match results(a)
    case Success => Verdict(a + 1, true)
    case Failure(_, stop) => if stop || a + 1 == max then Verdict(a + 1, false) else Judge(results, max, a + 1)
  }

  /** A row is published exactly when some attempt succeeds and no earlier one ended the retries. */
  lemma {:induction false} JudgeOk(results: nat -> Try, max: nat, a: nat)
    requires a < max
    ensures Judge(results, max, a).ok <==>
            exists k :: a <= k < max && results(k).Success? && forall j :: a <= j < k ==> !results(j).Success? && !results(j).stop
    // the calls made: up to the first success or stop, or all of them
    ensures var n := Judge(results, max, a).tries;
            && (forall j :: a <= j < n - 1 ==> !results(j).Success? && !results(j).stop)
            && (n == max || results(n - 1).Success? || results(n - 1).stop)
    decreases max - a
  {
    if results(a).Success? {
      assert exists k :: a <= k < max && results(k).Success? && forall j :: a <= j < k ==> !results(j).Success? && !results(j).stop by {
        assert a <= a < max;
      }
    } else if results(a).stop || a + 1 == max {
    } else {
      JudgeOk(results, max, a + 1);
      if Judge(results, max, a).ok {
        var k :| a + 1 <= k < max && results(k).Success? && forall j :: a + 1 <= j < k ==> !results(j).Success? && !results(j).stop;
        assert a <= k < max;
      }
    }
  }

  lemma {:induction false} RunsSnoc(c: Config, s: State, steps: seq<Step>, step: Step)
    requires Runs(c, s, steps) && Enabled(c, After(c, s, steps), step)
    ensures Runs(c, s, steps + [step]) && After(c, s, steps + [step]) == Apply(c, After(c, s, steps), step)
  {
    hide Enabled, Apply;
    var r := After(c, s, steps);
    assert [step][1..] == [];
    assert Runs(c, r, [step]) && After(c, r, [step]) == Apply(c, r, step);
    RunsConcat(c, s, steps, [step]);
  }

  /** One worker's view: the state it shares with the others, between whose steps its own fall. */
  class Relay {
    const config: Config
    const me: nat
    var state: State
    /** Steps taken so far, by this worker and in its presence. */
    ghost var trace: seq<Step>
    ghost const start: State

    constructor (c: Config, w: nat, s: State)
      requires ValidConfig(c) && w < |s.workers| && Inv(c, s)
      ensures Valid() && config == c && me == w && state == s
    {
      config, me, state, trace, start := c, w, s, [], s;
    }

    ghost predicate Valid()
      reads this
    {
      && ValidConfig(config) && me < |state.workers|
      && Inv(config, start) && Runs(config, start, trace) && state == After(config, start, trace)
    }

    /** The open transaction. */
    function Open(): Tx
      requires BusyAt(state, me)
      reads this
    {
      state.workers[me].tx
    }

    /** Nothing is committed yet. */
    predicate SameTables(before: State)
      reads this
    {
      state.outbox == before.outbox && state.dlq == before.dlq
    }

    method Do(step: Step)
      requires Valid() && Enabled(config, state, step)
      modifies this
      ensures Valid() && state == Apply(config, old(state), step)
    {
      hide Inv, Enabled, Apply, Runs, After;
      RunsSnoc(config, start, trace, step);
      WorkersStay(config, state, step);
      state := Apply(config, state, step);
      trace := trace + [step];
    }

    /** `publishWithRetry` for the row in work. */
    method PublishWithRetry(results: nat -> Try) returns (ok: bool)
      requires Valid() && BusyAt(state, me) && Open().next < |Open().rows| && Open().attempt == 0
      modifies this
      ensures Valid() && BusyAt(state, me)
      ensures ok == Judge(results, config.maxAttempts, 0).ok
      ensures ok ==> Open() == Settled(old(Open()), Judge(results, config.maxAttempts, 0).tries)
                               .(published := old(Open()).published + {old(Open()).rows[old(Open()).next]})
      ensures !ok ==> Open() == old(Open()).(attempt := Judge(results, config.maxAttempts, 0).tries)
                      && Enabled(config, state, MoveToDlq(me))
      ensures SameTables(old(state))
    {
      hide Inv, Runs, After;
      var attempt := 0;
      while attempt < config.maxAttempts
        invariant Valid() && BusyAt(state, me) && attempt <= config.maxAttempts
        invariant Open() == old(Open()).(attempt := attempt)
        invariant attempt < config.maxAttempts ==>
                    Judge(results, config.maxAttempts, 0) == Judge(results, config.maxAttempts, attempt)
        invariant attempt == config.maxAttempts ==> Judge(results, config.maxAttempts, 0) == Verdict(attempt, false)
        invariant SameTables(old(state))
      {
        match results(attempt) {
          case Success =>
            Do(PublishOk(me));
            return true;
          case Failure(delivered, stop) =>
            Do(PublishFail(me, delivered));
            if attempt < config.maxAttempts - 1 {
              if stop {
                Do(Stop);
                return false;
              }
            }
        }
        attempt := attempt + 1;
      }
      ok := false;
    }

    /** `processBatch`, its rows being the database's answer to the fetch. `results(i)` are the
    answers to the publish calls for row `i`; `dlqFails(i)`, `markFails` and `commitFails` say which
    statements of the transaction return an error, after which it is rolled back. */
    method ProcessBatch(rows: seq<nat>, results: nat -> nat -> Try, dlqFails: nat -> bool, markFails: bool, commitFails: bool)
      returns (count: nat, ok: bool)
      requires Valid() && state.workers[me].Idle? && IsFetch(state, config.batch, rows)
      modifies this
      ensures Valid() && state.workers[me].Idle?
      // all rows are settled as their publish calls say, ...
      ensures ok ==> forall i :: 0 <= i < |rows| ==>
                       (IsMarked(state, rows[i]) <==> Published(results, i)) && (rows[i] in state.dlq <==> !Published(results, i))
      ensures ok ==> forall id :: id !in rows ==>
                       (IsMarked(state, id) <==> IsMarked(old(state), id)) && (id in state.dlq <==> id in old(state).dlq)
      ensures ok ==> count == CountPublished(results, |rows|)
      // ... or nothing changes
      ensures !ok ==> SameTables(old(state))
      ensures !ok <==> rows != [] && (markFails || commitFails
                                      || exists i :: 0 <= i < |rows| && !Published(results, i) && dlqFails(i))
    {
      hide Inv, Runs, After, Enabled, Apply, IsMarked, IsFetch;
      if rows == [] {
        return 0, true;
      }
      Begin(rows);
      var publishedIDs, failed := SettleRows(rows, results, dlqFails);
      if failed {
        Abort();
        return |publishedIDs|, false;
      }
      if markFails || commitFails {
        Abort();
        return 0, false;
      }
      SameMarks(old(state), state);
      Finish(rows);
      return |publishedIDs|, true;
    }

    /** The loop of `processBatch` over the fetched rows. */
    method SettleRows(rows: seq<nat>, results: nat -> nat -> Try, dlqFails: nat -> bool)
      returns (publishedIDs: seq<nat>, failed: bool)
      requires Valid() && BusyAt(state, me) && Open() == Tx(rows, 0, 0, [], {}, {}) && Ascending(rows)
      modifies this
      ensures Valid() && BusyAt(state, me) && SameTables(old(state)) && Open().rows == rows
      ensures failed <==> exists i :: 0 <= i < |rows| && !Published(results, i) && dlqFails(i)
      ensures !failed ==> |publishedIDs| == CountPublished(results, |rows|) && Open().next == |rows|
      ensures !failed ==> forall j :: 0 <= j < |rows| ==> (rows[j] in Open().published <==> Published(results, j))
    {
      hide Inv, Runs, After, Judge;
      publishedIDs := [];
      for i := 0 to |rows|
        invariant Valid() && BusyAt(state, me) && SameTables(old(state))
        invariant Open().rows == rows && Open().next == i && Open().attempt == 0
        invariant |publishedIDs| == CountPublished(results, i)
        invariant forall j :: 0 <= j < i ==> Published(results, j) || !dlqFails(j)
        invariant forall j :: 0 <= j < i ==> (rows[j] in Open().published <==> Published(results, j))
        invariant forall j :: i <= j < |rows| ==> rows[j] !in Open().published
      {
        Distinct(rows, i);
        var published, stuck := SettleRow(i, results(i), dlqFails(i));
        if stuck {
          assert !Published(results, i) && dlqFails(i);
          return publishedIDs, true;
        }
        if published {
          publishedIDs := publishedIDs + [rows[i]];
        }
      }
      failed := false;
    }

    lemma {:induction false} SameMarks(s: State, r: State)
      requires s.outbox == r.outbox
      ensures forall id :: IsMarked(s, id) <==> IsMarked(r, id)
    {}

    /** One turn of the loop of `processBatch`; `failed` when moving the row to the DLQ fails. */
    method SettleRow(i: nat, results: nat -> Try, dlqFails: bool) returns (published: bool, failed: bool)
      requires Valid() && BusyAt(state, me) && Open().next == i < |Open().rows| && Open().attempt == 0
      modifies this
      ensures Valid() && BusyAt(state, me) && SameTables(old(state)) && Open().rows == old(Open()).rows
      ensures published == Judge(results, config.maxAttempts, 0).ok && failed == (!published && dlqFails)
      ensures !failed ==> Open().next == i + 1 && Open().attempt == 0
      ensures Open().published == old(Open()).published + if published then {old(Open()).rows[i]} else {}
    {
      hide Inv, Runs, After;
      published := PublishWithRetry(results);
      failed := !published && dlqFails;
      if !published && !dlqFails {
        Do(MoveToDlq(me));
      }
    }

    method Begin(rows: seq<nat>)
      requires Valid() && state.workers[me].Idle? && rows != [] && IsFetch(state, config.batch, rows)
      modifies this
      ensures Valid() && BusyAt(state, me) && SameTables(old(state)) && Ascending(rows)
      ensures Open() == Tx(rows, 0, 0, [], {}, {})
    {
      hide Inv, Runs, After;
      Do(Fetch(me, rows));
    }

    /** The deferred rollback. */
    method Abort()
      requires Valid() && BusyAt(state, me)
      modifies this
      ensures Valid() && state.workers[me].Idle? && SameTables(old(state))
    {
      hide Inv, Runs, After;
      Do(Rollback(me));
    }

    /** `MarkPublished` and `Commit`. */
    method Finish(rows: seq<nat>)
      requires Valid() && BusyAt(state, me) && Open().next == |rows| && Open().rows == rows
      modifies this
      ensures Valid() && state.workers[me].Idle?
      ensures forall i :: 0 <= i < |rows| ==>
                (IsMarked(state, rows[i]) <==> rows[i] in old(Open()).published)
                && (rows[i] in state.dlq <==> rows[i] !in old(Open()).published)
      ensures forall id :: id !in rows ==>
                (IsMarked(state, id) <==> IsMarked(old(state), id)) && (id in state.dlq <==> id in old(state).dlq)
    {
      Committing();
      hide Inv, Runs, After, IsMarked, Marked;
      Settles(state, rows);
      Do(Commit(me));
    }

    lemma {:induction false} Committing()
      requires Valid() && BusyAt(state, me) && Open().next == |Open().rows|
      ensures Inv(config, state) && Enabled(config, state, Commit(me))
    {
      hide Inv;
      RunKeeps(config, start, trace);
    }

    ghost predicate Published(results: nat -> nat -> Try, i: nat)
    {
      config.maxAttempts > 0 && Judge(results(i), config.maxAttempts, 0).ok
    }

    ghost function CountPublished(results: nat -> nat -> Try, n: nat): nat
    {
      if n == 0 then 0 else CountPublished(results, n - 1) + if Published(results, n - 1) then 1 else 0
    }

    lemma {:induction false} Distinct(rows: seq<nat>, i: nat)
      requires Ascending(rows) && i < |rows|
      ensures forall j :: 0 <= j < |rows| && j != i ==> rows[j] != rows[i]
    {
      assert forall j :: 0 <= j < i ==> rows[j] < rows[i];
      assert forall j :: i < j < |rows| ==> rows[i] < rows[j];
    }

    /** What the commit of the finished batch does to every row. */
    lemma {:induction false} Settles(s: State, rows: seq<nat>)
      requires Inv(config, s) && Enabled(config, s, Commit(me)) && s.workers[me].tx.rows == rows
      ensures var t, r := s.workers[me].tx, Apply(config, s, Commit(me));
              && (forall i :: 0 <= i < |rows| ==>
                    (IsMarked(r, rows[i]) <==> rows[i] in t.published) && (rows[i] in r.dlq <==> rows[i] !in t.published))
              && (forall id :: id !in rows ==>
                    (IsMarked(r, id) <==> IsMarked(s, id)) && (id in r.dlq <==> id in s.dlq))
    {
      var t, r := s.workers[me].tx, Apply(config, s, Commit(me));
      hide Inv, Enabled, Apply, IsMarked;
      forall id
        ensures && (id in rows ==> (IsMarked(r, id) <==> id in t.published) && (id in r.dlq <==> id !in t.published))
                && (id !in rows ==> (IsMarked(r, id) <==> IsMarked(s, id)) && (id in r.dlq <==> id in s.dlq))
      {
        CommitSettles(config, s, me, id);
      }
    }
  }

  lemma {:induction false} WorkersStay(c: Config, s: State, step: Step)
    requires Enabled(c, s, step)
    ensures |Apply(c, s, step).workers| == |s.workers|
  {
    hide IsFetch, Marked;
  }

  // ---------- the pause between attempts ----------

  /** 100 ms, doubled `n` times. */
  function Doubled(n: nat): nat { if n == 0 then 100 else 2 * Doubled(n - 1) }

  /** `defaultBackoff` in milliseconds: 100 ms doubled for each attempt, at most 2 s. */
  method DefaultBackoff(attempt: nat) returns (d: nat)
    ensures d == if Doubled(attempt) < 2000 then Doubled(attempt) else 2000
    ensures 100 <= d <= 2000 && (d < 2000 <==> attempt < 5) && (attempt == 0 ==> d == 100) && (attempt == 4 ==> d == 1600)
  {
    d := 100;
    var i := 0;
    while i < attempt && d < 2000
      invariant i <= attempt && d == Doubled(i) && 100 <= d < 4000
    {
      d := d * 2;
      i := i + 1;
    }
    DoubledRises(i, attempt);
    BelowTwoSeconds(attempt);
    if d > 2000 {
      d := 2000;
    }
  }

  lemma {:induction false} DoubledRises(i: nat, n: nat)
    requires i <= n
    ensures Doubled(i) <= Doubled(n) && Doubled(i) >= 100
    decreases n
  {
    if i < n {
      DoubledRises(i, n - 1);
    } else if i > 0 {
      DoubledRises(i - 1, i - 1);
    }
  }

  lemma {:induction false} BelowTwoSeconds(n: nat)
    ensures Doubled(n) < 2000 <==> n < 5
  {
    assert Doubled(1) == 200 && Doubled(2) == 400 && Doubled(3) == 800 && Doubled(4) == 1600 && Doubled(5) == 3200;
    if n >= 5 {
      DoubledRises(5, n);
    } else {
      assert n == 0 || n == 1 || n == 2 || n == 3 || n == 4;
    }
  }
}
