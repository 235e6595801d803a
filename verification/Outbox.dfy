/** The transactional outbox relay (go/pkg/yunmao/db `outbox.go`) as a protocol: any number of
workers fetch rows under row locks, publish them to the bus, and settle them in one transaction;
publishing can fail, transactions can be rolled back, workers can crash, rows keep arriving. */
module Outbox {

  /** `batch` rows per transaction, at most `maxAttempts` publish calls per row and transaction. */
  datatype Config = Config(batch: nat, maxAttempts: nat)

  predicate ValidConfig(c: Config) { c.batch > 0 && c.maxAttempts > 0 }

  /** `NewRelay`: numbers that make no sense are replaced by the defaults. */
  function Normalised(batch: int, maxAttempts: int): (c: Config)
    ensures ValidConfig(c)
    ensures c.batch == if batch > 0 then batch else 64
    ensures c.maxAttempts == if maxAttempts > 0 then maxAttempts else 5
  {
    Config(if batch <= 0 then 64 else batch, if maxAttempts <= 0 then 5 else maxAttempts)
  }

  /** An open transaction: the locked rows, how many of them are settled, the publish calls made for
  the row in work and for each settled row, and what the transaction will do when it commits. */
  datatype Tx = Tx(rows: seq<nat>, next: nat, attempt: nat, tries: seq<nat>, published: set<nat>, dead: set<nat>)

  datatype Worker = Idle | Busy(tx: Tx)

  /** The committed tables, the bus, the workers and some book-keeping. `outbox[id]` says whether
  the row is marked published; `acks` counts the publish calls that returned success, `lost` those
  that reached the bus but returned an error; `aborted` counts, for each row, the rolled-back
  transactions in which it had been published. */
  datatype State = State(
    outbox: map<nat, bool>,
    dlq: set<nat>,
    inserted: set<nat>,
    acks: multiset<nat>,
    lost: multiset<nat>,
    aborted: multiset<nat>,
    stopping: bool,
    workers: seq<Worker>)

  datatype Step =
    | Insert(id: nat)
    | Stop
    | Fetch(w: nat, rows: seq<nat>)
    | PublishOk(w: nat)
    | PublishFail(w: nat, delivered: bool)
    | MoveToDlq(w: nat)
    | Commit(w: nat)
    | Rollback(w: nat)

  // ---------- what a worker may do ----------

  predicate BusyAt(s: State, w: nat) { w < |s.workers| && s.workers[w].Busy? }

  predicate LockedBy(s: State, w: nat, id: nat) { BusyAt(s, w) && id in s.workers[w].tx.rows }

  ghost predicate Locked(s: State, id: nat) { exists w :: 0 <= w < |s.workers| && LockedBy(s, w, id) }

  /** Unpublished and locked by nobody. */
  ghost predicate Free(s: State, id: nat) { id in s.outbox && !s.outbox[id] && !Locked(s, id) }

  predicate Ascending(rows: seq<nat>) { forall i, j :: 0 <= i < j < |rows| ==> rows[i] < rows[j] }

  /** `SELECT ... WHERE published_at IS NULL ORDER BY id FOR UPDATE SKIP LOCKED LIMIT batch`: the
  smallest free rows, up to `batch` of them. */
  ghost predicate IsFetch(s: State, batch: nat, rows: seq<nat>)
  {
    && Ascending(rows) && |rows| <= batch
    && (forall i :: 0 <= i < |rows| ==> Free(s, rows[i]))
    && (forall id :: Free(s, id) && id !in rows ==> |rows| == batch && forall i :: 0 <= i < |rows| ==> rows[i] < id)
  }

  /** A row is in work and may be published once more. */
  predicate CanPublish(c: Config, s: State, w: nat)
  {
    BusyAt(s, w) && var t := s.workers[w].tx; t.next < |t.rows| && t.attempt < c.maxAttempts
  }

  ghost predicate Enabled(c: Config, s: State, step: Step)
  {
    match step
    case Insert(id) => id !in s.inserted
    case Stop => true
    case Fetch(w, rows) => w < |s.workers| && s.workers[w].Idle? && rows != [] && IsFetch(s, c.batch, rows)
    case PublishOk(w) => CanPublish(c, s, w)
    case PublishFail(w, _) => CanPublish(c, s, w)
    // after the last attempt, or when the relay is stopped during the pause after a failed one
    case MoveToDlq(w) =>
      BusyAt(s, w) && var t := s.workers[w].tx;
      t.next < |t.rows| && (t.attempt == c.maxAttempts || (t.attempt > 0 && s.stopping))
    case Commit(w) => BusyAt(s, w) && s.workers[w].tx.next == |s.workers[w].tx.rows|
    case Rollback(w) => BusyAt(s, w)
  }

  function WithWorker(s: State, w: nat, worker: Worker): State
    requires w < |s.workers|
  {
    s.(workers := s.workers[w := worker])
  }

  /** The row in work is settled. */
  function Settled(t: Tx, tries: nat): Tx
  {
    t.(next := t.next + 1, attempt := 0, tries := t.tries + [tries])
  }

  function Marked(outbox: map<nat, bool>, t: Tx): map<nat, bool>
  {
    map id | id in outbox && id !in t.dead :: outbox[id] || id in t.published
  }

  function Apply(c: Config, s: State, step: Step): State
    requires Enabled(c, s, step)
  {
    match step
    case Insert(id) => s.(outbox := s.outbox[id := false], inserted := s.inserted + {id})
    case Stop => s.(stopping := true)
    case Fetch(w, rows) => WithWorker(s, w, Busy(Tx(rows, 0, 0, [], {}, {})))
    case PublishOk(w) =>
      var t := s.workers[w].tx;
      var id := t.rows[t.next];
      WithWorker(s, w, Busy(Settled(t, t.attempt + 1).(published := t.published + {id}))).(acks := s.acks + multiset{id})
    case PublishFail(w, delivered) =>
      var t := s.workers[w].tx;
      var id := t.rows[t.next];
      WithWorker(s, w, Busy(t.(attempt := t.attempt + 1)))
      .(lost := if delivered then s.lost + multiset{id} else s.lost)
    case MoveToDlq(w) =>
      var t := s.workers[w].tx;
      WithWorker(s, w, Busy(Settled(t, t.attempt).(dead := t.dead + {t.rows[t.next]})))
    case Commit(w) =>
      var t := s.workers[w].tx;
      WithWorker(s, w, Idle).(outbox := Marked(s.outbox, t), dlq := s.dlq + t.dead)
    case Rollback(w) =>
      WithWorker(s, w, Idle).(aborted := s.aborted + multiset(s.workers[w].tx.published))
  }

  // ---------- runs ----------

  ghost predicate Start(s: State)
  {
    && s.outbox == map[] && s.dlq == {} && s.inserted == {}
    && s.acks == multiset{} && s.lost == multiset{} && s.aborted == multiset{}
    && forall w :: 0 <= w < |s.workers| ==> s.workers[w].Idle?
  }

  /** The steps can be taken one after the other from `s`. */
  ghost predicate Runs(c: Config, s: State, steps: seq<Step>)
    decreases |steps|
  {
    steps == [] || (Enabled(c, s, steps[0]) && Runs(c, Apply(c, s, steps[0]), steps[1..]))
  }

  ghost function After(c: Config, s: State, steps: seq<Step>): State
    requires Runs(c, s, steps)
    decreases |steps|
  {
    if steps == [] then s else After(c, Apply(c, s, steps[0]), steps[1..])
  }

  lemma {:induction false} RunsConcat(c: Config, s: State, a: seq<Step>, b: seq<Step>)
    requires Runs(c, s, a) && Runs(c, After(c, s, a), b)
    ensures Runs(c, s, a + b) && After(c, s, a + b) == After(c, After(c, s, a), b)
    decreases |a|
  {
    if a == [] {
      assert a + b == b;
    } else {
      assert (a + b)[0] == a[0] && (a + b)[1..] == a[1..] + b;
      RunsConcat(c, Apply(c, s, a[0]), a[1..], b);
    }
  }

  // ---------- the invariant ----------

  /** A transaction on its own. */
  ghost predicate TxValid(c: Config, t: Tx)
  {
    && Ascending(t.rows) && t.next <= |t.rows| && t.attempt <= c.maxAttempts
    && (t.next == |t.rows| ==> t.attempt == 0)
    && |t.tries| == t.next
    && (forall i :: 0 <= i < t.next ==> 1 <= t.tries[i] <= c.maxAttempts)
    && (forall i :: 0 <= i < t.next ==> (t.rows[i] in t.published) != (t.rows[i] in t.dead))
    && (forall i :: t.next <= i < |t.rows| ==> t.rows[i] !in t.published && t.rows[i] !in t.dead)
    && t.published <= (set id | id in t.rows) && t.dead <= (set id | id in t.rows)
  }

  /** A row given up before the last attempt was given up because the relay stopped. */
  ghost predicate GivenUpRightly(c: Config, stopping: bool, t: Tx)
  {
    |t.tries| == t.next && t.next <= |t.rows|
    && forall i :: 0 <= i < t.next && t.rows[i] in t.dead ==> t.tries[i] == c.maxAttempts || stopping
  }

  ghost predicate WorkersValid(c: Config, s: State)
  {
    forall w :: 0 <= w < |s.workers| && s.workers[w].Busy? ==>
      TxValid(c, s.workers[w].tx) && GivenUpRightly(c, s.stopping, s.workers[w].tx)
  }

  /** Two workers never hold the same row. */
  ghost predicate Exclusive(s: State)
  {
    forall v, w, id :: LockedBy(s, v, id) && LockedBy(s, w, id) ==> v == w
  }

  /** A locked row is there and unpublished. */
  ghost predicate LocksUnpublished(s: State)
  {
    forall w, id :: LockedBy(s, w, id) ==> id in s.outbox && !s.outbox[id]
  }

  /** Every committed row is in exactly one of the two tables. */
  ghost predicate OnePlace(s: State)
  {
    s.outbox.Keys !! s.dlq && s.outbox.Keys + s.dlq == s.inserted
  }

  /** Worker `w` has published row `id` in a transaction that is still open. */
  predicate PublishedBy(s: State, w: nat, id: nat) { BusyAt(s, w) && id in s.workers[w].tx.published }

  ghost predicate InFlight(s: State, id: nat) { exists w :: 0 <= w < |s.workers| && PublishedBy(s, w, id) }

  function One(b: bool): nat { if b then 1 else 0 }

  predicate IsMarked(s: State, id: nat) { id in s.outbox && s.outbox[id] }

  /** Every successful publish is accounted for: the row is marked published, or its transaction was
  rolled back, or its transaction is still open. */
  ghost predicate Accounted(s: State)
  {
    forall id :: s.acks[id] == One(IsMarked(s, id)) + s.aborted[id] + One(InFlight(s, id))
  }

  ghost predicate Inv(c: Config, s: State)
  {
    && WorkersValid(c, s) && Exclusive(s) && LocksUnpublished(s) && OnePlace(s) && Accounted(s)
  }

  // ---------- each step keeps it ----------

  /** Worker `w` becomes `worker`; all others stay. */
  predicate Moves(s: State, r: State, w: nat, worker: Worker)
  {
    w < |s.workers| && r.workers == s.workers[w := worker] && r.stopping == s.stopping && r.inserted == s.inserted
  }

  /** A worker's step inside its transaction leaves the tables and the locks alone. */
  lemma {:induction false} InsideKeeps(c: Config, s: State, r: State, w: nat, t: Tx)
    requires WorkersValid(c, s) && Exclusive(s) && LocksUnpublished(s) && OnePlace(s)
    requires BusyAt(s, w) && t.rows == s.workers[w].tx.rows && Moves(s, r, w, Busy(t)) && r.outbox == s.outbox && r.dlq == s.dlq
    requires TxValid(c, t) && GivenUpRightly(c, s.stopping, t)
    ensures WorkersValid(c, r) && Exclusive(r) && LocksUnpublished(r) && OnePlace(r)
  {
    hide TxValid, GivenUpRightly;
    assert forall v, id :: LockedBy(r, v, id) <==> LockedBy(s, v, id);
  }

  lemma {:induction false} PublishOkKeeps(c: Config, s: State, w: nat)
    requires ValidConfig(c) && Inv(c, s) && Enabled(c, s, PublishOk(w))
    ensures Inv(c, Apply(c, s, PublishOk(w)))
  {
    hide TxValid, GivenUpRightly, WorkersValid, Exclusive, LocksUnpublished, OnePlace, Accounted;
    var t := s.workers[w].tx;
    var id := t.rows[t.next];
    var u := Settled(t, t.attempt + 1).(published := t.published + {id});
    WorkerValid(c, s, w);
    SettleValid(c, s.stopping, t, u);
    InsideKeeps(c, s, Apply(c, s, PublishOk(w)), w, u);
    PublishAccounts(c, s, w, u, id);
  }

  lemma {:induction false} WorkerValid(c: Config, s: State, w: nat)
    requires WorkersValid(c, s) && BusyAt(s, w)
    ensures var t := s.workers[w].tx;
            && TxValid(c, t) && GivenUpRightly(c, s.stopping, t)
            && (t.next < |t.rows| ==> t.rows[t.next] !in t.published && t.rows[t.next] !in t.dead)
  {}

  /** Settling the row in work keeps the transaction valid. */
  lemma {:induction false} SettleValid(c: Config, stopping: bool, t: Tx, u: Tx)
    requires ValidConfig(c) && TxValid(c, t) && GivenUpRightly(c, stopping, t) && t.next < |t.rows|
    requires u.rows == t.rows && u.next == t.next + 1 && u.attempt == 0
    requires || (u.tries == t.tries + [t.attempt + 1] && t.attempt < c.maxAttempts
                 && u.published == t.published + {t.rows[t.next]} && u.dead == t.dead)
             || (u.tries == t.tries + [t.attempt] && t.attempt > 0 && (t.attempt == c.maxAttempts || stopping)
                 && u.published == t.published && u.dead == t.dead + {t.rows[t.next]})
    ensures TxValid(c, u) && GivenUpRightly(c, stopping, u)
  {
    forall i | 0 <= i < |t.rows| && i != t.next ensures t.rows[i] != t.rows[t.next] {
      assert i < t.next ==> t.rows[i] < t.rows[t.next];
      assert i > t.next ==> t.rows[t.next] < t.rows[i];
    }
  }

  lemma {:induction false} PublishAccounts(c: Config, s: State, w: nat, u: Tx, id: nat)
    requires Inv(c, s) && BusyAt(s, w) && id in s.workers[w].tx.rows && id !in s.workers[w].tx.published
    requires u.published == s.workers[w].tx.published + {id}
    ensures Accounted(WithWorker(s, w, Busy(u)).(acks := s.acks + multiset{id}))
  {
    hide TxValid, GivenUpRightly, OnePlace;
    var r := WithWorker(s, w, Busy(u)).(acks := s.acks + multiset{id});
    assert LockedBy(s, w, id);
    assert PublishedBy(r, w, id);
    assert !InFlight(s, id) by {
      if v :| 0 <= v < |s.workers| && PublishedBy(s, v, id) {
        PublishedIsLocked(c, s, v, id);
      }
    }
    forall x ensures r.acks[x] == One(IsMarked(r, x)) + r.aborted[x] + One(InFlight(r, x)) {
      if x != id {
        SameFlight(s, r, x);
      }
    }
  }

  lemma {:induction false} PublishedIsLocked(c: Config, s: State, w: nat, id: nat)
    requires WorkersValid(c, s) && PublishedBy(s, w, id)
    ensures LockedBy(s, w, id)
  {
    var t := s.workers[w].tx;
    assert TxValid(c, t);
    assert id in (set x | x in t.rows);
  }

  lemma {:induction false} SameFlight(s: State, r: State, id: nat)
    requires |s.workers| == |r.workers|
    requires forall w :: 0 <= w < |s.workers| ==> (PublishedBy(s, w, id) <==> PublishedBy(r, w, id))
    ensures InFlight(s, id) <==> InFlight(r, id)
  {}

  /** The accounts depend only on the marks, the counters and the open transactions. */
  lemma {:induction false} SameAccounts(s: State, r: State)
    requires Accounted(s) && r.acks == s.acks && r.aborted == s.aborted && |s.workers| == |r.workers|
    requires forall id :: IsMarked(r, id) <==> IsMarked(s, id)
    requires forall w, id :: PublishedBy(r, w, id) <==> PublishedBy(s, w, id)
    ensures Accounted(r)
  {
    forall id ensures r.acks[id] == One(IsMarked(r, id)) + r.aborted[id] + One(InFlight(r, id)) {
      SameFlight(s, r, id);
    }
  }

  lemma {:induction false} PublishFailKeeps(c: Config, s: State, w: nat, delivered: bool)
    requires ValidConfig(c) && Inv(c, s) && Enabled(c, s, PublishFail(w, delivered))
    ensures Inv(c, Apply(c, s, PublishFail(w, delivered)))
  {
    hide GivenUpRightly, WorkersValid, Exclusive, LocksUnpublished, OnePlace, Accounted;
    var t := s.workers[w].tx;
    var u := t.(attempt := t.attempt + 1);
    var r := Apply(c, s, PublishFail(w, delivered));
    WorkerValid(c, s, w);
    SameGivenUp(c, s.stopping, t, u);
    InsideKeeps(c, s, r, w, u);
    SameAccounts(s, r);
  }

  lemma {:induction false} SameGivenUp(c: Config, stopping: bool, t: Tx, u: Tx)
    requires GivenUpRightly(c, stopping, t) && u == t.(attempt := u.attempt)
    ensures GivenUpRightly(c, stopping, u)
  {}

  lemma {:induction false} MoveToDlqKeeps(c: Config, s: State, w: nat)
    requires ValidConfig(c) && Inv(c, s) && Enabled(c, s, MoveToDlq(w))
    ensures Inv(c, Apply(c, s, MoveToDlq(w)))
  {
    hide TxValid, GivenUpRightly, WorkersValid, Exclusive, LocksUnpublished, OnePlace, Accounted;
    var t := s.workers[w].tx;
    var u := Settled(t, t.attempt).(dead := t.dead + {t.rows[t.next]});
    var r := Apply(c, s, MoveToDlq(w));
    WorkerValid(c, s, w);
    SettleValid(c, s.stopping, t, u);
    InsideKeeps(c, s, r, w, u);
    SameAccounts(s, r);
  }

  lemma {:induction false} InsertKeeps(c: Config, s: State, id: nat)
    requires Inv(c, s) && id !in s.inserted
    ensures Inv(c, Apply(c, s, Insert(id)))
  {
    hide TxValid, GivenUpRightly, Accounted;
    var r := Apply(c, s, Insert(id));
    assert id !in s.outbox;
    assert forall v, x :: LockedBy(r, v, x) <==> LockedBy(s, v, x);
    assert r.outbox.Keys == s.outbox.Keys + {id};
    SameAccounts(s, r);
  }

  lemma {:induction false} StopKeeps(c: Config, s: State)
    requires Inv(c, s)
    ensures Inv(c, Apply(c, s, Stop))
  {
    hide TxValid, Accounted;
    var r := Apply(c, s, Stop);
    assert forall v, x :: LockedBy(r, v, x) <==> LockedBy(s, v, x);
    SameAccounts(s, r);
  }

  lemma {:induction false} FetchKeeps(c: Config, s: State, w: nat, rows: seq<nat>)
    requires Inv(c, s) && Enabled(c, s, Fetch(w, rows))
    ensures Inv(c, Apply(c, s, Fetch(w, rows)))
  {
    hide TxValid, GivenUpRightly, Accounted, OnePlace;
    var t, r := Tx(rows, 0, 0, [], {}, {}), Apply(c, s, Fetch(w, rows));
    FreshTx(c, s.stopping, rows);
    forall v, id | LockedBy(r, v, id)
      ensures id in s.outbox && !s.outbox[id] && (v == w ==> !Locked(s, id)) && (v != w ==> LockedBy(s, v, id))
    {
      if v == w {
        var i :| 0 <= i < |rows| && rows[i] == id;
        assert Free(s, rows[i]);
      } else {
        assert LockedBy(s, v, id);
      }
    }
    SameAccounts(s, r);
    SameTables(s, r);
  }

  lemma {:induction false} FreshTx(c: Config, stopping: bool, rows: seq<nat>)
    requires Ascending(rows) && rows != []
    ensures TxValid(c, Tx(rows, 0, 0, [], {}, {})) && GivenUpRightly(c, stopping, Tx(rows, 0, 0, [], {}, {}))
  {}

  lemma {:induction false} SameTables(s: State, r: State)
    requires OnePlace(s) && r.outbox == s.outbox && r.dlq == s.dlq && r.inserted == s.inserted
    ensures OnePlace(r)
  {}

  // ---------- the end of a transaction ----------

  /** The locks of the ended transaction are gone, the others stay. */
  lemma {:induction false} EndFrees(c: Config, s: State, r: State, w: nat)
    requires WorkersValid(c, s) && Exclusive(s) && BusyAt(s, w) && Moves(s, r, w, Idle)
    ensures WorkersValid(c, r) && Exclusive(r)
    ensures forall v, id :: LockedBy(r, v, id) <==> LockedBy(s, v, id) && v != w
    ensures forall v, id :: PublishedBy(r, v, id) <==> PublishedBy(s, v, id) && v != w
  {
    hide TxValid, GivenUpRightly;
    assert forall v, id :: LockedBy(r, v, id) ==> LockedBy(s, v, id);
  }

  /** A row published in the ending transaction is no longer in flight; others are as before. */
  lemma {:induction false} EndFlight(c: Config, s: State, r: State, w: nat, id: nat)
    requires WorkersValid(c, s) && Exclusive(s) && BusyAt(s, w) && |r.workers| == |s.workers|
    requires forall v, x :: PublishedBy(r, v, x) <==> PublishedBy(s, v, x) && v != w
    ensures PublishedBy(s, w, id) ==> InFlight(s, id) && !InFlight(r, id)
    ensures !PublishedBy(s, w, id) ==> (InFlight(s, id) <==> InFlight(r, id))
  {
    hide TxValid, GivenUpRightly;
    if PublishedBy(s, w, id) && InFlight(r, id) {
      var v :| 0 <= v < |r.workers| && PublishedBy(r, v, id);
      PublishedIsLocked(c, s, v, id);
      PublishedIsLocked(c, s, w, id);
      assert false;
    }
    if !PublishedBy(s, w, id) && InFlight(s, id) {
      var v :| 0 <= v < |s.workers| && PublishedBy(s, v, id);
      assert PublishedBy(r, v, id);
    }
  }

  lemma {:induction false} CommitKeeps(c: Config, s: State, w: nat)
    requires Inv(c, s) && Enabled(c, s, Commit(w))
    ensures Inv(c, Apply(c, s, Commit(w)))
  {
    hide TxValid, GivenUpRightly, WorkersValid, Exclusive, Accounted;
    var r := Apply(c, s, Commit(w));
    EndFrees(c, s, r, w);
    CommitTables(c, s, w);
    CommitAccounts(c, s, r, w);
  }

  /** Which rows a transaction settles, and that it holds their locks. */
  lemma {:induction false} SettledRows(c: Config, s: State, w: nat, id: nat)
    requires WorkersValid(c, s) && BusyAt(s, w) && id in s.workers[w].tx.published + s.workers[w].tx.dead
    ensures LockedBy(s, w, id) && !(id in s.workers[w].tx.published && id in s.workers[w].tx.dead)
  {
    var t := s.workers[w].tx;
    assert TxValid(c, t);
    assert id in (set x | x in t.rows);
    var i :| 0 <= i < |t.rows| && t.rows[i] == id;
  }

  lemma {:induction false} CommitTables(c: Config, s: State, w: nat)
    requires Inv(c, s) && BusyAt(s, w)
    ensures var t := s.workers[w].tx;
            && Marked(s.outbox, t).Keys == s.outbox.Keys - t.dead && t.dead <= s.outbox.Keys
            && (forall v, id :: v != w && LockedBy(s, v, id) ==> id in Marked(s.outbox, t) && !Marked(s.outbox, t)[id])
  {
    hide TxValid, GivenUpRightly, Accounted;
    var t := s.workers[w].tx;
    forall id | id in t.published + t.dead ensures LockedBy(s, w, id) && id in s.outbox {
      SettledRows(c, s, w, id);
    }
    forall v, id | v != w && LockedBy(s, v, id) ensures id !in t.published && id !in t.dead && id in s.outbox && !s.outbox[id] {
      assert id in t.published + t.dead ==> LockedBy(s, w, id);
    }
  }

  lemma {:induction false} CommitAccounts(c: Config, s: State, r: State, w: nat)
    requires Inv(c, s) && BusyAt(s, w) && |r.workers| == |s.workers| && r.acks == s.acks && r.aborted == s.aborted
    requires r.outbox == Marked(s.outbox, s.workers[w].tx)
    requires forall v, x :: PublishedBy(r, v, x) <==> PublishedBy(s, v, x) && v != w
    ensures Accounted(r)
  {
    hide TxValid, GivenUpRightly, InFlight;
    var t := s.workers[w].tx;
    forall id ensures r.acks[id] == One(IsMarked(r, id)) + r.aborted[id] + One(InFlight(r, id)) {
      EndFlight(c, s, r, w, id);
      if id in t.published + t.dead {
        SettledRows(c, s, w, id);
      }
    }
  }

  lemma {:induction false} RollbackKeeps(c: Config, s: State, w: nat)
    requires Inv(c, s) && Enabled(c, s, Rollback(w))
    ensures Inv(c, Apply(c, s, Rollback(w)))
  {
    hide TxValid, GivenUpRightly, WorkersValid, Exclusive, InFlight;
    var t, r := s.workers[w].tx, Apply(c, s, Rollback(w));
    EndFrees(c, s, r, w);
    forall id ensures r.acks[id] == One(IsMarked(r, id)) + r.aborted[id] + One(InFlight(r, id)) {
      EndFlight(c, s, r, w, id);
    }
  }

  lemma {:induction false} StepKeeps(c: Config, s: State, step: Step)
    requires ValidConfig(c) && Inv(c, s) && Enabled(c, s, step)
    ensures Inv(c, Apply(c, s, step))
  {
    hide Inv, Enabled, Apply, WithWorker;
    match step
    case Insert(id) => assert id !in s.inserted by { InsertFresh(c, s, id); } InsertKeeps(c, s, id);
    case Stop => StopKeeps(c, s);
    case Fetch(w, rows) => FetchKeeps(c, s, w, rows);
    case PublishOk(w) => PublishOkKeeps(c, s, w);
    case PublishFail(w, delivered) => PublishFailKeeps(c, s, w, delivered);
    case MoveToDlq(w) => MoveToDlqKeeps(c, s, w);
    case Commit(w) => CommitKeeps(c, s, w);
    case Rollback(w) => RollbackKeeps(c, s, w);
  }

  lemma {:induction false} InsertFresh(c: Config, s: State, id: nat)
    requires Enabled(c, s, Insert(id))
    ensures id !in s.inserted
  {}

  // ---------- what holds over every run ----------

  lemma {:induction false} StartValid(c: Config, s: State)
    requires Start(s)
    ensures Inv(c, s)
  {
    assert forall w, id :: !LockedBy(s, w, id) && !PublishedBy(s, w, id);
  }

  lemma {:induction false} RunKeeps(c: Config, s: State, steps: seq<Step>)
    requires ValidConfig(c) && Inv(c, s) && Runs(c, s, steps)
    ensures Inv(c, After(c, s, steps))
    decreases |steps|
  {
    if steps != [] {
      hide Inv, Enabled, Apply;
      StepKeeps(c, s, steps[0]);
      RunKeeps(c, Apply(c, s, steps[0]), steps[1..]);
    }
  }

  /** In every interleaving: each row ever committed is in exactly one of the outbox, unpublished or
  marked published, and the DLQ, and no two workers hold the same row. */
  lemma {:induction false} EveryRowInOnePlace(c: Config, s: State, steps: seq<Step>)
    requires ValidConfig(c) && Start(s) && Runs(c, s, steps)
    ensures var r := After(c, s, steps);
            && r.outbox.Keys !! r.dlq && r.outbox.Keys + r.dlq == r.inserted
            && forall v, w, id :: LockedBy(r, v, id) && LockedBy(r, w, id) ==> v == w && !IsMarked(r, id) && id !in r.dlq
  {
    hide TxValid, GivenUpRightly, Accounted, Enabled, Apply, After;
    StartValid(c, s);
    RunKeeps(c, s, steps);
    var r := After(c, s, steps);
    forall v, w, id | LockedBy(r, v, id) && LockedBy(r, w, id) ensures v == w && !IsMarked(r, id) && id !in r.dlq {
      assert id in r.outbox;
    }
  }

  /** In every interleaving: the successful publish calls for a row are one for its mark, one for each
  rolled-back transaction that had published it, and one while such a transaction is open. So a
  marked row was published, and published exactly once if none of its transactions rolled back. */
  lemma {:induction false} PublishesAccounted(c: Config, s: State, steps: seq<Step>, id: nat)
    requires ValidConfig(c) && Start(s) && Runs(c, s, steps)
    ensures var r := After(c, s, steps);
            && r.acks[id] == One(IsMarked(r, id)) + r.aborted[id] + One(InFlight(r, id))
            && (IsMarked(r, id) ==> id in r.acks && (r.aborted[id] == 0 ==> r.acks[id] == 1))
  {
    hide TxValid, GivenUpRightly, Enabled, Apply, After, WorkersValid, LocksUnpublished, OnePlace;
    StartValid(c, s);
    RunKeeps(c, s, steps);
    var r := After(c, s, steps);
    if IsMarked(r, id) && InFlight(r, id) {
      MarkedNotInFlight(c, r, id);
    }
  }

  lemma {:induction false} MarkedNotInFlight(c: Config, s: State, id: nat)
    requires Inv(c, s) && IsMarked(s, id)
    ensures !InFlight(s, id)
  {
    hide TxValid, GivenUpRightly;
    if w :| 0 <= w < |s.workers| && PublishedBy(s, w, id) {
      PublishedIsLocked(c, s, w, id);
    }
  }

  /** In every interleaving: a transaction makes at least one and at most `maxAttempts` publish calls
  for a row it settles, and gives a row up early only when the relay is being stopped. */
  lemma {:induction false} AttemptsBounded(c: Config, s: State, steps: seq<Step>, w: nat)
    requires ValidConfig(c) && Start(s) && Runs(c, s, steps) && BusyAt(After(c, s, steps), w)
    ensures var r := After(c, s, steps);
            var t := r.workers[w].tx;
            && t.attempt <= c.maxAttempts && |t.tries| == t.next <= |t.rows|
            && (forall i :: 0 <= i < t.next ==> 1 <= t.tries[i] <= c.maxAttempts)
            && (forall i :: 0 <= i < t.next && t.rows[i] in t.dead ==> t.tries[i] == c.maxAttempts || r.stopping)
  {
    hide Enabled, Apply, After, Accounted, OnePlace, LocksUnpublished, Exclusive;
    StartValid(c, s);
    RunKeeps(c, s, steps);
    var r := After(c, s, steps);
    WorkerValid(c, r, w);
  }

  // ---------- settled rows stay settled ----------

  lemma {:induction false} StepIsFinal(c: Config, s: State, step: Step, id: nat)
    requires ValidConfig(c) && Inv(c, s) && Enabled(c, s, step)
    ensures var r := Apply(c, s, step);
            (IsMarked(s, id) ==> IsMarked(r, id)) && (id in s.dlq ==> id in r.dlq && id !in r.outbox)
  {
    hide TxValid, GivenUpRightly, Accounted, IsFetch, Exclusive;
    if step.Commit? {
      hide LocksUnpublished;
      CommitTables(c, s, step.w);
      if IsMarked(s, id) {
        MarkedNotDead(c, s, step.w, id);
      }
    }
  }

  lemma {:induction false} MarkedNotDead(c: Config, s: State, w: nat, id: nat)
    requires Inv(c, s) && BusyAt(s, w) && IsMarked(s, id)
    ensures id !in s.workers[w].tx.dead
  {
    hide TxValid, GivenUpRightly, Accounted, Exclusive;
    if id in s.workers[w].tx.dead {
      SettledRows(c, s, w, id);
    }
  }

  /** A row marked published or moved to the DLQ stays so for the rest of every run. */
  lemma {:induction false} SettledForGood(c: Config, s: State, steps: seq<Step>, id: nat)
    requires ValidConfig(c) && Inv(c, s) && Runs(c, s, steps)
    ensures var r := After(c, s, steps);
            (IsMarked(s, id) ==> IsMarked(r, id)) && (id in s.dlq ==> id in r.dlq && id !in r.outbox)
    decreases |steps|
  {
    hide Inv, Enabled, Apply, IsMarked;
    if steps == [] {
      OnlyOnePlace(c, s, id);
    } else {
      StepIsFinal(c, s, steps[0], id);
      StepKeeps(c, s, steps[0]);
      SettledForGood(c, Apply(c, s, steps[0]), steps[1..], id);
    }
  }

  lemma {:induction false} OnlyOnePlace(c: Config, s: State, id: nat)
    requires Inv(c, s)
    ensures id in s.dlq ==> id !in s.outbox
  {
    hide TxValid, Accounted, Exclusive, WorkersValid;
  }

  /** A committed transaction leaves none of its rows pending: each is marked published, if a publish
  call for it succeeded in this transaction, or in the DLQ; all other rows stay where they were. */
  lemma {:induction false} CommitSettles(c: Config, s: State, w: nat, id: nat)
    requires Inv(c, s) && Enabled(c, s, Commit(w))
    ensures var t, r := s.workers[w].tx, Apply(c, s, Commit(w));
            && (id in t.rows ==> (IsMarked(r, id) <==> id in t.published) && (id in r.dlq <==> id in t.dead)
                                 && (IsMarked(r, id) != (id in r.dlq)))
            && (id !in t.rows ==> (IsMarked(r, id) <==> IsMarked(s, id)) && (id in r.outbox <==> id in s.outbox)
                                  && (id in r.dlq <==> id in s.dlq))
  {
    hide GivenUpRightly, Accounted, Exclusive;
    var t := s.workers[w].tx;
    WorkerValid(c, s, w);
    if id in t.rows {
      var i :| 0 <= i < |t.rows| && t.rows[i] == id;
      assert LockedBy(s, w, id);
    } else {
      assert id !in (set x | x in t.rows);
    }
  }

  // ---------- fetching ----------

  /** What a fetch returns is determined: two answers of the database to the same query agree. */
  lemma {:induction false} FetchIsDetermined(s: State, batch: nat, a: seq<nat>, b: seq<nat>)
    requires IsFetch(s, batch, a) && IsFetch(s, batch, b)
    ensures a == b
  {
    if |a| <= |b| {
      SameFetch(s, batch, a, b, |a|);
    } else {
      SameFetch(s, batch, b, a, |b|);
    }
  }

  lemma {:induction false} SameFetch(s: State, batch: nat, a: seq<nat>, b: seq<nat>, n: nat)
    requires IsFetch(s, batch, a) && IsFetch(s, batch, b) && n <= |a| <= |b|
    ensures a[..n] == b[..n] && (n == |a| ==> |a| == |b|)
    decreases n
  {
    hide Free;
    if n > 0 {
      SameFetch(s, batch, a, b, n - 1);
      NoSmaller(s, batch, a, b, n - 1);
      NoSmaller(s, batch, b, a, n - 1);
      assert a[..n] == a[..n - 1] + [a[n - 1]] && b[..n] == b[..n - 1] + [b[n - 1]];
    }
    assert n == |a| ==> a == a[..n];
    if n < |b| {
      NotEarlier(b, n);
      assert Free(s, b[n]);
    }
  }

  lemma {:induction false} NotEarlier(b: seq<nat>, n: nat)
    requires Ascending(b) && n < |b|
    ensures b[n] !in b[..n]
  {}

  lemma {:induction false} AfterPrefix(a: seq<nat>, n: nat, x: nat) returns (i: nat)
    requires n <= |a| && x in a && x !in a[..n]
    ensures n <= i < |a| && a[i] == x
  {
    assert a == a[..n] + a[n..];
    var k :| 0 <= k < |a[n..]| && a[n..][k] == x;
    i := n + k;
  }

  /** The first row where two answers could differ is not smaller in the first. */
  lemma {:induction false} NoSmaller(s: State, batch: nat, a: seq<nat>, b: seq<nat>, n: nat)
    requires IsFetch(s, batch, a) && IsFetch(s, batch, b) && n < |a| && n < |b| && a[..n] == b[..n]
    ensures a[n] <= b[n]
  {
    hide Free;
    assert Free(s, b[n]);
    NotEarlier(b, n);
    if b[n] in a {
      var i := AfterPrefix(a, n, b[n]);
      assert a[n] <= a[i];
    }
  }

  ghost function FreeRows(s: State): set<nat> { set id | id in s.outbox && Free(s, id) }

  /** It has as many rows as there are free ones, up to the batch size, and no free row that it leaves is
  smaller than one it takes. */
  lemma {:induction false} FetchTakesTheSmallest(s: State, batch: nat, rows: seq<nat>)
    requires IsFetch(s, batch, rows)
    ensures |rows| == if |FreeRows(s)| < batch then |FreeRows(s)| else batch
    ensures forall i, id :: 0 <= i < |rows| && id in FreeRows(s) && id !in rows ==> rows[i] < id
    ensures forall i :: 0 <= i < |rows| ==> rows[i] in FreeRows(s)
  {
    hide Locked;
    var taken := RowSet(rows);
    AscendingSize(rows);
    assert taken <= FreeRows(s);
    SubsetSize(taken, FreeRows(s));
    if |rows| < batch {
      forall id | id in FreeRows(s) ensures id in taken {
        assert Free(s, id);
      }
      assert taken == FreeRows(s);
    }
  }

  ghost function RowSet(rows: seq<nat>): set<nat> { set id | id in rows }

  lemma {:induction false} AscendingSize(rows: seq<nat>)
    requires Ascending(rows)
    ensures |RowSet(rows)| == |rows|
  {
    if rows != [] {
      var n := |rows| - 1;
      var front, last := rows[..n], rows[n];
      AscendingSize(front);
      LastIsNew(rows);
      SetSnoc(front, last);
      assert rows == front + [last];
    }
  }

  lemma {:induction false} LastIsNew(rows: seq<nat>)
    requires Ascending(rows) && rows != []
    ensures rows[|rows| - 1] !in rows[..|rows| - 1]
  {}

  lemma {:induction false} SetSnoc(front: seq<nat>, last: nat)
    requires last !in front
    ensures |RowSet(front + [last])| == |RowSet(front)| + 1
  {
    assert forall id :: id in RowSet(front + [last]) <==> id in RowSet(front) || id == last;
    assert RowSet(front + [last]) == RowSet(front) + {last} && last !in RowSet(front);
  }

  lemma {:induction false} SubsetSize(a: set<nat>, b: set<nat>)
    requires a <= b
    ensures |a| <= |b|
  {
    if a != {} {
      var x :| x in a;
      SubsetSize(a - {x}, b - {x});
    }
  }

  lemma {:induction false} Smallest(f: set<nat>) returns (m: nat)
    requires f != {}
    ensures m in f && forall x :: x in f ==> m <= x
  {
    var x :| x in f;
    m := x;
    if f != {x} {
      var k := Smallest(f - {x});
      m := if k < x then k else x;
      assert forall y :: y in f ==> y == x || y in f - {x};
    } else {
      assert forall y :: y in f ==> y == x;
    }
  }

  /** The query always has an answer. */
  lemma {:induction false} FetchExists(s: State, batch: nat) returns (rows: seq<nat>)
    ensures IsFetch(s, batch, rows)
  {
    rows := SmallestOnes(FreeRows(s), batch);
    hide Locked;
    assert forall id :: Free(s, id) ==> id in FreeRows(s);
  }

  lemma {:induction false} SmallestOnes(f: set<nat>, n: nat) returns (rows: seq<nat>)
    ensures Ascending(rows) && |rows| <= n && forall i :: 0 <= i < |rows| ==> rows[i] in f
    ensures forall id :: id in f && id !in rows ==> |rows| == n && forall i :: 0 <= i < |rows| ==> rows[i] < id
    decreases n
  {
    if n == 0 || f == {} {
      rows := [];
    } else {
      var m := Smallest(f);
      var rest := SmallestOnes(f - {m}, n - 1);
      rows := [m] + rest;
      assert rows[0] == m && rows[1..] == rest;
    }
  }

  // ---------- from the steps alone ----------

  /** The successful publish calls for a row that the steps make. */
  ghost function PublishCalls(c: Config, s: State, steps: seq<Step>, id: nat): nat
    requires Runs(c, s, steps)
    decreases |steps|
  {
    if steps == [] then 0
    else
      One(steps[0].PublishOk? && var t := s.workers[steps[0].w].tx; t.rows[t.next] == id)
      + PublishCalls(c, Apply(c, s, steps[0]), steps[1..], id)
  }

  /** The publish calls for a row that reached the bus although they failed. */
  ghost function LostCalls(c: Config, s: State, steps: seq<Step>, id: nat): nat
    requires Runs(c, s, steps)
    decreases |steps|
  {
    if steps == [] then 0
    else
      One(steps[0].PublishFail? && steps[0].delivered && var t := s.workers[steps[0].w].tx; t.rows[t.next] == id)
      + LostCalls(c, Apply(c, s, steps[0]), steps[1..], id)
  }

  /** What a run counts: the rows are those inserted, the publishes those made. */
  lemma {:induction false} CountsAreSteps(c: Config, s: State, steps: seq<Step>, id: nat)
    requires Runs(c, s, steps)
    ensures var r := After(c, s, steps);
            && (id in r.inserted <==> id in s.inserted || Insert(id) in steps)
            && r.acks[id] == s.acks[id] + PublishCalls(c, s, steps, id)
            && r.lost[id] == s.lost[id] + LostCalls(c, s, steps, id)
            && (r.stopping <==> s.stopping || Stop in steps)
    decreases |steps|
  {
    if steps != [] {
      CountOne(c, s, steps[0], id);
      hide Enabled, Apply, One;
      CountsAreSteps(c, Apply(c, s, steps[0]), steps[1..], id);
      assert steps == [steps[0]] + steps[1..];
    }
  }

  lemma {:induction false} CountOne(c: Config, s: State, step: Step, id: nat)
    requires Enabled(c, s, step)
    ensures var r := Apply(c, s, step);
            && (id in r.inserted <==> id in s.inserted || step == Insert(id))
            && r.acks[id] == s.acks[id] + One(step.PublishOk? && var t := s.workers[step.w].tx; t.rows[t.next] == id)
            && r.lost[id] == s.lost[id] + One(step.PublishFail? && step.delivered && var t := s.workers[step.w].tx; t.rows[t.next] == id)
            && (r.stopping <==> s.stopping || step.Stop?)
  {}

  /** A new row waits in the outbox and is free; a rolled-back transaction leaves all rows where they were,
  and its own free. */
  lemma {:induction false} RowsComeAndReturn(c: Config, s: State, id: nat, w: nat)
    requires Inv(c, s)
    ensures Enabled(c, s, Insert(id)) <==> id !in s.inserted
    ensures Enabled(c, s, Stop) && (Enabled(c, s, Rollback(w)) <==> w < |s.workers| && s.workers[w].Busy?)
    ensures Enabled(c, s, Insert(id)) ==>
              var r := Apply(c, s, Insert(id));
              Free(r, id) && r.dlq == s.dlq && forall other :: other != id ==> (other in r.outbox <==> other in s.outbox) && (IsMarked(r, other) <==> IsMarked(s, other))
    ensures Enabled(c, s, Rollback(w)) ==>
              var r := Apply(c, s, Rollback(w));
              r.outbox == s.outbox && r.dlq == s.dlq && forall row :: row in s.workers[w].tx.rows ==> Free(r, row)
  {
    hide TxValid, GivenUpRightly, Accounted;
    if Enabled(c, s, Insert(id)) {
      var r := Apply(c, s, Insert(id));
      assert forall v, x :: LockedBy(r, v, x) <==> LockedBy(s, v, x);
      assert forall v :: LockedBy(s, v, id) ==> id in s.outbox;
    }
    if Enabled(c, s, Rollback(w)) {
      var r := Apply(c, s, Rollback(w));
      forall row | row in s.workers[w].tx.rows ensures Free(r, row) {
        assert LockedBy(s, w, row);
        assert forall v :: LockedBy(r, v, row) ==> v != w && LockedBy(s, v, row);
      }
    }
  }
}
