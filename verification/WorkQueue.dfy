/**
 The collection and refresh queues: rows ordered by their attempt clock, a limited batch per tick, and
 a stamp on every attempt.
 */
module WorkQueue {

  type Clocks = map<string, int>

  /** `toSafeBatchSize`. */
  function SafeBatchSize(limit: int): (size: nat)
    ensures size >= 1
  {
    if 0 < limit <= 9007199254740991 then limit else 500
  }

  predicate Due(clocks: Clocks, cutoff: int, p: string) {
    p in clocks && clocks[p] < cutoff
  }

  function DueRows(clocks: Clocks, cutoff: int): set<string> {
    set p | p in clocks && clocks[p] < cutoff
  }

  /** What `WHERE clock < cutoff ORDER BY clock ASC LIMIT size` may return; ties fall either way. */
  ghost predicate IsBatch(clocks: Clocks, cutoff: int, size: nat, batch: seq<string>) {
    && (forall i, j :: 0 <= i < j < |batch| ==> batch[i] != batch[j])
    && (forall i :: 0 <= i < |batch| ==> Due(clocks, cutoff, batch[i]))
    && (forall i, j :: 0 <= i < j < |batch| ==> clocks[batch[i]] <= clocks[batch[j]])
    && (forall i, q :: 0 <= i < |batch| && Due(clocks, cutoff, q) && q !in batch ==> clocks[batch[i]] <= clocks[q])
    && (|batch| < size ==> forall q :: Due(clocks, cutoff, q) ==> q in batch)
    && |batch| <= size
  }

  /** The due query. */
  method SelectDue(clocks: Clocks, cutoff: int, limit: int) returns (batch: seq<string>)
    ensures IsBatch(clocks, cutoff, SafeBatchSize(limit), batch)
    ensures forall p :: p in batch ==> p in clocks && clocks[p] < cutoff
    ensures forall q :: q in clocks && clocks[q] < cutoff && q !in batch ==>
              |batch| == (if 0 < limit <= 9007199254740991 then limit else 500)
              && forall p :: p in batch ==> clocks[p] <= clocks[q]
  {
    batch := [];
    var rest := DueRows(clocks, cutoff);
    while |batch| < SafeBatchSize(limit) && rest != {}
      invariant forall q :: Due(clocks, cutoff, q) <==> q in rest || q in batch
      invariant forall i :: 0 <= i < |batch| ==> batch[i] !in rest
      invariant forall i, j :: 0 <= i < j < |batch| ==> batch[i] != batch[j]
      invariant forall b :: b in batch ==> b in clocks
      invariant forall i, j :: 0 <= i < j < |batch| ==> clocks[batch[i]] <= clocks[batch[j]]
      invariant forall b, q :: b in batch && q in rest ==> q in clocks && clocks[b] <= clocks[q]
      invariant |batch| <= SafeBatchSize(limit)
      decreases rest
    {
      OldestExists(clocks, rest);
      var p :| p in rest && forall q :: q in rest ==> clocks[p] <= clocks[q];
      batch := batch + [p];
      rest := rest - {p};
    }
  }

  lemma {:induction false} OldestExists(clocks: Clocks, rows: set<string>)
    requires rows != {} && rows <= clocks.Keys
    ensures exists p :: p in rows && forall q :: q in rows ==> clocks[p] <= clocks[q]
    decreases |rows|
  {
    var p :| p in rows;
    if rows - {p} == {} {
      assert rows == {p};
    } else {
      OldestExists(clocks, rows - {p});
      var o :| o in rows - {p} && forall q :: q in rows - {p} ==> clocks[o] <= clocks[q];
      var oldest := if clocks[p] <= clocks[o] then p else o;
      assert oldest in rows && forall q :: q in rows ==> clocks[oldest] <= clocks[q];
    }
  }

  /** One tick: the batch it took and the times its stamps were written. */
  datatype Tick = Tick(cutoff: int, batch: seq<string>, stamps: Clocks)

  function Stamped(clocks: Clocks, t: Tick): Clocks {
    map p | p in clocks :: if p in t.batch && p in t.stamps then t.stamps[p] else clocks[p]
  }

  /** A tick whose stamps all succeed. The cutoff lies at or before the tick, and so before its stamps. */
  ghost predicate ValidTick(clocks: Clocks, size: nat, t: Tick) {
    && IsBatch(clocks, t.cutoff, size, t.batch)
    && forall p :: p in t.batch ==> p in t.stamps && t.stamps[p] >= t.cutoff
  }

  /** A run of ticks over a fixed set of rows, with a clock that never runs backwards. */
  ghost predicate ValidRun(clocks: Clocks, size: nat, ticks: seq<Tick>)
    decreases |ticks|
  {
    |ticks| == 0 ||
    (&& ValidTick(clocks, size, ticks[0])
     && (|ticks| > 1 ==> ticks[0].cutoff <= ticks[1].cutoff)
     && ValidRun(Stamped(clocks, ticks[0]), size, ticks[1..]))
  }

  /** The other rows attempted no later than `p`. */
  function Ahead(clocks: Clocks, p: string): set<string>
    requires p in clocks
  {
    set q | q in clocks && q != p && clocks[q] <= clocks[p]
  }

  function Elements(batch: seq<string>): set<string> {
    set p | p in batch
  }

  lemma {:induction false} DistinctCount(batch: seq<string>)
    requires forall i, j :: 0 <= i < j < |batch| ==> batch[i] != batch[j]
    ensures |Elements(batch)| == |batch|
  {
    if |batch| > 0 {
      var n := |batch| - 1;
      DistinctCount(batch[..n]);
      assert Elements(batch) == Elements(batch[..n]) + {batch[n]};
    }
  }

  /** A due row passed over sees a whole batch move from ahead of it to behind it. */
  lemma PassedOverMovesUp(clocks: Clocks, size: nat, t: Tick, p: string)
    requires ValidTick(clocks, size, t) && Due(clocks, t.cutoff, p) && p !in t.batch
    ensures var after := Stamped(clocks, t);
            && p in after && after[p] == clocks[p]
            && |Ahead(after, p)| == |Ahead(clocks, p)| - size
  {
    var after := Stamped(clocks, t);
    DistinctCount(t.batch);
    assert |t.batch| == size;
    assert Elements(t.batch) <= Ahead(clocks, p);
    assert Ahead(after, p) == Ahead(clocks, p) - Elements(t.batch);
  }

  lemma {:induction false} AttemptedSoon(clocks: Clocks, size: nat, ticks: seq<Tick>, p: string) returns (n: nat)
    requires ValidRun(clocks, size, ticks) && |ticks| > 0
    requires Due(clocks, ticks[0].cutoff, p)
    requires |ticks| * size > |Ahead(clocks, p)|
    ensures n < |ticks| && n * size <= |Ahead(clocks, p)| && p in ticks[n].batch
    decreases |ticks|
  {
    if p in ticks[0].batch {
      n := 0;
    } else {
      var after := Stamped(clocks, ticks[0]);
      PassedOverMovesUp(clocks, size, ticks[0], p);
      OneMore(|ticks|, size);
      if |ticks| == 1 { assert false; }
      var rest := AttemptedSoon(after, size, ticks[1..], p);
      n := rest + 1;
      OneMore(n, size);
    }
  }

  lemma OneMore(n: nat, size: nat)
    requires n >= 1
    ensures n * size == (n - 1) * size + size
  {}

  lemma BelowQuotient(n: nat, size: nat, k: nat)
    requires size >= 1
    ensures n * size <= k <==> n <= k / size
  {
    assert k == (k / size) * size + k % size;
    if n <= k / size {
      assert (k / size - n) * size >= 0;
      assert n * size == (k / size) * size - (k / size - n) * size;
    } else {
      assert (n - k / size - 1) * size >= 0;
      assert n * size == (k / size) * size + size + (n - k / size - 1) * size;
    }
  }

  /** Bounded waiting: a due row with `k` other rows attempted no later than it is attempted within
      `k / size` further ticks, whatever the attempts return and however ties are broken. */
  lemma AttemptedWithinBound(clocks: Clocks, size: nat, ticks: seq<Tick>, p: string) returns (n: nat)
    requires size >= 1 && ValidRun(clocks, size, ticks) && |ticks| > 0
    requires Due(clocks, ticks[0].cutoff, p)
    requires |ticks| > |Ahead(clocks, p)| / size
    ensures n <= |Ahead(clocks, p)| / size && n < |ticks| && p in ticks[n].batch
  {
    BelowQuotient(|ticks|, size, |Ahead(clocks, p)|);
    n := AttemptedSoon(clocks, size, ticks, p);
    BelowQuotient(n, size, |Ahead(clocks, p)|);
  }

  /* ----- the collection batch ----- */

  datatype ConfigRow = ConfigRow(lastCollectedAt: int, lastAttemptAt: int)

  datatype Collection = Returned(items: nat) | Threw | HitDailyLimit

  /** What happens to one principal: its collection, whether the attempt stamp could be written, how the
      success stamp went, and the time of its writes. */
  datatype Outcome = Outcome(collection: Collection, stampWritten: bool, success: SuccessStamp, at: int)

  datatype SuccessStamp = Written | WriteThrew | WriteHitDailyLimit

  datatype Sweep = Sweep(rows: map<string, ConfigRow>, items: nat, failed: nat, paused: bool)

  function WithAttempt(rows: map<string, ConfigRow>, p: string, at: int): map<string, ConfigRow> {
    if p in rows then rows[p := rows[p].(lastAttemptAt := at)] else rows
  }

  function WithCollected(rows: map<string, ConfigRow>, p: string, at: int): map<string, ConfigRow> {
    if p in rows then rows[p := rows[p].(lastCollectedAt := at)] else rows
  }

  class DataCollectionConfigDAO {
    var rows: map<string, ConfigRow>

    constructor (rows: map<string, ConfigRow>)
      ensures this.rows == rows
    {
      this.rows := rows;
    }

    method UpdateLastAttemptTime(p: string, at: int)
      modifies this
      ensures rows == WithAttempt(old(rows), p, at)
    {
      if p in rows { rows := rows[p := rows[p].(lastAttemptAt := at)]; }
    }

    method UpdateLastCollectedTime(p: string, at: int)
      modifies this
      ensures rows == WithCollected(old(rows), p, at)
    {
      if p in rows { rows := rows[p := rows[p].(lastCollectedAt := at)]; }
    }
  }

  /** The collection returned something, and its success stamp was written. */
  predicate DataArrived(o: Outcome) {
    o.collection.Returned? && o.collection.items > 0 && o.success.Written?
  }

  /** The rows after one principal was dealt with, and whether the run stops there. */
  function AfterOne(rows: map<string, ConfigRow>, p: string, o: Outcome): map<string, ConfigRow> {
    if o.collection.HitDailyLimit? || !o.stampWritten then rows
    else if DataArrived(o)
    then WithCollected(WithAttempt(rows, p, o.at), p, o.at)
    else WithAttempt(rows, p, o.at)
  }

  predicate Pauses(o: Outcome) {
    || o.collection.HitDailyLimit?
    || (o.collection.Returned? && o.collection.items > 0 && o.stampWritten && o.success.WriteHitDailyLimit?)
  }

  predicate Fails(o: Outcome) {
    && !Pauses(o)
    && (|| o.collection.Threw? || !o.stampWritten
        || (o.collection.Returned? && o.collection.items > 0 && o.success.WriteThrew?))
  }

  function SweepFrom(rows: map<string, ConfigRow>, batch: seq<string>, outcomes: seq<Outcome>): Sweep
    requires |batch| == |outcomes|
    decreases |batch|
  {
    if |batch| == 0 then Sweep(rows, 0, 0, false)
    else
      var o := outcomes[0];
      var items := if o.collection.Returned? then o.collection.items else 0;
      var next := AfterOne(rows, batch[0], o);
      if Pauses(o) then Sweep(next, items, 0, true)
      else
        var rest := SweepFrom(next, batch[1..], outcomes[1..]);
        Sweep(rest.rows, items + rest.items, (if Fails(o) then 1 else 0) + rest.failed, rest.paused)
  }

  lemma {:induction false} SweepSnoc(rows: map<string, ConfigRow>, batch: seq<string>, outcomes: seq<Outcome>, n: nat)
    requires |batch| == |outcomes| && n < |batch| && !SweepFrom(rows, batch[..n], outcomes[..n]).paused
    ensures var before := SweepFrom(rows, batch[..n], outcomes[..n]);
            var o := outcomes[n];
            SweepFrom(rows, batch[..n + 1], outcomes[..n + 1]) ==
            Sweep(AfterOne(before.rows, batch[n], o),
                  before.items + (if o.collection.Returned? then o.collection.items else 0),
                  before.failed + (if Fails(o) then 1 else 0),
                  Pauses(o))
    decreases n
  {
    if n == 0 {
      assert batch[..1][1..] == [] && outcomes[..1][1..] == [];
    } else {
      assert batch[..n][1..] == batch[1..][..n - 1] && outcomes[..n][1..] == outcomes[1..][..n - 1];
      assert batch[..n + 1][1..] == batch[1..][..n] && outcomes[..n + 1][1..] == outcomes[1..][..n];
      SweepSnoc(AfterOne(rows, batch[0], outcomes[0]), batch[1..], outcomes[1..], n - 1);
    }
  }

  lemma {:induction false} PausedStays(rows: map<string, ConfigRow>, batch: seq<string>, outcomes: seq<Outcome>, n: nat)
    requires |batch| == |outcomes| && n <= |batch| && SweepFrom(rows, batch[..n], outcomes[..n]).paused
    ensures SweepFrom(rows, batch, outcomes) == SweepFrom(rows, batch[..n], outcomes[..n])
    decreases n
  {
    if n > 0 && !Pauses(outcomes[0]) {
      assert batch[..n][1..] == batch[1..][..n - 1] && outcomes[..n][1..] == outcomes[1..][..n - 1];
      PausedStays(AfterOne(rows, batch[0], outcomes[0]), batch[1..], outcomes[1..], n - 1);
    }
  }

  /** The batch loop of `AbstractCollectionTask`. */
  method HandleBatch(config: DataCollectionConfigDAO, batch: seq<string>, outcomes: seq<Outcome>)
    returns (items: nat, failed: nat, paused: bool)
    requires |batch| == |outcomes|
    modifies config
    ensures Sweep(config.rows, items, failed, paused) == SweepFrom(old(config.rows), batch, outcomes)
  {
    items, failed, paused := 0, 0, false;
    ghost var before := config.rows;
    var i := 0;
    while i < |batch|
      invariant 0 <= i <= |batch|
      invariant SweepFrom(before, batch[..i], outcomes[..i]) == Sweep(config.rows, items, failed, false)
    {
      var p, o := batch[i], outcomes[i];
      SweepSnoc(before, batch, outcomes, i);
      i := i + 1;
      match o.collection
      case Returned(collected) =>
        items := items + collected;
        if !o.stampWritten {
          failed := failed + 1;
          continue;
        }
        config.UpdateLastAttemptTime(p, o.at);
        if collected > 0 {
          match o.success
          case Written => config.UpdateLastCollectedTime(p, o.at);
          case WriteThrew =>
            failed := failed + 1;
            config.UpdateLastAttemptTime(p, o.at);
          case WriteHitDailyLimit =>
            PausedStays(before, batch, outcomes, i);
            return items, failed, true;
        }
      case Threw =>
        failed := failed + 1;
        if o.stampWritten { config.UpdateLastAttemptTime(p, o.at); }
      case HitDailyLimit =>
        PausedStays(before, batch, outcomes, i);
        return items, failed, true;
    }
    assert batch[..|batch|] == batch && outcomes[..|outcomes|] == outcomes;
  }

  function Attempts(rows: map<string, ConfigRow>): Clocks {
    map p | p in rows :: rows[p].lastAttemptAt
  }

  function StampTimes(batch: seq<string>, outcomes: seq<Outcome>): Clocks
    requires |batch| == |outcomes|
  {
    map i | 0 <= i < |batch| && (forall j :: 0 <= j < i ==> batch[j] != batch[i]) :: batch[i] := outcomes[i].at
  }

  /** Success, empty result or failure: every principal of the batch gets its attempt stamp, so one batch
      is one tick of the queue. The success clock moves exactly where data arrived. */
  lemma {:induction false} BatchIsOneTick(rows: map<string, ConfigRow>, batch: seq<string>, outcomes: seq<Outcome>,
                                          q: string)
    requires |batch| == |outcomes| && q in rows
    requires forall i, j :: 0 <= i < j < |batch| ==> batch[i] != batch[j]
    requires forall i :: 0 <= i < |batch| ==> outcomes[i].stampWritten && !Pauses(outcomes[i])
    ensures var after := SweepFrom(rows, batch, outcomes).rows;
            && after.Keys == rows.Keys
            && (q !in batch ==> after[q] == rows[q])
            && (forall i :: 0 <= i < |batch| && batch[i] == q ==>
                  && after[q].lastAttemptAt == outcomes[i].at
                  && after[q].lastCollectedAt ==
                     (match outcomes[i].collection
                      case Returned(items) =>
                        if items > 0 && outcomes[i].success == Written then outcomes[i].at else rows[q].lastCollectedAt
                      case _ => rows[q].lastCollectedAt))
    decreases |batch|
  {
    if |batch| > 0 {
      var next := AfterOne(rows, batch[0], outcomes[0]);
      BatchIsOneTick(next, batch[1..], outcomes[1..], q);
      forall i | 0 < i < |batch| && batch[i] == q
        ensures batch[1..][i - 1] == q && outcomes[1..][i - 1] == outcomes[i]
      {}
      if q in batch && q != batch[0] { assert q in batch[1..]; }
      if q !in batch { assert q !in batch[1..]; }
    }
  }

  /* ----- any batch, paused or not ----- */

  /** The daily allowance is used up at this principal: by its collection, or by its success stamp. */
  predicate RunsOut(o: Outcome) {
    match o.collection
    case HitDailyLimit => true
    case Returned(items) => items > 0 && o.stampWritten && o.success == WriteHitDailyLimit
    case Threw => false
  }

  /** The batch is gone through up to `stop`, where the allowance runs out, or to its end. */
  ghost predicate EndsAt(outcomes: seq<Outcome>, stop: nat) {
    && stop <= |outcomes|
    && (forall i :: 0 <= i < stop ==> !RunsOut(outcomes[i]))
    && (stop < |outcomes| ==> RunsOut(outcomes[stop]))
  }

  /** What one principal's turn does to its row: the attempt stamp, unless the allowance ran out before it or it
      could not be written; and on top of it the success stamp, if there was data and it was written. */
  function Turned(row: ConfigRow, o: Outcome): ConfigRow {
    match o.collection
    case HitDailyLimit => row
    case Threw => if o.stampWritten then row.(lastAttemptAt := o.at) else row
    case Returned(items) =>
      if !o.stampWritten then row
      else if items > 0 && o.success == Written then ConfigRow(o.at, o.at)
      else row.(lastAttemptAt := o.at)
  }

  /** A batch touches the rows of the principals it gets to, each once, and no other. */
  lemma {:induction false} BatchTurnsRows(rows: map<string, ConfigRow>, batch: seq<string>, outcomes: seq<Outcome>,
                                          stop: nat, q: string)
    requires |batch| == |outcomes| && EndsAt(outcomes, stop) && q in rows
    requires forall i, j :: 0 <= i < j < |batch| ==> batch[i] != batch[j]
    ensures var after := SweepFrom(rows, batch, outcomes);
            && after.rows.Keys == rows.Keys
            && (after.paused <==> stop < |batch|)
            && (forall i :: 0 <= i < |batch| && batch[i] == q ==>
                  after.rows[q] == if i <= stop then Turned(rows[q], outcomes[i]) else rows[q])
            && (q !in batch ==> after.rows[q] == rows[q])
    decreases |batch|
  {
    if |batch| > 0 && !Pauses(outcomes[0]) {
      assert !RunsOut(outcomes[0]);
      var next := AfterOne(rows, batch[0], outcomes[0]);
      var rest := outcomes[1..];
      assert forall i :: 0 <= i < stop - 1 ==> rest[i] == outcomes[i + 1];
      assert stop < |outcomes| ==> rest[stop - 1] == outcomes[stop];
      BatchTurnsRows(next, batch[1..], rest, stop - 1, q);
      forall i | 0 < i < |batch| && batch[i] == q ensures batch[1..][i - 1] == q && rest[i - 1] == outcomes[i] {}
      if q in batch && q != batch[0] { assert q in batch[1..]; }
    } else if |batch| > 0 {
      assert RunsOut(outcomes[0]);
    }
  }

  /** A principal counts as failed when its collection threw, its attempt could not be stamped, or its success
      stamp threw. */
  predicate CountsAsFailed(o: Outcome) {
    o.collection.Threw? || !o.stampWritten
    || (o.collection.Returned? && o.collection.items > 0 && o.success == WriteThrew)
  }

  function ItemsIn(outcomes: seq<Outcome>): nat {
    if |outcomes| == 0 then 0
    else (match outcomes[0].collection case Returned(items) => items case _ => 0) + ItemsIn(outcomes[1..])
  }

  ghost function FailedBefore(outcomes: seq<Outcome>, n: nat): set<int>
    requires n <= |outcomes|
  {
    set i | 0 <= i < n && CountsAsFailed(outcomes[i])
  }

  /** The counters: every item that was returned, the one at which the allowance ran out included, and every
      principal before that which failed. */
  lemma {:induction false} BatchCounts(rows: map<string, ConfigRow>, batch: seq<string>, outcomes: seq<Outcome>,
                                       stop: nat)
    requires |batch| == |outcomes| && EndsAt(outcomes, stop)
    ensures var after := SweepFrom(rows, batch, outcomes);
            && after.items == ItemsIn(if stop < |outcomes| then outcomes[..stop + 1] else outcomes)
            && after.failed == |FailedBefore(outcomes, stop)|
    decreases |batch|
  {
    if |batch| > 0 {
      if stop == 0 {
        assert outcomes[..1][1..] == [];
      } else {
        assert !RunsOut(outcomes[0]);
        var rest := outcomes[1..];
        assert forall i :: 0 <= i < stop - 1 ==> rest[i] == outcomes[i + 1];
        assert stop < |outcomes| ==> rest[stop - 1] == outcomes[stop] && outcomes[..stop + 1][1..] == rest[..stop];
        BatchCounts(AfterOne(rows, batch[0], outcomes[0]), batch[1..], rest, stop - 1);
        ShiftedCount(outcomes, stop);
      }
    }
  }

  lemma FailedSnoc(outcomes: seq<Outcome>, n: nat)
    requires n < |outcomes|
    ensures |FailedBefore(outcomes, n + 1)|
         == |FailedBefore(outcomes, n)| + (if CountsAsFailed(outcomes[n]) then 1 else 0)
  {
    assert FailedBefore(outcomes, n + 1)
        == FailedBefore(outcomes, n) + (if CountsAsFailed(outcomes[n]) then {n} else {});
  }

  lemma {:induction false} ShiftedCount(outcomes: seq<Outcome>, stop: nat)
    requires 1 <= stop <= |outcomes|
    ensures |FailedBefore(outcomes, stop)|
         == (if CountsAsFailed(outcomes[0]) then 1 else 0) + |FailedBefore(outcomes[1..], stop - 1)|
  {
    FailedSnoc(outcomes, stop - 1);
    if stop == 1 {
      assert FailedBefore(outcomes, 0) == {} && FailedBefore(outcomes[1..], 0) == {};
    } else {
      ShiftedCount(outcomes, stop - 1);
      FailedSnoc(outcomes[1..], stop - 2);
    }
  }

  lemma BatchStampsTheQueue(rows: map<string, ConfigRow>, cutoff: int, batch: seq<string>, outcomes: seq<Outcome>)
    requires |batch| == |outcomes|
    requires forall i, j :: 0 <= i < j < |batch| ==> batch[i] != batch[j]
    requires forall i :: 0 <= i < |batch| ==> outcomes[i].stampWritten && !Pauses(outcomes[i])
    ensures Attempts(SweepFrom(rows, batch, outcomes).rows)
         == Stamped(Attempts(rows), Tick(cutoff, batch, StampTimes(batch, outcomes)))
  {
    var stamps := StampTimes(batch, outcomes);
    if rows == map[] {
      SweepOfNothing(batch, outcomes);
    }
    forall q | q in rows
      ensures q in SweepFrom(rows, batch, outcomes).rows && SweepFrom(rows, batch, outcomes).rows.Keys == rows.Keys
      ensures SweepFrom(rows, batch, outcomes).rows[q].lastAttemptAt
              == if q in batch then stamps[q] else rows[q].lastAttemptAt
    {
      BatchIsOneTick(rows, batch, outcomes, q);
      if q in batch {
        var i :| 0 <= i < |batch| && batch[i] == q;
        assert q in stamps && stamps[q] == outcomes[i].at;
      }
    }
  }

  function OutcomesOf(batch: seq<string>, outcomeOf: string -> Outcome): (outcomes: seq<Outcome>)
    ensures |outcomes| == |batch|
  {
    seq(|batch|, i requires 0 <= i < |batch| => outcomeOf(batch[i]))
  }

  /** Every stamp is written, no earlier than the run began, and the daily allowance lasts. */
  ghost predicate Smooth(now: int, outcomeOf: string -> Outcome) {
    forall p :: outcomeOf(p).stampWritten && !Pauses(outcomeOf(p)) && outcomeOf(p).at >= now
  }

  lemma SmoothBatchIsATick(rows: map<string, ConfigRow>, now: int, cutoff: int, size: nat, batch: seq<string>,
                           outcomeOf: string -> Outcome)
    requires Smooth(now, outcomeOf) && cutoff <= now && IsBatch(Attempts(rows), cutoff, size, batch)
    ensures var outcomes := OutcomesOf(batch, outcomeOf);
            var t := Tick(cutoff, batch, StampTimes(batch, outcomes));
            && ValidTick(Attempts(rows), size, t)
            && Attempts(SweepFrom(rows, batch, outcomes).rows) == Stamped(Attempts(rows), t)
  {
    var outcomes := OutcomesOf(batch, outcomeOf);
    BatchStampsTheQueue(rows, cutoff, batch, outcomes);
    forall p | p in batch ensures p in StampTimes(batch, outcomes) && StampTimes(batch, outcomes)[p] >= cutoff {
      var i :| 0 <= i < |batch| && batch[i] == p;
      assert outcomes[i] == outcomeOf(p);
    }
  }

  const STATEMENTS_PER_ACCOUNT := 12

  /** `handleScheduledTask` of a collection: the due batch by attempt clock, refused as a whole when the
      invocation cannot afford it, then the loop over it. When every stamp is written and the daily
      allowance lasts, the run is one tick of the queue. */
  method HandleScheduledTask(config: DataCollectionConfigDAO, now: int, intervalHours: nat, limit: int, remaining: nat,
                             outcomeOf: string -> Outcome)
    returns (refused: bool, items: nat, failed: nat, paused: bool, ghost t: Tick)
    modifies config
    ensures t.cutoff == now - 3600 * intervalHours
    ensures IsBatch(Attempts(old(config.rows)), t.cutoff, SafeBatchSize(limit), t.batch)
    ensures refused <==> 12 * |t.batch| > remaining
    ensures refused ==> config.rows == old(config.rows)
    ensures !refused ==>
              Sweep(config.rows, items, failed, paused)
                  == SweepFrom(old(config.rows), t.batch, OutcomesOf(t.batch, outcomeOf))
    ensures !refused && Smooth(now, outcomeOf) ==>
              && ValidTick(Attempts(old(config.rows)), SafeBatchSize(limit), t)
              && Attempts(config.rows) == Stamped(Attempts(old(config.rows)), t)
  {
    var cutoff := now - 3600 * intervalHours;
    var batch := SelectDue(Attempts(config.rows), cutoff, limit);
    var outcomes := OutcomesOf(batch, outcomeOf);
    t := Tick(cutoff, batch, StampTimes(batch, outcomes));
    if STATEMENTS_PER_ACCOUNT * |batch| > remaining { return true, 0, 0, false, t; }
    ghost var smooth := Smooth(now, outcomeOf);
    if smooth { SmoothBatchIsATick(config.rows, now, cutoff, SafeBatchSize(limit), batch, outcomeOf); }
    refused := false;
    items, failed, paused := HandleBatch(config, batch, outcomes);
  }

  lemma {:induction false} SweepOfNothing(batch: seq<string>, outcomes: seq<Outcome>)
    requires |batch| == |outcomes|
    ensures SweepFrom(map[], batch, outcomes).rows == map[]
    decreases |batch|
  {
    if |batch| > 0 { SweepOfNothing(batch[1..], outcomes[1..]); }
  }
}
