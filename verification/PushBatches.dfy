/** The batch loop of a manual push of attendance records (PostPersonRecordThreadPrivate::doManualPushRecords). */
module PushBatches {

  /** What a push says at its end, or a request at once. */
  datatype Reason =
    | InProgress | InvalidRange | StartAfterEnd | NoServer | NothingFound | Cancelled | Pushed(success: nat, total: nat)

  datatype Signal = Progress(processed: nat, total: nat, ok: bool) | Complete(ok: bool, reason: Reason)

  const BATCH_SIZE := 5

  /** A push so far: its three counters, the records posted, those flagged as uploaded, the number of pages fetched,
      and the signals emitted. */
  datatype Push = Push(
    processed: nat, success: nat, failed: nat, visited: seq<int>, flagged: seq<int>, pages: nat, signals: seq<Signal>)

  const NEW_PUSH := Push(0, 0, 0, [], [], 0, [])

  /** SELECT ... ORDER BY time DESC LIMIT 5 OFFSET (page - 1) * 5 */
  function Page(records: seq<int>, page: nat): (list: seq<int>)
    requires page >= 1
    ensures |list| <= BATCH_SIZE
  {
    var offset := (page - 1) * BATCH_SIZE;
    if offset >= |records| then []
    else records[offset..if offset + BATCH_SIZE <= |records| then offset + BATCH_SIZE else |records|]
  }

  function CurrentPage(processed: nat): nat {
    processed / BATCH_SIZE + 1
  }

  /** One record is posted; ok is the server's answer. */
  function PushRecord(p: Push, rid: int, ok: bool, total: nat): Push {
    p.(processed := p.processed + 1,
       success := if ok then p.success + 1 else p.success,
       failed := if ok then p.failed else p.failed + 1,
       visited := p.visited + [rid],
       flagged := if ok then p.flagged + [rid] else p.flagged,
       signals := p.signals + [Progress(p.processed + 1, total, ok)])
  }

  /** A batch; answers(i) is the server's answer to the i-th record of the push. */
  function PushBatch(p: Push, list: seq<int>, answers: nat -> bool, total: nat): (q: Push)
    ensures q.processed == p.processed + |list| && q.pages == p.pages && |q.signals| == |p.signals| + |list|
    decreases |list|
  {
    if list == [] then p
    else
      var q := PushBatch(p, list[..|list| - 1], answers, total);
      PushRecord(q, list[|list| - 1], answers(q.processed), total)
  }

  function FetchAndPush(p: Push, table: nat -> seq<int>, answers: nat -> bool, total: nat): Push {
    PushBatch(p, Page(table(p.pages), CurrentPage(p.processed)), answers, total).(pages := p.pages + 1)
  }

  /** The loop; table(i) holds the range's records when the i-th page is fetched. */
  function PushAll(p: Push, table: nat -> seq<int>, answers: nat -> bool, total: nat): Push
    decreases total - p.processed
  {
    if p.processed >= total then p
    else
      var q := FetchAndPush(p, table, answers, total);
      if q.processed == p.processed then q else PushAll(q, table, answers, total)
  }

  // ---------- What every push keeps ----------

  function Successes(answers: nat -> bool, n: nat): nat {
    if n == 0 then 0 else Successes(answers, n - 1) + if answers(n - 1) then 1 else 0
  }

  /** The records that the server accepted. */
  function Accepted(visited: seq<int>, answers: nat -> bool): seq<int> {
    if visited == [] then []
    else
      var n := |visited| - 1;
      Accepted(visited[..n], answers) + if answers(n) then [visited[n]] else []
  }

  ghost predicate Tallied(p: Push, answers: nat -> bool, total: nat) {
    && p.processed == |p.visited| == |p.signals| == p.success + p.failed
    && p.success == Successes(answers, p.processed)
    && p.flagged == Accepted(p.visited, answers)
    && (forall i | 0 <= i < |p.signals| :: p.signals[i] == Progress(i + 1, total, answers(i)))
  }

  lemma RecordKeepsTally(p: Push, rid: int, answers: nat -> bool, total: nat)
    requires Tallied(p, answers, total)
    ensures Tallied(PushRecord(p, rid, answers(p.processed), total), answers, total)
  {
    var q := PushRecord(p, rid, answers(p.processed), total);
    assert q.visited[..|p.visited|] == p.visited;
  }

  lemma {:induction false} BatchKeepsTally(p: Push, list: seq<int>, answers: nat -> bool, total: nat)
    requires Tallied(p, answers, total)
    ensures
      var q := PushBatch(p, list, answers, total);
      Tallied(q, answers, total) && q.visited == p.visited + list
    decreases |list|
  {
    if list != [] {
      var before := list[..|list| - 1];
      BatchKeepsTally(p, before, answers, total);
      RecordKeepsTally(PushBatch(p, before, answers, total), list[|list| - 1], answers, total);
      assert list == before + [list[|list| - 1]];
    }
  }

  lemma FetchKeepsTally(p: Push, table: nat -> seq<int>, answers: nat -> bool, total: nat)
    requires Tallied(p, answers, total)
    ensures Tallied(FetchAndPush(p, table, answers, total), answers, total)
    ensures var q := FetchAndPush(p, table, answers, total);
      && p.processed <= q.processed <= p.processed + BATCH_SIZE && q.pages == p.pages + 1
      && (q.processed == p.processed ==> Page(table(p.pages), CurrentPage(p.processed)) == [])
  {
    BatchKeepsTally(p, Page(table(p.pages), CurrentPage(p.processed)), answers, total);
  }

  /** Whatever the table and the server do, the loop ends, successes and failures add up to the records processed
      after every record, the accepted records are those flagged, progress is told once a record and counts up, and at
      most four records more than the initial count are processed. */
  lemma {:induction false} PushKeepsTally(p: Push, table: nat -> seq<int>, answers: nat -> bool, total: nat)
    requires Tallied(p, answers, total) && p.processed < total + BATCH_SIZE
    ensures
      var q := PushAll(p, table, answers, total);
      && Tallied(q, answers, total) && q.processed < total + BATCH_SIZE
      && (q.processed >= total || (q.pages > 0 && Page(table(q.pages - 1), CurrentPage(q.processed)) == []))
    decreases total - p.processed
  {
    if p.processed < total {
      FetchKeepsTally(p, table, answers, total);
      var q := FetchAndPush(p, table, answers, total);
      if q.processed > p.processed {
        PushKeepsTally(q, table, answers, total);
      }
    }
  }

  // ---------- Which records a push visits ----------

  /** Where a push of total records stops in a table of n: at the end of the batch that reaches the total. */
  function Stop(total: nat, n: nat): nat {
    var end := if Aligned(total) then total else total + BATCH_SIZE - total % BATCH_SIZE;
    if end <= n then end else n
  }

  predicate Aligned(processed: nat) {
    processed % BATCH_SIZE == 0
  }

  /** The end of the batch after an aligned position. */
  function BatchEnd(processed: nat, n: nat): nat {
    if processed + BATCH_SIZE <= n then processed + BATCH_SIZE else n
  }

  lemma BatchEnds(processed: nat, total: nat, n: nat)
    requires Aligned(processed) && processed < total <= n
    ensures
      var end := BatchEnd(processed, n);
      && processed < end <= Stop(total, n) && (Aligned(end) || end == n) && (end >= total ==> end == Stop(total, n))
  {
  }

  /** The records between two positions. */
  function Between(records: seq<int>, from: nat, to: nat): seq<int> {
    if from <= to <= |records| then records[from..to] else []
  }

  lemma PageIs(processed: nat, records: seq<int>)
    requires Aligned(processed) && processed < |records|
    ensures Page(records, CurrentPage(processed)) == Between(records, processed, BatchEnd(processed, |records|))
  {
    assert (CurrentPage(processed) - 1) * BATCH_SIZE == processed;
  }

  lemma {:induction false} BatchVisits(p: Push, list: seq<int>, answers: nat -> bool, total: nat)
    ensures PushBatch(p, list, answers, total).visited == p.visited + list
    decreases |list|
  {
    if list != [] {
      var before := list[..|list| - 1];
      BatchVisits(p, before, answers, total);
      assert p.visited + list == p.visited + before + [list[|list| - 1]];
    }
  }

  /** A batch tells its progress once a record, counting up, and flags and counts the records that the server accepted. */
  lemma {:induction false} BatchTells(p: Push, list: seq<int>, answers: nat -> bool, total: nat)
    ensures
      var q := PushBatch(p, list, answers, total);
      && q.signals[..|p.signals|] == p.signals
      && (forall j | |p.signals| <= j < |q.signals| ::
            var i := p.processed + (j - |p.signals|);
            q.signals[j] == Progress(i + 1, total, answers(i)))
      && q.success + q.failed == p.success + p.failed + |list|
      && q.success >= p.success && |q.flagged| - |p.flagged| == q.success - p.success
    decreases |list|
  {
    if list != [] {
      BatchTells(p, list[..|list| - 1], answers, total);
      var r := PushBatch(p, list[..|list| - 1], answers, total);
      assert PushBatch(p, list, answers, total).signals[..|p.signals|] == r.signals[..|p.signals|];
    }
  }

  /** One batch of a table. */
  lemma NextBatch(p: Push, table: nat -> seq<int>, answers: nat -> bool, total: nat)
    requires Aligned(p.processed) && p.processed < total <= |table(p.pages)|
    ensures
      var n := |table(p.pages)|;
      var q := FetchAndPush(p, table, answers, total);
      && q.processed == BatchEnd(p.processed, n) && q.pages == p.pages + 1
      && q.visited == p.visited + Between(table(p.pages), p.processed, q.processed)
  {
    PageIs(p.processed, table(p.pages));
    BatchVisits(p, Page(table(p.pages), CurrentPage(p.processed)), answers, total);
  }

  lemma Joined(records: seq<int>, a: nat, b: nat, c: nat)
    requires a <= b <= c <= |records|
    ensures Between(records, a, b) + Between(records, b, c) == Between(records, a, c)
  {
  }

  /** Once the table no longer changes, the push visits it from where it stands up to the stop. */
  lemma {:induction false} VisitsRest(p: Push, table: nat -> seq<int>, answers: nat -> bool, total: nat, records: seq<int>)
    requires forall i | i >= p.pages :: table(i) == records
    requires Aligned(p.processed) || p.processed == |records|
    requires p.processed < total || p.processed == Stop(total, |records|)
    requires total <= |records|
    ensures p.processed <= Stop(total, |records|) <= |records|
    ensures PushAll(p, table, answers, total).visited == p.visited + Between(records, p.processed, Stop(total, |records|))
    decreases total - p.processed
  {
    if p.processed < total {
      assert table(p.pages) == records;
      NextBatch(p, table, answers, total);
      BatchEnds(p.processed, total, |records|);
      var q := FetchAndPush(p, table, answers, total);
      VisitsRest(q, table, answers, total, records);
      Joined(records, p.processed, q.processed, Stop(total, |records|));
    }
  }

  lemma VisitsAll(table: nat -> seq<int>, answers: nat -> bool, records: seq<int>)
    requires forall i :: table(i) == records
    ensures PushAll(NEW_PUSH, table, answers, |records|).visited == records
  {
    WholeRange(records);
    StopsAtEnd(|records|);
    VisitsRest(NEW_PUSH, table, answers, |records|, records);
  }

  lemma WholeRange(records: seq<int>)
    ensures NEW_PUSH.visited + Between(records, 0, |records|) == records
  {
  }

  /** On a table that does not change the push visits every record exactly once, in order, and processes the total. */
  lemma PushVisitsEachOnce(table: nat -> seq<int>, answers: nat -> bool, records: seq<int>)
    requires forall i :: table(i) == records
    ensures
      var q := PushAll(NEW_PUSH, table, answers, |records|);
      q.visited == records && q.processed == |records| && Tallied(q, answers, |records|)
  {
    VisitsAll(table, answers, records);
    PushKeepsTally(NEW_PUSH, table, answers, |records|);
  }

  lemma StopsAtEnd(n: nat)
    ensures Stop(n, n) == n
  {
  }

  /** The first m records, and the shifted table from position m on up to the stop. */
  function ShiftedVisits(records: seq<int>, arrived: seq<int>, m: nat): seq<int>
    requires m <= |records|
  {
    records[..m] + Between(arrived + records, m, Stop(|records|, |records| + |arrived|))
  }

  lemma StopsLate(n: nat, k: nat)
    ensures n <= Stop(n, n + k) <= n + k
  {
  }

  /** New records come first in the table. Once a push has visited the first m records and then some arrive, it visits the
      shifted table from position m on. */
  lemma ArrivalsShift(
      p: Push, table: nat -> seq<int>, answers: nat -> bool, records: seq<int>, arrived: seq<int>)
    requires Aligned(p.processed) && p.processed < |records|
    requires p.visited == records[..p.processed]
    requires forall i | i >= p.pages :: table(i) == arrived + records
    ensures PushAll(p, table, answers, |records|).visited == ShiftedVisits(records, arrived, p.processed)
  {
    var all := arrived + records;
    StopsLate(|records|, |arrived|);
    StopsAfterBatch(p.processed, |records|, |all|);
    VisitsRest(p, table, answers, |records|, all);
  }

  lemma StopsAfterBatch(processed: nat, total: nat, n: nat)
    requires processed < total <= n
    ensures processed < Stop(total, n)
  {
  }

  ghost predicate Distinct(records: seq<int>) {
    forall i, j | 0 <= i < j < |records| :: records[i] != records[j]
  }

  /** How often a stretch of distinct records holds one of them. */
  lemma {:induction false} StretchCount(s: seq<int>, a: nat, b: nat, j: nat)
    requires Distinct(s) && a <= b <= |s| && j < |s|
    ensures multiset(s[a..b])[s[j]] == if a <= j < b then 1 else 0
    decreases b - a
  {
    if a < b {
      StretchCount(s, a, b - 1, j);
      assert s[a..b] == s[a..b - 1] + [s[b - 1]];
    }
  }

  lemma BetweenCount(s: seq<int>, a: nat, b: nat, j: nat)
    requires Distinct(s) && a <= b <= |s| && j < |s|
    ensures multiset(Between(s, a, b))[s[j]] == if a <= j < b then 1 else 0
  {
    StretchCount(s, a, b, j);
  }

  lemma RecordsAreDistinct(arrived: seq<int>, records: seq<int>)
    requires Distinct(arrived + records)
    ensures Distinct(records)
  {
    var all := arrived + records;
    assert forall i | 0 <= i < |records| :: records[i] == all[|arrived| + i];
  }

  lemma ShiftedRecordCount(records: seq<int>, arrived: seq<int>, m: nat, j: nat)
    requires Distinct(arrived + records) && m <= |records| && j < |records|
    ensures
      multiset(ShiftedVisits(records, arrived, m))[records[j]]
      == (if j < m then 1 else 0) + (if m <= j + |arrived| < Stop(|records|, |records| + |arrived|) then 1 else 0)
  {
    var all := arrived + records;
    StopsLate(|records|, |arrived|);
    RecordsAreDistinct(arrived, records);
    StretchCount(records, 0, m, j);
    assert records[0..m] == records[..m];
    BetweenCount(all, m, Stop(|records|, |records| + |arrived|), |arrived| + j);
    assert all[|arrived| + j] == records[j];
  }

  lemma ShiftedArrivalCount(records: seq<int>, arrived: seq<int>, m: nat, i: nat)
    requires Distinct(arrived + records) && m <= |records| && i < |arrived|
    ensures
      multiset(ShiftedVisits(records, arrived, m))[arrived[i]]
      == if m <= i < Stop(|records|, |records| + |arrived|) then 1 else 0
  {
    var all := arrived + records;
    StopsLate(|records|, |arrived|);
    BetweenCount(all, m, Stop(|records|, |records| + |arrived|), i);
    assert all[i] == arrived[i];
    assert forall j | 0 <= j < m :: records[..m][j] == all[|arrived| + j] && all[i] != all[|arrived| + j];
    assert arrived[i] !in records[..m];
  }

  /** When records arrive after a push has visited the first m, it visits the j-th record once if it was among these, and
      once more if its new place is between m and the stop; so exactly the others are missed. */
  lemma RecordVisits(
      p: Push, table: nat -> seq<int>, answers: nat -> bool, records: seq<int>, arrived: seq<int>, j: nat)
    requires Aligned(p.processed) && p.processed < |records|
    requires p.visited == records[..p.processed]
    requires forall i | i >= p.pages :: table(i) == arrived + records
    requires Distinct(arrived + records) && j < |records|
    ensures
      var m, stop := p.processed, Stop(|records|, |records| + |arrived|);
      multiset(PushAll(p, table, answers, |records|).visited)[records[j]]
      == (if j < m then 1 else 0) + (if m <= j + |arrived| < stop then 1 else 0)
  {
    ArrivalsShift(p, table, answers, records, arrived);
    ShiftedRecordCount(records, arrived, p.processed, j);
  }

  /** And it visits a record that arrived once if its place is between m and the stop, else not at all. */
  lemma ArrivalVisits(
      p: Push, table: nat -> seq<int>, answers: nat -> bool, records: seq<int>, arrived: seq<int>, i: nat)
    requires Aligned(p.processed) && p.processed < |records|
    requires p.visited == records[..p.processed]
    requires forall n | n >= p.pages :: table(n) == arrived + records
    requires Distinct(arrived + records) && i < |arrived|
    ensures
      multiset(PushAll(p, table, answers, |records|).visited)[arrived[i]]
      == if p.processed <= i < Stop(|records|, |records| + |arrived|) then 1 else 0
  {
    ArrivalsShift(p, table, answers, records, arrived);
    ShiftedArrivalCount(records, arrived, p.processed, i);
  }

  lemma StopAfterOne(n: nat)
    ensures Stop(n, n + 1) == if Aligned(n) then n else n + 1
  {
  }

  lemma OneShifted(records: seq<int>, arrived: seq<int>, m: nat)
    requires |arrived| == 1 && Distinct(arrived + records) && 0 < m < |records|
    ensures
      var visits, n := multiset(ShiftedVisits(records, arrived, m)), |records|;
      visits[records[m - 1]] == 2 && visits[arrived[0]] == 0 && (visits[records[n - 1]] == 0 <==> n % 5 == 0)
  {
    StopAfterOne(|records|);
    ShiftedRecordCount(records, arrived, m, m - 1);
    ShiftedRecordCount(records, arrived, m, |records| - 1);
    ShiftedArrivalCount(records, arrived, m, 0);
  }

  /** So a single arrival makes the push visit the last record before it twice, and it misses the oldest record
      exactly when the number of records is a multiple of five; the new record is not visited. */
  lemma OneArrival(p: Push, table: nat -> seq<int>, answers: nat -> bool, records: seq<int>, arrived: seq<int>)
    requires Aligned(p.processed) && 0 < p.processed < |records|
    requires p.visited == records[..p.processed]
    requires forall i | i >= p.pages :: table(i) == arrived + records
    requires |arrived| == 1 && Distinct(arrived + records)
    ensures
      var visits, m, n := multiset(PushAll(p, table, answers, |records|).visited), p.processed, |records|;
      visits[records[m - 1]] == 2 && visits[arrived[0]] == 0 && (visits[records[n - 1]] == 0 <==> n % 5 == 0)
  {
    ArrivalsShift(p, table, answers, records, arrived);
    OneShifted(records, arrived, p.processed);
  }
}
