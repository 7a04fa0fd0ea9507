/** Requests for a manual push and the thread that serves them (PostPersonRecordThread): the two run in any
    interleaving, and each step below is what one of them does between two points where the other may come in. */
module PushRequests {
  import opened Wrappers
  import opened PushBatches

  /** A date and time; an invalid one is None. */
  type Moment = Option<int>

  datatype Range = Range(start: int, end: int)

  /** Where the thread stands: waiting; with a range taken; in the loop of a push of total records; or with the push
      over but the request not yet reset. */
  datatype Worker = Idle | Taken(range: Range) | Pushing(range: Range, total: nat, push: Push) | Over

  /** What became of an accepted request; readable when none of its SELECTs failed. */
  datatype Service = Service(range: Range, push: Push, reason: Reason, readable: bool)

  /** The shared fields, the thread, and the history: the calls made, those accepted, those served, and the signals. */
  datatype State = State(
    inProgress: bool, range: Range, worker: Worker, calls: nat, accepted: seq<Range>, served: seq<Service>,
    signals: seq<Signal>)

  /** The rows of one page. */
  type PageList = l: seq<int> | |l| <= BATCH_SIZE

  /** What the two threads do. Begin brings what the SELECT of the number of records gives, and Batch what the SELECT of a
      page gives; None is a failed SELECT. */
  datatype Action =
    | Request(start: Moment, end: Moment)
    | Take
    | Begin(hasServer: bool, count: Option<nat>)
    | Batch(page: Option<PageList>, answers: nat -> bool)
    | Reset

  function Idling(): State {
    State(false, Range(0, 0), Idle, 0, [], [], [])
  }

  // ---------- The steps ----------

  /** A request is turned down. */
  function Refuse(s: State, reason: Reason): State {
    s.(calls := s.calls + 1, signals := s.signals + [Complete(false, reason)])
  }

  function Accept(s: State, range: Range): State {
    s.(calls := s.calls + 1, inProgress := true, range := range, accepted := s.accepted + [range])
  }

  /** slotManualPushRecords, under the mutex. */
  function RequestStep(s: State, start: Moment, end: Moment): State {
    if s.inProgress then Refuse(s, InProgress)
    else if start.None? || end.None? then Refuse(s, InvalidRange)
    else if start.value > end.value then Refuse(s, StartAfterEnd)
    else Accept(s, Range(start.value, end.value))
  }

  /** The thread looks for a request, under the mutex. */
  function TakeStep(s: State): State {
    if s.worker.Idle? && s.inProgress then s.(worker := Taken(s.range)) else s
  }

  /** The push that the thread is at ends with this signal. */
  function Finish(s: State, push: Push, ok: bool, reason: Reason, readable: bool): State
    requires s.worker.Taken? || s.worker.Pushing?
  {
    s.(worker := Over, served := s.served + [Service(s.worker.range, push, reason, readable)],
       signals := s.signals + [Complete(ok, reason)])
  }

  /** doManualPushRecords up to its loop; a failed count reads as 0. */
  function BeginStep(s: State, hasServer: bool, count: Option<nat>): State {
    if !s.worker.Taken? then s
    else if !hasServer then Finish(s, NEW_PUSH, false, NoServer, true)
    else
      var total := if count.Some? then count.value else 0;
      if total == 0 then Finish(s, NEW_PUSH, true, NothingFound, count.Some?)
      else s.(worker := Pushing(s.worker.range, total, NEW_PUSH))
  }

  /** A page that was fetched is pushed. */
  function Advance(s: State, list: PageList, answers: nat -> bool): State
    requires s.worker.Pushing?
  {
    var p := s.worker.push;
    var q := PushBatch(p, list, answers, s.worker.total).(pages := p.pages + 1);
    s.(worker := Pushing(s.worker.range, s.worker.total, q), signals := s.signals + q.signals[|p.signals|..])
  }

  /** One turn of the loop: its condition, the look at the flag under the mutex, and a page; a failed page reads as
      empty. */
  function BatchStep(s: State, page: Option<PageList>, answers: nat -> bool): State {
    if !s.worker.Pushing? then s
    else
      var p, total := s.worker.push, s.worker.total;
      if p.processed >= total then Finish(s, p, true, Pushed(p.success, total), true)
      else if !s.inProgress then Finish(s, p, false, Cancelled, true)
      else if page.None? || page.value == [] then Finish(s, p, true, Pushed(p.success, total), page.Some?)
      else Advance(s, page.value, answers)
  }

  /** The thread resets the request, under the mutex. */
  function ResetStep(s: State): State {
    if s.worker.Over? then s.(worker := Idle, inProgress := false) else s
  }

  function Step(s: State, a: Action): State {
    match a
    case Request(start, end) => RequestStep(s, start, end)
    case Take => TakeStep(s)
    case Begin(hasServer, count) => BeginStep(s, hasServer, count)
    case Batch(page, answers) => BatchStep(s, page, answers)
    case Reset => ResetStep(s)
  }

  function Run(s: State, actions: seq<Action>): State
    decreases |actions|
  {
    if actions == [] then s else Step(Run(s, actions[..|actions| - 1]), actions[|actions| - 1])
  }

  // ---------- What every run keeps ----------

  function Completes(signals: seq<Signal>): nat {
    if signals == [] then 0
    else Completes(signals[..|signals| - 1]) + if signals[|signals| - 1].Complete? then 1 else 0
  }

  /** A request that was accepted and whose end was not yet told. */
  predicate Outstanding(s: State) {
    s.inProgress && !s.worker.Over?
  }

  function Ranges(served: seq<Service>): (r: seq<Range>)
    ensures |r| == |served|
    ensures forall i | 0 <= i < |served| :: r[i] == served[i].range
  {
    seq(|served|, i requires 0 <= i < |served| => served[i].range)
  }

  /** Every call is answered by one Complete or outstanding, and at most one is outstanding. */
  ghost predicate Counted(s: State) {
    s.calls == Completes(s.signals) + if Outstanding(s) then 1 else 0
  }

  /** The accepted requests are served in their order, each once. */
  ghost predicate InOrder(s: State) {
    s.accepted == Ranges(s.served) + if Outstanding(s) then [s.range] else []
  }

  /** The successes are the records flagged, and with the failures they are the records visited. */
  predicate Adds(p: Push) {
    p.success == |p.flagged| && p.success + p.failed == p.processed == |p.visited|
  }

  /** A push is never cancelled, and tells exactly its successes. */
  predicate Served(v: Service) {
    match v.reason
    case Pushed(success, total) => Adds(v.push) && success == |v.push.flagged|
    case NothingFound => v.push == NEW_PUSH
    case NoServer => v.push == NEW_PUSH
    case _ => false
  }

  predicate WorkerOk(s: State) {
    match s.worker
    case Idle => true
    case Taken(range) => s.inProgress && range == s.range
    case Pushing(range, total, p) => s.inProgress && range == s.range && Adds(p)
    case Over => s.inProgress
  }

  ghost predicate Invariant(s: State) {
    WorkerOk(s) && Counted(s) && InOrder(s) && forall v | v in s.served :: Served(v)
  }

  lemma AnotherSignal(signals: seq<Signal>, signal: Signal)
    ensures Completes(signals + [signal]) == Completes(signals) + if signal.Complete? then 1 else 0
  {
    assert (signals + [signal])[..|signals|] == signals;
  }

  lemma {:induction false} BatchOnlyReportsProgress(
      p: Push, list: seq<int>, answers: nat -> bool, total: nat, signals: seq<Signal>)
    ensures Completes(signals + PushBatch(p, list, answers, total).signals[|p.signals|..]) == Completes(signals)
    decreases |list|
  {
    if list == [] {
      assert signals + [] == signals;
    } else {
      var before := list[..|list| - 1];
      BatchOnlyReportsProgress(p, before, answers, total, signals);
      var r, q := PushBatch(p, before, answers, total), PushBatch(p, list, answers, total);
      var last := q.signals[|q.signals| - 1];
      assert signals + q.signals[|p.signals|..] == signals + r.signals[|p.signals|..] + [last];
      AnotherSignal(signals + r.signals[|p.signals|..], last);
    }
  }

  lemma BatchAdds(p: Push, list: seq<int>, answers: nat -> bool, total: nat)
    requires Adds(p)
    ensures Adds(PushBatch(p, list, answers, total))
  {
    BatchTells(p, list, answers, total);
    BatchVisits(p, list, answers, total);
  }

  lemma RefuseKeeps(s: State, reason: Reason)
    requires Invariant(s)
    ensures Invariant(Refuse(s, reason))
  {
    AnotherSignal(s.signals, Complete(false, reason));
  }

  lemma AcceptKeeps(s: State, range: Range)
    requires Invariant(s) && !s.inProgress
    ensures Invariant(Accept(s, range))
  {
  }

  lemma RequestKeeps(s: State, start: Moment, end: Moment)
    requires Invariant(s)
    ensures Invariant(RequestStep(s, start, end))
  {
    if s.inProgress {
      RefuseKeeps(s, InProgress);
    } else if start.None? || end.None? {
      RefuseKeeps(s, InvalidRange);
    } else if start.value > end.value {
      RefuseKeeps(s, StartAfterEnd);
    } else {
      AcceptKeeps(s, Range(start.value, end.value));
    }
  }

  lemma FinishKeeps(s: State, push: Push, ok: bool, reason: Reason, readable: bool)
    requires Invariant(s) && (s.worker.Taken? || s.worker.Pushing?)
    requires Served(Service(s.worker.range, push, reason, readable))
    ensures Invariant(Finish(s, push, ok, reason, readable))
  {
    AnotherSignal(s.signals, Complete(ok, reason));
    var t := Finish(s, push, ok, reason, readable);
    assert Ranges(t.served) == Ranges(s.served) + [s.range];
  }

  lemma BeginKeeps(s: State, hasServer: bool, count: Option<nat>)
    requires Invariant(s)
    ensures Invariant(BeginStep(s, hasServer, count))
  {
    if s.worker.Taken? {
      if !hasServer {
        FinishKeeps(s, NEW_PUSH, false, NoServer, true);
      } else if count.None? || count.value == 0 {
        FinishKeeps(s, NEW_PUSH, true, NothingFound, count.Some?);
      }
    }
  }

  lemma AdvanceKeeps(s: State, list: PageList, answers: nat -> bool)
    requires Invariant(s) && s.worker.Pushing?
    ensures Invariant(Advance(s, list, answers))
  {
    BatchOnlyReportsProgress(s.worker.push, list, answers, s.worker.total, s.signals);
    BatchAdds(s.worker.push, list, answers, s.worker.total);
  }

  lemma BatchKeeps(s: State, page: Option<PageList>, answers: nat -> bool)
    requires Invariant(s)
    ensures Invariant(BatchStep(s, page, answers))
  {
    if s.worker.Pushing? {
      var p, total := s.worker.push, s.worker.total;
      if p.processed >= total {
        FinishKeeps(s, p, true, Pushed(p.success, total), true);
      } else if page.None? || page.value == [] {
        FinishKeeps(s, p, true, Pushed(p.success, total), page.Some?);
      } else {
        AdvanceKeeps(s, page.value, answers);
      }
    }
  }

  lemma StepKeeps(s: State, a: Action)
    requires Invariant(s)
    ensures Invariant(Step(s, a))
  {
    match a
    case Request(start, end) => RequestKeeps(s, start, end);
    case Take =>
    case Begin(hasServer, count) => BeginKeeps(s, hasServer, count);
    case Batch(page, answers) => BatchKeeps(s, page, answers);
    case Reset =>
  }

  /** Over every interleaving of requests and thread, and whatever the SELECTs give. */
  lemma {:induction false} RunKeeps(actions: seq<Action>)
    ensures Invariant(Run(Idling(), actions))
    decreases |actions|
  {
    if actions != [] {
      RunKeeps(actions[..|actions| - 1]);
      StepKeeps(Run(Idling(), actions[..|actions| - 1]), actions[|actions| - 1]);
    }
  }

  // ---------- What the signals say ----------

  /** A request was turned down. */
  predicate Refusal(reason: Reason) {
    reason.InProgress? || reason.InvalidRange? || reason.StartAfterEnd?
  }

  /** The reasons with which pushes ended, as the signals tell them. */
  function PushEnds(signals: seq<Signal>): seq<Reason> {
    if signals == [] then []
    else
      var n := |signals| - 1;
      PushEnds(signals[..n])
      + if signals[n].Complete? && !Refusal(signals[n].reason) then [signals[n].reason] else []
  }

  function Reasons(served: seq<Service>): (r: seq<Reason>)
    ensures |r| == |served|
    ensures forall i | 0 <= i < |served| :: r[i] == served[i].reason
  {
    seq(|served|, i requires 0 <= i < |served| => served[i].reason)
  }

  /** Success is told for a push that went through its pages or found none, and for nothing else. */
  predicate Truthful(signal: Signal) {
    signal.Complete? ==> (signal.ok <==> signal.reason.Pushed? || signal.reason.NothingFound?)
  }

  /** No range that ends before it starts is accepted; every signal is truthful; and the ends that are told are those of
      the pushes served, in their order. */
  ghost predicate Honest(s: State) {
    && (forall r | r in s.accepted :: r.start <= r.end)
    && (forall i | 0 <= i < |s.signals| :: Truthful(s.signals[i]))
    && PushEnds(s.signals) == Reasons(s.served)
  }

  lemma OneMoreSignal(signals: seq<Signal>, signal: Signal)
    ensures
      PushEnds(signals + [signal])
      == PushEnds(signals) + if signal.Complete? && !Refusal(signal.reason) then [signal.reason] else []
  {
    assert (signals + [signal])[..|signals|] == signals;
  }

  lemma {:induction false} ProgressEndsNothing(signals: seq<Signal>, more: seq<Signal>)
    requires forall i | 0 <= i < |more| :: more[i].Progress?
    ensures PushEnds(signals + more) == PushEnds(signals)
    decreases |more|
  {
    if more == [] {
      assert signals + more == signals;
    } else {
      var n := |more| - 1;
      ProgressEndsNothing(signals, more[..n]);
      OneMoreSignal(signals + more[..n], more[n]);
      assert signals + more == signals + more[..n] + [more[n]];
    }
  }

  lemma RefuseIsHonest(s: State, reason: Reason)
    requires Honest(s) && Refusal(reason)
    ensures Honest(Refuse(s, reason))
  {
    OneMoreSignal(s.signals, Complete(false, reason));
  }

  lemma FinishIsHonest(s: State, push: Push, ok: bool, reason: Reason, readable: bool)
    requires Honest(s) && (s.worker.Taken? || s.worker.Pushing?)
    requires !Refusal(reason) && Truthful(Complete(ok, reason))
    ensures Honest(Finish(s, push, ok, reason, readable))
  {
    OneMoreSignal(s.signals, Complete(ok, reason));
    var t := Finish(s, push, ok, reason, readable);
    assert Reasons(t.served) == Reasons(s.served) + [reason];
  }

  /** A page that is pushed is told record by record. */
  lemma AdvanceTells(s: State, list: PageList, answers: nat -> bool)
    requires s.worker.Pushing?
    ensures
      var p, t := s.worker.push, Advance(s, list, answers);
      && |t.signals| == |s.signals| + |list| && t.signals[..|s.signals|] == s.signals
      && (forall j | |s.signals| <= j < |t.signals| ::
            var i := p.processed + (j - |s.signals|);
            t.signals[j] == Progress(i + 1, s.worker.total, answers(i)))
      && t.served == s.served && t.accepted == s.accepted
  {
    BatchTells(s.worker.push, list, answers, s.worker.total);
  }

  lemma AdvanceIsHonest(s: State, list: PageList, answers: nat -> bool)
    requires Honest(s) && s.worker.Pushing?
    ensures Honest(Advance(s, list, answers))
  {
    var t := Advance(s, list, answers);
    AdvanceTells(s, list, answers);
    ProgressEndsNothing(s.signals, t.signals[|s.signals|..]);
    assert t.signals == s.signals + t.signals[|s.signals|..];
  }

  lemma RequestIsHonest(s: State, start: Moment, end: Moment)
    requires Honest(s)
    ensures Honest(RequestStep(s, start, end))
  {
    if s.inProgress {
      RefuseIsHonest(s, InProgress);
    } else if start.None? || end.None? {
      RefuseIsHonest(s, InvalidRange);
    } else if start.value > end.value {
      RefuseIsHonest(s, StartAfterEnd);
    }
  }

  lemma StepIsHonest(s: State, a: Action)
    requires WorkerOk(s) && Honest(s)
    ensures Honest(Step(s, a))
  {
    match a
    case Request(start, end) => RequestIsHonest(s, start, end);
    case Take =>
    case Begin(hasServer, count) =>
      if s.worker.Taken? {
        if !hasServer {
          FinishIsHonest(s, NEW_PUSH, false, NoServer, true);
        } else if count.None? || count.value == 0 {
          FinishIsHonest(s, NEW_PUSH, true, NothingFound, count.Some?);
        }
      }
    case Batch(page, answers) =>
      if s.worker.Pushing? {
        var p, total := s.worker.push, s.worker.total;
        if p.processed >= total {
          FinishIsHonest(s, p, true, Pushed(p.success, total), true);
        } else if page.None? || page.value == [] {
          FinishIsHonest(s, p, true, Pushed(p.success, total), page.Some?);
        } else {
          AdvanceIsHonest(s, page.value, answers);
        }
      }
    case Reset =>
  }

  /** Over every interleaving. */
  lemma {:induction false} RunIsHonest(actions: seq<Action>)
    ensures Honest(Run(Idling(), actions))
    decreases |actions|
  {
    if actions != [] {
      var front := actions[..|actions| - 1];
      RunIsHonest(front);
      RunKeeps(front);
      StepIsHonest(Run(Idling(), front), actions[|actions| - 1]);
    }
  }

  /** A request is accepted exactly when none is in progress, both times are valid and the range does not end before it
      starts; otherwise it is refused at once with the first reason that applies, and nothing else changes. */
  lemma RequestOutcome(s: State, start: Moment, end: Moment)
    ensures
      var t := Step(s, Request(start, end));
      var valid := start.Some? && end.Some?;
      && t.worker == s.worker && t.served == s.served && t.calls == s.calls + 1
      && (if !s.inProgress && valid && start.value <= end.value then
            && t.inProgress && t.range == Range(start.value, end.value) && t.accepted == s.accepted + [t.range]
            && t.signals == s.signals
          else
            && t.inProgress == s.inProgress && t.range == s.range && t.accepted == s.accepted
            && t.signals == s.signals
                 + [Complete(false, if s.inProgress then InProgress else if valid then StartAfterEnd else InvalidRange)])
  {
  }

  // ---------- When a push that reports success has visited its range ----------

  /** The records of a range, newest first. */
  type Records = Range -> seq<int>

  /** A SELECT gives what the table holds, or fails. */
  predicate Reads(s: State, a: Action, records: Records) {
    match a
    case Begin(_, count) => s.worker.Taken? && count.Some? ==> count.value == |records(s.worker.range)|
    case Batch(page, _) =>
      s.worker.Pushing? && page.Some? ==>
        page.value == Page(records(s.worker.range), CurrentPage(s.worker.push.processed))
    case _ => true
  }

  /** No record arrives or goes during the run. */
  ghost predicate StillRun(actions: seq<Action>, records: Records)
    decreases |actions|
  {
    if actions == [] then true
    else
      var front := actions[..|actions| - 1];
      StillRun(front, records) && Reads(Run(Idling(), front), actions[|actions| - 1], records)
  }

  /** A push that reported success visited every record of its range, once and in order, if and only if its SELECTs
      succeeded or there was nothing to visit; and the total it tells is the number of records in the range. */
  predicate VisitsIff(v: Service, records: Records) {
    && (v.reason.Pushed? || v.reason.NothingFound? ==>
          (v.push.visited == records(v.range) <==> v.readable || records(v.range) == []))
    && (v.reason.Pushed? ==> v.reason.total == |records(v.range)|)
  }

  predicate WorkerVisits(s: State, records: Records) {
    s.worker.Pushing? ==>
      var p, r := s.worker.push, records(s.worker.range);
      && s.worker.total == |r| > 0 && p.processed <= |r| && (Aligned(p.processed) || p.processed == |r|)
      && p.visited == r[..p.processed]
  }

  ghost predicate Visiting(s: State, records: Records) {
    WorkerVisits(s, records) && forall v | v in s.served :: VisitsIff(v, records)
  }

  lemma FinishVisits(s: State, push: Push, ok: bool, reason: Reason, readable: bool, records: Records)
    requires Visiting(s, records) && (s.worker.Taken? || s.worker.Pushing?)
    requires VisitsIff(Service(s.worker.range, push, reason, readable), records)
    ensures Visiting(Finish(s, push, ok, reason, readable), records)
  {
  }

  /** The page that comes next is not empty and continues the records visited so far. */
  lemma PageContinues(p: Push, r: seq<int>, answers: nat -> bool)
    requires Aligned(p.processed) && p.processed < |r| && p.visited == r[..p.processed]
    ensures
      var list := Page(r, CurrentPage(p.processed));
      var q := PushBatch(p, list, answers, |r|);
      && list != [] && q.processed <= |r| && (Aligned(q.processed) || q.processed == |r|)
      && q.visited == r[..q.processed]
  {
    var list, end := Page(r, CurrentPage(p.processed)), BatchEnd(p.processed, |r|);
    PageIs(p.processed, r);
    BatchEnds(p.processed, |r|, |r|);
    ListContinues(p, list, end, r, answers);
  }

  lemma ListContinues(p: Push, list: seq<int>, end: nat, r: seq<int>, answers: nat -> bool)
    requires p.processed <= end <= |r| && p.visited == r[..p.processed] && list == Between(r, p.processed, end)
    ensures var q := PushBatch(p, list, answers, |r|); q.processed == end && q.visited == r[..end]
  {
    BatchVisits(p, list, answers, |r|);
    assert r[..p.processed] + list == r[..end];
  }

  lemma BatchStepVisits(s: State, page: Option<PageList>, answers: nat -> bool, records: Records)
    requires WorkerOk(s) && Visiting(s, records) && Reads(s, Batch(page, answers), records)
    ensures Visiting(BatchStep(s, page, answers), records)
  {
    if s.worker.Pushing? {
      var p, total, r := s.worker.push, s.worker.total, records(s.worker.range);
      if p.processed >= total {
        FinishVisits(s, p, true, Pushed(p.success, total), true, records);
      } else {
        PageContinues(p, r, answers);
        if page.None? {
          assert |p.visited| < |r|;
          FinishVisits(s, p, true, Pushed(p.success, total), false, records);
        }
      }
    }
  }

  lemma StepVisits(s: State, a: Action, records: Records)
    requires WorkerOk(s) && Visiting(s, records) && Reads(s, a, records)
    ensures Visiting(Step(s, a), records)
  {
    match a
    case Request(start, end) =>
    case Take =>
    case Begin(hasServer, count) =>
      if s.worker.Taken? {
        if !hasServer {
          FinishVisits(s, NEW_PUSH, false, NoServer, true, records);
        } else if count.None? || count.value == 0 {
          FinishVisits(s, NEW_PUSH, true, NothingFound, count.Some?, records);
        }
      }
    case Batch(page, answers) => BatchStepVisits(s, page, answers, records);
    case Reset =>
  }

  /** In every interleaving during which the table does not change. */
  lemma {:induction false} StillRunVisits(actions: seq<Action>, records: Records)
    requires StillRun(actions, records)
    ensures forall v | v in Run(Idling(), actions).served :: VisitsIff(v, records)
    ensures Visiting(Run(Idling(), actions), records)
    decreases |actions|
  {
    if actions != [] {
      var front := actions[..|actions| - 1];
      StillRunVisits(front, records);
      RunKeeps(front);
      StepVisits(Run(Idling(), front), actions[|actions| - 1], records);
    }
  }

  /** An input that shows the failure: the count cannot be read, and the push of a range full of records is reported as
      successful. */
  lemma FailedCountIsReportedAsSuccess(start: int, end: int)
    requires start <= end
    ensures
      var s := BeginStep(TakeStep(RequestStep(Idling(), Some(start), Some(end))), true, None);
      && s.served == [Service(Range(start, end), NEW_PUSH, NothingFound, false)]
      && s.signals == [Complete(true, NothingFound)]
  {
  }

  // ---------- An accepted request is served ----------

  /** What the thread meets in one of its turns, after the requests that come in before it. */
  datatype Round = Round(
    requests: seq<(Moment, Moment)>, hasServer: bool, count: Option<nat>, page: Option<PageList>, answers: nat -> bool)

  function Requests(s: State, requests: seq<(Moment, Moment)>): State
    decreases |requests|
  {
    if requests == [] then s
    else
      var n := |requests| - 1;
      RequestStep(Requests(s, requests[..n]), requests[n].0, requests[n].1)
  }

  /** What the thread does next. */
  function Turn(s: State, w: Round): Action {
    match s.worker
    case Idle => Take
    case Taken(_) => Begin(w.hasServer, w.count)
    case Pushing(_, _, _) => Batch(w.page, w.answers)
    case Over => Reset
  }

  function PlayRound(s: State, w: Round): State {
    var t := Requests(s, w.requests);
    Step(t, Turn(t, w))
  }

  function Rounds(s: State, rounds: nat -> Round, k: nat): State {
    if k == 0 then s else PlayRound(Rounds(s, rounds, k - 1), rounds(k - 1))
  }

  /** How far the thread is from the end of the outstanding request: its phase, and the records left in the loop. */
  function Phase(s: State): nat {
    match s.worker
    case Idle => 3
    case Taken(_) => 2
    case Pushing(_, _, _) => 1
    case Over => 0
  }

  function Left(s: State): nat {
    if s.worker.Pushing? && s.worker.push.processed < s.worker.total then s.worker.total - s.worker.push.processed else 0
  }

  predicate Nearer(t: State, s: State) {
    Phase(t) < Phase(s) || (Phase(t) == Phase(s) && Left(t) < Left(s))
  }

  /** Requests that come in while one is outstanding change neither it nor the thread. */
  lemma {:induction false} RequestsDoNotDelay(s: State, requests: seq<(Moment, Moment)>)
    requires Invariant(s) && Outstanding(s)
    ensures
      var t := Requests(s, requests);
      Invariant(t) && t.inProgress && t.worker == s.worker && t.range == s.range && t.served == s.served
    decreases |requests|
  {
    if requests != [] {
      var n := |requests| - 1;
      RequestsDoNotDelay(s, requests[..n]);
      RequestKeeps(Requests(s, requests[..n]), requests[n].0, requests[n].1);
    }
  }

  /** Every turn of the thread ends the outstanding request or brings its end nearer. */
  lemma TurnsServe(s: State, w: Round)
    requires Invariant(s) && Outstanding(s)
    ensures
      var t := PlayRound(s, w);
      && Invariant(t) && t.inProgress && t.range == s.range && Nearer(t, s)
      && (t.worker.Over? ==> |t.served| == |s.served| + 1 && t.served[|s.served|].range == s.range)
      && (!t.worker.Over? ==> t.served == s.served)
  {
    RequestsDoNotDelay(s, w.requests);
    var t := Requests(s, w.requests);
    StepKeeps(t, Turn(t, w));
  }

  /** So it is served after finitely many turns, whatever requests come in between and whatever the SELECTs give. */
  lemma {:induction false} ServedEventually(s: State, rounds: nat -> Round, from: nat) returns (k: nat)
    requires Invariant(Rounds(s, rounds, from)) && Outstanding(Rounds(s, rounds, from))
    ensures
      var t := Rounds(s, rounds, k);
      var n := |Rounds(s, rounds, from).served|;
      k > from && t.worker.Over? && |t.served| == n + 1 && t.served[n].range == Rounds(s, rounds, from).range
    decreases Phase(Rounds(s, rounds, from)), Left(Rounds(s, rounds, from))
  {
    TurnsServe(Rounds(s, rounds, from), rounds(from));
    assert Rounds(s, rounds, from + 1) == PlayRound(Rounds(s, rounds, from), rounds(from));
    if Rounds(s, rounds, from + 1).worker.Over? {
      k := from + 1;
    } else {
      k := ServedEventually(s, rounds, from + 1);
    }
  }

  /** A valid request is refused exactly while another one is outstanding, or is over but not yet reset. */
  lemma RefusedIff(s: State, start: int, end: int)
    requires Invariant(s) && start <= end
    ensures RequestStep(s, Some(start), Some(end)).accepted == s.accepted <==> Outstanding(s) || s.worker.Over?
  {
  }

  // ---------- The thread object ----------

  /** The signals of one push that nothing interrupts: total records were counted, table(i) holds the range when page i is
      fetched. */
  function PushSignals(
      hasServer: bool, total: nat, inProgress: bool, table: nat -> seq<int>, answers: nat -> bool): seq<Signal>
  {
    if !hasServer then [Complete(false, NoServer)]
    else if total == 0 then [Complete(true, NothingFound)]
    else if !inProgress then [Complete(false, Cancelled)]
    else
      var q := PushAll(NEW_PUSH, table, answers, total);
      q.signals + [Complete(true, Pushed(q.success, total))]
  }

  function PushFlags(
      hasServer: bool, total: nat, inProgress: bool, table: nat -> seq<int>, answers: nat -> bool): seq<int>
  {
    if !hasServer || !inProgress then [] else PushAll(NEW_PUSH, table, answers, total).flagged
  }

  class PostPersonRecordThread {
    var isManualPushInProgress: bool
    var manualPushRange: Range
    /** The signals emitted and the records flagged as uploaded. */
    var signals: seq<Signal>
    var flagged: seq<int>

    constructor ()
      ensures Shows(Idling()) && flagged == []
    {
      isManualPushInProgress, manualPushRange, signals, flagged := false, Range(0, 0), [], [];
    }

    /** The fields are those of a state of the interleaving. */
    ghost predicate Shows(s: State)
      reads this
    {
      s.inProgress == isManualPushInProgress && s.range == manualPushRange && s.signals == signals
    }

    method SlotManualPushRecords(start: Moment, end: Moment)
      modifies this`isManualPushInProgress, this`manualPushRange, this`signals
      ensures forall s :: old(Shows(s)) ==> Shows(RequestStep(s, start, end))
    {
      if isManualPushInProgress {
        signals := signals + [Complete(false, InProgress)];
        return;
      }
      if start.None? || end.None? {
        signals := signals + [Complete(false, InvalidRange)];
        return;
      }
      if start.value > end.value {
        signals := signals + [Complete(false, StartAfterEnd)];
        return;
      }
      isManualPushInProgress := true;
      manualPushRange := Range(start.value, end.value);
    }

    /** One turn of run(), as far as manual pushes go. */
    method RunTurn(hasServer: bool, total: nat, table: nat -> seq<int>, answers: nat -> bool) returns (requested: bool)
      modifies this
      ensures requested == old(isManualPushInProgress) && !isManualPushInProgress
      ensures signals == old(signals) + if requested then PushSignals(hasServer, total, true, table, answers) else []
      ensures flagged == old(flagged) + if requested then PushFlags(hasServer, total, true, table, answers) else []
    {
      requested := isManualPushInProgress;
      if requested {
        DoManualPushRecords(hasServer, total, table, answers);
        isManualPushInProgress := false;
      }
    }

    method DoManualPushRecords(hasServer: bool, total: nat, table: nat -> seq<int>, answers: nat -> bool)
      modifies this`signals, this`flagged
      ensures signals == old(signals) + PushSignals(hasServer, total, isManualPushInProgress, table, answers)
      ensures flagged == old(flagged) + PushFlags(hasServer, total, isManualPushInProgress, table, answers)
    {
      if !hasServer {
        signals := signals + [Complete(false, NoServer)];
        return;
      }
      if total == 0 {
        signals := signals + [Complete(true, NothingFound)];
        return;
      }
      var cancelled, success := PushLoop(total, table, answers);
      if !cancelled {
        signals := signals + [Complete(true, Pushed(success, total))];
      }
    }

    /** The loop over the batches. */
    method PushLoop(total: nat, table: nat -> seq<int>, answers: nat -> bool) returns (cancelled: bool, success: nat)
      requires total > 0
      modifies this`signals, this`flagged
      ensures cancelled == !isManualPushInProgress
      ensures cancelled ==> signals == old(signals) + [Complete(false, Cancelled)] && flagged == old(flagged)
      ensures
        var q := PushAll(NEW_PUSH, table, answers, total);
        !cancelled ==> signals == old(signals) + q.signals && flagged == old(flagged) + q.flagged && success == q.success
    {
      var processed, failed, pages := 0, 0, 0;
      cancelled, success := false, 0;
      ghost var p := NEW_PUSH;
      while processed < total
        invariant isManualPushInProgress || (processed == 0 && signals == old(signals) && flagged == old(flagged))
        invariant PushAll(p, table, answers, total) == PushAll(NEW_PUSH, table, answers, total)
        invariant processed == p.processed && success == p.success && failed == p.failed && pages == p.pages
        invariant signals == old(signals) + p.signals && flagged == old(flagged) + p.flagged
        decreases total - processed
      {
        if !isManualPushInProgress {
          signals := signals + [Complete(false, Cancelled)];
          return true, success;
        }
        var list := Page(table(pages), CurrentPage(processed));
        if |list| == 0 {
          p := FetchAndPush(p, table, answers, total);
          break;
        }
        processed, success, failed :=
          PostBatch(list, answers, total, processed, success, failed, p, old(signals), old(flagged));
        p := FetchAndPush(p, table, answers, total);
        pages := pages + 1;
      }
    }

    /** The loop over one batch: every record is posted, and flagged and counted by the server's answer. */
    method PostBatch(
        list: seq<int>, answers: nat -> bool, total: nat, done: nat, good: nat, bad: nat, ghost p: Push,
        ghost told: seq<Signal>, ghost flags: seq<int>)
      returns (processed: nat, success: nat, failed: nat)
      requires p.processed == done && p.success == good && p.failed == bad
      requires signals == told + p.signals && flagged == flags + p.flagged
      modifies this`signals, this`flagged
      ensures
        var q := PushBatch(p, list, answers, total);
        && processed == q.processed && success == q.success && failed == q.failed
        && signals == told + q.signals && flagged == flags + q.flagged
    {
      processed, success, failed := done, good, bad;
      assert list[..0] == [];
      for i := 0 to |list|
        invariant
          var q := PushBatch(p, list[..i], answers, total);
          && processed == q.processed && success == q.success && failed == q.failed
          && signals == told + q.signals && flagged == flags + q.flagged
      {
        assert list[..i + 1][..i] == list[..i];
        var postSuccess := answers(processed);
        if postSuccess {
          flagged := flagged + [list[i]];
          success := success + 1;
        } else {
          failed := failed + 1;
        }
        processed := processed + 1;
        signals := signals + [Progress(processed, total, postSuccess)];
      }
      assert list[..|list|] == list;
    }
  }
}
