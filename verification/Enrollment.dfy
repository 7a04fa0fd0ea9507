/** The three-stage fingerprint enrollment (FingerprintManager::startEnrollment and the steps below it), driven by an
    arbitrary sensor. */
module Enrollment {
  import opened SensorFrames
  import opened Wrappers

  const CMD_GET_IMAGE: Byte := 0x01
  const CMD_GEN_CHAR: Byte := 0x02
  const CMD_SEARCH: Byte := 0x04
  const CMD_REG_MODEL: Byte := 0x05
  const CMD_STORE_CHAR: Byte := 0x06
  const CMD_TEMPLATE_NUM: Byte := 0x1D
  const CMD_CAPTURE: Byte := 0x29
  const MAX_FINGER_DETECT_ATTEMPTS := 100
  const RETRY_NOTICE := 7

  datatype Reason = SensorNotReady | NoFinger(stage: nat) | NoTemplate(stage: nat) | DuplicateFound | NotSaved

  /** What receiveResponse reports: nothing, or a reply from its confirmation code on (SensorFrames.Reply). */
  type Answer = r: Option<Bytes> | r.Some? ==> |r.value| >= 3 witness None

  /** What happens on the UART and what is signalled, in order. */
  datatype Event =
    | Asked(cmd: Byte, data: Bytes, answer: Answer)  // a command is written, then one reply is read
    | Wrote(cmd: Byte, data: Bytes)  // a command is written and nothing is read
    | WriteFailed(attempted: Byte)
    | Flushed  // what was received and not yet read is dropped
    | Progress(stage: nat)
    | Complete(fingerId: nat)
    | Failed(reason: Reason)

  /** The number of UART operations so far, the events so far, and what an observer knows from these. */
  datatype Session = Session(time: nat, trace: seq<Event>, view: View) {
    /** An event that takes this many UART operations. */
    function After(operations: nat, e: Event): Session {
      Session(time + operations, trace + [e], Next(view, e))
    }

    /** A signal or a flush. */
    function Log(e: Event): Session {
      After(0, e)
    }

    /** A command was written. */
    function Write(cmd: Byte, data: Bytes): Session {
      After(1, Wrote(cmd, data))
    }
  }

  /** A new enrollment, from the point in time the UART has reached. */
  function NewSession(time: nat): Session {
    Session(time, [], NOTHING)
  }

  /** The outside world, any at all, knowing all that happened so far: whether the next write succeeds, what the next read
      gives, and whether the UART is open. */
  datatype Uart = Uart(accepts: Session -> bool, answers: Session -> Answer, isOpen: Session -> bool)

  datatype Outcome = Outcome(ok: bool, s: Session)

  predicate IsOk(answer: Answer) {
    answer.Some? && answer.value[0] == 0x00
  }

  // ---------- The steps, as functions of the sensor ----------

  /** A command and, when it was written, one read. */
  function Exchange(u: Uart, s: Session, cmd: Byte, data: Bytes): (Answer, Session) {
    if u.accepts(s) then
      var answer := u.answers(s.Write(cmd, data));
      (answer, s.After(2, Asked(cmd, data, answer)))
    else (None, s.After(1, WriteFailed(cmd)))
  }

  function DetectFinger(u: Uart, s: Session, attempt: nat): Outcome
    decreases MAX_FINGER_DETECT_ATTEMPTS - attempt
  {
    if attempt >= MAX_FINGER_DETECT_ATTEMPTS then Outcome(false, s)
    else
      var (answer, t) := Exchange(u, s.Log(Flushed), CMD_GET_IMAGE, []);
      if !u.accepts(s.Log(Flushed)) then Outcome(false, t)
      else if IsOk(answer) then Outcome(true, t)
      else DetectFinger(u, t, attempt + 1)
  }

  function CaptureAndGenerate(u: Uart, s: Session, buffer: Byte): Outcome {
    var (captured, s1) := Exchange(u, s, CMD_CAPTURE, []);
    if !IsOk(captured) then Outcome(false, s1)
    else
      var (generated, s2) := Exchange(u, s1, CMD_GEN_CHAR, [buffer]);
      Outcome(IsOk(generated), s2)
  }

  datatype Attempt = Generated | TryAgain | GiveUp

  /** One attempt of the retrying form: only a bad capture, a lost command or reply and "poor image" allow another. */
  function TryGenerate(u: Uart, s: Session, buffer: Byte): (Attempt, Session) {
    var (captured, s1) := Exchange(u, s, CMD_CAPTURE, []);
    if !IsOk(captured) then (TryAgain, s1)
    else
      var (generated, s2) := Exchange(u, s1, CMD_GEN_CHAR, [buffer]);
      (if IsOk(generated) then Generated
       else if generated == None || generated.value[0] == 0x01 then TryAgain
       else GiveUp,
       s2)
  }

  function GenerateWithRetry(u: Uart, s: Session, buffer: Byte, attempt: nat, maxRetries: nat): Outcome
    decreases maxRetries - attempt
  {
    if attempt >= maxRetries then Outcome(false, s)
    else
      var (result, t) := TryGenerate(u, if attempt > 0 then s.Log(Progress(buffer as nat + 4)) else s, buffer);
      match result
      case Generated => Outcome(true, t)
      case TryAgain => GenerateWithRetry(u, t, buffer, attempt + 1, maxRetries)
      case GiveUp => Outcome(false, t)
  }

  predicate SaysEmpty(answer: Answer) {
    answer.Some? && answer.value[0] == 0x00 && answer.value[1] == 0 && answer.value[2] == 0
  }

  predicate SaysNotFound(answer: Answer) {
    answer.Some? && answer.value[0] == 0x09
  }

  function SearchData(buffer: Byte): Bytes {
    [buffer, 0x00, 0x00, 0x00, 0x64]
  }

  function CheckDuplicates(u: Uart, s: Session, buffer: Byte): Outcome {
    var (count, s1) := Exchange(u, s, CMD_TEMPLATE_NUM, []);
    if SaysEmpty(count) then Outcome(true, s1)
    else if !u.isOpen(s1.Log(Flushed)) then Outcome(false, s1.Log(Flushed))
    else
      var (found, s2) := Exchange(u, s1.Log(Flushed), CMD_SEARCH, SearchData(buffer));
      Outcome(SaysNotFound(found), s2)
  }

  function StoreData(fingerId: nat): Bytes {
    [0x01, (fingerId / 256) % 256, fingerId % 256]
  }

  /** RegModel is written and its reply is not read; then Store is written and one reply is read. */
  function StoreToFlash(u: Uart, s: Session, fingerId: nat): Outcome {
    if !u.accepts(s) then Outcome(false, s.After(1, WriteFailed(CMD_REG_MODEL)))
    else
      var (stored, s2) := Exchange(u, s.Write(CMD_REG_MODEL, []), CMD_STORE_CHAR, StoreData(fingerId));
      Outcome(IsOk(stored), s2)
  }

  /** Capture and template of a stage: the third one has two more attempts. */
  function GenerateSample(u: Uart, s: Session, n: nat): Outcome
    requires 1 <= n <= 3
  {
    if n < 3 then CaptureAndGenerate(u, s, n) else GenerateWithRetry(u, s, 3, 0, 3)
  }

  /** One sample: detect, capture and generate into the stage's buffer, check for duplicates. */
  function Stage(u: Uart, s: Session, n: nat): Outcome
    requires 1 <= n <= 3
  {
    var detected := DetectFinger(u, s.Log(Progress(2 * n - 1)), 0);
    if !detected.ok then Outcome(false, detected.s.Log(Failed(NoFinger(n))))
    else StageWithFinger(u, detected.s, n)
  }

  function StageWithFinger(u: Uart, s: Session, n: nat): Outcome
    requires 1 <= n <= 3
  {
    var generated := GenerateSample(u, s, n);
    if !generated.ok then Outcome(false, generated.s.Log(Failed(NoTemplate(n))))
    else
      var checked := CheckDuplicates(u, generated.s, n);
      if !checked.ok then Outcome(false, checked.s.Log(Failed(DuplicateFound)))
      else Outcome(true, checked.s.Log(Progress(2 * n)))
  }

  /** Stages n to 3. The progress message of stage 3's end is the one that announces saving. */
  function Samples(u: Uart, s: Session, n: nat): Outcome
    requires 1 <= n <= 4
    decreases 4 - n
  {
    if n == 4 then Outcome(true, s)
    else
      var done := Stage(u, s, n);
      if done.ok then Samples(u, done.s, n + 1) else done
  }

  function Save(u: Uart, s: Session, fingerId: nat): Outcome {
    var stored := StoreToFlash(u, s, fingerId);
    if stored.ok then Outcome(true, stored.s.Log(Complete(fingerId)))
    else Outcome(false, stored.s.Log(Failed(NotSaved)))
  }

  function StartEnrollment(u: Uart, s: Session, sensorReady: bool, fingerId: nat): Outcome {
    if !sensorReady then Outcome(false, s.Log(Failed(SensorNotReady)))
    else
      var samples := Samples(u, s, 1);
      if samples.ok then Save(u, samples.s, fingerId) else samples
  }

  // ---------- An observer of the events ----------

  /** What an observer who sees only the events knows.
      - buffer, phase: how far the required steps have come, each happening after the one before it. For each buffer
        n = 1, 2, 3 they are an OK reply to GetImage, to Capture and to GenChar into buffer n, and a passed duplicate
        check of buffer n; then, with buffer = 4, RegModel is written and, as the next command, Store is written with an
        OK reply read.
      - announced, inOrder: the number of progress messages other than the retry notice, and whether they were 1, 2, 3 and
        so on.
      - ends: how many times Complete or Failed was signalled.
      - guarded: Store was never written before all the steps in front of it. */
  datatype View = View(
    last: Option<Event>, buffer: nat, phase: nat, announced: nat, inOrder: bool, ends: nat, guarded: bool)
  {
    predicate At(b: nat, p: nat) {
      buffer == b && phase == p
    }
  }

  const NOTHING := View(None, 1, 0, 0, true, 0, true)

  /** Event e, coming after `last`, is the required step of this buffer and phase. */
  predicate IsStep(buffer: nat, phase: nat, last: Option<Event>, e: Event) {
    if buffer > 3 then
      || (phase == 0 && e == Wrote(CMD_REG_MODEL, []))
      || (phase == 1 && last == Some(Wrote(CMD_REG_MODEL, [])) && e.Asked? && e.cmd == CMD_STORE_CHAR && IsOk(e.answer))
    else if !e.Asked? then false
    else if phase == 0 then e.cmd == CMD_GET_IMAGE && e.data == [] && IsOk(e.answer)
    else if phase == 1 then e.cmd == CMD_CAPTURE && e.data == [] && IsOk(e.answer)
    else if phase == 2 then e.cmd == CMD_GEN_CHAR && e.data == [buffer] && IsOk(e.answer)
    else
      || (e.cmd == CMD_TEMPLATE_NUM && e.data == [] && SaysEmpty(e.answer))
      || (e.cmd == CMD_SEARCH && e.data == SearchData(buffer) && SaysNotFound(e.answer))
  }

  function Next(v: View, e: Event): View {
    var step := IsStep(v.buffer, v.phase, v.last, e);
    var wraps := v.buffer <= 3 && v.phase == 3;
    View(
      Some(e),
      if step && wraps then v.buffer + 1 else v.buffer,
      if step then if wraps then 0 else v.phase + 1 else v.phase,
      if e.Progress? && e.stage != RETRY_NOTICE then v.announced + 1 else v.announced,
      v.inOrder && (e.Progress? && e.stage != RETRY_NOTICE ==> e.stage == v.announced + 1),
      if e.Complete? || e.Failed? then v.ends + 1 else v.ends,
      v.guarded && ((e.Asked? || e.Wrote?) && e.cmd == CMD_STORE_CHAR ==>
                      v.At(4, 1) && v.last == Some(Wrote(CMD_REG_MODEL, []))))
  }

  function Observe(trace: seq<Event>): View {
    if trace == [] then NOTHING else Next(Observe(trace[..|trace| - 1]), trace[|trace| - 1])
  }

  // ---------- What each step looks like to the observer ----------

  /** No message, no end, no unguarded Store. */
  predicate Quiet(v: View, w: View) {
    w.announced == v.announced && w.inOrder == v.inOrder && w.ends == v.ends && w.guarded == v.guarded
  }

  /** What a UART operation other than RegModel and Store does to the view. */
  predicate Steps(v: View, w: View, done: bool) {
    && Quiet(v, w)
    && (if !done then w.At(v.buffer, v.phase)
        else if v.phase == 3 then w.At(v.buffer + 1, 0)
        else w.At(v.buffer, v.phase + 1))
  }

  lemma ExchangeView(u: Uart, s: Session, cmd: Byte, data: Bytes)
    requires cmd != CMD_STORE_CHAR && cmd != CMD_REG_MODEL && s.view.buffer <= 3 && s.view.phase <= 3
    ensures
      var (answer, t) := Exchange(u, s, cmd, data);
      && t.time <= s.time + 2
      && Steps(s.view, t.view,
               u.accepts(s) && IsStep(s.view.buffer, s.view.phase, s.view.last, Asked(cmd, data, answer)))
  {
  }

  lemma DetectOnceView(u: Uart, s: Session)
    requires s.view.buffer <= 3 && s.view.phase == 0
    ensures
      var (answer, t) := Exchange(u, s.Log(Flushed), CMD_GET_IMAGE, []);
      && t.time <= s.time + 2
      && Steps(s.view, t.view, u.accepts(s.Log(Flushed)) && IsOk(answer))
  {
    ExchangeView(u, s.Log(Flushed), CMD_GET_IMAGE, []);
  }

  /** Polling for a finger. */
  lemma {:induction false} DetectView(u: Uart, s: Session, attempt: nat)
    requires s.view.buffer <= 3 && s.view.phase == 0 && attempt <= MAX_FINGER_DETECT_ATTEMPTS
    ensures
      var out := DetectFinger(u, s, attempt);
      && out.s.time <= s.time + 2 * (MAX_FINGER_DETECT_ATTEMPTS - attempt)
      && Steps(s.view, out.s.view, out.ok)
    decreases MAX_FINGER_DETECT_ATTEMPTS - attempt
  {
    if attempt < MAX_FINGER_DETECT_ATTEMPTS {
      DetectOnceView(u, s);
      var (answer, t) := Exchange(u, s.Log(Flushed), CMD_GET_IMAGE, []);
      if u.accepts(s.Log(Flushed)) && !IsOk(answer) {
        DetectView(u, t, attempt + 1);
      }
    }
  }

  /** A sample of buffer n, taken or not. */
  predicate Sample(v: View, w: View, n: nat, ok: bool) {
    Quiet(v, w) && w.buffer == n && (ok <==> w.phase == 3) && 1 <= w.phase <= 3
  }

  lemma CaptureAndGenerateView(u: Uart, s: Session, n: nat)
    requires 1 <= n <= 3 && s.view.At(n, 1)
    ensures var out := CaptureAndGenerate(u, s, n);
      out.s.time <= s.time + 4 && Sample(s.view, out.s.view, n, out.ok)
  {
    ExchangeView(u, s, CMD_CAPTURE, []);
    var (captured, t) := Exchange(u, s, CMD_CAPTURE, []);
    if IsOk(captured) {
      ExchangeView(u, t, CMD_GEN_CHAR, [n]);
    }
  }

  lemma TryGenerateView(u: Uart, s: Session)
    requires s.view.buffer == 3 && 1 <= s.view.phase <= 2
    ensures var (result, t) := TryGenerate(u, s, 3);
      t.time <= s.time + 4 && Sample(s.view, t.view, 3, result == Generated)
  {
    ExchangeView(u, s, CMD_CAPTURE, []);
    var (captured, t) := Exchange(u, s, CMD_CAPTURE, []);
    if IsOk(captured) {
      ExchangeView(u, t, CMD_GEN_CHAR, [3]);
    }
  }

  /** The retrying form takes at most three attempts, with nothing but the retry notice announced in between. */
  lemma {:induction false} RetryView(u: Uart, s: Session, attempt: nat)
    requires s.view.buffer == 3 && 1 <= s.view.phase <= 2 && attempt <= 3
    ensures var out := GenerateWithRetry(u, s, 3, attempt, 3);
      out.s.time <= s.time + 4 * (3 - attempt) && Sample(s.view, out.s.view, 3, out.ok)
    decreases 3 - attempt
  {
    if attempt < 3 {
      var s0 := if attempt > 0 then s.Log(Progress(RETRY_NOTICE)) else s;
      TryGenerateView(u, s0);
      var (result, t) := TryGenerate(u, s0, 3);
      if result == TryAgain {
        RetryView(u, t, attempt + 1);
      }
    }
  }

  lemma GenerateSampleView(u: Uart, s: Session, n: nat)
    requires 1 <= n <= 3 && s.view.At(n, 1)
    ensures var out := GenerateSample(u, s, n);
      out.s.time <= s.time + 12 && Sample(s.view, out.s.view, n, out.ok)
  {
    if n < 3 {
      CaptureAndGenerateView(u, s, n);
    } else {
      RetryView(u, s, 0);
    }
  }

  lemma SearchView(u: Uart, s: Session, n: nat)
    requires 1 <= n <= 3 && s.view.At(n, 3)
    ensures
      var t := s.Log(Flushed);
      var (found, r) := Exchange(u, t, CMD_SEARCH, SearchData(n));
      Steps(s.view, t.view, false) && r.time <= s.time + 2 && Steps(s.view, r.view, SaysNotFound(found))
  {
    ExchangeView(u, s.Log(Flushed), CMD_SEARCH, SearchData(n));
  }

  /** The duplicate check passes exactly with an empty sensor or a "not found" reply. */
  lemma CheckDuplicatesView(u: Uart, s: Session, n: nat)
    requires 1 <= n <= 3 && s.view.At(n, 3)
    ensures var out := CheckDuplicates(u, s, n);
      out.s.time <= s.time + 4 && Steps(s.view, out.s.view, out.ok)
  {
    ExchangeView(u, s, CMD_TEMPLATE_NUM, []);
    var (count, t) := Exchange(u, s, CMD_TEMPLATE_NUM, []);
    if !SaysEmpty(count) {
      SearchView(u, t, n);
    }
  }

  /** Saving succeeds exactly with RegModel written and, right behind it, an OK reply read after Store. */
  lemma StoreToFlashView(u: Uart, s: Session, fingerId: nat)
    requires s.view.At(4, 0)
    ensures
      var out := StoreToFlash(u, s, fingerId);
      && out.s.time <= s.time + 3 && Quiet(s.view, out.s.view)
      && out.s.view.buffer == 4 && (out.ok <==> out.s.view.phase == 2) && out.s.view.phase <= 2
  {
  }

  // ---------- The whole enrollment ----------

  /** An enrollment goes on, having announced 1 to k. */
  predicate Going(w: View, k: nat) {
    w.announced == k && w.inOrder && w.ends == 0 && w.guarded
  }

  /** An enrollment failed: one end, and nothing is announced after it. */
  predicate Stopped(w: View) {
    w.announced <= 6 && w.inOrder && w.ends == 1 && w.guarded && w.last.Some? && w.last.value.Failed? && !w.At(4, 2)
  }

  /** The stages up to k are through. */
  predicate Reached(w: View, k: nat) {
    w.At(k + 1, 0) && Going(w, 2 * k)
  }

  lemma StageEndView(u: Uart, s: Session, n: nat)
    requires 1 <= n <= 3 && s.view.At(n, 3) && Going(s.view, 2 * n - 1)
    ensures
      var checked := CheckDuplicates(u, s, n);
      var t := checked.s.Log(if checked.ok then Progress(2 * n) else Failed(DuplicateFound));
      t.time <= s.time + 4 && if checked.ok then Reached(t.view, n) else Stopped(t.view)
  {
    CheckDuplicatesView(u, s, n);
  }

  lemma StageWithFingerView(u: Uart, s: Session, n: nat)
    requires 1 <= n <= 3 && s.view.At(n, 1) && Going(s.view, 2 * n - 1)
    ensures var out := StageWithFinger(u, s, n);
      out.s.time <= s.time + 16 && if out.ok then Reached(out.s.view, n) else Stopped(out.s.view)
  {
    GenerateSampleView(u, s, n);
    var generated := GenerateSample(u, s, n);
    if generated.ok {
      StageEndView(u, generated.s, n);
    }
  }

  lemma StageView(u: Uart, s: Session, n: nat)
    requires 1 <= n <= 3 && Reached(s.view, n - 1)
    ensures var out := Stage(u, s, n);
      out.s.time <= s.time + 216 && if out.ok then Reached(out.s.view, n) else Stopped(out.s.view)
  {
    var s0 := s.Log(Progress(2 * n - 1));
    DetectView(u, s0, 0);
    var detected := DetectFinger(u, s0, 0);
    if detected.ok {
      StageWithFingerView(u, detected.s, n);
    }
  }

  /** The stages from n on. */
  lemma {:induction false} SamplesView(u: Uart, s: Session, n: nat)
    requires 1 <= n <= 4 && Reached(s.view, n - 1)
    ensures var out := Samples(u, s, n);
      out.s.time <= s.time + 216 * (4 - n) && if out.ok then Reached(out.s.view, 3) else Stopped(out.s.view)
    decreases 4 - n
  {
    if n < 4 {
      StageView(u, s, n);
      var done := Stage(u, s, n);
      if done.ok {
        SamplesView(u, done.s, n + 1);
      }
    }
  }

  /** A finished enrollment, w being the view of its events. */
  predicate Finished(w: View, ok: bool, fingerId: nat) {
    if ok then
      w.At(4, 2) && w.last == Some(Complete(fingerId)) && w.announced == 6 && w.inOrder && w.ends == 1 && w.guarded
    else Stopped(w)
  }

  lemma SaveView(u: Uart, s: Session, fingerId: nat)
    requires Reached(s.view, 3)
    ensures var out := Save(u, s, fingerId); out.s.time <= s.time + 3 && Finished(out.s.view, out.ok, fingerId)
  {
    StoreToFlashView(u, s, fingerId);
  }

  lemma FinishedView(u: Uart, start: nat, sensorReady: bool, fingerId: nat)
    ensures var out := StartEnrollment(u, NewSession(start), sensorReady, fingerId);
      out.s.time <= start + 651 && Finished(out.s.view, out.ok, fingerId)
  {
    if sensorReady {
      var s := NewSession(start);
      SamplesView(u, s, 1);
      var samples := Samples(u, s, 1);
      if samples.ok {
        SaveView(u, samples.s, fingerId);
      }
    }
  }

  // ---------- The view is that of the trace ----------

  ghost predicate Seen(s: Session) {
    s.view == Observe(s.trace)
  }

  lemma AfterSeen(s: Session, operations: nat, e: Event)
    requires Seen(s)
    ensures Seen(s.After(operations, e))
  {
    assert (s.trace + [e])[..|s.trace|] == s.trace;
  }

  lemma ExchangeSeen(u: Uart, s: Session, cmd: Byte, data: Bytes)
    requires Seen(s)
    ensures Seen(Exchange(u, s, cmd, data).1)
  {
    AfterSeen(s, 2, Asked(cmd, data, u.answers(s.Write(cmd, data))));
    AfterSeen(s, 1, WriteFailed(cmd));
  }

  lemma FlushedExchangeSeen(u: Uart, s: Session, cmd: Byte, data: Bytes)
    requires Seen(s)
    ensures Seen(s.Log(Flushed)) && Seen(Exchange(u, s.Log(Flushed), cmd, data).1)
  {
    AfterSeen(s, 0, Flushed);
    ExchangeSeen(u, s.Log(Flushed), cmd, data);
  }

  lemma {:induction false} DetectSeen(u: Uart, s: Session, attempt: nat)
    requires Seen(s)
    ensures Seen(DetectFinger(u, s, attempt).s)
    decreases MAX_FINGER_DETECT_ATTEMPTS - attempt
  {
    if attempt < MAX_FINGER_DETECT_ATTEMPTS {
      FlushedExchangeSeen(u, s, CMD_GET_IMAGE, []);
      DetectSeen(u, Exchange(u, s.Log(Flushed), CMD_GET_IMAGE, []).1, attempt + 1);
    }
  }

  lemma TwoExchangesSeen(u: Uart, s: Session, buffer: Byte)
    requires Seen(s)
    ensures Seen(CaptureAndGenerate(u, s, buffer).s) && Seen(TryGenerate(u, s, buffer).1)
  {
    ExchangeSeen(u, s, CMD_CAPTURE, []);
    ExchangeSeen(u, Exchange(u, s, CMD_CAPTURE, []).1, CMD_GEN_CHAR, [buffer]);
  }

  lemma {:induction false} RetrySeen(u: Uart, s: Session, buffer: Byte, attempt: nat, maxRetries: nat)
    requires Seen(s)
    ensures Seen(GenerateWithRetry(u, s, buffer, attempt, maxRetries).s)
    decreases maxRetries - attempt
  {
    if attempt < maxRetries {
      AfterSeen(s, 0, Progress(buffer as nat + 4));
      var s0 := if attempt > 0 then s.Log(Progress(buffer as nat + 4)) else s;
      TwoExchangesSeen(u, s0, buffer);
      RetrySeen(u, TryGenerate(u, s0, buffer).1, buffer, attempt + 1, maxRetries);
    }
  }

  lemma CheckSeen(u: Uart, s: Session, buffer: Byte)
    requires Seen(s)
    ensures Seen(CheckDuplicates(u, s, buffer).s)
  {
    ExchangeSeen(u, s, CMD_TEMPLATE_NUM, []);
    FlushedExchangeSeen(u, Exchange(u, s, CMD_TEMPLATE_NUM, []).1, CMD_SEARCH, SearchData(buffer));
  }

  lemma GenerateSampleSeen(u: Uart, s: Session, n: nat)
    requires 1 <= n <= 3 && Seen(s)
    ensures Seen(GenerateSample(u, s, n).s)
  {
    TwoExchangesSeen(u, s, n);
    RetrySeen(u, s, 3, 0, 3);
  }

  lemma StageWithFingerSeen(u: Uart, s: Session, n: nat)
    requires 1 <= n <= 3 && Seen(s)
    ensures Seen(StageWithFinger(u, s, n).s)
  {
    GenerateSampleSeen(u, s, n);
    var t := GenerateSample(u, s, n).s;
    AfterSeen(t, 0, Failed(NoTemplate(n)));
    CheckSeen(u, t, n);
    AfterSeen(CheckDuplicates(u, t, n).s, 0, Failed(DuplicateFound));
    AfterSeen(CheckDuplicates(u, t, n).s, 0, Progress(2 * n));
  }

  lemma StageSeen(u: Uart, s: Session, n: nat)
    requires 1 <= n <= 3 && Seen(s)
    ensures Seen(Stage(u, s, n).s)
  {
    AfterSeen(s, 0, Progress(2 * n - 1));
    DetectSeen(u, s.Log(Progress(2 * n - 1)), 0);
    var t := DetectFinger(u, s.Log(Progress(2 * n - 1)), 0).s;
    AfterSeen(t, 0, Failed(NoFinger(n)));
    StageWithFingerSeen(u, t, n);
  }

  lemma {:induction false} SamplesSeen(u: Uart, s: Session, n: nat)
    requires 1 <= n <= 4 && Seen(s)
    ensures Seen(Samples(u, s, n).s)
    decreases 4 - n
  {
    if n < 4 {
      StageSeen(u, s, n);
      SamplesSeen(u, Stage(u, s, n).s, n + 1);
    }
  }

  lemma SaveSeen(u: Uart, s: Session, fingerId: nat)
    requires Seen(s)
    ensures Seen(Save(u, s, fingerId).s)
  {
    AfterSeen(s, 1, WriteFailed(CMD_REG_MODEL));
    AfterSeen(s, 1, Wrote(CMD_REG_MODEL, []));
    ExchangeSeen(u, s.Write(CMD_REG_MODEL, []), CMD_STORE_CHAR, StoreData(fingerId));
    var stored := StoreToFlash(u, s, fingerId);
    AfterSeen(stored.s, 0, Complete(fingerId));
    AfterSeen(stored.s, 0, Failed(NotSaved));
  }

  lemma EnrollmentSeen(u: Uart, start: nat, sensorReady: bool, fingerId: nat)
    ensures Seen(StartEnrollment(u, NewSession(start), sensorReady, fingerId).s)
  {
    var s := NewSession(start);
    AfterSeen(s, 0, Failed(SensorNotReady));
    SamplesSeen(u, s, 1);
    SaveSeen(u, Samples(u, s, 1).s, fingerId);
  }

  /** For every sensor: the enrollment ends within 651 UART operations; it signals exactly one of Complete and Failed, as
      its last event, and Complete exactly when it returns true, which is exactly when all required steps happened in
      order; Store is never written before the steps in front of it; the stages announced count up from 1 to at most 6. */
  lemma EnrollmentOutcome(u: Uart, start: nat, sensorReady: bool, fingerId: nat)
    ensures
      var out := StartEnrollment(u, NewSession(start), sensorReady, fingerId);
      var w := Observe(out.s.trace);
      && out.s.time <= start + 651
      && w.ends == 1 && w.last.Some? && (w.last.value.Complete? || w.last.value.Failed?)
      && (out.ok <==> w.last == Some(Complete(fingerId)))
      && (out.ok <==> w.At(4, 2))
      && w.guarded
      && w.inOrder && w.announced <= 6 && (out.ok ==> w.announced == 6)
  {
    FinishedView(u, start, sensorReady, fingerId);
    EnrollmentSeen(u, start, sensorReady, fingerId);
  }

  // ---------- What the observer's state means for the trace ----------

  /** The place of a required step in their order. */
  function Rank(buffer: nat, phase: nat): nat {
    4 * buffer + phase
  }

  lemma {:induction false} ViewRange(trace: seq<Event>)
    ensures
      var v := Observe(trace);
      && 1 <= v.buffer <= 4 && v.phase <= (if v.buffer == 4 then 2 else 3)
      && (trace != [] ==> v.last == Some(trace[|trace| - 1]))
  {
    if trace != [] {
      ViewRange(trace[..|trace| - 1]);
    }
  }

  /** Each of the counted steps really is in the trace, after the ones before it. */
  lemma {:induction false} StepHappened(trace: seq<Event>, buffer: nat, phase: nat) returns (j: nat)
    requires 1 <= buffer <= 4 && phase <= (if buffer == 4 then 1 else 3)
    requires Rank(Observe(trace).buffer, Observe(trace).phase) > Rank(buffer, phase)
    ensures j < |trace| && Observe(trace[..j]).At(buffer, phase)
    ensures IsStep(buffer, phase, Observe(trace[..j]).last, trace[j])
  {
    var n := |trace| - 1;
    var v := Observe(trace[..n]);
    ViewRange(trace[..n]);
    if Rank(v.buffer, v.phase) > Rank(buffer, phase) {
      j := StepHappened(trace[..n], buffer, phase);
      assert trace[..n][..j] == trace[..j];
    } else {
      j := n;
    }
  }

  lemma {:induction false} GuardedStore(trace: seq<Event>, i: nat)
    requires Observe(trace).guarded && i < |trace|
    requires (trace[i].Asked? || trace[i].Wrote?) && trace[i].cmd == CMD_STORE_CHAR
    ensures Observe(trace[..i]).At(4, 1)
    ensures i > 0 && trace[i - 1] == Wrote(CMD_REG_MODEL, [])
  {
    var n := |trace| - 1;
    if i < n {
      GuardedStore(trace[..n], i);
      assert trace[..n][..i] == trace[..i];
    } else {
      ViewRange(trace[..i]);
    }
  }

  predicate TemplateGenerated(e: Event, buffer: Byte) {
    e.Asked? && e.cmd == 0x02 && e.data == [buffer] && e.answer.Some? && e.answer.value[0] == 0x00
  }

  predicate CheckPassed(e: Event, buffer: Byte) {
    && e.Asked? && e.answer.Some?
    && (|| (e.cmd == 0x1D && e.data == [] && e.answer.value[..3] == [0x00, 0x00, 0x00])
        || (e.cmd == 0x04 && e.data == [buffer, 0x00, 0x00, 0x00, 0x64] && e.answer.value[0] == 0x09))
  }

  /** Whenever Store is written in a guarded trace: RegModel was written just before it, and for each of the three
      buffers a template was generated with an OK reply and then a duplicate check of that buffer passed. */
  lemma StoreIsJustified(trace: seq<Event>, i: nat, buffer: Byte) returns (g: nat, c: nat)
    requires 1 <= buffer <= 3 && Observe(trace).guarded
    requires i < |trace| && (trace[i].Asked? || trace[i].Wrote?) && trace[i].cmd == CMD_STORE_CHAR
    ensures g < c < i - 1 && trace[i - 1] == Wrote(CMD_REG_MODEL, [])
    ensures TemplateGenerated(trace[g], buffer) && CheckPassed(trace[c], buffer)
  {
    GuardedStore(trace, i);
    var before := trace[..i];
    c := StepHappened(before, buffer, 3);
    assert before[..c] == trace[..c] && before[c] == trace[c];
    g := StepHappened(before[..c], buffer, 2);
    assert before[..c][g] == trace[g];
    assert c != i - 1;
  }

  // ---------- The methods ----------

  class FingerprintManager {
    const uart: Uart
    var sensorReady: bool
    var session: Session

    constructor (uart: Uart, sensorReady: bool)
      ensures this.uart == uart && this.sensorReady == sensorReady && session == NewSession(0)
    {
      this.uart := uart;
      this.sensorReady := sensorReady;
      session := NewSession(0);
    }

    /** sendCommand followed, when it succeeds, by receiveResponse. */
    method Ask(cmd: Byte, data: Bytes) returns (answer: Answer, sent: bool)
      modifies `session
      ensures sent == uart.accepts(old(session))
      ensures (answer, session) == Exchange(uart, old(session), cmd, data)
    {
      sent := uart.accepts(session);
      if sent {
        answer := uart.answers(session.Write(cmd, data));
        session := session.After(2, Asked(cmd, data, answer));
      } else {
        answer := None;
        session := session.After(1, WriteFailed(cmd));
      }
    }

    /** An event that is no UART operation: a signal or a flush. */
    method Signal(e: Event)
      modifies `session
      ensures session == old(session).Log(e)
    {
      session := session.Log(e);
    }

    method DetectFingerLoop() returns (ok: bool)
      modifies `session
      ensures Outcome(ok, session) == DetectFinger(uart, old(session), 0)
    {
      var attempt := 0;
      while attempt < MAX_FINGER_DETECT_ATTEMPTS
        invariant 0 <= attempt <= MAX_FINGER_DETECT_ATTEMPTS
        invariant DetectFinger(uart, old(session), 0) == DetectFinger(uart, session, attempt)
      {
        Signal(Flushed);
        var answer, sent := Ask(CMD_GET_IMAGE, []);
        if !sent {
          return false;
        }
        if IsOk(answer) {
          return true;
        }
        attempt := attempt + 1;
      }
      return false;
    }

    method CaptureAndGenerateChar(bufferID: Byte) returns (ok: bool)
      modifies `session
      ensures Outcome(ok, session) == CaptureAndGenerate(uart, old(session), bufferID)
    {
      var captured, _ := Ask(CMD_CAPTURE, []);
      if !IsOk(captured) {
        return false;
      }
      var generated, _ := Ask(CMD_GEN_CHAR, [bufferID]);
      return IsOk(generated);
    }

    method CaptureAndGenerateCharWithRetry(bufferID: Byte, maxRetries: nat) returns (ok: bool)
      modifies `session
      ensures Outcome(ok, session) == GenerateWithRetry(uart, old(session), bufferID, 0, maxRetries)
    {
      var attempt := 0;
      while attempt < maxRetries
        invariant 0 <= attempt <= maxRetries
        invariant GenerateWithRetry(uart, old(session), bufferID, 0, maxRetries)
               == GenerateWithRetry(uart, session, bufferID, attempt, maxRetries)
      {
        if attempt > 0 {
          Signal(Progress(bufferID as nat + 4));
        }
        var captured, _ := Ask(CMD_CAPTURE, []);
        if !IsOk(captured) {
          attempt := attempt + 1;
          continue;
        }
        var generated, _ := Ask(CMD_GEN_CHAR, [bufferID]);
        if generated == None {
          attempt := attempt + 1;
          continue;
        }
        if generated.value[0] == 0x00 {
          return true;
        } else if generated.value[0] == 0x01 {
          attempt := attempt + 1;
        } else {
          return false;
        }
      }
      return false;
    }

    method CheckForDuplicates(bufferID: Byte) returns (ok: bool)
      modifies `session
      ensures Outcome(ok, session) == CheckDuplicates(uart, old(session), bufferID)
    {
      var count, _ := Ask(CMD_TEMPLATE_NUM, []);
      if count.Some? && count.value[0] == 0x00 {
        var templateCount := count.value[1] as int * 256 + count.value[2];
        if templateCount == 0 {
          return true;
        }
      }
      Signal(Flushed);
      if !uart.isOpen(session) {
        return false;
      }
      var found, _ := Ask(CMD_SEARCH, [bufferID, 0x00, 0x00, 0x00, 0x64]);
      return found.Some? && found.value[0] == 0x09;
    }

    method Store(fingerId: nat) returns (ok: bool)
      modifies `session
      ensures Outcome(ok, session) == StoreToFlash(uart, old(session), fingerId)
    {
      if !uart.accepts(session) {
        session := session.After(1, WriteFailed(CMD_REG_MODEL));
        return false;
      }
      session := session.Write(CMD_REG_MODEL, []);
      var stored, _ := Ask(CMD_STORE_CHAR, [0x01, (fingerId / 256) % 256, fingerId % 256]);
      return IsOk(stored);
    }

    method EnrollmentStage(n: nat) returns (ok: bool)
      requires 1 <= n <= 3
      modifies `session
      ensures Outcome(ok, session) == Stage(uart, old(session), n)
    {
      Signal(Progress(2 * n - 1));
      var detected := DetectFingerLoop();
      if !detected {
        Signal(Failed(NoFinger(n)));
        return false;
      }
      ok := StageWithFingerOn(n);
    }

    method StageWithFingerOn(n: nat) returns (ok: bool)
      requires 1 <= n <= 3
      modifies `session
      ensures Outcome(ok, session) == StageWithFinger(uart, old(session), n)
    {
      var generated;
      if n < 3 {
        generated := CaptureAndGenerateChar(n);
      } else {
        generated := CaptureAndGenerateCharWithRetry(n, 3);
      }
      if !generated {
        Signal(Failed(NoTemplate(n)));
        return false;
      }
      var checked := CheckForDuplicates(n);
      if !checked {
        Signal(Failed(DuplicateFound));
        return false;
      }
      Signal(Progress(2 * n));
      return true;
    }

    /** A new enrollment: its own events, from the point in time the UART has reached. */
    method Enroll(fingerId: nat) returns (ok: bool)
      modifies `session
      ensures Outcome(ok, session) == StartEnrollment(uart, NewSession(old(session).time), sensorReady, fingerId)
    {
      session := NewSession(session.time);
      if !sensorReady {
        Signal(Failed(SensorNotReady));
        return false;
      }
      ok := EnrollmentStage(1);
      if !ok {
        return;
      }
      ok := EnrollmentStage(2);
      if !ok {
        return;
      }
      ok := EnrollmentStage(3);
      if !ok {
        return;
      }
      ok := Store(fingerId);
      Signal(if ok then Complete(fingerId) else Failed(NotSaved));
    }
  }
}
