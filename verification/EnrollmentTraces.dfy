/** What an enrollment leaves on the wire: how long it polls for a finger, which failures end it, and which id is stored
    (FingerprintManagerPrivate::detectFinger to storeToFlash), stated over the events alone. */
module EnrollmentTraces {
  import opened Enrollment
  import opened SensorFrames
  import opened Wrappers

  /** A reply whose confirmation code is 0x00. */
  predicate Confirms(answer: Answer) {
    answer.Some? && answer.value[0] == 0x00
  }

  /** The trace ends with these events. */
  predicate Ends(trace: seq<Event>, last: seq<Event>) {
    |last| <= |trace| && trace[|trace| - |last|..] == last
  }

  lemma EndsAfter(front: seq<Event>, last: seq<Event>)
    ensures Ends(front + last, last)
  {
  }

  // ---------- Polling for a finger ----------

  /** Polls with these answers: each is a flush and a GetImage. */
  function Polls(answers: seq<Answer>): seq<Event> {
    if answers == [] then [] else [Flushed, Asked(0x01, [], answers[0])] + Polls(answers[1..])
  }

  predicate NoneConfirms(answers: seq<Answer>) {
    forall i | 0 <= i < |answers| :: !Confirms(answers[i])
  }

  /** How a detection with `left` attempts ends: found after fewer polls than that without a finger; or given up after
      exactly that many, or when a command could not be written. */
  predicate Detection(ok: bool, left: int, answers: seq<Answer>, last: seq<Event>) {
    && NoneConfirms(answers) && |answers| <= left
    && if ok then
         |answers| < left && |last| == 2 && last[0] == Flushed
         && last[1].Asked? && last[1].cmd == 0x01 && last[1].data == [] && Confirms(last[1].answer)
       else if |answers| == left then last == []
       else last == [Flushed, WriteFailed(0x01)]
  }

  lemma OneMoreAnswer(ok: bool, left: nat, a: Answer, rest: seq<Answer>, last: seq<Event>, front: seq<Event>)
    requires Detection(ok, left, rest, last) && !Confirms(a)
    ensures Detection(ok, left + 1, [a] + rest, last)
    ensures front + [Flushed] + [Asked(0x01, [], a)] + Polls(rest) + last == front + Polls([a] + rest) + last
  {
    assert ([a] + rest)[1..] == rest;
    assert forall i | 1 <= i < |[a] + rest| :: ([a] + rest)[i] == rest[i - 1];
  }

  lemma {:induction false} DetectionTraceFrom(u: Uart, s: Session, attempt: nat)
    returns (answers: seq<Answer>, last: seq<Event>)
    requires attempt <= 100
    ensures
      var out := DetectFinger(u, s, attempt);
      out.s.trace == s.trace + Polls(answers) + last && Detection(out.ok, 100 - attempt, answers, last)
    decreases 100 - attempt
  {
    var (answer, t) := Exchange(u, s.Log(Flushed), CMD_GET_IMAGE, []);
    if attempt == 100 {
      answers, last := [], [];
    } else if !u.accepts(s.Log(Flushed)) {
      answers, last := [], [Flushed, WriteFailed(0x01)];
      assert t.trace == s.trace + last;
    } else if IsOk(answer) {
      answers, last := [], [Flushed, Asked(0x01, [], answer)];
      assert t.trace == s.trace + last;
    } else {
      var rest;
      rest, last := DetectionTraceFrom(u, t, attempt + 1);
      answers := [answer] + rest;
      OneMoreAnswer(DetectFinger(u, t, attempt + 1).ok, 99 - attempt, answer, rest, last, s.trace);
    }
  }

  /** Whatever the sensor does, a detection that fails has polled exactly 100 times without a reply that confirms a finger,
      or could not write a command; one that succeeds had such a reply in its last poll and none before. */
  lemma DetectionTrace(u: Uart, s: Session) returns (answers: seq<Answer>, last: seq<Event>)
    ensures
      var out := DetectFinger(u, s, 0);
      out.s.trace == s.trace + Polls(answers) + last && Detection(out.ok, 100, answers, last)
  {
    answers, last := DetectionTraceFrom(u, s, 0);
  }

  /** The session after k polls. */
  function Polled(u: Uart, s: Session, k: nat): Session {
    if k == 0 then s else Exchange(u, Polled(u, s, k - 1).Log(Flushed), 0x01, []).1
  }

  /** The next poll after k of them: whether its command is accepted, and what is read then. */
  predicate PollWritten(u: Uart, s: Session, k: nat) {
    u.accepts(Polled(u, s, k).Log(Flushed))
  }

  function PollAnswer(u: Uart, s: Session, k: nat): Answer {
    u.answers(Polled(u, s, k).Log(Flushed).Write(0x01, []))
  }

  /** The first k polls are written and confirm no finger. */
  predicate NoFingerIn(u: Uart, s: Session, k: nat) {
    forall i | 0 <= i < k :: PollWritten(u, s, i) && !Confirms(PollAnswer(u, s, i))
  }

  /** The first poll that confirms a finger comes after k others, all of them written. */
  predicate FingerAfter(u: Uart, s: Session, k: nat) {
    NoFingerIn(u, s, k) && PollWritten(u, s, k) && Confirms(PollAnswer(u, s, k))
  }

  /** What one more poll does. */
  lemma OnePoll(u: Uart, s: Session, attempt: nat)
    requires attempt < 100
    ensures
      var out := DetectFinger(u, Polled(u, s, attempt), attempt);
      if !PollWritten(u, s, attempt) then !out.ok
      else if Confirms(PollAnswer(u, s, attempt)) then out == Outcome(true, Polled(u, s, attempt + 1))
      else out == DetectFinger(u, Polled(u, s, attempt + 1), attempt + 1)
  {
    var before := Polled(u, s, attempt);
    assert Polled(u, s, attempt + 1) == Exchange(u, before.Log(Flushed), 0x01, []).1;
  }

  /** A sensor that confirms a finger after k other answers, k below 100, is polled k + 1 times, with success. */
  lemma FingerIsAwaited(u: Uart, s: Session, k: nat)
    requires k < 100 && FingerAfter(u, s, k)
    ensures DetectFinger(u, s, 0) == Outcome(true, Polled(u, s, k + 1))
  {
    AwaitedFrom(u, s, k, 0);
  }

  lemma {:induction false} AwaitedFrom(u: Uart, s: Session, k: nat, attempt: nat)
    requires attempt <= k < 100 && FingerAfter(u, s, k)
    ensures DetectFinger(u, Polled(u, s, attempt), attempt) == Outcome(true, Polled(u, s, k + 1))
    decreases k - attempt
  {
    OnePoll(u, s, attempt);
    assert PollWritten(u, s, attempt) && (Confirms(PollAnswer(u, s, attempt)) <==> attempt == k);
    if attempt < k {
      AwaitedFrom(u, s, k, attempt + 1);
    }
  }

  /** And detection succeeds for no other sensor. */
  lemma DetectsIff(u: Uart, s: Session)
    ensures DetectFinger(u, s, 0).ok <==> exists k: nat :: k < 100 && FingerAfter(u, s, k)
  {
    if DetectFinger(u, s, 0).ok {
      var k := ConfirmedAt(u, s, 0);
    }
    forall k: nat | k < 100 && FingerAfter(u, s, k) ensures DetectFinger(u, s, 0).ok {
      FingerIsAwaited(u, s, k);
    }
  }

  lemma {:induction false} ConfirmedAt(u: Uart, s: Session, attempt: nat) returns (k: nat)
    requires attempt <= 100 && DetectFinger(u, Polled(u, s, attempt), attempt).ok
    requires NoFingerIn(u, s, attempt)
    ensures k < 100 && FingerAfter(u, s, k)
    decreases 100 - attempt
  {
    assert attempt < 100;
    OnePoll(u, s, attempt);
    if Confirms(PollAnswer(u, s, attempt)) {
      k := attempt;
    } else {
      assert NoFingerIn(u, s, attempt + 1);
      k := ConfirmedAt(u, s, attempt + 1);
    }
  }

  // ---------- Why an enrollment fails ----------

  /** Capturing a finger and generating a template into a buffer failed: a command could not be written, or its reply
      was missing or did not confirm it. */
  predicate SampleFailed(last: seq<Event>, buffer: Byte) {
    || last == [WriteFailed(0x29)]
    || (|last| == 1 && last[0].Asked? && last[0] == Asked(0x29, [], last[0].answer) && !Confirms(last[0].answer))
    || (|last| == 2 && Captured(last[0]) && last[1] == WriteFailed(0x02))
    || (|last| == 2 && Captured(last[0]) && last[1].Asked? && last[1] == Asked(0x02, [buffer], last[1].answer)
        && !Confirms(last[1].answer))
  }

  predicate Captured(e: Event) {
    e.Asked? && e == Asked(0x29, [], e.answer) && Confirms(e.answer)
  }

  /** The sensor refused to generate with a code that allows no further attempt. */
  predicate Refused(last: seq<Event>, buffer: Byte) {
    && |last| == 2 && Captured(last[0]) && last[1].Asked? && last[1] == Asked(0x02, [buffer], last[1].answer)
    && last[1].answer.Some? && last[1].answer.value[0] != 0x00 && last[1].answer.value[0] != 0x01
  }

  /** A failed attempt that allows another one. */
  predicate Retryable(last: seq<Event>, buffer: Byte) {
    SampleFailed(last, buffer) && !Refused(last, buffer)
  }

  /** No finger came: 100 polls without one since the stage was announced, or a GetImage that could not be written. */
  ghost predicate NoFingerSeen(before: seq<Event>, n: nat) {
    n >= 1 && exists answers, last ::
      Detection(false, 100, answers, last) && Ends(before, [Progress(2 * n - 1)] + (Polls(answers) + last))
  }

  /** The third sample failed: three attempts with the retry notice between them, or a refusal. */
  ghost predicate ThirdSampleFailed(before: seq<Event>) {
    || (exists a, b, c ::
          && Retryable(a, 3) && Retryable(b, 3) && Retryable(c, 3)
          && Ends(before, a + [Progress(7)] + b + [Progress(7)] + c))
    || (exists a :: Refused(a, 3) && Ends(before, a))
  }

  /** The sensor did not say that it holds no template. */
  predicate NotEmpty(e: Event) {
    || e == WriteFailed(0x1D)
    || (e.Asked? && e == Asked(0x1D, [], e.answer)
        && !(Confirms(e.answer) && e.answer.value[1] == 0 && e.answer.value[2] == 0))
  }

  /** The check for duplicates failed: the sensor is not empty, and the port was closed, or the search could not be written
      or did not end with the code 0x09. */
  predicate CheckFailed(before: seq<Event>, n: Byte) {
    var k := |before|;
    || (k >= 2 && NotEmpty(before[k - 2]) && before[k - 1] == Flushed)
    || (k >= 3 && NotEmpty(before[k - 3]) && before[k - 2] == Flushed && before[k - 1] == WriteFailed(0x04))
    || (k >= 3 && NotEmpty(before[k - 3]) && before[k - 2] == Flushed
        && before[k - 1].Asked? && before[k - 1] == Asked(0x04, [n, 0x00, 0x00, 0x00, 0x64], before[k - 1].answer)
        && !(before[k - 1].answer.Some? && before[k - 1].answer.value[0] == 0x09))
  }

  /** Store with the finger id, high byte first. */
  predicate StoresId(e: Event, fingerId: nat) {
    && e.Asked? && e.cmd == 0x06 && |e.data| == 3 && e.data[0] == 0x01
    && 256 * e.data[1] as int + e.data[2] == fingerId % 0x10000
  }

  /** Saving failed: RegModel or Store could not be written, or Store was not confirmed. */
  predicate SavingFailed(before: seq<Event>, fingerId: nat) {
    || Ends(before, [WriteFailed(0x05)])
    || Ends(before, [Wrote(0x05, []), WriteFailed(0x06)])
    || (&& |before| >= 2 && before[|before| - 2] == Wrote(0x05, [])
        && StoresId(before[|before| - 1], fingerId) && !Confirms(before[|before| - 1].answer))
  }

  /** What must have happened for an enrollment to fail with this reason. */
  ghost predicate Justifies(before: seq<Event>, reason: Reason, sensorReady: bool, fingerId: nat) {
    match reason
    case SensorNotReady => !sensorReady && before == []
    case NoFinger(n) => 1 <= n <= 3 && NoFingerSeen(before, n)
    case NoTemplate(n) =>
      if n == 3 then ThirdSampleFailed(before)
      else 1 <= n <= 2 && exists a :: SampleFailed(a, n) && Ends(before, a)
    case DuplicateFound => exists n: Byte :: 1 <= n <= 3 && CheckFailed(before, n)
    case NotSaved => SavingFailed(before, fingerId)
  }

  /** The outcome is a success, or ends with a failure that is justified. */
  ghost predicate Fair(out: Outcome, sensorReady: bool, fingerId: nat) {
    out.ok ||
      var k := |out.s.trace| - 1;
      k >= 0 && out.s.trace[k].Failed? && Justifies(out.s.trace[..k], out.s.trace[k].reason, sensorReady, fingerId)
  }

  lemma LoggedIsFair(s: Session, reason: Reason, sensorReady: bool, fingerId: nat)
    requires Justifies(s.trace, reason, sensorReady, fingerId)
    ensures Fair(Outcome(false, s.Log(Failed(reason))), sensorReady, fingerId)
  {
    assert (s.trace + [Failed(reason)])[..|s.trace|] == s.trace;
  }

  lemma SampleTrace(u: Uart, s: Session, buffer: Byte) returns (last: seq<Event>)
    ensures
      var out := CaptureAndGenerate(u, s, buffer);
      out.s.trace == s.trace + last && (!out.ok ==> SampleFailed(last, buffer))
  {
    var (captured, s1) := Exchange(u, s, CMD_CAPTURE, []);
    last := CaptureAndGenerate(u, s, buffer).s.trace[|s.trace|..];
  }

  lemma AttemptTrace(u: Uart, s: Session, buffer: Byte) returns (last: seq<Event>)
    ensures
      var (result, t) := TryGenerate(u, s, buffer);
      && t.trace == s.trace + last
      && (result == TryAgain ==> Retryable(last, buffer)) && (result == GiveUp ==> Refused(last, buffer))
  {
    var (captured, s1) := Exchange(u, s, CMD_CAPTURE, []);
    last := TryGenerate(u, s, buffer).1.trace[|s.trace|..];
  }

  lemma NoFingerWitness(front: seq<Event>, n: nat, answers: seq<Answer>, last: seq<Event>, trace: seq<Event>)
    requires n >= 1 && Detection(false, 100, answers, last)
    requires trace == front + [Progress(2 * n - 1)] + Polls(answers) + last
    ensures NoFingerSeen(trace, n)
  {
    assert trace == front + ([Progress(2 * n - 1)] + (Polls(answers) + last));
    EndsAfter(front, [Progress(2 * n - 1)] + (Polls(answers) + last));
  }

  lemma DetectIsFair(u: Uart, s: Session, n: nat, fingerId: nat)
    requires 1 <= n <= 3
    ensures
      var out := DetectFinger(u, s.Log(Progress(2 * n - 1)), 0);
      out.ok || Fair(Outcome(false, out.s.Log(Failed(NoFinger(n)))), true, fingerId)
  {
    var announced := s.Log(Progress(2 * n - 1));
    var out := DetectFinger(u, announced, 0);
    if !out.ok {
      var answers, last := DetectionTrace(u, announced);
      NoFingerWitness(s.trace, n, answers, last, out.s.trace);
      LoggedIsFair(out.s, NoFinger(n), true, fingerId);
    }
  }

  lemma SampleIsFair(u: Uart, s: Session, n: nat, fingerId: nat)
    requires 1 <= n <= 2
    ensures
      var out := CaptureAndGenerate(u, s, n);
      out.ok || Fair(Outcome(false, out.s.Log(Failed(NoTemplate(n)))), true, fingerId)
  {
    var out := CaptureAndGenerate(u, s, n);
    if !out.ok {
      var last := SampleTrace(u, s, n);
      EndsAfter(s.trace, last);
      LoggedIsFair(out.s, NoTemplate(n), true, fingerId);
    }
  }

  /** The attempts of the third stage: three at most. */
  lemma RetryUnfolded(u: Uart, s: Session)
    ensures
      var (r1, t1) := TryGenerate(u, s, 3);
      var (r2, t2) := TryGenerate(u, t1.Log(Progress(7)), 3);
      var (r3, t3) := TryGenerate(u, t2.Log(Progress(7)), 3);
      GenerateWithRetry(u, s, 3, 0, 3) ==
      if r1 != TryAgain then Outcome(r1 == Generated, t1)
      else if r2 != TryAgain then Outcome(r2 == Generated, t2)
      else Outcome(r3 == Generated, t3)
  {
    var (r1, t1) := TryGenerate(u, s, 3);
    var (r2, t2) := TryGenerate(u, t1.Log(Progress(7)), 3);
    var (r3, t3) := TryGenerate(u, t2.Log(Progress(7)), 3);
    assert GenerateWithRetry(u, t3, 3, 3, 3) == Outcome(false, t3);
    assert GenerateWithRetry(u, t2, 3, 2, 3) == if r3 == TryAgain then Outcome(false, t3) else Outcome(r3 == Generated, t3);
  }

  lemma ThreeAttempts(front: seq<Event>, a: seq<Event>, b: seq<Event>, c: seq<Event>, trace: seq<Event>)
    requires Retryable(a, 3) && Retryable(b, 3) && Retryable(c, 3)
    requires trace == front + a + [Progress(7)] + b + [Progress(7)] + c
    ensures ThirdSampleFailed(trace)
  {
    assert trace == front + (a + [Progress(7)] + b + [Progress(7)] + c);
    EndsAfter(front, a + [Progress(7)] + b + [Progress(7)] + c);
  }

  /** An attempt that is refused ends it. */
  lemma RefusedAttempt(u: Uart, s: Session)
    ensures var (result, t) := TryGenerate(u, s, 3); result == GiveUp ==> ThirdSampleFailed(t.trace)
  {
    var a := AttemptTrace(u, s, 3);
    EndsAfter(s.trace, a);
  }

  lemma FailedAttempts(u: Uart, s: Session)
    ensures
      var (r1, t1) := TryGenerate(u, s, 3);
      var (r2, t2) := TryGenerate(u, t1.Log(Progress(7)), 3);
      var (r3, t3) := TryGenerate(u, t2.Log(Progress(7)), 3);
      r1 == r2 == r3 == TryAgain ==> ThirdSampleFailed(t3.trace)
  {
    var (r1, t1) := TryGenerate(u, s, 3);
    var (r2, t2) := TryGenerate(u, t1.Log(Progress(7)), 3);
    var (r3, t3) := TryGenerate(u, t2.Log(Progress(7)), 3);
    if r1 == r2 == r3 == TryAgain {
      var a := AttemptTrace(u, s, 3);
      var b := AttemptTrace(u, t1.Log(Progress(7)), 3);
      var c := AttemptTrace(u, t2.Log(Progress(7)), 3);
      ThreeAttempts(s.trace, a, b, c, t3.trace);
    }
  }

  lemma ThirdSampleTrace(u: Uart, s: Session)
    ensures var out := GenerateWithRetry(u, s, 3, 0, 3); out.ok || ThirdSampleFailed(out.s.trace)
  {
    var (r1, t1) := TryGenerate(u, s, 3);
    var (r2, t2) := TryGenerate(u, t1.Log(Progress(7)), 3);
    RetryUnfolded(u, s);
    RefusedAttempt(u, s);
    RefusedAttempt(u, t1.Log(Progress(7)));
    RefusedAttempt(u, t2.Log(Progress(7)));
    FailedAttempts(u, s);
  }

  lemma GenerateIsFair(u: Uart, s: Session, n: nat, fingerId: nat)
    requires 1 <= n <= 3
    ensures
      var out := GenerateSample(u, s, n);
      out.ok || Fair(Outcome(false, out.s.Log(Failed(NoTemplate(n)))), true, fingerId)
  {
    var out := GenerateSample(u, s, n);
    if n < 3 {
      SampleIsFair(u, s, n, fingerId);
    } else if !out.ok {
      ThirdSampleTrace(u, s);
      LoggedIsFair(out.s, NoTemplate(3), true, fingerId);
    }
  }

  lemma CheckTrace(u: Uart, s: Session, buffer: Byte)
    ensures var out := CheckDuplicates(u, s, buffer); out.ok || CheckFailed(out.s.trace, buffer)
  {
    var (count, s1) := Exchange(u, s, CMD_TEMPLATE_NUM, []);
    assert s1.trace == s.trace + [s1.trace[|s1.trace| - 1]];
    if !SaysEmpty(count) {
      assert NotEmpty(s1.trace[|s1.trace| - 1]);
    }
  }

  lemma CheckIsFair(u: Uart, s: Session, n: nat, fingerId: nat)
    requires 1 <= n <= 3
    ensures
      var out := CheckDuplicates(u, s, n);
      out.ok || Fair(Outcome(false, out.s.Log(Failed(DuplicateFound))), true, fingerId)
  {
    var out := CheckDuplicates(u, s, n);
    if !out.ok {
      CheckTrace(u, s, n);
      var buffer: Byte := n;
      assert CheckFailed(out.s.trace, buffer);
      LoggedIsFair(out.s, DuplicateFound, true, fingerId);
    }
  }

  lemma StageWithFingerIsFair(u: Uart, s: Session, n: nat, fingerId: nat)
    requires 1 <= n <= 3
    ensures Fair(StageWithFinger(u, s, n), true, fingerId)
  {
    GenerateIsFair(u, s, n, fingerId);
    CheckIsFair(u, GenerateSample(u, s, n).s, n, fingerId);
  }

  lemma StageIsFair(u: Uart, s: Session, n: nat, fingerId: nat)
    requires 1 <= n <= 3
    ensures Fair(Stage(u, s, n), true, fingerId)
  {
    DetectIsFair(u, s, n, fingerId);
    StageWithFingerIsFair(u, DetectFinger(u, s.Log(Progress(2 * n - 1)), 0).s, n, fingerId);
  }

  lemma {:induction false} SamplesAreFair(u: Uart, s: Session, n: nat, fingerId: nat)
    requires 1 <= n <= 4
    ensures Fair(Samples(u, s, n), true, fingerId)
    decreases 4 - n
  {
    if n < 4 {
      StageIsFair(u, s, n, fingerId);
      SamplesAreFair(u, Stage(u, s, n).s, n + 1, fingerId);
    }
  }

  lemma StoreTrace(u: Uart, s: Session, fingerId: nat)
    ensures
      var out := StoreToFlash(u, s, fingerId);
      var k := |out.s.trace|;
      if out.ok then
        && k >= 2 && out.s.trace[k - 2] == Wrote(0x05, [])
        && StoresId(out.s.trace[k - 1], fingerId) && Confirms(out.s.trace[k - 1].answer)
      else SavingFailed(out.s.trace, fingerId)
  {
    var written := s.Write(CMD_REG_MODEL, []);
    EndsAfter(s.trace, [WriteFailed(0x05)]);
    EndsAfter(s.trace, [Wrote(0x05, []), WriteFailed(0x06)]);
    assert written.trace + [WriteFailed(0x06)] == s.trace + [Wrote(0x05, []), WriteFailed(0x06)];
    IdBytes(fingerId);
  }

  lemma IdBytes(fingerId: nat)
    ensures 256 * StoreData(fingerId)[1] as int + StoreData(fingerId)[2] == fingerId % 0x10000
  {
  }

  lemma SaveIsFair(u: Uart, s: Session, fingerId: nat)
    ensures Fair(Save(u, s, fingerId), true, fingerId)
  {
    var stored := StoreToFlash(u, s, fingerId);
    StoreTrace(u, s, fingerId);
    if !stored.ok {
      LoggedIsFair(stored.s, NotSaved, true, fingerId);
    }
  }

  /** No enrollment fails without a reason on the wire: whatever the sensor does, a failure is signalled last and what its
      reason claims has just happened. */
  lemma FailureIsJustified(u: Uart, start: nat, sensorReady: bool, fingerId: nat)
    ensures Fair(StartEnrollment(u, NewSession(start), sensorReady, fingerId), sensorReady, fingerId)
  {
    var s := NewSession(start);
    if !sensorReady {
      LoggedIsFair(s, SensorNotReady, sensorReady, fingerId);
    } else {
      SamplesAreFair(u, s, 1, fingerId);
      SaveIsFair(u, Samples(u, s, 1).s, fingerId);
    }
  }

  /** The trace ends with RegModel, Store under the low 16 bits of this id, confirmed, and the signal of it. */
  predicate Saved(trace: seq<Event>, fingerId: nat) {
    var k := |trace|;
    && k >= 3 && trace[k - 3] == Wrote(0x05, [])
    && StoresId(trace[k - 2], fingerId) && Confirms(trace[k - 2].answer)
    && trace[k - 1] == Complete(fingerId)
  }

  lemma SaveTrace(u: Uart, s: Session, fingerId: nat)
    ensures var out := Save(u, s, fingerId); out.ok ==> Saved(out.s.trace, fingerId)
  {
    StoreTrace(u, s, fingerId);
    var stored := StoreToFlash(u, s, fingerId).s.trace;
    assert forall i | 0 <= i < |stored| :: (stored + [Complete(fingerId)])[i] == stored[i];
  }

  /** A complete enrollment has stored under the low 16 bits of the id it was started with, and says so. */
  lemma StoredIdIs(u: Uart, start: nat, sensorReady: bool, fingerId: nat)
    ensures
      var out := StartEnrollment(u, NewSession(start), sensorReady, fingerId);
      out.ok ==> Saved(out.s.trace, fingerId)
  {
    SaveTrace(u, Samples(u, NewSession(start), 1).s, fingerId);
  }
}
