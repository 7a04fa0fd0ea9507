/** Enrollment with a sensor whose replies wait in the UART until they are read or flushed: which reply decides that a
    finger is reported as saved (FingerprintManagerPrivate::vendorCheck and storeToFlash). */
module SensorReplies {
  import opened Enrollment
  import opened SensorFrames
  import opened Wrappers

  const RESPONSE_SIZE := 16

  /** The bytes of one reply; they fit the response buffer. */
  type Sent = b: Bytes | 1 <= |b| <= RESPONSE_SIZE witness [0]

  /** A sensor, any at all: on a command that was written, the last event of the trace, it sends one reply or none. */
  datatype Sensor = Sensor(
    accepts: seq<Event> -> bool, replies: seq<Event> -> Option<Sent>, isOpen: seq<Event> -> bool)

  function AsSeq(reply: Option<Sent>): seq<Sent> {
    if reply.Some? then [reply.value] else []
  }

  /** What one more event does to the waiting replies: a write appends what the sensor sends, a read takes the first
      one, a flush drops all. */
  function NextPending(x: Sensor, waiting: seq<Sent>, front: seq<Event>, e: Event): seq<Sent> {
    if e.Flushed? then []
    else if e.Wrote? then waiting + AsSeq(x.replies(front + [e]))
    else if e.Asked? then Rest(waiting + AsSeq(x.replies(front + [Wrote(e.cmd, e.data)])))
    else waiting
  }

  /** The replies that wait after these events, having started with the ones left over. */
  function Pending(x: Sensor, left: seq<Sent>, trace: seq<Event>): seq<Sent> {
    if trace == [] then left
    else
      var front := trace[..|trace| - 1];
      NextPending(x, Pending(x, left, front), front, trace[|trace| - 1])
  }

  function Rest(waiting: seq<Sent>): seq<Sent> {
    if waiting == [] then [] else waiting[1..]
  }

  /** What a read makes of the first waiting reply; without one it times out. */
  function First(waiting: seq<Sent>): Answer {
    if waiting == [] then None else Reply(waiting[0])
  }

  /** The UART in front of such a sensor. */
  function Queueing(x: Sensor, left: seq<Sent>): Uart {
    Uart((s: Session) => x.accepts(s.trace),
         (s: Session) => First(Pending(x, left, s.trace)),
         (s: Session) => x.isOpen(s.trace))
  }

  lemma PendingAfter(x: Sensor, left: seq<Sent>, trace: seq<Event>, e: Event)
    ensures Pending(x, left, trace + [e]) == NextPending(x, Pending(x, left, trace), trace, e)
  {
    assert (trace + [e])[..|trace|] == trace;
  }

  // ---------- Nothing waits before the finger is saved ----------

  predicate NothingWaits(x: Sensor, left: seq<Sent>, s: Session) {
    Pending(x, left, s.trace) == []
  }

  /** With nothing waiting, what a write brings is all there is, and a read takes it. */
  lemma OwnReplyWaits(x: Sensor, left: seq<Sent>, trace: seq<Event>, cmd: Byte, data: Bytes, answer: Answer)
    requires Pending(x, left, trace) == []
    ensures Pending(x, left, trace + [Wrote(cmd, data)]) == AsSeq(x.replies(trace + [Wrote(cmd, data)]))
    ensures Pending(x, left, trace + [Asked(cmd, data, answer)]) == []
    ensures Pending(x, left, trace + [WriteFailed(cmd)]) == []
  {
    PendingAfter(x, left, trace, Wrote(cmd, data));
    PendingAfter(x, left, trace, WriteFailed(cmd));
    PendingAfter(x, left, trace, Asked(cmd, data, answer));
    var sent := AsSeq(x.replies(trace + [Wrote(cmd, data)]));
    assert [] + sent == sent;
  }

  /** With nothing waiting, an exchange reads the reply to its own command and leaves nothing. */
  lemma OwnReply(x: Sensor, left: seq<Sent>, s: Session, cmd: Byte, data: Bytes)
    requires NothingWaits(x, left, s)
    ensures
      var (answer, t) := Exchange(Queueing(x, left), s, cmd, data);
      && NothingWaits(x, left, t)
      && (x.accepts(s.trace) ==> answer == First(AsSeq(x.replies(s.trace + [Wrote(cmd, data)]))))
  {
    OwnReplyWaits(x, left, s.trace, cmd, data, First(Pending(x, left, s.trace + [Wrote(cmd, data)])));
  }

  lemma QuietLog(x: Sensor, left: seq<Sent>, s: Session, e: Event)
    requires NothingWaits(x, left, s) && !e.Wrote? && !e.Asked?
    ensures NothingWaits(x, left, s.Log(e))
  {
    PendingAfter(x, left, s.trace, e);
  }

  lemma FlushDropsAll(x: Sensor, left: seq<Sent>, s: Session)
    ensures NothingWaits(x, left, s.Log(Flushed))
  {
    PendingAfter(x, left, s.trace, Flushed);
  }

  lemma {:induction false} NothingWaitsAfterDetect(x: Sensor, left: seq<Sent>, s: Session, attempt: nat)
    requires attempt < MAX_FINGER_DETECT_ATTEMPTS || NothingWaits(x, left, s)
    ensures NothingWaits(x, left, DetectFinger(Queueing(x, left), s, attempt).s)
    decreases MAX_FINGER_DETECT_ATTEMPTS - attempt
  {
    if attempt < MAX_FINGER_DETECT_ATTEMPTS {
      var u := Queueing(x, left);
      var (answer, t) := Exchange(u, s.Log(Flushed), CMD_GET_IMAGE, []);
      NothingWaitsAfterPoll(x, left, s);
      if u.accepts(s.Log(Flushed)) && !IsOk(answer) {
        NothingWaitsAfterDetect(x, left, t, attempt + 1);
      }
    }
  }

  lemma NothingWaitsAfterPoll(x: Sensor, left: seq<Sent>, s: Session)
    ensures NothingWaits(x, left, Exchange(Queueing(x, left), s.Log(Flushed), CMD_GET_IMAGE, []).1)
  {
    FlushDropsAll(x, left, s);
    OwnReply(x, left, s.Log(Flushed), CMD_GET_IMAGE, []);
  }

  lemma NothingWaitsAfterTwo(x: Sensor, left: seq<Sent>, s: Session, buffer: Byte)
    requires NothingWaits(x, left, s)
    ensures NothingWaits(x, left, CaptureAndGenerate(Queueing(x, left), s, buffer).s)
    ensures NothingWaits(x, left, TryGenerate(Queueing(x, left), s, buffer).1)
  {
    OwnReply(x, left, s, CMD_CAPTURE, []);
    OwnReply(x, left, Exchange(Queueing(x, left), s, CMD_CAPTURE, []).1, CMD_GEN_CHAR, [buffer]);
  }

  lemma {:induction false} NothingWaitsAfterRetry(
      x: Sensor, left: seq<Sent>, s: Session, buffer: Byte, attempt: nat, maxRetries: nat)
    requires NothingWaits(x, left, s)
    ensures NothingWaits(x, left, GenerateWithRetry(Queueing(x, left), s, buffer, attempt, maxRetries).s)
    decreases maxRetries - attempt
  {
    if attempt < maxRetries {
      QuietLog(x, left, s, Progress(buffer as nat + 4));
      var s0 := if attempt > 0 then s.Log(Progress(buffer as nat + 4)) else s;
      NothingWaitsAfterTwo(x, left, s0, buffer);
      NothingWaitsAfterRetry(x, left, TryGenerate(Queueing(x, left), s0, buffer).1, buffer, attempt + 1, maxRetries);
    }
  }

  lemma NothingWaitsAfterCheck(x: Sensor, left: seq<Sent>, s: Session, buffer: Byte)
    requires NothingWaits(x, left, s)
    ensures NothingWaits(x, left, CheckDuplicates(Queueing(x, left), s, buffer).s)
  {
    OwnReply(x, left, s, CMD_TEMPLATE_NUM, []);
    var t := Exchange(Queueing(x, left), s, CMD_TEMPLATE_NUM, []).1;
    FlushDropsAll(x, left, t);
    OwnReply(x, left, t.Log(Flushed), CMD_SEARCH, SearchData(buffer));
  }

  lemma NothingWaitsAfterSample(x: Sensor, left: seq<Sent>, s: Session, n: nat)
    requires 1 <= n <= 3 && NothingWaits(x, left, s)
    ensures NothingWaits(x, left, GenerateSample(Queueing(x, left), s, n).s)
  {
    NothingWaitsAfterTwo(x, left, s, n);
    NothingWaitsAfterRetry(x, left, s, 3, 0, 3);
  }

  lemma NothingWaitsWithFinger(x: Sensor, left: seq<Sent>, s: Session, n: nat)
    requires 1 <= n <= 3 && NothingWaits(x, left, s)
    ensures NothingWaits(x, left, StageWithFinger(Queueing(x, left), s, n).s)
  {
    NothingWaitsAfterSample(x, left, s, n);
    var t := GenerateSample(Queueing(x, left), s, n).s;
    QuietLog(x, left, t, Failed(NoTemplate(n)));
    NothingWaitsAfterCheck(x, left, t, n);
    var r := CheckDuplicates(Queueing(x, left), t, n).s;
    QuietLog(x, left, r, Failed(DuplicateFound));
    QuietLog(x, left, r, Progress(2 * n));
  }

  lemma NothingWaitsAfterStage(x: Sensor, left: seq<Sent>, s: Session, n: nat)
    requires 1 <= n <= 3
    ensures NothingWaits(x, left, Stage(Queueing(x, left), s, n).s)
  {
    NothingWaitsAfterDetect(x, left, s.Log(Progress(2 * n - 1)), 0);
    var t := DetectFinger(Queueing(x, left), s.Log(Progress(2 * n - 1)), 0).s;
    QuietLog(x, left, t, Failed(NoFinger(n)));
    NothingWaitsWithFinger(x, left, t, n);
  }

  /** Whatever was left over, nothing waits when the three samples are there. */
  lemma {:induction false} NothingWaitsAfterSamples(x: Sensor, left: seq<Sent>, s: Session, n: nat)
    requires 1 <= n <= 4 && (n < 4 || NothingWaits(x, left, s))
    ensures NothingWaits(x, left, Samples(Queueing(x, left), s, n).s)
    decreases 4 - n
  {
    if n < 4 {
      NothingWaitsAfterStage(x, left, s, n);
      NothingWaitsAfterSamples(x, left, Stage(Queueing(x, left), s, n).s, n + 1);
    }
  }

  // ---------- The verdict ----------

  /** What is read after RegModel and Store, given the replies to them. */
  function Verdict(regModel: Option<Sent>, store: Option<Sent>): Answer {
    First(AsSeq(regModel) + AsSeq(store))
  }

  lemma SaveVerdict(x: Sensor, left: seq<Sent>, s: Session, fingerId: nat)
    requires NothingWaits(x, left, s)
    ensures
      var written := s.trace + [Wrote(CMD_REG_MODEL, [])];
      Save(Queueing(x, left), s, fingerId).ok <==>
      && x.accepts(s.trace) && x.accepts(written)
      && IsOk(Verdict(x.replies(written), x.replies(written + [Wrote(CMD_STORE_CHAR, StoreData(fingerId))])))
  {
    var written := s.trace + [Wrote(CMD_REG_MODEL, [])];
    PendingAfter(x, left, s.trace, Wrote(CMD_REG_MODEL, []));
    PendingAfter(x, left, written, Wrote(CMD_STORE_CHAR, StoreData(fingerId)));
    var sent := AsSeq(x.replies(written));
    assert [] + sent == sent;
  }

  /** For every sensor and whatever was left over: the enrollment succeeds exactly when the samples are there, both
      commands could be written, and the first reply to either of them says OK. */
  lemma EnrollmentVerdict(x: Sensor, left: seq<Sent>, start: nat, fingerId: nat)
    ensures
      var u, s := Queueing(x, left), NewSession(start);
      var samples := Samples(u, s, 1);
      var written := samples.s.trace + [Wrote(CMD_REG_MODEL, [])];
      StartEnrollment(u, s, true, fingerId).ok <==>
      && samples.ok && x.accepts(samples.s.trace) && x.accepts(written)
      && IsOk(Verdict(x.replies(written), x.replies(written + [Wrote(CMD_STORE_CHAR, StoreData(fingerId))])))
  {
    var s := NewSession(start);
    NothingWaitsAfterSamples(x, left, s, 1);
    SaveVerdict(x, left, Samples(Queueing(x, left), s, 1).s, fingerId);
  }

  /** The reply of a sensor that says OK with two zero bytes. */
  const OK_EMPTY: Bytes := CommandPacket(0, [0, 0])

  lemma OkEmpty()
    ensures |OK_EMPTY| == 14 && SaysEmpty(Reply(OK_EMPTY)) && IsOk(Reply(OK_EMPTY))
  {
    FramingRoundTrip([], 0, [0, 0]);
    assert [] + OK_EMPTY == OK_EMPTY;
  }

  /** The verdict is what the sensor says to Store, whatever it says, if and only if it leaves RegModel unanswered. */
  lemma VerdictIsStoresIff(regModel: Option<Sent>)
    ensures (forall store: Option<Sent> :: Verdict(regModel, store) == First(AsSeq(store))) <==> regModel.None?
  {
    OkEmpty();
    var ok: Sent := OK_EMPTY;
    if regModel.None? {
      forall store: Option<Sent> ensures Verdict(regModel, store) == First(AsSeq(store)) {
        assert [] + AsSeq(store) == AsSeq(store);
      }
    } else {
      assert Verdict(regModel, None) == Verdict(regModel, Some(ok)) == Reply(regModel.value);
      assert First(AsSeq(None)) == None && First(AsSeq(Some(ok))).Some?;
    }
  }

  // ---------- A sensor that says yes to everything else ----------

  function Obliging(regModel: Option<Sent>, store: Option<Sent>): Sensor {
    Sensor(_ => true, (trace: seq<Event>) => ObligingReply(trace, regModel, store), _ => true)
  }

  function ObligingReply(trace: seq<Event>, regModel: Option<Sent>, store: Option<Sent>): Option<Sent> {
    OkEmpty();
    if trace == [] || !trace[|trace| - 1].Wrote? then None
    else if trace[|trace| - 1].cmd == CMD_REG_MODEL then regModel
    else if trace[|trace| - 1].cmd == CMD_STORE_CHAR then store
    else Some(OK_EMPTY)
  }

  lemma ObligingExchange(regModel: Option<Sent>, store: Option<Sent>, left: seq<Sent>, s: Session, cmd: Byte, data: Bytes)
    requires NothingWaits(Obliging(regModel, store), left, s) && cmd != CMD_REG_MODEL && cmd != CMD_STORE_CHAR
    ensures
      var x := Obliging(regModel, store);
      var (answer, t) := Exchange(Queueing(x, left), s, cmd, data);
      NothingWaits(x, left, t) && IsOk(answer) && SaysEmpty(answer)
  {
    OkEmpty();
    OwnReply(Obliging(regModel, store), left, s, cmd, data);
  }

  lemma ObligingSample(regModel: Option<Sent>, store: Option<Sent>, left: seq<Sent>, s: Session, n: nat)
    requires NothingWaits(Obliging(regModel, store), left, s) && 1 <= n <= 3
    ensures
      var x := Obliging(regModel, store);
      var out := GenerateSample(Queueing(x, left), s, n);
      out.ok && NothingWaits(x, left, out.s)
  {
    if n < 3 {
      ObligingCapture(regModel, store, left, s, n);
    } else {
      ObligingAttempt(regModel, store, left, s);
    }
  }

  lemma ObligingCapture(regModel: Option<Sent>, store: Option<Sent>, left: seq<Sent>, s: Session, n: Byte)
    requires NothingWaits(Obliging(regModel, store), left, s)
    ensures
      var x := Obliging(regModel, store);
      var out := CaptureAndGenerate(Queueing(x, left), s, n);
      out.ok && NothingWaits(x, left, out.s)
  {
    var u := Queueing(Obliging(regModel, store), left);
    ObligingExchange(regModel, store, left, s, CMD_CAPTURE, []);
    ObligingExchange(regModel, store, left, Exchange(u, s, CMD_CAPTURE, []).1, CMD_GEN_CHAR, [n]);
  }

  lemma ObligingAttempt(regModel: Option<Sent>, store: Option<Sent>, left: seq<Sent>, s: Session)
    requires NothingWaits(Obliging(regModel, store), left, s)
    ensures
      var x := Obliging(regModel, store);
      var (result, t) := TryGenerate(Queueing(x, left), s, 3);
      result == Generated && NothingWaits(x, left, t)
  {
    var u := Queueing(Obliging(regModel, store), left);
    ObligingExchange(regModel, store, left, s, CMD_CAPTURE, []);
    ObligingExchange(regModel, store, left, Exchange(u, s, CMD_CAPTURE, []).1, CMD_GEN_CHAR, [3]);
  }

  lemma ObligingFinger(regModel: Option<Sent>, store: Option<Sent>, left: seq<Sent>, s: Session)
    ensures
      var x := Obliging(regModel, store);
      var out := DetectFinger(Queueing(x, left), s, 0);
      out.ok && NothingWaits(x, left, out.s)
  {
    FlushDropsAll(Obliging(regModel, store), left, s);
    ObligingExchange(regModel, store, left, s.Log(Flushed), CMD_GET_IMAGE, []);
  }

  lemma ObligingStage(regModel: Option<Sent>, store: Option<Sent>, left: seq<Sent>, s: Session, n: nat)
    requires 1 <= n <= 3
    ensures Stage(Queueing(Obliging(regModel, store), left), s, n).ok
  {
    var u := Queueing(Obliging(regModel, store), left);
    ObligingFinger(regModel, store, left, s.Log(Progress(2 * n - 1)));
    var t := DetectFinger(u, s.Log(Progress(2 * n - 1)), 0).s;
    ObligingSample(regModel, store, left, t, n);
    ObligingExchange(regModel, store, left, GenerateSample(u, t, n).s, CMD_TEMPLATE_NUM, []);
  }

  lemma {:induction false} ObligingSamples(regModel: Option<Sent>, store: Option<Sent>, left: seq<Sent>, s: Session, n: nat)
    requires 1 <= n <= 4
    ensures Samples(Queueing(Obliging(regModel, store), left), s, n).ok
    decreases 4 - n
  {
    if n < 4 {
      ObligingStage(regModel, store, left, s, n);
      ObligingSamples(regModel, store, left, Stage(Queueing(Obliging(regModel, store), left), s, n).s, n + 1);
    }
  }

  /** With such a sensor the replies to RegModel and Store alone decide. */
  lemma ObligingEnrollment(regModel: Option<Sent>, store: Option<Sent>, left: seq<Sent>, start: nat, fingerId: nat)
    ensures
      StartEnrollment(Queueing(Obliging(regModel, store), left), NewSession(start), true, fingerId).ok
      <==> IsOk(Verdict(regModel, store))
  {
    ObligingSamples(regModel, store, left, NewSession(start), 1);
    EnrollmentVerdict(Obliging(regModel, store), left, start, fingerId);
  }

  /** Inputs that show the failure: a sensor that refuses Store, in whatever words, and an enrollment that is
      complete; and a sensor that stores and says so, and an enrollment that failed. */
  lemma RefusedStoreCompletes(refusal: Sent, left: seq<Sent>, start: nat, fingerId: nat)
    ensures
      exists regModel: Sent ::
        StartEnrollment(Queueing(Obliging(Some(regModel), Some(refusal)), left), NewSession(start), true, fingerId).ok
  {
    OkEmpty();
    var ok: Sent := OK_EMPTY;
    ObligingEnrollment(Some(ok), Some(refusal), left, start, fingerId);
    assert StartEnrollment(Queueing(Obliging(Some(ok), Some(refusal)), left), NewSession(start), true, fingerId).ok;
  }

  lemma StoredFingerFails(regModel: Sent, store: Sent, left: seq<Sent>, start: nat, fingerId: nat)
    requires IsOk(Reply(store)) && !IsOk(Reply(regModel))
    ensures !StartEnrollment(Queueing(Obliging(Some(regModel), Some(store)), left), NewSession(start), true, fingerId).ok
  {
    ObligingEnrollment(Some(regModel), Some(store), left, start, fingerId);
  }
}
