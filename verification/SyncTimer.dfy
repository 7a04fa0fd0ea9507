/** The timer that retries offline uploads: started when a person becomes pending, stopped when nothing is pending
    (sendCroppedImageToServer, onEventDrivenSyncTimeout and triggerManualSync of DB/RegisteredFacesDB.cpp). */
module SyncTimer {
  import opened Wrappers
  import opened PersonStore
  import opened StoreAgreement
  import opened UploadSync
  import PersonEffects

  /** m_syncTimerActive, and whether m_offlineSyncTimer was ever created. */
  datatype State = State(store: Store, timerActive: bool, timerCreated: bool)

  function StartTimer(st: State): State {
    if st.timerActive then st else st.(timerActive := true, timerCreated := true)
  }

  function StopTimer(st: State): State {
    if !st.timerActive || !st.timerCreated then st else st.(timerActive := false)
  }

  /** getPendingUploadRecords: a failed SELECT reads as no records. */
  function Selected(st: State, selectOk: bool): seq<string> {
    if selectOk then PendingUuids(st.store.table) else []
  }

  /** findUuidByEmployeeId: the list first, then the table; "" when there is no such employee. */
  function UuidOf(s: Store, employeeId: string, selectOk: bool): string {
    var k := FindIdcard(s.persons, employeeId);
    if k < |s.persons| then s.persons[k].cols.uuid
    else
      var j := SelectIdcard(s.table, employeeId);
      if selectOk && j < |s.table| then s.table[j].cols.uuid else ""
  }

  datatype SendWorld = SendWorld(
    selectOk: bool, pictureOk: bool, networkUp: bool, serverUp: bool, reply: ServerReply, writeOk: bool)

  datatype TickWorld = TickWorld(
    select1: bool, network1: bool, network2: bool, select2: bool, attempts: World, select3: bool)

  datatype Op =
    | Send(employeeId: string, send: SendWorld)
    | Tick(tick: TickWorld)
    | Manual(selectOk: bool)

  /** sendCroppedImageToServer. */
  function SendStep(st: State, employeeId: string, w: SendWorld): (State, bool) {
    var uuid := UuidOf(st.store, employeeId, w.selectOk);
    if uuid == "" || !w.pictureOk then (st, false)
    else if w.networkUp && w.serverUp && w.reply == Accepted then
      (if w.writeOk then st.(store := UploadStatusStep(st.store, uuid, 1)) else st, true)
    else if w.writeOk then (StartTimer(st.(store := UploadStatusStep(st.store, uuid, 0))), true)
    else (st, false)
  }

  /** syncPendingRecordsToServer. */
  function Synchronise(s: State, w: TickWorld): (State, bool) {
    if !w.network2 then (s, false)
    else
      var uuids := Selected(s, w.select2);
      if uuids == [] then (s, true)
      else
        var (t, tally) := SyncRecords(s.store, uuids, w.attempts);
        (s.(store := t), tally.success > 0)
  }

  /** onEventDrivenSyncTimeout; it fires only while the timer runs. */
  function TickStep(st: State, w: TickWorld): State {
    if !st.timerActive then st
    else if Selected(st, w.select1) == [] then StopTimer(st)
    else if !w.network1 then st
    else
      var (synced, ok) := Synchronise(st, w);
      if ok && Selected(synced, w.select3) == [] then StopTimer(synced) else synced
  }

  /** triggerManualSync. */
  function ManualStep(st: State, selectOk: bool): State {
    if Selected(st, selectOk) == [] then st else StartTimer(st)
  }

  function Step(st: State, op: Op): State {
    match op
    case Send(employeeId, w) => SendStep(st, employeeId, w).0
    case Tick(w) => TickStep(st, w)
    case Manual(selectOk) => ManualStep(st, selectOk)
  }

  function Run(st: State, ops: seq<Op>): State
    decreases |ops|
  {
    if ops == [] then st else Step(Run(st, ops[..|ops| - 1]), ops[|ops| - 1])
  }

  /** Nobody is forgotten: while a record is pending the timer runs. */
  ghost predicate Watched(st: State) {
    && (PendingUuids(st.store.table) != [] ==> st.timerActive)
    && (st.timerActive ==> st.timerCreated)
  }

  /** The successes of a pass over the pending records, and what it leaves pending. */
  function Successes(st: State, w: TickWorld): nat {
    SyncPass(st.store, w.attempts).1.success
  }

  function PendingAfter(st: State, w: TickWorld): seq<string> {
    PendingUuids(SyncPass(st.store, w.attempts).0.table)
  }

  /** What a tick needs: it must be able to see the pending records when it looks for work, and again when it is about to
      stop: after a synchronisation that uploaded some and left some, or that could not see any record. */
  ghost predicate Sees(st: State, w: TickWorld) {
    || !st.timerActive
    || PendingUuids(st.store.table) == []
    || (&& w.select1
        && (|| w.select3
            || !w.network1 || !w.network2
            || (w.select2 && (Successes(st, w) == 0 || PendingAfter(st, w) == []))))
  }

  lemma UploadedAddsNone(table: seq<Row>, uuid: string)
    ensures
      var t := UpdateRows(table, uuid, (r: Row) => r.(uploadStatus := Some(1)));
      PendingUuids(table) == [] ==> PendingUuids(t) == []
  {
    var t := UpdateRows(table, uuid, (r: Row) => r.(uploadStatus := Some(1)));
    NonePending(table);
    NonePending(t);
  }

  lemma SendKeepsWatch(st: State, employeeId: string, w: SendWorld)
    requires Watched(st)
    ensures Watched(SendStep(st, employeeId, w).0)
  {
    UploadedAddsNone(st.store.table, UuidOf(st.store, employeeId, w.selectOk));
  }

  lemma TickKeepsWatchIff(st: State, w: TickWorld)
    requires Watched(st)
    ensures Watched(TickStep(st, w)) <==> Sees(st, w)
  {
  }

  /** One operation, whatever it meets, keeps every pending record watched exactly when it is not a tick that cannot see
      the pending records. */
  lemma StepKeepsWatchIff(st: State, op: Op)
    requires Watched(st)
    ensures Watched(Step(st, op)) <==> (op.Tick? ==> Sees(st, op.tick))
  {
    match op
    case Send(employeeId, w) => SendKeepsWatch(st, employeeId, w);
    case Tick(w) => TickKeepsWatchIff(st, w);
    case Manual(_) =>
  }

  /** The SELECTs of every tick succeed. */
  ghost predicate SelectsSucceed(ops: seq<Op>) {
    forall i | 0 <= i < |ops| && ops[i].Tick? :: ops[i].tick.select1 && ops[i].tick.select3
  }

  /** Over every run that starts with nothing pending, whatever happens to writes, pictures, the network and the server: a
      pending record implies a running timer, as long as the ticks can read the table. */
  lemma {:induction false} RunKeepsWatch(st: State, ops: seq<Op>)
    requires Watched(st) && SelectsSucceed(ops)
    ensures Watched(Run(st, ops))
    decreases |ops|
  {
    if ops != [] {
      var n := |ops| - 1;
      RunKeepsWatch(st, ops[..n]);
      StepKeepsWatchIff(Run(st, ops[..n]), ops[n]);
    }
  }

  /** A tick that can read the table stops the timer exactly when nothing was pending, or a synchronisation uploaded some
      and left nothing pending. */
  lemma TickStopsIff(st: State, w: TickWorld)
    requires st.timerActive && st.timerCreated && w.select1 && w.select2 && w.select3
    ensures
      !TickStep(st, w).timerActive <==>
      || PendingUuids(st.store.table) == []
      || (w.network1 && w.network2 && Successes(st, w) > 0 && PendingAfter(st, w) == [])
    ensures !TickStep(st, w).timerActive ==> PendingUuids(TickStep(st, w).store.table) == []
  {
  }

  /** A tick passes over the store exactly when it fires, sees pending records twice and finds the network up twice; else
      it leaves the store alone. */
  lemma TickSynchronisesIff(st: State, w: TickWorld)
    ensures
      var works := st.timerActive && w.select1 && w.network1 && w.network2 && w.select2;
      Step(st, Tick(w)).store == if works then SyncPass(st.store, w.attempts).0 else st.store
  {
  }

  /** A manual trigger starts the timer exactly when it sees pending records, and does nothing else. */
  lemma ManualStarts(st: State, selectOk: bool)
    ensures
      var t, sees := Step(st, Manual(selectOk)), selectOk && PendingUuids(st.store.table) != [];
      t.store == st.store && (t.timerActive <==> st.timerActive || sees)
      && (!sees ==> t == st) && (t.timerActive && !st.timerActive ==> t.timerCreated)
  {
  }

  ghost predicate AllGood(w: TickWorld) {
    && w.select1 && w.select2 && w.select3 && w.network1 && w.network2
    && forall u :: w.attempts(u) == Attempt(true, true, true, Accepted, true)
  }

  /** With the network up and everything accepted and written, one tick empties the pending set and stops the timer
      exactly when the list said "pending" of every pending record. */
  lemma GoodTickEmptiesIff(st: State, w: TickWorld)
    requires UniqueUuids(st.store.table) && st.timerActive && st.timerCreated && AllGood(w)
    ensures
      var t := TickStep(st, w);
      && (PendingUuids(t.store.table) == [] <==> StatusesAgree(st.store))
      && (!t.timerActive <==> StatusesAgree(st.store))
  {
    NonePending(st.store.table);
    PassEmptiesIff(st.store, w.attempts);
    AllWritesSucceed(st.store, w.attempts);
    var (t, tally) := SyncPass(st.store, w.attempts);
    if PendingUuids(st.store.table) != [] {
      assert Synchronise(st, w).0.store == t;
      if PendingUuids(t.table) == [] {
        assert tally.success > 0;
      }
    }
  }

  // ---------- What a send leaves ----------

  /** The server got the person. */
  predicate Received(w: SendWorld) {
    w.networkUp && w.serverUp && w.reply == Accepted
  }

  /** The k-th person is the first one with this employee id. */
  predicate IsEmployee(s: Store, employeeId: string, k: int) {
    && 0 <= k < |s.persons| == |s.table| && s.persons[k].cols.idcard == employeeId
    && forall i | 0 <= i < k :: s.persons[i].cols.idcard != employeeId
  }

  lemma EmployeeFound(s: Store, employeeId: string, k: int, selectOk: bool)
    requires IsEmployee(s, employeeId, k) && Valid(s)
    ensures UuidOf(s, employeeId, selectOk) == s.persons[k].cols.uuid
    ensures PersonEffects.Holds(s, s.persons[k].cols.uuid, s.persons[k], s.table[k])
  {
    var uuid := s.persons[k].cols.uuid;
    SameUuids(s, k);
    PersonEffects.FoundOnBothSides(s, uuid);
  }

  lemma PendingIsListed(s: Store, uuid: string)
    requires UniqueUuids(s.table) && PersonEffects.RowOf(s, uuid).Some?
    ensures uuid in PendingUuids(s.table) <==> PersonEffects.RowOf(s, uuid).value.uploadStatus == Some(0)
  {
    PendingUuidsAre(s.table);
    var k := SelectUuid(s.table, uuid);
    assert forall i | 0 <= i < |s.table| && s.table[i].cols.uuid == uuid :: i == k;
  }

  lemma StatusOutcome(s: Store, uuid: string, v: int, p: Person, r: Row)
    requires Valid(s) && PersonEffects.Holds(s, uuid, p, r)
    ensures
      var t := UploadStatusStep(s, uuid, v);
      && PersonEffects.Holds(t, uuid, p.(uploadStatus := v), r.(uploadStatus := Some(v)))
      && PersonEffects.OthersStay(s, t, uuid) && Valid(t)
      && (uuid in PendingUuids(t.table) <==> v == 0)
  {
    PersonEffects.StatusIsFound(s, uuid, v, p, r);
    UploadStatusKeepsValid(s, uuid, v);
    PendingIsListed(UploadStatusStep(s, uuid, v), uuid);
  }

  lemma SendIsWrite(st: State, employeeId: string, w: SendWorld)
    requires UuidOf(st.store, employeeId, w.selectOk) != "" && w.pictureOk && w.writeOk
    ensures
      var (t, ok) := SendStep(st, employeeId, w);
      && ok
      && t.store == UploadStatusStep(st.store, UuidOf(st.store, employeeId, w.selectOk), if Received(w) then 1 else 0)
      && (t.timerActive <==> st.timerActive || !Received(w))
  {
  }

  /** A send whose statement succeeds leaves exactly the person with this employee id changed: uploaded when the server
      got it, and else pending, listed among the pending records, with the timer running. */
  lemma SendOutcome(st: State, employeeId: string, w: SendWorld, k: int)
    requires Valid(st.store) && IsEmployee(st.store, employeeId, k) && st.store.persons[k].cols.uuid != ""
    requires w.pictureOk && w.writeOk
    ensures
      var (t, ok) := SendStep(st, employeeId, w);
      var p, r, v := st.store.persons[k], st.store.table[k], if Received(w) then 1 else 0;
      && ok
      && PersonEffects.Holds(t.store, p.cols.uuid, p.(uploadStatus := v), r.(uploadStatus := Some(v)))
      && PersonEffects.OthersStay(st.store, t.store, p.cols.uuid)
      && (p.cols.uuid in PendingUuids(t.store.table) <==> !Received(w))
      && (Received(w) ==> t.timerActive == st.timerActive)
      && (!Received(w) ==> t.timerActive) && Valid(t.store)
  {
    var p := st.store.persons[k];
    EmployeeFound(st.store, employeeId, k, w.selectOk);
    SendIsWrite(st, employeeId, w);
    StatusOutcome(st.store, p.cols.uuid, if Received(w) then 1 else 0, p, st.store.table[k]);
  }

  /** An employee who is not in the list is looked for in the table. */
  lemma SendFromTable(st: State, employeeId: string, w: SendWorld, j: nat)
    requires UniqueUuids(st.store.table) && w.selectOk && w.pictureOk && w.writeOk
    requires forall i | 0 <= i < |st.store.persons| :: st.store.persons[i].cols.idcard != employeeId
    requires j < |st.store.table| && st.store.table[j].cols.idcard == employeeId && st.store.table[j].cols.uuid != ""
    requires forall i | 0 <= i < j :: st.store.table[i].cols.idcard != employeeId
    ensures
      var t, r := SendStep(st, employeeId, w).0, st.store.table[j];
      t.store.table == st.store.table[j := r.(uploadStatus := Some(if Received(w) then 1 else 0))]
  {
    var uuid := st.store.table[j].cols.uuid;
    assert SelectIdcard(st.store.table, employeeId) == j && UuidOf(st.store, employeeId, true) == uuid;
    SendIsWrite(st, employeeId, w);
    assert SelectUuid(st.store.table, uuid) == j;
    StatusRow(st.store, uuid, if Received(w) then 1 else 0);
  }

  /** In every other case a send leaves all as it is: for nobody, without a picture, or when the statement fails; it
      reports success only when the server got the person. */
  lemma SendChangesNothing(st: State, employeeId: string, w: SendWorld)
    requires Valid(st.store)
    requires
      || (forall i | 0 <= i < |st.store.persons| :: st.store.persons[i].cols.idcard != employeeId)
      || !w.pictureOk || !w.writeOk
    ensures SendStep(st, employeeId, w).0 == st
    ensures
      SendStep(st, employeeId, w).1 ==>
      Received(w) && w.pictureOk && exists i | 0 <= i < |st.store.persons| :: st.store.persons[i].cols.idcard == employeeId
  {
    SameIndex(st.store, "", employeeId);
  }

  /** An employee sent while the server could not be reached is uploaded by the next good tick. */
  lemma OfflineSendThenTick(st: State, employeeId: string, w: SendWorld, k: int, tick: TickWorld)
    requires Valid(st.store) && IsEmployee(st.store, employeeId, k) && st.store.persons[k].cols.uuid != ""
    requires w.pictureOk && w.writeOk && !Received(w) && AllGood(tick) && Watched(st)
    ensures
      var uuid := st.store.persons[k].cols.uuid;
      var t := Step(Step(st, Send(employeeId, w)), Tick(tick));
      && PersonEffects.RowOf(t.store, uuid) == Some(st.store.table[k].(uploadStatus := Some(1)))
      && CurrentStatus(t.store, uuid) == 1 && uuid !in PendingUuids(t.store.table)
  {
    var uuid, sent := st.store.persons[k].cols.uuid, Step(st, Send(employeeId, w));
    SendOutcome(st, employeeId, w, k);
    TickSynchronisesIff(sent, tick);
    PassUploads(sent.store, uuid, tick.attempts);
  }

  /** A pass in which all goes well uploads a person who is pending on both sides. */
  lemma PassUploads(s: Store, uuid: string, world: World)
    requires Valid(s) && world(uuid) == Attempt(true, true, true, Accepted, true)
    requires PersonEffects.RowOf(s, uuid).Some? && PersonEffects.RowOf(s, uuid).value.uploadStatus == Some(0)
    requires PersonEffects.EntryOf(s, uuid).Some? && PersonEffects.EntryOf(s, uuid).value.uploadStatus == 0
    ensures
      var t := SyncPass(s, world).0;
      && PersonEffects.RowOf(t, uuid) == Some(PersonEffects.RowOf(s, uuid).value.(uploadStatus := Some(1)))
      && CurrentStatus(t, uuid) == 1 && uuid !in PendingUuids(t.table)
  {
    var t, k := SyncPass(s, world).0, SelectUuid(s.table, uuid);
    SyncPassOutcome(s, world);
    ReadAsPending(s, uuid);
    PassKeepsUuids(s, world, uuid);
    PendingIsListed(t, uuid);
  }

  lemma ReadAsPending(s: Store, uuid: string)
    requires PersonEffects.EntryOf(s, uuid).Some? && PersonEffects.EntryOf(s, uuid).value.uploadStatus == 0
    ensures CurrentStatus(s, uuid) == 0 && forall ok :: StatusRead(s, uuid, ok) == 0
  {
  }

  lemma PassKeepsUuids(s: Store, world: World, uuid: string)
    requires UniqueUuids(s.table)
    ensures
      var t := SyncPass(s, world).0;
      |t.table| == |s.table| && SelectUuid(t.table, uuid) == SelectUuid(s.table, uuid) && UniqueUuids(t.table)
  {
    var t := SyncPass(s, world).0;
    SyncPassOutcome(s, world);
    assert forall i | 0 <= i < |s.table| :: t.table[i].cols == s.table[i].cols;
  }

  // ---------- What no tick repairs ----------

  function Ticks(st: State, ws: seq<TickWorld>): State {
    if ws == [] then st else TickStep(Ticks(st, ws[..|ws| - 1]), ws[|ws| - 1])
  }

  /** A tick leaves the store alone or makes one pass over it. */
  lemma TickIsPass(st: State, w: TickWorld)
    ensures TickStep(st, w).store == st.store || TickStep(st, w).store == SyncPass(st.store, w.attempts).0
  {
  }

  /** A record that is pending in the table while the list says otherwise is never uploaded: no number of ticks
      changes it, and with readable tables the timer runs on. */
  lemma {:induction false} SkippedForever(st: State, ws: seq<TickWorld>, i: nat)
    requires UniqueUuids(st.store.table) && Overlooked(st.store, i) && IsPending(st.store.table[i])
    requires Watched(st) && forall j | 0 <= j < |ws| :: ws[j].select1 && ws[j].select3
    ensures
      var t := Ticks(st, ws);
      && UniqueUuids(t.store.table) && Overlooked(t.store, i) && t.store.table[i] == st.store.table[i]
      && Watched(t) && t.timerActive
  {
    if ws != [] {
      var n := |ws| - 1;
      SkippedForever(st, ws[..n], i);
      var before := Ticks(st, ws[..n]);
      TickIsPass(before, ws[n]);
      PassKeepsOverlooked(before.store, ws[n].attempts, i);
      TickKeepsWatchIff(before, ws[n]);
    }
    NonePending(Ticks(st, ws).store.table);
  }
}
