/** The person store as an object: the list that the methods of RegisteredFacesDB update in place, the table that
    their statements change, and the retry timer (DB/RegisteredFacesDB.cpp). Every method computes one step of the
    specification in PersonStore, FingerIds, UploadSync, SyncTimer or PassDecision; the outcome of each statement is an
    argument. */
module RegisteredFaces {
  import opened Wrappers
  import opened PersonStore
  import opened UploadSync
  import SyncTimer
  import FingerIds
  import PassPermission
  import PassDecision

  class RegisteredFacesDB {
    var persons: seq<Person>
    var table: seq<Row>
    var syncTimerActive: bool
    var timerCreated: bool

    constructor (rows: seq<Row>)
      ensures View() == Store(Load(rows), rows) && !syncTimerActive && !timerCreated
    {
      table, syncTimerActive, timerCreated := rows, false, false;
      persons := [];
      new;
      LoadPersons();
    }

    function View(): Store
      reads this`persons, this`table
    {
      Store(persons, table)
    }

    function TimerView(): SyncTimer.State
      reads this
    {
      SyncTimer.State(View(), syncTimerActive, timerCreated)
    }

    /** The loop of run() over the rows. */
    method LoadPersons()
      modifies this`persons
      ensures persons == old(persons) + Load(table)
    {
      assert persons + [] == persons;
      for i := 0 to |table|
        invariant persons == old(persons) + Load(table)[..i]
      {
        var t := table[i].cols;
        if t.sex == "" {
          t := t.(sex := "unknow");
        }
        if t.personid < 1 {
          t := t.(personid := 1);
        }
        persons := persons + [Person(t, 0)];
      }
    }

    // ---------- Searches ----------

    method IndexOfUuid(uuid: string) returns (i: nat)
      ensures i == FindUuid(persons, uuid)
    {
      i := 0;
      while i < |persons| && persons[i].cols.uuid != uuid
        invariant i <= |persons| && FindUuid(persons, uuid) == FindUuid(persons, uuid, i)
      {
        i := i + 1;
      }
    }

    method IndexOfIdcard(idCard: string) returns (i: nat)
      ensures i == FindIdcard(persons, idCard)
    {
      i := 0;
      while i < |persons| && persons[i].cols.idcard != idCard
        invariant i <= |persons| && FindIdcard(persons, idCard) == FindIdcard(persons, idCard, i)
      {
        i := i + 1;
      }
    }

    method GetPersonByFingerId(fingerId: int) returns (person: Option<Person>)
      ensures
        var k := FingerIds.FindFingerId(persons, fingerId);
        person == if k < |persons| then Some(persons[k]) else None
    {
      var i := 0;
      while i < |persons|
        invariant i <= |persons| && FingerIds.FindFingerId(persons, fingerId) == FingerIds.FindFingerId(persons, fingerId, i)
      {
        if persons[i].cols.fingerId == fingerId {
          return Some(persons[i]);
        }
        i := i + 1;
      }
      return None;
    }

    method GetPersonUploadStatus(uuid: string, selectOk: bool) returns (status: int)
      ensures status == StatusRead(View(), uuid, selectOk)
    {
      var i := IndexOfUuid(uuid);
      if i < |persons| {
        return persons[i].uploadStatus;
      }
      var j := SelectUuid(table, uuid);
      if selectOk && j < |table| {
        return if table[j].uploadStatus == None then 1 else table[j].uploadStatus.value;
      }
      return -1;
    }

    // ---------- Registering, updating, deleting ----------

    method RegPersonToDBAndRAM(reg: Registration, world: RegisterWorld) returns (ok: bool)
      modifies this`persons, this`table
      ensures View() == RegisterStep(old(View()), reg, world) && ok == world.writeOk
    {
      var k := if world.selectOk then SelectIdcard(table, reg.idCard) else |table|;
      var userExists := k < |table|;
      var uuid, personid;
      if userExists {
        uuid, personid := table[k].cols.uuid, table[k].cols.personid;
      } else {
        uuid := if |reg.uuid| > 3 then reg.uuid else world.newUuid;
        personid := if world.maxOk then NextPersonId(table) else 1;
      }
      var t := RegisterColumns((uuid, personid), reg, world.now);
      if !world.writeOk {
        return false;
      }
      table := Upsert(table, RegisterRow(t, world));
      var found := false;
      if userExists {
        var i := IndexOfIdcard(reg.idCard);
        if i < |persons| {
          persons := persons[i := Person(t, reg.uploadStatus)];
          found := true;
        }
      }
      if !found {
        persons := persons + [Person(t, reg.uploadStatus)];
      }
      return true;
    }

    method UpdatePersonToDBAndRAM(req: UpdateRequest, now: string, ok: bool) returns (result: int)
      modifies this`persons, this`table
      ensures View() == UpdateStep(old(View()), req, now, ok) && result == UpdateResult(old(View()), req, ok)
    {
      if |req.uuid| == 0 {
        return -1;
      }
      var index := IndexOfUuid(req.uuid);
      if index == |persons| {
        return ISC_UPDATE_PERSON_NOT_EXIST;
      }
      var feature := [];
      if req.embedding != [] {
        feature := req.embedding;
      } else if req.picture.FeatureFound? {
        feature := req.picture.feature;
      } else if req.picture.NoFeature? {
        return req.picture.code - 10;
      }
      var st := Merge(persons[index].cols, req, feature, now);
      if !ok {
        return ISC_UPDATE_PERSON_DB_ERROR;
      }
      table := UpdateRows(table, req.uuid, (r: Row) => r.(cols := WrittenColumns(r.cols, st), featuresize := |st.feature|));
      var status := if req.uploadStatus.Some? then req.uploadStatus.value else persons[index].uploadStatus;
      persons := persons[index := Person(st, status)];
      assert table == UpdateStep(old(View()), req, now, ok).table;
      return 1;
    }

    /** The chain of assignments: every argument that is not empty replaces its column. */
    static method Merge(c: Columns, req: UpdateRequest, feature: Bytes, now: string) returns (st: Columns)
      requires feature == UpdatedFeature(req)
      ensures st == UpdatedColumns(c, req, now)
    {
      var name := Replace(c.name, req.name);
      var idCard := Replace(c.idcard, req.idCard);
      var icCard := Replace(c.iccard, req.icCard);
      var sex := Replace(c.sex, req.sex);
      var department := Replace(c.department, req.department);
      var timeOfAccess := Replace(c.timeOfAccess, req.timeOfAccess);
      var attendanceMode := Replace(c.attendanceMode, req.attendanceMode);
      var tenantId := Replace(c.tenantId, req.tenantId);
      var id := Replace(c.id, req.id);
      var status := Replace(c.status, req.status);
      st := c.(name := name, idcard := idCard, iccard := icCard, sex := sex, department := department,
               timeOfAccess := timeOfAccess, attendanceMode := attendanceMode, tenantId := tenantId, id := id, status := status,
               accessLevel := req.accessLevel, feature := feature, createtime := now);
    }

    static method Replace(column: string, argument: string) returns (text: string)
      ensures text == OrOld(argument, column)
    {
      text := column;
      if |argument| > 0 {
        text := argument;
      }
    }

    method UpdatePersonDirectly(
        uuid: string, name: string, idCard: string, sex: string, feature: Bytes, selectOk: bool, now: string, ok: bool)
      returns (success: bool)
      modifies this`persons, this`table
      ensures success == ok
      ensures
        var s := old(View());
        View() == if ok then DirectStep(s, uuid, name, idCard, sex, DirectFeature(s, uuid, feature, selectOk), now) else s
    {
      var currentFeature := [];
      var k := SelectUuid(table, uuid);
      if selectOk && k < |table| {
        currentFeature := table[k].cols.feature;
      }
      var stored := if feature != [] then feature else currentFeature;
      if !ok {
        return false;
      }
      table := UpdateRows(table, uuid, (r: Row) => r.(cols := DirectColumns(r.cols, name, idCard, sex, stored, now),
                                                      featuresize := |stored|));
      var i := IndexOfUuid(uuid);
      if i < |persons| {
        persons := persons[i := persons[i].(cols := DirectColumns(persons[i].cols, name, idCard, sex, stored, now))];
      }
      assert table == DirectStep(old(View()), uuid, name, idCard, sex, stored, now).table;
      return true;
    }

    method UpdatePersonFaceFeature(uuid: string, feature: Bytes, image: Option<string>, ok: bool) returns (done: bool)
      modifies this`persons, this`table
      ensures done == (HasEmployee(old(View()), uuid) && ok)
      ensures View() == if done then FeatureStep(old(View()), uuid, feature, image) else old(View())
    {
      var i := IndexOfUuid(uuid);
      var employeeId := if i < |persons| then persons[i].cols.idcard else "";
      if employeeId == "" || !ok {
        return false;
      }
      table := UpdateRows(table, uuid, (r: Row) => r.(cols := r.cols.(feature := feature), featuresize := |feature|,
                                                      image := if image.Some? then image.value else r.image));
      persons := persons[i := persons[i].(cols := persons[i].cols.(feature := feature))];
      assert table == FeatureStep(old(View()), uuid, feature, image).table;
      return true;
    }

    /** An UPDATE of some columns of one person, in the table and then in the list. */
    method UpdateColumns(uuid: string, set': Columns -> Columns)
      modifies this`persons, this`table
      ensures View() == ColumnsStep(old(View()), uuid, set')
    {
      table := UpdateRows(table, uuid, (r: Row) => r.(cols := set'(r.cols)));
      var i := IndexOfUuid(uuid);
      if i < |persons| {
        persons := persons[i := persons[i].(cols := set'(persons[i].cols))];
      }
      assert table == ColumnsStep(old(View()), uuid, set').table;
    }

    method UpdatePersonFingerId(uuid: string, fingerId: int, ok: bool) returns (done: bool)
      modifies this`persons, this`table
      ensures done == ok && View() == if ok then FingerIdStep(old(View()), uuid, fingerId) else old(View())
    {
      if ok {
        UpdateColumns(uuid, (c: Columns) => c.(fingerId := fingerId));
        assert table == FingerIdStep(old(View()), uuid, fingerId).table;
      }
      return ok;
    }

    method UpdatePersonFingerprint(uuid: string, data: Bytes, columnOk: bool, ok: bool) returns (done: bool)
      modifies this`persons, this`table
      ensures done == (uuid != "" && data != [] && columnOk && ok && SelectUuid(old(table), uuid) < |old(table)|)
      ensures View() == if done then FingerprintStep(old(View()), uuid, data) else old(View())
    {
      if uuid == "" || data == [] || !columnOk || !ok || SelectUuid(table, uuid) == |table| {
        return false;
      }
      UpdateColumns(uuid, (c: Columns) => c.(fingerprint := data));
      assert table == FingerprintStep(old(View()), uuid, data).table;
      return true;
    }

    method DeletePersonFingerprint(uuid: string, ok: bool) returns (done: bool)
      modifies this`persons, this`table
      ensures done == (uuid != "" && ok)
      ensures View() == if done then FingerprintStep(old(View()), uuid, []) else old(View())
    {
      if uuid == "" || !ok {
        return false;
      }
      UpdateColumns(uuid, (c: Columns) => c.(fingerprint := []));
      assert table == FingerprintStep(old(View()), uuid, []).table;
      return true;
    }

    method UpdatePersonNewColumns(
        uuid: string, attendanceMode: string, tenantId: string, id: string, status: string, ok: bool)
      returns (success: bool)
      modifies this`persons, this`table
      ensures success == ok
      ensures View() == if ok then NewColumnsStep(old(View()), uuid, attendanceMode, tenantId, id, status) else old(View())
    {
      if ok {
        UpdateColumns(
          uuid, (c: Columns) => c.(attendanceMode := attendanceMode, tenantId := tenantId, id := id, status := status));
        assert table == NewColumnsStep(old(View()), uuid, attendanceMode, tenantId, id, status).table;
      }
      return ok;
    }

    method ClearAllFingerIds(ok: bool) returns (cleared: bool)
      modifies this`persons, this`table
      ensures cleared == ok
      ensures View() == if ok then ClearAllStep(old(View())) else old(View())
    {
      cleared := ok;
      if !ok {
        return;
      }
      ghost var after := ClearAllStep(old(View()));
      var rows := table;
      table := seq(|rows|, i requires 0 <= i < |rows| => rows[i].(cols := rows[i].cols.(fingerId := 0)));
      for i := 0 to |persons|
        invariant |persons| == |old(persons)| && table == after.table
        invariant forall j | 0 <= j < i :: persons[j] == after.persons[j]
        invariant forall j | i <= j < |persons| :: persons[j] == old(persons)[j]
      {
        persons := persons[i := persons[i].(cols := persons[i].cols.(fingerId := 0))];
      }
    }

    /** The list loses the entry even when the statement failed. */
    method DelPersonByPersonUUID(uuid: string, ok: bool) returns (ret: bool)
      modifies this`persons, this`table
      ensures View() == DeleteStep(old(View()), uuid, ok) && ret == ok
    {
      if ok {
        table := DeleteRows(table, uuid);
      }
      var i := IndexOfUuid(uuid);
      if i < |persons| {
        persons := persons[..i] + persons[i + 1..];
      }
      return ok;
    }

    // ---------- Finger ids ----------

    method GetNextAvailableFingerId(selectOk: bool) returns (fingerId: nat)
      ensures fingerId == FingerIds.NextFingerId(table, selectOk)
    {
      if !selectOk {
        return 1;
      }
      var maxId := FingerIds.MaxFingerId(table);
      return if maxId >= 1 then maxId + 1 else 1;
    }

    // ---------- Offline uploads ----------

    method UpdatePersonUploadStatus(uuid: string, uploadStatus: int, ok: bool) returns (done: bool)
      modifies this`persons, this`table
      ensures done == ok && View() == if ok then UploadStatusStep(old(View()), uuid, uploadStatus) else old(View())
    {
      if ok {
        table := UpdateRows(table, uuid, (r: Row) => r.(uploadStatus := Some(uploadStatus)));
        var i := IndexOfUuid(uuid);
        if i < |persons| {
          persons := persons[i := persons[i].(uploadStatus := uploadStatus)];
        }
        assert table == UploadStatusStep(old(View()), uuid, uploadStatus).table;
      }
      return ok;
    }

    /** The attempt to upload one record. */
    method SyncRecord(uuid: string, a: Attempt) returns (v: Verdict)
      modifies this`persons, this`table
      ensures (View(), v) == SyncOne(old(View()), uuid, a)
    {
      var currentStatus := GetPersonUploadStatus(uuid, a.statusOk);
      if currentStatus != 0 {
        return Skipped;
      }
      var markResult := UpdatePersonUploadStatus(uuid, 2, a.markOk);
      if !markResult {
        return Failed;
      }
      if a.pictureOk && a.reply == Accepted {
        var clearResult := UpdatePersonUploadStatus(uuid, 1, a.finalOk);
        return if clearResult then Uploaded else Failed;
      }
      var reverted := UpdatePersonUploadStatus(uuid, 0, a.finalOk);
      return Failed;
    }

    /** The loop over the selected records. */
    method SyncSelected(uuids: seq<string>, world: World) returns (success: nat, failure: nat)
      modifies this`persons, this`table
      ensures
        var (t, tally) := SyncRecords(old(View()), uuids, world);
        View() == t && success == tally.success && failure == tally.failure
    {
      success, failure := 0, 0;
      for i := 0 to |uuids|
        invariant
          var (t, tally) := SyncRecords(old(View()), uuids[..i], world);
          View() == t && success == tally.success && failure == tally.failure
      {
        assert uuids[..i + 1][..i] == uuids[..i];
        var v := SyncRecord(uuids[i], world(uuids[i]));
        if v == Uploaded {
          success := success + 1;
        } else if v == Failed {
          failure := failure + 1;
        }
      }
      assert uuids[..|uuids|] == uuids;
    }

    method SyncPendingRecordsToServer(w: SyncTimer.TickWorld) returns (ok: bool)
      modifies this`persons, this`table
      ensures (TimerView(), ok) == SyncTimer.Synchronise(old(TimerView()), w)
    {
      if !w.network2 {
        return false;
      }
      var pending := if w.select2 then PendingUuids(table) else [];
      if pending == [] {
        return true;
      }
      var success, failure := SyncSelected(pending, w.attempts);
      return success > 0;
    }

    method StartEventDrivenSync()
      modifies this`syncTimerActive, this`timerCreated
      ensures TimerView() == SyncTimer.StartTimer(old(TimerView()))
    {
      if syncTimerActive {
        return;
      }
      if !timerCreated {
        timerCreated := true;
      }
      syncTimerActive := true;
    }

    method StopEventDrivenSync()
      modifies this`syncTimerActive
      ensures TimerView() == SyncTimer.StopTimer(old(TimerView()))
    {
      if !syncTimerActive || !timerCreated {
        return;
      }
      syncTimerActive := false;
    }

    method OnEventDrivenSyncTimeout(w: SyncTimer.TickWorld)
      requires syncTimerActive
      modifies this
      ensures TimerView() == SyncTimer.TickStep(old(TimerView()), w)
    {
      var pending := if w.select1 then PendingUuids(table) else [];
      if pending == [] {
        StopEventDrivenSync();
        return;
      }
      if !w.network1 {
        return;
      }
      var syncSuccess := SyncPendingRecordsToServer(w);
      if syncSuccess {
        var remaining := if w.select3 then PendingUuids(table) else [];
        if remaining == [] {
          StopEventDrivenSync();
        }
      }
    }

    method SendCroppedImageToServer(employeeId: string, w: SyncTimer.SendWorld) returns (sent: bool)
      modifies this
      ensures (TimerView(), sent) == SyncTimer.SendStep(old(TimerView()), employeeId, w)
    {
      var uuid := FindUuidByEmployeeId(employeeId, w.selectOk);
      if uuid == "" || !w.pictureOk {
        return false;
      }
      if w.networkUp && w.serverUp && w.reply == Accepted {
        var marked := UpdatePersonUploadStatus(uuid, 1, w.writeOk);
        return true;
      }
      var stored := UpdatePersonUploadStatus(uuid, 0, w.writeOk);
      if stored {
        StartEventDrivenSync();
      }
      return stored;
    }

    method FindUuidByEmployeeId(employeeId: string, selectOk: bool) returns (uuid: string)
      ensures uuid == SyncTimer.UuidOf(View(), employeeId, selectOk)
    {
      var i := IndexOfIdcard(employeeId);
      if i < |persons| {
        return persons[i].cols.uuid;
      }
      var j := SelectIdcard(table, employeeId);
      return if selectOk && j < |table| then table[j].cols.uuid else "";
    }

    method TriggerManualSync(selectOk: bool) returns (ok: bool)
      modifies this`syncTimerActive, this`timerCreated
      ensures ok
      ensures TimerView() == SyncTimer.ManualStep(old(TimerView()), selectOk)
    {
      var pending := if selectOk then PendingUuids(table) else [];
      if pending != [] {
        StartEventDrivenSync();
      }
      return true;
    }

    // ---------- The passage decision ----------

    method CheckPassageOfTime(
        uuid: string, windows: seq<PassDecision.Window>, now: PassDecision.Clock, inRange: (string, string) -> bool)
      returns (allowed: bool)
      requires now.Valid()
      ensures allowed == PassDecision.Allowed(persons, uuid, windows, now, inRange)
    {
      if |uuid| > 3 {
        var own := CheckOwnPermission(uuid, now, inRange);
        if own.Some? {
          return own.value;
        }
      }
      allowed := CheckDeviceTable(windows, now);
    }

    /** The loop over the list. */
    method CheckOwnPermission(uuid: string, now: PassDecision.Clock, inRange: (string, string) -> bool)
      returns (own: Option<bool>)
      requires now.Valid()
      ensures own == PassDecision.ListDecision(persons, uuid, now, inRange)
    {
      var i := 0;
      while i < |persons|
        invariant i <= |persons|
        invariant PassDecision.ListDecision(persons, uuid, now, inRange)
                  == PassDecision.ListDecision(persons, uuid, now, inRange, i)
      {
        if persons[i].cols.uuid == uuid {
          var sections := PassPermission.Split(persons[i].cols.timeOfAccess, ',');
          if |sections| == 9 {
            return Some(PassDecision.Open(sections[0], sections[1], now) && sections[1 + now.day] == "1");
          } else if |sections| > 1 {
            var dates := PassPermission.Split(persons[i].cols.timeOfAccess, ';');
            if |dates| == 2 {
              return Some(inRange(dates[0], dates[1]));
            }
          }
        }
        i := i + 1;
      }
      return None;
    }
  }

  /** The form that captures a finger and registers it for a person (AddUserFrm). */
  class AddUserFrm {
    const faceDB: RegisteredFacesDB
    /** The data of the captured finger (mFingerTemplate). */
    var fingerTemplate: Bytes
    /** As history, the person who got its id. */
    ghost var given: Option<string>

    constructor (faceDB: RegisteredFacesDB)
      ensures this.faceDB == faceDB && fingerTemplate == [] && given == None
    {
      this.faceDB := faceDB;
      fingerTemplate := [];
      given := None;
    }

    ghost function Desk(): FingerIds.Desk
      reads this, faceDB
    {
      FingerIds.Desk(faceDB.View(), fingerTemplate, given)
    }

    /** slotCaptureFingerButton; the id goes through a uint16_t. */
    method CaptureFinger(selectOk: bool, enrolled: bool, template: Bytes)
      modifies this
      ensures Desk() == FingerIds.CaptureStep(old(Desk()), selectOk, enrolled, template)
    {
      var nextId := faceDB.GetNextAvailableFingerId(selectOk);
      var sensorFingerId := FingerIds.SensorId(nextId);
      fingerTemplate := [];
      given := None;
      if enrolled {
        fingerTemplate := FingerIds.Packed(sensorFingerId, template);
      }
    }

    /** slotRegFingerButton, the employee having this uuid. */
    method RegFinger(uuid: string, columnOk: bool, printOk: bool, idOk: bool)
      modifies this, faceDB
      ensures Desk() == FingerIds.SaveStep(old(Desk()), uuid, columnOk, printOk, idOk)
    {
      if fingerTemplate == [] || uuid == "" {
        return;
      }
      ghost var exists' := SelectUuid(faceDB.table, uuid) < |faceDB.table|;
      var dbSuccess := faceDB.UpdatePersonFingerprint(uuid, fingerTemplate, columnOk, printOk);
      var idSuccess := faceDB.UpdatePersonFingerId(uuid, FingerIds.HeldId(fingerTemplate), idOk);
      if dbSuccess && idSuccess {
        fingerTemplate := [];
        given := None;
      } else if idSuccess && exists' {
        given := Some(uuid);
      }
    }
  }

  /** The loop over the device table, with the texts of the last window it looked at. */
  method CheckDeviceTable(windows: seq<PassDecision.Window>, now: PassDecision.Clock) returns (allowed: bool)
    requires now.Valid()
    ensures allowed == PassDecision.DeviceDecision(windows, now)
  {
    var startText, endText := "", "";
    var i := 0;
    while i < |windows|
      invariant i <= |windows| && PassDecision.DeviceDecision(windows, now) == PassDecision.DeviceDecision(windows, now, i)
      invariant startText == (if i > 0 then PassDecision.TimeText(windows[i - 1].start) else "")
      invariant endText == (if i > 0 then PassDecision.TimeText(windows[i - 1].end) else "")
    {
      startText, endText := PassDecision.TimeText(windows[i].start), PassDecision.TimeText(windows[i].end);
      if PassDecision.Open(windows[i].start, windows[i].end, now) {
        return windows[i].days[now.day - 1];
      }
      i := i + 1;
    }
    return startText == "" || endText == "";
  }
}
