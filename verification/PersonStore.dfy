/** The registered persons: the list in RAM (mPersons) and the SQL table `person` (DB/RegisteredFacesDB.cpp).

    This module gives the operations as functions on the pair of the two, for every outcome of their SQL statements, and
    proves when the two stay in agreement. */
module PersonStore {
  import opened Wrappers

  type Bytes = seq<int>

  /** The columns that the list mirrors. */
  datatype Columns = Columns(
    uuid: string, personid: int, persontype: int, name: string, sex: string, createtime: string, idcard: string,
    iccard: string, feature: Bytes, gids: string, pids: string, timeOfAccess: string, department: string,
    attendanceMode: string, tenantId: string, id: string, status: string, fingerprint: Bytes, fingerId: int,
    accessLevel: int)

  /** A row of the table; uploadStatus may be NULL. */
  datatype Row = Row(cols: Columns, image: string, featuresize: int, uploadStatus: Option<int>)

  /** An entry of the list. */
  datatype Person = Person(cols: Columns, uploadStatus: int)

  /** The list, and the table in the order of its rowids, which are the personids. */
  datatype Store = Store(persons: seq<Person>, table: seq<Row>)

  // ---------- Loading ----------

  /** What the loader makes of a row: an empty sex and a personid below 1 are replaced. */
  function LoadColumns(c: Columns): Columns {
    c.(sex := if c.sex == "" then "unknow" else c.sex, personid := if c.personid < 1 then 1 else c.personid)
  }

  function LoadPerson(r: Row): Person {
    Person(LoadColumns(r.cols), 0)
  }

  function Load(table: seq<Row>): (persons: seq<Person>)
    ensures |persons| == |table|
    ensures forall i | 0 <= i < |table| :: persons[i] == LoadPerson(table[i])
  {
    seq(|table|, i requires 0 <= i < |table| => LoadPerson(table[i]))
  }

  // ---------- Agreement ----------

  /** Columns as the loader shows them; a finger id below 1 means no fingerprint. */
  function Shown(c: Columns): Columns {
    LoadColumns(c).(fingerId := if c.fingerId < 1 then 0 else c.fingerId)
  }

  /** The list holds, row by row and in the same order, what loading the table again would show. */
  ghost predicate Agree(s: Store) {
    && |s.persons| == |s.table|
    && forall i | 0 <= i < |s.table| :: Shown(s.persons[i].cols) == Shown(s.table[i].cols)
  }

  ghost predicate UniqueUuids(table: seq<Row>) {
    forall i, j | 0 <= i < j < |table| :: table[i].cols.uuid != table[j].cols.uuid
  }

  /** The primary key: positive, and ascending because the rows are in rowid order. */
  ghost predicate Keyed(table: seq<Row>) {
    && (forall i | 0 <= i < |table| :: table[i].cols.personid >= 1)
    && (forall i, j | 0 <= i < j < |table| :: table[i].cols.personid < table[j].cols.personid)
  }

  ghost predicate Sized(table: seq<Row>) {
    forall i | 0 <= i < |table| :: table[i].featuresize == |table[i].cols.feature|
  }

  ghost predicate Valid(s: Store) {
    Agree(s) && UniqueUuids(s.table) && Keyed(s.table) && Sized(s.table)
  }

  /** Starting the program on a table with positive keys and distinct uuids gives a valid store. */
  lemma LoadingAgrees(table: seq<Row>)
    requires UniqueUuids(table) && Keyed(table) && Sized(table)
    ensures Valid(Store(Load(table), table))
  {
  }

  // ---------- SQL statements and searches in the list ----------

  /** The index of the first entry with this uuid, or |persons|. */
  function FindUuid(persons: seq<Person>, uuid: string, from: nat := 0): (k: nat)
    requires from <= |persons|
    ensures from <= k <= |persons| && (k < |persons| ==> persons[k].cols.uuid == uuid)
    ensures forall i | from <= i < k :: persons[i].cols.uuid != uuid
    decreases |persons| - from
  {
    if from == |persons| || persons[from].cols.uuid == uuid then from else FindUuid(persons, uuid, from + 1)
  }

  /** The index of the first entry with this employee id, or |persons|. */
  function FindIdcard(persons: seq<Person>, idcard: string, from: nat := 0): (k: nat)
    requires from <= |persons|
    ensures from <= k <= |persons| && (k < |persons| ==> persons[k].cols.idcard == idcard)
    ensures forall i | from <= i < k :: persons[i].cols.idcard != idcard
    decreases |persons| - from
  {
    if from == |persons| || persons[from].cols.idcard == idcard then from else FindIdcard(persons, idcard, from + 1)
  }

  /** SELECT ... WHERE idcardnum = ?: the first row, or |table|. */
  function SelectIdcard(table: seq<Row>, idcard: string, from: nat := 0): (k: nat)
    requires from <= |table|
    ensures from <= k <= |table| && (k < |table| ==> table[k].cols.idcard == idcard)
    ensures forall i | from <= i < k :: table[i].cols.idcard != idcard
    decreases |table| - from
  {
    if from == |table| || table[from].cols.idcard == idcard then from else SelectIdcard(table, idcard, from + 1)
  }

  /** SELECT ... WHERE uuid = ?: the first row, or |table|. */
  function SelectUuid(table: seq<Row>, uuid: string, from: nat := 0): (k: nat)
    requires from <= |table|
    ensures from <= k <= |table| && (k < |table| ==> table[k].cols.uuid == uuid)
    ensures forall i | from <= i < k :: table[i].cols.uuid != uuid
    decreases |table| - from
  {
    if from == |table| || table[from].cols.uuid == uuid then from else SelectUuid(table, uuid, from + 1)
  }

  /** UPDATE person SET ... WHERE uuid = ?: every row with this uuid. */
  function UpdateRows(table: seq<Row>, uuid: string, set': Row -> Row): (t: seq<Row>)
    ensures |t| == |table|
    ensures forall i | 0 <= i < |table| :: t[i] == if table[i].cols.uuid == uuid then set'(table[i]) else table[i]
  {
    seq(|table|, i requires 0 <= i < |table| => if table[i].cols.uuid == uuid then set'(table[i]) else table[i])
  }

  /** The loop that updates the first entry with this uuid. */
  function UpdateEntry(persons: seq<Person>, uuid: string, set': Person -> Person): (p: seq<Person>)
    ensures |p| == |persons|
  {
    var k := FindUuid(persons, uuid);
    if k < |persons| then persons[k := set'(persons[k])] else persons
  }

  /** DELETE FROM person WHERE uuid = ? */
  function DeleteRows(table: seq<Row>, uuid: string): seq<Row> {
    if table == [] then []
    else if table[0].cols.uuid == uuid then DeleteRows(table[1..], uuid)
    else [table[0]] + DeleteRows(table[1..], uuid)
  }

  /** The loop that removes the first entry with this uuid. */
  function RemoveEntry(persons: seq<Person>, uuid: string): seq<Person> {
    var k := FindUuid(persons, uuid);
    if k < |persons| then persons[..k] + persons[k + 1..] else persons
  }

  /** INSERT OR REPLACE with a given primary key, on a table in rowid order. */
  function Upsert(table: seq<Row>, row: Row): seq<Row> {
    if table == [] || row.cols.personid < table[0].cols.personid then [row] + table
    else if table[0].cols.personid == row.cols.personid then [row] + table[1..]
    else [table[0]] + Upsert(table[1..], row)
  }

  /** getPersonMaxid: one more than the highest personid, at least 1. */
  function NextPersonId(table: seq<Row>): int {
    if table == [] then 1
    else
      var maxId := table[|table| - 1].cols.personid;
      if maxId >= 1 then maxId + 1 else 1
  }

  // ---------- The operations ----------

  /** The arguments of RegPersonToDBAndRAM. */
  datatype Registration = Registration(
    uuid: string, name: string, idCard: string, icCard: string, sex: string, department: string, timeOfAccess: string,
    feature: Bytes, attendanceMode: string, tenantId: string, id: string, status: string, uploadStatus: int,
    accessLevel: int)

  /** What a registration meets: the outcomes of its three statements, a fresh QUuid, the server or device time, the path
      of the saved image, and the column default of uploadStatus, which the INSERT does not set. */
  datatype RegisterWorld = RegisterWorld(
    selectOk: bool, maxOk: bool, writeOk: bool, newUuid: string, now: string, image: string, columnDefault: Option<int>)

  /** What becomes of the picture handed to UpdatePersonToDBAndRAM. */
  datatype Picture = NoPicture | FeatureFound(feature: Bytes) | NoFeature(code: int)

  /** The arguments of UpdatePersonToDBAndRAM; empty strings leave a column as it is. */
  datatype UpdateRequest = UpdateRequest(
    uuid: string, name: string, idCard: string, icCard: string, sex: string, department: string, timeOfAccess: string,
    picture: Picture, embedding: Bytes, attendanceMode: string, tenantId: string, id: string, status: string,
    uploadStatus: Option<int>, accessLevel: int)

  datatype Op =
    | Register(reg: Registration, world: RegisterWorld)
    | Update(req: UpdateRequest, now: string, ok: bool)
    | UpdateDirectly(
        uuid: string, name: string, idCard: string, sex: string, feature: Bytes, selectOk: bool, now: string, ok: bool)
    | UpdateFeature(uuid: string, feature: Bytes, image: Option<string>, ok: bool)
    | UpdateFingerprint(uuid: string, data: Bytes, columnOk: bool, ok: bool)
    | DeleteFingerprint(uuid: string, ok: bool)
    | UpdateFingerId(uuid: string, fingerId: int, ok: bool)
    | ClearAllFingerIds(ok: bool)
    | UpdateNewColumns(uuid: string, attendanceMode: string, tenantId: string, id: string, status: string, ok: bool)
    | SetUploadStatus(uuid: string, uploadStatus: int, ok: bool)
    | Delete(uuid: string, ok: bool)

  /** The row of a registered employee, as the first SELECT finds it, or |table|. */
  function KnownRow(s: Store, reg: Registration, world: RegisterWorld): (k: nat)
    ensures k <= |s.table|
  {
    if world.selectOk then SelectIdcard(s.table, reg.idCard) else |s.table|
  }

  /** The uuid and personid under which a registration stores. */
  function RegisterKey(s: Store, reg: Registration, world: RegisterWorld): (string, int) {
    var k := KnownRow(s, reg, world);
    if k < |s.table| then (s.table[k].cols.uuid, s.table[k].cols.personid)
    else (if |reg.uuid| > 3 then reg.uuid else world.newUuid, if world.maxOk then NextPersonId(s.table) else 1)
  }

  /** The new list entry of a registration; its finger id is 0. */
  function RegisterColumns(key: (string, int), reg: Registration, now: string): Columns {
    Columns(key.0, key.1, 0, reg.name, if reg.sex == "" then "Unknown" else reg.sex, now, reg.idCard,
            if reg.icCard == "" then "000000" else reg.icCard, reg.feature, "0", "2", reg.timeOfAccess, reg.department,
            reg.attendanceMode, reg.tenantId, reg.id, reg.status, [], 0, reg.accessLevel)
  }

  /** The new row: fingerprint is NULL and finger_id takes its column default -1. */
  function RegisterRow(c: Columns, world: RegisterWorld): Row {
    Row(c.(fingerId := -1), world.image, |c.feature|, world.columnDefault)
  }

  function RegisterStep(s: Store, reg: Registration, world: RegisterWorld): Store {
    if !world.writeOk then s
    else
      var c := RegisterColumns(RegisterKey(s, reg, world), reg, world.now);
      var entry := Person(c, reg.uploadStatus);
      var k := if KnownRow(s, reg, world) < |s.table| then FindIdcard(s.persons, reg.idCard) else |s.persons|;
      Store(if k < |s.persons| then s.persons[k := entry] else s.persons + [entry],
            Upsert(s.table, RegisterRow(c, world)))
  }

  function OrOld(s: string, old': string): string {
    if s != "" then s else old'
  }

  /** The feature that an update stores: the given embedding, else what the picture yields, else nothing. */
  function UpdatedFeature(req: UpdateRequest): Bytes {
    if req.embedding != [] then req.embedding else if req.picture.FeatureFound? then req.picture.feature else []
  }

  /** The entry of the list after an update. */
  function UpdatedColumns(c: Columns, req: UpdateRequest, now: string): Columns {
    c.(name := OrOld(req.name, c.name), idcard := OrOld(req.idCard, c.idcard), iccard := OrOld(req.icCard, c.iccard),
       sex := OrOld(req.sex, c.sex), department := OrOld(req.department, c.department),
       timeOfAccess := OrOld(req.timeOfAccess, c.timeOfAccess), attendanceMode := OrOld(req.attendanceMode, c.attendanceMode),
       tenantId := OrOld(req.tenantId, c.tenantId), id := OrOld(req.id, c.id), status := OrOld(req.status, c.status),
       accessLevel := req.accessLevel, feature := UpdatedFeature(req), createtime := now)
  }

  /** The columns that UPDATE writes, taken from the entry st. */
  function WrittenColumns(c: Columns, st: Columns): Columns {
    c.(name := st.name, sex := st.sex, idcard := st.idcard, iccard := st.iccard, feature := st.feature,
       timeOfAccess := st.timeOfAccess, department := st.department, createtime := st.createtime,
       attendanceMode := st.attendanceMode, tenantId := st.tenantId, id := st.id, status := st.status,
       accessLevel := st.accessLevel)
  }

  const ISC_UPDATE_PERSON_NOT_EXIST := -5
  const ISC_UPDATE_PERSON_DB_ERROR := -6

  /** The result code of UpdatePersonToDBAndRAM. */
  function UpdateResult(s: Store, req: UpdateRequest, ok: bool): int {
    if req.uuid == "" then -1
    else if FindUuid(s.persons, req.uuid) == |s.persons| then ISC_UPDATE_PERSON_NOT_EXIST
    else if req.embedding == [] && req.picture.NoFeature? then req.picture.code - 10
    else if !ok then ISC_UPDATE_PERSON_DB_ERROR
    else 1
  }

  /** Whether an update gets as far as changing the store. */
  predicate Updates(s: Store, req: UpdateRequest, ok: bool) {
    && req.uuid != "" && FindUuid(s.persons, req.uuid) < |s.persons|
    && !(req.embedding == [] && req.picture.NoFeature?) && ok
  }

  function UpdateStep(s: Store, req: UpdateRequest, now: string, ok: bool): Store {
    if !Updates(s, req, ok) then s
    else
      var k := FindUuid(s.persons, req.uuid);
      var st := UpdatedColumns(s.persons[k].cols, req, now);
      Store(
        s.persons[k := Person(st, if req.uploadStatus.Some? then req.uploadStatus.value else s.persons[k].uploadStatus)],
        UpdateRows(s.table, req.uuid, (r: Row) => r.(cols := WrittenColumns(r.cols, st), featuresize := |st.feature|)))
  }

  /** The feature that UpdatePersonDirectly stores: the new one, else the one the SELECT found. */
  function DirectFeature(s: Store, uuid: string, feature: Bytes, selectOk: bool): Bytes {
    var k := SelectUuid(s.table, uuid);
    if feature != [] then feature else if selectOk && k < |s.table| then s.table[k].cols.feature else []
  }

  function DirectColumns(c: Columns, name: string, idCard: string, sex: string, feature: Bytes, now: string): Columns {
    c.(name := name, idcard := idCard, sex := sex, feature := feature, createtime := now)
  }

  /** Whether UpdatePersonFaceFeature finds an employee to update. */
  predicate HasEmployee(s: Store, uuid: string) {
    var k := FindUuid(s.persons, uuid);
    k < |s.persons| && s.persons[k].cols.idcard != ""
  }

  function DirectStep(
      s: Store, uuid: string, name: string, idCard: string, sex: string, feature: Bytes, now: string): Store
  {
    Store(UpdateEntry(s.persons, uuid, (p: Person) => p.(cols := DirectColumns(p.cols, name, idCard, sex, feature, now))),
          UpdateRows(s.table, uuid, (r: Row) => r.(cols := DirectColumns(r.cols, name, idCard, sex, feature, now),
                                                   featuresize := |feature|)))
  }

  function FeatureStep(s: Store, uuid: string, feature: Bytes, image: Option<string>): Store {
    Store(UpdateEntry(s.persons, uuid, (p: Person) => p.(cols := p.cols.(feature := feature))),
          UpdateRows(s.table, uuid, (r: Row) => r.(cols := r.cols.(feature := feature), featuresize := |feature|,
                                                   image := if image.Some? then image.value else r.image)))
  }

  /** The same change to the columns of the first entry and of every row with a uuid. */
  function ColumnsStep(s: Store, uuid: string, set': Columns -> Columns): Store {
    Store(UpdateEntry(s.persons, uuid, (p: Person) => p.(cols := set'(p.cols))),
          UpdateRows(s.table, uuid, (r: Row) => r.(cols := set'(r.cols))))
  }

  function FingerprintStep(s: Store, uuid: string, data: Bytes): Store {
    ColumnsStep(s, uuid, (c: Columns) => c.(fingerprint := data))
  }

  function FingerIdStep(s: Store, uuid: string, fingerId: int): Store {
    ColumnsStep(s, uuid, (c: Columns) => c.(fingerId := fingerId))
  }

  function NewColumnsStep(
      s: Store, uuid: string, attendanceMode: string, tenantId: string, id: string, status: string): Store
  {
    ColumnsStep(s, uuid, (c: Columns) =>
      c.(attendanceMode := attendanceMode, tenantId := tenantId, id := id, status := status))
  }

  function ClearAllStep(s: Store): (t: Store)
    ensures |t.persons| == |s.persons| && |t.table| == |s.table|
    ensures forall i | 0 <= i < |s.persons| :: t.persons[i] == s.persons[i].(cols := s.persons[i].cols.(fingerId := 0))
    ensures forall i | 0 <= i < |s.table| :: t.table[i] == s.table[i].(cols := s.table[i].cols.(fingerId := 0))
  {
    Store(seq(|s.persons|, i requires 0 <= i < |s.persons| => s.persons[i].(cols := s.persons[i].cols.(fingerId := 0))),
          seq(|s.table|, i requires 0 <= i < |s.table| => s.table[i].(cols := s.table[i].cols.(fingerId := 0))))
  }

  function UploadStatusStep(s: Store, uuid: string, uploadStatus: int): Store {
    Store(UpdateEntry(s.persons, uuid, (p: Person) => p.(uploadStatus := uploadStatus)),
          UpdateRows(s.table, uuid, (r: Row) => r.(uploadStatus := Some(uploadStatus))))
  }

  /** Deleting: the entry goes even when the statement fails. */
  function DeleteStep(s: Store, uuid: string, ok: bool): Store {
    Store(RemoveEntry(s.persons, uuid), if ok then DeleteRows(s.table, uuid) else s.table)
  }

  function Step(s: Store, op: Op): Store {
    match op
    case Register(reg, world) => RegisterStep(s, reg, world)
    case Update(req, now, ok) => UpdateStep(s, req, now, ok)
    case UpdateDirectly(uuid, name, idCard, sex, feature, selectOk, now, ok) =>
      if ok then DirectStep(s, uuid, name, idCard, sex, DirectFeature(s, uuid, feature, selectOk), now) else s
    case UpdateFeature(uuid, feature, image, ok) =>
      if HasEmployee(s, uuid) && ok then FeatureStep(s, uuid, feature, image) else s
    case UpdateFingerprint(uuid, data, columnOk, ok) =>
      if uuid != "" && data != [] && columnOk && ok && SelectUuid(s.table, uuid) < |s.table| then
        FingerprintStep(s, uuid, data)
      else s
    case DeleteFingerprint(uuid, ok) => if uuid != "" && ok then FingerprintStep(s, uuid, []) else s
    case UpdateFingerId(uuid, fingerId, ok) => if ok then FingerIdStep(s, uuid, fingerId) else s
    case ClearAllFingerIds(ok) => if ok then ClearAllStep(s) else s
    case UpdateNewColumns(uuid, attendanceMode, tenantId, id, status, ok) =>
      if ok then NewColumnsStep(s, uuid, attendanceMode, tenantId, id, status) else s
    case SetUploadStatus(uuid, uploadStatus, ok) => if ok then UploadStatusStep(s, uuid, uploadStatus) else s
    case Delete(uuid, ok) => DeleteStep(s, uuid, ok)
  }

  function Run(s: Store, ops: seq<Op>): Store
    decreases |ops|
  {
    if ops == [] then s else Step(Run(s, ops[..|ops| - 1]), ops[|ops| - 1])
  }
}
