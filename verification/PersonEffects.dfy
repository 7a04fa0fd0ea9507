/** What each operation of the store does to the one person it is about, as a lookup by uuid finds that person afterwards
    in list and table, and what it leaves to everybody else; over one operation and over runs. */
module PersonEffects {
  import opened Wrappers
  import opened PersonStore
  import opened StoreAgreement

  // ---------- Looking a person up ----------

  function EntryIn(persons: seq<Person>, u: string): Option<Person> {
    var k := FindUuid(persons, u);
    if k < |persons| then Some(persons[k]) else None
  }

  function RowIn(table: seq<Row>, u: string): Option<Row> {
    var k := SelectUuid(table, u);
    if k < |table| then Some(table[k]) else None
  }

  function EntryOf(s: Store, u: string): Option<Person> {
    EntryIn(s.persons, u)
  }

  function RowOf(s: Store, u: string): Option<Row> {
    RowIn(s.table, u)
  }

  /** The uuid leads to these two. */
  predicate Holds(s: Store, u: string, p: Person, r: Row) {
    EntryOf(s, u) == Some(p) && RowOf(s, u) == Some(r)
  }

  /** Every other person is found as before. */
  ghost predicate OthersStay(s: Store, t: Store, u: string) {
    forall v | v != u :: EntryOf(t, v) == EntryOf(s, v) && RowOf(t, v) == RowOf(s, v)
  }

  /** The person is found at the same place as before, on both sides. */
  predicate SamePlace(s: Store, t: Store, u: string) {
    FindUuid(t.persons, u) == FindUuid(s.persons, u) == SelectUuid(s.table, u) == SelectUuid(t.table, u)
  }

  // ---------- What agreement and loading mean, column by column ----------

  /** A finger id, or none. */
  predicate SameFinger(a: int, b: int) {
    a == b || (a < 1 && b < 1)
  }

  predicate SameSex(a: string, b: string) {
    a == b || (a == "" && b == "unknow") || (a == "unknow" && b == "")
  }

  predicate SameKey(a: int, b: int) {
    a == b || (a <= 1 && b <= 1)
  }

  /** Shown leaves no column out: columns that show the same are the same, up to an empty sex, a key below 1 and the
      number that says "no finger". */
  lemma ShownIff(a: Columns, b: Columns)
    ensures
      Shown(a) == Shown(b) <==>
      && a.uuid == b.uuid && a.persontype == b.persontype && a.name == b.name && a.createtime == b.createtime
      && a.idcard == b.idcard && a.iccard == b.iccard && a.feature == b.feature && a.gids == b.gids && a.pids == b.pids
      && a.timeOfAccess == b.timeOfAccess && a.department == b.department && a.attendanceMode == b.attendanceMode
      && a.tenantId == b.tenantId && a.id == b.id && a.status == b.status && a.fingerprint == b.fingerprint
      && a.accessLevel == b.accessLevel
      && SameKey(a.personid, b.personid) && SameSex(a.sex, b.sex) && SameFinger(a.fingerId, b.fingerId)
  {
    var c, d := Shown(a), Shown(b);
    if c == d {
      assert c.uuid == d.uuid && c.persontype == d.persontype && c.name == d.name && c.createtime == d.createtime;
      assert c.idcard == d.idcard && c.iccard == d.iccard && c.feature == d.feature && c.gids == d.gids;
      assert c.pids == d.pids && c.timeOfAccess == d.timeOfAccess && c.department == d.department;
      assert c.attendanceMode == d.attendanceMode && c.tenantId == d.tenantId && c.id == d.id && c.status == d.status;
      assert c.fingerprint == d.fingerprint && c.accessLevel == d.accessLevel;
      assert c.personid == d.personid && c.sex == d.sex && c.fingerId == d.fingerId;
    }
  }

  /** Loading a sound table takes every column over, and only an empty sex is replaced. */
  lemma LoadingShows(table: seq<Row>, i: nat)
    requires Keyed(table) && i < |table|
    ensures
      var c := table[i].cols;
      Load(table)[i] == Person(if c.sex == "" then c.(sex := "unknow") else c, 0)
  {
  }

  /** In a valid store a uuid leads to an entry if and only if it leads to a row, at the same place. */
  lemma FoundOnBothSides(s: Store, u: string)
    requires Valid(s)
    ensures SamePlace(s, s, u) && (EntryOf(s, u).Some? <==> RowOf(s, u).Some?)
    ensures EntryOf(s, u).Some? ==> Shown(EntryOf(s, u).value.cols) == Shown(RowOf(s, u).value.cols)
  {
    SameIndex(s, u, "");
  }

  // ---------- Changing one person ----------

  lemma ChangeFinds(s: Store, u: string, g: Person -> Person, f: Row -> Row)
    requires forall p :: g(p).cols.uuid == p.cols.uuid
    requires forall r :: f(r).cols.uuid == r.cols.uuid
    ensures
      var t := Store(UpdateEntry(s.persons, u, g), UpdateRows(s.table, u, f));
      && FindUuid(t.persons, u) == FindUuid(s.persons, u) && SelectUuid(t.table, u) == SelectUuid(s.table, u)
      && (EntryOf(s, u).Some? ==> EntryOf(t, u) == Some(g(EntryOf(s, u).value)))
      && (RowOf(s, u).Some? ==> RowOf(t, u) == Some(f(RowOf(s, u).value)))
      && OthersStay(s, t, u)
  {
    var t := Store(UpdateEntry(s.persons, u, g), UpdateRows(s.table, u, f));
    assert forall i | 0 <= i < |s.persons| :: t.persons[i].cols.uuid == s.persons[i].cols.uuid;
    assert forall i | 0 <= i < |s.table| :: t.table[i].cols.uuid == s.table[i].cols.uuid;
    forall v ensures FindUuid(t.persons, v) == FindUuid(s.persons, v) && SelectUuid(t.table, v) == SelectUuid(s.table, v) {
      SameUuidsFound(s, t, v);
    }
  }

  lemma SameUuidsFound(s: Store, t: Store, v: string)
    requires |t.persons| == |s.persons| && |t.table| == |s.table|
    requires forall i | 0 <= i < |s.persons| :: t.persons[i].cols.uuid == s.persons[i].cols.uuid
    requires forall i | 0 <= i < |s.table| :: t.table[i].cols.uuid == s.table[i].cols.uuid
    ensures FindUuid(t.persons, v) == FindUuid(s.persons, v) && SelectUuid(t.table, v) == SelectUuid(s.table, v)
  {
  }

  lemma FaceChange(s: Store, u: string, feature: Bytes, image: Option<string>, p: Person, r: Row)
    requires Valid(s) && Holds(s, u, p, r)
    ensures
      var t := FeatureStep(s, u, feature, image);
      && Holds(t, u, p.(cols := p.cols.(feature := feature)),
               r.(cols := r.cols.(feature := feature), featuresize := |feature|,
                  image := if image == None then r.image else image.value))
      && SamePlace(s, t, u) && OthersStay(s, t, u)
  {
    FoundOnBothSides(s, u);
    ChangeFinds(s, u, (q: Person) => q.(cols := q.cols.(feature := feature)),
                (q: Row) => q.(cols := q.cols.(feature := feature), featuresize := |feature|,
                               image := if image.Some? then image.value else q.image));
  }

  /** A face: the given feature and its size are found on both sides, with the new image or the old one; every other
      column and every other person is as before. */
  lemma FaceIsStored(s: Store, u: string, feature: Bytes, image: Option<string>, p: Person, r: Row)
    requires Valid(s) && Holds(s, u, p, r) && p.cols.idcard != ""
    ensures
      var t := Step(s, UpdateFeature(u, feature, image, true));
      && Holds(t, u, p.(cols := p.cols.(feature := feature)),
               r.(cols := r.cols.(feature := feature), featuresize := |feature|,
                  image := if image == None then r.image else image.value))
      && SamePlace(s, t, u) && OthersStay(s, t, u)
  {
    FaceChange(s, u, feature, image, p, r);
  }

  /** Without an employee id, for nobody, or when the statement fails, nothing changes. */
  lemma FaceIsRefused(s: Store, u: string, feature: Bytes, image: Option<string>, ok: bool)
    requires !ok || EntryOf(s, u) == None || EntryOf(s, u).value.cols.idcard == ""
    ensures Step(s, UpdateFeature(u, feature, image, ok)) == s
  {
  }

  lemma DirectChange(
      s: Store, u: string, name: string, idCard: string, sex: string, face: Bytes, now: string, p: Person, r: Row)
    requires Valid(s) && Holds(s, u, p, r)
    ensures
      var t := DirectStep(s, u, name, idCard, sex, face, now);
      && Holds(t, u, p.(cols := p.cols.(name := name, idcard := idCard, sex := sex, createtime := now, feature := face)),
               r.(cols := r.cols.(name := name, idcard := idCard, sex := sex, createtime := now, feature := face),
                  featuresize := |face|))
      && SamePlace(s, t, u) && OthersStay(s, t, u)
  {
    FoundOnBothSides(s, u);
    ChangeFinds(s, u, (q: Person) => q.(cols := DirectColumns(q.cols, name, idCard, sex, face, now)),
                (q: Row) => q.(cols := DirectColumns(q.cols, name, idCard, sex, face, now), featuresize := |face|));
  }

  /** A direct update stores name, employee id, sex and time, and the given feature or else the one that was stored. */
  lemma DirectUpdateIsStored(
      s: Store, u: string, name: string, idCard: string, sex: string, feature: Bytes, now: string, p: Person, r: Row)
    requires Valid(s) && Holds(s, u, p, r)
    ensures
      var t := Step(s, UpdateDirectly(u, name, idCard, sex, feature, true, now, true));
      var face := if feature == [] then r.cols.feature else feature;
      && Holds(t, u, p.(cols := p.cols.(name := name, idcard := idCard, sex := sex, createtime := now, feature := face)),
               r.(cols := r.cols.(name := name, idcard := idCard, sex := sex, createtime := now, feature := face),
                  featuresize := |face|))
      && SamePlace(s, t, u) && OthersStay(s, t, u)
  {
    DirectChange(s, u, name, idCard, sex, if feature == [] then r.cols.feature else feature, now, p, r);
  }

  /** When the stored feature could not be selected either, a direct update without a feature empties it. */
  lemma DirectUpdateEmptiesFace(
      s: Store, u: string, name: string, idCard: string, sex: string, now: string, p: Person, r: Row)
    requires Valid(s) && Holds(s, u, p, r)
    ensures
      var t := Step(s, UpdateDirectly(u, name, idCard, sex, [], false, now, true));
      && EntryOf(t, u).Some? && EntryOf(t, u).value.cols.feature == []
      && RowOf(t, u).Some? && RowOf(t, u).value.cols.feature == []
  {
    DirectChange(s, u, name, idCard, sex, [], now, p, r);
  }

  lemma ColumnsFinds(s: Store, u: string, set': Columns -> Columns, p: Person, r: Row)
    requires Valid(s) && Holds(s, u, p, r) && forall c :: set'(c).uuid == c.uuid
    ensures
      var t := ColumnsStep(s, u, set');
      Holds(t, u, p.(cols := set'(p.cols)), r.(cols := set'(r.cols))) && SamePlace(s, t, u) && OthersStay(s, t, u)
  {
    FoundOnBothSides(s, u);
    ChangeFinds(s, u, (q: Person) => q.(cols := set'(q.cols)), (q: Row) => q.(cols := set'(q.cols)));
  }

  /** A fingerprint is stored as it is given, and deleting it leaves none. */
  lemma FingerprintIsStored(s: Store, u: string, data: Bytes, p: Person, r: Row)
    requires Valid(s) && Holds(s, u, p, r) && u != ""
    ensures
      var t := Step(s, if data == [] then DeleteFingerprint(u, true) else UpdateFingerprint(u, data, true, true));
      && Holds(t, u, p.(cols := p.cols.(fingerprint := data)), r.(cols := r.cols.(fingerprint := data)))
      && SamePlace(s, t, u) && OthersStay(s, t, u)
  {
    ColumnsFinds(s, u, (c: Columns) => c.(fingerprint := data), p, r);
  }

  lemma FingerIdIsStored(s: Store, u: string, fingerId: int, p: Person, r: Row)
    requires Valid(s) && Holds(s, u, p, r)
    ensures
      var t := Step(s, UpdateFingerId(u, fingerId, true));
      && Holds(t, u, p.(cols := p.cols.(fingerId := fingerId)), r.(cols := r.cols.(fingerId := fingerId)))
      && SamePlace(s, t, u) && OthersStay(s, t, u)
  {
    ColumnsFinds(s, u, (c: Columns) => c.(fingerId := fingerId), p, r);
  }

  lemma NewColumnsAreStored(
      s: Store, u: string, attendanceMode: string, tenantId: string, id: string, status: string, p: Person, r: Row)
    requires Valid(s) && Holds(s, u, p, r)
    ensures
      var t := Step(s, UpdateNewColumns(u, attendanceMode, tenantId, id, status, true));
      && Holds(t, u,
               p.(cols := p.cols.(attendanceMode := attendanceMode, tenantId := tenantId, id := id, status := status)),
               r.(cols := r.cols.(attendanceMode := attendanceMode, tenantId := tenantId, id := id, status := status)))
      && SamePlace(s, t, u) && OthersStay(s, t, u)
  {
    ColumnsFinds(s, u, (c: Columns) =>
      c.(attendanceMode := attendanceMode, tenantId := tenantId, id := id, status := status), p, r);
  }

  lemma StatusIsFound(s: Store, u: string, uploadStatus: int, p: Person, r: Row)
    requires Valid(s) && Holds(s, u, p, r)
    ensures
      var t := UploadStatusStep(s, u, uploadStatus);
      && Holds(t, u, p.(uploadStatus := uploadStatus), r.(uploadStatus := Some(uploadStatus)))
      && SamePlace(s, t, u) && OthersStay(s, t, u)
  {
    FoundOnBothSides(s, u);
    ChangeFinds(s, u, (q: Person) => q.(uploadStatus := uploadStatus), (q: Row) => q.(uploadStatus := Some(uploadStatus)));
  }

  lemma StatusIsStored(s: Store, u: string, uploadStatus: int, p: Person, r: Row)
    requires Valid(s) && Holds(s, u, p, r)
    ensures
      var t := Step(s, SetUploadStatus(u, uploadStatus, true));
      && Holds(t, u, p.(uploadStatus := uploadStatus), r.(uploadStatus := Some(uploadStatus)))
      && SamePlace(s, t, u) && OthersStay(s, t, u)
  {
    StatusIsFound(s, u, uploadStatus, p, r);
  }

  lemma IdsAreCleared(s: Store, u: string, p: Person, r: Row)
    requires Valid(s) && Holds(s, u, p, r)
    ensures
      var t := Step(s, ClearAllFingerIds(true));
      && Holds(t, u, p.(cols := p.cols.(fingerId := 0)), r.(cols := r.cols.(fingerId := 0))) && SamePlace(s, t, u)
  {
    FoundOnBothSides(s, u);
    SameUuidsFound(s, ClearAllStep(s), u);
  }

  /** A deleted person is found nowhere. */
  lemma DeletedIsGone(s: Store, u: string)
    requires Valid(s)
    ensures
      var t := Step(s, Delete(u, true));
      EntryOf(t, u) == None && RowOf(t, u) == None && OthersStay(s, t, u)
  {
    var t, k := DeleteStep(s, u, true), FindUuid(s.persons, u);
    FoundOnBothSides(s, u);
    if k < |s.table| {
      DeleteRowsIs(s.table, u, k);
      assert t == Store(Without(s.persons, k), Without(s.table, k));
      EntriesDiffer(s);
      forall v ensures EntryOf(t, v) == (if v == u then None else EntryOf(s, v)) {
        EntryWithout(s.persons, k, v);
      }
      forall v ensures RowOf(t, v) == (if v == u then None else RowOf(s, v)) {
        RowWithout(s.table, k, v);
      }
    } else {
      DeleteNone(s.table, u);
    }
  }

  lemma EntriesDiffer(s: Store)
    requires Valid(s)
    ensures forall i, j | 0 <= i < j < |s.persons| :: s.persons[i].cols.uuid != s.persons[j].cols.uuid
    ensures forall i | 0 <= i < |s.persons| :: s.persons[i].cols.uuid == s.table[i].cols.uuid
  {
    forall i | 0 <= i < |s.table| ensures s.persons[i].cols.uuid == s.table[i].cols.uuid {
      SameUuids(s, i);
    }
  }

  lemma EntryWithout(persons: seq<Person>, k: nat, v: string)
    requires k < |persons| && forall i, j | 0 <= i < j < |persons| :: persons[i].cols.uuid != persons[j].cols.uuid
    ensures EntryIn(Without(persons, k), v) == if v == persons[k].cols.uuid then None else EntryIn(persons, v)
  {
    var q, j := Without(persons, k), FindUuid(persons, v);
    if v != persons[k].cols.uuid && j < |persons| {
      assert q[if j < k then j else j - 1] == persons[j];
    }
    var i := FindUuid(q, v);
    if i < |q| {
      assert q[i] == persons[if i < k then i else i + 1];
    }
  }

  lemma RowWithout(table: seq<Row>, k: nat, v: string)
    requires k < |table| && UniqueUuids(table)
    ensures RowIn(Without(table, k), v) == if v == table[k].cols.uuid then None else RowIn(table, v)
  {
    var q, j := Without(table, k), SelectUuid(table, v);
    if v != table[k].cols.uuid && j < |table| {
      assert q[if j < k then j else j - 1] == table[j];
    }
    var i := SelectUuid(q, v);
    if i < |q| {
      assert q[i] == table[if i < k then i else i + 1];
    }
  }

  /** The value of a text column after an update: an empty argument leaves it. */
  function NowText(argument: string, before: string): string {
    if argument == "" then before else argument
  }

  /** Columns after an update: c with the arguments that are not empty, the given level and time, and a new face, which
      is empty when neither an embedding nor a picture with a face came with the request. */
  function AsRequested(c: Columns, req: UpdateRequest, face: Bytes, now: string): Columns {
    c.(name := NowText(req.name, c.name), idcard := NowText(req.idCard, c.idcard), iccard := NowText(req.icCard, c.iccard),
       sex := NowText(req.sex, c.sex), department := NowText(req.department, c.department),
       timeOfAccess := NowText(req.timeOfAccess, c.timeOfAccess),
       attendanceMode := NowText(req.attendanceMode, c.attendanceMode), tenantId := NowText(req.tenantId, c.tenantId),
       id := NowText(req.id, c.id), status := NowText(req.status, c.status), accessLevel := req.accessLevel,
       feature := face, createtime := now)
  }

  /** An update in full. The row takes the new sex from the entry, which may differ from it in the way that loading
      smooths out; finger id, image, upload status of the row and all other columns stay. */
  lemma UpdateIsStored(s: Store, req: UpdateRequest, now: string, p: Person, r: Row, face: Bytes)
    requires Valid(s) && Holds(s, req.uuid, p, r) && req.uuid != ""
    requires req.embedding != [] ==> face == req.embedding
    requires req.embedding == [] ==> !req.picture.NoFeature?
    requires req.embedding == [] && req.picture.NoPicture? ==> face == []
    requires req.embedding == [] && req.picture.FeatureFound? ==> face == req.picture.feature
    ensures
      var t := Step(s, Update(req, now, true));
      && Holds(t, req.uuid,
               Person(AsRequested(p.cols, req, face, now),
                      if req.uploadStatus == None then p.uploadStatus else req.uploadStatus.value),
               r.(cols := AsRequested(r.cols, req, face, now).(sex := NowText(req.sex, p.cols.sex)),
                  featuresize := |face|))
      && SamePlace(s, t, req.uuid) && OthersStay(s, t, req.uuid)
  {
    var t, k := UpdateStep(s, req, now, true), FindUuid(s.persons, req.uuid);
    FoundOnBothSides(s, req.uuid);
    ShownIff(p.cols, r.cols);
    var st := UpdatedColumns(p.cols, req, now);
    UpdateRowsIs(s.table, req.uuid, (q: Row) => q.(cols := WrittenColumns(q.cols, st), featuresize := |st.feature|));
    assert st == AsRequested(p.cols, req, face, now);
    assert t.table[k].cols == WrittenColumns(r.cols, st);
    ReplacedIsFound(s, t, k, req.uuid);
  }

  lemma EntryReplaced(persons: seq<Person>, q: seq<Person>, k: nat, v: string)
    requires k < |persons| == |q| && q[k].cols.uuid == persons[k].cols.uuid
    requires FindUuid(persons, persons[k].cols.uuid) == k
    requires forall i | 0 <= i < |persons| && i != k :: q[i] == persons[i]
    ensures FindUuid(q, v) == FindUuid(persons, v)
    ensures EntryIn(q, v) == if v == q[k].cols.uuid then Some(q[k]) else EntryIn(persons, v)
  {
    assert forall i | 0 <= i < |persons| :: q[i].cols.uuid == persons[i].cols.uuid;
  }

  lemma RowReplaced(table: seq<Row>, q: seq<Row>, k: nat, v: string)
    requires k < |table| == |q| && q[k].cols.uuid == table[k].cols.uuid
    requires SelectUuid(table, table[k].cols.uuid) == k
    requires forall i | 0 <= i < |table| && i != k :: q[i] == table[i]
    ensures SelectUuid(q, v) == SelectUuid(table, v)
    ensures RowIn(q, v) == if v == q[k].cols.uuid then Some(q[k]) else RowIn(table, v)
  {
    assert forall i | 0 <= i < |table| :: q[i].cols.uuid == table[i].cols.uuid;
  }

  /** One entry and one row are replaced under the same uuid. */
  lemma ReplacedIsFound(s: Store, t: Store, k: nat, u: string)
    requires Valid(s) && k == FindUuid(s.persons, u) < |s.persons| && |t.persons| == |s.persons| && |t.table| == |s.table|
    requires t.persons[k].cols.uuid == u == t.table[k].cols.uuid
    requires forall i | 0 <= i < |s.table| && i != k :: t.persons[i] == s.persons[i] && t.table[i] == s.table[i]
    ensures Holds(t, u, t.persons[k], t.table[k]) && SamePlace(s, t, u) && OthersStay(s, t, u)
  {
    FoundOnBothSides(s, u);
    EntryReplaced(s.persons, t.persons, k, u);
    RowReplaced(s.table, t.table, k, u);
    forall v ensures EntryOf(t, v) == (if v == u then Some(t.persons[k]) else EntryOf(s, v)) {
      EntryReplaced(s.persons, t.persons, k, v);
    }
    forall v ensures RowOf(t, v) == (if v == u then Some(t.table[k]) else RowOf(s, v)) {
      RowReplaced(s.table, t.table, k, v);
    }
  }

  /** The result code of an update: 1 exactly when the store was updated, except that a picture without a face gives its
      own code less 10; -1 without a uuid, -5 for nobody, -6 when the statement fails. */
  lemma UpdateReports(s: Store, req: UpdateRequest, now: string, ok: bool)
    ensures
      var code := UpdateResult(s, req, ok);
      var noFace := req.embedding == [] && req.picture.NoFeature?;
      if req.uuid == "" then code == -1
      else if EntryOf(s, req.uuid) == None then code == -5
      else if noFace then code == req.picture.code - 10
      else code == if ok then 1 else -6
    ensures
      req.uuid == "" || EntryOf(s, req.uuid) == None || (req.embedding == [] && req.picture.NoFeature?) || !ok
      ==> Step(s, Update(req, now, ok)) == s
  {
  }

  /** The statement of the operation fails, or the operation refuses its arguments. */
  predicate Fails(s: Store, op: Op) {
    match op
    case Register(_, world) => !world.writeOk
    case UpdateFeature(uuid, _, _, ok) => !ok || EntryOf(s, uuid) == None || EntryOf(s, uuid).value.cols.idcard == ""
    case UpdateFingerprint(uuid, data, columnOk, ok) =>
      !ok || !columnOk || uuid == "" || data == [] || RowOf(s, uuid) == None
    case DeleteFingerprint(uuid, ok) => !ok || uuid == ""
    case Update(req, _, ok) =>
      !ok || req.uuid == "" || EntryOf(s, req.uuid) == None || (req.embedding == [] && req.picture.NoFeature?)
    case _ => !op.ok
  }

  /** An operation that fails changes nothing; but a failed deletion drops the person from the list. */
  lemma FailureChangesNothing(s: Store, op: Op)
    requires Fails(s, op)
    ensures !op.Delete? ==> Step(s, op) == s
    ensures op.Delete? ==> Step(s, op).table == s.table
  {
  }

  lemma FailedDeletionUnlists(s: Store, u: string)
    requires Valid(s)
    ensures
      var t := Step(s, Delete(u, false));
      EntryOf(t, u) == None && t.table == s.table && forall v | v != u :: EntryOf(t, v) == EntryOf(s, v)
  {
    var k := FindUuid(s.persons, u);
    if k < |s.persons| {
      EntriesDiffer(s);
      forall v ensures EntryIn(Without(s.persons, k), v) == (if v == u then None else EntryOf(s, v)) {
        EntryWithout(s.persons, k, v);
      }
    }
  }

  // ---------- Registering ----------

  /** What a registration makes of its arguments: the entry under this uuid and key. */
  function NewPerson(u: string, key: int, reg: Registration, now: string): Person {
    Person(
      Columns(
        uuid := u, personid := key, persontype := 0, name := reg.name, sex := if reg.sex == "" then "Unknown" else reg.sex,
        createtime := now, idcard := reg.idCard, iccard := if reg.icCard == "" then "000000" else reg.icCard,
        feature := reg.feature, gids := "0", pids := "2", timeOfAccess := reg.timeOfAccess, department := reg.department,
        attendanceMode := reg.attendanceMode, tenantId := reg.tenantId, id := reg.id, status := reg.status,
        fingerprint := [], fingerId := 0, accessLevel := reg.accessLevel),
      reg.uploadStatus)
  }

  /** And the row, whose finger id is the column default. */
  function NewRow(p: Person, world: RegisterWorld): Row {
    Row(p.cols.(fingerId := -1), world.image, |p.cols.feature|, world.columnDefault)
  }

  lemma RegisteredIs(key: (string, int), reg: Registration, world: RegisterWorld)
    ensures
      var c := RegisterColumns(key, reg, world.now);
      Person(c, reg.uploadStatus) == NewPerson(key.0, key.1, reg, world.now)
      && RegisterRow(c, world) == NewRow(NewPerson(key.0, key.1, reg, world.now), world)
  {
  }

  /** A known employee is registered again: under the old uuid and key the uuid leads to the new data. */
  lemma KnownIsRegistered(s: Store, reg: Registration, world: RegisterWorld)
    requires Valid(s) && world.writeOk && world.selectOk && SelectIdcard(s.table, reg.idCard) < |s.table|
    ensures
      var old' := s.table[SelectIdcard(s.table, reg.idCard)].cols;
      var t, p := Step(s, Register(reg, world)), NewPerson(old'.uuid, old'.personid, reg, world.now);
      Holds(t, old'.uuid, p, NewRow(p, world)) && SamePlace(s, t, old'.uuid) && OthersStay(s, t, old'.uuid)
  {
    var k := SelectIdcard(s.table, reg.idCard);
    var u, key := s.table[k].cols.uuid, RegisterKey(s, reg, world);
    FoundOnBothSides(s, u);
    SameIndex(s, "", reg.idCard);
    RegisteredIs(key, reg, world);
    UpsertReplaces(s.table, NewRow(NewPerson(key.0, key.1, reg, world.now), world), k);
    ReplacedIsFound(s, RegisterStep(s, reg, world), k, u);
  }

  lemma NewKey(s: Store, reg: Registration, world: RegisterWorld)
    requires world.maxOk || s.table == []
    requires Keyed(s.table) && (!world.selectOk || SelectIdcard(s.table, reg.idCard) == |s.table|)
    ensures
      RegisterKey(s, reg, world)
      == (if |reg.uuid| > 3 then reg.uuid else world.newUuid,
          if s.table == [] then 1 else s.table[|s.table| - 1].cols.personid + 1)
  {
  }

  lemma NewStore(s: Store, reg: Registration, world: RegisterWorld)
    requires Valid(s) && world.writeOk && KnownRow(s, reg, world) == |s.table| && Admissible(s, Register(reg, world))
    ensures
      var key := RegisterKey(s, reg, world);
      var p := NewPerson(key.0, key.1, reg, world.now);
      && (world.maxOk || s.table == []) && SelectUuid(s.table, key.0) == |s.table|
      && Step(s, Register(reg, world)) == Store(s.persons + [p], s.table + [NewRow(p, world)])
  {
    RegisteredIs(RegisterKey(s, reg, world), reg, world);
    RegisteredStore(s, reg, world);
  }

  /** A new employee gets the given uuid, or a fresh one when it has at most three characters, and the next key. */
  lemma NewIsRegistered(s: Store, reg: Registration, world: RegisterWorld)
    requires Valid(s) && world.writeOk && (!world.selectOk || SelectIdcard(s.table, reg.idCard) == |s.table|)
    requires Admissible(s, Register(reg, world))
    ensures
      var u := if |reg.uuid| > 3 then reg.uuid else world.newUuid;
      var key := if s.table == [] then 1 else s.table[|s.table| - 1].cols.personid + 1;
      var t, p := Step(s, Register(reg, world)), NewPerson(u, key, reg, world.now);
      && RowOf(s, u) == None && Holds(t, u, p, NewRow(p, world)) && OthersStay(s, t, u)
      && FindUuid(t.persons, u) == |s.persons| == |s.table| == SelectUuid(t.table, u)
  {
    var key := RegisterKey(s, reg, world);
    var p := NewPerson(key.0, key.1, reg, world.now);
    NewStore(s, reg, world);
    NewKey(s, reg, world);
    AppendedIsFound(s, p, NewRow(p, world));
  }

  lemma EntryAppended(persons: seq<Person>, p: Person, v: string)
    requires FindUuid(persons, p.cols.uuid) == |persons|
    ensures EntryIn(persons + [p], v) == if v == p.cols.uuid then Some(p) else EntryIn(persons, v)
    ensures FindUuid(persons + [p], p.cols.uuid) == |persons|
  {
    var q := persons + [p];
    assert q[|persons|] == p && forall i | 0 <= i < |persons| :: q[i] == persons[i];
  }

  lemma RowAppended(table: seq<Row>, r: Row, v: string)
    requires SelectUuid(table, r.cols.uuid) == |table|
    ensures RowIn(table + [r], v) == if v == r.cols.uuid then Some(r) else RowIn(table, v)
    ensures SelectUuid(table + [r], r.cols.uuid) == |table|
  {
    var q := table + [r];
    assert q[|table|] == r && forall i | 0 <= i < |table| :: q[i] == table[i];
  }

  lemma AppendedIsFound(s: Store, p: Person, r: Row)
    requires Valid(s) && p.cols.uuid == r.cols.uuid && SelectUuid(s.table, r.cols.uuid) == |s.table|
    ensures
      var t, u := Store(s.persons + [p], s.table + [r]), r.cols.uuid;
      && Holds(t, u, p, r) && OthersStay(s, t, u)
      && FindUuid(t.persons, u) == |s.persons| == |s.table| == SelectUuid(t.table, u)
  {
    var t := Store(s.persons + [p], s.table + [r]);
    FoundOnBothSides(s, r.cols.uuid);
    forall v ensures EntryOf(t, v) == (if v == r.cols.uuid then Some(p) else EntryOf(s, v)) {
      EntryAppended(s.persons, p, v);
    }
    forall v ensures RowOf(t, v) == (if v == r.cols.uuid then Some(r) else RowOf(s, v)) {
      RowAppended(s.table, r, v);
    }
    EntryAppended(s.persons, p, r.cols.uuid);
    RowAppended(s.table, r, r.cols.uuid);
  }

  // ---------- Runs ----------

  /** The operation is about this person. */
  predicate Concerns(s: Store, op: Op, u: string) {
    match op
    case Register(reg, world) =>
      var k := SelectIdcard(s.table, reg.idCard);
      if world.selectOk && k < |s.table| then s.table[k].cols.uuid == u
      else (if |reg.uuid| > 3 then reg.uuid else world.newUuid) == u
    case Update(req, _, _) => req.uuid == u
    case ClearAllFingerIds(_) => true
    case _ => op.uuid == u
  }

  lemma RegisterLeavesOthers(s: Store, reg: Registration, world: RegisterWorld, u: string)
    requires Valid(s) && Admissible(s, Register(reg, world)) && !Concerns(s, Register(reg, world), u)
    ensures var t := Step(s, Register(reg, world)); EntryOf(t, u) == EntryOf(s, u) && RowOf(t, u) == RowOf(s, u)
  {
    if world.writeOk {
      if world.selectOk && SelectIdcard(s.table, reg.idCard) < |s.table| {
        KnownIsRegistered(s, reg, world);
      } else {
        NewIsRegistered(s, reg, world);
      }
    }
  }

  lemma DeleteLeavesOthers(s: Store, uuid: string, ok: bool, u: string)
    requires Valid(s) && Admissible(s, Delete(uuid, ok)) && uuid != u
    ensures var t := Step(s, Delete(uuid, ok)); EntryOf(t, u) == EntryOf(s, u) && RowOf(t, u) == RowOf(s, u)
  {
    if ok {
      DeletedIsGone(s, uuid);
    }
  }

  /** An update by request changes the store in one place, or not at all. */
  lemma UpdateLeavesOthers(s: Store, req: UpdateRequest, now: string, ok: bool, u: string)
    requires Valid(s) && req.uuid != u
    ensures var t := Step(s, Update(req, now, ok)); EntryOf(t, u) == EntryOf(s, u) && RowOf(t, u) == RowOf(s, u)
  {
    if Updates(s, req, ok) {
      FoundOnBothSides(s, req.uuid);
      UpdateIsStored(s, req, now, EntryOf(s, req.uuid).value, RowOf(s, req.uuid).value, UpdatedFeature(req));
    }
  }

  lemma FaceLeavesOthers(s: Store, op: Op, u: string)
    requires op.UpdateDirectly? || op.UpdateFeature?
    requires op.uuid != u
    ensures var t := Step(s, op); EntryOf(t, u) == EntryOf(s, u) && RowOf(t, u) == RowOf(s, u)
  {
    match op
    case UpdateDirectly(uuid, name, idCard, sex, feature, selectOk, now, ok) =>
      var face := DirectFeature(s, uuid, feature, selectOk);
      ChangeFinds(s, uuid, (q: Person) => q.(cols := DirectColumns(q.cols, name, idCard, sex, face, now)),
                  (q: Row) => q.(cols := DirectColumns(q.cols, name, idCard, sex, face, now), featuresize := |face|));
    case UpdateFeature(uuid, feature, image, ok) =>
      ChangeFinds(s, uuid, (q: Person) => q.(cols := q.cols.(feature := feature)),
                  (q: Row) => q.(cols := q.cols.(feature := feature), featuresize := |feature|,
                                 image := if image.Some? then image.value else q.image));
  }

  lemma StatusChange(s: Store, uuid: string, v: int, u: string)
    ensures
      var t := UploadStatusStep(s, uuid, v);
      && (u != uuid ==> EntryOf(t, u) == EntryOf(s, u) && RowOf(t, u) == RowOf(s, u))
      && (EntryOf(s, u).Some? ==> EntryOf(t, u).Some? && EntryOf(t, u).value.cols == EntryOf(s, u).value.cols)
      && (RowOf(s, u).Some? ==>
            RowOf(t, u).Some? && RowOf(t, u).value.(uploadStatus := None) == RowOf(s, u).value.(uploadStatus := None))
  {
    ChangeFinds(s, uuid, (q: Person) => q.(uploadStatus := v), (q: Row) => q.(uploadStatus := Some(v)));
  }

  /** A change of columns that leaves uuid and face alone. */
  lemma ColumnsChange(s: Store, uuid: string, set': Columns -> Columns, u: string)
    requires forall c :: set'(c).uuid == c.uuid && set'(c).feature == c.feature
    ensures Spares(s, ColumnsStep(s, uuid, set'), uuid, u)
  {
    ChangeFinds(s, uuid, (q: Person) => q.(cols := set'(q.cols)), (q: Row) => q.(cols := set'(q.cols)));
  }

  /** List and table hold this face for the person. */
  predicate HasFace(s: Store, u: string, f: Bytes) {
    && EntryOf(s, u).Some? && EntryOf(s, u).value.cols.feature == f
    && RowOf(s, u).Some? && RowOf(s, u).value.cols.feature == f && RowOf(s, u).value.featuresize == |f|
  }

  /** What a change of single columns leaves: everybody else, and the face. */
  ghost predicate Spares(s: Store, t: Store, uuid: string, u: string) {
    && (u != uuid ==> EntryOf(t, u) == EntryOf(s, u) && RowOf(t, u) == RowOf(s, u))
    && (forall f :: HasFace(s, u, f) ==> HasFace(t, u, f))
  }

  lemma ColumnOps(s: Store, op: Op, u: string)
    requires op.UpdateFingerprint? || op.DeleteFingerprint? || op.UpdateFingerId? || op.UpdateNewColumns?
    ensures Spares(s, Step(s, op), op.uuid, u)
  {
    if op.UpdateNewColumns? {
      NewColumnsOpIs(s, op);
      ColumnsChange(s, op.uuid, (c: Columns) =>
        c.(attendanceMode := op.attendanceMode, tenantId := op.tenantId, id := op.id, status := op.status), u);
    } else if op.UpdateFingerId? {
      FingerIdOpIs(s, op);
      ColumnsChange(s, op.uuid, (c: Columns) => c.(fingerId := op.fingerId), u);
    } else {
      FingerprintOpIs(s, op);
      FingerprintChange(s, op.uuid, if op.UpdateFingerprint? then op.data else [], u);
    }
  }

  lemma FingerprintChange(s: Store, uuid: string, data: Bytes, u: string)
    ensures Spares(s, FingerprintStep(s, uuid, data), uuid, u)
  {
    ColumnsChange(s, uuid, (c: Columns) => c.(fingerprint := data), u);
  }

  /** No operation touches a person it is not about. */
  lemma StepLeavesOthers(s: Store, op: Op, u: string)
    requires Valid(s) && Admissible(s, op) && !Concerns(s, op, u)
    ensures var t := Step(s, op); EntryOf(t, u) == EntryOf(s, u) && RowOf(t, u) == RowOf(s, u)
  {
    if op.Register? {
      RegisterLeavesOthers(s, op.reg, op.world, u);
    } else if op.Update? {
      UpdateLeavesOthers(s, op.req, op.now, op.ok, u);
    } else if op.UpdateDirectly? || op.UpdateFeature? {
      FaceLeavesOthers(s, op, u);
    } else if op.SetUploadStatus? {
      StatusChange(s, op.uuid, op.uploadStatus, u);
    } else if op.Delete? {
      DeleteLeavesOthers(s, op.uuid, op.ok, u);
    } else {
      ColumnOps(s, op, u);
    }
  }

  ghost predicate NeverConcerned(s: Store, ops: seq<Op>, u: string) {
    forall i | 0 <= i < |ops| :: !Concerns(Run(s, ops[..i]), ops[i], u)
  }

  lemma FrontIsUnconcerned(s: Store, ops: seq<Op>, u: string)
    requires NeverConcerned(s, ops, u) && ops != []
    ensures NeverConcerned(s, ops[..|ops| - 1], u) && !Concerns(Run(s, ops[..|ops| - 1]), ops[|ops| - 1], u)
  {
    var n := |ops| - 1;
    assert forall i | 0 <= i < n :: ops[..n][..i] == ops[..i] && ops[..n][i] == ops[i];
  }

  /** Over a run that is never about a person, entry and row of that person stay as they were. */
  lemma {:induction false} RunLeavesOthers(s: Store, ops: seq<Op>, u: string)
    requires Valid(s) && AdmissibleRun(s, ops) && NeverConcerned(s, ops, u)
    ensures var t := Run(s, ops); EntryOf(t, u) == EntryOf(s, u) && RowOf(t, u) == RowOf(s, u)
    decreases |ops|
  {
    if ops != [] {
      var n := |ops| - 1;
      FrontIsUnconcerned(s, ops, u);
      RunLeavesOthers(s, ops[..n], u);
      RunKeepsValid(s, ops[..n]);
      StepLeavesOthers(Run(s, ops[..n]), ops[n], u);
    }
  }

  /** The operation may give the person another face, or none. */
  predicate Refaces(s: Store, op: Op, u: string) {
    (op.Register? || op.Update? || op.UpdateDirectly? || op.UpdateFeature? || op.Delete?) && Concerns(s, op, u)
  }

  lemma ClearAllKeepsFace(s: Store, u: string, f: Bytes)
    requires Valid(s) && HasFace(s, u, f)
    ensures HasFace(ClearAllStep(s), u, f)
  {
    IdsAreCleared(s, u, EntryOf(s, u).value, RowOf(s, u).value);
  }

  lemma StepKeepsFace(s: Store, op: Op, u: string, f: Bytes)
    requires Valid(s) && Admissible(s, op) && HasFace(s, u, f) && !Refaces(s, op, u)
    ensures HasFace(Step(s, op), u, f)
  {
    if op.ClearAllFingerIds? {
      if op.ok {
        ClearAllKeepsFace(s, u, f);
      }
    } else if op.SetUploadStatus? {
      StatusChange(s, op.uuid, op.uploadStatus, u);
    } else if op.UpdateFingerprint? || op.DeleteFingerprint? || op.UpdateFingerId? || op.UpdateNewColumns? {
      ColumnOps(s, op, u);
    } else {
      StepLeavesOthers(s, op, u);
    }
  }

  ghost predicate NeverRefaced(s: Store, ops: seq<Op>, u: string) {
    forall i | 0 <= i < |ops| :: !Refaces(Run(s, ops[..i]), ops[i], u)
  }

  lemma FrontIsUnrefaced(s: Store, ops: seq<Op>, u: string)
    requires NeverRefaced(s, ops, u) && ops != []
    ensures NeverRefaced(s, ops[..|ops| - 1], u) && !Refaces(Run(s, ops[..|ops| - 1]), ops[|ops| - 1], u)
  {
    var n := |ops| - 1;
    assert forall i | 0 <= i < n :: ops[..n][..i] == ops[..i] && ops[..n][i] == ops[i];
  }

  lemma {:induction false} RunKeepsFace(s: Store, ops: seq<Op>, u: string, f: Bytes)
    requires Valid(s) && AdmissibleRun(s, ops) && HasFace(s, u, f) && NeverRefaced(s, ops, u)
    ensures HasFace(Run(s, ops), u, f)
    decreases |ops|
  {
    if ops != [] {
      var n := |ops| - 1;
      FrontIsUnrefaced(s, ops, u);
      RunKeepsFace(s, ops[..n], u, f);
      RunKeepsValid(s, ops[..n]);
      StepKeepsFace(Run(s, ops[..n]), ops[n], u, f);
    }
  }

  /** A face that was stored for an employee is what list and table hold at the end of any run that registers, updates or
      deletes that employee no more, whatever else the run does to this person and to all others. */
  lemma StoredFaceStays(s: Store, u: string, feature: Bytes, image: Option<string>, ops: seq<Op>)
    requires Valid(s) && EntryOf(s, u).Some? && EntryOf(s, u).value.cols.idcard != ""
    requires
      var t := Step(s, UpdateFeature(u, feature, image, true));
      AdmissibleRun(t, ops) && NeverRefaced(t, ops, u)
    ensures HasFace(Run(Step(s, UpdateFeature(u, feature, image, true)), ops), u, feature)
  {
    FoundOnBothSides(s, u);
    FaceIsStored(s, u, feature, image, EntryOf(s, u).value, RowOf(s, u).value);
    StepKeepsValid(s, UpdateFeature(u, feature, image, true));
    RunKeepsFace(Step(s, UpdateFeature(u, feature, image, true)), ops, u, feature);
  }
}
