/** When the list and the table stay in agreement: exactly, for every operation and every outcome of its statements. */
module StoreAgreement {
  import opened Wrappers
  import opened PersonStore

  // ---------- Searching both sides ----------

  lemma ShownKeepsKeys(c: Columns)
    ensures Shown(c).uuid == c.uuid && Shown(c).idcard == c.idcard
    ensures c.personid >= 1 ==> Shown(c).personid == c.personid
  {
  }

  lemma SameUuids(s: Store, i: nat)
    requires Agree(s) && i < |s.table|
    ensures s.persons[i].cols.uuid == s.table[i].cols.uuid && s.persons[i].cols.idcard == s.table[i].cols.idcard
  {
    assert Shown(s.persons[i].cols) == Shown(s.table[i].cols);
    ShownKeepsKeys(s.persons[i].cols);
    ShownKeepsKeys(s.table[i].cols);
  }

  /** A person is found at the same place in the list and in the table. */
  lemma SameIndex(s: Store, uuid: string, idcard: string)
    requires Agree(s)
    ensures FindUuid(s.persons, uuid) == SelectUuid(s.table, uuid)
    ensures FindIdcard(s.persons, idcard) == SelectIdcard(s.table, idcard)
  {
    forall i | 0 <= i < |s.table|
      ensures s.persons[i].cols.uuid == s.table[i].cols.uuid && s.persons[i].cols.idcard == s.table[i].cols.idcard
    {
      SameUuids(s, i);
    }
  }

  /** With distinct uuids an UPDATE touches one row. */
  lemma UpdateRowsIs(table: seq<Row>, uuid: string, set': Row -> Row)
    requires UniqueUuids(table)
    ensures
      var k := SelectUuid(table, uuid);
      UpdateRows(table, uuid, set') == if k < |table| then table[k := set'(table[k])] else table
  {
  }

  lemma {:induction false} DeleteNone(table: seq<Row>, uuid: string)
    requires forall i | 0 <= i < |table| :: table[i].cols.uuid != uuid
    ensures DeleteRows(table, uuid) == table
  {
    if table != [] {
      DeleteNone(table[1..], uuid);
    }
  }

  function Without<T>(s: seq<T>, k: nat): (t: seq<T>)
    requires k < |s|
    ensures |t| == |s| - 1
    ensures forall i | 0 <= i < |t| :: t[i] == s[if i < k then i else i + 1]
  {
    s[..k] + s[k + 1..]
  }

  /** With distinct uuids a DELETE removes one row. */
  lemma {:induction false} DeleteRowsIs(table: seq<Row>, uuid: string, k: nat)
    requires UniqueUuids(table) && k < |table| && table[k].cols.uuid == uuid
    ensures DeleteRows(table, uuid) == Without(table, k)
  {
    if k == 0 {
      DeleteNone(table[1..], uuid);
    } else {
      assert table[0].cols.uuid != uuid;
      DeleteRowsIs(table[1..], uuid, k - 1);
      assert [table[0]] + (table[1..][..k - 1] + table[1..][k..]) == table[..k] + table[k + 1..];
    }
  }

  // ---------- Changing, removing and adding one person ----------

  /** What a valid store asks of the table alone. */
  ghost predicate Sound(table: seq<Row>) {
    UniqueUuids(table) && Keyed(table) && Sized(table)
  }

  lemma ReplaceSound(table: seq<Row>, k: nat, r: Row)
    requires Sound(table) && k < |table| && r.featuresize == |r.cols.feature|
    requires r.cols.uuid == table[k].cols.uuid && r.cols.personid == table[k].cols.personid
    ensures Sound(table[k := r])
  {
    var t := table[k := r];
    assert forall i | 0 <= i < |t| :: t[i].cols.uuid == table[i].cols.uuid && t[i].cols.personid == table[i].cols.personid;
  }

  lemma ReplaceAgrees(s: Store, k: nat, p: Person, r: Row)
    requires Agree(s) && k < |s.table| && Shown(p.cols) == Shown(r.cols)
    ensures Agree(Store(s.persons[k := p], s.table[k := r]))
  {
  }

  /** Replacing a person on both sides by entries that show the same, under the same key. */
  lemma ReplaceOne(s: Store, k: nat, p: Person, r: Row)
    requires Valid(s) && k < |s.table|
    requires Shown(p.cols) == Shown(r.cols) && r.featuresize == |r.cols.feature|
    requires r.cols.uuid == s.table[k].cols.uuid && r.cols.personid == s.table[k].cols.personid
    ensures Valid(Store(s.persons[k := p], s.table[k := r]))
  {
    ReplaceSound(s.table, k, r);
    ReplaceAgrees(s, k, p, r);
  }

  lemma RemoveSound(table: seq<Row>, k: nat)
    requires Sound(table) && k < |table|
    ensures Sound(Without(table, k))
  {
  }

  lemma RemoveAgrees(s: Store, k: nat)
    requires Agree(s) && k < |s.table|
    ensures Agree(Store(Without(s.persons, k), Without(s.table, k)))
  {
  }

  lemma RemoveOne(s: Store, k: nat)
    requires Valid(s) && k < |s.table|
    ensures Valid(Store(Without(s.persons, k), Without(s.table, k)))
  {
    RemoveSound(s.table, k);
    RemoveAgrees(s, k);
  }

  /** The same columns on both sides. */
  lemma SameColumns(s: Store, t: Store)
    requires Valid(s) && |t.persons| == |s.persons| && |t.table| == |s.table|
    requires forall i | 0 <= i < |s.persons| :: t.persons[i].cols == s.persons[i].cols
    requires forall i | 0 <= i < |s.table| ::
      t.table[i].cols == s.table[i].cols && t.table[i].featuresize == s.table[i].featuresize
    ensures Valid(t)
  {
  }

  lemma AppendSound(table: seq<Row>, r: Row)
    requires Sound(table) && r.featuresize == |r.cols.feature| && r.cols.personid >= 1
    requires forall i | 0 <= i < |table| :: table[i].cols.personid < r.cols.personid
    ensures Sound(table + [r]) <==> forall i | 0 <= i < |table| :: table[i].cols.uuid != r.cols.uuid
  {
    var t := table + [r];
    assert t[|table|] == r && forall i | 0 <= i < |table| :: t[i] == table[i];
  }

  lemma AppendAgrees(s: Store, p: Person, r: Row)
    requires Agree(s) && Shown(p.cols) == Shown(r.cols)
    ensures Agree(Store(s.persons + [p], s.table + [r]))
  {
  }

  lemma AppendOne(s: Store, p: Person, r: Row)
    requires Valid(s)
    requires Shown(p.cols) == Shown(r.cols) && r.featuresize == |r.cols.feature|
    requires forall i | 0 <= i < |s.table| :: s.table[i].cols.personid < r.cols.personid
    requires r.cols.personid >= 1
    ensures
      Valid(Store(s.persons + [p], s.table + [r]))
      <==> forall i | 0 <= i < |s.table| :: s.table[i].cols.uuid != r.cols.uuid
  {
    AppendSound(s.table, r);
    AppendAgrees(s, p, r);
  }

  // ---------- Registration ----------

  lemma {:induction false} UpsertReplaces(table: seq<Row>, row: Row, k: nat)
    requires Keyed(table) && k < |table| && table[k].cols.personid == row.cols.personid
    ensures Upsert(table, row) == table[k := row]
  {
    if k > 0 {
      assert table[0].cols.personid < table[k].cols.personid;
      UpsertReplaces(table[1..], row, k - 1);
      assert [table[0]] + table[1..][k - 1 := row] == table[k := row];
    } else {
      assert table[0 := row] == [row] + table[1..];
    }
  }

  lemma {:induction false} UpsertAppends(table: seq<Row>, row: Row)
    requires forall i | 0 <= i < |table| :: table[i].cols.personid < row.cols.personid
    ensures Upsert(table, row) == table + [row]
  {
    if table != [] {
      UpsertAppends(table[1..], row);
      assert [table[0]] + (table[1..] + [row]) == table + [row];
    }
  }

  lemma NextPersonIdIsFresh(table: seq<Row>)
    requires Keyed(table)
    ensures NextPersonId(table) >= 1 && forall i | 0 <= i < |table| :: table[i].cols.personid < NextPersonId(table)
  {
    if table != [] {
      var last := |table| - 1;
      assert forall i | 0 <= i < last :: table[i].cols.personid < table[last].cols.personid;
    }
  }

  lemma RegisteredShows(key: (string, int), reg: Registration, world: RegisterWorld)
    ensures
      var c := RegisterColumns(key, reg, world.now);
      var r := RegisterRow(c, world);
      && Shown(c) == Shown(r.cols) && r.featuresize == |r.cols.feature|
      && r.cols.uuid == key.0 && r.cols.personid == key.1
  {
  }

  /** Registering a known employee replaces exactly that employee's entry and row. */
  lemma RegisterKnown(s: Store, reg: Registration, world: RegisterWorld)
    requires Valid(s) && world.writeOk && KnownRow(s, reg, world) < |s.table|
    ensures
      var k, t := KnownRow(s, reg, world), RegisterStep(s, reg, world);
      && Valid(t) && |t.table| == |s.table|
      && (forall i | 0 <= i < |s.table| && i != k :: t.table[i] == s.table[i] && t.persons[i] == s.persons[i])
      && t.table[k].cols.idcard == reg.idCard && t.table[k].cols.uuid == s.table[k].cols.uuid
  {
    var k := KnownRow(s, reg, world);
    SameIndex(s, "", reg.idCard);
    var c := RegisterColumns(RegisterKey(s, reg, world), reg, world.now);
    var r := RegisterRow(c, world);
    RegisteredShows(RegisterKey(s, reg, world), reg, world);
    UpsertReplaces(s.table, r, k);
    ReplaceOne(s, k, Person(c, reg.uploadStatus), r);
  }

  lemma RegisteredStore(s: Store, reg: Registration, world: RegisterWorld)
    requires Valid(s) && world.writeOk && KnownRow(s, reg, world) == |s.table| && (world.maxOk || s.table == [])
    ensures
      var c := RegisterColumns(RegisterKey(s, reg, world), reg, world.now);
      RegisterStep(s, reg, world) == Store(s.persons + [Person(c, reg.uploadStatus)], s.table + [RegisterRow(c, world)])
  {
    NextPersonIdIsFresh(s.table);
    UpsertAppends(s.table, RegisterRow(RegisterColumns(RegisterKey(s, reg, world), reg, world.now), world));
  }

  /** Registering a new employee adds a row under a fresh personid and leaves every other row alone; the store stays
      valid exactly when the uuid is new too. */
  lemma RegisterNew(s: Store, reg: Registration, world: RegisterWorld)
    requires Valid(s) && world.writeOk && KnownRow(s, reg, world) == |s.table| && (world.maxOk || s.table == [])
    ensures
      var t, key := RegisterStep(s, reg, world), RegisterKey(s, reg, world);
      && |t.table| == |s.table| + 1 && t.table[..|s.table|] == s.table
      && t.table[|s.table|].cols.idcard == reg.idCard
      && (Valid(t) <==> SelectUuid(s.table, key.0) == |s.table|)
  {
    NextPersonIdIsFresh(s.table);
    RegisteredStore(s, reg, world);
    var key := RegisterKey(s, reg, world);
    var c := RegisterColumns(key, reg, world.now);
    var r := RegisterRow(c, world);
    RegisteredShows(key, reg, world);
    AppendOne(s, Person(c, reg.uploadStatus), r);
  }

  lemma UpsertFirst(table: seq<Row>, row: Row)
    requires Keyed(table) && table != [] && row.cols.personid == 1
    ensures Upsert(table, row) == if table[0].cols.personid == 1 then [row] + table[1..] else [row] + table
  {
  }

  /** When the query for the highest personid fails, the personid is 1: on a table with rows the registration overwrites
      another person's row or ends up in another place than in the list. */
  lemma RegisterWithoutMax(s: Store, reg: Registration, world: RegisterWorld)
    requires Valid(s) && world.writeOk && KnownRow(s, reg, world) == |s.table| && !world.maxOk && s.table != []
    ensures !Agree(RegisterStep(s, reg, world))
  {
    var key := RegisterKey(s, reg, world);
    var c := RegisterColumns(key, reg, world.now);
    UpsertFirst(s.table, RegisterRow(c, world));
    var t := RegisterStep(s, reg, world);
    if s.table[0].cols.personid == 1 {
      assert |t.table| == |s.table| && |t.persons| == |s.persons| + 1;
    } else {
      assert t.persons[0] == s.persons[0] && t.table[0].cols.personid == 1;
      ShownKeepsKeys(t.table[0].cols);
      assert Shown(s.persons[0].cols) == Shown(s.table[0].cols);
      ShownKeepsKeys(s.table[0].cols);
    }
  }

  // ---------- Updates ----------

  /** Updating the first entry and every row with a uuid keeps the store valid when the two new values show the same. */
  lemma ChangeBoth(s: Store, uuid: string, g: Person -> Person, f: Row -> Row)
    requires Valid(s)
    requires
      var k := SelectUuid(s.table, uuid);
      k < |s.table| ==>
        && Shown(g(s.persons[k]).cols) == Shown(f(s.table[k]).cols)
        && f(s.table[k]).cols.uuid == uuid && f(s.table[k]).cols.personid == s.table[k].cols.personid
        && f(s.table[k]).featuresize == |f(s.table[k]).cols.feature|
    ensures Valid(Store(UpdateEntry(s.persons, uuid, g), UpdateRows(s.table, uuid, f)))
  {
    var k := SelectUuid(s.table, uuid);
    SameIndex(s, uuid, "");
    UpdateRowsIs(s.table, uuid, f);
    if k < |s.table| {
      ReplaceOne(s, k, g(s.persons[k]), f(s.table[k]));
    }
  }

  lemma UpdateKeepsValid(s: Store, req: UpdateRequest, now: string, ok: bool)
    requires Valid(s)
    ensures Valid(UpdateStep(s, req, now, ok))
  {
    if Updates(s, req, ok) {
      var k := FindUuid(s.persons, req.uuid);
      SameIndex(s, req.uuid, "");
      var st := UpdatedColumns(s.persons[k].cols, req, now);
      var f := (r: Row) => r.(cols := WrittenColumns(r.cols, st), featuresize := |st.feature|);
      UpdateRowsIs(s.table, req.uuid, f);
      UpdatedShows(s.persons[k].cols, s.table[k].cols, req, now);
      ReplaceOne(s, k, Person(st, if req.uploadStatus.Some? then req.uploadStatus.value else s.persons[k].uploadStatus),
                 f(s.table[k]));
    }
  }

  lemma UpdatedShows(p: Columns, c: Columns, req: UpdateRequest, now: string)
    requires Shown(p) == Shown(c)
    ensures Shown(UpdatedColumns(p, req, now)) == Shown(WrittenColumns(c, UpdatedColumns(p, req, now)))
  {
    var st := UpdatedColumns(p, req, now);
    var w := WrittenColumns(c, st);
    assert p.uuid == Shown(p).uuid == c.uuid && p.persontype == Shown(p).persontype == c.persontype;
    assert p.gids == Shown(p).gids == c.gids && p.pids == Shown(p).pids == c.pids;
    assert p.fingerprint == Shown(p).fingerprint == c.fingerprint;
    assert Shown(p).personid == Shown(c).personid && Shown(p).fingerId == Shown(c).fingerId;
  }

  lemma DirectKeepsValid(s: Store, uuid: string, name: string, idCard: string, sex: string, feature: Bytes, now: string)
    requires Valid(s)
    ensures Valid(DirectStep(s, uuid, name, idCard, sex, feature, now))
  {
    var k := SelectUuid(s.table, uuid);
    if k < |s.table| {
      assert Shown(s.persons[k].cols) == Shown(s.table[k].cols);
    }
    ChangeBoth(s, uuid,
               (p: Person) => p.(cols := DirectColumns(p.cols, name, idCard, sex, feature, now)),
               (r: Row) => r.(cols := DirectColumns(r.cols, name, idCard, sex, feature, now), featuresize := |feature|));
  }

  lemma FeatureKeepsValid(s: Store, uuid: string, feature: Bytes, image: Option<string>)
    requires Valid(s)
    ensures Valid(FeatureStep(s, uuid, feature, image))
  {
    var k := SelectUuid(s.table, uuid);
    if k < |s.table| {
      assert Shown(s.persons[k].cols) == Shown(s.table[k].cols);
    }
    ChangeBoth(s, uuid,
               (p: Person) => p.(cols := p.cols.(feature := feature)),
               (r: Row) => r.(cols := r.cols.(feature := feature), featuresize := |feature|,
                              image := if image.Some? then image.value else r.image));
  }

  /** The same change of the columns on both sides; the keys, the feature and what is shown of it stay in step. */
  lemma ColumnsKeepValid(s: Store, uuid: string, set': Columns -> Columns)
    requires Valid(s)
    requires
      var k := SelectUuid(s.table, uuid);
      k < |s.table| ==>
        var p, c := s.persons[k].cols, s.table[k].cols;
        && (Shown(p) == Shown(c) ==> Shown(set'(p)) == Shown(set'(c)))
        && set'(c).uuid == c.uuid && set'(c).personid == c.personid && set'(c).feature == c.feature
    ensures Valid(ColumnsStep(s, uuid, set'))
  {
    var k := SelectUuid(s.table, uuid);
    if k < |s.table| {
      assert Shown(s.persons[k].cols) == Shown(s.table[k].cols) && s.table[k].featuresize == |s.table[k].cols.feature|;
    }
    ChangeBoth(s, uuid, (p: Person) => p.(cols := set'(p.cols)), (r: Row) => r.(cols := set'(r.cols)));
  }

  lemma FingerprintKeepsValid(s: Store, uuid: string, data: Bytes)
    requires Valid(s)
    ensures Valid(FingerprintStep(s, uuid, data))
  {
    ColumnsKeepValid(s, uuid, (c: Columns) => c.(fingerprint := data));
  }

  lemma FingerIdKeepsValid(s: Store, uuid: string, fingerId: int)
    requires Valid(s)
    ensures Valid(FingerIdStep(s, uuid, fingerId))
  {
    ColumnsKeepValid(s, uuid, (c: Columns) => c.(fingerId := fingerId));
  }

  lemma NewColumnsKeepValid(s: Store, uuid: string, attendanceMode: string, tenantId: string, id: string, status: string)
    requires Valid(s)
    ensures Valid(NewColumnsStep(s, uuid, attendanceMode, tenantId, id, status))
  {
    ColumnsKeepValid(s, uuid, (c: Columns) =>
      c.(attendanceMode := attendanceMode, tenantId := tenantId, id := id, status := status));
  }

  lemma UploadStatusKeepsValid(s: Store, uuid: string, uploadStatus: int)
    requires Valid(s)
    ensures Valid(UploadStatusStep(s, uuid, uploadStatus))
  {
    SameColumns(s, UploadStatusStep(s, uuid, uploadStatus));
  }

  lemma ClearAllKeepsValid(s: Store)
    requires Valid(s)
    ensures Valid(ClearAllStep(s))
  {
    var t := ClearAllStep(s);
    forall i | 0 <= i < |s.table|
      ensures Shown(t.persons[i].cols) == Shown(t.table[i].cols)
    {
      assert Shown(s.persons[i].cols) == Shown(s.table[i].cols);
      assert Shown(t.persons[i].cols) == Shown(s.persons[i].cols).(fingerId := 0);
      assert Shown(t.table[i].cols) == Shown(s.table[i].cols).(fingerId := 0);
    }
  }

  lemma DeletedStore(s: Store, uuid: string)
    requires Valid(s)
    ensures
      var k := FindUuid(s.persons, uuid);
      DeleteStep(s, uuid, true) ==
      if k < |s.persons| then Store(Without(s.persons, k), Without(s.table, k)) else s
  {
    var k := FindUuid(s.persons, uuid);
    SameIndex(s, uuid, "");
    if k < |s.table| {
      DeleteRowsIs(s.table, uuid, k);
    } else {
      DeleteNone(s.table, uuid);
    }
  }

  lemma DeleteKeepsValid(s: Store, uuid: string, ok: bool)
    requires Valid(s)
    ensures Valid(DeleteStep(s, uuid, ok)) <==> ok || FindUuid(s.persons, uuid) == |s.persons|
  {
    var k := FindUuid(s.persons, uuid);
    if ok {
      DeletedStore(s, uuid);
      if k < |s.persons| {
        RemoveOne(s, k);
      }
    } else if k < |s.persons| {
      assert |RemoveEntry(s.persons, uuid)| == |s.table| - 1;
    }
  }

  // ---------- The main results ----------

  /** What the caller and the database must see to: a new employee comes with a new uuid and the highest personid could be
      read, and a row to be deleted is deleted. Nothing is asked when a registration is not written or finds its
      employee, and nothing of the other operations. */
  ghost predicate Admissible(s: Store, op: Op) {
    match op
    case Register(reg, world) =>
      || !world.writeOk
      || KnownRow(s, reg, world) < |s.table|
      || ((world.maxOk || s.table == []) && SelectUuid(s.table, RegisterKey(s, reg, world).0) == |s.table|)
    case Delete(uuid, ok) => ok || FindUuid(s.persons, uuid) == |s.persons|
    case _ => true
  }

  lemma RegisterKeepsValid(s: Store, reg: Registration, world: RegisterWorld)
    requires Valid(s)
    ensures Valid(RegisterStep(s, reg, world)) <==> Admissible(s, Register(reg, world))
  {
    if world.writeOk {
      if KnownRow(s, reg, world) < |s.table| {
        RegisterKnown(s, reg, world);
      } else if world.maxOk || s.table == [] {
        RegisterNew(s, reg, world);
      } else {
        RegisterWithoutMax(s, reg, world);
      }
    }
  }

  lemma UpdatesKeepValid(s: Store, op: Op)
    requires Valid(s) && !op.Register? && !op.Delete?
    ensures Valid(Step(s, op))
  {
    if op.Update? {
      UpdateKeepsValid(s, op.req, op.now, op.ok);
    } else if op.UpdateDirectly? {
      var feature := DirectFeature(s, op.uuid, op.feature, op.selectOk);
      DirectKeepsValid(s, op.uuid, op.name, op.idCard, op.sex, feature, op.now);
    } else if op.UpdateFeature? {
      FeatureKeepsValid(s, op.uuid, op.feature, op.image);
    } else if op.SetUploadStatus? {
      UploadStatusKeepsValid(s, op.uuid, op.uploadStatus);
    } else {
      ColumnUpdatesKeepValid(s, op);
    }
  }

  lemma FingerprintOpsKeepValid(s: Store, op: Op)
    requires Valid(s) && (op.UpdateFingerprint? || op.DeleteFingerprint?)
    ensures Valid(Step(s, op))
  {
    var data := if op.UpdateFingerprint? then op.data else [];
    FingerprintKeepsValid(s, op.uuid, data);
    FingerprintOpIs(s, op);
  }

  lemma FingerprintOpIs(s: Store, op: Op)
    requires op.UpdateFingerprint? || op.DeleteFingerprint?
    ensures
      || Step(s, op) == s
      || Step(s, op) == FingerprintStep(s, op.uuid, if op.UpdateFingerprint? then op.data else [])
  {
  }

  lemma FingerIdOpsKeepValid(s: Store, op: Op)
    requires Valid(s) && (op.UpdateFingerId? || op.ClearAllFingerIds?)
    ensures Valid(Step(s, op))
  {
    if op.UpdateFingerId? {
      FingerIdKeepsValid(s, op.uuid, op.fingerId);
    } else {
      ClearAllKeepsValid(s);
    }
    FingerIdOpIs(s, op);
  }

  lemma FingerIdOpIs(s: Store, op: Op)
    requires op.UpdateFingerId? || op.ClearAllFingerIds?
    ensures
      || Step(s, op) == s
      || Step(s, op) == if op.UpdateFingerId? then FingerIdStep(s, op.uuid, op.fingerId) else ClearAllStep(s)
  {
  }

  lemma NewColumnsOpKeepsValid(s: Store, op: Op)
    requires Valid(s) && op.UpdateNewColumns?
    ensures Valid(Step(s, op))
  {
    NewColumnsKeepValid(s, op.uuid, op.attendanceMode, op.tenantId, op.id, op.status);
    NewColumnsOpIs(s, op);
  }

  lemma NewColumnsOpIs(s: Store, op: Op)
    requires op.UpdateNewColumns?
    ensures
      || Step(s, op) == s
      || Step(s, op) == NewColumnsStep(s, op.uuid, op.attendanceMode, op.tenantId, op.id, op.status)
  {
  }

  lemma ColumnUpdatesKeepValid(s: Store, op: Op)
    requires Valid(s)
    requires
      || op.UpdateFingerprint? || op.DeleteFingerprint? || op.UpdateFingerId? || op.ClearAllFingerIds?
      || op.UpdateNewColumns?
    ensures Valid(Step(s, op))
  {
    if op.UpdateNewColumns? {
      NewColumnsOpKeepsValid(s, op);
    } else if op.UpdateFingerId? || op.ClearAllFingerIds? {
      FingerIdOpsKeepValid(s, op);
    } else {
      FingerprintOpsKeepValid(s, op);
    }
  }

  /** One operation, whatever its arguments and the outcomes of its statements, keeps list and table in agreement (and the
      uuids and keys in order) exactly when it is admissible. */
  lemma StepKeepsValid(s: Store, op: Op)
    requires Valid(s)
    ensures Valid(Step(s, op)) <==> Admissible(s, op)
  {
    if op.Register? {
      RegisterKeepsValid(s, op.reg, op.world);
    } else if op.Delete? {
      DeleteKeepsValid(s, op.uuid, op.ok);
    } else {
      UpdatesKeepValid(s, op);
    }
  }

  /** Valid after every operation of a run. */
  ghost predicate StaysValid(s: Store, ops: seq<Op>)
    decreases |ops|
  {
    if ops == [] then Valid(s) else StaysValid(s, ops[..|ops| - 1]) && Valid(Run(s, ops))
  }

  /** Every operation of a run is admissible when its turn comes. */
  ghost predicate AdmissibleRun(s: Store, ops: seq<Op>)
    decreases |ops|
  {
    if ops == [] then true
    else AdmissibleRun(s, ops[..|ops| - 1]) && Admissible(Run(s, ops[..|ops| - 1]), ops[|ops| - 1])
  }

  /** The store is valid after every operation of a run exactly when every operation was admissible. */
  lemma {:induction false} RunKeepsValid(s: Store, ops: seq<Op>)
    requires Valid(s)
    ensures StaysValid(s, ops) <==> AdmissibleRun(s, ops)
    ensures StaysValid(s, ops) ==> Valid(Run(s, ops))
    decreases |ops|
  {
    if ops != [] {
      var front := ops[..|ops| - 1];
      RunKeepsValid(s, front);
      if StaysValid(s, front) {
        StepKeepsValid(Run(s, front), ops[|ops| - 1]);
      }
    }
  }

  // ---------- What a lookup finds afterwards ----------

  /** What a registration asks for. */
  predicate Registered(c: Columns, reg: Registration) {
    && c.name == reg.name && c.idcard == reg.idCard && c.feature == reg.feature && c.department == reg.department
    && c.timeOfAccess == reg.timeOfAccess && c.attendanceMode == reg.attendanceMode && c.tenantId == reg.tenantId
    && c.id == reg.id && c.status == reg.status && c.accessLevel == reg.accessLevel
    && (reg.sex != "" ==> c.sex == reg.sex) && (reg.icCard != "" ==> c.iccard == reg.icCard)
  }

  lemma ColumnsAsRegistered(key: (string, int), reg: Registration, now: string)
    ensures
      var c := RegisterColumns(key, reg, now);
      Registered(c, reg) && Registered(c.(fingerId := -1), reg) && c.uuid == key.0 && c.personid == key.1
  {
  }

  /** Where a registration puts its row and its entry. */
  ghost predicate Lands(s: Store, t: Store, k: nat, r: Row, p: Person) {
    && k <= |s.table| && k < |t.table| && |t.table| == |t.persons|
    && t.table[k] == r && t.persons[k] == p
    && forall i | 0 <= i < k :: t.table[i] == s.table[i]
  }

  lemma KnownLands(s: Store, reg: Registration, world: RegisterWorld)
    requires Valid(s) && world.writeOk && KnownRow(s, reg, world) < |s.table|
    ensures
      var c := RegisterColumns(RegisterKey(s, reg, world), reg, world.now);
      Lands(s, RegisterStep(s, reg, world), KnownRow(s, reg, world), RegisterRow(c, world), Person(c, reg.uploadStatus))
  {
    var c := RegisterColumns(RegisterKey(s, reg, world), reg, world.now);
    SameIndex(s, "", reg.idCard);
    UpsertReplaces(s.table, RegisterRow(c, world), KnownRow(s, reg, world));
  }

  lemma NewLands(s: Store, reg: Registration, world: RegisterWorld)
    requires Valid(s) && world.writeOk && KnownRow(s, reg, world) == |s.table| && Admissible(s, Register(reg, world))
    ensures
      var c := RegisterColumns(RegisterKey(s, reg, world), reg, world.now);
      Lands(s, RegisterStep(s, reg, world), |s.table|, RegisterRow(c, world), Person(c, reg.uploadStatus))
  {
    RegisteredStore(s, reg, world);
  }

  lemma FoundWhereItLands(s: Store, t: Store, k: nat, r: Row, p: Person)
    requires Lands(s, t, k, r, p) && Agree(t) && k <= SelectIdcard(s.table, r.cols.idcard)
    ensures SelectIdcard(t.table, r.cols.idcard) == k == FindIdcard(t.persons, r.cols.idcard)
  {
    SameIndex(t, "", r.cols.idcard);
  }

  /** After a registration the employee id leads to the registered person, at the same place in list and table; a known
      employee keeps uuid and personid, a new one has the given uuid when it is long enough. */
  lemma RegisterThenFind(s: Store, reg: Registration, world: RegisterWorld)
    requires Valid(s) && world.writeOk && world.selectOk && Admissible(s, Register(reg, world))
    ensures
      var k, t := SelectIdcard(s.table, reg.idCard), RegisterStep(s, reg, world);
      && k < |t.table| && SelectIdcard(t.table, reg.idCard) == k == FindIdcard(t.persons, reg.idCard) && k < |t.persons|
      && Registered(t.persons[k].cols, reg) && Registered(t.table[k].cols, reg)
      && t.persons[k].uploadStatus == reg.uploadStatus
      && (k < |s.table| ==>
            t.table[k].cols.uuid == s.table[k].cols.uuid && t.table[k].cols.personid == s.table[k].cols.personid)
      && (k == |s.table| && |reg.uuid| > 3 ==> t.table[k].cols.uuid == reg.uuid)
  {
    var k, key := KnownRow(s, reg, world), RegisterKey(s, reg, world);
    var c := RegisterColumns(key, reg, world.now);
    RegisterKeepsValid(s, reg, world);
    ColumnsAsRegistered(key, reg, world.now);
    if k < |s.table| {
      KnownLands(s, reg, world);
    } else {
      NewLands(s, reg, world);
    }
    FoundWhereItLands(s, RegisterStep(s, reg, world), k, RegisterRow(c, world), Person(c, reg.uploadStatus));
  }

  /** A column after an update: an argument that is not empty replaces it, an empty one leaves it. */
  predicate Now(after: string, before: string, argument: string) {
    after == if argument == "" then before else argument
  }

  /** The columns after an update, given those of the list before it: only a new picture or embedding brings a feature. */
  predicate Updated(after: Columns, before: Columns, req: UpdateRequest) {
    && Now(after.name, before.name, req.name) && Now(after.idcard, before.idcard, req.idCard)
    && Now(after.iccard, before.iccard, req.icCard) && Now(after.sex, before.sex, req.sex)
    && Now(after.department, before.department, req.department)
    && Now(after.timeOfAccess, before.timeOfAccess, req.timeOfAccess)
    && Now(after.attendanceMode, before.attendanceMode, req.attendanceMode)
    && Now(after.tenantId, before.tenantId, req.tenantId) && Now(after.id, before.id, req.id)
    && Now(after.status, before.status, req.status)
    && after.accessLevel == req.accessLevel
    && (if req.embedding != [] then after.feature == req.embedding
        else if req.picture.FeatureFound? then after.feature == req.picture.feature
        else after.feature == [])
    && after.uuid == before.uuid && after.fingerprint == before.fingerprint
  }

  lemma ColumnsAsUpdated(c: Columns, r: Columns, req: UpdateRequest, now: string)
    requires r.uuid == c.uuid && r.fingerprint == c.fingerprint
    ensures
      var st := UpdatedColumns(c, req, now);
      Updated(st, c, req) && Updated(WrittenColumns(r, st), c, req)
  {
  }

  /** An update changes one entry and one row. */
  lemma UpdateTouchesOne(s: Store, req: UpdateRequest, now: string)
    requires Valid(s) && Updates(s, req, true)
    ensures
      var k, t := FindUuid(s.persons, req.uuid), UpdateStep(s, req, now, true);
      && |t.persons| == |s.persons| == |t.table| == |s.table| && k == SelectUuid(s.table, req.uuid)
      && (forall i | 0 <= i < |s.table| && i != k :: t.persons[i] == s.persons[i] && t.table[i] == s.table[i])
      && t.persons[k].cols == UpdatedColumns(s.persons[k].cols, req, now)
      && t.table[k].cols == WrittenColumns(s.table[k].cols, t.persons[k].cols)
  {
    SameIndex(s, req.uuid, "");
  }

  /** After an update the uuid leads to the updated person, at the same place in list and table, and everybody else is as
      before. */
  lemma UpdateThenFind(s: Store, req: UpdateRequest, now: string)
    requires Valid(s) && Updates(s, req, true)
    ensures
      var k, t := FindUuid(s.persons, req.uuid), UpdateStep(s, req, now, true);
      && |t.persons| == |s.persons| == |t.table| == |s.table|
      && FindUuid(t.persons, req.uuid) == k == SelectUuid(t.table, req.uuid)
      && Updated(t.persons[k].cols, s.persons[k].cols, req) && Updated(t.table[k].cols, s.persons[k].cols, req)
      && forall i | 0 <= i < |s.table| && i != k :: t.persons[i] == s.persons[i] && t.table[i] == s.table[i]
  {
    var k, t := FindUuid(s.persons, req.uuid), UpdateStep(s, req, now, true);
    UpdateTouchesOne(s, req, now);
    SameFingerprints(s, k);
    ColumnsAsUpdated(s.persons[k].cols, s.table[k].cols, req, now);
    UpdateKeepsValid(s, req, now, true);
    SameIndex(t, req.uuid, "");
    assert forall i | 0 <= i < k :: t.persons[i] == s.persons[i];
  }

  lemma SameFingerprints(s: Store, i: nat)
    requires Agree(s) && i < |s.table|
    ensures s.persons[i].cols.uuid == s.table[i].cols.uuid && s.persons[i].cols.fingerprint == s.table[i].cols.fingerprint
  {
    assert Shown(s.persons[i].cols) == Shown(s.table[i].cols);
    assert Shown(s.persons[i].cols).fingerprint == Shown(s.table[i].cols).fingerprint;
    SameUuids(s, i);
  }

  // ---------- Where the agreement ends ----------

  /** The finger id is the one column that a restart changes: after every successful registration the list says 0 and the
      row says -1. */
  lemma RegistrationFingerIdsDiffer(s: Store, reg: Registration, world: RegisterWorld)
    requires Valid(s) && world.writeOk && Admissible(s, Register(reg, world))
    ensures
      var t := RegisterStep(s, reg, world);
      |t.persons| == |t.table| &&
      exists k | 0 <= k < |t.table| :: t.persons[k].cols.fingerId == 0 && LoadPerson(t.table[k]).cols.fingerId == -1
  {
    var t := RegisterStep(s, reg, world);
    var key := RegisterKey(s, reg, world);
    var r := RegisterRow(RegisterColumns(key, reg, world.now), world);
    var k := KnownRow(s, reg, world);
    if k < |s.table| {
      SameIndex(s, "", reg.idCard);
      UpsertReplaces(s.table, r, k);
    } else {
      RegisteredStore(s, reg, world);
    }
    assert t.persons[k].cols.fingerId == 0 && t.table[k] == r;
  }

  lemma {:induction false} DeleteAppended(table: seq<Row>, row: Row)
    ensures DeleteRows(table + [row], row.cols.uuid) == DeleteRows(table, row.cols.uuid)
  {
    if table == [] {
      assert [] + [row] == [row];
    } else {
      assert (table + [row])[1..] == table[1..] + [row];
      DeleteAppended(table[1..], row);
    }
  }

  lemma AppendedAndDeleted(table: seq<Row>, row: Row)
    requires UniqueUuids(table) && SelectUuid(table, row.cols.uuid) < |table|
    ensures |DeleteRows(table + [row], row.cols.uuid)| == |table| - 1
  {
    DeleteAppended(table, row);
    DeleteRowsIs(table, row.cols.uuid, SelectUuid(table, row.cols.uuid));
  }

  /** A new employee registered under a uuid in use is a person the list cannot follow: deleting that uuid removes two
      rows but one entry. */
  lemma ReusedUuidBreaksAgreement(s: Store, reg: Registration, world: RegisterWorld)
    requires Valid(s) && world.writeOk && world.maxOk && KnownRow(s, reg, world) == |s.table|
    requires SelectUuid(s.table, RegisterKey(s, reg, world).0) < |s.table|
    ensures !Agree(DeleteStep(RegisterStep(s, reg, world), RegisterKey(s, reg, world).0, true))
  {
    var key := RegisterKey(s, reg, world);
    RegisteredStore(s, reg, world);
    RegisteredShows(key, reg, world);
    AppendedAndDeleted(s.table, RegisterRow(RegisterColumns(key, reg, world.now), world));
  }
}
