/** When the list holds exactly the finger ids of the table. Agreement reads every id below 1 as "none"; a
    registration leaves 0 in the list and -1 in the row, which only a restart would make the same. */
module ExactFingerIds {
  import opened Wrappers
  import opened PersonStore
  import opened StoreAgreement

  ghost predicate ExactIds(s: Store) {
    && |s.persons| == |s.table|
    && forall i | 0 <= i < |s.table| :: s.persons[i].cols.fingerId == s.table[i].cols.fingerId
  }

  /** The i-th person has this uuid, and one id in the list and another one in the row. */
  predicate DiffersAt(s: Store, u: string, i: int) {
    && 0 <= i < |s.table| && i < |s.persons|
    && s.table[i].cols.uuid == u && s.persons[i].cols.fingerId != s.table[i].cols.fingerId
  }

  ghost predicate Differs(s: Store, u: string) {
    exists i :: DiffersAt(s, u, i)
  }

  lemma ExactIff(s: Store)
    requires Agree(s)
    ensures ExactIds(s) <==> forall u :: !Differs(s, u)
  {
    if !ExactIds(s) {
      var i :| 0 <= i < |s.table| && s.persons[i].cols.fingerId != s.table[i].cols.fingerId;
      assert DiffersAt(s, s.table[i].cols.uuid, i);
      assert Differs(s, s.table[i].cols.uuid);
    } else {
      forall u, i ensures !DiffersAt(s, u, i) {
      }
    }
  }

  /** After loading the ids are exact. */
  lemma LoadingIsExact(table: seq<Row>)
    ensures ExactIds(Store(Load(table), table))
  {
  }

  /** A registration that reaches the table. */
  predicate IsWritten(op: Op) {
    op.Register? && op.world.writeOk
  }

  /** A registration that is written, under this uuid. */
  predicate RegistersAs(s: Store, op: Op, u: string) {
    IsWritten(op) && RegisterKey(s, op.reg, op.world).0 == u
  }

  /** What makes the two ids of a person the same again: storing one, clearing all, or deleting the person. */
  predicate Restores(op: Op, u: string) {
    || (op.UpdateFingerId? && op.uuid == u && op.ok)
    || (op.ClearAllFingerIds? && op.ok)
    || (op.Delete? && op.uuid == u)
  }

  // ---------- One operation ----------

  lemma ReplacedDiffers(s: Store, k: nat, p: Person, r: Row, u: string)
    requires |s.persons| == |s.table| && UniqueUuids(s.table) && k < |s.table| && r.cols.uuid == s.table[k].cols.uuid
    ensures
      Differs(Store(s.persons[k := p], s.table[k := r]), u)
      <==> if u == r.cols.uuid then p.cols.fingerId != r.cols.fingerId else Differs(s, u)
  {
    var t := Store(s.persons[k := p], s.table[k := r]);
    assert DiffersAt(t, u, k) <==> u == r.cols.uuid && p.cols.fingerId != r.cols.fingerId;
    forall i | i != k ensures DiffersAt(t, u, i) <==> DiffersAt(s, u, i) {
    }
    assert DiffersAt(s, u, k) ==> u == r.cols.uuid;
  }

  lemma AppendedDiffers(s: Store, p: Person, r: Row, u: string)
    requires |s.persons| == |s.table|
    ensures
      Differs(Store(s.persons + [p], s.table + [r]), u)
      <==> Differs(s, u) || (u == r.cols.uuid && p.cols.fingerId != r.cols.fingerId)
  {
    var t, n := Store(s.persons + [p], s.table + [r]), |s.table|;
    assert DiffersAt(t, u, n) <==> u == r.cols.uuid && p.cols.fingerId != r.cols.fingerId;
    forall i | i != n ensures DiffersAt(t, u, i) <==> DiffersAt(s, u, i) {
    }
  }

  function Removed(s: Store, k: nat): Store
    requires k < |s.table| == |s.persons|
  {
    Store(Without(s.persons, k), Without(s.table, k))
  }

  lemma RemovedAt(s: Store, k: nat, u: string, i: int)
    requires k < |s.table| == |s.persons| && i != k
    ensures DiffersAt(s, u, i) <==> DiffersAt(Removed(s, k), u, if i < k then i else i - 1)
  {
  }

  lemma RemovedDiffers(s: Store, k: nat, u: string)
    requires |s.persons| == |s.table| && UniqueUuids(s.table) && k < |s.table|
    ensures Differs(Removed(s, k), u) <==> u != s.table[k].cols.uuid && Differs(s, u)
  {
    if u == s.table[k].cols.uuid {
      forall j ensures !DiffersAt(Removed(s, k), u, j) {
        RemovedAt(s, k, u, if j < k then j else j + 1);
      }
    } else if Differs(s, u) {
      var i :| DiffersAt(s, u, i);
      RemovedAt(s, k, u, i);
    } else {
      forall j ensures !DiffersAt(Removed(s, k), u, j) {
        RemovedAt(s, k, u, if j < k then j else j + 1);
      }
    }
  }

  lemma RegisterDiffers(s: Store, reg: Registration, world: RegisterWorld, u: string)
    requires Valid(s) && world.writeOk && Admissible(s, Register(reg, world))
    ensures Differs(RegisterStep(s, reg, world), u) <==> RegisterKey(s, reg, world).0 == u || Differs(s, u)
  {
    var c := RegisterColumns(RegisterKey(s, reg, world), reg, world.now);
    var p, r, k := Person(c, reg.uploadStatus), RegisterRow(c, world), KnownRow(s, reg, world);
    if k < |s.table| {
      SameIndex(s, "", reg.idCard);
      UpsertReplaces(s.table, r, k);
      ReplacedDiffers(s, k, p, r, u);
    } else {
      RegisteredStore(s, reg, world);
      AppendedDiffers(s, p, r, u);
    }
  }

  lemma FingerIdDiffers(s: Store, uuid: string, fingerId: int, u: string)
    requires Valid(s)
    ensures Differs(FingerIdStep(s, uuid, fingerId), u) <==> u != uuid && Differs(s, u)
  {
    var f := (r: Row) => r.(cols := r.cols.(fingerId := fingerId));
    var set' := (c: Columns) => c.(fingerId := fingerId);
    var k := FindUuid(s.persons, uuid);
    SameIndex(s, uuid, "");
    UpdateRowsIs(s.table, uuid, (r: Row) => r.(cols := set'(r.cols)));
    if k < |s.table| {
      var p, r := s.persons[k].(cols := set'(s.persons[k].cols)), s.table[k].(cols := set'(s.table[k].cols));
      ReplacedDiffers(s, k, p, r, u);
    }
  }

  lemma DeletedDiffers(s: Store, uuid: string, u: string)
    requires Valid(s)
    ensures Differs(DeleteStep(s, uuid, true), u) <==> u != uuid && Differs(s, u)
  {
    var k := FindUuid(s.persons, uuid);
    SameIndex(s, uuid, "");
    if k < |s.table| {
      DeleteRowsIs(s.table, uuid, k);
      assert DeleteStep(s, uuid, true) == Removed(s, k);
      RemovedDiffers(s, k, u);
    } else {
      DeleteNone(s.table, uuid);
    }
  }

  /** The same persons with the same ids on both sides. */
  ghost predicate SameIds(s: Store, t: Store) {
    && |t.persons| == |s.persons| && |t.table| == |s.table|
    && (forall i | 0 <= i < |s.persons| :: t.persons[i].cols.fingerId == s.persons[i].cols.fingerId)
    && (forall i | 0 <= i < |s.table| ::
          t.table[i].cols.uuid == s.table[i].cols.uuid && t.table[i].cols.fingerId == s.table[i].cols.fingerId)
  }

  lemma SameIdsDiffer(s: Store, t: Store, u: string)
    requires SameIds(s, t)
    ensures Differs(t, u) <==> Differs(s, u)
  {
    forall i ensures DiffersAt(t, u, i) <==> DiffersAt(s, u, i) {
    }
  }

  lemma UpdateKeepsIds(s: Store, req: UpdateRequest, now: string, ok: bool)
    ensures SameIds(s, UpdateStep(s, req, now, ok))
  {
  }

  lemma DirectKeepsIds(s: Store, uuid: string, name: string, idCard: string, sex: string, feature: Bytes, now: string)
    ensures SameIds(s, DirectStep(s, uuid, name, idCard, sex, feature, now))
  {
  }

  lemma FeatureKeepsIds(s: Store, uuid: string, feature: Bytes, image: Option<string>)
    ensures SameIds(s, FeatureStep(s, uuid, feature, image))
  {
  }

  lemma StatusKeepsIds(s: Store, uuid: string, uploadStatus: int)
    ensures SameIds(s, UploadStatusStep(s, uuid, uploadStatus))
  {
  }

  lemma UpdatesKeepIds(s: Store, op: Op)
    requires op.Update? || op.UpdateDirectly? || op.UpdateFeature? || op.SetUploadStatus?
    ensures SameIds(s, Step(s, op))
  {
    match op
    case Update(req, now, ok) => UpdateKeepsIds(s, req, now, ok);
    case UpdateDirectly(uuid, name, idCard, sex, feature, selectOk, now, _) =>
      DirectKeepsIds(s, uuid, name, idCard, sex, DirectFeature(s, uuid, feature, selectOk), now);
    case UpdateFeature(uuid, feature, image, _) => FeatureKeepsIds(s, uuid, feature, image);
    case SetUploadStatus(uuid, uploadStatus, _) => StatusKeepsIds(s, uuid, uploadStatus);
  }

  lemma FingerprintKeepsIds(s: Store, uuid: string, data: Bytes)
    ensures SameIds(s, FingerprintStep(s, uuid, data))
  {
  }

  lemma NewColumnsKeepIds(s: Store, uuid: string, attendanceMode: string, tenantId: string, id: string, status: string)
    ensures SameIds(s, NewColumnsStep(s, uuid, attendanceMode, tenantId, id, status))
  {
  }

  lemma ColumnsKeepIds(s: Store, op: Op)
    requires op.UpdateFingerprint? || op.DeleteFingerprint? || op.UpdateNewColumns?
    ensures SameIds(s, Step(s, op))
  {
    match op
    case UpdateFingerprint(uuid, data, _, _) => FingerprintKeepsIds(s, uuid, data);
    case DeleteFingerprint(uuid, _) => FingerprintKeepsIds(s, uuid, []);
    case UpdateNewColumns(uuid, attendanceMode, tenantId, id, status, _) =>
      NewColumnsKeepIds(s, uuid, attendanceMode, tenantId, id, status);
  }

  /** What neither registers, deletes nor stores finger ids. */
  lemma OthersKeepIds(s: Store, op: Op)
    requires !op.Register? && !op.Delete? && !op.UpdateFingerId? && !op.ClearAllFingerIds?
    ensures SameIds(s, Step(s, op))
  {
    if op.UpdateFingerprint? || op.DeleteFingerprint? || op.UpdateNewColumns? {
      ColumnsKeepIds(s, op);
    } else {
      UpdatesKeepIds(s, op);
    }
  }

  lemma ClearAllDiffers(s: Store, u: string)
    ensures !Differs(ClearAllStep(s), u)
  {
  }

  lemma DeleteDiffers(s: Store, uuid: string, ok: bool, u: string)
    requires Valid(s) && Admissible(s, Delete(uuid, ok))
    ensures Differs(DeleteStep(s, uuid, ok), u) <==> u != uuid && Differs(s, u)
  {
    if ok {
      DeletedDiffers(s, uuid, u);
    } else {
      SameIndex(s, uuid, "");
    }
  }

  lemma IdsStepDiffers(s: Store, op: Op, u: string)
    requires Valid(s) && (op.UpdateFingerId? || op.ClearAllFingerIds?)
    ensures Differs(Step(s, op), u) <==> Differs(s, u) && !Restores(op, u)
  {
    if op.UpdateFingerId? {
      FingerIdDiffers(s, op.uuid, op.fingerId, u);
    } else {
      ClearAllDiffers(s, u);
    }
  }

  lemma OthersStepDiffers(s: Store, op: Op, u: string)
    requires !op.Register? && !op.Delete? && !op.UpdateFingerId? && !op.ClearAllFingerIds?
    ensures Differs(Step(s, op), u) <==> Differs(s, u)
  {
    OthersKeepIds(s, op);
    SameIdsDiffer(s, Step(s, op), u);
  }

  /** A person's two ids differ after an operation if and only if it registered the person, or they differed before
      and it did not restore them. */
  lemma StepDiffers(s: Store, op: Op, u: string)
    requires Valid(s) && Admissible(s, op)
    ensures Differs(Step(s, op), u) <==> RegistersAs(s, op, u) || (Differs(s, u) && !Restores(op, u))
  {
    if op.Register? {
      if op.world.writeOk {
        RegisterDiffers(s, op.reg, op.world, u);
      }
    } else if op.Delete? {
      DeleteDiffers(s, op.uuid, op.ok, u);
    } else if op.UpdateFingerId? || op.ClearAllFingerIds? {
      IdsStepDiffers(s, op, u);
    } else {
      OthersStepDiffers(s, op, u);
    }
  }

  lemma WrittenMakesInexact(s: Store, op: Op)
    requires Valid(s) && Admissible(s, op) && IsWritten(op)
    ensures !ExactIds(Step(s, op))
  {
    var u := RegisterKey(s, op.reg, op.world).0;
    RegisterDiffers(s, op.reg, op.world, u);
    assert Differs(Step(s, op), u);
  }

  lemma OthersKeepExact(s: Store, op: Op)
    requires Valid(s) && ExactIds(s) && Admissible(s, op) && !IsWritten(op)
    ensures ExactIds(Step(s, op))
  {
    StepKeepsValid(s, op);
    ExactIff(s);
    ExactIff(Step(s, op));
    forall u ensures !Differs(Step(s, op), u) {
      StepDiffers(s, op, u);
    }
  }

  /** The ids stay exact if and only if the operation is not a registration that is written. */
  lemma StepKeepsExactIff(s: Store, op: Op)
    requires Valid(s) && ExactIds(s) && Admissible(s, op)
    ensures ExactIds(Step(s, op)) <==> !IsWritten(op)
  {
    if IsWritten(op) {
      WrittenMakesInexact(s, op);
    } else {
      OthersKeepExact(s, op);
    }
  }

  /** Clearing all finger ids makes them exact, whatever they were. */
  lemma ClearAllRestores(s: Store)
    requires Valid(s)
    ensures ExactIds(ClearAllStep(s))
  {
  }

  // ---------- Runs ----------

  /** Exact after every operation of a run. */
  ghost predicate StaysExact(s: Store, ops: seq<Op>)
    decreases |ops|
  {
    if ops == [] then ExactIds(s) else StaysExact(s, ops[..|ops| - 1]) && ExactIds(Run(s, ops))
  }

  predicate NoneWritten(ops: seq<Op>) {
    forall i | 0 <= i < |ops| :: !IsWritten(ops[i])
  }

  lemma NoneWrittenStep(ops: seq<Op>)
    requires ops != []
    ensures NoneWritten(ops) <==> NoneWritten(ops[..|ops| - 1]) && !IsWritten(ops[|ops| - 1])
  {
  }

  /** The ids are exact after every operation of a run if and only if no registration in it is written. */
  lemma {:induction false} StaysExactIff(s: Store, ops: seq<Op>)
    requires Valid(s) && ExactIds(s) && AdmissibleRun(s, ops)
    ensures StaysExact(s, ops) <==> NoneWritten(ops)
    ensures StaysExact(s, ops) ==> ExactIds(Run(s, ops))
    decreases |ops|
  {
    if ops != [] {
      var n := |ops| - 1;
      StaysExactIff(s, ops[..n]);
      RunKeepsValid(s, ops[..n]);
      NoneWrittenStep(ops);
      if StaysExact(s, ops[..n]) {
        StepKeepsExactIff(Run(s, ops[..n]), ops[n]);
      }
    }
  }

  /** The i-th operation registers a person, and no later one restores the ids. */
  ghost predicate Unrestored(s: Store, ops: seq<Op>, u: string, i: int)
    requires 0 <= i < |ops|
  {
    RegistersAs(Run(s, ops[..i]), ops[i], u) && forall j | i < j < |ops| :: !Restores(ops[j], u)
  }

  lemma UnrestoredStep(s: Store, ops: seq<Op>, u: string, i: int)
    requires 0 <= i < |ops| - 1
    ensures
      var n := |ops| - 1;
      Unrestored(s, ops, u, i) <==> Unrestored(s, ops[..n], u, i) && !Restores(ops[n], u)
  {
    var n := |ops| - 1;
    assert ops[..n][..i] == ops[..i] && ops[..n][i] == ops[i];
    assert forall j | i < j < n :: ops[..n][j] == ops[j];
  }

  /** At the end of a run a person's two ids differ if and only if the person was registered in it and they were not
      restored since. */
  lemma {:induction false} RunDiffersIff(s: Store, ops: seq<Op>, u: string)
    requires Valid(s) && ExactIds(s) && AdmissibleRun(s, ops)
    ensures Differs(Run(s, ops), u) <==> exists i | 0 <= i < |ops| :: Unrestored(s, ops, u, i)
    decreases |ops|
  {
    if ops != [] {
      var n := |ops| - 1;
      RunDiffersIff(s, ops[..n], u);
      RunKeepsValid(s, ops[..n]);
      StepDiffers(Run(s, ops[..n]), ops[n], u);
      OneMoreOperation(s, ops, u);
    }
  }

  lemma LastUnrestored(s: Store, ops: seq<Op>, u: string)
    requires ops != []
    ensures
      var n := |ops| - 1;
      Unrestored(s, ops, u, n) <==> RegistersAs(Run(s, ops[..n]), ops[n], u)
  {
  }

  lemma EarlierUnrestored(s: Store, ops: seq<Op>, u: string)
    requires ops != []
    ensures
      var n := |ops| - 1;
      (exists i | 0 <= i < n :: Unrestored(s, ops, u, i))
      <==> (exists i | 0 <= i < n :: Unrestored(s, ops[..n], u, i)) && !Restores(ops[n], u)
  {
    var n := |ops| - 1;
    forall i | 0 <= i < n ensures Unrestored(s, ops, u, i) <==> Unrestored(s, ops[..n], u, i) && !Restores(ops[n], u) {
      UnrestoredStep(s, ops, u, i);
    }
  }

  lemma OneMoreOperation(s: Store, ops: seq<Op>, u: string)
    requires ops != []
    ensures
      var n := |ops| - 1;
      (exists i | 0 <= i <= n :: Unrestored(s, ops, u, i)) <==>
      || RegistersAs(Run(s, ops[..n]), ops[n], u)
      || ((exists i | 0 <= i < n :: Unrestored(s, ops[..n], u, i)) && !Restores(ops[n], u))
  {
    LastUnrestored(s, ops, u);
    EarlierUnrestored(s, ops, u);
  }
}
