/** Finger ids: the allocator, the column and the lookup (DB/RegisteredFacesDB.cpp), against a history of who was given
    which id last. */
module FingerIds {
  import opened Wrappers
  import opened PersonStore
  import opened StoreAgreement
  import ExactFingerIds
  import PersonEffects

  const UINT16_RANGE := 0x1_0000

  // ---------- The allocator and the lookup ----------

  /** SELECT MAX(finger_id) ... WHERE finger_id > 0, with NULL read as 0. */
  function MaxFingerId(table: seq<Row>): (m: nat)
    ensures forall i | 0 <= i < |table| :: table[i].cols.fingerId <= m
    ensures m > 0 ==> exists i | 0 <= i < |table| :: table[i].cols.fingerId == m
  {
    if table == [] then 0
    else
      var n := |table| - 1;
      var m := MaxFingerId(table[..n]);
      if table[n].cols.fingerId > m then table[n].cols.fingerId else m
  }

  /** getNextAvailableFingerId; 1 when the query fails. */
  function NextFingerId(table: seq<Row>, selectOk: bool): (n: nat)
    ensures n >= 1
  {
    if selectOk then MaxFingerId(table) + 1 else 1
  }

  /** The uint16_t in which the form keeps the id. */
  function SensorId(n: nat): (id: nat)
    ensures id < UINT16_RANGE
  {
    n % UINT16_RANGE
  }

  function AllocateFingerId(table: seq<Row>, selectOk: bool): nat {
    SensorId(NextFingerId(table, selectOk))
  }

  /** GetPersonByFingerId: the first entry with this finger id, or |persons|. */
  function FindFingerId(persons: seq<Person>, fingerId: int, from: nat := 0): (k: nat)
    requires from <= |persons|
    ensures from <= k <= |persons| && (k < |persons| ==> persons[k].cols.fingerId == fingerId)
    ensures forall i | from <= i < k :: persons[i].cols.fingerId != fingerId
    decreases |persons| - from
  {
    if from == |persons| || persons[from].cols.fingerId == fingerId then from
    else FindFingerId(persons, fingerId, from + 1)
  }

  // ---------- Who holds which id ----------

  /** A row of person u holds the finger id f. */
  ghost predicate Holds(table: seq<Row>, f: int, u: string) {
    f >= 1 && exists i | 0 <= i < |table| :: table[i].cols.fingerId == f && table[i].cols.uuid == u
  }

  /** No two rows share a finger id. */
  ghost predicate Distinct(table: seq<Row>) {
    forall i, j | 0 <= i < j < |table| && table[i].cols.fingerId >= 1 :: table[i].cols.fingerId != table[j].cols.fingerId
  }

  /** No two entries of the list share a finger id. */
  ghost predicate DistinctInList(persons: seq<Person>) {
    forall i, j | 0 <= i < j < |persons| && persons[i].cols.fingerId >= 1 ::
      persons[i].cols.fingerId != persons[j].cols.fingerId
  }

  /** The list shows the finger ids of the table. */
  lemma SameFingerIds(s: Store, i: nat)
    requires Agree(s) && i < |s.table|
    ensures
      || s.persons[i].cols.fingerId == s.table[i].cols.fingerId
      || (s.persons[i].cols.fingerId < 1 && s.table[i].cols.fingerId < 1)
  {
    assert Shown(s.persons[i].cols) == Shown(s.table[i].cols);
    assert Shown(s.persons[i].cols).fingerId == Shown(s.table[i].cols).fingerId;
  }

  lemma DistinctOnBothSides(s: Store)
    requires Agree(s) && Distinct(s.table)
    ensures DistinctInList(s.persons)
  {
    forall i | 0 <= i < |s.table|
      ensures
        || s.persons[i].cols.fingerId == s.table[i].cols.fingerId
        || (s.persons[i].cols.fingerId < 1 && s.table[i].cols.fingerId < 1)
    {
      SameFingerIds(s, i);
    }
  }

  /** A ledger: for each id in use the person it was last given to. */
  type Ledger = map<int, string>

  /** The ledger says that f was last given to u. */
  predicate Entry(m: Ledger, f: int, u: string) {
    f in m && m[f] == u
  }

  ghost predicate Matches(m: Ledger, table: seq<Row>) {
    forall f, u :: Entry(m, f, u) <==> Holds(table, f, u)
  }

  ghost predicate InRange(m: Ledger) {
    forall f | f in m :: 1 <= f < UINT16_RANGE
  }

  /** The ledger after a person gave up whatever id it had. */
  function Without(m: Ledger, uuid: string): Ledger {
    map f | f in m && m[f] != uuid :: m[f]
  }

  /** The ledger after a person was given f, which is no id when below 1. */
  function Given(m: Ledger, uuid: string, f: int): Ledger {
    if f >= 1 then Without(m, uuid)[f := uuid] else Without(m, uuid)
  }

  // ---------- The form and the store ----------

  /** The data that the form keeps of a captured finger (mFingerTemplate): the id and the size of the template, two bytes
      each, and the template. */
  function Packed(id: nat, template: Bytes): Bytes
    requires id < UINT16_RANGE
  {
    var size := |template| % UINT16_RANGE;
    [id / 256, id % 256, size / 256, size % 256] + template
  }

  /** The id that is read from the data again. */
  function HeldId(held: Bytes): int {
    if |held| < 2 then 0 else held[0] * 256 + held[1]
  }

  lemma PackedId(id: nat, template: Bytes)
    requires id < UINT16_RANGE
    ensures Packed(id, template) != [] && HeldId(Packed(id, template)) == id
  {
  }

  /** The store and the form: held is [] when no finger is captured; given is, as history, the person who got the held id
      while the form kept it. */
  datatype Desk = Desk(store: Store, held: Bytes, given: Option<string>)

  /** What the form does, with anything else in between: a finger is captured, its id being allocated before it is
      enrolled; it is registered for a person; the form is cleared. */
  datatype FingerOp =
    | Capture(selectOk: bool, enrolled: bool, template: Bytes)
    | SaveFinger(uuid: string, columnOk: bool, printOk: bool, idOk: bool)
    | ClearForm
    | Other(op: Op)

  function CaptureStep(d: Desk, selectOk: bool, enrolled: bool, template: Bytes): Desk {
    d.(held := if enrolled then Packed(AllocateFingerId(d.store.table, selectOk), template) else [], given := None)
  }

  /** UpdatePersonFingerprint as slotRegFingerButton calls it. */
  predicate Prints(d: Desk, uuid: string, columnOk: bool, printOk: bool) {
    columnOk && printOk && SelectUuid(d.store.table, uuid) < |d.store.table|
  }

  function PrintedStore(d: Desk, uuid: string, columnOk: bool, printOk: bool): Store {
    if Prints(d, uuid, columnOk, printOk) then FingerprintStep(d.store, uuid, d.held) else d.store
  }

  /** slotRegFingerButton: the data and then the id are stored; the form forgets the finger when both worked. */
  function SaveStep(d: Desk, uuid: string, columnOk: bool, printOk: bool, idOk: bool): Desk {
    if d.held == [] || uuid == "" then d
    else
      var printed := PrintedStore(d, uuid, columnOk, printOk);
      if !idOk then d.(store := printed)
      else
        var stored := FingerIdStep(printed, uuid, HeldId(d.held));
        if Prints(d, uuid, columnOk, printOk) then Desk(stored, [], None)
        else d.(store := stored, given := if SelectUuid(d.store.table, uuid) < |d.store.table| then Some(uuid) else d.given)
  }

  function FingerStep(d: Desk, fop: FingerOp): Desk {
    match fop
    case Capture(selectOk, enrolled, template) => CaptureStep(d, selectOk, enrolled, template)
    case SaveFinger(uuid, columnOk, printOk, idOk) => SaveStep(d, uuid, columnOk, printOk, idOk)
    case ClearForm => d.(held := [], given := None)
    case Other(op) => d.(store := Step(d.store, op))
  }

  /** The id of a captured finger reaches a person. */
  predicate Gives(d: Desk, uuid: string, idOk: bool) {
    d.held != [] && uuid != "" && idOk && SelectUuid(d.store.table, uuid) < |d.store.table|
  }

  function OtherLedger(m: Ledger, s: Store, op: Op): Ledger {
    match op
    case Register(reg, world) =>
      if world.writeOk && KnownRow(s, reg, world) < |s.table| then Without(m, RegisterKey(s, reg, world).0) else m
    case UpdateFingerId(uuid, fingerId, ok) => if ok then Without(m, uuid) else m
    case ClearAllFingerIds(ok) => if ok then map[] else m
    case Delete(uuid, ok) => Without(m, uuid)
    case _ => m
  }

  /** What an operation means for the history. */
  function LedgerStep(m: Ledger, d: Desk, fop: FingerOp): Ledger {
    match fop
    case SaveFinger(uuid, _, _, idOk) => if Gives(d, uuid, idOk) then Given(m, uuid, HeldId(d.held)) else m
    case Other(op) => OtherLedger(m, d.store, op)
    case _ => m
  }

  /** The operations of a run: admissible ones, with ids given only by the form; a finger captured while the query for the
      next id fails is not enrolled unless nobody has the id 1; and a finger whose id reached one person is not registered
      for another one. */
  ghost predicate Permitted(d: Desk, fop: FingerOp) {
    match fop
    case Capture(selectOk, enrolled, _) => enrolled ==> selectOk || forall u :: !Holds(d.store.table, 1, u)
    case SaveFinger(uuid, _, _, _) => d.given == None || d.given == Some(uuid)
    case ClearForm => true
    case Other(op) => Admissible(d.store, op) && (op.UpdateFingerId? ==> op.fingerId < 1)
  }

  // ---------- What the operations do to the holders ----------

  /** Both tables have the same persons with the same finger ids. */
  ghost predicate SameFingers(table: seq<Row>, t: seq<Row>) {
    && |t| == |table|
    && forall i | 0 <= i < |table| :: t[i].cols.uuid == table[i].cols.uuid && t[i].cols.fingerId == table[i].cols.fingerId
  }

  lemma SameHolders(table: seq<Row>, t: seq<Row>, f: int, u: string)
    requires SameFingers(table, t)
    ensures Holds(t, f, u) <==> Holds(table, f, u)
  {
  }

  /** Replacing the row of one person. */
  lemma ReplacedHolders(table: seq<Row>, k: nat, r: Row, f: int, u: string)
    requires UniqueUuids(table) && k < |table| && r.cols.uuid == table[k].cols.uuid
    ensures
      Holds(table[k := r], f, u) <==>
      if u == r.cols.uuid then f == r.cols.fingerId && f >= 1 else Holds(table, f, u)
  {
    var t := table[k := r];
    if u == r.cols.uuid {
      assert t[k] == r;
    } else {
      if Holds(table, f, u) {
        var i :| 0 <= i < |table| && table[i].cols.fingerId == f && table[i].cols.uuid == u;
        assert t[i] == table[i];
      }
      if Holds(t, f, u) {
        var i :| 0 <= i < |t| && t[i].cols.fingerId == f && t[i].cols.uuid == u;
        assert i != k && t[i] == table[i];
      }
    }
  }

  lemma RemovedHolders(table: seq<Row>, k: nat, f: int, u: string)
    requires UniqueUuids(table) && k < |table|
    ensures Holds(StoreAgreement.Without(table, k), f, u) <==> u != table[k].cols.uuid && Holds(table, f, u)
  {
    var t := StoreAgreement.Without(table, k);
    if Holds(table, f, u) && u != table[k].cols.uuid {
      var i :| 0 <= i < |table| && table[i].cols.fingerId == f && table[i].cols.uuid == u;
      assert t[if i < k then i else i - 1] == table[i];
    }
    if Holds(t, f, u) {
      var i :| 0 <= i < |t| && t[i].cols.fingerId == f && t[i].cols.uuid == u;
      assert table[if i < k then i else i + 1] == t[i];
    }
  }

  lemma AppendedHolders(table: seq<Row>, r: Row, f: int, u: string)
    requires r.cols.fingerId < 1
    ensures Holds(table + [r], f, u) <==> Holds(table, f, u)
  {
    var t := table + [r];
    if Holds(table, f, u) {
      var i :| 0 <= i < |table| && table[i].cols.fingerId == f && table[i].cols.uuid == u;
      assert t[i] == table[i];
    }
  }

  /** An id is given: the effect on the holders. */
  lemma AssignedHolders(s: Store, uuid: string, fingerId: int, f: int, u: string)
    requires Valid(s)
    ensures
      var t := FingerIdStep(s, uuid, fingerId).table;
      Holds(t, f, u) <==>
      if u == uuid && SelectUuid(s.table, uuid) < |s.table| then f == fingerId && f >= 1 else Holds(s.table, f, u)
  {
    var set' := (c: Columns) => c.(fingerId := fingerId);
    var f' := (r: Row) => r.(cols := set'(r.cols));
    UpdateRowsIs(s.table, uuid, f');
    var k := SelectUuid(s.table, uuid);
    if k < |s.table| {
      ReplacedHolders(s.table, k, f'(s.table[k]), f, u);
    }
  }

  lemma RegisteredHolders(s: Store, reg: Registration, world: RegisterWorld, f: int, u: string)
    requires Valid(s) && world.writeOk && Admissible(s, Register(reg, world))
    ensures
      var t := RegisterStep(s, reg, world).table;
      Holds(t, f, u) <==>
      if KnownRow(s, reg, world) < |s.table| then u != RegisterKey(s, reg, world).0 && Holds(s.table, f, u)
      else Holds(s.table, f, u)
  {
    var key := RegisterKey(s, reg, world);
    var r := RegisterRow(RegisterColumns(key, reg, world.now), world);
    var k := KnownRow(s, reg, world);
    if k < |s.table| {
      UpsertReplaces(s.table, r, k);
      ReplacedHolders(s.table, k, r, f, u);
    } else {
      RegisteredStore(s, reg, world);
      AppendedHolders(s.table, r, f, u);
    }
  }

  lemma DeletedHolders(s: Store, uuid: string, f: int, u: string)
    requires Valid(s)
    ensures Holds(DeleteRows(s.table, uuid), f, u) <==> u != uuid && Holds(s.table, f, u)
  {
    var k := SelectUuid(s.table, uuid);
    if k < |s.table| {
      DeleteRowsIs(s.table, uuid, k);
      RemovedHolders(s.table, k, f, u);
    } else {
      DeleteNone(s.table, uuid);
    }
  }

  /** All the other operations leave the finger ids alone. */
  lemma OthersKeepFingers(s: Store, op: Op)
    requires !op.Register? && !op.Delete? && !op.UpdateFingerId? && !op.ClearAllFingerIds?
    ensures SameFingers(s.table, Step(s, op).table)
  {
    ExactFingerIds.OthersKeepIds(s, op);
  }

  // ---------- The main results ----------

  /** A new id is one that nobody holds. */
  lemma AllocatedIdIsFree(s: Store, m: Ledger)
    requires Matches(m, s.table) && InRange(m)
    ensures AllocateFingerId(s.table, true) !in m
  {
    var f := AllocateFingerId(s.table, true);
    var max := MaxFingerId(s.table);
    if max > 0 {
      var i :| 0 <= i < |s.table| && s.table[i].cols.fingerId == max;
      assert Holds(s.table, max, s.table[i].cols.uuid);
      assert max in m;
    }
    var u := if f in m then m[f] else "";
    assert Entry(m, f, u) <==> Holds(s.table, f, u);
  }

  /** Nobody holds the id of the captured finger but the person who got it while the form kept it. */
  predicate HeldIsFree(d: Desk, m: Ledger) {
    d.held != [] ==>
      var f := HeldId(d.held);
      0 <= f < UINT16_RANGE && (f in m ==> d.given == Some(m[f]))
  }

  ghost predicate Kept(d: Desk, m: Ledger) {
    Valid(d.store) && Matches(m, d.store.table) && InRange(m) && HeldIsFree(d, m)
  }

  lemma CaptureKeeps(d: Desk, m: Ledger, selectOk: bool, enrolled: bool, template: Bytes)
    requires Kept(d, m) && Permitted(d, Capture(selectOk, enrolled, template))
    ensures Kept(CaptureStep(d, selectOk, enrolled, template), m)
  {
    var f := AllocateFingerId(d.store.table, selectOk);
    PackedId(f, template);
    if enrolled {
      if selectOk {
        AllocatedIdIsFree(d.store, m);
      } else {
        var u := if 1 in m then m[1] else "";
        assert !Holds(d.store.table, 1, u);
      }
    }
  }

  lemma AssignKeepsLedger(s: Store, m: Ledger, uuid: string, f0: int)
    requires Valid(s) && Matches(m, s.table) && f0 !in Without(m, uuid)
    ensures Matches(NowGiven(s, m, uuid, f0), FingerIdStep(s, uuid, f0).table)
  {
    forall f, u ensures Entry(NowGiven(s, m, uuid, f0), f, u) <==> Holds(FingerIdStep(s, uuid, f0).table, f, u) {
      AssignKeepsHolder(s, m, uuid, f0, f, u);
    }
  }

  function NowGiven(s: Store, m: Ledger, uuid: string, f0: int): Ledger {
    if SelectUuid(s.table, uuid) < |s.table| then Given(m, uuid, f0) else m
  }

  lemma GivenEntry(m: Ledger, uuid: string, f0: int, f: int, u: string)
    requires f0 !in Without(m, uuid)
    ensures Entry(Given(m, uuid, f0), f, u) <==> if u == uuid then f == f0 && f >= 1 else Entry(m, f, u)
  {
  }

  lemma AssignKeepsHolder(s: Store, m: Ledger, uuid: string, f0: int, f: int, u: string)
    requires Valid(s) && f0 !in Without(m, uuid) && (Entry(m, f, u) <==> Holds(s.table, f, u))
    ensures Entry(NowGiven(s, m, uuid, f0), f, u) <==> Holds(FingerIdStep(s, uuid, f0).table, f, u)
  {
    GivenEntry(m, uuid, f0, f, u);
    AssignedHolders(s, uuid, f0, f, u);
  }

  lemma SameFingersMatch(table: seq<Row>, t: seq<Row>, m: Ledger)
    requires SameFingers(table, t) && Matches(m, table)
    ensures Matches(m, t)
  {
    forall f, u ensures Holds(t, f, u) <==> Holds(table, f, u) {
      SameHolders(table, t, f, u);
    }
  }

  lemma SameFingersSelect(table: seq<Row>, t: seq<Row>, uuid: string)
    requires SameFingers(table, t)
    ensures SelectUuid(t, uuid) == SelectUuid(table, uuid)
  {
  }

  lemma FingerprintKeepsFingers(s: Store, uuid: string, data: Bytes)
    ensures SameFingers(s.table, FingerprintStep(s, uuid, data).table)
  {
  }

  /** Storing the data leaves the ids alone. */
  lemma PrintedIsSame(d: Desk, m: Ledger, uuid: string, columnOk: bool, printOk: bool)
    requires Valid(d.store) && Matches(m, d.store.table)
    ensures
      var s := PrintedStore(d, uuid, columnOk, printOk);
      && Valid(s) && Matches(m, s.table) && SameFingers(d.store.table, s.table)
      && SelectUuid(s.table, uuid) == SelectUuid(d.store.table, uuid)
  {
    var s := PrintedStore(d, uuid, columnOk, printOk);
    if Prints(d, uuid, columnOk, printOk) {
      FingerprintKeepsValid(d.store, uuid, d.held);
      FingerprintKeepsFingers(d.store, uuid, d.held);
      SameFingersMatch(d.store.table, s.table, m);
      SameFingersSelect(d.store.table, s.table, uuid);
    }
  }

  lemma GivenLedger(m: Ledger, uuid: string, f: int, given: Option<string>)
    requires InRange(m) && 0 <= f < UINT16_RANGE
    requires (f in m ==> given == Some(m[f])) && (given == None || given == Some(uuid))
    ensures f !in Without(m, uuid) && InRange(Given(m, uuid, f))
    ensures f in Given(m, uuid, f) ==> Given(m, uuid, f)[f] == uuid
  {
  }

  /** The id of the captured finger is stored, in a store with the fingers of s0. */
  lemma GiveKeeps(s: Store, s0: Store, m: Ledger, uuid: string, f: int, given: Option<string>)
    requires Valid(s) && Matches(m, s.table) && InRange(m) && 0 <= f < UINT16_RANGE
    requires |s.table| == |s0.table| && SelectUuid(s.table, uuid) == SelectUuid(s0.table, uuid)
    requires (f in m ==> given == Some(m[f])) && (given == None || given == Some(uuid))
    ensures
      var t, m' := FingerIdStep(s, uuid, f), NowGiven(s0, m, uuid, f);
      && Valid(t) && Matches(m', t.table) && InRange(m')
      && (f in m' ==> if SelectUuid(s0.table, uuid) < |s0.table| then m'[f] == uuid else given == Some(m'[f]))
  {
    GivenLedger(m, uuid, f, given);
    AssignKeepsLedger(s, m, uuid, f);
    FingerIdKeepsValid(s, uuid, f);
  }

  lemma SavedStore(d: Desk, uuid: string, columnOk: bool, printOk: bool, idOk: bool)
    ensures
      var printed := PrintedStore(d, uuid, columnOk, printOk);
      SaveStep(d, uuid, columnOk, printOk, idOk).store ==
      if d.held == [] || uuid == "" then d.store else if idOk then FingerIdStep(printed, uuid, HeldId(d.held)) else printed
  {
  }

  lemma SavedForm(d: Desk, uuid: string, columnOk: bool, printOk: bool)
    requires d.held != [] && uuid != ""
    ensures
      var t := SaveStep(d, uuid, columnOk, printOk, true);
      if Prints(d, uuid, columnOk, printOk) then t.held == []
      else t.held == d.held && t.given == if SelectUuid(d.store.table, uuid) < |d.store.table| then Some(uuid) else d.given
  {
  }

  lemma SaveWithId(d: Desk, m: Ledger, uuid: string, columnOk: bool, printOk: bool)
    requires Kept(d, m) && Permitted(d, SaveFinger(uuid, columnOk, printOk, true)) && d.held != [] && uuid != ""
    ensures Kept(SaveStep(d, uuid, columnOk, printOk, true), NowGiven(d.store, m, uuid, HeldId(d.held)))
  {
    PrintedIsSame(d, m, uuid, columnOk, printOk);
    SavedStore(d, uuid, columnOk, printOk, true);
    SavedForm(d, uuid, columnOk, printOk);
    GiveKeeps(PrintedStore(d, uuid, columnOk, printOk), d.store, m, uuid, HeldId(d.held), d.given);
  }

  lemma SaveWithoutId(d: Desk, m: Ledger, uuid: string, columnOk: bool, printOk: bool)
    requires Kept(d, m)
    ensures Kept(SaveStep(d, uuid, columnOk, printOk, false), m)
  {
    PrintedIsSame(d, m, uuid, columnOk, printOk);
  }

  lemma SaveKeeps(d: Desk, m: Ledger, uuid: string, columnOk: bool, printOk: bool, idOk: bool)
    requires Kept(d, m) && Permitted(d, SaveFinger(uuid, columnOk, printOk, idOk))
    ensures Kept(SaveStep(d, uuid, columnOk, printOk, idOk), LedgerStep(m, d, SaveFinger(uuid, columnOk, printOk, idOk)))
  {
    if idOk && d.held != [] && uuid != "" {
      SaveWithId(d, m, uuid, columnOk, printOk);
    } else if !idOk {
      SaveWithoutId(d, m, uuid, columnOk, printOk);
    }
  }

  /** All other operations only take ids away. */
  lemma OtherShrinks(m: Ledger, s: Store, op: Op)
    ensures var m' := OtherLedger(m, s, op); forall f | f in m' :: f in m && m'[f] == m[f]
  {
  }

  lemma OtherKeepsLedger(s: Store, m: Ledger, op: Op)
    requires Valid(s) && Matches(m, s.table) && Admissible(s, op) && (op.UpdateFingerId? ==> op.fingerId < 1)
    ensures Matches(OtherLedger(m, s, op), Step(s, op).table)
  {
    var m', t := OtherLedger(m, s, op), Step(s, op).table;
    forall f, u ensures Entry(m', f, u) <==> Holds(t, f, u) {
      assert Entry(m, f, u) <==> Holds(s.table, f, u);
      OtherKeepsHolder(s, m, op, f, u);
    }
  }

  lemma RegisterKeepsHolder(s: Store, m: Ledger, reg: Registration, world: RegisterWorld, f: int, u: string)
    requires Valid(s) && Admissible(s, Register(reg, world)) && (Entry(m, f, u) <==> Holds(s.table, f, u))
    ensures Entry(OtherLedger(m, s, Register(reg, world)), f, u) <==> Holds(RegisterStep(s, reg, world).table, f, u)
  {
    if world.writeOk {
      RegisteredHolders(s, reg, world, f, u);
    }
  }

  lemma DeleteKeepsHolder(s: Store, m: Ledger, uuid: string, ok: bool, f: int, u: string)
    requires Valid(s) && Admissible(s, Delete(uuid, ok)) && (Entry(m, f, u) <==> Holds(s.table, f, u))
    ensures Entry(Without(m, uuid), f, u) <==> Holds(DeleteStep(s, uuid, ok).table, f, u)
  {
    if ok {
      DeletedHolders(s, uuid, f, u);
    } else {
      SameIndex(s, uuid, "");
    }
  }

  lemma TakenKeepsHolder(s: Store, m: Ledger, uuid: string, fingerId: int, f: int, u: string)
    requires Valid(s) && fingerId < 1 && (Entry(m, f, u) <==> Holds(s.table, f, u))
    ensures Entry(Without(m, uuid), f, u) <==> Holds(FingerIdStep(s, uuid, fingerId).table, f, u)
  {
    AssignedHolders(s, uuid, fingerId, f, u);
  }

  lemma OtherKeepsHolder(s: Store, m: Ledger, op: Op, f: int, u: string)
    requires Valid(s) && Admissible(s, op) && (op.UpdateFingerId? ==> op.fingerId < 1)
    requires Entry(m, f, u) <==> Holds(s.table, f, u)
    ensures Entry(OtherLedger(m, s, op), f, u) <==> Holds(Step(s, op).table, f, u)
  {
    if op.Register? {
      RegisterKeepsHolder(s, m, op.reg, op.world, f, u);
    } else if op.Delete? {
      DeleteKeepsHolder(s, m, op.uuid, op.ok, f, u);
    } else if op.UpdateFingerId? {
      TakenKeepsHolder(s, m, op.uuid, op.fingerId, f, u);
    } else if !op.ClearAllFingerIds? {
      OthersKeepFingers(s, op);
      SameHolders(s.table, Step(s, op).table, f, u);
    }
  }

  lemma OtherKeeps(d: Desk, m: Ledger, op: Op)
    requires Kept(d, m) && Permitted(d, Other(op))
    ensures Kept(FingerStep(d, Other(op)), LedgerStep(m, d, Other(op)))
  {
    StepKeepsValid(d.store, op);
    OtherKeepsLedger(d.store, m, op);
    OtherShrinks(m, d.store, op);
  }

  /** An operation moves history and table in step, and keeps the captured id free. */
  lemma StepKeepsLedger(d: Desk, m: Ledger, fop: FingerOp)
    requires Kept(d, m) && Permitted(d, fop)
    ensures Kept(FingerStep(d, fop), LedgerStep(m, d, fop))
  {
    match fop
    case Capture(selectOk, enrolled, template) => CaptureKeeps(d, m, selectOk, enrolled, template);
    case SaveFinger(uuid, columnOk, printOk, idOk) => SaveKeeps(d, m, uuid, columnOk, printOk, idOk);
    case ClearForm =>
    case Other(op) => OtherKeeps(d, m, op);
  }

  function RunFingers(d: Desk, fops: seq<FingerOp>): Desk
    decreases |fops|
  {
    if fops == [] then d else FingerStep(RunFingers(d, fops[..|fops| - 1]), fops[|fops| - 1])
  }

  /** The history of a run that starts with the ledger m. */
  function History(m: Ledger, d: Desk, fops: seq<FingerOp>): Ledger
    decreases |fops|
  {
    if fops == [] then m
    else
      var n := |fops| - 1;
      LedgerStep(History(m, d, fops[..n]), RunFingers(d, fops[..n]), fops[n])
  }

  ghost predicate PermittedRun(d: Desk, fops: seq<FingerOp>)
    decreases |fops|
  {
    if fops == [] then true
    else PermittedRun(d, fops[..|fops| - 1]) && Permitted(RunFingers(d, fops[..|fops| - 1]), fops[|fops| - 1])
  }

  lemma {:induction false} RunKeepsLedger(d: Desk, m: Ledger, fops: seq<FingerOp>)
    requires Kept(d, m) && PermittedRun(d, fops)
    ensures Kept(RunFingers(d, fops), History(m, d, fops))
    decreases |fops|
  {
    if fops != [] {
      var n := |fops| - 1;
      RunKeepsLedger(d, m, fops[..n]);
      StepKeepsLedger(RunFingers(d, fops[..n]), History(m, d, fops[..n]), fops[n]);
    }
  }

  /** Looking an id up in the list gives the person in the ledger, or nobody. */
  lemma LookupIs(s: Store, m: Ledger, f: int)
    requires Valid(s) && Matches(m, s.table) && f >= 1
    ensures
      var k := FindFingerId(s.persons, f);
      if f in m then k < |s.persons| && s.persons[k].cols.uuid == m[f] else k == |s.persons|
  {
    var k := FindFingerId(s.persons, f);
    forall i | 0 <= i < |s.table|
      ensures s.persons[i].cols.fingerId == f <==> s.table[i].cols.fingerId == f
    {
      SameFingerIds(s, i);
    }
    if k < |s.persons| {
      SameUuids(s, k);
      assert Holds(s.table, f, s.table[k].cols.uuid);
    }
    if f in m {
      assert Holds(s.table, f, m[f]);
    }
  }

  lemma MatchingIsDistinct(s: Store, m: Ledger)
    requires UniqueUuids(s.table) && Matches(m, s.table)
    ensures Distinct(s.table)
  {
    forall i, j | 0 <= i < j < |s.table| && s.table[i].cols.fingerId >= 1
      ensures s.table[i].cols.fingerId != s.table[j].cols.fingerId
    {
      var f := s.table[i].cols.fingerId;
      assert Holds(s.table, f, s.table[i].cols.uuid);
      if s.table[j].cols.fingerId == f {
        assert Holds(s.table, f, s.table[j].cols.uuid);
      }
    }
  }

  /** Over every permitted run of captures, registrations of fingers and all other operations, in any order, no two
      persons share a finger id, in the table or in the list, and looking up an id gives the person it was given to last
      and who has kept it since; an id that nobody kept is found nowhere. */
  lemma FingerIdsIdentify(d: Desk, m: Ledger, fops: seq<FingerOp>, f: int)
    requires Kept(d, m) && PermittedRun(d, fops) && f >= 1
    ensures
      var t, history := RunFingers(d, fops).store, History(m, d, fops);
      var k := FindFingerId(t.persons, f);
      && Distinct(t.table) && DistinctInList(t.persons)
      && (if f in history then k < |t.persons| && t.persons[k].cols.uuid == history[f] else k == |t.persons|)
  {
    RunKeepsLedger(d, m, fops);
    var t := RunFingers(d, fops).store;
    MatchingIsDistinct(t, History(m, d, fops));
    DistinctOnBothSides(t);
    LookupIs(t, History(m, d, fops), f);
  }

  /** Nobody but this person holds the id. */
  predicate NobodyElseHolds(table: seq<Row>, f: int, uuid: string) {
    forall i | 0 <= i < |table| && table[i].cols.uuid != uuid :: table[i].cols.fingerId != f
  }

  /** Giving an id to a person keeps the ids distinct exactly when it is no id, nobody is there to take it, or nobody else
      holds it. */
  lemma AssignKeepsDistinctIff(s: Store, uuid: string, fingerId: int)
    requires Valid(s) && Distinct(s.table)
    ensures
      Distinct(FingerIdStep(s, uuid, fingerId).table) <==>
      fingerId < 1 || SelectUuid(s.table, uuid) == |s.table| || NobodyElseHolds(s.table, fingerId, uuid)
  {
    var k := SelectUuid(s.table, uuid);
    var set' := (c: Columns) => c.(fingerId := fingerId);
    var f' := (r: Row) => r.(cols := set'(r.cols));
    UpdateRowsIs(s.table, uuid, f');
    if k < |s.table| {
      DistinctWith(s.table, k, f'(s.table[k]));
      ElseIs(s.table, k, fingerId);
    }
  }

  lemma ElseIs(table: seq<Row>, k: nat, f: int)
    requires UniqueUuids(table) && k < |table|
    ensures
      NobodyElseHolds(table, f, table[k].cols.uuid)
      <==> forall i | 0 <= i < |table| && i != k :: table[i].cols.fingerId != f
  {
    assert forall i | 0 <= i < |table| :: i != k <==> table[i].cols.uuid != table[k].cols.uuid;
  }

  lemma DistinctWith(table: seq<Row>, k: nat, r: Row)
    requires Distinct(table) && k < |table|
    ensures
      Distinct(table[k := r]) <==>
      r.cols.fingerId < 1 || forall i | 0 <= i < |table| && i != k :: table[i].cols.fingerId != r.cols.fingerId
  {
    var t := table[k := r];
    assert t[k] == r && forall i | 0 <= i < |t| && i != k :: t[i] == table[i];
  }

  lemma SameFingersDistinct(table: seq<Row>, t: seq<Row>, f: int, uuid: string)
    requires SameFingers(table, t)
    ensures Distinct(t) <==> Distinct(table)
    ensures NobodyElseHolds(t, f, uuid) <==> NobodyElseHolds(table, f, uuid)
  {
  }

  /** Registering a captured finger keeps the ids distinct if and only if its id reaches nobody, is no id, or is held
      by nobody else. */
  lemma SaveKeepsDistinctIff(d: Desk, m: Ledger, uuid: string, columnOk: bool, printOk: bool, idOk: bool)
    requires Valid(d.store) && Matches(m, d.store.table)
    ensures
      Distinct(SaveStep(d, uuid, columnOk, printOk, idOk).store.table) <==>
      !Gives(d, uuid, idOk) || HeldId(d.held) < 1
      || NobodyElseHolds(d.store.table, HeldId(d.held), uuid)
  {
    MatchingIsDistinct(d.store, m);
    PrintedIsSame(d, m, uuid, columnOk, printOk);
    SavedStore(d, uuid, columnOk, printOk, idOk);
    GivenIsDistinctIff(d.store.table, PrintedStore(d, uuid, columnOk, printOk), uuid, HeldId(d.held));
  }

  lemma GivenIsDistinctIff(table: seq<Row>, s: Store, uuid: string, f: int)
    requires Valid(s) && Distinct(table) && SameFingers(table, s.table) && SelectUuid(s.table, uuid) == SelectUuid(table, uuid)
    ensures Distinct(s.table)
    ensures Distinct(FingerIdStep(s, uuid, f).table) <==>
      f < 1 || SelectUuid(table, uuid) == |table| || NobodyElseHolds(table, f, uuid)
  {
    SameFingersDistinct(table, s.table, f, uuid);
    AssignKeepsDistinctIff(s, uuid, f);
  }

  /** A finger whose data could not be stored for one person, but whose id could, stays in the form: registering it for
      another person gives both the same id. */
  lemma HalfSavedFingerIsShared(d: Desk, m: Ledger, a: string, b: string)
    requires Valid(d.store) && Matches(m, d.store.table) && d.held != [] && HeldId(d.held) >= 1
    requires a != b && a != "" && b != ""
    requires SelectUuid(d.store.table, a) < |d.store.table| && SelectUuid(d.store.table, b) < |d.store.table|
    ensures !Distinct(SaveStep(SaveStep(d, a, false, false, true), b, true, true, true).store.table)
  {
    HalfSaved(d, a);
    var t := d.(store := FingerIdStep(d.store, a, HeldId(d.held)), given := Some(a));
    SameIdTwice(d.store, a, b, HeldId(d.held), d.held);
    FullySaved(t, b);
  }

  lemma HalfSaved(d: Desk, uuid: string)
    requires d.held != [] && uuid != "" && SelectUuid(d.store.table, uuid) < |d.store.table|
    ensures
      SaveStep(d, uuid, false, false, true)
      == d.(store := FingerIdStep(d.store, uuid, HeldId(d.held)), given := Some(uuid))
  {
  }

  lemma FullySaved(d: Desk, uuid: string)
    requires d.held != [] && uuid != "" && SelectUuid(d.store.table, uuid) < |d.store.table|
    ensures
      SaveStep(d, uuid, true, true, true).store
      == FingerIdStep(FingerprintStep(d.store, uuid, d.held), uuid, HeldId(d.held))
  {
  }

  lemma SameIdTwice(s: Store, a: string, b: string, f: int, data: Bytes)
    requires f >= 1 && a != b && SelectUuid(s.table, a) < |s.table| && SelectUuid(s.table, b) < |s.table|
    ensures
      var t := FingerIdStep(s, a, f);
      && SelectUuid(t.table, b) < |t.table|
      && !Distinct(FingerIdStep(t, b, f).table) && !Distinct(FingerIdStep(FingerprintStep(t, b, data), b, f).table)
  {
    var t := FingerIdStep(s, a, f);
    var i, j := SelectUuid(s.table, a), SelectUuid(s.table, b);
    assert t.table[i].cols.fingerId == f && t.table[i].cols.uuid == a && t.table[j].cols.uuid == b;
    var r, q := FingerIdStep(t, b, f), FingerIdStep(FingerprintStep(t, b, data), b, f);
    assert r.table[i].cols.fingerId == f && r.table[j].cols.fingerId == f;
    assert q.table[i].cols.fingerId == f && q.table[j].cols.fingerId == f;
  }

  lemma CapturedAndSaved(d: Desk, u: string, template: Bytes)
    requires u != "" && SelectUuid(d.store.table, u) < |d.store.table|
    ensures
      var id := (MaxFingerId(d.store.table) + 1) % 0x10000;
      var data := Packed(id, template);
      FingerStep(FingerStep(d, Capture(true, true, template)), SaveFinger(u, true, true, true))
      == Desk(FingerIdStep(FingerprintStep(d.store, u, data), u, id), [], None)
  {
    PackedId((MaxFingerId(d.store.table) + 1) % 0x10000, template);
  }

  /** The person changes and nobody else does: the data, and then the id. */
  lemma BothAreStored(s: Store, u: string, data: Bytes, id: int, p: Person, r: Row)
    requires Valid(s) && PersonEffects.Holds(s, u, p, r)
    ensures
      var t := FingerIdStep(FingerprintStep(s, u, data), u, id);
      && PersonEffects.Holds(t, u, p.(cols := p.cols.(fingerprint := data, fingerId := id)),
                             r.(cols := r.cols.(fingerprint := data, fingerId := id)))
      && PersonEffects.OthersStay(s, t, u)
  {
    PersonEffects.ColumnsFinds(s, u, (c: Columns) => c.(fingerprint := data), p, r);
    FingerprintKeepsValid(s, u, data);
    PersonEffects.ColumnsFinds(FingerprintStep(s, u, data), u, (c: Columns) => c.(fingerId := id),
                               p.(cols := p.cols.(fingerprint := data)), r.(cols := r.cols.(fingerprint := data)));
  }

  /** The data of a finger: the id and the size of the template, two bytes each, and all of the template. */
  lemma PackedBytes(id: nat, template: Bytes)
    requires id < 0x10000
    ensures
      var data := Packed(id, template);
      && data[4..] == template && 256 * data[0] + data[1] == id && 256 * data[2] + data[3] == |template| % 0x10000
      && forall i | 0 <= i < 4 :: 0 <= data[i] < 256
  {
  }

  /** Registering the finger that the form holds is storing its data and then its id, whatever becomes of the first; the form
      forgets it exactly when both worked. */
  lemma SavingIsTwoSteps(d: Desk, u: string, columnOk: bool, printOk: bool, idOk: bool)
    requires d.held != [] && u != ""
    ensures
      var t := FingerStep(d, SaveFinger(u, columnOk, printOk, idOk));
      && t.store
         == Step(Step(d.store, UpdateFingerprint(u, d.held, columnOk, printOk)), UpdateFingerId(u, HeldId(d.held), idOk))
      && t.held == if columnOk && printOk && idOk && PersonEffects.RowOf(d.store, u).Some? then [] else d.held
  {
    SavedStore(d, u, columnOk, printOk, idOk);
  }

  /** A finger that is captured and then registered for a person: list and table hold, for that person alone, the id one
      above the highest one, in 16 bits, and the data; the form forgets the finger. */
  lemma CapturedFingerIsStored(d: Desk, u: string, template: Bytes, p: Person, r: Row, id: nat)
    requires Valid(d.store) && PersonEffects.Holds(d.store, u, p, r) && u != ""
    requires id == (MaxFingerId(d.store.table) + 1) % 0x10000
    ensures
      var t := FingerStep(FingerStep(d, Capture(true, true, template)), SaveFinger(u, true, true, true));
      && PersonEffects.Holds(t.store, u, p.(cols := p.cols.(fingerprint := Packed(id, template), fingerId := id)),
                             r.(cols := r.cols.(fingerprint := Packed(id, template), fingerId := id)))
      && PersonEffects.OthersStay(d.store, t.store, u)
      && t.held == []
  {
    CapturedAndSaved(d, u, template);
    BothAreStored(d.store, u, Packed(id, template), id, p, r);
  }

  /** After a failed capture, a cleared form or a full registration there is no finger to register. */
  lemma NothingHeldSavesNothing(
      d: Desk, selectOk: bool, template: Bytes, u: string, columnOk: bool, printOk: bool, idOk: bool)
    ensures
      var t := FingerStep(d, Capture(selectOk, false, template));
      t.store == d.store && FingerStep(t, SaveFinger(u, columnOk, printOk, idOk)) == t
    ensures
      var t := FingerStep(d, ClearForm);
      t.store == d.store && FingerStep(t, SaveFinger(u, columnOk, printOk, idOk)) == t
    ensures d.held == [] ==> FingerStep(d, SaveFinger(u, columnOk, printOk, idOk)) == d
  {
  }

  /** Two enrollments that both allocate before either stores give two persons the same id. */
  lemma InterleavedEnrollmentsShare(s: Store, a: string, b: string)
    requires Valid(s) && Distinct(s.table) && a != b && 1 <= AllocateFingerId(s.table, true)
    requires SelectUuid(s.table, a) < |s.table| && SelectUuid(s.table, b) < |s.table|
    ensures
      var f := AllocateFingerId(s.table, true);
      !Distinct(FingerIdStep(FingerIdStep(s, a, f), b, f).table)
  {
    SameIdTwice(s, a, b, AllocateFingerId(s.table, true), []);
  }
}
