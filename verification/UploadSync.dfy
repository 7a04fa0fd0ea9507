/** The offline upload of registered persons: the status column (0 pending, 2 uploading, 1 uploaded), one synchronisation
    pass, and the retry timer (DB/RegisteredFacesDB.cpp). */
module UploadSync {
  import opened Wrappers
  import opened PersonStore
  import opened StoreAgreement

  // ---------- The pending records and the status of a person ----------

  predicate IsPending(r: Row) {
    r.uploadStatus == Some(0)
  }

  /** getPendingUploadRecords: the uuids of the rows WHERE uploadStatus = 0. */
  function PendingUuids(table: seq<Row>): (uuids: seq<string>)
    ensures |uuids| <= |table|
  {
    if table == [] then []
    else
      var n := |table| - 1;
      PendingUuids(table[..n]) + if IsPending(table[n]) then [table[n].cols.uuid] else []
  }

  predicate Listed(s: Store, uuid: string) {
    FindUuid(s.persons, uuid) < |s.persons|
  }

  /** The status of a person: the list first, then the table with NULL read as uploaded; -1 when there is no such
      person. */
  function CurrentStatus(s: Store, uuid: string): int {
    var k := FindUuid(s.persons, uuid);
    if k < |s.persons| then s.persons[k].uploadStatus
    else
      var j := SelectUuid(s.table, uuid);
      if j == |s.table| then -1
      else if s.table[j].uploadStatus == None then 1
      else s.table[j].uploadStatus.value
  }

  /** getPersonUploadStatus, which also gives -1 for a person who is not listed when its SELECT fails. */
  function StatusRead(s: Store, uuid: string, selectOk: bool): int {
    if Listed(s, uuid) || selectOk then CurrentStatus(s, uuid) else -1
  }

  /** Reading a status, case by case. */
  lemma StatusReadIs(s: Store, uuid: string, selectOk: bool)
    ensures
      var k, j, status := FindUuid(s.persons, uuid), SelectUuid(s.table, uuid), StatusRead(s, uuid, selectOk);
      if k < |s.persons| then status == s.persons[k].uploadStatus
      else if !selectOk || j == |s.table| then status == -1
      else status == match s.table[j].uploadStatus case None => 1 case Some(v) => v
  {
  }

  /** Writing a status changes no person's place. */
  lemma StatusFinds(s: Store, uuid: string, v: int, u: string)
    ensures
      var t := UploadStatusStep(s, uuid, v);
      FindUuid(t.persons, u) == FindUuid(s.persons, u) && SelectUuid(t.table, u) == SelectUuid(s.table, u)
  {
    var t := UploadStatusStep(s, uuid, v);
    assert forall i | 0 <= i < |s.persons| :: t.persons[i].cols == s.persons[i].cols;
    assert forall i | 0 <= i < |s.table| :: t.table[i].cols == s.table[i].cols;
  }

  lemma StatusWritten(s: Store, uuid: string, v: int, u: string)
    requires SelectUuid(s.table, uuid) < |s.table| || FindUuid(s.persons, uuid) < |s.persons|
    ensures CurrentStatus(UploadStatusStep(s, uuid, v), u) == if u == uuid then v else CurrentStatus(s, u)
    ensures Listed(UploadStatusStep(s, uuid, v), u) <==> Listed(s, u)
  {
    StatusFinds(s, uuid, v, u);
  }

  lemma StatusRow(s: Store, uuid: string, v: int)
    requires UniqueUuids(s.table) && SelectUuid(s.table, uuid) < |s.table|
    ensures
      var k := SelectUuid(s.table, uuid);
      UploadStatusStep(s, uuid, v).table == s.table[k := s.table[k].(uploadStatus := Some(v))]
  {
    UpdateRowsIs(s.table, uuid, (r: Row) => r.(uploadStatus := Some(v)));
  }

  // ---------- One record ----------

  datatype ServerReply = Accepted | Rejected | Threw

  /** What the attempt to upload one record meets: whether its status could be selected, whether it could be marked as
      uploading, whether its picture could be read, what the server says, and whether the last write of its status
      succeeded. */
  datatype Attempt = Attempt(statusOk: bool, markOk: bool, pictureOk: bool, reply: ServerReply, finalOk: bool)

  datatype Verdict = Skipped | Uploaded | Failed

  datatype Tally = Tally(success: nat, failure: nat, skipped: nat) {
    function Count(v: Verdict): Tally {
      match v
      case Skipped => this.(skipped := skipped + 1)
      case Uploaded => this.(success := success + 1)
      case Failed => this.(failure := failure + 1)
    }
  }

  function SyncOne(s: Store, uuid: string, a: Attempt): (r: (Store, Verdict))
    ensures |r.0.table| == |s.table|
  {
    if StatusRead(s, uuid, a.statusOk) != 0 then (s, Skipped)
    else if !a.markOk then (s, Failed)
    else
      var marked := UploadStatusStep(s, uuid, 2);
      if a.pictureOk && a.reply == Accepted then
        if a.finalOk then (UploadStatusStep(marked, uuid, 1), Uploaded) else (marked, Failed)
      else (if a.finalOk then UploadStatusStep(marked, uuid, 0) else marked, Failed)
  }

  /** Where a pending record ends up: it stays pending when the list does not say 0 or it could not be marked; it is stuck
      at 2 when the last write fails; otherwise it is uploaded or pending again. */
  function FinalStatus(current: int, a: Attempt): int {
    if current != 0 || !a.markOk then 0
    else if !a.finalOk then 2
    else if a.pictureOk && a.reply == Accepted then 1
    else 0
  }

  lemma SyncOneEffect(s: Store, uuid: string, a: Attempt)
    requires UniqueUuids(s.table) && SelectUuid(s.table, uuid) < |s.table|
    requires IsPending(s.table[SelectUuid(s.table, uuid)])
    ensures
      var (t, v) := SyncOne(s, uuid, a);
      var k, current := SelectUuid(s.table, uuid), StatusRead(s, uuid, a.statusOk);
      && t.table == s.table[k := s.table[k].(uploadStatus := Some(FinalStatus(current, a)))]
      && CurrentStatus(t, uuid) == (if current != 0 then CurrentStatus(s, uuid) else FinalStatus(current, a))
      && (Listed(t, uuid) <==> Listed(s, uuid))
      && (v == Skipped <==> current != 0) && (v == Uploaded <==> FinalStatus(current, a) == 1)
  {
    if StatusRead(s, uuid, a.statusOk) == 0 && a.markOk {
      WrittenOnce(s, uuid, 2);
      if a.finalOk {
        WrittenTwice(s, uuid, if a.pictureOk && a.reply == Accepted then 1 else 0);
      }
    }
  }

  /** A status that is written, in the row and as it is read back. */
  ghost predicate Written(s: Store, t: Store, uuid: string, v: int) {
    var k := SelectUuid(s.table, uuid);
    && k < |s.table| && t.table == s.table[k := s.table[k].(uploadStatus := Some(v))]
    && CurrentStatus(t, uuid) == v && (Listed(t, uuid) <==> Listed(s, uuid))
  }

  lemma WrittenOnce(s: Store, uuid: string, v: int)
    requires UniqueUuids(s.table) && SelectUuid(s.table, uuid) < |s.table|
    ensures Written(s, UploadStatusStep(s, uuid, v), uuid, v)
  {
    StatusRow(s, uuid, v);
    StatusWritten(s, uuid, v, uuid);
  }

  lemma WrittenTwice(s: Store, uuid: string, v: int)
    requires UniqueUuids(s.table) && SelectUuid(s.table, uuid) < |s.table|
    ensures Written(s, UploadStatusStep(UploadStatusStep(s, uuid, 2), uuid, v), uuid, v)
  {
    WrittenOnce(s, uuid, 2);
    StatusFinds(s, uuid, 2, uuid);
    WrittenOnce(UploadStatusStep(s, uuid, 2), uuid, v);
  }

  /** The other persons' statuses. */
  lemma SyncOneKeepsOthers(s: Store, uuid: string, a: Attempt, u: string)
    requires SelectUuid(s.table, uuid) < |s.table| && u != uuid
    ensures CurrentStatus(SyncOne(s, uuid, a).0, u) == CurrentStatus(s, u)
    ensures Listed(SyncOne(s, uuid, a).0, u) <==> Listed(s, u)
  {
    if StatusRead(s, uuid, a.statusOk) == 0 && a.markOk {
      var marked := UploadStatusStep(s, uuid, 2);
      StatusWritten(s, uuid, 2, u);
      assert forall i | 0 <= i < |s.table| :: marked.table[i].cols == s.table[i].cols;
      StatusWritten(marked, uuid, if a.pictureOk && a.reply == Accepted then 1 else 0, u);
    }
  }

  // ---------- A pass over the pending records ----------

  /** What happens to the attempt of each record. */
  type World = string -> Attempt

  function SyncRecords(s: Store, uuids: seq<string>, world: World): (r: (Store, Tally))
    ensures |r.0.table| == |s.table|
    ensures r.1.success + r.1.failure + r.1.skipped == |uuids|
  {
    if uuids == [] then (s, Tally(0, 0, 0))
    else
      var n := |uuids| - 1;
      var (t, tally) := SyncRecords(s, uuids[..n], world);
      var (t', v) := SyncOne(t, uuids[n], world(uuids[n]));
      (t', tally.Count(v))
  }

  /** Where a pending record of the store ends up. */
  function EndStatus(s: Store, uuid: string, world: World): int {
    FinalStatus(StatusRead(s, uuid, world(uuid).statusOk), world(uuid))
  }

  /** The row of a person after a pass over the given records. */
  function FinalRow(s: Store, uuids: seq<string>, world: World, r: Row): Row {
    if r.cols.uuid in uuids then r.(uploadStatus := Some(EndStatus(s, r.cols.uuid, world))) else r
  }

  ghost predicate PendingRecords(s: Store, uuids: seq<string>) {
    && (forall i, j | 0 <= i < j < |uuids| :: uuids[i] != uuids[j])
    && (forall i | 0 <= i < |uuids| ::
          SelectUuid(s.table, uuids[i]) < |s.table| && IsPending(s.table[SelectUuid(s.table, uuids[i])]))
  }

  /** t is the store after a pass over `front`: its rows, and the statuses as they are read. */
  ghost predicate AfterPass(s: Store, t: Store, front: seq<string>, world: World) {
    && |t.table| == |s.table|
    && (forall i | 0 <= i < |s.table| :: t.table[i] == FinalRow(s, front, world, s.table[i]))
    && (forall u | u !in front || CurrentStatus(s, u) != 0 :: CurrentStatus(t, u) == CurrentStatus(s, u))
    && (forall u | u in front && CurrentStatus(s, u) == 0 :: CurrentStatus(t, u) == EndStatus(s, u, world))
    && (forall u :: Listed(t, u) <==> Listed(s, u))
  }

  /** Where the next record is. */
  lemma NextRecord(s: Store, t: Store, front: seq<string>, last: string, world: World)
    requires UniqueUuids(s.table) && AfterPass(s, t, front, world) && last !in front
    requires SelectUuid(s.table, last) < |s.table| && IsPending(s.table[SelectUuid(s.table, last)])
    ensures UniqueUuids(t.table) && SelectUuid(t.table, last) == SelectUuid(s.table, last)
    ensures t.table[SelectUuid(s.table, last)] == s.table[SelectUuid(s.table, last)]
    ensures CurrentStatus(t, last) == CurrentStatus(s, last) && (Listed(t, last) <==> Listed(s, last))
  {
    assert forall i | 0 <= i < |s.table| :: t.table[i].cols == s.table[i].cols;
  }

  /** The row of any person after one more record. */
  lemma OneMoreRow(s: Store, t: Store, front: seq<string>, last: string, world: World, i: nat)
    requires UniqueUuids(s.table) && AfterPass(s, t, front, world) && last !in front && i < |s.table|
    requires SelectUuid(s.table, last) < |s.table| && IsPending(s.table[SelectUuid(s.table, last)])
    ensures SyncOne(t, last, world(last)).0.table[i] == FinalRow(s, front + [last], world, s.table[i])
  {
    NextRecord(s, t, front, last, world);
    SyncOneEffect(t, last, world(last));
    var k := SelectUuid(s.table, last);
    if i != k {
      assert s.table[i].cols.uuid != last;
    }
  }

  /** A record leaves the pending ones when it is uploaded, and otherwise only when its last write fails. */
  lemma OneMorePending(s: Store, t: Store, front: seq<string>, last: string, world: World)
    requires UniqueUuids(s.table) && AfterPass(s, t, front, world) && last !in front
    requires SelectUuid(s.table, last) < |s.table| && IsPending(s.table[SelectUuid(s.table, last)])
    ensures
      var (t', v) := SyncOne(t, last, world(last));
      var n, n' := |PendingUuids(t.table)|, |PendingUuids(t'.table)|;
      && n' <= n - (if v == Uploaded then 1 else 0)
      && (world(last).finalOk ==> n' == n - (if v == Uploaded then 1 else 0))
  {
    NextRecord(s, t, front, last, world);
    SyncOneEffect(t, last, world(last));
    var k := SelectUuid(s.table, last);
    PendingAfterReplacing(t.table, k, SyncOne(t, last, world(last)).0.table[k]);
  }

  /** The statuses that the list (or the table) shows after one more record. */
  lemma OneMoreStatus(s: Store, t: Store, front: seq<string>, last: string, world: World, u: string)
    requires UniqueUuids(s.table) && AfterPass(s, t, front, world) && last !in front
    requires SelectUuid(s.table, last) < |s.table| && IsPending(s.table[SelectUuid(s.table, last)])
    requires u !in front + [last] || CurrentStatus(s, u) != 0
    ensures CurrentStatus(SyncOne(t, last, world(last)).0, u) == CurrentStatus(s, u)
  {
    NextRecord(s, t, front, last, world);
    if u != last {
      assert u !in front + [last] ==> u !in front;
      SyncOneKeepsOthers(t, last, world(last), u);
    }
  }

  lemma OneMoreEnd(s: Store, t: Store, front: seq<string>, last: string, world: World, u: string)
    requires UniqueUuids(s.table) && AfterPass(s, t, front, world) && last !in front
    requires SelectUuid(s.table, last) < |s.table| && IsPending(s.table[SelectUuid(s.table, last)])
    requires u in front + [last] && CurrentStatus(s, u) == 0
    ensures CurrentStatus(SyncOne(t, last, world(last)).0, u) == EndStatus(s, u, world)
  {
    NextRecord(s, t, front, last, world);
    if u == last {
      SyncOneEffect(t, last, world(last));
    } else {
      assert u in front;
      SyncOneKeepsOthers(t, last, world(last), u);
    }
  }

  lemma OneMoreListed(s: Store, t: Store, front: seq<string>, last: string, world: World, u: string)
    requires UniqueUuids(s.table) && AfterPass(s, t, front, world) && last !in front
    requires SelectUuid(s.table, last) < |s.table| && IsPending(s.table[SelectUuid(s.table, last)])
    ensures Listed(SyncOne(t, last, world(last)).0, u) <==> Listed(s, u)
  {
    NextRecord(s, t, front, last, world);
    if u == last {
      SyncOneEffect(t, last, world(last));
    } else {
      SyncOneKeepsOthers(t, last, world(last), u);
    }
  }

  lemma {:induction false} PendingAfterReplacing(table: seq<Row>, k: nat, r: Row)
    requires k < |table| && IsPending(table[k])
    ensures |PendingUuids(table[k := r])| == |PendingUuids(table)| - (if IsPending(r) then 0 else 1)
  {
    var n := |table| - 1;
    if k < n {
      assert table[k := r][..n] == table[..n][k := r];
      PendingAfterReplacing(table[..n], k, r);
    } else {
      assert table[k := r][..n] == table[..n];
    }
  }

  lemma {:induction false} PendingUuidsAre(table: seq<Row>)
    requires UniqueUuids(table)
    ensures forall u ::
      u in PendingUuids(table) <==> exists i | 0 <= i < |table| :: table[i].cols.uuid == u && IsPending(table[i])
    ensures forall i, j | 0 <= i < j < |PendingUuids(table)| :: PendingUuids(table)[i] != PendingUuids(table)[j]
  {
    if table != [] {
      var n := |table| - 1;
      PendingUuidsAre(table[..n]);
      assert forall i | 0 <= i < n :: table[..n][i] == table[i];
      var front := PendingUuids(table[..n]);
      assert table[n].cols.uuid !in front;
      forall u
        ensures
          u in PendingUuids(table) <==> exists i | 0 <= i < |table| :: table[i].cols.uuid == u && IsPending(table[i])
      {
        if u in front {
          var i :| 0 <= i < n && table[..n][i].cols.uuid == u && IsPending(table[..n][i]);
          assert table[i].cols.uuid == u && IsPending(table[i]);
        }
      }
    }
  }

  lemma OneMoreRecord(s: Store, t: Store, front: seq<string>, last: string, world: World)
    requires UniqueUuids(s.table) && AfterPass(s, t, front, world) && last !in front
    requires SelectUuid(s.table, last) < |s.table| && IsPending(s.table[SelectUuid(s.table, last)])
    ensures AfterPass(s, SyncOne(t, last, world(last)).0, front + [last], world)
  {
    var t' := SyncOne(t, last, world(last)).0;
    forall i | 0 <= i < |s.table| ensures t'.table[i] == FinalRow(s, front + [last], world, s.table[i]) {
      OneMoreRow(s, t, front, last, world, i);
    }
    forall u | u !in front + [last] || CurrentStatus(s, u) != 0 ensures CurrentStatus(t', u) == CurrentStatus(s, u) {
      OneMoreStatus(s, t, front, last, world, u);
    }
    forall u | u in front + [last] && CurrentStatus(s, u) == 0 ensures CurrentStatus(t', u) == EndStatus(s, u, world) {
      OneMoreEnd(s, t, front, last, world, u);
    }
    forall u ensures Listed(t', u) <==> Listed(s, u) {
      OneMoreListed(s, t, front, last, world, u);
    }
  }

  lemma LastRecord(s: Store, uuids: seq<string>)
    requires PendingRecords(s, uuids) && uuids != []
    ensures
      var n := |uuids| - 1;
      var front, last := uuids[..n], uuids[n];
      && PendingRecords(s, front) && last !in front && uuids == front + [last]
      && SelectUuid(s.table, last) < |s.table| && IsPending(s.table[SelectUuid(s.table, last)])
  {
  }

  lemma SyncRecordsUnfolded(s: Store, uuids: seq<string>, world: World, t: Store, last: string)
    requires uuids != [] && t == SyncRecords(s, uuids[..|uuids| - 1], world).0 && last == uuids[|uuids| - 1]
    ensures SyncRecords(s, uuids, world).0 == SyncOne(t, last, world(last)).0
    ensures
      SyncRecords(s, uuids, world).1.success ==
      SyncRecords(s, uuids[..|uuids| - 1], world).1.success + if SyncOne(t, last, world(last)).1 == Uploaded then 1 else 0
  {
  }

  lemma {:induction false} SyncRecordsEffect(s: Store, uuids: seq<string>, world: World)
    requires UniqueUuids(s.table) && PendingRecords(s, uuids)
    ensures AfterPass(s, SyncRecords(s, uuids, world).0, uuids, world)
  {
    if uuids != [] {
      var front, last := uuids[..|uuids| - 1], uuids[|uuids| - 1];
      LastRecord(s, uuids);
      SyncRecordsEffect(s, front, world);
      var t := SyncRecords(s, front, world).0;
      OneMoreRecord(s, t, front, last, world);
      SyncRecordsUnfolded(s, uuids, world, t, last);
    }
  }

  lemma {:induction false} SyncRecordsCount(s: Store, uuids: seq<string>, world: World)
    requires UniqueUuids(s.table) && PendingRecords(s, uuids)
    ensures
      var (t, tally) := SyncRecords(s, uuids, world);
      && |PendingUuids(t.table)| + tally.success <= |PendingUuids(s.table)|
      && ((forall u :: world(u).finalOk) ==> |PendingUuids(t.table)| + tally.success == |PendingUuids(s.table)|)
  {
    if uuids != [] {
      var front, last := uuids[..|uuids| - 1], uuids[|uuids| - 1];
      LastRecord(s, uuids);
      SyncRecordsCount(s, front, world);
      SyncRecordsEffect(s, front, world);
      var t := SyncRecords(s, front, world).0;
      OneMorePending(s, t, front, last, world);
      SyncRecordsUnfolded(s, uuids, world, t, last);
    }
  }

  // ---------- The pass, its result and what it never repairs ----------

  /** The loop of syncPendingRecordsToServer over the records it selected. */
  function SyncPass(s: Store, world: World): (Store, Tally) {
    SyncRecords(s, PendingUuids(s.table), world)
  }

  lemma PendingUuidsArePending(s: Store)
    requires UniqueUuids(s.table)
    ensures PendingRecords(s, PendingUuids(s.table))
    ensures forall i | 0 <= i < |s.table| :: s.table[i].cols.uuid in PendingUuids(s.table) <==> IsPending(s.table[i])
  {
    var uuids := PendingUuids(s.table);
    PendingUuidsAre(s.table);
    forall j | 0 <= j < |uuids|
      ensures SelectUuid(s.table, uuids[j]) < |s.table| && IsPending(s.table[SelectUuid(s.table, uuids[j])])
    {
      assert uuids[j] in uuids;
      var i :| 0 <= i < |s.table| && s.table[i].cols.uuid == uuids[j] && IsPending(s.table[i]);
      assert SelectUuid(s.table, uuids[j]) == i;
    }
  }

  lemma PassRows(s: Store, world: World, i: nat)
    requires UniqueUuids(s.table) && i < |s.table| && AfterPass(s, SyncPass(s, world).0, PendingUuids(s.table), world)
    ensures
      var r := s.table[i];
      SyncPass(s, world).0.table[i]
      == if IsPending(r) then r.(uploadStatus := Some(EndStatus(s, r.cols.uuid, world))) else r
  {
    PendingUuidsArePending(s);
    assert SyncPass(s, world).0.table[i] == FinalRow(s, PendingUuids(s.table), world, s.table[i]);
  }

  lemma PassStatuses(s: Store, world: World, i: nat)
    requires UniqueUuids(s.table) && i < |s.table| && AfterPass(s, SyncPass(s, world).0, PendingUuids(s.table), world)
    ensures
      var u := s.table[i].cols.uuid;
      CurrentStatus(SyncPass(s, world).0, u)
      == if IsPending(s.table[i]) && CurrentStatus(s, u) == 0 then EndStatus(s, u, world) else CurrentStatus(s, u)
  {
    PendingUuidsArePending(s);
  }

  /** Where every record ends up, for every outcome of every statement, picture and upload: a record that was not pending
      is untouched; a pending one is where FinalStatus says. */
  lemma SyncPassOutcome(s: Store, world: World)
    requires UniqueUuids(s.table)
    ensures
      var (t, tally) := SyncPass(s, world);
      && |t.table| == |s.table|
      && (forall i | 0 <= i < |s.table| ::
            t.table[i] ==
            var r := s.table[i];
            if IsPending(r) then r.(uploadStatus := Some(EndStatus(s, r.cols.uuid, world))) else r)
      && (forall i | 0 <= i < |s.table| ::
            var u := s.table[i].cols.uuid;
            CurrentStatus(t, u) ==
            if IsPending(s.table[i]) && CurrentStatus(s, u) == 0 then EndStatus(s, u, world) else CurrentStatus(s, u))
      && tally.success + tally.failure + tally.skipped == |PendingUuids(s.table)|
      && |PendingUuids(t.table)| + tally.success <= |PendingUuids(s.table)|
      && ((forall u :: world(u).finalOk) ==> |PendingUuids(t.table)| + tally.success == |PendingUuids(s.table)|)
  {
    PendingUuidsArePending(s);
    SyncRecordsEffect(s, PendingUuids(s.table), world);
    SyncRecordsCount(s, PendingUuids(s.table), world);
    forall i | 0 <= i < |s.table|
      ensures
        var r := s.table[i];
        SyncPass(s, world).0.table[i]
        == if IsPending(r) then r.(uploadStatus := Some(EndStatus(s, r.cols.uuid, world))) else r
    {
      PassRows(s, world, i);
    }
    forall i | 0 <= i < |s.table|
      ensures
        var u := s.table[i].cols.uuid;
        CurrentStatus(SyncPass(s, world).0, u)
        == if IsPending(s.table[i]) && CurrentStatus(s, u) == 0 then EndStatus(s, u, world) else CurrentStatus(s, u)
    {
      PassStatuses(s, world, i);
    }
  }

  /** A pass leaves a record at 2 exactly when it was there before, or was pending with its status read as 0, could be
      marked and could not be written afterwards. */
  lemma StuckIff(s: Store, world: World, i: nat)
    requires UniqueUuids(s.table) && i < |s.table|
    ensures
      var r := s.table[i];
      var a := world(r.cols.uuid);
      SyncPass(s, world).0.table[i].uploadStatus == Some(2) <==>
      || r.uploadStatus == Some(2)
      || (IsPending(r) && StatusRead(s, r.cols.uuid, a.statusOk) == 0 && a.markOk && !a.finalOk)
  {
    SyncPassOutcome(s, world);
  }

  /** A pass leaves a record uploaded exactly when it was before, or was pending with its status read as 0, could be marked,
      its picture could be read, the server accepted it, and that could be written. */
  lemma UploadedIff(s: Store, world: World, i: nat)
    requires UniqueUuids(s.table) && i < |s.table|
    ensures
      var r := s.table[i];
      var a := world(r.cols.uuid);
      SyncPass(s, world).0.table[i].uploadStatus == Some(1) <==>
      || r.uploadStatus == Some(1)
      || (&& r.uploadStatus == Some(0) && StatusRead(s, r.cols.uuid, a.statusOk) == 0
          && a.markOk && a.pictureOk && a.reply == Accepted && a.finalOk)
  {
    SyncPassOutcome(s, world);
  }

  /** And it leaves nothing else behind but these, the stuck records, and records that are pending as they were. */
  lemma StillPendingIff(s: Store, world: World, i: nat)
    requires UniqueUuids(s.table) && i < |s.table|
    ensures
      var r := s.table[i];
      var a := world(r.cols.uuid);
      SyncPass(s, world).0.table[i].uploadStatus == Some(0) <==>
      && r.uploadStatus == Some(0)
      && (|| StatusRead(s, r.cols.uuid, a.statusOk) != 0
          || !a.markOk
          || (a.finalOk && !(a.pictureOk && a.reply == Accepted)))
  {
    SyncPassOutcome(s, world);
  }

  /** The rows with this status. */
  function CountOf(table: seq<Row>, v: int): nat {
    if table == [] then 0
    else
      var n := |table| - 1;
      CountOf(table[..n], v) + if table[n].uploadStatus == Some(v) then 1 else 0
  }

  lemma {:induction false} CountReplaced(table: seq<Row>, k: nat, r: Row, v: int)
    requires k < |table|
    ensures
      CountOf(table[k := r], v) + (if table[k].uploadStatus == Some(v) then 1 else 0)
      == CountOf(table, v) + if r.uploadStatus == Some(v) then 1 else 0
  {
    var n := |table| - 1;
    if k < n {
      assert table[k := r][..n] == table[..n][k := r];
      CountReplaced(table[..n], k, r, v);
    } else {
      assert table[k := r][..n] == table[..n];
    }
  }

  lemma OneMoreUploaded(s: Store, t: Store, front: seq<string>, last: string, world: World)
    requires UniqueUuids(s.table) && AfterPass(s, t, front, world) && last !in front
    requires SelectUuid(s.table, last) < |s.table| && IsPending(s.table[SelectUuid(s.table, last)])
    ensures
      var (t', v) := SyncOne(t, last, world(last));
      CountOf(t'.table, 1) == CountOf(t.table, 1) + if v == Uploaded then 1 else 0
  {
    NextRecord(s, t, front, last, world);
    SyncOneEffect(t, last, world(last));
    var k := SelectUuid(s.table, last);
    CountReplaced(t.table, k, SyncOne(t, last, world(last)).0.table[k], 1);
  }

  lemma {:induction false} SyncRecordsUploaded(s: Store, uuids: seq<string>, world: World)
    requires UniqueUuids(s.table) && PendingRecords(s, uuids)
    ensures var (t, tally) := SyncRecords(s, uuids, world); CountOf(t.table, 1) == CountOf(s.table, 1) + tally.success
  {
    if uuids != [] {
      var front, last := uuids[..|uuids| - 1], uuids[|uuids| - 1];
      LastRecord(s, uuids);
      SyncRecordsUploaded(s, front, world);
      SyncRecordsEffect(s, front, world);
      var t := SyncRecords(s, front, world).0;
      OneMoreUploaded(s, t, front, last, world);
      SyncRecordsUnfolded(s, uuids, world, t, last);
    }
  }

  /** The success count is exactly the number of records that became uploaded. */
  lemma SuccessesAreUploaded(s: Store, world: World)
    requires UniqueUuids(s.table)
    ensures var (t, tally) := SyncPass(s, world); CountOf(t.table, 1) == CountOf(s.table, 1) + tally.success
  {
    PendingUuidsArePending(s);
    SyncRecordsUploaded(s, PendingUuids(s.table), world);
  }

  /** How many of these records a pass skips: those whose status is not read as 0. */
  function SkipsOf(s: Store, uuids: seq<string>, world: World): nat {
    if uuids == [] then 0
    else
      var n := |uuids| - 1;
      SkipsOf(s, uuids[..n], world) + if StatusRead(s, uuids[n], world(uuids[n]).statusOk) != 0 then 1 else 0
  }

  lemma OneMoreSkip(s: Store, t: Store, front: seq<string>, last: string, world: World)
    requires UniqueUuids(s.table) && AfterPass(s, t, front, world) && last !in front
    requires SelectUuid(s.table, last) < |s.table| && IsPending(s.table[SelectUuid(s.table, last)])
    ensures SyncOne(t, last, world(last)).1 == Skipped <==> StatusRead(s, last, world(last).statusOk) != 0
  {
    NextRecord(s, t, front, last, world);
    SyncOneEffect(t, last, world(last));
  }

  lemma {:induction false} SyncRecordsSkip(s: Store, uuids: seq<string>, world: World)
    requires UniqueUuids(s.table) && PendingRecords(s, uuids)
    ensures SyncRecords(s, uuids, world).1.skipped == SkipsOf(s, uuids, world)
  {
    if uuids != [] {
      var front, last := uuids[..|uuids| - 1], uuids[|uuids| - 1];
      LastRecord(s, uuids);
      SyncRecordsSkip(s, front, world);
      SyncRecordsEffect(s, front, world);
      OneMoreSkip(s, SyncRecords(s, front, world).0, front, last, world);
    }
  }

  /** The skipped count is the number of pending records whose status is not read as 0; so, with the successes counted
      and all three adding up, the failures are the rest. */
  lemma SkippedAreUnread(s: Store, world: World)
    requires UniqueUuids(s.table)
    ensures SyncPass(s, world).1.skipped == SkipsOf(s, PendingUuids(s.table), world)
  {
    PendingUuidsArePending(s);
    SyncRecordsSkip(s, PendingUuids(s.table), world);
  }

  /** With every write of a status succeeding: pending records end up pending or uploaded, none is left at 2 by the pass,
      and the pending ones fall by exactly the success count. */
  lemma AllWritesSucceed(s: Store, world: World)
    requires UniqueUuids(s.table) && forall u :: world(u).markOk && world(u).finalOk
    ensures
      var (t, tally) := SyncPass(s, world);
      && |PendingUuids(t.table)| == |PendingUuids(s.table)| - tally.success
      && tally.success + tally.failure + tally.skipped == |PendingUuids(s.table)|
      && |t.table| == |s.table|
      && (forall i | 0 <= i < |s.table| && IsPending(s.table[i]) ::
            t.table[i].uploadStatus == Some(0) || t.table[i].uploadStatus == Some(1))
      && (forall i | 0 <= i < |s.table| && !IsPending(s.table[i]) :: t.table[i] == s.table[i])
  {
    SyncPassOutcome(s, world);
  }

  /** A record that no pass works on: stuck at 2, or pending while the list says otherwise. */
  ghost predicate Overlooked(s: Store, i: nat) {
    && i < |s.table|
    && (s.table[i].uploadStatus == Some(2) || (IsPending(s.table[i]) && CurrentStatus(s, s.table[i].cols.uuid) != 0))
  }

  lemma PassKeepsOverlooked(s: Store, world: World, i: nat)
    requires UniqueUuids(s.table) && Overlooked(s, i)
    ensures
      var t := SyncPass(s, world).0;
      UniqueUuids(t.table) && Overlooked(t, i) && t.table[i] == s.table[i]
  {
    SyncPassOutcome(s, world);
    var t := SyncPass(s, world).0;
    assert forall j | 0 <= j < |s.table| :: t.table[j].cols == s.table[j].cols;
  }

  function Passes(s: Store, worlds: seq<World>): Store {
    if worlds == [] then s else SyncPass(Passes(s, worlds[..|worlds| - 1]), worlds[|worlds| - 1]).0
  }

  /** No number of passes touches a record that is stuck at 2, or that is pending while the list says otherwise. */
  lemma {:induction false} NeverRetried(s: Store, worlds: seq<World>, i: nat)
    requires UniqueUuids(s.table) && Overlooked(s, i)
    ensures
      var t := Passes(s, worlds);
      UniqueUuids(t.table) && Overlooked(t, i) && t.table[i] == s.table[i]
  {
    if worlds != [] {
      var n := |worlds| - 1;
      NeverRetried(s, worlds[..n], i);
      PassKeepsOverlooked(Passes(s, worlds[..n]), worlds[n], i);
    }
  }

  lemma {:induction false} NonePending(table: seq<Row>)
    ensures PendingUuids(table) == [] <==> forall i | 0 <= i < |table| :: !IsPending(table[i])
  {
    if table != [] {
      var n := |table| - 1;
      NonePending(table[..n]);
      assert forall i | 0 <= i < n :: table[..n][i] == table[i];
      assert IsPending(table[n]) ==> |PendingUuids(table)| > 0;
    }
  }

  /** The list says "pending" of every pending record. */
  ghost predicate StatusesAgree(s: Store) {
    forall i | 0 <= i < |s.table| && IsPending(s.table[i]) :: CurrentStatus(s, s.table[i].cols.uuid) == 0
  }

  /** When everything works, a pass leaves nothing pending exactly when the list agreed with the table before it. */
  lemma PassEmptiesIff(s: Store, world: World)
    requires UniqueUuids(s.table)
    requires forall u :: world(u) == Attempt(true, true, true, Accepted, true)
    ensures PendingUuids(SyncPass(s, world).0.table) == [] <==> StatusesAgree(s)
  {
    SyncPassOutcome(s, world);
    NonePending(SyncPass(s, world).0.table);
  }
}
