/** The ten slots of recently tracked faces (BaiduFaceManager::getCoreFace). */
module TrackSlots {

  const MAX_FACES := 10
  const UINT_RANGE := 0x1_0000_0000

  /** CORE_FACE_S: the track id (0 in an empty slot) and the other fields, [] when they are all zero. */
  datatype CoreFace = CoreFace(trackId: nat, details: seq<int>)

  type Slots = s: seq<CoreFace> | |s| == MAX_FACES witness seq(MAX_FACES, i => CoreFace(0, []))

  /** The ids the caller says are in front of the camera; a null pointer is an empty sequence. */
  type Exist = seq<nat>

  /** The id a slot holds for tracking id n: ++nTrackID on an unsigned int. */
  function SlotId(n: nat): nat {
    (n + 1) % UINT_RANGE
  }

  predicate Listed(face: CoreFace, exist: Exist) {
    face.trackId != 0 && face.trackId in exist
  }

  /** The lowest slot with the given id, or MAX_FACES. */
  function Holder(s: Slots, id: nat, from: nat := 0): (r: nat)
    requires from <= MAX_FACES
    ensures from <= r <= MAX_FACES && (r < MAX_FACES ==> s[r].trackId == id)
    ensures forall i | from <= i < r :: s[i].trackId != id
    decreases MAX_FACES - from
  {
    if from == MAX_FACES || s[from].trackId == id then from else Holder(s, id, from + 1)
  }

  /** The lowest slot that is not listed, or MAX_FACES. */
  function FirstUnlisted(s: Slots, exist: Exist, from: nat := 0): (r: nat)
    requires from <= MAX_FACES
    ensures from <= r <= MAX_FACES && (r < MAX_FACES ==> !Listed(s[r], exist))
    ensures forall i | from <= i < r :: Listed(s[i], exist)
    decreases MAX_FACES - from
  {
    if from == MAX_FACES || !Listed(s[from], exist) then from else FirstUnlisted(s, exist, from + 1)
  }

  datatype Call = Call(trackingId: nat, exist: Exist)

  /** The slot that a call returns. */
  function Returned(s: Slots, c: Call): nat {
    var hit := Holder(s, SlotId(c.trackingId));
    if hit < MAX_FACES then hit
    else
      var free := FirstUnlisted(s, c.exist);
      if free < MAX_FACES then free else 0
  }

  /** The slots after a call. */
  function After(s: Slots, c: Call): (t: Slots)
    ensures |t| == MAX_FACES
  {
    if Holder(s, SlotId(c.trackingId)) < MAX_FACES then s
    else s[Returned(s, c) := CoreFace(SlotId(c.trackingId), [])]
  }

  function Run(s: Slots, calls: seq<Call>): Slots
    decreases |calls|
  {
    if calls == [] then s else After(Run(s, calls[..|calls| - 1]), calls[|calls| - 1])
  }

  ghost predicate Distinct(s: Slots) {
    forall i, j | 0 <= i < j < MAX_FACES && s[i].trackId != 0 :: s[i].trackId != s[j].trackId
  }

  /** No sequence of calls gives two slots the same nonzero id. */
  lemma {:induction false} RunKeepsIdsDistinct(s: Slots, calls: seq<Call>)
    requires Distinct(s)
    ensures Distinct(Run(s, calls))
    decreases |calls|
  {
    if calls != [] {
      RunKeepsIdsDistinct(s, calls[..|calls| - 1]);
    }
  }

  /** A call changes at most the returned slot, and that one only on a miss; a slot whose id is listed is lost only when
      every slot is. */
  lemma CallEffect(s: Slots, c: Call)
    ensures
      var r, t := Returned(s, c), After(s, c);
      && t[r].trackId == SlotId(c.trackingId)
      && (forall i | 0 <= i < MAX_FACES && i != r :: t[i] == s[i])
      && ((exists i | 0 <= i < MAX_FACES :: s[i].trackId == SlotId(c.trackingId)) ==> t == s)
      && ((forall i | 0 <= i < MAX_FACES :: s[i].trackId != SlotId(c.trackingId)) ==>
            && t[r].details == []
            && (s[r].trackId != 0 && s[r].trackId in c.exist ==>
                  r == 0 && forall i | 0 <= i < MAX_FACES :: s[i].trackId != 0 && s[i].trackId in c.exist)
            && (forall i | 0 <= i < r :: s[i].trackId != 0 && s[i].trackId in c.exist))
  {
  }

  /** The id of a slot is the tracking id plus one, in 32 bits. */
  lemma SlotIds()
    ensures SlotId(7) == 8 && SlotId(0xFFFF_FFFE) == 0xFFFF_FFFF && SlotId(0xFFFF_FFFF) == 0
  {
  }

  /** Asking again for the same face, whatever the list, returns the same slot unchanged. */
  lemma AskingAgainHits(s: Slots, c: Call, exist: Exist)
    requires Distinct(s) && SlotId(c.trackingId) != 0
    ensures
      var t, again := After(s, c), Call(c.trackingId, exist);
      After(t, again) == t && Returned(t, again) == Returned(s, c)
  {
    var t := After(s, c);
    assert t[Returned(s, c)].trackId == SlotId(c.trackingId);
    assert Distinct(t);
  }

  /** The camera loop fills the list with tracking ids, but the slots hold tracking ids plus one: a face whose own
      tracking id is listed is evicted while empty slots are left. */
  lemma ListedTrackingIdDoesNotProtect()
    ensures
      exists s: Slots, c: Call ::
        && Distinct(s) && s[0].trackId == SlotId(7) && 7 in c.exist && SlotId(c.trackingId) != s[0].trackId
        && s[9].trackId == 0
        && After(s, c)[0].trackId != SlotId(7)
  {
    var s: Slots := seq(MAX_FACES, i => if i == 0 then CoreFace(8, []) else CoreFace(0, []));
    var c := Call(3, [7, 0, 0, 0, 0, 0, 0, 0, 0, 0]);
    assert !Listed(s[0], c.exist);
    assert FirstUnlisted(s, c.exist) == 0;
    assert After(s, c)[0].trackId == 4;
    assert s[9].trackId == 0 && 7 in c.exist;
  }

  /** A slot that holds tracking id t survives a miss exactly when it is not the chosen one: an earlier slot is not
      listed, or its own id t + 1 is listed and not every slot is (slot 0 goes when all are). */
  lemma SurvivesMissIff(s: Slots, c: Call, k: nat)
    requires k < MAX_FACES && Holder(s, SlotId(c.trackingId)) == MAX_FACES
    ensures
      After(s, c)[k] == s[k] <==>
      || (exists i | 0 <= i < k :: !Listed(s[i], c.exist))
      || (Listed(s[k], c.exist) && (k != 0 || exists i | 0 <= i < MAX_FACES :: !Listed(s[i], c.exist)))
  {
    var r := Returned(s, c);
    assert s[k].trackId != SlotId(c.trackingId);
    assert After(s, c)[k] == s[k] <==> k != r;
    var free := FirstUnlisted(s, c.exist);
    if free < MAX_FACES {
      assert !Listed(s[free], c.exist);
    }
  }

  class BaiduFaceManager {
    var stCoreFaces: array<CoreFace>

    ghost predicate Valid()
      reads this
    {
      stCoreFaces.Length == MAX_FACES
    }

    ghost function Contents(): (s: Slots)
      requires Valid()
      reads this, stCoreFaces
    {
      stCoreFaces[..]
    }

    constructor ()
      ensures Valid() && fresh(stCoreFaces)
      ensures Distinct(Contents()) && forall i | 0 <= i < MAX_FACES :: Contents()[i] == CoreFace(0, [])
    {
      stCoreFaces := new CoreFace[MAX_FACES](i => CoreFace(0, []));
    }

    method GetCoreFace(nTrackID: nat, nExistTrackID: Exist) returns (slot: nat)
      requires Valid()
      modifies stCoreFaces
      ensures Valid() && slot < MAX_FACES
      ensures slot == Returned(old(Contents()), Call(nTrackID, nExistTrackID))
      ensures Contents() == After(old(Contents()), Call(nTrackID, nExistTrackID))
      ensures stCoreFaces[slot].trackId == SlotId(nTrackID)
    {
      ghost var s, c := Contents(), Call(nTrackID, nExistTrackID);
      var lTrackID := (nTrackID + 1) % UINT_RANGE;
      var i := 0;
      while i < MAX_FACES
        invariant 0 <= i <= MAX_FACES
        invariant Holder(s, lTrackID) == Holder(s, lTrackID, i)
      {
        if stCoreFaces[i].trackId == lTrackID {
          return i;
        }
        i := i + 1;
      }
      slot := 0;
      i := 0;
      while i < MAX_FACES
        invariant 0 <= i <= MAX_FACES && slot == 0 && stCoreFaces[..] == s
        invariant FirstUnlisted(s, nExistTrackID) == FirstUnlisted(s, nExistTrackID, i)
      {
        var listed := IsListed(stCoreFaces[i].trackId, nExistTrackID);
        assert listed == Listed(s[i], nExistTrackID);
        if !listed {
          slot := i;
          break;
        }
        i := i + 1;
      }
      stCoreFaces[slot] := CoreFace(lTrackID, []);
    }

    static method IsListed(trackId: nat, exist: Exist) returns (listed: bool)
      ensures listed == (trackId != 0 && trackId in exist)
    {
      var j := 0;
      while j < |exist|
        invariant 0 <= j <= |exist|
        invariant trackId == 0 || trackId !in exist[..j]
      {
        if trackId == exist[j] && exist[j] != 0 {
          return true;
        }
        j := j + 1;
      }
      return false;
    }
  }
}
