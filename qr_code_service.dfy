/** QR codes: each save reuses the owner's latest record when there is one (an upsert),
    and the latest record is the owner's one with the greatest creation time. */
module QrCodes {
  import opened Common
  import opened SecurityUtil

  datatype QrCode = QrCode(id: Option<string>, ownerId: string, imageData: string, createdAt: int)

  /** Every stored record carries its own key as id. */
  predicate Stored(s: map<string, QrCode>) {
    forall k :: k in s ==> s[k].id == Some(k)
  }

  predicate HasCode(s: map<string, QrCode>, owner: string) {
    exists k :: k in s && s[k].ownerId == owner
  }

  /** `k` is a record findTopByOwnerIdOrderByCreatedAtDesc may return: the owner's, created last. */
  predicate IsLatest(s: map<string, QrCode>, owner: string, k: string) {
    && k in s && s[k].ownerId == owner
    && forall j :: j in s && s[j].ownerId == owner ==> s[j].createdAt <= s[k].createdAt
  }

  /** No owner has two records; saveQrCode keeps this. */
  predicate AtMostOnePerOwner(s: map<string, QrCode>) {
    forall j, k :: j in s && k in s && s[j].ownerId == s[k].ownerId ==> j == k
  }

  /** What saveQrCode does: `saved` is the owner's latest record with the new image and time
      when the owner has one, else a new record under the fresh id; it is stored under its id. */
  ghost predicate Saved(before: map<string, QrCode>, after: map<string, QrCode>, owner: string, imageData: string, newId: string, now: int, saved: QrCode) {
    && saved.ownerId == owner && saved.imageData == imageData && saved.createdAt == now
    && (|| (exists k :: IsLatest(before, owner, k) && saved == before[k].(imageData := imageData, createdAt := now) && after == before[k := saved])
        || (!HasCode(before, owner) && saved == QrCode(Some(newId), owner, imageData, now) && after == before[newId := saved]))
  }

  /** A save is afterwards the owner's only latest record, provided every older record of
      the owner is strictly older than the save or the owner had at most one record. */
  lemma {:induction false} LatestAfterSave(before: map<string, QrCode>, after: map<string, QrCode>, owner: string, imageData: string, newId: string, now: int, saved: QrCode)
    requires Saved(before, after, owner, imageData, newId, now, saved)
    requires AtMostOnePerOwner(before) || forall j :: j in before && before[j].ownerId == owner ==> before[j].createdAt < now
    ensures exists k :: IsLatest(after, owner, k)
    ensures forall k :: IsLatest(after, owner, k) ==> after[k] == saved && after[k].imageData == imageData
  {
    var key;
    if exists k :: IsLatest(before, owner, k) && saved == before[k].(imageData := imageData, createdAt := now) && after == before[k := saved] {
      key :| IsLatest(before, owner, key) && after == before[key := saved];
    } else {
      key := newId;
    }
    assert after == before[key := saved];
    forall j | j in after && j != key && after[j].ownerId == owner
      ensures after[j].createdAt < now
    {
      assert after[j] == before[j];
      if AtMostOnePerOwner(before) {
        assert false;
      }
    }
    assert IsLatest(after, owner, key);
  }

  /** A save keeps at most one record per owner. */
  lemma {:induction false} SaveKeepsOnePerOwner(before: map<string, QrCode>, after: map<string, QrCode>, owner: string, imageData: string, newId: string, now: int, saved: QrCode)
    requires Saved(before, after, owner, imageData, newId, now, saved)
    requires AtMostOnePerOwner(before)
    ensures AtMostOnePerOwner(after)
  {
    if exists k :: IsLatest(before, owner, k) && saved == before[k].(imageData := imageData, createdAt := now) && after == before[k := saved] {
      var k :| IsLatest(before, owner, k) && after == before[k := before[k].(imageData := imageData, createdAt := now)];
      forall i, j | i in after && j in after && after[i].ownerId == after[j].ownerId ensures i == j {
        assert before[i].ownerId == after[i].ownerId && before[j].ownerId == after[j].ownerId;
      }
    } else {
      forall i, j | i in after && j in after && after[i].ownerId == after[j].ownerId ensures i == j {
        if i == newId && j != newId { assert before[j].ownerId == owner; assert HasCode(before, owner); }
        if j == newId && i != newId { assert before[i].ownerId == owner; assert HasCode(before, owner); }
      }
    }
  }

  class QrCodeService {
    var codes: map<string, QrCode>

    ghost predicate Valid()
      reads this
    {
      Stored(codes)
    }

    constructor ()
      ensures Valid() && codes == map[]
    {
      codes := map[];
    }

    /** findTopByOwnerIdOrderByCreatedAtDesc: the key of an owner's latest record, if any. */
    method FindLatest(owner: string) returns (k: Option<string>)
      ensures k.Some? ==> IsLatest(codes, owner, k.value)
      ensures k.None? ==> !HasCode(codes, owner)
    {
      var rest := codes.Keys;
      k := None;
      while rest != {}
        invariant rest <= codes.Keys
        invariant k.Some? ==> k.value in codes && codes[k.value].ownerId == owner
        invariant k.Some? ==> forall j :: j in codes && j !in rest && codes[j].ownerId == owner ==> codes[j].createdAt <= codes[k.value].createdAt
        invariant k.None? ==> forall j :: j in codes && j !in rest ==> codes[j].ownerId != owner
        decreases |rest|
      {
        var j :| j in rest;
        if codes[j].ownerId == owner && (k.None? || codes[k.value].createdAt < codes[j].createdAt) {
          k := Some(j);
        }
        rest := rest - {j};
      }
    }

    /** The owner's latest record, or null when the owner has none. */
    method GetLatestQrCode(auth: Option<Authentication>) returns (r: Result<Option<QrCode>>)
      ensures CurrentUserId(auth).Err? ==> r == Err(CurrentUserId(auth).error)
      ensures CurrentUserId(auth).Ok? ==> r.Ok?
      ensures r.Ok? ==> (r.value.None? <==> !HasCode(codes, CurrentUserId(auth).value))
      ensures r.Ok? && r.value.Some? ==> exists k :: IsLatest(codes, CurrentUserId(auth).value, k) && codes[k] == r.value.value
    {
      var current := CurrentUserId(auth);
      if current.Err? {
        r := Err(current.error);
        return;
      }
      var k := FindLatest(current.value);
      if k.None? {
        r := Ok(None);
      } else {
        r := Ok(Some(codes[k.value]));
      }
    }

    /** `newId` is the id the repository generates when it saves a new record. */
    method SaveQrCode(auth: Option<Authentication>, imageData: string, newId: string, now: int) returns (r: Result<QrCode>)
      requires Valid() && newId !in codes
      modifies this
      ensures Valid()
      ensures CurrentUserId(auth).Err? ==> r == Err(CurrentUserId(auth).error) && codes == old(codes)
      ensures CurrentUserId(auth).Ok? ==> r.Ok? && Saved(old(codes), codes, CurrentUserId(auth).value, imageData, newId, now, r.value)
      ensures CurrentUserId(auth).Ok? ==>
        codes.Keys == if HasCode(old(codes), CurrentUserId(auth).value) then old(codes).Keys else old(codes).Keys + {newId}
    {
      var current := CurrentUserId(auth);
      if current.Err? {
        r := Err(current.error);
        return;
      }
      var owner := current.value;
      var k := FindLatest(owner);
      var qrCode := if k.Some? then codes[k.value] else QrCode(None, "", "", 0);
      qrCode := qrCode.(ownerId := owner);
      qrCode := qrCode.(imageData := imageData);
      qrCode := qrCode.(createdAt := now);
      var key := if k.Some? then k.value else newId;
      qrCode := qrCode.(id := Some(key));
      codes := codes[key := qrCode];
      r := Ok(qrCode);
    }
  }
}
