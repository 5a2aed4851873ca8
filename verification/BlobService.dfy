/** The storage service: each transaction rewrites the quota counters, blob rows and attachment rows one
    statement after the other. */
module BlobService {
  import opened Common
  import opened Chunks
  import opened BlobStore

  class Storage {
    var now: Instant
    var maxSize: nat
    var quota: nat
    var used: nat
    var reserved: nat
    var blobs: map<BlobId, Blob>
    var attachments: map<AttachmentId, Attachment>
    var linked: set<AttachmentId>
    var uploads: map<BlobId, Upload>

    ghost function Tables(): State
      reads this
    {
      State(now, maxSize, quota, used, reserved, blobs, attachments, linked, uploads)
    }

    /** The first transaction of an upload. */
    method BeginUpload(blob: BlobId, id: AttachmentId, declared: int, began: Instant)
      returns (error: Option<Error>, existing: Option<Attachment>)
      modifies this`reserved, this`blobs, this`uploads
      ensures match Reserve(old(Tables()), blob, id, declared, began)
              case Reserved(st) => error.None? && existing.None? && Tables() == st
              case Existing(a) => error.None? && existing == Some(a) && Tables() == old(Tables())
              case Refused(e) => error == Some(e) && existing.None? && Tables() == old(Tables())
    {
      error, existing := None, None;
      if declared <= 0 { return Some(EmptyBody), None; }
      if declared > maxSize { return Some(TooLarge), None; }
      if id in attachments { return None, Some(attachments[id]); }
      if exists b :: b in blobs && !blobs[b].complete && blobs[b].uploadId == Some(id) {
        assert InProgress(Tables(), id);
        return Some(UploadRunning), None;
      }
      assert !InProgress(Tables(), id);
      if used + reserved + declared > quota { return Some(Quota), None; }
      reserved := reserved + declared;
      blobs := blobs[blob := Blob(declared, false, 0, declared, Some(id), now, [])];
      uploads := uploads[blob := Upload(id, declared, began, [], false)];
    }

    /** The complete blob with the same content, if there is one. */
    method FindDuplicateBlob(blob: BlobId, digest: Digest, size: nat) returns (dup: Option<BlobId>)
      ensures Finds(Tables(), blob, digest, size, dup)
    {
      var left := blobs.Keys;
      while left != {}
        invariant left <= blobs.Keys
        invariant forall d :: d in blobs && d !in left ==> !IsDuplicate(Tables(), blob, digest, size, d)
        decreases |left|
      {
        var d :| d in left;
        if d != blob && blobs[d].complete && blobs[d].digest == digest && blobs[d].size == size { return Some(d); }
        left := left - {d};
      }
      return None;
    }

    /** The last transaction of an upload; a constraint that fails rolls it back. */
    method PublishUpload(blob: BlobId, digest: Digest) returns (dup: Option<BlobId>)
      requires blob in uploads
      modifies this
      ensures Finds(old(Tables()), blob, digest, old(uploads[blob]).declared, dup)
      ensures Tables() == Apply(old(Tables()), DoPublish(blob, digest, dup))
    {
      var u := uploads[blob];
      dup := FindDuplicateBlob(blob, digest, u.declared);
      var saved, target, stored := blobs, blob, u.declared;
      if dup.Some? {
        blobs := blobs - {blob};
        target, stored := dup.value, 0;
      } else if blob in blobs {
        blobs := blobs[blob :=
            blobs[blob].(complete := true, size := u.declared, digest := digest, reserved := 0, uploadId := None)];
      }
      if target !in blobs || u.id in attachments {
        blobs := saved;
        return;
      }
      reserved, used := if reserved < u.declared then 0 else reserved - u.declared, used + stored;
      attachments := attachments[u.id := Attachment(target, now, u.body)];
      uploads := uploads[blob := u.(published := true)];
    }

    method AbortUpload(blob: BlobId)
      requires blob in uploads
      modifies this`reserved, this`blobs, this`uploads
      ensures Tables() == Apply(old(Tables()), DoAbort(blob))
    {
      var declared := uploads[blob].declared;
      if blob in blobs && !blobs[blob].complete {
        blobs := blobs - {blob};
        reserved := if reserved < declared then 0 else reserved - declared;
      }
      uploads := uploads - {blob};
    }

    method DeleteAttachment(id: AttachmentId)
      modifies this`used, this`blobs, this`attachments
      ensures Tables() == Delete(old(Tables()), id)
    {
      if id !in attachments || id in linked || attachments[id].blob !in blobs { return; }
      var blob := attachments[id].blob;
      var size := blobs[blob].size;
      attachments := attachments - {id};
      if exists a :: a in attachments && attachments[a].blob == blob {
        assert Shared(Tables(), blob);
        return;
      }
      assert !Shared(Tables(), blob);
      blobs := blobs - {blob};
      used := if used < size then 0 else used - size;
    }

    /** Uploads that never finished go first, then attachments no note uses. */
    method ReleaseStaleRows() returns (stale: seq<BlobId>, unused: seq<AttachmentId>)
      modifies this`used, this`reserved, this`blobs, this`attachments
      ensures Distinct(stale) && forall b :: b in stale <==> Stale(old(Tables()), b)
      ensures Distinct(unused) && forall id :: id in unused <==> Unused(old(Tables()), id)
      ensures Tables() == ReleaseStale(old(Tables()), stale, unused)
    {
      stale := Listed(set b | b in blobs && !blobs[b].complete && blobs[b].created < now - STALE_AGE);
      ghost var before := Tables();
      for i := 0 to |stale|
        invariant Tables() == DropBlobs(before, stale[..i])
        invariant attachments == before.attachments && linked == before.linked
      {
        assert stale[..i + 1][..i] == stale[..i];
        if stale[i] in blobs {
          var n := blobs[stale[i]].reserved;
          blobs := blobs - {stale[i]};
          reserved := if reserved < n then 0 else reserved - n;
        }
      }
      assert stale[..|stale|] == stale;
      unused := Listed(set id | id in attachments && id !in linked && attachments[id].created < now - STALE_AGE);
      ghost var dropped := Tables();
      for i := 0 to |unused|
        invariant Tables() == DeleteAll(dropped, unused[..i])
      {
        assert unused[..i + 1][..i] == unused[..i];
        DeleteAttachment(unused[i]);
      }
      assert unused[..|unused|] == unused;
    }
  }

  /** The members of a set in some order, as a query returns its rows. */
  method Listed(s: set<nat>) returns (list: seq<nat>)
    ensures Distinct(list) && forall x :: x in list <==> x in s
  {
    list := [];
    var left := s;
    while left != {}
      invariant left <= s && Distinct(list) && forall x :: x in list <==> x in s && x !in left
      decreases |left|
    {
      var x :| x in left;
      list, left := list + [x], left - {x};
    }
  }
}
