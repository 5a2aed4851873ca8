/** One user's attachment storage: uploads that reserve, stream and publish, deletes, and the janitor, in
    any interleaving. Each action is one transaction under the user's lock. */
module BlobStore {
  import opened Common
  import opened Chunks

  type BlobId = nat
  type AttachmentId = nat
  type Digest = nat

  /** A row of blobs, with the bytes of its chunks. */
  datatype Blob = Blob(
    size: nat, complete: bool, digest: Digest, reserved: nat,
    uploadId: Option<AttachmentId>, created: Instant, content: Bytes)

  /** An attachment, and the bytes that were sent for it, which the system does not keep. */
  datatype Attachment = Attachment(blob: BlobId, created: Instant, sent: Bytes)

  /** A handler from its reservation on. It does not forget a publication, because it may see an error
      although the transaction committed, and then aborts. */
  datatype Upload = Upload(id: AttachmentId, declared: nat, began: Instant, body: Bytes, published: bool)

  datatype State = State(
    now: Instant, maxSize: nat, quota: nat, used: nat, reserved: nat, blobs: map<BlobId, Blob>,
    attachments: map<AttachmentId, Attachment>, linked: set<AttachmentId>, uploads: map<BlobId, Upload>)

  datatype Error = EmptyBody | TooLarge | UploadRunning | Quota | StorageFailure

  const UPLOAD_DEADLINE: Instant := 600
  const STALE_AGE: Instant := 3600

  // ---- what each transaction does -------------------------------------------------------------

  /** Subtraction that stops at zero, as the quota counters do. */
  function Release(a: nat, n: nat): nat { if a < n then 0 else a - n }

  datatype Reservation = Reserved(st: State) | Existing(a: Attachment) | Refused(error: Error)

  predicate InProgress(st: State, id: AttachmentId) {
    exists b :: b in st.blobs && !st.blobs[b].complete && st.blobs[b].uploadId == Some(id)
  }

  function Reserve(st: State, blob: BlobId, id: AttachmentId, declared: int, began: Instant): Reservation {
    if declared <= 0 then Refused(EmptyBody)
    else if declared > st.maxSize then Refused(TooLarge)
    else if id in st.attachments then Existing(st.attachments[id])
    else if InProgress(st, id) then Refused(UploadRunning)
    else if st.used + st.reserved + declared > st.quota then Refused(Quota)
    else Reserved(st.(
      reserved := st.reserved + declared,
      blobs := st.blobs[blob := Blob(declared, false, 0, declared, Some(id), st.now, [])],
      uploads := st.uploads[blob := Upload(id, declared, began, [], false)]))
  }

  predicate IsDuplicate(st: State, blob: BlobId, digest: Digest, size: nat, d: BlobId) {
    d in st.blobs && d != blob && st.blobs[d].complete && st.blobs[d].digest == digest && st.blobs[d].size == size
  }

  /** What the query for a duplicate may return. */
  predicate Finds(st: State, blob: BlobId, digest: Digest, size: nat, dup: Option<BlobId>) {
    if dup.Some? then IsDuplicate(st, blob, digest, size, dup.value)
    else forall d :: d in st.blobs ==> !IsDuplicate(st, blob, digest, size, d)
  }

  function CompleteBlob(blobs: map<BlobId, Blob>, blob: BlobId, size: nat, digest: Digest): map<BlobId, Blob> {
    if blob in blobs
    then blobs[blob := blobs[blob].(complete := true, size := size, digest := digest, reserved := 0, uploadId := None)]
    else blobs
  }

  /** None when a constraint fails, and the transaction rolls back. */
  function Publish(st: State, blob: BlobId, u: Upload, digest: Digest, dup: Option<BlobId>): Option<State> {
    var blobs := if dup.Some? then st.blobs - {blob} else CompleteBlob(st.blobs, blob, u.declared, digest);
    var target := if dup.Some? then dup.value else blob;
    if target !in blobs || u.id in st.attachments then None
    else Some(st.(
      blobs := blobs,
      reserved := Release(st.reserved, u.declared),
      used := st.used + if dup.Some? then 0 else u.declared,
      attachments := st.attachments[u.id := Attachment(target, st.now, u.body)]))
  }

  function Abort(st: State, blob: BlobId, declared: nat): State {
    if blob in st.blobs && !st.blobs[blob].complete
    then st.(blobs := st.blobs - {blob}, reserved := Release(st.reserved, declared))
    else st
  }

  predicate Shared(st: State, blob: BlobId) { exists a :: a in st.attachments && st.attachments[a].blob == blob }

  /** A linked attachment is kept by the note that uses it. */
  function Delete(st: State, id: AttachmentId): State {
    if id !in st.attachments || id in st.linked || st.attachments[id].blob !in st.blobs then st
    else
      var blob := st.attachments[id].blob;
      var st1 := st.(attachments := st.attachments - {id});
      if Shared(st1, blob) then st1
      else st1.(blobs := st.blobs - {blob}, used := Release(st.used, st.blobs[blob].size))
  }

  predicate Stale(st: State, b: BlobId) {
    b in st.blobs && !st.blobs[b].complete && st.blobs[b].created < st.now - STALE_AGE
  }

  predicate Unused(st: State, a: AttachmentId) {
    a in st.attachments && a !in st.linked && st.attachments[a].created < st.now - STALE_AGE
  }

  function DropBlob(st: State, b: BlobId): State {
    if b in st.blobs
    then st.(blobs := st.blobs - {b}, reserved := Release(st.reserved, st.blobs[b].reserved))
    else st
  }

  function DropBlobs(st: State, ids: seq<BlobId>): State
    decreases |ids|
  {
    if ids == [] then st else DropBlob(DropBlobs(st, ids[..|ids| - 1]), ids[|ids| - 1])
  }

  function DeleteAll(st: State, ids: seq<AttachmentId>): State
    decreases |ids|
  {
    if ids == [] then st else Delete(DeleteAll(st, ids[..|ids| - 1]), ids[|ids| - 1])
  }

  /** The janitor, with its rows in whatever order the queries give them. */
  function ReleaseStale(st: State, blobs: seq<BlobId>, unused: seq<AttachmentId>): State {
    DeleteAll(DropBlobs(st, blobs), unused)
  }

  // ---- runs -----------------------------------------------------------------------------------

  datatype Action =
    | Tick(now: Instant)
    | DoReserve(blob: BlobId, id: AttachmentId, size: int, began: Instant)
    | Stream(blob: BlobId, chunk: Bytes)
    | DoPublish(blob: BlobId, digest: Digest, dup: Option<BlobId>)
    | DoAbort(blob: BlobId)
    | Crash(blob: BlobId)
    | Link(id: AttachmentId)
    | Unlink(id: AttachmentId)
    | DoDelete(id: AttachmentId)
    | Janitor(stale: seq<BlobId>, unused: seq<AttachmentId>)

  predicate Distinct(s: seq<nat>) { forall i, j :: 0 <= i < j < |s| ==> s[i] != s[j] }

  /** Blob ids are new; an upload streams and publishes within its deadline, with the digest of what it
      sent; the janitor's queries return what is stale. */
  ghost predicate Enabled(st: State, a: Action, sha: Bytes -> Digest) {
    match a
    case Tick(now) => now >= st.now
    case DoReserve(blob, _, _, began) => blob !in st.blobs && blob !in st.uploads && began <= st.now
    case Stream(blob, _) => blob in st.uploads && !st.uploads[blob].published && blob in st.blobs
    case DoPublish(blob, digest, dup) =>
      && blob in st.uploads
      && var u := st.uploads[blob];
         !u.published && |u.body| == u.declared && digest == sha(u.body) && st.now <= u.began + UPLOAD_DEADLINE
         && Finds(st, blob, digest, u.declared, dup)
    case DoAbort(blob) => blob in st.uploads
    case Link(id) => id in st.attachments && id !in st.linked
    case Janitor(stale, unused) =>
      && Distinct(stale) && (forall b :: b in stale <==> Stale(st, b))
      && Distinct(unused) && (forall id :: id in unused <==> Unused(st, id))
    case _ => true
  }

  function Apply(st: State, a: Action): State {
    match a
    case Tick(now) => st.(now := now)
    case DoReserve(blob, id, size, began) =>
      var r := Reserve(st, blob, id, size, began);
      if r.Reserved? then r.st else st
    case Stream(blob, chunk) =>
      if blob in st.uploads && blob in st.blobs
      then st.(blobs := st.blobs[blob := st.blobs[blob].(content := st.blobs[blob].content + chunk)],
               uploads := st.uploads[blob := st.uploads[blob].(body := st.uploads[blob].body + chunk)])
      else st
    case DoPublish(blob, digest, dup) =>
      if blob !in st.uploads then st
      else
        var r := Publish(st, blob, st.uploads[blob], digest, dup);
        if r.Some? then r.value.(uploads := st.uploads[blob := st.uploads[blob].(published := true)]) else st
    case DoAbort(blob) =>
      if blob in st.uploads then Abort(st, blob, st.uploads[blob].declared).(uploads := st.uploads - {blob}) else st
    case Crash(blob) => st.(uploads := st.uploads - {blob})
    case Link(id) => st.(linked := st.linked + {id})
    case Unlink(id) => st.(linked := st.linked - {id})
    case DoDelete(id) => Delete(st, id)
    case Janitor(stale, unused) => ReleaseStale(st, stale, unused)
  }

  function Run(st: State, run: seq<Action>): State
    decreases |run|
  {
    if run == [] then st else Apply(Run(st, run[..|run| - 1]), run[|run| - 1])
  }

  ghost predicate Legal(st: State, run: seq<Action>, sha: Bytes -> Digest) {
    forall i :: 0 <= i < |run| ==> Enabled(Run(st, run[..i]), run[i], sha)
  }

  // ---- sums over blobs ------------------------------------------------------------------------

  function Held(b: Blob): nat { if b.complete then 0 else b.size }

  function Kept(b: Blob): nat { if b.complete then b.size else 0 }

  ghost function Sum(blobs: map<BlobId, Blob>, weight: Blob -> nat): nat
    decreases |blobs|
  {
    if blobs == map[] then 0
    else
      var b :| b in blobs;
      weight(blobs[b]) + Sum(blobs - {b}, weight)
  }

  lemma {:induction false} SumWithout(blobs: map<BlobId, Blob>, weight: Blob -> nat, id: BlobId)
    requires id in blobs
    ensures Sum(blobs, weight) == weight(blobs[id]) + Sum(blobs - {id}, weight)
    decreases |blobs|
  {
    var b :| b in blobs && Sum(blobs, weight) == weight(blobs[b]) + Sum(blobs - {b}, weight);
    if b != id {
      SumWithout(blobs - {b}, weight, id);
      SumWithout(blobs - {id}, weight, b);
      assert blobs - {b} - {id} == blobs - {id} - {b};
    }
  }

  lemma SumWith(blobs: map<BlobId, Blob>, weight: Blob -> nat, id: BlobId, b: Blob)
    ensures Sum(blobs[id := b], weight) == weight(b) + Sum(blobs - {id}, weight)
    ensures id !in blobs ==> blobs - {id} == blobs
  {
    SumWithout(blobs[id := b], weight, id);
    assert blobs[id := b] - {id} == blobs - {id};
  }

  // ---- the invariant --------------------------------------------------------------------------

  ghost predicate Balanced(st: State) {
    && st.reserved == Sum(st.blobs, Held)
    && st.used == Sum(st.blobs, Kept)
    && st.used + st.reserved <= st.quota
  }

  ghost predicate BlobValid(st: State, id: BlobId, sha: Bytes -> Digest)
    requires id in st.blobs
  {
    var b := st.blobs[id];
    && b.created <= st.now
    && (b.complete ==> b.size == |b.content| && b.digest == sha(b.content) && b.reserved == 0 && Shared(st, id))
    && (!b.complete ==> b.reserved == b.size && b.uploadId.Some? && b.uploadId.value !in st.attachments)
  }

  /** No two blobs hold the same content, and no two are for the same upload. */
  ghost predicate Apart(blobs: map<BlobId, Blob>) {
    forall x, y :: x in blobs && y in blobs && x != y && blobs[x].complete == blobs[y].complete ==>
      if blobs[x].complete then blobs[x].digest != blobs[y].digest || blobs[x].size != blobs[y].size
      else blobs[x].uploadId != blobs[y].uploadId
  }

  ghost predicate AttachmentValid(st: State, id: AttachmentId, sha: Bytes -> Digest)
    requires id in st.attachments
  {
    var a := st.attachments[id];
    && a.blob in st.blobs && st.blobs[a.blob].complete
    && |a.sent| == st.blobs[a.blob].size && sha(a.sent) == st.blobs[a.blob].digest
  }

  /** An upload within its deadline still has its blob, with what it has sent so far. */
  ghost predicate UploadValid(st: State, blob: BlobId)
    requires blob in st.uploads
  {
    var u := st.uploads[blob];
    && 0 < u.declared <= st.maxSize
    && (st.now <= u.began + UPLOAD_DEADLINE && !u.published ==> blob in st.blobs)
    && (blob in st.blobs && u.published ==> st.blobs[blob].complete)
    && (blob in st.blobs && !u.published ==>
         var b := st.blobs[blob];
         !b.complete && b.size == u.declared && b.uploadId == Some(u.id) && b.content == u.body && u.began <= b.created)
  }

  ghost predicate Inv(st: State, sha: Bytes -> Digest) {
    && Balanced(st)
    && (forall b :: b in st.blobs ==> BlobValid(st, b, sha))
    && Apart(st.blobs)
    && (forall a :: a in st.attachments ==> AttachmentValid(st, a, sha))
    && st.linked <= st.attachments.Keys
    && (forall b :: b in st.uploads ==> UploadValid(st, b))
  }

  /** An account with nothing stored. */
  function Empty(now: Instant, maxSize: nat, quota: nat): State {
    State(now, maxSize, quota, 0, 0, map[], map[], {}, map[])
  }

  lemma EmptyIsValid(now: Instant, maxSize: nat, quota: nat, sha: Bytes -> Digest)
    ensures Inv(Empty(now, maxSize, quota), sha)
  {
  }

  // ---- each step keeps it ---------------------------------------------------------------------

  lemma SetBalance(blobs: map<BlobId, Blob>, id: BlobId, b: Blob)
    ensures id !in blobs ==> Sum(blobs[id := b], Held) == Held(b) + Sum(blobs, Held)
    ensures id !in blobs ==> Sum(blobs[id := b], Kept) == Kept(b) + Sum(blobs, Kept)
    ensures id in blobs ==> Sum(blobs[id := b], Held) == Held(b) + Sum(blobs, Held) - Held(blobs[id])
    ensures id in blobs ==> Sum(blobs[id := b], Kept) == Kept(b) + Sum(blobs, Kept) - Kept(blobs[id])
  {
    SumWith(blobs, Held, id, b);
    SumWith(blobs, Kept, id, b);
    if id in blobs {
      SumWithout(blobs, Held, id);
      SumWithout(blobs, Kept, id);
    }
  }

  /** A reservation that is granted. */
  lemma ReservedKeepsInv(st: State, st1: State, blob: BlobId, id: AttachmentId, size: nat, began: Instant,
      sha: Bytes -> Digest)
    requires Inv(st, sha) && blob !in st.blobs && blob !in st.uploads && began <= st.now
    requires id !in st.attachments && !InProgress(st, id) && st.used + st.reserved + size <= st.quota
    requires 0 < size <= st.maxSize
    requires st1 == st.(
      reserved := st.reserved + size,
      blobs := st.blobs[blob := Blob(size, false, 0, size, Some(id), st.now, [])],
      uploads := st.uploads[blob := Upload(id, size, began, [], false)])
    ensures Inv(st1, sha)
  {
    SetBalance(st.blobs, blob, st1.blobs[blob]);
    forall b | b in st1.blobs ensures BlobValid(st1, b, sha) {
      if b != blob { assert BlobValid(st, b, sha); }
    }
    forall b | b in st1.uploads ensures UploadValid(st1, b) {
      if b != blob { assert UploadValid(st, b); }
    }
    forall a | a in st1.attachments ensures AttachmentValid(st1, a, sha) { assert AttachmentValid(st, a, sha); }
  }

  lemma ReserveKeepsInv(st: State, a: Action, sha: Bytes -> Digest)
    requires Inv(st, sha) && a.DoReserve? && Enabled(st, a, sha)
    ensures Inv(Apply(st, a), sha)
  {
    if Apply(st, a) != st { ReservedKeepsInv(st, Apply(st, a), a.blob, a.id, a.size, a.began, sha); }
  }

  /** Rows and handlers that differ only in the bytes of an upload that is running. */
  predicate Streamed(st: State, st1: State, blob: BlobId, content: Bytes) {
    && blob in st.blobs && !st.blobs[blob].complete && blob in st.uploads && !st.uploads[blob].published
    && st1 == st.(blobs := st.blobs[blob := st.blobs[blob].(content := content)],
                  uploads := st.uploads[blob := st.uploads[blob].(body := content)])
  }

  lemma StreamedRows(st: State, st1: State, blob: BlobId, content: Bytes, sha: Bytes -> Digest)
    requires Inv(st, sha) && Streamed(st, st1, blob, content)
    ensures forall b :: b in st1.blobs ==> BlobValid(st1, b, sha)
    ensures forall id :: id in st1.attachments ==> AttachmentValid(st1, id, sha)
  {
    forall b | b in st1.blobs ensures BlobValid(st1, b, sha) { assert BlobValid(st, b, sha); }
    forall id | id in st1.attachments ensures AttachmentValid(st1, id, sha) { assert AttachmentValid(st, id, sha); }
  }

  lemma StreamedUploads(st: State, st1: State, blob: BlobId, content: Bytes)
    requires Streamed(st, st1, blob, content) && Apart(st.blobs) && forall b :: b in st.uploads ==> UploadValid(st, b)
    ensures Apart(st1.blobs) && forall b :: b in st1.uploads ==> UploadValid(st1, b)
  {
    forall b | b in st1.uploads ensures UploadValid(st1, b) { assert UploadValid(st, b); }
  }

  lemma StreamedBalance(st: State, st1: State, blob: BlobId, content: Bytes)
    requires Streamed(st, st1, blob, content) && Balanced(st)
    ensures Balanced(st1)
  {
    SetBalance(st.blobs, blob, st1.blobs[blob]);
  }

  lemma StreamKeepsInv(st: State, a: Action, sha: Bytes -> Digest)
    requires Inv(st, sha) && a.Stream? && Enabled(st, a, sha)
    ensures Inv(Apply(st, a), sha)
  {
    assert UploadValid(st, a.blob);
    var st1, content := Apply(st, a), st.blobs[a.blob].content + a.chunk;
    StreamedRows(st, st1, a.blob, content, sha);
    StreamedUploads(st, st1, a.blob, content);
    StreamedBalance(st, st1, a.blob, content);
  }

  /** An incomplete blob goes, and its reservation with it. */
  lemma DroppedKeepsInv(st: State, b: BlobId, st1: State, sha: Bytes -> Digest)
    requires Inv(st, sha) && b in st.blobs && !st.blobs[b].complete
    requires st1 == st.(
      blobs := st.blobs - {b}, reserved := Release(st.reserved, st.blobs[b].size), uploads := st1.uploads)
    requires forall k :: k in st1.uploads ==> k in st.uploads && st1.uploads[k] == st.uploads[k]
    requires b in st1.uploads ==> st.uploads[b].published || st.now > st.uploads[b].began + UPLOAD_DEADLINE
    ensures Inv(st1, sha)
  {
    SumWithout(st.blobs, Held, b);
    SumWithout(st.blobs, Kept, b);
    forall k | k in st1.blobs ensures BlobValid(st1, k, sha) { assert BlobValid(st, k, sha); }
    forall k | k in st1.uploads ensures UploadValid(st1, k) { assert UploadValid(st, k); }
    forall id | id in st1.attachments ensures AttachmentValid(st1, id, sha) { assert AttachmentValid(st, id, sha); }
  }

  lemma PublishBalance(st: State, blob: BlobId, digest: Digest, dup: Option<BlobId>, st1: State)
    requires Balanced(st) && blob in st.blobs && !st.blobs[blob].complete
    requires st1.quota == st.quota && st1.reserved == Release(st.reserved, st.blobs[blob].size)
    requires st1.used == st.used + if dup.Some? then 0 else st.blobs[blob].size
    requires st1.blobs ==
      if dup.Some? then st.blobs - {blob} else CompleteBlob(st.blobs, blob, st.blobs[blob].size, digest)
    ensures Balanced(st1)
  {
    SumWithout(st.blobs, Held, blob);
    SumWithout(st.blobs, Kept, blob);
    if dup.None? { SetBalance(st.blobs, blob, st1.blobs[blob]); }
  }

  /** Within its deadline, a publication finds its blob and no constraint fails. */
  lemma PublishSucceeds(st: State, a: Action, sha: Bytes -> Digest)
    requires Inv(st, sha) && a.DoPublish? && Enabled(st, a, sha)
    ensures Publish(st, a.blob, st.uploads[a.blob], a.digest, a.dup).Some?
    ensures a.blob in st.blobs && !st.blobs[a.blob].complete && st.blobs[a.blob].size == st.uploads[a.blob].declared
  {
    assert UploadValid(st, a.blob) && BlobValid(st, a.blob, sha);
  }

  lemma PublishKeepsInv(st: State, a: Action, sha: Bytes -> Digest)
    requires Inv(st, sha) && a.DoPublish? && Enabled(st, a, sha)
    ensures Inv(Apply(st, a), sha)
  {
    PublishSucceeds(st, a, sha);
    var st1 := Apply(st, a);
    var u := st.uploads[a.blob];
    PublishBalance(st, a.blob, a.digest, a.dup, st1);
    assert UploadValid(st, a.blob) && BlobValid(st, a.blob, sha);
    assert st1.attachments[u.id].blob in st1.blobs;
    forall k | k in st1.blobs ensures BlobValid(st1, k, sha) {
      assert BlobValid(st, k, sha);
      KeptShared(st, st1, k, u.id);
    }
    forall k | k in st1.uploads ensures UploadValid(st1, k) { assert UploadValid(st, k); }
    assert |u.body| == st.blobs[a.blob].size;
    forall id | id in st1.attachments ensures AttachmentValid(st1, id, sha) {
      if id != u.id { assert AttachmentValid(st, id, sha); }
    }
  }

  lemma KeptShared(st: State, st1: State, b: BlobId, id: AttachmentId)
    requires id !in st.attachments && id in st1.attachments
    requires st1.attachments == st.attachments[id := st1.attachments[id]]
    ensures Shared(st, b) || st1.attachments[id].blob == b ==> Shared(st1, b)
  {
    if Shared(st, b) {
      var a :| a in st.attachments && st.attachments[a].blob == b;
      assert st1.attachments[a].blob == b;
    }
  }

  lemma DeleteKeepsInv(st: State, id: AttachmentId, sha: Bytes -> Digest)
    requires Inv(st, sha)
    ensures Inv(Delete(st, id), sha)
  {
    var st1 := Delete(st, id);
    if st1 != st {
      assert AttachmentValid(st, id, sha);
      DeleteBalance(st, id);
      DeleteKeepsRows(st, st1, id, sha);
    }
  }

  /** The attachment is gone, and its blob unless another attachment shares it. */
  lemma DeleteKeepsRows(st: State, st1: State, id: AttachmentId, sha: Bytes -> Digest)
    requires Inv(st, sha) && id in st.attachments && id !in st.linked && st1.now == st.now
    requires st1.attachments == st.attachments - {id} && st1.uploads == st.uploads && st1.linked == st.linked
    requires var b := st.attachments[id].blob; st1.blobs == if Shared(st1, b) then st.blobs else st.blobs - {b}
    requires Balanced(st1) && st1.maxSize == st.maxSize
    ensures Inv(st1, sha)
  {
    assert AttachmentValid(st, id, sha);
    forall k | k in st1.blobs ensures BlobValid(st1, k, sha) {
      assert BlobValid(st, k, sha);
      if st.blobs[k].complete { StillShared(st, st1, k, id); }
    }
    forall k | k in st1.uploads ensures UploadValid(st1, k) { UploadStays(st, st1, k, st.attachments[id].blob); }
    forall a | a in st1.attachments ensures AttachmentValid(st1, a, sha) {
      assert AttachmentValid(st, a, sha) && a in st.attachments;
    }
  }

  /** An upload does not depend on a complete blob that goes. */
  lemma UploadStays(st: State, st1: State, k: BlobId, gone: BlobId)
    requires k in st.uploads && UploadValid(st, k) && gone in st.blobs && st.blobs[gone].complete
    requires st1.uploads == st.uploads && st1.now == st.now && st1.maxSize == st.maxSize
    requires st1.blobs == st.blobs || st1.blobs == st.blobs - {gone}
    ensures UploadValid(st1, k)
  {
  }

  lemma DeleteBalance(st: State, id: AttachmentId)
    requires Balanced(st) && id in st.attachments && st.attachments[id].blob in st.blobs
    requires st.blobs[st.attachments[id].blob].complete
    ensures Balanced(Delete(st, id))
  {
    SumWithout(st.blobs, Held, st.attachments[id].blob);
    SumWithout(st.blobs, Kept, st.attachments[id].blob);
  }

  lemma StillShared(st: State, st1: State, b: BlobId, id: AttachmentId)
    requires id in st.attachments && st1.attachments == st.attachments - {id} && Shared(st, b)
    ensures st.attachments[id].blob != b ==> Shared(st1, b)
  {
    var a :| a in st.attachments && st.attachments[a].blob == b;
    assert a != id ==> a in st1.attachments;
  }

  /** The deadline is what keeps the janitor away from an upload that can still publish. */
  lemma DropKeepsInv(st: State, b: BlobId, sha: Bytes -> Digest)
    requires Inv(st, sha) && Stale(st, b)
    ensures Inv(DropBlob(st, b), sha)
  {
    assert BlobValid(st, b, sha) && (b in st.uploads ==> UploadValid(st, b));
    DroppedKeepsInv(st, b, DropBlob(st, b), sha);
  }

  lemma {:induction false} DropsKeepInv(st: State, ids: seq<BlobId>, sha: Bytes -> Digest)
    requires Inv(st, sha) && Distinct(ids) && forall b :: b in ids ==> Stale(st, b)
    ensures Inv(DropBlobs(st, ids), sha)
    decreases |ids|
  {
    if ids != [] {
      var n := |ids| - 1;
      DropsKeepInv(st, ids[..n], sha);
      DropsOnlyBlobs(st, ids[..n]);
      assert ids[n] !in ids[..n] && Stale(st, ids[n]);
      DropKeepsInv(DropBlobs(st, ids[..n]), ids[n], sha);
    }
  }

  lemma {:induction false} DropsOnlyBlobs(st: State, ids: seq<BlobId>)
    ensures OnlyBlobsGone(st, DropBlobs(st, ids), set b | b in ids)
    decreases |ids|
  {
    if ids != [] { DropsOnlyBlobs(st, ids[..|ids| - 1]); }
  }

  predicate OnlyBlobsGone(st: State, st1: State, gone: set<BlobId>) {
    st1 == st.(blobs := st.blobs - gone, reserved := st1.reserved)
  }

  lemma {:induction false} DeletesKeepInv(st: State, ids: seq<AttachmentId>, sha: Bytes -> Digest)
    requires Inv(st, sha)
    ensures Inv(DeleteAll(st, ids), sha)
    decreases |ids|
  {
    if ids != [] {
      DeletesKeepInv(st, ids[..|ids| - 1], sha);
      DeleteKeepsInv(DeleteAll(st, ids[..|ids| - 1]), ids[|ids| - 1], sha);
    }
  }

  lemma QuietStepKeepsInv(st: State, a: Action, sha: Bytes -> Digest)
    requires Inv(st, sha) && Enabled(st, a, sha) && (a.Tick? || a.Crash? || a.Link? || a.Unlink?)
    ensures Inv(Apply(st, a), sha)
  {
    var st1 := Apply(st, a);
    forall k | k in st1.blobs ensures BlobValid(st1, k, sha) { assert BlobValid(st, k, sha); }
    forall k | k in st1.uploads ensures UploadValid(st1, k) { assert UploadValid(st, k); }
    forall id | id in st1.attachments ensures AttachmentValid(st1, id, sha) { assert AttachmentValid(st, id, sha); }
  }

  lemma AbortKeepsInv(st: State, a: Action, sha: Bytes -> Digest)
    requires Inv(st, sha) && a.DoAbort? && Enabled(st, a, sha)
    ensures Inv(Apply(st, a), sha)
  {
    assert UploadValid(st, a.blob);
    if a.blob in st.blobs && !st.blobs[a.blob].complete {
      DroppedKeepsInv(st, a.blob, Apply(st, a), sha);
    } else {
      QuietStepKeepsInv(st, Crash(a.blob), sha);
    }
  }

  lemma StepKeepsInv(st: State, a: Action, sha: Bytes -> Digest)
    requires Inv(st, sha) && Enabled(st, a, sha)
    ensures Inv(Apply(st, a), sha)
  {
    match a
    case DoReserve(_, _, _, _) => ReserveKeepsInv(st, a, sha);
    case Stream(_, _) => StreamKeepsInv(st, a, sha);
    case DoPublish(_, _, _) => PublishKeepsInv(st, a, sha);
    case DoAbort(_) => AbortKeepsInv(st, a, sha);
    case DoDelete(id) => DeleteKeepsInv(st, id, sha);
    case Janitor(stale, unused) =>
      DropsKeepInv(st, stale, sha);
      DeletesKeepInv(DropBlobs(st, stale), unused, sha);
    case _ => QuietStepKeepsInv(st, a, sha);
  }

  /** Over every interleaving: reserved is what incomplete uploads declared, used is what complete blobs
      take, together they fit the quota, content is stored once, and every attachment has its blob. */
  lemma {:induction false} RunKeepsInv(st: State, run: seq<Action>, sha: Bytes -> Digest)
    requires Inv(st, sha) && Legal(st, run, sha)
    ensures Inv(Run(st, run), sha)
    decreases |run|
  {
    if run != [] {
      var before := run[..|run| - 1];
      forall i | 0 <= i < |before| ensures Enabled(Run(st, before[..i]), before[i], sha) {
        assert before[..i] == run[..i];
      }
      RunKeepsInv(st, before, sha);
      assert run[..|run| - 1] == before;
      StepKeepsInv(Run(st, before), run[|run| - 1], sha);
    }
  }
}
