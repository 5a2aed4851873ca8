/** What the storage invariant gives: files stay intact, space comes back, and why the deadline matters. */
module BlobRuns {
  import opened Common
  import opened Chunks
  import opened BlobStore

  /** Two different contents of one length with one digest. */
  predicate Collide(x: Bytes, y: Bytes, sha: Bytes -> Digest) { x != y && |x| == |y| && sha(x) == sha(y) }

  /** Content shared between uploads is still what each of them sent, or it and what was sent collide. */
  lemma StoredIsWhatWasSent(st: State, run: seq<Action>, id: AttachmentId, sha: Bytes -> Digest)
    requires Inv(st, sha) && Legal(st, run, sha) && id in Run(st, run).attachments
    ensures var end := Run(st, run);
      && end.attachments[id].blob in end.blobs
      && var content, sent := end.blobs[end.attachments[id].blob].content, end.attachments[id].sent;
         content == sent || Collide(content, sent, sha)
  {
    RunKeepsInv(st, run, sha);
    var end := Run(st, run);
    assert AttachmentValid(end, id, sha) && BlobValid(end, end.attachments[id].blob, sha);
  }

  /** An attachment a note uses keeps its row and its file through every step that does not unlink it. */
  predicate KeepsFile(st: State, st1: State, id: AttachmentId) {
    && id in st1.linked && id in st.attachments && id in st1.attachments && st1.attachments[id] == st.attachments[id]
    && st.attachments[id].blob in st.blobs && st.attachments[id].blob in st1.blobs
    && st1.blobs[st.attachments[id].blob] == st.blobs[st.attachments[id].blob]
  }

  lemma DeleteKeepsLinked(st: State, other: AttachmentId, id: AttachmentId, sha: Bytes -> Digest)
    requires Inv(st, sha) && id in st.linked
    ensures KeepsFile(st, Delete(st, other), id)
  {
    assert AttachmentValid(st, id, sha);
    if other in st.attachments && other !in st.linked {
      assert id in st.attachments - {other};
    }
  }

  lemma {:induction false} DeletesKeepLinked(st: State, ids: seq<AttachmentId>, id: AttachmentId, sha: Bytes -> Digest)
    requires Inv(st, sha) && id in st.linked
    ensures KeepsFile(st, DeleteAll(st, ids), id)
    decreases |ids|
  {
    if ids == [] {
      assert AttachmentValid(st, id, sha);
    } else {
      DeletesKeepLinked(st, ids[..|ids| - 1], id, sha);
      DeletesKeepInv(st, ids[..|ids| - 1], sha);
      DeleteKeepsLinked(DeleteAll(st, ids[..|ids| - 1]), ids[|ids| - 1], id, sha);
    }
  }

  lemma JanitorKeepsLinked(st: State, a: Action, id: AttachmentId, sha: Bytes -> Digest)
    requires Inv(st, sha) && id in st.linked && a.Janitor? && Enabled(st, a, sha)
    ensures KeepsFile(st, Apply(st, a), id)
  {
    DropsKeepInv(st, a.stale, sha);
    DropsOnlyBlobs(st, a.stale);
    var mid := DropBlobs(st, a.stale);
    assert AttachmentValid(st, id, sha);
    DeletesKeepLinked(mid, a.unused, id, sha);
    assert st.attachments[id].blob !in a.stale;
  }

  lemma StepKeepsLinked(st: State, a: Action, id: AttachmentId, sha: Bytes -> Digest)
    requires Inv(st, sha) && id in st.linked && Enabled(st, a, sha) && a != Unlink(id)
    ensures KeepsFile(st, Apply(st, a), id)
  {
    assert AttachmentValid(st, id, sha);
    match a
    case DoDelete(other) => DeleteKeepsLinked(st, other, id, sha);
    case Janitor(_, _) => JanitorKeepsLinked(st, a, id, sha);
    case DoPublish(blob, _, _) => PublishSucceeds(st, a, sha);
    case Stream(blob, _) => assert UploadValid(st, blob);
    case _ =>
  }

  lemma {:induction false} LinkedFilesStay(st: State, run: seq<Action>, id: AttachmentId, sha: Bytes -> Digest)
    requires Inv(st, sha) && Legal(st, run, sha) && id in st.linked && Unlink(id) !in run
    ensures KeepsFile(st, Run(st, run), id)
    decreases |run|
  {
    if run == [] {
      assert AttachmentValid(st, id, sha);
    } else {
      var before := run[..|run| - 1];
      forall i | 0 <= i < |before| ensures Enabled(Run(st, before[..i]), before[i], sha) {
        assert before[..i] == run[..i];
      }
      RunKeepsInv(st, before, sha);
      LinkedFilesStay(st, before, id, sha);
      StepKeepsLinked(Run(st, before), run[|run| - 1], id, sha);
    }
  }

  // ---- space comes back -----------------------------------------------------------------------

  /** What an upload that nothing interrupts adds. */
  predicate Uploaded(st: State, st1: State, blob: BlobId, id: AttachmentId, size: nat, dup: Option<BlobId>) {
    && st1.reserved == st.reserved && st1.linked == st.linked
    && id !in st.attachments && id in st1.attachments && st1.attachments == st.attachments[id := st1.attachments[id]]
    && blob !in st.blobs
    && if dup.Some? then st1.used == st.used && st1.blobs == st.blobs && st1.attachments[id].blob == dup.value
       else
         && st1.used == st.used + size && st1.attachments[id].blob == blob
         && blob in st1.blobs && st1.blobs == st.blobs[blob := st1.blobs[blob]] && st1.blobs[blob].size == size
  }

  lemma UploadAdds(st: State, blob: BlobId, id: AttachmentId, body: Bytes, dup: Option<BlobId>, digest: Digest)
    returns (st3: State)
    requires blob !in st.blobs && blob !in st.uploads && Reserve(st, blob, id, |body|, st.now).Reserved?
    requires Finds(st, blob, digest, |body|, dup)
    ensures st3 == Apply(Apply(Apply(st, DoReserve(blob, id, |body|, st.now)), Stream(blob, body)),
        DoPublish(blob, digest, dup))
    ensures Uploaded(st, st3, blob, id, |body|, dup)
  {
    var st1 := Apply(st, DoReserve(blob, id, |body|, st.now));
    var st2 := Apply(st1, Stream(blob, body));
    assert st2.blobs - {blob} == st.blobs;
    assert st2.blobs[blob].size == |body| && st2.reserved == st.reserved + |body|;
    st3 := Apply(st2, DoPublish(blob, digest, dup));
  }

  lemma DeleteUndoes(st: State, st1: State, blob: BlobId, id: AttachmentId, size: nat, dup: Option<BlobId>,
      sha: Bytes -> Digest)
    requires Inv(st, sha) && Uploaded(st, st1, blob, id, size, dup) && id !in st.linked
    requires dup.Some? ==> dup.value in st.blobs && st.blobs[dup.value].complete
    ensures var end := Delete(st1, id);
      end.used == st.used && end.reserved == st.reserved && end.blobs == st.blobs && end.attachments == st.attachments
  {
    assert st1.attachments - {id} == st.attachments;
    if dup.Some? {
      assert BlobValid(st, dup.value, sha);
    } else {
      NotShared(st, blob, sha);
      assert st1.blobs - {blob} == st.blobs;
    }
  }

  /** Uploading a file and deleting it again leaves the counters and the rows as they were. */
  lemma UploadThenDelete(st: State, blob: BlobId, id: AttachmentId, body: Bytes, dup: Option<BlobId>,
      sha: Bytes -> Digest)
    requires Inv(st, sha) && blob !in st.blobs && blob !in st.uploads && id !in st.linked
    requires Reserve(st, blob, id, |body|, st.now).Reserved?
    requires Finds(st, blob, sha(body), |body|, dup)
    ensures var sent := Apply(Apply(Apply(st, DoReserve(blob, id, |body|, st.now)), Stream(blob, body)),
        DoPublish(blob, sha(body), dup));
      var end := Apply(sent, DoDelete(id));
      && end.used == st.used && end.reserved == st.reserved
      && end.blobs == st.blobs && end.attachments == st.attachments
  {
    var sent := UploadAdds(st, blob, id, body, dup, sha(body));
    DeleteUndoes(st, sent, blob, id, |body|, dup, sha);
  }

  lemma NotShared(st: State, blob: BlobId, sha: Bytes -> Digest)
    requires Inv(st, sha) && blob !in st.blobs
    ensures !Shared(st, blob)
  {
    forall a | a in st.attachments ensures st.attachments[a].blob != blob { assert AttachmentValid(st, a, sha); }
  }

  // ---- reservations ---------------------------------------------------------------------------

  /** An upload of this size for this id may begin: nothing is stored or running for the id, and what is
      stored, what running uploads may still take, and it fit the quota together. */
  ghost predicate MayBegin(st: State, id: AttachmentId, declared: int) {
    && 0 < declared <= st.maxSize && id !in st.attachments
    && (forall b :: b in st.blobs && !st.blobs[b].complete ==> st.blobs[b].uploadId != Some(id))
    && Sum(st.blobs, Kept) + Sum(st.blobs, Held) + declared <= st.quota
  }

  /** A reservation is granted exactly if the upload may begin, and then takes just the declared bytes; an id
      that is stored already is answered with what it has. */
  lemma GrantedExactly(st: State, blob: BlobId, id: AttachmentId, declared: int, began: Instant, sha: Bytes -> Digest)
    requires Inv(st, sha) && blob !in st.blobs && blob !in st.uploads
    ensures var r := Reserve(st, blob, id, declared, began);
      && (r.Reserved? <==> MayBegin(st, id, declared))
      && (r.Existing? <==> 0 < declared <= st.maxSize && id in st.attachments)
      && (r.Existing? ==> r.a == st.attachments[id])
      && (r.Reserved? ==>
            && r.st.reserved == st.reserved + declared && r.st.used == st.used && r.st.attachments == st.attachments
            && r.st.uploads == st.uploads[blob := Upload(id, declared, began, [], false)]
            && r.st.blobs.Keys == st.blobs.Keys + {blob} && InProgress(r.st, id)
            && forall b :: b in st.blobs ==> r.st.blobs[b] == st.blobs[b])
  {
    var r := Reserve(st, blob, id, declared, began);
    if r.Reserved? { assert blob in r.st.blobs && r.st.blobs[blob].uploadId == Some(id); }
  }

  /** Whatever runs besides: an abort before the publication gives back just what the upload had reserved, and
      the same upload may begin again at once; one that comes after it leaves rows and counters alone. */
  lemma AbortGivesBack(st: State, blob: BlobId, sha: Bytes -> Digest)
    requires Inv(st, sha) && blob in st.uploads
    ensures var u, st1 := st.uploads[blob], Apply(st, DoAbort(blob));
      && st1.used == st.used && st1.attachments == st.attachments && st1.linked == st.linked
      && st1.uploads == st.uploads - {blob}
      && (u.published || blob !in st.blobs ==> st1.blobs == st.blobs && st1.reserved == st.reserved)
      && (!u.published && blob in st.blobs ==>
            && st1.blobs == st.blobs - {blob} && st1.reserved == st.reserved - u.declared
            && MayBegin(st1, u.id, u.declared))
  {
    assert UploadValid(st, blob);
    var u, st1 := st.uploads[blob], Apply(st, DoAbort(blob));
    if !u.published && blob in st.blobs {
      assert BlobValid(st, blob, sha);
      SumWithout(st.blobs, Held, blob);
      SumWithout(st.blobs, Kept, blob);
      forall b | b in st1.blobs && !st1.blobs[b].complete ensures st1.blobs[b].uploadId != Some(u.id) {
        assert b in st.blobs && b != blob;
      }
    }
  }

  /** An upload that is sent in these pieces and then aborted. */
  function Broken(blob: BlobId, id: AttachmentId, declared: nat, began: Instant, pieces: seq<Bytes>): seq<Action> {
    [DoReserve(blob, id, declared, began)] + Streams(blob, pieces) + [DoAbort(blob)]
  }

  function Streams(blob: BlobId, pieces: seq<Bytes>): seq<Action> {
    seq(|pieces|, i requires 0 <= i < |pieces| => Stream(blob, pieces[i]))
  }

  /** While it streams, an upload changes only its own rows, and keeps what it has reserved. */
  lemma {:induction false} StreamsChangeBytes(st: State, first: Action, blob: BlobId, pieces: seq<Bytes>, n: nat)
    requires n <= |pieces|
    requires var st1 := Apply(st, first); blob in st1.blobs && !st1.blobs[blob].complete && blob in st1.uploads
    ensures var st1, st2 := Apply(st, first), Run(st, ([first] + Streams(blob, pieces))[..n + 1]);
      && st2 == st1.(blobs := st2.blobs, uploads := st2.uploads)
      && blob in st2.blobs && !st2.blobs[blob].complete && blob in st2.uploads
      && st2.blobs == st1.blobs[blob := st2.blobs[blob]] && st2.uploads == st1.uploads[blob := st2.uploads[blob]]
      && st2.uploads[blob].declared == st1.uploads[blob].declared
  {
    var run := [first] + Streams(blob, pieces);
    if n == 0 {
      assert run[..1] == [first] && run[..1][..0] == [];
    } else {
      StreamsChangeBytes(st, first, blob, pieces, n - 1);
      assert run[..n + 1][..n] == run[..n] && run[n] == Stream(blob, pieces[n - 1]);
    }
  }

  /** An upload that is aborted, however much of it was sent, leaves everything as it was: the same upload is
      granted again. */
  lemma AbortUndoes(st: State, blob: BlobId, id: AttachmentId, declared: nat, began: Instant, pieces: seq<Bytes>)
    requires blob !in st.blobs && blob !in st.uploads && Reserve(st, blob, id, declared, began).Reserved?
    ensures Run(st, Broken(blob, id, declared, began, pieces)) == st
  {
    var first := DoReserve(blob, id, declared, began);
    var run := [first] + Streams(blob, pieces);
    StreamsChangeBytes(st, first, blob, pieces, |pieces|);
    assert run[..|pieces| + 1] == run;
    var st2, all := Run(st, run), Broken(blob, id, declared, began, pieces);
    assert all[..|all| - 1] == run && all[|all| - 1] == DoAbort(blob);
    assert st2.blobs - {blob} == st.blobs && st2.uploads - {blob} == st.uploads;
  }

  /** A publication adds just the attachment, with what was sent, and touches no other blob. */
  lemma PublishAdds(st: State, a: Action, sha: Bytes -> Digest)
    requires Inv(st, sha) && a.DoPublish? && Enabled(st, a, sha)
    ensures var u, st1 := st.uploads[a.blob], Apply(st, a);
      && u.id !in st.attachments && u.id in st1.attachments && st1.attachments[u.id].sent == u.body
      && st1.attachments == st.attachments[u.id := st1.attachments[u.id]]
      && (forall b :: b in st.blobs && b != a.blob ==> b in st1.blobs && st1.blobs[b] == st.blobs[b])
      && st1.blobs.Keys <= st.blobs.Keys
  {
    PublishSucceeds(st, a, sha);
    assert UploadValid(st, a.blob) && BlobValid(st, a.blob, sha);
  }

  /** A note has STALE_AGE from the publication to use the attachment before the janitor may take it. */
  lemma FreshIsKept(st: State, a: Action, later: Instant, sha: Bytes -> Digest)
    requires Inv(st, sha) && a.DoPublish? && Enabled(st, a, sha) && st.now <= later
    ensures Unused(Apply(Apply(st, a), Tick(later)), st.uploads[a.blob].id) <==> later > st.now + STALE_AGE
  {
    PublishSucceeds(st, a, sha);
    assert BlobValid(st, a.blob, sha) && UploadValid(st, a.blob);
  }

  // ---- the janitor ----------------------------------------------------------------------------

  /** Those attachments are gone, the complete blobs of some of them too, and nothing else. */
  predicate OnlyGone(st: State, st1: State, gone: set<AttachmentId>) {
    && st1.attachments == st.attachments - gone && st1.linked == st.linked && st1.uploads == st.uploads &&
        st1.now == st.now
    && (forall b :: b in st1.blobs ==> b in st.blobs && st1.blobs[b] == st.blobs[b])
    && (forall b :: b in st.blobs && !st.blobs[b].complete ==> b in st1.blobs)
  }

  lemma DeleteOne(st: State, id: AttachmentId, sha: Bytes -> Digest)
    requires Inv(st, sha) && id !in st.linked
    ensures OnlyGone(st, Delete(st, id), {id})
  {
    if id in st.attachments { assert AttachmentValid(st, id, sha); }
  }

  lemma DeleteOneMore(st: State, st1: State, gone: set<AttachmentId>, id: AttachmentId, sha: Bytes -> Digest)
    requires OnlyGone(st, st1, gone) && Inv(st1, sha) && id !in st.linked
    ensures OnlyGone(st, Delete(st1, id), gone + {id})
  {
    DeleteOne(st1, id, sha);
    assert st.attachments - gone - {id} == st.attachments - (gone + {id});
  }

  lemma {:induction false} DeleteAllOnly(st: State, ids: seq<AttachmentId>, gone: set<AttachmentId>,
      sha: Bytes -> Digest)
    requires Inv(st, sha) && gone == (set id | id in ids) && gone !! st.linked
    ensures OnlyGone(st, DeleteAll(st, ids), gone)
    decreases |ids|
  {
    if ids != [] {
      var n := |ids| - 1;
      var front := set id | id in ids[..n];
      assert gone == front + {ids[n]};
      DeleteAllOnly(st, ids[..n], front, sha);
      DeletesKeepInv(st, ids[..n], sha);
      DeleteOneMore(st, DeleteAll(st, ids[..n]), front, ids[n], sha);
    }
  }

  /** An attachment that the janitor leaves has its content in this blob. */
  predicate NeededBy(st: State, b: BlobId) {
    exists a :: a in st.attachments && !Unused(st, a) && st.attachments[a].blob == b
  }

  /** What is left after the janitor: unused attachments are gone and nothing is stale; a complete blob is
      there exactly if an attachment that stays needs it, an incomplete one exactly if it was not stale; and
      every row that is left is as it was. */
  ghost predicate Cleaned(st: State, st1: State) {
    && (forall b :: !Stale(st1, b)) && (forall id :: !Unused(st1, id))
    && st1.attachments == (map id | id in st.attachments && !Unused(st, id) :: st.attachments[id])
    && (forall b :: b in st1.blobs ==> b in st.blobs && st1.blobs[b] == st.blobs[b])
    && (forall b :: b in st.blobs && !st.blobs[b].complete ==> (b in st1.blobs <==> !Stale(st, b)))
    && (forall b :: b in st.blobs && st.blobs[b].complete ==> (b in st1.blobs <==> NeededBy(st, b)))
    && st1.linked == st.linked && st1.uploads == st.uploads
  }

  lemma JanitorIsExact(st: State, a: Action, sha: Bytes -> Digest)
    requires Inv(st, sha) && a.Janitor? && Enabled(st, a, sha)
    ensures Cleaned(st, Apply(st, a))
  {
    DropsKeepInv(st, a.stale, sha);
    DropsOnlyBlobs(st, a.stale);
    var mid := DropBlobs(st, a.stale);
    assert forall id :: id in a.unused ==> Unused(st, id);
    DeleteAllOnly(mid, a.unused, (set id | id in a.unused), sha);
    DeletesKeepInv(mid, a.unused, sha);
    JanitorLeaves(st, mid, Apply(st, a), a.stale, a.unused, sha);
  }

  lemma JanitorLeaves(st: State, mid: State, st1: State, stale: seq<BlobId>, unused: seq<AttachmentId>,
      sha: Bytes -> Digest)
    requires OnlyBlobsGone(st, mid, set b | b in stale) && OnlyGone(mid, st1, set id | id in unused) && Inv(st1, sha)
    requires (forall b :: b in stale <==> Stale(st, b)) && (forall id :: id in unused <==> Unused(st, id))
    ensures Cleaned(st, st1)
  {
    forall b ensures !Stale(st1, b) {
      if b in st1.blobs { assert b in mid.blobs && !Stale(st, b); }
    }
    forall b | b in st.blobs && st.blobs[b].complete ensures b in st1.blobs <==> NeededBy(st, b) {
      CompleteStays(st, mid, st1, stale, unused, b, sha);
    }
  }

  lemma CompleteStays(st: State, mid: State, st1: State, stale: seq<BlobId>, unused: seq<AttachmentId>, b: BlobId,
      sha: Bytes -> Digest)
    requires OnlyBlobsGone(st, mid, set b | b in stale) && OnlyGone(mid, st1, set id | id in unused) && Inv(st1, sha)
    requires (forall b :: b in stale <==> Stale(st, b)) && (forall id :: id in unused <==> Unused(st, id))
    requires b in st.blobs && st.blobs[b].complete
    ensures b in st1.blobs <==> NeededBy(st, b)
  {
    if b in st1.blobs {
      assert BlobValid(st1, b, sha);
      var id :| id in st1.attachments && st1.attachments[id].blob == b;
      assert id in st.attachments && !Unused(st, id) && st.attachments[id].blob == b;
    }
    if NeededBy(st, b) {
      var id :| id in st.attachments && !Unused(st, id) && st.attachments[id].blob == b;
      assert AttachmentValid(st1, id, sha);
    }
  }

  // ---- why an upload needs its deadline -------------------------------------------------------

  /** A publication after its blob was taken away either fails on the missing blob, or, when the content
      is there already, gives back a reservation for the second time: the accounts stay right exactly if
      nothing is reserved. */
  lemma LatePublication(st: State, blob: BlobId, u: Upload, dup: Option<BlobId>, sha: Bytes -> Digest)
    requires Inv(st, sha) && blob !in st.blobs && u.declared > 0 && |u.body| == u.declared
    requires Finds(st, blob, sha(u.body), u.declared, dup) && u.id !in st.attachments
    ensures dup.None? <==> Publish(st, blob, u, sha(u.body), dup).None?
    ensures dup.Some? ==> (Balanced(Publish(st, blob, u, sha(u.body), dup).value) <==> st.reserved == 0)
  {
    assert st.blobs - {blob} == st.blobs;
  }
}
