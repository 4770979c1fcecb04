// Preview, explicit approval and preparation of a restore: only the manifest
// that was reviewed can be prepared, and only while the review is fresh.

module RestorePipeline {
  import opened Foundations
  import opened Records

  const LIFETIME: int := 5 * MINUTES

  datatype PreviewItem = PreviewItem(target: string, existed: bool, sha256: Option<string>, mode: Option<int>)

  datatype Preview = Preview(
    hostId: string,
    backupId: string,
    manifestHash: string,
    createdAt: int,
    expiresAt: int,
    protected: bool,
    items: seq<PreviewItem>,
    previewHash: string
  )

  datatype Approval = Approval(
    approvalId: string,
    actor: string,
    hostId: string,
    backupId: string,
    manifestHash: string,
    previewHash: string,
    approvedAt: int,
    expiresAt: int
  )

  datatype Observation = Observation(target: string, exists_: bool, sha256: Option<string>)

  datatype Authorization = Authorization(
    hostId: string,
    backupId: string,
    manifestHash: string,
    previewHash: string,
    approvalId: string,
    actor: string,
    targets: seq<string>,
    currentTargets: seq<Observation>,
    preparedAt: int,
    expiresAt: int,
    authorizationHash: string
  )

  // SHA-256 over the canonical JSON of a preview or an authorization; nothing is
  // assumed about collisions.
  datatype Hashes = Hashes(preview: Preview -> Digest, authorization: Authorization -> Digest)

  function WithHash(h: Hashes, p: Preview): Preview {
    p.(previewHash := h.preview(p.(previewHash := "")))
  }

  function ItemsOf(m: Manifest): seq<PreviewItem> {
    seq(|m.items|, i requires 0 <= i < |m.items| =>
      PreviewItem(m.items[i].target, m.items[i].existed, m.items[i].sha256, m.items[i].mode))
  }

  function TargetsOf(m: Manifest): seq<string> {
    seq(|m.items|, i requires 0 <= i < |m.items| => m.items[i].target)
  }

  // `CreateRestorePreview.execute`
  function CreatePreview(h: Hashes, m: Manifest, now: int, lifetime: int): Outcome<Preview> {
    if m.items == [] || m.manifestHash == "" then Raised(AdapterError("invalid_restore_preview"))
    else Ok(WithHash(h,
                     Preview(m.hostId, m.backupId, m.manifestHash, now, now + lifetime, m.protected, ItemsOf(m), "")))
  }

  // `RestoreApproval.is_valid_for`
  predicate IsValidFor(a: Approval, p: Preview, now: int) {
    && now < a.expiresAt
    && a.hostId == p.hostId
    && a.backupId == p.backupId
    && a.manifestHash == p.manifestHash
    && a.previewHash == p.previewHash
    && p.createdAt <= now < p.expiresAt
  }

  // `CreateRestoreApproval.execute`
  function CreateApproval(
    h: Hashes, p: Preview, approvalId: string, actor: string, explicitReview: bool, now: int, lifetime: int
  ): Outcome<Approval>
  {
    if !explicitReview then Raised(AdapterError("explicit_restore_review_required"))
    else if Blank(approvalId) || Blank(actor) then Raised(AdapterError("approval_identity_required"))
    else if now >= p.expiresAt || WithHash(h, p) != p then Raised(AdapterError("stale_restore_preview"))
    else
      var a := Approval(approvalId, actor, p.hostId, p.backupId, p.manifestHash, p.previewHash, now,
                        Min(now + lifetime, p.expiresAt));
      if IsValidFor(a, p, now) then Ok(a) else Raised(AdapterError("invalid_restore_approval"))
  }

  // What preparation finds outside itself: the cancellation flag at its two
  // checks, the strict listing, and an observation of the targets.
  datatype Surroundings = Surroundings(
    cancelledFirst: bool,
    cancelledSecond: bool,
    listing: Outcome<seq<Manifest>>,
    observe: Manifest -> Outcome<seq<Observation>>
  )

  // `PrepareLocalRestore.execute`
  function Prepare(
    h: Hashes, hostId: string, backupId: string, p: Preview, a: Approval, w: Surroundings, now: int
  ): Outcome<Authorization>
  {
    if w.cancelledFirst then Raised(OperationCancelled)
    else if WithHash(h, p) != p || p.hostId != hostId || p.backupId != backupId || !IsValidFor(a, p, now)
      then Raised(AdapterError("invalid_restore_approval"))
    else if w.listing.Raised? then Raised(w.listing.error)
    else if w.cancelledSecond then Raised(OperationCancelled)
    else
      match FindBackup(w.listing.value, backupId)
      case None => Raised(AdapterError("backup_not_found"))
      case Some(m) => PrepareManifest(h, hostId, backupId, p, a, m, w.observe(m), now)
  }

  function PrepareManifest(
    h: Hashes, hostId: string, backupId: string, p: Preview, a: Approval, m: Manifest,
    observed: Outcome<seq<Observation>>, now: int
  ): Outcome<Authorization>
  {
    if m.hostId != hostId || m.backupId != backupId || m.manifestHash != p.manifestHash || m.protected != p.protected
       || ItemsOf(m) != p.items
    then Raised(AdapterError("restore_binding_mismatch"))
    else if observed.Raised? then Raised(observed.error)
    else
      var prepared := Authorization(hostId, backupId, m.manifestHash, p.previewHash, a.approvalId, a.actor,
                                    TargetsOf(m), observed.value, now, Min(p.expiresAt, a.expiresAt), "");
      if now >= prepared.expiresAt then Raised(AdapterError("stale_restore_approval"))
      else Ok(prepared.(authorizationHash := h.authorization(prepared)))
  }

  // ---- Properties ----

  // What a successful strict listing is: one host's manifests, each with its own
  // hash, no identity twice.
  ghost predicate StrictListing(sha: Sha256, hostId: string, list: seq<Manifest>) {
    && (forall i, j | 0 <= i < j < |list| :: list[i].backupId != list[j].backupId)
    && (forall m | m in list :: m.hostId == hostId && m.manifestHash == HashManifest(sha, m))
  }

  // Two manifests with the same hash are the same, or SHA-256 collides on them.
  ghost predicate Confused(sha: Sha256, a: Manifest, b: Manifest) {
    Collision(sha, ManifestText(a.(manifestHash := "")), ManifestText(b.(manifestHash := "")))
  }

  // What can be approved: an intact, fresh preview, reviewed explicitly by a
  // named actor; the approval never outlives the preview.
  lemma ApprovalIff(
    h: Hashes, p: Preview, approvalId: string, actor: string, explicitReview: bool, now: int, lifetime: int
  )
    ensures var a := CreateApproval(h, p, approvalId, actor, explicitReview, now, lifetime);
            && (a.Ok? <==> explicitReview && !Blank(approvalId) && !Blank(actor) && WithHash(h, p) == p
                           && p.createdAt <= now < p.expiresAt && lifetime > 0)
            && (a.Ok? ==> now < a.value.expiresAt <= p.expiresAt)
  {
  }

  // The whole pipeline: a preview of `m` at `t0`, an explicit approval at `t1`
  // and an uncancelled preparation at `t2`, whose targets can be observed,
  // succeed exactly when both lifetimes still run and the store still holds the
  // reviewed manifest (or SHA-256 collides).
  lemma PipelineSucceedsIff(
    sha: Sha256, h: Hashes, m: Manifest, t0: int, t1: int, t2: int, previewLife: int, approvalLife: int,
    approvalId: string, actor: string, w: Surroundings
  )
    requires t0 <= t1 <= t2 && previewLife > 0 && approvalLife > 0
    requires m.items != [] && m.manifestHash == HashManifest(sha, m)
    requires !Blank(approvalId) && !Blank(actor)
    requires !w.cancelledFirst && !w.cancelledSecond
    requires w.listing.Ok? && StrictListing(sha, m.hostId, w.listing.value)
    requires forall x :: w.observe(x).Ok?
    ensures CreatePreview(h, m, t0, previewLife).Ok?
    ensures var p := CreatePreview(h, m, t0, previewLife).value;
            var a := CreateApproval(h, p, approvalId, actor, true, t1, approvalLife);
            && (a.Ok? <==> t1 < t0 + previewLife)
            && (a.Ok? ==>
                  var r := Prepare(h, m.hostId, m.backupId, p, a.value, w, t2);
                  || (r.Ok? <==> t2 < t0 + previewLife && t2 < t1 + approvalLife && m in w.listing.value)
                  || exists x :: x in w.listing.value && Confused(sha, m, x))
  {
    var p := CreatePreview(h, m, t0, previewLife).value;
    var list := w.listing.value;
    FindBackupFinds(list, m.backupId);
    if FindBackup(list, m.backupId).Some? {
      var x := FindBackup(list, m.backupId).value;
      SameHashOrConfused(sha, m, x);
      if m in list {
        OneOfEachBackup(sha, m.hostId, list, m, x);
      }
    }
  }

  lemma SameHashOrConfused(sha: Sha256, m: Manifest, x: Manifest)
    requires m.manifestHash == HashManifest(sha, m) && x.manifestHash == HashManifest(sha, x)
    ensures m.manifestHash == x.manifestHash ==> m == x || Confused(sha, m, x)
  {
    if m.(manifestHash := "") == x.(manifestHash := "") && m.manifestHash == x.manifestHash {
      assert m == m.(manifestHash := "").(manifestHash := m.manifestHash);
      assert x == x.(manifestHash := "").(manifestHash := x.manifestHash);
    }
  }

  lemma OneOfEachBackup(sha: Sha256, hostId: string, list: seq<Manifest>, a: Manifest, b: Manifest)
    requires StrictListing(sha, hostId, list) && a in list && b in list && a.backupId == b.backupId
    ensures a == b
  {
    var i :| 0 <= i < |list| && list[i] == a;
    var j :| 0 <= j < |list| && list[j] == b;
  }

  // With the default lifetimes an approval never expires before its preview, so
  // everything hangs on the preview's five minutes; the authorization expires
  // with it and names exactly the reviewed targets.
  lemma DefaultPipeline(
    sha: Sha256, h: Hashes, m: Manifest, t0: int, t1: int, t2: int, approvalId: string, actor: string, w: Surroundings
  )
    requires t0 <= t1 <= t2 && t1 < t0 + LIFETIME
    requires m.items != [] && m.manifestHash == HashManifest(sha, m)
    requires !Blank(approvalId) && !Blank(actor)
    requires !w.cancelledFirst && !w.cancelledSecond
    requires w.listing.Ok? && StrictListing(sha, m.hostId, w.listing.value)
    requires forall x :: w.observe(x).Ok?
    requires forall x | x in w.listing.value :: !Confused(sha, m, x)
    ensures CreatePreview(h, m, t0, LIFETIME).Ok?
    ensures var p := CreatePreview(h, m, t0, LIFETIME).value;
            var a := CreateApproval(h, p, approvalId, actor, true, t1, LIFETIME);
            && a.Ok? && a.value.expiresAt == p.expiresAt == t0 + LIFETIME
            && var r := Prepare(h, m.hostId, m.backupId, p, a.value, w, t2);
               && (r.Ok? <==> t2 < t0 + LIFETIME && m in w.listing.value)
               && (r.Ok? ==> r.value.expiresAt == t0 + LIFETIME && r.value.targets == TargetsOf(m))
  {
    PipelineSucceedsIff(sha, h, m, t0, t1, t2, LIFETIME, LIFETIME, approvalId, actor, w);
    var p := CreatePreview(h, m, t0, LIFETIME).value;
    var a := CreateApproval(h, p, approvalId, actor, true, t1, LIFETIME).value;
    var r := Prepare(h, m.hostId, m.backupId, p, a, w, t2);
    if r.Ok? {
      FindBackupFinds(w.listing.value, m.backupId);
      var x := FindBackup(w.listing.value, m.backupId).value;
      OneOfEachBackup(sha, m.hostId, w.listing.value, m, x);
    }
  }

  // However preview, approval and preparation are combined: a prepared restore
  // is of the very preview that was approved and of the manifest it was taken
  // from (or a hash collides), within the life of both.
  lemma PreparedMeansReviewed(
    sha: Sha256, h: Hashes, reviewed: Manifest, t0: int, previewLife: int, approvalId: string, actor: string,
    explicitReview: bool, t1: int, approvalLife: int, hostId: string, backupId: string, p: Preview, w: Surroundings,
    t2: int
  )
    requires reviewed.manifestHash == HashManifest(sha, reviewed)
    requires CreatePreview(h, reviewed, t0, previewLife).Ok?
    requires var q := CreatePreview(h, reviewed, t0, previewLife).value;
             && CreateApproval(h, q, approvalId, actor, explicitReview, t1, approvalLife).Ok?
             && Prepare(h, hostId, backupId, p,
                        CreateApproval(h, q, approvalId, actor, explicitReview, t1, approvalLife).value,
                        w, t2).Ok?
    requires StrictListing(sha, hostId, w.listing.value)
    ensures var q := CreatePreview(h, reviewed, t0, previewLife).value;
            && explicitReview
            && t0 <= t1
            && (p == q || (p.(previewHash := "") != q.(previewHash := "")
                           && h.preview(p.(previewHash := "")) == h.preview(q.(previewHash := ""))))
            && (reviewed in w.listing.value || exists x :: x in w.listing.value && Confused(sha, reviewed, x))
            && (p == q ==> t0 <= t2 < t0 + previewLife && t2 < t1 + approvalLife)
  {
    var q := CreatePreview(h, reviewed, t0, previewLife).value;
    FindBackupFinds(w.listing.value, backupId);
    var x := FindBackup(w.listing.value, backupId).value;
    SameHashOrConfused(sha, reviewed, x);
    SamePreview(h, p, q);
  }

  lemma SamePreview(h: Hashes, p: Preview, q: Preview)
    requires WithHash(h, p) == p && WithHash(h, q) == q && p.previewHash == q.previewHash
    ensures p.(previewHash := "") == q.(previewHash := "") ==> p == q
    ensures h.preview(p.(previewHash := "")) == h.preview(q.(previewHash := ""))
  {
    assert p == p.(previewHash := "").(previewHash := p.previewHash);
    assert q == q.(previewHash := "").(previewHash := q.previewHash);
  }
}
