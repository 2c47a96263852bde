/** Which images a prune keeps: the reasons, and that they decide. */
module PruneRule {
  import opened Wrappers
  import opened Manifests
  import opened ManifestPaths
  import opened Prune

  // ---------------------------------------------------------------- reasons to keep an image

  /** A deployment of the image has not ended. */
  ghost predicate Running(h: History, hash: Digest) {
    exists d :: d in h.deployments && d.hash == hash && d.endTime == None
  }

  /** No deployment of the image started earlier. */
  ghost predicate IsFirstStart(h: History, hash: Digest, x: int) {
    && (exists d :: d in h.deployments && d.hash == hash && d.startTime == x)
    && forall d :: d in h.deployments && d.hash == hash ==> x <= d.startTime
  }

  /** No deployment of the image ended later. */
  ghost predicate IsLastEnd(h: History, hash: Digest, x: int) {
    && (exists d :: d in h.deployments && d.hash == hash && d.endTime == Some(x))
    && forall d :: d in h.deployments && d.hash == hash && d.endTime.Some? ==> d.endTime.value <= x
  }

  /** It was deployed for some time, and less than twice that time and two weeks have passed since the
      first start. */
  ghost predicate DeployedLately(h: History, hash: Digest, now: real) {
    exists first, last :: IsFirstStart(h, hash, first) && IsLastEnd(h, hash, last) && LongEnough(first, last, now)
  }

  ghost predicate LongEnough(first: int, last: int, now: real) {
    2.0 * (last - first) as real + 1209600.0 > now - first as real
  }

  /** No image of the same project and tag has a greater id. */
  ghost predicate NoNewer(images: map<int, ImageRow>, row: ImageRow) {
    forall id :: id in images && images[id].project == row.project && images[id].tag == row.tag ==>
      images[id].id <= row.id
  }

  ghost predicate StandingTag(h: History, row: ImageRow) {
    (row.project, row.tag) in h.tagPins || row.tag == "latest" || row.tag == "master"
  }

  ghost predicate KeepReason(images: map<int, ImageRow>, h: History, row: ImageRow, now: real) {
    || row.pin
    || Running(h, row.hash)
    || if "tmp_ci_" <= row.tag then row.time + 3600.0 > now
       else
         || (NoNewer(images, row) && StandingTag(h, row))
         || DeployedLately(h, row.hash, now)
         || (row.used.Some? && 2.0 * (row.used.value - row.time) + 1209600.0 > now - row.used.value)
         || row.time + 1209600.0 > now
  }

  // ---------------------------------------------------------------- the rule decides by them

  lemma {:induction false} ActiveIsRunning(ds: seq<DeploymentRow>, pins: set<(string, string)>, hash: Digest)
    ensures Active(ds, hash) >= 0 && (Active(ds, hash) > 0 <==> Running(History(ds, pins), hash))
  {
    if ds != [] {
      ActiveIsRunning(ds[1..], pins, hash);
      assert forall d :: d in ds <==> d == ds[0] || d in ds[1..];
    }
  }

  lemma {:induction false} FirstStartIs(ds: seq<DeploymentRow>, pins: set<(string, string)>, hash: Digest)
    ensures FirstStart(ds, hash).Some? ==> IsFirstStart(History(ds, pins), hash, FirstStart(ds, hash).value)
    ensures FirstStart(ds, hash).None? ==> forall d :: d in ds ==> d.hash != hash
  {
    if ds != [] {
      FirstStartIs(ds[1..], pins, hash);
      assert forall d :: d in ds <==> d == ds[0] || d in ds[1..];
    }
  }

  lemma {:induction false} LastEndIs(ds: seq<DeploymentRow>, pins: set<(string, string)>, hash: Digest)
    ensures LastEnd(ds, hash).Some? ==> IsLastEnd(History(ds, pins), hash, LastEnd(ds, hash).value)
    ensures LastEnd(ds, hash).None? ==> forall d :: d in ds && d.hash == hash ==> d.endTime == None
  {
    if ds != [] {
      LastEndIs(ds[1..], pins, hash);
      assert forall d :: d in ds <==> d == ds[0] || d in ds[1..];
    }
  }

  lemma SpanIsDeployedLately(h: History, hash: Digest, now: real)
    ensures DeployedLately(h, hash, now) <==>
      var start, end := FirstStart(h.deployments, hash), LastEnd(h.deployments, hash);
      start.Some? && end.Some? && 2.0 * (end.value - start.value) as real + GRACE > now - start.value as real
  {
    FirstStartIs(h.deployments, h.tagPins, hash);
    LastEndIs(h.deployments, h.tagPins, hash);
    var start, end := FirstStart(h.deployments, hash), LastEnd(h.deployments, hash);
    if start.Some? && end.Some? && LongEnough(start.value, end.value, now) {
      assert IsFirstStart(h, hash, start.value) && IsLastEnd(h, hash, end.value);
    }
    if DeployedLately(h, hash, now) {
      var first, last :| IsFirstStart(h, hash, first) && IsLastEnd(h, hash, last) && LongEnough(first, last, now);
      assert start == Some(first) && end == Some(last);
    }
  }

  lemma KeepsIffReason(images: map<int, ImageRow>, h: History, row: ImageRow, now: real)
    ensures Keeps(Newest(images, row), h, row, now) <==> KeepReason(images, h, row, now)
  {
    ActiveIsRunning(h.deployments, h.tagPins, row.hash);
    SpanIsDeployedLately(h, row.hash, now);
    hide Running, DeployedLately, Active, FirstStart, LastEnd;
    assert Newest(images, row) <==> NoNewer(images, row);
  }

  // ---------------------------------------------------------------- what a prune does to an image

  /** A live image stays live exactly if it is intact and there is a reason to keep it, and then with
      everything that it reaches; otherwise it is marked as removed at this time. Images that were
      removed before, and everything else about the others, stay as they are. */
  lemma PruneKeepsIff(s: Store, h: History, rank: Text -> nat, now: real, t: Store, id: int)
    requires AllRanked(s, rank) && Pruned(s, h, rank, now, t) && HashesNameManifests(s) && id in s.images
    ensures id in t.images && t.images[id] == s.images[id].(removed := t.images[id].removed)
    ensures s.images[id].removed.Some? ==> t.images[id] == s.images[id]
    ensures var row := s.images[id];
      row.removed.None? ==>
        if Intact(s, row.project, rank, row.manifest) && KeepReason(s.images, h, row, now) then
          t.images[id].removed.None? && Refs(s, row.project, rank, row.manifest) <= t.files.Keys
        else t.images[id].removed == Some(now)
  {
    var row := s.images[id];
    KeepsIffReason(s.images, h, row, now);
    PrunedShrinks(s, h, rank, now, t);
    hide Keeps, KeepReason, Intact, Refs, Used;
    if row.removed.None? && Kept(s, h, rank, now, id) {
      PruneIsSafe(s, h, rank, now, t, id);
    }
  }

  /** Every text on the paths of the image can be read and finds what it lists. */
  ghost predicate SoundImage(s: Store, row: ImageRow) {
    forall ts :: Path(s, row.project, ts) && ts[0] == row.manifest ==> Sound(s, row.project, ts[|ts| - 1])
  }

  /** A live image stays live exactly if it is sound and there is a reason to keep it, and then keeps
      every blob that it needs; otherwise it is marked. */
  lemma ImageStaysIff(s: Store, h: History, rank: Text -> nat, now: real, t: Store, id: int)
    requires AllRanked(s, rank) && Pruned(s, h, rank, now, t) && HashesNameManifests(s)
    requires id in s.images && s.images[id].removed.None?
    ensures var row := s.images[id];
      && (t.images[id].removed.None? <==> SoundImage(s, row) && KeepReason(s.images, h, row, now))
      && (t.images[id].removed.Some? ==> t.images[id].removed == Some(now))
      && (t.images[id].removed.None? ==> forall d :: Needs(s, row.project, row.manifest, d) ==>
           d in s.files && d in t.files && t.files[d] == s.files[d])
  {
    var row := s.images[id];
    PruneKeepsIff(s, h, rank, now, t, id);
    assert Ranked(s, row.project, rank);
    hide KeepReason, Intact, Refs, Used, Kept, Path, Sound, Needs;
    IntactIffSound(s, row.project, rank, row.manifest);
    forall d | Needs(s, row.project, row.manifest, d) ensures d in Refs(s, row.project, rank, row.manifest) {
      ReachedIffNeeded(s, row.project, rank, row.manifest, d);
    }
  }

  /** A file stays exactly if an image that stays live needs it. */
  lemma FileStaysIff(s: Store, h: History, rank: Text -> nat, now: real, t: Store, d: Digest)
    requires AllRanked(s, rank) && Pruned(s, h, rank, now, t) && HashesNameManifests(s) && d in s.files
    ensures d in t.files <==> exists id :: id in t.images && t.images[id].removed.None? && NeededBy(s, id, d)
    ensures d in t.files ==> t.files[d] == s.files[d]
  {
    hide Intact, Refs, Keeps, Needs;
    forall id | id in s.images
      ensures NeededBy(s, id, d) <==> d in Refs(s, s.images[id].project, rank, s.images[id].manifest)
    {
      assert Ranked(s, s.images[id].project, rank);
      ReachedIffNeeded(s, s.images[id].project, rank, s.images[id].manifest, d);
    }
    if d in t.files {
      assert Used(s, h, rank, now, d);
      var id :| Kept(s, h, rank, now, id) && d in Refs(s, s.images[id].project, rank, s.images[id].manifest);
      assert t.images[id] == s.images[id] && NeededBy(s, id, d);
    }
    if exists id :: id in t.images && t.images[id].removed.None? && NeededBy(s, id, d) {
      var id :| id in t.images && t.images[id].removed.None? && NeededBy(s, id, d);
      assert Kept(s, h, rank, now, id);
    }
  }

  ghost predicate NeededBy(s: Store, id: int, d: Digest) {
    id in s.images && Needs(s, s.images[id].project, s.images[id].manifest, d)
  }
}
