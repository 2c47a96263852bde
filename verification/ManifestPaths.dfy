/** What an image needs, told by paths through its nested manifests: the same as what the recursive
    definitions say. */
module ManifestPaths {
  import opened Wrappers
  import opened Manifests

  ghost predicate IsManifest(row: ImageRow, project: string, d: Digest, t: Text) {
    row.project == project && row.hash == d && row.manifest == t
  }

  /** The digest stands for this text: the blob file of that name, or without one an image of that
      hash in the project. */
  ghost predicate Stands(s: Store, project: string, d: Digest, t: Text) {
    if d in s.files then s.files[d] == Readable(t)
    else exists id :: id in s.images && IsManifest(s.images[id], project, d, t)
  }

  /** One of the digests in the index stands for the text. */
  ghost predicate Names(s: Store, project: string, index: Text, t: Text) {
    && s.parse(index).Some? && s.parse(index).value.Index?
    && exists d :: d in s.parse(index).value.manifests && Stands(s, project, d, t)
  }

  /** From one text to the next by the digests of an index. */
  ghost predicate Path(s: Store, project: string, ts: seq<Text>) {
    ts != [] && forall k :: 0 <= k < |ts| - 1 ==> Names(s, project, ts[k], ts[k + 1])
  }

  /** The config or a layer of an image, or a blob file that an index lists. */
  ghost predicate Lists(s: Store, t: Text, d: Digest) {
    && s.parse(t).Some?
    && match s.parse(t).value
       case Image(config, layers) => d == config || d in layers
       case Index(manifests) => d in manifests && d in s.files
  }

  /** At the end of some path the blob is listed. */
  ghost predicate Needs(s: Store, project: string, t: Text, d: Digest) {
    exists ts :: Path(s, project, ts) && ts[0] == t && Lists(s, ts[|ts| - 1], d)
  }

  /** The text can be parsed, the blobs of an image are there, and each digest of an index stands for a text. */
  ghost predicate Sound(s: Store, project: string, t: Text) {
    && s.parse(t).Some?
    && match s.parse(t).value
       case Image(config, layers) => config in s.files && forall l :: l in layers ==> l in s.files
       case Index(manifests) => forall d :: d in manifests ==> exists u :: Stands(s, project, d, u)
  }

  // ---------------------------------------------------------------- digests

  lemma StandsIffResolves(s: Store, project: string, d: Digest, t: Text)
    requires HashesNameManifests(s)
    ensures Stands(s, project, d, t) <==> Resolve(s, project, d) == Some(t)
  {
    if d !in s.files {
      if Stands(s, project, d, t) {
        var id :| id in s.images && IsManifest(s.images[id], project, d, t);
        assert RowFor(s, project, d, id);
      }
      if LookupImage(s, project, d).Some? {
        var id :| RowFor(s, project, d, id);
        var other :| RowFor(s, project, d, other) && LookupImage(s, project, d) == Some(s.images[other].manifest);
      }
    }
  }

  lemma RankFallsAlong(s: Store, project: string, rank: Text -> nat, t: Text, d: Digest)
    requires Ranked(s, project, rank) && s.parse(t).Some? && s.parse(t).value.Index? && d in s.parse(t).value.manifests
    ensures Resolve(s, project, d).Some? ==> rank(Resolve(s, project, d).value) < rank(t)
  {
  }

  // ---------------------------------------------------------------- paths

  lemma PathOfOne(s: Store, project: string, t: Text, d: Digest)
    requires Lists(s, t, d)
    ensures Needs(s, project, t, d)
  {
    var ts := [t];
    assert Path(s, project, ts) && ts[0] == t && Lists(s, ts[|ts| - 1], d);
  }

  lemma PathBefore(s: Store, project: string, t: Text, u: Text, d: Digest)
    requires Names(s, project, t, u) && Needs(s, project, u, d)
    ensures Needs(s, project, t, d)
  {
    hide Names, Lists;
    var ts :| Path(s, project, ts) && ts[0] == u && Lists(s, ts[|ts| - 1], d);
    var more := [t] + ts;
    assert forall k :: 0 < k < |more| ==> more[k] == ts[k - 1];
    assert Path(s, project, more) && more[0] == t && more[|more| - 1] == ts[|ts| - 1];
  }

  lemma {:induction false} RefsOfAllHas(s: Store, project: string, rank: Text -> nat, t: Text, ds: seq<Digest>,
                                        d: Digest)
    requires Ranked(s, project, rank) && s.parse(t).Some? && s.parse(t).value.Index?
    requires forall e :: e in ds ==> e in s.parse(t).value.manifests
    ensures d in RefsOfAll(s, project, rank, t, ds) <==>
      exists e :: e in ds && e in s.parse(t).value.manifests && d in RefsOfOne(s, project, rank, t, e)
    decreases |ds|
  {
    hide RefsOfOne, Ranked;
    if ds == [] {
      assert RefsOfAll(s, project, rank, t, ds) == {};
    } else {
      var init, last := ds[..|ds| - 1], ds[|ds| - 1];
      RefsOfAllHas(s, project, rank, t, init, d);
      assert last in ds && forall e :: e in ds <==> e in init || e == last;
      assert RefsOfAll(s, project, rank, t, ds) ==
        RefsOfAll(s, project, rank, t, init) + RefsOfOne(s, project, rank, t, last);
    }
  }

  /** What a manifest reaches is what its paths need. */
  lemma {:induction false} RefsAreNeeded(s: Store, project: string, rank: Text -> nat, t: Text, d: Digest)
    requires Ranked(s, project, rank) && HashesNameManifests(s) && d in Refs(s, project, rank, t)
    ensures Needs(s, project, t, d)
    decreases rank(t)
  {
    if s.parse(t).value.Image? {
      PathOfOne(s, project, t, d);
    } else {
      var ds := s.parse(t).value.manifests;
      RefsOfAllHas(s, project, rank, t, ds, d);
      var e :| e in ds && d in RefsOfOne(s, project, rank, t, e);
      if d == e && e in s.files {
        PathOfOne(s, project, t, d);
      } else {
        RankFallsAlong(s, project, rank, t, e);
        var u := Resolve(s, project, e).value;
        RefsAreNeeded(s, project, rank, u, d);
        StandsIffResolves(s, project, e, u);
        PathBefore(s, project, t, u, d);
      }
    }
  }

  lemma {:induction false} PathIsReached(s: Store, project: string, rank: Text -> nat, ts: seq<Text>, d: Digest)
    requires Ranked(s, project, rank) && HashesNameManifests(s)
    requires Path(s, project, ts) && Lists(s, ts[|ts| - 1], d)
    ensures d in Refs(s, project, rank, ts[0])
    decreases |ts|
  {
    var t := ts[0];
    if |ts| == 1 {
      if s.parse(t).value.Index? { RefsOfAllHas(s, project, rank, t, s.parse(t).value.manifests, d); }
    } else {
      var e := NextDigest(s, project, rank, ts);
      PathIsReached(s, project, rank, ts[1..], d);
      assert d in RefsOfOne(s, project, rank, t, e);
      RefsOfAllHas(s, project, rank, t, s.parse(t).value.manifests, d);
    }
  }

  lemma NextDigest(s: Store, project: string, rank: Text -> nat, ts: seq<Text>) returns (e: Digest)
    requires HashesNameManifests(s) && Path(s, project, ts) && |ts| >= 2
    ensures s.parse(ts[0]).Some? && s.parse(ts[0]).value.Index? && e in s.parse(ts[0]).value.manifests
    ensures Resolve(s, project, e) == Some(ts[1]) && Path(s, project, ts[1..])
  {
    assert Names(s, project, ts[0], ts[1]);
    e :| e in s.parse(ts[0]).value.manifests && Stands(s, project, e, ts[1]);
    StandsIffResolves(s, project, e, ts[1]);
    hide Names;
    forall k | 0 <= k < |ts[1..]| - 1 ensures Names(s, project, ts[1..][k], ts[1..][k + 1]) {
      assert Names(s, project, ts[k + 1], ts[k + 2]);
    }
  }

  lemma ReachedIffNeeded(s: Store, project: string, rank: Text -> nat, t: Text, d: Digest)
    requires Ranked(s, project, rank) && HashesNameManifests(s)
    ensures d in Refs(s, project, rank, t) <==> Needs(s, project, t, d)
  {
    hide Lists;
    if d in Refs(s, project, rank, t) { RefsAreNeeded(s, project, rank, t, d); }
    if Needs(s, project, t, d) {
      var ts :| Path(s, project, ts) && ts[0] == t && Lists(s, ts[|ts| - 1], d);
      PathIsReached(s, project, rank, ts, d);
    }
  }

  // ---------------------------------------------------------------- intact images

  lemma {:induction false} IntactAlong(s: Store, project: string, rank: Text -> nat, ts: seq<Text>)
    requires Ranked(s, project, rank) && HashesNameManifests(s)
    requires Path(s, project, ts) && Intact(s, project, rank, ts[0])
    ensures Sound(s, project, ts[|ts| - 1])
    decreases |ts|
  {
    if |ts| == 1 {
      IntactIsSound(s, project, rank, ts[0]);
    } else {
      var e := NextDigest(s, project, rank, ts);
      IntactAlong(s, project, rank, ts[1..]);
    }
  }

  lemma IntactIsSound(s: Store, project: string, rank: Text -> nat, t: Text)
    requires Ranked(s, project, rank) && HashesNameManifests(s) && Intact(s, project, rank, t)
    ensures Sound(s, project, t)
  {
    if s.parse(t).value.Index? {
      forall d | d in s.parse(t).value.manifests ensures exists u :: Stands(s, project, d, u) {
        StandsIffResolves(s, project, d, Resolve(s, project, d).value);
      }
    }
  }

  /** An image is intact exactly if every text on its paths is sound. */
  lemma {:induction false} SoundIsIntact(s: Store, project: string, rank: Text -> nat, t: Text)
    requires Ranked(s, project, rank) && HashesNameManifests(s)
    requires forall ts :: Path(s, project, ts) && ts[0] == t ==> Sound(s, project, ts[|ts| - 1])
    ensures Intact(s, project, rank, t)
    decreases rank(t)
  {
    assert Path(s, project, [t]);
    assert Sound(s, project, [t][|[t]| - 1]);
    if s.parse(t).value.Index? {
      forall d | d in s.parse(t).value.manifests
        ensures Resolve(s, project, d).Some? && Intact(s, project, rank, Resolve(s, project, d).value)
      {
        var u :| Stands(s, project, d, u);
        StandsIffResolves(s, project, d, u);
        RankFallsAlong(s, project, rank, t, d);
        assert Names(s, project, t, u);
        SoundBelow(s, project, t, u);
        SoundIsIntact(s, project, rank, u);
      }
    }
  }

  lemma SoundBelow(s: Store, project: string, t: Text, u: Text)
    requires Names(s, project, t, u)
    requires forall ts :: Path(s, project, ts) && ts[0] == t ==> Sound(s, project, ts[|ts| - 1])
    ensures forall ts :: Path(s, project, ts) && ts[0] == u ==> Sound(s, project, ts[|ts| - 1])
  {
    hide Names, Sound;
    forall ts | Path(s, project, ts) && ts[0] == u ensures Sound(s, project, ts[|ts| - 1]) {
      var more := [t] + ts;
      assert forall k :: 0 < k < |more| ==> more[k] == ts[k - 1];
      assert Path(s, project, more) && more[0] == t;
      assert more[|more| - 1] == ts[|ts| - 1];
    }
  }

  lemma IntactIffSound(s: Store, project: string, rank: Text -> nat, t: Text)
    requires Ranked(s, project, rank) && HashesNameManifests(s)
    ensures Intact(s, project, rank, t) <==>
      forall ts :: Path(s, project, ts) && ts[0] == t ==> Sound(s, project, ts[|ts| - 1])
  {
    hide Sound;
    if Intact(s, project, rank, t) {
      forall ts | Path(s, project, ts) && ts[0] == t ensures Sound(s, project, ts[|ts| - 1]) {
        IntactAlong(s, project, rank, ts);
      }
    } else if forall ts :: Path(s, project, ts) && ts[0] == t ==> Sound(s, project, ts[|ts| - 1]) {
      SoundIsIntact(s, project, rank, t);
    }
  }
}
