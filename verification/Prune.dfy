/** The registry's garbage collection: which images are kept, what each reaches, and the sweep. */
module Prune {
  import opened Wrappers
  import opened Manifests

  const GRACE: real := 60.0 * 60.0 * 24.0 * 14.0
  const TMP_CI_GRACE: real := 60.0 * 60.0

  datatype DeploymentRow = DeploymentRow(hash: Digest, startTime: int, endTime: Option<int>)

  /** What the keep rule reads besides the images: past deployments and pinned tags. */
  datatype History = History(deployments: seq<DeploymentRow>, tagPins: set<(string, string)>)

  function MinOpt(a: Option<int>, b: int): Option<int> {
    if a.Some? && a.value <= b then a else Some(b)
  }

  function MaxOpt(a: Option<int>, b: int): Option<int> {
    if a.Some? && a.value >= b then a else Some(b)
  }

  /** `MIN(startTime)` over the deployments of an image. */
  function FirstStart(ds: seq<DeploymentRow>, hash: Digest): Option<int> {
    if ds == [] then None
    else
      var rest := FirstStart(ds[1..], hash);
      if ds[0].hash == hash then MinOpt(rest, ds[0].startTime) else rest
  }

  /** `MAX(endTime)`, which ignores deployments that have not ended. */
  function LastEnd(ds: seq<DeploymentRow>, hash: Digest): Option<int> {
    if ds == [] then None
    else
      var rest := LastEnd(ds[1..], hash);
      if ds[0].hash == hash && ds[0].endTime.Some? then MaxOpt(rest, ds[0].endTime.value) else rest
  }

  /** How many deployments have started and not ended. */
  function Active(ds: seq<DeploymentRow>, hash: Digest): int {
    if ds == [] then 0
    else Active(ds[1..], hash) + if ds[0].hash == hash && ds[0].endTime.None? then 1 else 0
  }

  /** The image has the greatest id of its project and tag, removed images included. */
  ghost predicate Newest(images: map<int, ImageRow>, row: ImageRow) {
    forall id :: id in images && images[id].project == row.project && images[id].tag == row.tag ==>
      images[id].id <= row.id
  }

  predicate IsTmpCi(tag: string) {
    "tmp_ci_" <= tag
  }

  /** The keep rule. */
  predicate Keeps(newest: bool, h: History, row: ImageRow, now: real) {
    var start, end := FirstStart(h.deployments, row.hash), LastEnd(h.deployments, row.hash);
    if IsTmpCi(row.tag) then
      row.pin || Active(h.deployments, row.hash) > 0 || row.time + TMP_CI_GRACE > now
    else
      || row.pin
      || (newest && (row.project, row.tag) in h.tagPins)
      || ((row.tag == "latest" || row.tag == "master") && newest)
      || Active(h.deployments, row.hash) > 0
      || (start.Some? && end.Some?
          && 2.0 * (end.value - start.value) as real + GRACE > now - start.value as real)
      || (row.used.Some? && 2.0 * (row.used.value - row.time) + GRACE > now - row.used.value)
      || row.time + GRACE > now
  }

  ghost predicate AllRanked(s: Store, rank: Text -> nat) {
    forall project :: Ranked(s, project, rank)
  }

  ghost predicate Live(s: Store, id: int) {
    id in s.images && s.images[id].removed.None?
  }

  /** A live image that the rule keeps and that misses nothing. */
  ghost predicate Kept(s: Store, h: History, rank: Text -> nat, now: real, id: int)
    requires AllRanked(s, rank)
  {
    Live(s, id) && Keeps(Newest(s.images, s.images[id]), h, s.images[id], now)
    && Intact(s, s.images[id].project, rank, s.images[id].manifest)
  }

  /** Some image that is kept reaches the blob. */
  ghost predicate Used(s: Store, h: History, rank: Text -> nat, now: real, d: Digest)
    requires AllRanked(s, rank)
  {
    exists id :: Kept(s, h, rank, now, id) && d in Refs(s, s.images[id].project, rank, s.images[id].manifest)
  }

  /** What a prune makes of the store: every live image is kept or marked as removed, and
      exactly the files that no kept image reaches are deleted. */
  ghost predicate Pruned(s: Store, h: History, rank: Text -> nat, now: real, t: Store)
    requires AllRanked(s, rank)
  {
    && t.parse == s.parse && t.images.Keys == s.images.Keys
    && (forall id :: id in s.images ==>
         t.images[id] == if Live(s, id) && !Kept(s, h, rank, now, id) then s.images[id].(removed := Some(now))
           else s.images[id])
    && (forall d :: d in t.files <==> d in s.files && Used(s, h, rank, now, d))
    && (forall d :: d in t.files ==> t.files[d] == s.files[d])
  }

  lemma PrunedShrinks(s: Store, h: History, rank: Text -> nat, now: real, t: Store)
    requires AllRanked(s, rank) && Pruned(s, h, rank, now, t) && HashesNameManifests(s)
    ensures Shrinks(s, t) && AllRanked(t, rank)
  {
    assert Shrinks(s, t);
    forall project
      ensures Ranked(t, project, rank)
    {
      RankedShrinks(s, t, project, rank);
    }
  }

  /** Safe: every image that stays live still has every blob it reaches. */
  lemma PruneIsSafe(s: Store, h: History, rank: Text -> nat, now: real, t: Store, id: int)
    requires AllRanked(s, rank) && Pruned(s, h, rank, now, t) && HashesNameManifests(s) && AllRanked(t, rank)
    requires Live(t, id)
    ensures var row := t.images[id];
      && Intact(t, row.project, rank, row.manifest)
      && Refs(t, row.project, rank, row.manifest) == Refs(s, row.project, rank, row.manifest)
      && Refs(t, row.project, rank, row.manifest) <= t.files.Keys
  {
    PrunedShrinks(s, h, rank, now, t);
    assert Kept(s, h, rank, now, id);
    var row := s.images[id];
    RefsAreFiles(s, row.project, rank, row.manifest);
    forall d | d in Refs(s, row.project, rank, row.manifest)
      ensures d in t.files
    {
      assert Used(s, h, rank, now, d);
    }
    IntactSurvives(s, t, row.project, rank, row.manifest);
  }

  /** What an intact image reaches are files. */
  lemma {:induction false} RefsAreFiles(s: Store, project: string, rank: Text -> nat, t: Text)
    requires Ranked(s, project, rank) && Intact(s, project, rank, t)
    ensures Refs(s, project, rank, t) <= s.files.Keys
    decreases rank(t), 1
  {
    if s.parse(t).value.Index? {
      RefsOfAllAreFiles(s, project, rank, t, s.parse(t).value.manifests);
    }
  }

  lemma {:induction false} RefsOfAllAreFiles(s: Store, project: string, rank: Text -> nat, t: Text, ds: seq<Digest>)
    requires Ranked(s, project, rank) && Intact(s, project, rank, t) && s.parse(t).value.Index?
    requires forall d :: d in ds ==> d in s.parse(t).value.manifests
    ensures RefsOfAll(s, project, rank, t, ds) <= s.files.Keys
    decreases rank(t), 0, |ds|
  {
    if ds != [] {
      var d := ds[|ds| - 1];
      RefsOfAllAreFiles(s, project, rank, t, ds[..|ds| - 1]);
      assert Resolve(s, project, d).Some?;
      RefsAreFiles(s, project, rank, Resolve(s, project, d).value);
    }
  }

  lemma KeptTwice(s: Store, h: History, rank: Text -> nat, now: real, t: Store, id: int)
    requires AllRanked(s, rank) && Pruned(s, h, rank, now, t) && HashesNameManifests(s) && AllRanked(t, rank)
    ensures Kept(t, h, rank, now, id) <==> Kept(s, h, rank, now, id)
    ensures Live(t, id) ==> Kept(t, h, rank, now, id)
  {
    if Live(t, id) {
      PruneIsSafe(s, h, rank, now, t, id);
      assert Kept(s, h, rank, now, id);
      assert Newest(s.images, s.images[id]) <==> Newest(t.images, t.images[id]);
    }
  }

  lemma SameImagesTwice(s: Store, h: History, rank: Text -> nat, now: real, t: Store, u: Store)
    requires AllRanked(s, rank) && Pruned(s, h, rank, now, t) && HashesNameManifests(s)
    requires AllRanked(t, rank) && Pruned(t, h, rank, now, u)
    ensures u.images == t.images
  {
    hide Kept, Ranked;
    forall id | id in t.images
      ensures u.images[id] == t.images[id]
    {
      KeptTwice(s, h, rank, now, t, id);
    }
  }

  lemma UsedTwice(s: Store, h: History, rank: Text -> nat, now: real, t: Store, d: Digest)
    requires AllRanked(s, rank) && Pruned(s, h, rank, now, t) && HashesNameManifests(s) && AllRanked(t, rank)
    requires Used(s, h, rank, now, d)
    ensures Used(t, h, rank, now, d)
  {
    hide Intact, Refs, Ranked;
    var id :| Kept(s, h, rank, now, id) && d in Refs(s, s.images[id].project, rank, s.images[id].manifest);
    KeptTwice(s, h, rank, now, t, id);
    PruneIsSafe(s, h, rank, now, t, id);
  }

  lemma SameFilesTwice(s: Store, h: History, rank: Text -> nat, now: real, t: Store, u: Store)
    requires AllRanked(s, rank) && Pruned(s, h, rank, now, t) && HashesNameManifests(s)
    requires AllRanked(t, rank) && Pruned(t, h, rank, now, u)
    ensures u.files == t.files
  {
    hide Used, Kept, AllRanked, HashesNameManifests;
    forall d | d in t.files
      ensures d in u.files
    {
      UsedTwice(s, h, rank, now, t, d);
    }
  }

  /** Idempotent: a second prune at the same time changes nothing. */
  lemma PruneIsIdempotent(s: Store, h: History, rank: Text -> nat, now: real, t: Store, u: Store)
    requires AllRanked(s, rank) && Pruned(s, h, rank, now, t) && HashesNameManifests(s)
    requires AllRanked(t, rank) && Pruned(t, h, rank, now, u)
    ensures u.files == t.files && u.images == t.images
  {
    hide Pruned, AllRanked, HashesNameManifests;
    SameImagesTwice(s, h, rank, now, t, u);
    SameFilesTwice(s, h, rank, now, t, u);
  }

  // ---------------------------------------------------------------- the prune itself

  class Registry {
    var files: map<Digest, Blob>
    var images: map<int, ImageRow>
    const parse: Text -> Option<Manifest>
    const history: History

    ghost function S(): Store
      reads this
    {
      Store(files, images, parse)
    }

    constructor (files: map<Digest, Blob>, images: map<int, ImageRow>, parse: Text -> Option<Manifest>,
                 history: History)
      ensures this.files == files && this.images == images && this.parse == parse && this.history == history
    {
      this.files, this.images, this.parse, this.history := files, images, parse, history;
    }

    /** The sub-manifest query; any row with the hash will do. */
    method QueryManifest(project: string, digest: Digest) returns (r: Option<Text>)
      requires HashesNameManifests(S())
      ensures r == LookupImage(S(), project, digest)
    {
      if exists id :: id in images && images[id].project == project && images[id].hash == digest {
        var id :| id in images && images[id].project == project && images[id].hash == digest;
        assert RowFor(S(), project, digest, id);
        r := Some(images[id].manifest);
      } else {
        assert !exists id :: RowFor(S(), project, digest, id);
        r := None;
      }
    }

    /** The sub-manifests of one index: those stored as blobs are references themselves. */
    method PushIndex(project: string, ghost rank: Text -> nat, ghost t: Text, ds: seq<Digest>, stack0: seq<Text>,
                     refs0: set<Digest>)
      returns (stack: seq<Text>, refs: set<Digest>, missing: bool)
      requires HashesNameManifests(S()) && Ranked(S(), project, rank)
      requires parse(t) == Some(Index(ds))
      ensures missing ==> !Intact(S(), project, rank, t)
      ensures !missing ==>
        (StackIntact(S(), project, rank, stack) <==>
          StackIntact(S(), project, rank, stack0) && Intact(S(), project, rank, t))
      ensures !missing ==> refs + StackRefs(S(), project, rank, stack) ==
                           refs0 + StackRefs(S(), project, rank, stack0) + Refs(S(), project, rank, t)
      ensures !missing ==>
        StackWeight(S(), project, rank, stack) < StackWeight(S(), project, rank, stack0) + Weight(S(), project, rank, t)
    {
      ghost var s := S();
      hide Ranked, HashesNameManifests;
      stack, refs, missing := stack0, refs0, false;
      PushNone(s, project, rank, t, stack, refs);
      for k := 0 to |ds|
        invariant PushedSoFar(s, project, rank, t, ds[..k], stack0, refs0, stack, refs)
      {
        var d := ds[k];
        assert ds[..k + 1] == ds[..k] + [d];
        ghost var before := refs;
        var sub: Option<Text>;
        if d in files {
          refs := refs + {d};
          sub := if files[d].Readable? then Some(files[d].text) else None;
        } else {
          sub := QueryManifest(project, d);
        }
        assert sub == Resolve(s, project, d);
        if sub.None? {
          return stack, refs, true;
        }
        PushOne(s, project, rank, t, ds[..k], d, stack0, refs0, stack, before);
        stack := stack + [sub.value];
      }
      assert ds[..|ds|] == ds;
    }

    /** The blobs of one image manifest, up to the first that is missing. */
    method AddImage(ghost project: string, ghost rank: Text -> nat, ghost t: Text, config: Digest, layers: seq<Digest>,
                    refs0: set<Digest>)
      returns (refs: set<Digest>, missing: bool, stop: bool)
      requires Ranked(S(), project, rank) && parse(t) == Some(Image(config, layers))
      ensures missing <==> !Intact(S(), project, rank, t)
      ensures stop ==> missing
      ensures !missing ==> refs == refs0 + Refs(S(), project, rank, t)
    {
      refs := refs0;
      if config !in files {
        return refs, true, true;
      }
      refs := refs + {config};
      for k := 0 to |layers|
        invariant forall j :: 0 <= j < k ==> layers[j] in files
        invariant refs == refs0 + {config} + set l | l in layers[..k]
      {
        if layers[k] !in files {
          assert layers[k] in layers;
          return refs, true, false;
        }
        assert layers[..k + 1] == layers[..k] + [layers[k]];
        refs := refs + {layers[k]};
      }
      assert layers[..|layers|] == layers;
      missing, stop := false, false;
    }

    /** Everything reachable from an image's manifest. */
    method Traverse(project: string, ghost rank: Text -> nat, root: Text) returns (refs: set<Digest>, missing: bool)
      requires HashesNameManifests(S()) && Ranked(S(), project, rank)
      ensures missing <==> !Intact(S(), project, rank, root)
      ensures !missing ==> refs == Refs(S(), project, rank, root)
    {
      hide Ranked, HashesNameManifests, Intact, Refs, Weight, StackRefs, StackWeight, StackIntact;
      ghost var s := S();
      var stack := [root];
      refs, missing := {}, false;
      StackStart(s, project, rank, root);
      while stack != []
        invariant Traversing(s, project, rank, root, stack, refs, missing)
        decreases StackWeight(s, project, rank, stack)
      {
        var json, rest := stack[|stack| - 1], stack[..|stack| - 1];
        assert stack == rest + [json];
        StackPush(s, project, rank, rest, json);
        WeightPositive(s, project, rank, json);
        stack := rest;
        match parse(json) {
          case None =>
            UnparsedIsBroken(s, project, rank, json);
            return refs, true;
          case Some(Image(config, layers)) =>
            var m, stop;
            refs, m, stop := AddImage(project, rank, json, config, layers, refs);
            missing := missing || m;
            if stop {
              return refs, true;
            }
          case Some(Index(ds)) =>
            var m;
            stack, refs, m := PushIndex(project, rank, json, ds, stack, refs);
            missing := missing || m;
            if missing {
              return refs, true;
            }
        }
      }
      StackEmpty(s, project, rank);
    }

    /** Which image has the greatest id of its project and tag. */
    method IsNewest(row: ImageRow) returns (newest: bool)
      ensures newest <==> Newest(images, row)
    {
      newest := forall id :: id in images && images[id].project == row.project && images[id].tag == row.tag ==>
        images[id].id <= row.id;
    }

    /** One row: either its references are used, or the image is marked as removed. */
    method PruneRow(ghost s: Store, now: real, ghost rank: Text -> nat, ghost done: set<int>, id: int,
                    used0: set<Digest>)
      returns (used: set<Digest>)
      requires HashesNameManifests(s) && AllRanked(s, rank) && s.files == files && s.parse == parse
      requires Marked(s, history, rank, now, done, images) && UsedBy(s, history, rank, now, done, used0)
      requires Live(s, id) && id !in done
      modifies this`images
      ensures Marked(s, history, rank, now, done + {id}, images) && UsedBy(s, history, rank, now, done + {id}, used)
    {
      hide Ranked, Intact, Refs;
      var row := images[id];
      assert row == s.images[id];
      MarkedKeepsLookups(s, history, rank, now, done, S());
      var newest := IsNewest(row);
      var keep := Keeps(newest, history, row, now);
      var refs, missing := Traverse(row.project, rank, row.manifest);
      assert Newest(images, row) <==> Newest(s.images, row);
      SameFilesSameImage(s, S(), rank, row.project, row.manifest);
      used := used0;
      if keep && !missing {
        used := used + refs;
      } else {
        images := images[id := row.(removed := Some(now))];
      }
    }

    /** One prune over the rows of the live images, in the order the query gives them: mark
        every image that is not kept, then delete every file no kept image uses. */
    method PruneInner(now: real, rows: seq<int>, ghost rank: Text -> nat)
      requires HashesNameManifests(S()) && AllRanked(S(), rank) && LiveRows(S(), rows)
      modifies this
      ensures Pruned(old(S()), history, rank, now, S())
    {
      hide Ranked, Intact, Refs, Marked, UsedBy, Kept, HashesNameManifests;
      ghost var s := S();
      NothingMarked(s, history, rank, now);
      var used: set<Digest> := {};
      assert Ids(rows[..0]) == {};
      for k := 0 to |rows|
        invariant files == s.files
        invariant Marked(s, history, rank, now, Ids(rows[..k]), images)
        invariant UsedBy(s, history, rank, now, Ids(rows[..k]), used)
      {
        NextRow(s, rows, k);
        used := PruneRow(s, now, rank, Ids(rows[..k]), rows[k], used);
      }
      assert rows[..|rows|] == rows;
      files := map d | d in files && d in used :: files[d];
      AllMarked(s, history, rank, now, Ids(rows), used, S());
    }
  }

  ghost function Ids(rows: seq<int>): set<int> {
    set id | id in rows
  }

  /** What `WHERE removed IS NULL GROUP BY id` returns: every live image once. */
  ghost predicate LiveRows(s: Store, rows: seq<int>) {
    && (forall id :: id in rows <==> Live(s, id))
    && forall i, j :: 0 <= i < j < |rows| ==> rows[i] != rows[j]
  }

  lemma NextRow(s: Store, rows: seq<int>, k: nat)
    requires LiveRows(s, rows) && k < |rows|
    ensures Ids(rows[..k + 1]) == Ids(rows[..k]) + {rows[k]} && rows[k] !in Ids(rows[..k]) && Live(s, rows[k])
  {
    assert rows[..k + 1] == rows[..k] + [rows[k]];
    assert rows[k] in rows;
  }

  /** The sub-manifests handled so far are on the stack. */
  ghost predicate PushedSoFar(s: Store, project: string, rank: Text -> nat, t: Text, ds: seq<Digest>,
                              stack0: seq<Text>, refs0: set<Digest>, stack: seq<Text>, refs: set<Digest>)
    requires Ranked(s, project, rank) && s.parse(t).Some? && s.parse(t).value.Index?
    requires forall d :: d in ds ==> d in s.parse(t).value.manifests
  {
    && (StackIntact(s, project, rank, stack) <==>
         StackIntact(s, project, rank, stack0) && AllIntact(s, project, rank, ds))
    && refs + StackRefs(s, project, rank, stack) ==
         refs0 + StackRefs(s, project, rank, stack0) + RefsOfAll(s, project, rank, t, ds)
    && StackWeight(s, project, rank, stack) == StackWeight(s, project, rank, stack0) +
         WeightOfAll(s, project, rank, t, ds)
  }

  ghost predicate AllIntact(s: Store, project: string, rank: Text -> nat, ds: seq<Digest>)
    requires Ranked(s, project, rank)
  {
    forall d :: d in ds ==> Resolve(s, project, d).Some? && Intact(s, project, rank, Resolve(s, project, d).value)
  }

  lemma PushNone(s: Store, project: string, rank: Text -> nat, t: Text, stack: seq<Text>, refs: set<Digest>)
    requires Ranked(s, project, rank) && s.parse(t).Some? && s.parse(t).value.Index?
    ensures PushedSoFar(s, project, rank, t, [], stack, refs, stack, refs)
  {
  }

  lemma PushOne(s: Store, project: string, rank: Text -> nat, t: Text, ds: seq<Digest>, d: Digest,
                stack0: seq<Text>, refs0: set<Digest>, stack: seq<Text>, refs: set<Digest>)
    requires Ranked(s, project, rank) && s.parse(t).Some? && s.parse(t).value.Index?
    requires forall x :: x in ds + [d] ==> x in s.parse(t).value.manifests
    requires (forall x :: x in ds ==> x in ds + [d]) && PushedSoFar(s, project, rank, t, ds, stack0, refs0, stack, refs)
    requires Resolve(s, project, d).Some?
    ensures PushedSoFar(s, project, rank, t, ds + [d], stack0, refs0,
                        stack + [Resolve(s, project, d).value], refs + if d in s.files then {d} else {})
  {
    var u := Resolve(s, project, d).value;
    StackPush(s, project, rank, stack, u);
    var more := ds + [d];
    assert more[..|more| - 1] == ds && more[|more| - 1] == d;
    assert AllIntact(s, project, rank, more) <==> AllIntact(s, project, rank, ds) && Intact(s, project, rank, u);
  }

  lemma StackStart(s: Store, project: string, rank: Text -> nat, root: Text)
    requires Ranked(s, project, rank)
    ensures Traversing(s, project, rank, root, [root], {}, false)
  {
    StackEmpty(s, project, rank);
    StackPush(s, project, rank, [], root);
    assert [] + [root] == [root];
  }

  lemma StackEmpty(s: Store, project: string, rank: Text -> nat)
    requires Ranked(s, project, rank)
    ensures StackRefs(s, project, rank, []) == {} && StackIntact(s, project, rank, [])
  {
  }

  lemma WeightPositive(s: Store, project: string, rank: Text -> nat, t: Text)
    requires Ranked(s, project, rank)
    ensures Weight(s, project, rank, t) > 0
  {
  }

  lemma UnparsedIsBroken(s: Store, project: string, rank: Text -> nat, t: Text)
    requires Ranked(s, project, rank) && s.parse(t).None?
    ensures !Intact(s, project, rank, t)
  {
  }

  // ---------------------------------------------------------------- the rows gone through so far

  ghost predicate Marked(s: Store, h: History, rank: Text -> nat, now: real, done: set<int>, images: map<int, ImageRow>)
    requires AllRanked(s, rank)
  {
    && images.Keys == s.images.Keys
    && forall id :: id in s.images ==>
         images[id] == if id in done && !Kept(s, h, rank, now, id) then s.images[id].(removed := Some(now))
           else s.images[id]
  }

  ghost predicate UsedBy(s: Store, h: History, rank: Text -> nat, now: real, done: set<int>, used: set<Digest>)
    requires AllRanked(s, rank)
  {
    forall d :: d in used <==>
      exists id :: id in done && Kept(s, h, rank, now, id) &&
        d in Refs(s, s.images[id].project, rank, s.images[id].manifest)
  }

  lemma MarkedKeepsLookups(s: Store, h: History, rank: Text -> nat, now: real, done: set<int>, t: Store)
    requires AllRanked(s, rank) && Marked(s, h, rank, now, done, t.images) && HashesNameManifests(s)
    requires t.files == s.files && t.parse == s.parse
    ensures Shrinks(s, t) && HashesNameManifests(t) && AllRanked(t, rank)
  {
    assert Shrinks(s, t);
    forall project
      ensures Ranked(t, project, rank)
    {
      RankedShrinks(s, t, project, rank);
    }
    RankedShrinks(s, t, "", rank);
  }

  /** Marking images as removed does not change what an image reaches. */
  lemma SameFilesSameImage(s: Store, t: Store, rank: Text -> nat, project: string, m: Text)
    requires Shrinks(s, t) && t.files == s.files && HashesNameManifests(s) && HashesNameManifests(t)
    requires AllRanked(s, rank) && AllRanked(t, rank)
    ensures Intact(s, project, rank, m) <==> Intact(t, project, rank, m)
    ensures Intact(s, project, rank, m) ==> Refs(s, project, rank, m) == Refs(t, project, rank, m)
  {
    assert Ranked(s, project, rank) && Ranked(t, project, rank);
    if Intact(s, project, rank, m) {
      RefsAreFiles(s, project, rank, m);
      IntactSurvives(s, t, project, rank, m);
    }
    if Intact(t, project, rank, m) {
      assert Shrinks(t, s);
      RefsAreFiles(t, project, rank, m);
      IntactSurvives(t, s, project, rank, m);
    }
  }

  lemma NothingMarked(s: Store, h: History, rank: Text -> nat, now: real)
    requires AllRanked(s, rank)
    ensures Marked(s, h, rank, now, {}, s.images) && UsedBy(s, h, rank, now, {}, {})
  {
  }

  lemma AllMarked(s: Store, h: History, rank: Text -> nat, now: real, rows: set<int>, used: set<Digest>, t: Store)
    requires AllRanked(s, rank) && Marked(s, h, rank, now, rows, t.images) && UsedBy(s, h, rank, now, rows, used)
    requires forall id :: id in rows <==> Live(s, id)
    requires t.parse == s.parse && t.files == map d | d in s.files && d in used :: s.files[d]
    ensures Pruned(s, h, rank, now, t)
  {
    forall d: Digest
      ensures d in used <==> Used(s, h, rank, now, d)
    {
      assert Used(s, h, rank, now, d) ==> d in used;
    }
  }
}
