/** Image manifests and indexes, and what an image reaches: its blobs, through any depth of
    nested manifests that are stored as blobs or as images. */
module Manifests {
  import opened Wrappers

  type Digest = string
  type Text = string

  datatype Manifest = Image(config: Digest, layers: seq<Digest>) | Index(manifests: seq<Digest>)

  /** A file of the blob store; only text can be read as a sub-manifest. */
  datatype Blob = Readable(text: Text) | Unreadable

  datatype ImageRow = ImageRow(id: int, project: string, tag: string, hash: Digest, manifest: Text,
                               time: real, pin: bool, used: Option<real>, removed: Option<real>)

  /** The blob files, the table of images by id, and how a manifest is parsed. */
  datatype Store = Store(files: map<Digest, Blob>, images: map<int, ImageRow>, parse: Text -> Option<Manifest>)

  predicate RowFor(s: Store, project: string, digest: Digest, id: int) {
    id in s.images && s.images[id].project == project && s.images[id].hash == digest
  }

  /** Images are named by the hash of their manifest, so equal hashes mean equal manifests. */
  ghost predicate HashesNameManifests(s: Store) {
    forall i, j :: i in s.images && j in s.images && s.images[i].hash == s.images[j].hash
      ==> s.images[i].manifest == s.images[j].manifest
  }

  /** Removed images are looked up like any other. */
  ghost function LookupImage(s: Store, project: string, digest: Digest): Option<Text> {
    if exists id :: RowFor(s, project, digest, id) then
      var id :| RowFor(s, project, digest, id);
      Some(s.images[id].manifest)
    else None
  }

  /** The text of a sub-manifest: the blob file if there is one, else an image. */
  ghost function Resolve(s: Store, project: string, digest: Digest): Option<Text> {
    if digest in s.files then
      match s.files[digest]
      case Readable(t) => Some(t)
      case Unreadable => None
    else LookupImage(s, project, digest)
  }

  /** Content-addressed manifests cannot contain themselves: there is a rank that falls from
      every index to everything it names. */
  ghost predicate Ranked(s: Store, project: string, rank: Text -> nat) {
    forall t, d :: s.parse(t).Some? && s.parse(t).value.Index? && d in s.parse(t).value.manifests ==>
      && (d in s.files && s.files[d].Readable? ==> rank(s.files[d].text) < rank(t))
      && (LookupImage(s, project, d).Some? ==> rank(LookupImage(s, project, d).value) < rank(t))
  }

  /** Everything the manifest reaches is there and can be read. */
  ghost predicate Intact(s: Store, project: string, rank: Text -> nat, t: Text)
    requires Ranked(s, project, rank)
    decreases rank(t)
  {
    match s.parse(t)
    case None => false
    case Some(Image(config, layers)) => config in s.files && forall l :: l in layers ==> l in s.files
    case Some(Index(manifests)) =>
      forall d :: d in manifests ==>
        Resolve(s, project, d).Some? && Intact(s, project, rank, Resolve(s, project, d).value)
  }

  /** The blobs it reaches. */
  ghost function Refs(s: Store, project: string, rank: Text -> nat, t: Text): set<Digest>
    requires Ranked(s, project, rank)
    decreases rank(t), 2, 0
  {
    match s.parse(t)
    case None => {}
    case Some(Image(config, layers)) => {config} + (set l | l in layers)
    case Some(Index(manifests)) => RefsOfAll(s, project, rank, t, manifests)
  }

  ghost function RefsOfAll(s: Store, project: string, rank: Text -> nat, t: Text, ds: seq<Digest>): set<Digest>
    requires Ranked(s, project, rank) && s.parse(t).Some? && s.parse(t).value.Index?
    requires forall d :: d in ds ==> d in s.parse(t).value.manifests
    decreases rank(t), 1, |ds|
  {
    if ds == [] then {}
    else RefsOfAll(s, project, rank, t, ds[..|ds| - 1]) + RefsOfOne(s, project, rank, t, ds[|ds| - 1])
  }

  ghost function RefsOfOne(s: Store, project: string, rank: Text -> nat, t: Text, d: Digest): set<Digest>
    requires Ranked(s, project, rank) && s.parse(t).Some? && s.parse(t).value.Index?
    requires d in s.parse(t).value.manifests
    decreases rank(t), 0
  {
    (if d in s.files then {d} else {})
    + match Resolve(s, project, d)
      case Some(u) => Refs(s, project, rank, u)
      case None => {}
  }

  /** The size of the tree below a manifest, which bounds the traversal. */
  ghost function Weight(s: Store, project: string, rank: Text -> nat, t: Text): nat
    requires Ranked(s, project, rank)
    decreases rank(t), 1, 0
  {
    match s.parse(t)
    case Some(Index(manifests)) => 1 + WeightOfAll(s, project, rank, t, manifests)
    case _ => 1
  }

  ghost function WeightOfAll(s: Store, project: string, rank: Text -> nat, t: Text, ds: seq<Digest>): nat
    requires Ranked(s, project, rank) && s.parse(t).Some? && s.parse(t).value.Index?
    requires forall d :: d in ds ==> d in s.parse(t).value.manifests
    decreases rank(t), 0, |ds|
  {
    if ds == [] then 0
    else
      WeightOfAll(s, project, rank, t, ds[..|ds| - 1])
      + match Resolve(s, project, ds[|ds| - 1])
        case Some(u) => Weight(s, project, rank, u)
        case None => 0
  }

  // ---------------------------------------------------------------- stacks of manifests

  ghost function StackRefs(s: Store, project: string, rank: Text -> nat, stack: seq<Text>): set<Digest>
    requires Ranked(s, project, rank)
  {
    if stack == [] then {}
    else StackRefs(s, project, rank, stack[..|stack| - 1]) + Refs(s, project, rank, stack[|stack| - 1])
  }

  ghost function StackWeight(s: Store, project: string, rank: Text -> nat, stack: seq<Text>): nat
    requires Ranked(s, project, rank)
  {
    if stack == [] then 0
    else StackWeight(s, project, rank, stack[..|stack| - 1]) + Weight(s, project, rank, stack[|stack| - 1])
  }

  ghost predicate StackIntact(s: Store, project: string, rank: Text -> nat, stack: seq<Text>)
    requires Ranked(s, project, rank)
  {
    forall k :: 0 <= k < |stack| ==> Intact(s, project, rank, stack[k])
  }

  /** How far the traversal of `root` has come. */
  ghost predicate Traversing(s: Store, project: string, rank: Text -> nat, root: Text, stack: seq<Text>,
                             refs: set<Digest>, missing: bool)
    requires Ranked(s, project, rank)
  {
    if missing then !Intact(s, project, rank, root)
    else
      && (Intact(s, project, rank, root) <==> StackIntact(s, project, rank, stack))
      && refs + StackRefs(s, project, rank, stack) == Refs(s, project, rank, root)
  }

  lemma StackPush(s: Store, project: string, rank: Text -> nat, stack: seq<Text>, t: Text)
    requires Ranked(s, project, rank)
    ensures StackRefs(s, project, rank, stack + [t]) == StackRefs(s, project, rank, stack) + Refs(s, project, rank, t)
    ensures StackWeight(s, project, rank, stack + [t]) ==
      StackWeight(s, project, rank, stack) + Weight(s, project, rank, t)
    ensures StackIntact(s, project, rank, stack + [t]) <==>
      StackIntact(s, project, rank, stack) && Intact(s, project, rank, t)
  {
    var more := stack + [t];
    assert more[..|more| - 1] == stack && more[|more| - 1] == t;
    assert forall k :: 0 <= k < |stack| ==> more[k] == stack[k];
  }

  // ---------------------------------------------------------------- fewer files

  /** The same images, and some of the files. */
  ghost predicate Shrinks(s: Store, t: Store) {
    && t.parse == s.parse && t.files.Keys <= s.files.Keys
    && (forall d :: d in t.files ==> t.files[d] == s.files[d])
    && t.images.Keys == s.images.Keys
    && forall id :: id in s.images ==> t.images[id] == s.images[id].(removed := t.images[id].removed)
  }

  lemma LookupShrinks(s: Store, t: Store, project: string, digest: Digest)
    requires Shrinks(s, t) && HashesNameManifests(s)
    ensures LookupImage(s, project, digest) == LookupImage(t, project, digest)
  {
    assert forall id :: RowFor(s, project, digest, id) <==> RowFor(t, project, digest, id);
  }

  lemma RankedShrinks(s: Store, t: Store, project: string, rank: Text -> nat)
    requires Shrinks(s, t) && HashesNameManifests(s) && Ranked(s, project, rank)
    ensures Ranked(t, project, rank) && HashesNameManifests(t)
  {
    forall x, d | t.parse(x).Some? && t.parse(x).value.Index? && d in t.parse(x).value.manifests
      ensures d in t.files && t.files[d].Readable? ==> rank(t.files[d].text) < rank(x)
      ensures LookupImage(t, project, d).Some? ==> rank(LookupImage(t, project, d).value) < rank(x)
    {
      LookupShrinks(s, t, project, d);
    }
  }

  lemma {:induction false} RefsInAll(s: Store, project: string, rank: Text -> nat, t: Text, ds: seq<Digest>, d: Digest)
    requires Ranked(s, project, rank) && s.parse(t).Some? && s.parse(t).value.Index?
    requires (forall x :: x in ds ==> x in s.parse(t).value.manifests) && d in ds
    ensures RefsOfOne(s, project, rank, t, d) <= RefsOfAll(s, project, rank, t, ds)
    decreases |ds|
  {
    if d != ds[|ds| - 1] {
      assert ds == ds[..|ds| - 1] + [ds[|ds| - 1]];
      RefsInAll(s, project, rank, t, ds[..|ds| - 1], d);
    }
  }

  /** An image whose blobs are all kept is as intact as before, and reaches the same blobs. */
  lemma {:induction false} IntactSurvives(s: Store, t: Store, project: string, rank: Text -> nat, m: Text)
    requires Shrinks(s, t) && HashesNameManifests(s) && Ranked(s, project, rank) && Ranked(t, project, rank)
    requires Intact(s, project, rank, m) && Refs(s, project, rank, m) <= t.files.Keys
    ensures Intact(t, project, rank, m) && Refs(t, project, rank, m) == Refs(s, project, rank, m)
    decreases rank(m), 1
  {
    if s.parse(m).value.Index? {
      var ds := s.parse(m).value.manifests;
      AllSurvive(s, t, project, rank, m, ds);
    }
  }

  lemma {:induction false} AllSurvive(s: Store, t: Store, project: string, rank: Text -> nat, m: Text, ds: seq<Digest>)
    requires Shrinks(s, t) && HashesNameManifests(s) && Ranked(s, project, rank) && Ranked(t, project, rank)
    requires Intact(s, project, rank, m) && Refs(s, project, rank, m) <= t.files.Keys && s.parse(m).value.Index?
    requires forall d :: d in ds ==> d in s.parse(m).value.manifests
    ensures forall d :: d in ds ==>
      Resolve(t, project, d).Some? && rank(Resolve(t, project, d).value) < rank(m) &&
        Intact(t, project, rank, Resolve(t, project, d).value)
    ensures RefsOfAll(t, project, rank, m, ds) == RefsOfAll(s, project, rank, m, ds)
    decreases rank(m), 0, |ds|
  {
    if ds != [] {
      var d := ds[|ds| - 1];
      assert ds == ds[..|ds| - 1] + [d];
      AllSurvive(s, t, project, rank, m, ds[..|ds| - 1]);
      RefsInAll(s, project, rank, m, s.parse(m).value.manifests, d);
      LookupShrinks(s, t, project, d);
      assert Resolve(s, project, d).Some?;
      IntactSurvives(s, t, project, rank, Resolve(s, project, d).value);
    }
  }
}
