/** Resumable blob uploads: the requests of the registry API on the upload table, the upload
    files and the blob store, as functions on the state. */
module Uploads {
  import opened Bytes
  import opened Wrappers

  type Digest = string
  type Uuid = nat

  const UPLOAD_TIMEOUT_SECS: nat := 10 * 60 * 60

  /** What is kept under the lock of an upload; the running hash is the bytes it has absorbed. */
  datatype Inner = Inner(count: nat, absorbed: seq<Byte>)

  datatype Upload = Upload(shadowRange: nat, lastActivity: nat, inner: Option<Inner>)

  /** The state of the registry. Files in the upload directory are named by uuid. */
  datatype State = State(blobs: map<Digest, seq<Byte>>, uploads: map<Uuid, Upload>, files: map<Uuid, seq<Byte>>)

  /** A request body as it comes in: frames, ending cleanly, by an error or by silence. */
  datatype End = Complete | Broken | Idle
  datatype Body = Body(frames: seq<seq<Byte>>, end: End)

  /** `Content-Range`, which is rejected before the handler when it ends before it starts. */
  datatype RawRange = RawRange(start: nat, end: nat)
  type Range = r: RawRange | r.start <= r.end witness RawRange(0, 0)

  datatype Response =
    | Accepted(count: nat)
    | Created(digest: Digest)
    | Unavailable
    | NotFound
    | Concurrent
    | BadRange
    | BadSize
    | BadDigest
    | BadBody
    | Failed

  /** The configuration: the hash function, and whether the service is read only. */
  datatype Config = Config(hash: seq<Byte> -> Digest, readOnly: bool)

  /** Letters and digits after the algorithm. */
  predicate IsDockerHash(d: Digest) {
    "sha256:" <= d && forall k :: 7 <= k < |d| ==>
      ('0' <= d[k] <= '9' || 'A' <= d[k] <= 'Z' || 'a' <= d[k] <= 'z')
  }

  /** ASCII letters and digits, by their codes. */
  predicate IsPlain(c: char) {
    48 <= c as int <= 57 || 65 <= c as int <= 90 || 97 <= c as int <= 122
  }

  const HEX: string := "0123456789abcdef"

  /** A digest is the algorithm and letters and digits, so it never names a place outside its directory;
      every digest in hexadecimal is one. */
  lemma DigestIsPlain(d: Digest)
    ensures IsDockerHash(d) <==> |d| >= 7 && d[..7] == "sha256:" && forall c :: c in d[7..] ==> IsPlain(c)
    ensures IsDockerHash(d) ==> '/' !in d && '.' !in d
    ensures (forall c :: c in d ==> c in HEX) ==> IsDockerHash("sha256:" + d)
  {
    if IsDockerHash(d) {
      assert d == "sha256:" + d[7..];
    }
    var h := "sha256:" + d;
    assert forall k :: 7 <= k < |h| ==> h[k] in d;
    assert forall k :: 7 <= k < |d| ==> d[k] in d[7..];
  }

  // ---------------------------------------------------------------- requests

  datatype Request =
    | Post(uuid: Uuid, now: nat)
    | PostWhole(uuid: Uuid, digest: Digest, body: Body)
    | Patch(uuid: Uuid, length: Option<nat>, range: Option<Range>, body: Body, now: nat)
    | Put(uuid: Uuid, digest: Digest, length: Option<nat>, range: Option<Range>, body: Body, now: nat)
    | Reap(now: nat)
    | Sweep(used: set<Digest>)

  /** The checks on length and range before a body is taken: the expected size, if any. */
  function Expected(start: nat, length: Option<nat>, range: Option<Range>): Result<Option<nat>, Response> {
    match range
    case None => Ok(length)
    case Some(r) =>
      if r.start != start then Err(BadRange)
      else if length.Some? && r.end - r.start != length.value then Err(BadRange)
      else Ok(Some(r.end - r.start))
  }

  /** `handle_upload`: every frame goes to the file, the hash, the shadow range and the count. */
  function Absorb(s: State, uuid: Uuid, i: Inner, frames: seq<seq<Byte>>, now: nat): (State, Inner)
    requires uuid in s.uploads && uuid in s.files
  {
    var b := Concat(frames);
    var u := s.uploads[uuid];
    (s.(files := s.files[uuid := s.files[uuid] + b],
        uploads := s.uploads[uuid := u.(shadowRange := u.shadowRange + |b|,
                                        lastActivity := if frames == [] then u.lastActivity else now)]),
     Inner(i.count + |b|, i.absorbed + b))
  }

  function SetInner(s: State, uuid: Uuid, i: Option<Inner>): State
    requires uuid in s.uploads
  {
    s.(uploads := s.uploads[uuid := s.uploads[uuid].(inner := i)])
  }

  predicate SizeOk(expected: Option<nat>, got: nat) {
    expected.Some? ==> got == expected.value
  }

  function DoPost(c: Config, s: State, uuid: Uuid, now: nat): (State, Response) {
    if c.readOnly then (s, Unavailable)
    else if uuid in s.files then (s, Failed)
    else (s.(files := s.files[uuid := []], uploads := s.uploads[uuid := Upload(0, now, Some(Inner(0, [])))]),
      Accepted(0))
  }

  function DoPostWhole(c: Config, s: State, uuid: Uuid, digest: Digest, body: Body): (State, Response) {
    if c.readOnly then (s, Unavailable)
    else if !IsDockerHash(digest) then (s, BadDigest)
    else if digest in s.blobs then (s, Created(digest))
    else if uuid in s.files then (s, Failed)
    else
      var content := Concat(body.frames);
      match body.end
      case Broken => (s.(files := s.files[uuid := content]), BadBody)
      case Idle => (s, BadBody)
      case Complete =>
        if c.hash(content) != digest then (s, BadDigest)
        else (s.(blobs := s.blobs[digest := content]), Created(digest))
  }

  function DoPatch(c: Config, s: State, uuid: Uuid, length: Option<nat>, range: Option<Range>, body: Body,
                   now: nat): (State, Response) {
    if c.readOnly then (s, Unavailable)
    else if uuid !in s.uploads then (s, NotFound)
    else if s.uploads[uuid].inner.None? || uuid !in s.files then (s, Concurrent)
    else
      var i := s.uploads[uuid].inner.value;
      match Expected(i.count, length, range)
      case Err(e) => (s, e)
      case Ok(expected) =>
        var (t, j) := Absorb(s, uuid, i, body.frames, now);
        var u := SetInner(t, uuid, Some(j));
        if body.end != Complete then (u, BadBody)
        else if !SizeOk(expected, j.count - i.count) then (u, BadSize)
        else (u, Accepted(j.count))
  }

  function DoPut(c: Config, s: State, uuid: Uuid, digest: Digest, length: Option<nat>, range: Option<Range>, body: Body,
                 now: nat): (State, Response) {
    if uuid !in s.uploads then (s, NotFound)
    else if s.uploads[uuid].inner.None? || uuid !in s.files then (s, Concurrent)
    else
      var i := s.uploads[uuid].inner.value;
      var taken := SetInner(s, uuid, None);
      match Expected(i.count, length, range)
      case Err(e) => (taken, e)
      case Ok(expected) =>
        var (t, j) := Absorb(taken, uuid, i, body.frames, now);
        if body.end != Complete then (t, BadBody)
        else if !SizeOk(expected, j.count - i.count) then (t, BadSize)
        else
          var gone := t.(uploads := t.uploads - {uuid});
          var actual := c.hash(j.absorbed);
          if actual != digest then (gone, BadDigest)
          else (gone.(blobs := gone.blobs[actual := gone.files[uuid]], files := gone.files - {uuid}), Created(actual))
  }

  predicate Stale(u: Upload, now: nat) {
    now >= u.lastActivity && now - u.lastActivity >= UPLOAD_TIMEOUT_SECS
  }

  function StaleUploads(s: State, now: nat): set<Uuid> {
    set u | u in s.uploads && Stale(s.uploads[u], now)
  }

  /** The reaper removes stale uploads with their files. */
  function DoReap(s: State, now: nat): State {
    var stale := StaleUploads(s, now);
    s.(uploads := s.uploads - stale, files := s.files - stale)
  }

  function Handle(c: Config, s: State, q: Request): (State, Response) {
    match q
    case Post(u, now) => DoPost(c, s, u, now)
    case PostWhole(u, d, b) => DoPostWhole(c, s, u, d, b)
    case Patch(u, l, r, b, now) => DoPatch(c, s, u, l, r, b, now)
    case Put(u, d, l, r, b, now) => DoPut(c, s, u, d, l, r, b, now)
    case Reap(now) => (DoReap(s, now), Accepted(0))
    case Sweep(used) => (s.(blobs := map d | d in s.blobs && d in used :: s.blobs[d]), Accepted(0))
  }

  // ---------------------------------------------------------------- invariants

  /** Every blob is named by the hash of its content. */
  predicate ContentAddressed(c: Config, s: State) {
    forall d :: d in s.blobs ==> c.hash(s.blobs[d]) == d
  }

  /** The file, the count, the shadow range and the running hash of a live upload agree. */
  predicate UploadOk(s: State, uuid: Uuid)
    requires uuid in s.uploads
  {
    var u := s.uploads[uuid];
    && uuid in s.files && u.shadowRange == |s.files[uuid]|
    && (u.inner.Some? ==> u.inner.value.count == |s.files[uuid]| && u.inner.value.absorbed == s.files[uuid])
  }

  ghost predicate Valid(c: Config, s: State) {
    ContentAddressed(c, s) && forall u :: u in s.uploads ==> UploadOk(s, u)
  }

  const EMPTY: State := State(map[], map[], map[])

  lemma AbsorbOk(s: State, uuid: Uuid, i: Inner, frames: seq<seq<Byte>>, now: nat)
    requires uuid in s.uploads && UploadOk(s, uuid) && i.count == |s.files[uuid]| && i.absorbed == s.files[uuid]
    requires forall u :: u in s.uploads ==> UploadOk(s, u)
    ensures var (t, j) := Absorb(s, uuid, i, frames, now);
      && t.blobs == s.blobs && t.uploads.Keys == s.uploads.Keys && t.files[uuid] == s.files[uuid] + Concat(frames)
      && j.count == |t.files[uuid]| && j.absorbed == t.files[uuid]
      && (t.uploads[uuid].inner == s.uploads[uuid].inner)
      && t.uploads[uuid].shadowRange == |t.files[uuid]|
      && forall u :: u in t.uploads && u != uuid ==> UploadOk(t, u)
  {
    var (t, j) := Absorb(s, uuid, i, frames, now);
    forall u | u in t.uploads && u != uuid
      ensures UploadOk(t, u)
    {
      assert UploadOk(s, u);
    }
  }

  lemma PatchValid(c: Config, s: State, q: Request)
    requires Valid(c, s) && q.Patch?
    ensures Valid(c, Handle(c, s, q).0)
  {
    if !c.readOnly && q.uuid in s.uploads && s.uploads[q.uuid].inner.Some? {
      assert UploadOk(s, q.uuid);
      var i := s.uploads[q.uuid].inner.value;
      AbsorbOk(s, q.uuid, i, q.body.frames, q.now);
    }
  }

  lemma PutValid(c: Config, s: State, q: Request)
    requires Valid(c, s) && q.Put?
    ensures Valid(c, Handle(c, s, q).0)
  {
    if q.uuid in s.uploads && s.uploads[q.uuid].inner.Some? {
      assert UploadOk(s, q.uuid);
      var i, taken := s.uploads[q.uuid].inner.value, SetInner(s, q.uuid, None);
      assert forall u :: u in taken.uploads && UploadOk(s, u) ==> UploadOk(taken, u);
      assert UploadOk(taken, q.uuid);
      AbsorbOk(taken, q.uuid, i, q.body.frames, q.now);
    }
  }

  lemma OtherValid(c: Config, s: State, q: Request)
    requires Valid(c, s) && !q.Patch? && !q.Put?
    ensures Valid(c, Handle(c, s, q).0)
  {
    var t := Handle(c, s, q).0;
    forall u | u in t.uploads
      ensures UploadOk(t, u)
    {
      assert u in s.uploads ==> UploadOk(s, u);
    }
  }

  // ---------------------------------------------------------------- runs

  function HandleAll(c: Config, s: State, qs: seq<Request>): State
    decreases |qs|
  {
    if qs == [] then s else HandleAll(c, Handle(c, s, qs[0]).0, qs[1..])
  }

  lemma RequestValid(c: Config, s: State, q: Request)
    requires Valid(c, s)
    ensures Valid(c, Handle(c, s, q).0)
  {
    hide Valid, Handle;
    if q.Patch? {
      PatchValid(c, s, q);
    } else if q.Put? {
      PutValid(c, s, q);
    } else {
      OtherValid(c, s, q);
    }
  }

  /** Over every run of posts, patches, puts, reaps and sweeps, in any order and with any
      failures, the blob store stays content-addressed and every upload consistent. */
  lemma {:induction false} EveryRunIsValid(c: Config, s: State, qs: seq<Request>)
    requires Valid(c, s)
    ensures Valid(c, HandleAll(c, s, qs))
    decreases |qs|
  {
    if qs != [] {
      RequestValid(c, s, qs[0]);
      EveryRunIsValid(c, Handle(c, s, qs[0]).0, qs[1..]);
    }
  }

  /** A put that answers with a digest has stored exactly what was uploaded, under that digest;
      a put whose body is complete and of the expected size fails only on the digest. */
  lemma PutStoresUpload(c: Config, s: State, uuid: Uuid, digest: Digest, length: Option<nat>, range: Option<Range>,
                        body: Body, now: nat)
    requires Valid(c, s) && uuid in s.uploads && s.uploads[uuid].inner.Some?
    ensures var (t, r) := DoPut(c, s, uuid, digest, length, range, body, now);
      var content := s.files[uuid] + Concat(body.frames);
      var expected := Expected(|s.files[uuid]|, length, range);
      && (r.Created? <==>
           body.end == Complete && expected.Ok? && SizeOk(expected.value, |Concat(body.frames)|) &&
             c.hash(content) == digest)
      && (r.Created? ==> r.digest == digest && t.blobs == s.blobs[digest := content])
      && (r.Created? ==> uuid !in t.uploads && uuid !in t.files)
      && (!r.Created? ==> t.blobs == s.blobs)
  {
    assert UploadOk(s, uuid);
  }

  /** A patch appends its frames, also when it fails half way; it is accepted exactly when the
      body is complete and has the announced size and place. */
  lemma PatchAppends(c: Config, s: State, uuid: Uuid, length: Option<nat>, range: Option<Range>, body: Body, now: nat)
    requires Valid(c, s) && !c.readOnly && uuid in s.uploads && s.uploads[uuid].inner.Some?
    ensures var (t, r) := DoPatch(c, s, uuid, length, range, body, now);
      var expected := Expected(|s.files[uuid]|, length, range);
      && t.blobs == s.blobs && uuid in t.files
      && t.files[uuid] == (if expected.Ok? then s.files[uuid] + Concat(body.frames) else s.files[uuid])
      && (r.Accepted? <==> body.end == Complete && expected.Ok? && SizeOk(expected.value, |Concat(body.frames)|))
      && (r.Accepted? ==> r.count == |t.files[uuid]|)
  {
    assert UploadOk(s, uuid);
  }

  /** A posted upload is empty, and takes everything with the first patch. */
  lemma PostThenPatch(c: Config, s: State, uuid: Uuid, now: nat, frames: seq<seq<Byte>>, later: nat)
    requires Valid(c, s) && !c.readOnly && uuid !in s.files
    ensures var (t, r) := Handle(c, s, Post(uuid, now));
      && r == Accepted(0) && uuid in t.uploads && t.uploads[uuid].lastActivity == now
      && var (u, answer) := Handle(c, t, Patch(uuid, None, None, Body(frames, Complete), later));
      && answer == Accepted(|Concat(frames)|) && uuid in u.files && u.files[uuid] == Concat(frames)
  {
    var t := DoPost(c, s, uuid, now).0;
    assert forall u :: u in s.uploads ==> UploadOk(s, u) && u != uuid;
    assert Valid(c, t);
    PatchAppends(c, t, uuid, None, None, Body(frames, Complete), later);
  }

  predicate Matches(c: Config, digest: Digest, body: Body) {
    body.end == Complete && c.hash(Concat(body.frames)) == digest
  }

  /** A blob pushed in one request is stored exactly if its digest is one and right, unless it is there
      already; a body that breaks off, but not one that falls silent, leaves a file without an upload. */
  lemma WholeLeavesIff(c: Config, s: State, uuid: Uuid, digest: Digest, body: Body)
    requires Valid(c, s) && uuid !in s.files
    ensures var (t, r) := Handle(c, s, PostWhole(uuid, digest, body));
      && t.uploads == s.uploads
      && (r == Created(digest) <==>
           !c.readOnly && IsDockerHash(digest) && (digest in s.blobs || Matches(c, digest, body)))
      && (r != Created(digest) ==> t.blobs == s.blobs)
      && (r == Created(digest) && digest !in s.blobs ==> t.blobs == s.blobs[digest := Concat(body.frames)])
      && (uuid in t.files <==> !c.readOnly && IsDockerHash(digest) && digest !in s.blobs && body.end == Broken)
      && uuid !in t.uploads
  {
    assert uuid in s.uploads ==> UploadOk(s, uuid);
  }

  /** A sweep leaves exactly the blobs in use. */
  lemma SweepLeavesUsed(c: Config, s: State, used: set<Digest>, d: Digest)
    ensures var t := Handle(c, s, Sweep(used)).0;
      && (d in t.blobs <==> d in s.blobs && d in used) && (d in t.blobs ==> t.blobs[d] == s.blobs[d])
      && t.uploads == s.uploads && t.files == s.files
  {
  }

  /** Requests for one upload leave every other upload alone. */
  lemma UploadsAreSeparate(c: Config, s: State, q: Request, other: Uuid)
    requires other in s.uploads && other in s.files && !q.Reap? && (q.Sweep? || q.uuid != other)
    ensures var t := Handle(c, s, q).0;
      other in t.uploads && t.uploads[other] == s.uploads[other] && other in t.files && t.files[other] == s.files[other]
  {
    if q.Patch? {
      PatchIsSeparate(c, s, q, other);
    } else if q.Put? {
      PutIsSeparate(c, s, q, other);
    }
  }

  lemma PatchIsSeparate(c: Config, s: State, q: Request, other: Uuid)
    requires other in s.uploads && other in s.files && q.Patch? && q.uuid != other
    ensures var t := Handle(c, s, q).0;
      other in t.uploads && t.uploads[other] == s.uploads[other] && other in t.files && t.files[other] == s.files[other]
  {
    hide Valid, UploadOk;
  }

  lemma PutIsSeparate(c: Config, s: State, q: Request, other: Uuid)
    requires other in s.uploads && other in s.files && q.Put? && q.uuid != other
    ensures var t := Handle(c, s, q).0;
      other in t.uploads && t.uploads[other] == s.uploads[other] && other in t.files && t.files[other] == s.files[other]
  {
    hide Valid, UploadOk;
  }

  // ---------------------------------------------------------------- puts that end an upload

  /** The put takes the upload off the list: the body is complete and has the announced size and place. */
  predicate PutFinishes(size: nat, length: Option<nat>, range: Option<Range>, body: Body) {
    var expected := Expected(size, length, range);
    expected.Ok? && body.end == Complete && SizeOk(expected.value, |Concat(body.frames)|)
  }

  /** Listed and on disk, but its inner state was taken by a put. */
  predicate Dead(s: State, uuid: Uuid) {
    uuid in s.uploads && s.uploads[uuid].inner.None? && uuid in s.files
  }

  /** On disk but not listed. */
  predicate Orphan(s: State, uuid: Uuid) {
    uuid !in s.uploads && uuid in s.files
  }

  /** A put leaves the upload dead exactly if it does not finish it, and leaves the file without an
      upload exactly if it finishes it under another digest. */
  lemma PutLeavesIff(c: Config, s: State, uuid: Uuid, digest: Digest, length: Option<nat>, range: Option<Range>,
                     body: Body, now: nat)
    requires Valid(c, s) && uuid in s.uploads && s.uploads[uuid].inner.Some?
    ensures var t := DoPut(c, s, uuid, digest, length, range, body, now).0;
      var finishes := PutFinishes(|s.files[uuid]|, length, range, body);
      && (uuid in t.uploads <==> !finishes) && (Dead(t, uuid) <==> !finishes)
      && (Orphan(t, uuid) <==> finishes && c.hash(s.files[uuid] + Concat(body.frames)) != digest)
  {
    assert UploadOk(s, uuid);
  }

  /** What the request number `k` of a run is answered. */
  function AnswerAt(c: Config, s: State, qs: seq<Request>, k: nat): Response
    requires k < |qs|
    decreases k
  {
    var (t, r) := Handle(c, s, qs[0]);
    if k == 0 then r else AnswerAt(c, t, qs[1..], k - 1)
  }

  /** A chunk or the end of the upload, which is not refused for being sent in read-only mode. */
  predicate Writes(c: Config, q: Request, uuid: Uuid) {
    (q.Patch? && !c.readOnly && q.uuid == uuid) || (q.Put? && q.uuid == uuid)
  }

  predicate NoneStale(u: Upload, qs: seq<Request>) {
    forall k :: 0 <= k < |qs| && qs[k].Reap? ==> !Stale(u, qs[k].now)
  }

  lemma DeadStays(c: Config, s: State, uuid: Uuid, q: Request)
    requires Dead(s, uuid) && (q.Reap? ==> !Stale(s.uploads[uuid], q.now))
    ensures var (t, r) := Handle(c, s, q);
      && Dead(t, uuid) && t.uploads[uuid] == s.uploads[uuid] && t.files[uuid] == s.files[uuid]
      && (Writes(c, q, uuid) ==> r == Concurrent)
  {
    if !q.Reap? && (q.Sweep? || q.uuid != uuid) { UploadsAreSeparate(c, s, q, uuid); }
  }

  /** Until a reap finds it stale, no requests change a dead upload or its file, and every chunk and
      every put for it is answered as concurrent. */
  lemma {:induction false} DeadForever(c: Config, s: State, uuid: Uuid, qs: seq<Request>)
    requires Dead(s, uuid) && NoneStale(s.uploads[uuid], qs)
    ensures var t := HandleAll(c, s, qs);
      Dead(t, uuid) && t.uploads[uuid] == s.uploads[uuid] && t.files[uuid] == s.files[uuid]
    ensures forall k :: 0 <= k < |qs| && Writes(c, qs[k], uuid) ==> AnswerAt(c, s, qs, k) == Concurrent
    decreases |qs|
  {
    hide Handle, Dead, Stale, Writes;
    if qs != [] {
      var t := Handle(c, s, qs[0]).0;
      DeadStays(c, s, uuid, qs[0]);
      DeadHas(s, uuid);
      DeadHas(t, uuid);
      DeadForever(c, t, uuid, qs[1..]);
      forall k | 0 <= k < |qs| && Writes(c, qs[k], uuid) ensures AnswerAt(c, s, qs, k) == Concurrent {
        if k > 0 { assert qs[1..][k - 1] == qs[k]; }
      }
    }
  }

  lemma DeadHas(s: State, uuid: Uuid)
    requires Dead(s, uuid)
    ensures uuid in s.uploads && uuid in s.files
  {
  }

  /** A put that does not finish a live upload ends it: until a reap finds it stale, whatever else is
      requested, it stays listed as it is and takes neither a chunk nor another put. */
  lemma FailedPutEndsUpload(c: Config, s: State, uuid: Uuid, digest: Digest, length: Option<nat>, range: Option<Range>,
                            body: Body, now: nat, qs: seq<Request>)
    requires Valid(c, s) && uuid in s.uploads && s.uploads[uuid].inner.Some?
    ensures var t := DoPut(c, s, uuid, digest, length, range, body, now).0;
      && (uuid in t.uploads <==> !PutFinishes(|s.files[uuid]|, length, range, body))
      && (uuid in t.uploads && NoneStale(t.uploads[uuid], qs) ==>
            && var u := HandleAll(c, t, qs);
            && uuid in u.uploads && u.uploads[uuid] == t.uploads[uuid] && uuid in u.files &&
                 u.files[uuid] == t.files[uuid]
            && forall k :: 0 <= k < |qs| && Writes(c, qs[k], uuid) ==> AnswerAt(c, t, qs, k) == Concurrent)
  {
    assert UploadOk(s, uuid);
    hide DoPut, PutFinishes, Handle, Writes, Stale;
    PutLeavesIff(c, s, uuid, digest, length, range, body, now);
    var t := DoPut(c, s, uuid, digest, length, range, body, now).0;
    if uuid in t.uploads && NoneStale(t.uploads[uuid], qs) { DeadForever(c, t, uuid, qs); }
  }

  /** A reap removes a listed upload and its file exactly if nothing was written to it for ten hours. */
  lemma ReapedIffStale(s: State, uuid: Uuid, now: nat)
    requires uuid in s.uploads && uuid in s.files
    ensures var t := DoReap(s, now);
      if now - s.uploads[uuid].lastActivity >= 10 * 3600 then uuid !in t.uploads && uuid !in t.files
      else uuid in t.uploads && t.uploads[uuid] == s.uploads[uuid] && uuid in t.files && t.files[uuid] == s.files[uuid]
    ensures Stale(s.uploads[uuid], now) <==> now - s.uploads[uuid].lastActivity >= 36000
  {
  }

  /** A file without an upload is never removed by any requests: reaps look only at listed uploads.
      It is there after a put under a digest that is not that of the content. */
  lemma {:induction false} OrphanForever(c: Config, s: State, uuid: Uuid, qs: seq<Request>)
    requires Orphan(s, uuid)
    ensures Orphan(HandleAll(c, s, qs), uuid) && HandleAll(c, s, qs).files[uuid] == s.files[uuid]
    decreases |qs|
  {
    hide DoPatch, DoPut, DoPost, DoPostWhole;
    if qs != [] {
      OrphanStays(c, s, uuid, qs[0]);
      OrphanForever(c, Handle(c, s, qs[0]).0, uuid, qs[1..]);
    }
  }

  lemma OrphanStays(c: Config, s: State, uuid: Uuid, q: Request)
    requires Orphan(s, uuid)
    ensures Orphan(Handle(c, s, q).0, uuid) && Handle(c, s, q).0.files[uuid] == s.files[uuid]
  {
  }

  // ---------------------------------------------------------------- the announced range

  /** A chunk with a range is accepted exactly if the range starts where the file ends, its end is
      one behind the last byte, and a length, if given, is that of the body. */
  lemma RangedChunkIff(c: Config, s: State, uuid: Uuid, length: Option<nat>, range: Range, body: Body, now: nat)
    requires Valid(c, s) && !c.readOnly && uuid in s.uploads && s.uploads[uuid].inner.Some?
    ensures var size, n := |s.files[uuid]|, |Concat(body.frames)|;
      DoPatch(c, s, uuid, length, Some(range), body, now).1.Accepted?
      <==> body.end == Complete && range.start == size && range.end == size + n && (length.Some? ==> length.value == n)
  {
    PatchAppends(c, s, uuid, length, Some(range), body, now);
  }

  /** So a chunk that is announced by its first and last byte is never accepted: with its length as well
      it is refused, and without it the size is found to be wrong when the bytes have been appended. */
  lemma InclusiveRangeRefused(c: Config, s: State, uuid: Uuid, length: Option<nat>, body: Body, now: nat)
    requires Valid(c, s) && !c.readOnly && uuid in s.uploads && s.uploads[uuid].inner.Some?
    requires body.end == Complete && Concat(body.frames) != []
    requires (length.Some? ==> length.value == |Concat(body.frames)|)
    ensures var size, content := |s.files[uuid]|, Concat(body.frames);
      var (t, r) := DoPatch(c, s, uuid, length, Some(RawRange(size, size + |content| - 1)), body, now);
      if length.Some? then (t, r) == (s, BadRange)
        else r == BadSize && t.files == s.files[uuid := s.files[uuid] + content]
  {
    assert UploadOk(s, uuid);
  }

  /** In read-only mode nothing is ever added: without uploads to start with there are none
      later, although `put` itself does not look at the mode. */
  lemma {:induction false} ReadOnlyOnlyShrinks(c: Config, s: State, qs: seq<Request>)
    requires c.readOnly && s.uploads == map[]
    ensures HandleAll(c, s, qs).uploads == map[]
    ensures forall d :: d in HandleAll(c, s, qs).blobs ==> d in s.blobs && HandleAll(c, s, qs).blobs[d] == s.blobs[d]
    decreases |qs|
  {
    if qs != [] {
      ReadOnlyOnlyShrinks(c, Handle(c, s, qs[0]).0, qs[1..]);
    }
  }

  // ---------------------------------------------------------------- pushing in chunks

  function PatchAll(c: Config, s: State, uuid: Uuid, chunks: seq<seq<seq<Byte>>>, now: nat): State
    decreases |chunks|
  {
    if chunks == [] then s
    else PatchAll(c, DoPatch(c, s, uuid, None, None, Body(chunks[0], Complete), now).0, uuid, chunks[1..], now)
  }

  function ConcatAll(chunks: seq<seq<seq<Byte>>>): seq<Byte>
    decreases |chunks|
  {
    if chunks == [] then [] else Concat(chunks[0]) + ConcatAll(chunks[1..])
  }

  lemma {:induction false} PatchAllAppends(c: Config, s: State, uuid: Uuid, chunks: seq<seq<seq<Byte>>>, now: nat)
    requires Valid(c, s) && !c.readOnly && uuid in s.uploads && s.uploads[uuid].inner.Some?
    ensures var t := PatchAll(c, s, uuid, chunks, now);
      && Valid(c, t) && uuid in t.uploads && t.uploads[uuid].inner.Some? && uuid in s.files
      && t.files[uuid] == s.files[uuid] + ConcatAll(chunks) && t.blobs == s.blobs
    decreases |chunks|
  {
    hide DoPatch;
    assert UploadOk(s, uuid);
    if chunks != [] {
      var t := DoPatch(c, s, uuid, None, None, Body(chunks[0], Complete), now).0;
      PatchOnce(c, s, uuid, chunks[0], now);
      PatchAllAppends(c, t, uuid, chunks[1..], now);
      assert s.files[uuid] + Concat(chunks[0]) + ConcatAll(chunks[1..]) == s.files[uuid] + ConcatAll(chunks);
    } else {
      assert s.files[uuid] + [] == s.files[uuid];
    }
  }

  lemma PatchOnce(c: Config, s: State, uuid: Uuid, frames: seq<seq<Byte>>, now: nat)
    requires Valid(c, s) && !c.readOnly && uuid in s.uploads && s.uploads[uuid].inner.Some?
    ensures var t := DoPatch(c, s, uuid, None, None, Body(frames, Complete), now).0;
      && Valid(c, t) && uuid in t.uploads && t.uploads[uuid].inner.Some? && uuid in s.files && uuid in t.files
      && t.files[uuid] == s.files[uuid] + Concat(frames) && t.blobs == s.blobs
  {
    assert UploadOk(s, uuid);
    PatchValid(c, s, Patch(uuid, None, None, Body(frames, Complete), now));
    PatchAppends(c, s, uuid, None, None, Body(frames, Complete), now);
  }

  /** Pushing a blob in any chunks stores what pushing it in one request stores. */
  lemma ChunkedEqualsWhole(c: Config, s: State, uuid: Uuid, chunks: seq<seq<seq<Byte>>>, last: seq<seq<Byte>>,
                           digest: Digest, now: nat,
                           whole: seq<seq<Byte>>)
    requires Valid(c, s) && !c.readOnly && uuid !in s.files && digest !in s.blobs && IsDockerHash(digest)
    requires Concat(whole) == ConcatAll(chunks) + Concat(last)
    ensures var begun := DoPost(c, s, uuid, now).0;
      var (t, r) := DoPut(c, PatchAll(c, begun, uuid, chunks, now), uuid, digest, None, None, Body(last, Complete),
        now);
      var (u, w) := DoPostWhole(c, s, uuid, digest, Body(whole, Complete));
      t.blobs == u.blobs && (r.Created? <==> w.Created?) && (r.Created? <==> c.hash(Concat(whole)) == digest)
  {
    hide DoPatch, PatchAll, DoPut;
    var begun := DoPost(c, s, uuid, now).0;
    OtherValid(c, s, Post(uuid, now));
    PatchAllAppends(c, begun, uuid, chunks, now);
    assert [] + ConcatAll(chunks) == ConcatAll(chunks);
    PutStoresUpload(c, PatchAll(c, begun, uuid, chunks, now), uuid, digest, None, None, Body(last, Complete), now);
  }
}
