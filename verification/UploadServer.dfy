/** The upload handlers in their own form: frame by frame under the lock of an upload. */
module UploadServer {
  import opened Bytes
  import opened Wrappers
  import opened Uploads

  class Server {
    var blobs: map<Digest, seq<Byte>>
    var uploads: map<Uuid, Upload>
    var files: map<Uuid, seq<Byte>>
    const config: Config

    function S(): State
      reads this
    {
      State(blobs, uploads, files)
    }

    constructor (config: Config, blobs: map<Digest, seq<Byte>>)
      requires ContentAddressed(config, EMPTY.(blobs := blobs))
      ensures this.config == config && S() == EMPTY.(blobs := blobs) && Uploads.Valid(config, S())
    {
      this.config, this.blobs, this.uploads, this.files := config, blobs, map[], map[];
    }

    /** `handle_upload`: writes, hashes and counts one frame after another. */
    method HandleUpload(uuid: Uuid, i0: Inner, body: Body, now: nat) returns (ok: bool, i: Inner)
      requires uuid in uploads && uuid in files
      modifies this`uploads, this`files
      ensures (S(), i) == Absorb(old(S()), uuid, i0, body.frames, now)
      ensures ok <==> body.end == Complete
    {
      ghost var s := S();
      i := i0;
      AbsorbNothing(s, uuid, i0, now);
      for k := 0 to |body.frames|
        invariant uuid in uploads && uuid in files
        invariant (S(), i) == Absorb(s, uuid, i0, body.frames[..k], now)
      {
        var frame := body.frames[k];
        AbsorbNext(s, uuid, i0, body.frames, k, now);
        files := files[uuid := files[uuid] + frame];
        var u := uploads[uuid];
        uploads := uploads[uuid := u.(shadowRange := u.shadowRange + |frame|, lastActivity := now)];
        i := Inner(i.count + |frame|, i.absorbed + frame);
      }
      assert body.frames[..|body.frames|] == body.frames;
      ok := body.end == Complete;
    }

    method CheckRange(start: nat, length: Option<nat>, range: Option<Range>) returns (r: Result<Option<nat>, Response>)
      ensures r == Expected(start, length, range)
    {
      var expected := length;
      if range.Some? {
        if range.value.start != start {
          return Err(BadRange);
        }
        if expected.Some? {
          if range.value.end - range.value.start != expected.value {
            return Err(BadRange);
          }
        } else {
          expected := Some(range.value.end - range.value.start);
        }
      }
      r := Ok(expected);
    }

    method PostBlobUpload(uuid: Uuid, now: nat) returns (r: Response)
      modifies this
      ensures (S(), r) == DoPost(config, old(S()), uuid, now)
      ensures old(Uploads.Valid(config, S())) ==> Uploads.Valid(config, S())
    {
      ghost var s := S();
      if Uploads.Valid(config, s) { OtherValid(config, s, Post(uuid, now)); }
      if config.readOnly {
        return Unavailable;
      }
      if uuid in files {
        return Failed;
      }
      files := files[uuid := []];
      uploads := uploads[uuid := Upload(0, now, Some(Inner(0, [])))];
      r := Accepted(0);
    }

    method PatchBlobUpload(uuid: Uuid, length: Option<nat>, range: Option<Range>, body: Body, now: nat)
      returns (r: Response)
      modifies this
      ensures (S(), r) == DoPatch(config, old(S()), uuid, length, range, body, now)
      ensures old(Uploads.Valid(config, S())) ==> Uploads.Valid(config, S())
    {
      ghost var s := S();
      if Uploads.Valid(config, s) { PatchValid(config, s, Patch(uuid, length, range, body, now)); }
      hide Absorb;
      if config.readOnly {
        return Unavailable;
      }
      if uuid !in uploads {
        return NotFound;
      }
      if uploads[uuid].inner.None? || uuid !in files {
        return Concurrent;
      }
      var i := uploads[uuid].inner.value;
      var checked := CheckRange(i.count, length, range);
      if checked.Err? {
        return checked.error;
      }
      AbsorbKeeps(s, uuid, i, body.frames, now);
      var ok, j := HandleUpload(uuid, i, body, now);
      uploads := uploads[uuid := uploads[uuid].(inner := Some(j))];
      if !ok {
        return BadBody;
      }
      if checked.value.Some? && j.count != i.count + checked.value.value {
        return BadSize;
      }
      r := Accepted(j.count);
    }

    method PutBlobUpload(uuid: Uuid, digest: Digest, length: Option<nat>, range: Option<Range>, body: Body, now: nat)
      returns (r: Response)
      modifies this
      ensures (S(), r) == DoPut(config, old(S()), uuid, digest, length, range, body, now)
      ensures old(Uploads.Valid(config, S())) ==> Uploads.Valid(config, S())
    {
      ghost var s := S();
      if Uploads.Valid(config, s) {
        PutValid(config, s, Put(uuid, digest, length, range, body, now));
        assert Uploads.Valid(config, DoPut(config, s, uuid, digest, length, range, body, now).0);
      }
      hide Absorb, Uploads.Valid;
      if uuid !in uploads {
        return NotFound;
      }
      if uploads[uuid].inner.None? || uuid !in files {
        return Concurrent;
      }
      var i := uploads[uuid].inner.value;
      uploads := uploads[uuid := uploads[uuid].(inner := None)];
      var checked := CheckRange(i.count, length, range);
      if checked.Err? {
        return checked.error;
      }
      AbsorbKeeps(S(), uuid, i, body.frames, now);
      var ok, j := HandleUpload(uuid, i, body, now);
      if !ok {
        return BadBody;
      }
      if checked.value.Some? && j.count != i.count + checked.value.value {
        return BadSize;
      }
      uploads := uploads - {uuid};
      var actual := config.hash(j.absorbed);
      if actual != digest {
        return BadDigest;
      }
      blobs := blobs[actual := files[uuid]];
      files := files - {uuid};
      r := Created(actual);
    }

    /** One round of the reaper over the stale uploads, in the order they are listed. */
    method ReapUploads(now: nat, stale: seq<Uuid>)
      requires forall u :: u in stale <==> u in StaleUploads(S(), now)
      modifies this
      ensures S() == DoReap(old(S()), now)
      ensures old(Uploads.Valid(config, S())) ==> Uploads.Valid(config, S())
    {
      ghost var s := S();
      if Uploads.Valid(config, s) { OtherValid(config, s, Reap(now)); }
      for k := 0 to |stale|
        invariant blobs == s.blobs
        invariant uploads == s.uploads - set u | u in stale[..k]
        invariant files == s.files - set u | u in stale[..k]
      {
        assert stale[..k + 1] == stale[..k] + [stale[k]];
        uploads := uploads - {stale[k]};
        files := files - {stale[k]};
      }
      assert stale[..|stale|] == stale;
      assert (set u | u in stale) == StaleUploads(s, now);
    }
  }

  lemma AbsorbNothing(s: State, uuid: Uuid, i: Inner, now: nat)
    requires uuid in s.uploads && uuid in s.files
    ensures Absorb(s, uuid, i, [], now) == (s, i)
  {
    assert s.files[uuid] + [] == s.files[uuid] && i.absorbed + [] == i.absorbed;
    assert s.files[uuid := s.files[uuid]] == s.files;
    assert s.uploads[uuid := s.uploads[uuid]] == s.uploads;
  }

  lemma AbsorbNext(s: State, uuid: Uuid, i: Inner, frames: seq<seq<Byte>>, k: nat, now: nat)
    requires uuid in s.uploads && uuid in s.files && k < |frames|
    ensures var (t, j) := Absorb(s, uuid, i, frames[..k], now);
      var f := frames[k]; var u := t.uploads[uuid];
      Absorb(s, uuid, i, frames[..k + 1], now) ==
        (t.(files := t.files[uuid := t.files[uuid] + f],
            uploads := t.uploads[uuid := u.(shadowRange := u.shadowRange + |f|, lastActivity := now)]),
         Inner(j.count + |f|, j.absorbed + f))
  {
    var before, after, f := Concat(frames[..k]), Concat(frames[..k + 1]), frames[k];
    assert frames[..k + 1] == frames[..k] + [f];
    ConcatSnoc(frames[..k], f);
    assert after == before + f;
    assert s.files[uuid] + before + f == s.files[uuid] + after;
    assert i.absorbed + before + f == i.absorbed + after;
    var (t, j) := Absorb(s, uuid, i, frames[..k], now);
    var (v, l) := Absorb(s, uuid, i, frames[..k + 1], now);
    assert t.files[uuid := t.files[uuid] + f] == v.files;
    assert t.uploads[uuid := t.uploads[uuid].(shadowRange := t.uploads[uuid].shadowRange + |f|, lastActivity := now)] ==
      v.uploads;
  }

  lemma AbsorbKeeps(s: State, uuid: Uuid, i: Inner, frames: seq<seq<Byte>>, now: nat)
    requires uuid in s.uploads && uuid in s.files
    ensures var (t, j) := Absorb(s, uuid, i, frames, now);
      uuid in t.uploads && uuid in t.files && t.blobs == s.blobs && j.count >= i.count
  {
  }
}
