/** The search for the start marker in what a service prints, read by read. */
module MagicScan {
  import opened Bytes

  /** The marker stands at `x` and at least one byte follows it. */
  predicate FollowedAt(t: seq<Byte>, magic: seq<Byte>, x: int) {
    0 <= x && x + |magic| < |t| && t[x..x + |magic|] == magic
  }

  ghost predicate Followed(t: seq<Byte>, magic: seq<Byte>) {
    exists x :: FollowedAt(t, magic, x)
  }

  /** The last bytes, as many as the marker has if there are so many. */
  function Tail(t: seq<Byte>, n: nat): (r: seq<Byte>)
    ensures |r| <= n && |r| <= |t|
  {
    if |t| <= n then t else t[|t| - n..]
  }

  /** In the kept tail and the new bytes the marker shows up followed exactly if it does in
      everything read so far and did not before. */
  lemma WindowSeesAll(t: seq<Byte>, chunk: seq<Byte>, magic: seq<Byte>)
    requires !Followed(t, magic)
    ensures Followed(Tail(t, |magic|) + chunk, magic) <==> Followed(t + chunk, magic)
    ensures Tail(Tail(t, |magic|) + chunk, |magic|) == Tail(t + chunk, |magic|)
  {
    var w := Tail(t, |magic|) + chunk;
    var skipped := |t| - |Tail(t, |magic|)|;
    assert (t + chunk)[skipped..] == w;
    TailOfTail(t, chunk, |magic|);
    if Followed(w, magic) {
      var x :| FollowedAt(w, magic, x);
      Shift(t + chunk, skipped, magic, x + skipped);
    }
    if Followed(t + chunk, magic) {
      var x :| FollowedAt(t + chunk, magic, x);
      if x < skipped {
        Early(t, chunk, magic, x);
      } else {
        Shift(t + chunk, skipped, magic, x);
      }
    }
  }

  lemma DropThenDrop(t: seq<Byte>, chunk: seq<Byte>, i: nat, j: nat)
    requires i <= |t| && j <= |t| - i + |chunk|
    ensures (t[i..] + chunk)[j..] == (t + chunk)[i + j..]
  {
  }

  lemma TailOfTail(t: seq<Byte>, chunk: seq<Byte>, n: nat)
    ensures Tail(Tail(t, n) + chunk, n) == Tail(t + chunk, n)
  {
    if |t| > n {
      DropThenDrop(t, chunk, |t| - n, |chunk|);
    }
  }

  lemma Shift(all: seq<Byte>, skipped: nat, magic: seq<Byte>, x: int)
    requires skipped <= |all| && skipped <= x
    ensures FollowedAt(all[skipped..], magic, x - skipped) <==> FollowedAt(all, magic, x)
  {
    if x + |magic| < |all| {
      assert all[skipped..][x - skipped..x - skipped + |magic|] == all[x..x + |magic|];
    }
  }

  lemma Early(t: seq<Byte>, chunk: seq<Byte>, magic: seq<Byte>, x: int)
    requires x < |t| - |magic| && FollowedAt(t + chunk, magic, x)
    ensures FollowedAt(t, magic, x)
  {
    assert (t + chunk)[x..x + |magic|] == t[x..x + |magic|];
  }

  /** Whether some read reports the marker, the tail being what the reads before have left. */
  ghost predicate Reports(tail: seq<Byte>, chunks: seq<seq<Byte>>, magic: seq<Byte>)
    decreases |chunks|
  {
    && chunks != []
    && (Followed(tail + chunks[0], magic) || Reports(Tail(tail + chunks[0], |magic|), chunks[1..], magic))
  }

  lemma {:induction false} ReportsFrom(t: seq<Byte>, chunks: seq<seq<Byte>>, magic: seq<Byte>)
    requires !Followed(t, magic)
    ensures Reports(Tail(t, |magic|), chunks, magic) <==> Followed(t + Concat(chunks), magic)
    decreases |chunks|
  {
    hide Followed;
    if chunks == [] {
      assert t + [] == t;
    } else {
      var next := t + chunks[0];
      WindowSeesAll(t, chunks[0], magic);
      assert t + Concat(chunks) == next + Concat(chunks[1..]);
      if Followed(next, magic) {
        FollowedInMore(next, Concat(chunks[1..]), magic);
      } else {
        ReportsFrom(next, chunks[1..], magic);
      }
    }
  }

  lemma FollowedInMore(t: seq<Byte>, more: seq<Byte>, magic: seq<Byte>)
    requires Followed(t, magic)
    ensures Followed(t + more, magic)
  {
    var x :| FollowedAt(t, magic, x);
    assert (t + more)[x..x + |magic|] == t[x..x + |magic|];
    assert FollowedAt(t + more, magic, x);
  }

  lemma EmptyNotFollowed(magic: seq<Byte>)
    ensures !Followed([], magic)
  {
  }

  /** However the output is cut into reads, the marker is reported exactly when it stands in the
      output with something after it. */
  lemma ChunkingDoesNotMatter(chunks: seq<seq<Byte>>, other: seq<seq<Byte>>, magic: seq<Byte>)
    requires Concat(chunks) == Concat(other)
    ensures Reports([], chunks, magic) <==> Reports([], other, magic)
    ensures Reports([], chunks, magic) <==> Followed(Concat(chunks), magic)
  {
    EmptyNotFollowed(magic);
    ReportsFrom([], chunks, magic);
    ReportsFrom([], other, magic);
    assert [] + Concat(chunks) == Concat(chunks) && [] + Concat(other) == Concat(other);
  }

  /** The marker stands at `x`, with or without something after it. */
  predicate OccursAt(t: seq<Byte>, magic: seq<Byte>, x: int) {
    0 <= x && x + |magic| <= |t| && t[x..x + |magic|] == magic
  }

  ghost predicate Occurs(t: seq<Byte>, magic: seq<Byte>) {
    exists x :: OccursAt(t, magic, x)
  }

  /** The output ends with the marker, which did not stand in it before. */
  ghost predicate FirstAtTheEnd(t: seq<Byte>, magic: seq<Byte>) {
    OccursAt(t, magic, |t| - |magic|) && forall x :: OccursAt(t, magic, x) ==> x == |t| - |magic|
  }

  /** A marker in the output is missed exactly if the output ends with its first occurrence. */
  lemma MarkerAtTheEndIsMissed(chunks: seq<seq<Byte>>, magic: seq<Byte>)
    ensures Occurs(Concat(chunks), magic) && !Reports([], chunks, magic) <==> FirstAtTheEnd(Concat(chunks), magic)
  {
    ChunkingDoesNotMatter(chunks, chunks, magic);
    var t := Concat(chunks);
    if FirstAtTheEnd(t, magic) && Followed(t, magic) {
      var x :| FollowedAt(t, magic, x);
      assert OccursAt(t, magic, x);
    }
    if Occurs(t, magic) && !Followed(t, magic) {
      forall x | OccursAt(t, magic, x) ensures x == |t| - |magic| {
        assert !FollowedAt(t, magic, x);
      }
    }
  }

  /** The two output streams of a service share one buffer; each keeps its own tail. */
  class Scanner {
    const magic: seq<Byte>
    const buf: array<Byte>
    var stdoutTail: seq<Byte>
    var stderrTail: seq<Byte>
    /** Everything read so far from each stream. */
    ghost var stdoutBytes: seq<Byte>
    ghost var stderrBytes: seq<Byte>

    constructor (magic: seq<Byte>, size: nat)
      requires |magic| < size
      ensures this.magic == magic && fresh(buf) && buf.Length == size
      ensures Valid() && stdoutBytes == [] && stderrBytes == []
    {
      this.magic := magic;
      buf := new Byte[size];
      stdoutTail, stderrTail := [], [];
      stdoutBytes, stderrBytes := [], [];
    }

    /** No marker has been seen yet and the tails are the last bytes of each stream. */
    ghost predicate Valid()
      reads this
    {
      && |magic| < buf.Length
      && stdoutTail == Tail(stdoutBytes, |magic|) && !Followed(stdoutBytes, magic)
      && stderrTail == Tail(stderrBytes, |magic|) && !Followed(stderrBytes, magic)
    }

    /** One read from stdout, of as many bytes as fit after the tail. */
    method ReadStdout(data: seq<Byte>) returns (ready: bool)
      requires Valid() && |stdoutTail| + |data| <= buf.Length
      modifies this, buf
      ensures stdoutBytes == old(stdoutBytes) + data && stderrBytes == old(stderrBytes)
      ensures ready <==> Followed(stdoutBytes, magic)
      ensures !ready ==> Valid()
    {
      hide Followed;
      WindowSeesAll(stdoutBytes, data, magic);
      var v := Fill(stdoutTail, data);
      ready := Search(v);
      stdoutBytes := stdoutBytes + data;
      if !ready {
        var tl := if v < |magic| then v else |magic|;
        stdoutTail := buf[v - tl..v];
        assert stdoutTail == Tail(buf[..v], |magic|);
      }
    }

    /** One read from stderr. */
    method ReadStderr(data: seq<Byte>) returns (ready: bool)
      requires Valid() && |stderrTail| + |data| <= buf.Length
      modifies this, buf
      ensures stderrBytes == old(stderrBytes) + data && stdoutBytes == old(stdoutBytes)
      ensures ready <==> Followed(stderrBytes, magic)
      ensures !ready ==> Valid()
    {
      hide Followed;
      WindowSeesAll(stderrBytes, data, magic);
      var v := Fill(stderrTail, data);
      ready := Search(v);
      stderrBytes := stderrBytes + data;
      if !ready {
        var tl := if v < |magic| then v else |magic|;
        stderrTail := buf[v - tl..v];
        assert stderrTail == Tail(buf[..v], |magic|);
      }
    }

    /** The tail is copied to the front of the buffer and the read goes behind it. */
    method Fill(tail: seq<Byte>, data: seq<Byte>) returns (v: nat)
      requires |tail| + |data| <= buf.Length
      modifies buf
      ensures v == |tail| + |data| && buf[..v] == tail + data
    {
      v := |tail| + |data|;
      forall k | 0 <= k < |tail| { buf[k] := tail[k]; }
      forall k | 0 <= k < |data| { buf[|tail| + k] := data[k]; }
    }

    /** Looks at every place from which the marker would end before the last byte. */
    method Search(v: nat) returns (found: bool)
      requires v <= buf.Length
      ensures found <==> Followed(buf[..v], magic)
    {
      var l := |magic|;
      if v >= l {
        for x := 0 to v - l
          invariant forall y :: 0 <= y < x ==> !FollowedAt(buf[..v], magic, y)
        {
          assert buf[..v][x..x + l] == buf[x..x + l];
          if buf[x..x + l] == magic {
            assert FollowedAt(buf[..v], magic, x);
            return true;
          }
        }
      }
      return false;
    }
  }
}
