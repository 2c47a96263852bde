/** The typed arena: no block is ever moved, so every reference handed out stays good. */
module Arena {

  /** A growable vector: `len` elements in a block of memory. Growing moves the elements. */
  class Vec<T(0)> {
    var block: array<T>
    var len: nat

    constructor WithCapacity(capacity: nat)
      ensures Valid() && len == 0 && block.Length == capacity && fresh(block)
    {
      block := new T[capacity];
      len := 0;
    }

    ghost predicate Valid()
      reads this
    {
      len <= block.Length
    }

    function Contents(): seq<T>
      reads this, block
      requires Valid()
    {
      block[..len]
    }

    /** Puts one more element in; a full block is left for a larger one first. */
    method Push(v: T)
      requires Valid()
      modifies this, block
      ensures Valid() && Contents() == old(Contents()) + [v]
      ensures if old(len) < old(block.Length) then block == old(block) else fresh(block)
      ensures block == old(block) ==> forall k :: old(len) < k < block.Length ==> block[k] == old(block[k])
    {
      if len == block.Length {
        var bigger := new T[2 * len + 1];
        forall k | 0 <= k < len { bigger[k] := block[k]; }
        block := bigger;
      }
      block[len] := v;
      len := len + 1;
    }
  }

  /** A stretch of memory that was handed out. */
  datatype Range<T(0)> = Range(block: array<T>, from: nat, to: nat)

  predicate Disjoint<T(0)>(a: Range<T>, b: Range<T>) {
    a.block != b.block || a.to <= b.from || b.to <= a.from
  }

  class Allocator<T(0)> {
    const sizeOf: nat
    var current: Vec<T>
    var other: seq<Vec<T>>
    /** All that was handed out, in order. */
    ghost var given: seq<Range<T>>

    constructor WithCapacity(capacity: nat, sizeOf: nat)
      requires sizeOf > 0
      ensures Valid() && given == [] && this.sizeOf == sizeOf
      ensures fresh(current) && fresh(current.block)
    {
      this.sizeOf := sizeOf;
      current := new Vec.WithCapacity(capacity);
      other := [];
      given := [];
    }

    function Vecs(): seq<Vec<T>>
      reads this
    {
      other + [current]
    }

    /** Every range handed out lies in the filled part of a block that a vector still owns, and no
        two overlap. */
    ghost predicate Valid()
      reads this, current, other
    {
      && sizeOf > 0
      && current !in other && current.Valid() && (forall v :: v in other ==> v.Valid() && v.block != current.block)
      && (forall k :: 0 <= k < |given| ==> Lives(given[k]))
      && (forall j, k :: 0 <= j < k < |given| ==> Disjoint(given[j], given[k]))
    }

    ghost predicate Lives(r: Range<T>)
      reads this, current, other
    {
      r.from <= r.to && exists v :: v in Vecs() && v.block == r.block && r.to <= v.len
    }

    method NewCur(c: nat)
      requires Valid()
      modifies this
      ensures Valid() && given == old(given) && other == old(other) + [old(current)]
      ensures fresh(current) && fresh(current.block) && current.len == 0 && c <= current.block.Length
    {
      var o := current;
      var doubled := if o.len * 2 < 1024 * 1024 * 32 / sizeOf then o.len * 2 else 1024 * 1024 * 32 / sizeOf;
      var v := new Vec<T>.WithCapacity(if doubled > c then doubled else c);
      current := v;
      other := other + [o];
      forall k | 0 <= k < |given| ensures Lives(given[k]) {
        KeepsVecs(given[k]);
      }
    }

    twostate lemma KeepsVecs(r: Range<T>)
      requires old(Lives(r)) && other == old(other) + [old(current)]
      requires forall v :: v in other ==> v.block == old(v.block) && v.len == old(v.len)
      ensures Lives(r)
    {
      var v :| v in old(Vecs()) && old(v.block) == r.block && r.to <= old(v.len);
      assert v in other;
      assert v in Vecs();
    }

    /** Afterwards there is room for `c` more elements without growing. */
    method EnsureCapacity(c: nat)
      requires Valid()
      modifies this
      ensures Valid() && given == old(given) && current.len + c <= current.block.Length
      ensures current == old(current) || (fresh(current) && fresh(current.block))
      ensures forall v :: v in old(Vecs()) ==> v in Vecs()
    {
      if current.len + c > current.block.Length {
        NewCur(c);
      }
    }

    /** The elements of a range. */
    function Elements(r: Range<T>): seq<T>
      reads r.block
    {
      if r.from <= r.to <= r.block.Length then r.block[r.from..r.to] else []
    }

    lemma FilledElements(r: Range<T>, v: seq<T>)
      requires current.Valid() && r.block == current.block && r.from <= r.to == current.len
      requires current.Contents()[r.from..] == v
      ensures Elements(r) == v
    {
    }

    /** The memory of everything handed out before is as it was. */
    twostate predicate KeepsElements()
      reads this, set k | 0 <= k < |given| :: given[k].block
    {
      && |old(given)| <= |given| && given[..|old(given)|] == old(given)
      && forall k :: 0 <= k < |old(given)| ==> Elements(given[k]) == old(Elements(given[k]))
    }

    /** No range handed out reaches into the free part of the current block. */
    ghost predicate FreeFrom(from: nat)
      reads this, current
    {
      forall k :: 0 <= k < |given| && given[k].block == current.block ==> given[k].to <= from
    }

    lemma RestIsFree()
      requires Valid()
      ensures FreeFrom(current.len)
    {
      forall k | 0 <= k < |given| && given[k].block == current.block ensures given[k].to <= current.len {
        assert Lives(given[k]);
        var v :| v in Vecs() && v.block == given[k].block && given[k].to <= v.len;
        assert v == current;
      }
    }

    /** Where room was made, an element goes in without the block being left. */
    method Append(v: T)
      requires Valid() && current.len < current.block.Length
      modifies current, current.block
      ensures Valid() && current.block == old(current.block) && current.Contents() == old(current.Contents()) + [v]
      ensures KeepsElements()
    {
      RestIsFree();
      current.Push(v);
      forall k | 0 <= k < |given| ensures Lives(given[k]) {
        var u :| u in Vecs() && old(u.block) == given[k].block && given[k].to <= old(u.len);
        assert u.block == old(u.block) && old(u.len) <= u.len;
      }
      forall k | 0 <= k < |given| ensures Elements(given[k]) == old(Elements(given[k])) {
        if given[k].block == current.block {
          assert current.Contents()[..old(current.len)] == old(current.Contents());
          SameSlice(given[k]);
        }
      }
    }

    twostate lemma SameSlice(r: Range<T>)
      requires current == old(current) && old(current.Valid()) && current.Valid()
      requires r.block == current.block == old(current.block)
      requires r.to <= old(current.len) <= current.len
      requires current.Contents()[..old(current.len)] == old(current.Contents())
      ensures Elements(r) == old(Elements(r))
    {
      if r.from <= r.to {
        assert current.Contents()[..old(current.len)][r.from..r.to] == r.block[r.from..r.to];
        assert old(current.Contents())[r.from..r.to] == old(r.block[r.from..r.to]);
      }
    }

    /** What was just filled is recorded as handed out. */
    ghost method HandOut(from: nat) returns (r: Range<T>)
      requires Valid() && from <= current.len && FreeFrom(from)
      modifies this`given
      ensures Valid() && r == Range(current.block, from, current.len) && given == old(given) + [r]
    {
      r := Range(current.block, from, current.len);
      assert current in Vecs();
      assert Lives(r);
      given := given + [r];
      forall k | 0 <= k < |given| ensures Lives(given[k]) {
        if k < |given| - 1 {
          assert given[k] == old(given)[k];
          assert old(Lives(given[k]));
        }
      }
    }

    /** One element. */
    method Alloc(v: T) returns (ghost r: Range<T>)
      requires Valid()
      modifies this, current, current.block
      ensures Valid() && given == old(given) + [r] && Elements(r) == [v] && KeepsElements()
    {
      EnsureCapacity(1);
      ghost var from := current.len;
      RestIsFree();
      Append(v);
      r := HandOut(from);
      assert current.Contents()[from..] == [v];
    }

    /** A copy of a slice, in one stretch. */
    method AllocSlice(v: seq<T>) returns (ghost r: Range<T>)
      requires Valid()
      modifies this, current, current.block
      ensures Valid() && given == old(given) + [r] && Elements(r) == v && KeepsElements()
    {
      hide Elements;
      EnsureCapacity(|v|);
      ghost var from, block, filled := current.len, current.block, current.Contents();
      RestIsFree();
      label Room:
      for i := 0 to |v|
        invariant Valid() && given == old(given) && current == old@Room(current) && current.block == block
        invariant current.len == from + i && current.Contents() == filled + v[..i]
        invariant FreeFrom(from) && KeepsElements()
      {
        Append(v[i]);
      }
      assert current.Contents()[from..] == v;
      r := HandOut(from);
      FilledElements(r, v);
    }

    /** One value, over and over. */
    method AllocSliceRepeated(v: T, count: nat) returns (ghost r: Range<T>)
      requires Valid()
      modifies this, current, current.block
      ensures Valid() && given == old(given) + [r] && Elements(r) == seq(count, _ => v) && KeepsElements()
    {
      hide Elements;
      EnsureCapacity(count);
      ghost var from, block, filled := current.len, current.block, current.Contents();
      RestIsFree();
      label Room:
      for i := 0 to count
        invariant Valid() && given == old(given) && current == old@Room(current) && current.block == block
        invariant current.len == from + i && current.Contents() == filled + seq(i, _ => v)
        invariant FreeFrom(from) && KeepsElements()
      {
        Append(v);
        assert seq(i + 1, _ => v) == seq(i, _ => v) + [v];
      }
      assert current.Contents()[from..] == seq(count, _ => v);
      r := HandOut(from);
      FilledElements(r, seq(count, _ => v));
    }
  }
}
