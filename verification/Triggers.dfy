/** The triggers that a diff fires: sorted, and dropped where they follow the same one. */
module Triggers {
  import opened DeployTypes
  import opened OrderedJson
  import opened Orders

  /** What `dedup_by` compares. */
  predicate SameTrigger(a: TriggerData, b: TriggerData) {
    a.typeId == b.typeId && a.script == b.script && a.Content() == b.Content()
  }

  /** What `sort_by` compares. */
  function TriggerOrder(a: TriggerData, b: TriggerData): Ordering {
    CompareInt(a.typeId, b.typeId).Then(CompareText(a.script, b.script)).Then(CompareFields(a.fields, b.fields))
  }

  predicate HasTrigger(ts: seq<TriggerData>, t: TriggerData) {
    exists u :: u in ts && SameTrigger(u, t)
  }

  /** `dedup_by`: drops what is the same as the last one that was kept. */
  function DropRepeats(ts: seq<TriggerData>): seq<TriggerData> {
    if ts == [] then []
    else
      var kept := DropRepeats(ts[..|ts| - 1]);
      if kept != [] && SameTrigger(ts[|ts| - 1], kept[|kept| - 1]) then kept else kept + [ts[|ts| - 1]]
  }

  predicate Permutes<T(==)>(s: seq<T>, ts: seq<T>) {
    multiset(s) == multiset(ts)
  }

  /** The triggers that are fired: sorted, and without neighbours that are the same. */
  ghost predicate Fired(ts: seq<TriggerData>, ds: seq<TriggerData>) {
    exists sorted :: Permutes(sorted, ts) && Sorted(sorted, TriggerOrder) && ds == DropRepeats(sorted)
  }

  lemma TriggerOrderFlips(a: TriggerData, b: TriggerData)
    ensures TriggerOrder(b, a) == Flip(TriggerOrder(a, b))
  {
    TextFlips(a.script, b.script);
    FieldsFlip(a.fields, b.fields);
  }

  lemma TriggerOrderEqual(a: TriggerData, b: TriggerData)
    ensures TriggerOrder(a, b) == Equal <==> a.typeId == b.typeId && a.script == b.script && a.fields == b.fields
  {
    TextEqual(a.script, b.script);
    FieldsEqual(a.fields, b.fields);
  }

  lemma TriggerOrderTransitive(a: TriggerData, b: TriggerData, c: TriggerData)
    requires TriggerOrder(a, b) != Greater && TriggerOrder(b, c) != Greater
    ensures TriggerOrder(a, c) != Greater
  {
    TextFlips(a.script, b.script);
    TextEqual(a.script, b.script);
    TextEqual(b.script, c.script);
    if a.typeId == b.typeId == c.typeId {
      TextTransitive(a.script, b.script, c.script);
      if a.script == b.script == c.script { FieldsTransitive(a.fields, b.fields, c.fields); }
    }
  }

  lemma TriggerOrderIsPreorder()
    ensures IsPreorder(TriggerOrder)
  {
    forall a, b ensures TriggerOrder(b, a) == Flip(TriggerOrder(a, b)) {
      TriggerOrderFlips(a, b);
    }
    forall a, b, c | TriggerOrder(a, b) != Greater && TriggerOrder(b, c) != Greater
      ensures TriggerOrder(a, c) != Greater
    {
      TriggerOrderTransitive(a, b, c);
    }
  }

  method DedupTriggers(ts: seq<TriggerData>) returns (ds: seq<TriggerData>)
    ensures Fired(ts, ds)
  {
    TriggerOrderIsPreorder();
    var sorted := SortBy(ts, TriggerOrder);
    ds := [];
    for k := 0 to |sorted|
      invariant ds == DropRepeats(sorted[..k])
    {
      assert sorted[..k + 1][..k] == sorted[..k];
      if ds == [] || !SameTrigger(sorted[k], ds[|ds| - 1]) { ds := ds + [sorted[k]]; }
    }
    assert sorted[..|sorted|] == sorted;
  }

  /** The kept triggers, told from their places: each is one of the sorted ones, in their order,
      and no neighbours are the same. */
  lemma {:induction false} KeptTriggers(ts: seq<TriggerData>)
    requires Sorted(ts, TriggerOrder)
    ensures var ds := DropRepeats(ts);
      && (forall d :: d in ds ==> d in ts) && Sorted(ds, TriggerOrder)
      && (forall k :: 0 < k < |ds| ==> !SameTrigger(ds[k], ds[k - 1]))
      && (ts != [] ==> ds != [] && SameTrigger(ts[|ts| - 1], ds[|ds| - 1]))
  {
    hide TriggerOrder, SameTrigger;
    if ts != [] {
      var n := |ts| - 1;
      KeptTriggers(ts[..n]);
      SameBothWays(ts[n], ts[n]);
      OneMoreKept(ts, n, DropRepeats(ts[..n]));
    }
  }

  lemma OneMoreKept(ts: seq<TriggerData>, n: nat, ds: seq<TriggerData>)
    requires Sorted(ts, TriggerOrder) && n == |ts| - 1 && Sorted(ds, TriggerOrder)
    requires forall d :: d in ds ==> d in ts[..n]
    ensures Sorted(ds + [ts[n]], TriggerOrder) && forall d :: d in ds + [ts[n]] ==> d in ts
    ensures forall d :: d in ds ==> d in ts
  {
    hide TriggerOrder;
    forall d | d in ds ensures d in ts && TriggerOrder(d, ts[n]) != Greater {
      var k :| 0 <= k < n && ts[..n][k] == d;
    }
    forall i, j | 0 <= i < j < |ds + [ts[n]]| ensures TriggerOrder((ds + [ts[n]])[i], (ds + [ts[n]])[j]) != Greater {
      assert ds[i] in ds;
    }
  }

  lemma {:induction false} KeptPrefix(ts: seq<TriggerData>, k: nat)
    requires k <= |ts|
    ensures DropRepeats(ts[..k]) <= DropRepeats(ts)
    decreases |ts| - k
  {
    if k < |ts| {
      KeptPrefix(ts, k + 1);
      assert ts[..k + 1][..k] == ts[..k];
    } else {
      assert ts[..k] == ts;
    }
  }

  /** Where the trigger that stands for the one at `k` is kept. */
  lemma Representative(ts: seq<TriggerData>, k: nat) returns (i: nat)
    requires k < |ts| && Sorted(ts, TriggerOrder)
    ensures i == |DropRepeats(ts[..k + 1])| - 1
    ensures i < |DropRepeats(ts)| && SameTrigger(ts[k], DropRepeats(ts)[i])
  {
    KeptPrefix(ts, k + 1);
    KeptTriggers(ts[..k + 1]);
    i := |DropRepeats(ts[..k + 1])| - 1;
    assert DropRepeats(ts)[i] == DropRepeats(ts[..k + 1])[i];
  }

  /** Only triggers that are due are fired, in their order, and something is fired for each. */
  lemma FiredAreDue(ts: seq<TriggerData>, ds: seq<TriggerData>)
    requires Fired(ts, ds)
    ensures (forall d :: d in ds ==> d in ts) && Sorted(ds, TriggerOrder)
    ensures forall t :: t in ts ==> HasTrigger(ds, t)
  {
    var sorted :| Permutes(sorted, ts) && Sorted(sorted, TriggerOrder) && ds == DropRepeats(sorted);
    KeptTriggers(sorted);
    forall d | d in ds ensures d in ts { assert d in multiset(sorted); }
    forall t | t in ts ensures HasTrigger(ds, t) {
      assert t in multiset(sorted);
      var k :| 0 <= k < |sorted| && sorted[k] == t;
      var i := Representative(sorted, k);
      assert ds[i] in ds && SameTrigger(ds[i], t);
    }
  }

  ghost predicate NoneTwice(ds: seq<TriggerData>) {
    forall i, j :: 0 <= i < j < |ds| ==> !SameTrigger(ds[i], ds[j])
  }

  predicate Between(a: TriggerData, b: TriggerData, c: TriggerData) {
    TriggerOrder(a, b) != Greater && TriggerOrder(b, c) != Greater
  }

  /** Whatever the order has between `a` and `c` is the same as they are. */
  ghost predicate NothingBetween(ts: seq<TriggerData>, a: TriggerData, c: TriggerData) {
    forall b :: b in ts && Between(a, b, c) ==> SameTrigger(a, b)
  }

  /** The order keeps triggers that are the same together. */
  ghost predicate Together(ts: seq<TriggerData>) {
    forall a, c :: a in ts && c in ts && SameTrigger(a, c) ==> NothingBetween(ts, a, c)
  }

  /** Each trigger is fired only once exactly when the order keeps the same triggers together. */
  lemma FiredOnceIff(ts: seq<TriggerData>, ds: seq<TriggerData>)
    requires Fired(ts, ds)
    ensures NoneTwice(ds) <==> Together(ts)
  {
    hide TriggerOrder, SameTrigger, Together, NoneTwice, DropRepeats;
    var sorted :| Permutes(sorted, ts) && Sorted(sorted, TriggerOrder) && ds == DropRepeats(sorted);
    KeptTriggers(sorted);
    FiredAreDue(ts, ds);
    hide Sorted;
    if Together(ts) { OnceIfTogether(ts, ds); }
    if NoneTwice(ds) { TogetherIfOnce(ts, sorted); }
  }

  lemma TogetherIfOnce(ts: seq<TriggerData>, sorted: seq<TriggerData>)
    requires Permutes(sorted, ts) && Sorted(sorted, TriggerOrder) && NoneTwice(DropRepeats(sorted))
    ensures Together(ts)
  {
    hide TriggerOrder, SameTrigger, NoneTwice, DropRepeats, Sorted, Between, Permutes;
    forall a, c | a in ts && c in ts && SameTrigger(a, c) ensures NothingBetween(ts, a, c) {
      forall b | b in ts && Between(a, b, c) ensures SameTrigger(a, b) {
        BetweenIsSame(ts, sorted, a, b, c);
      }
    }
  }

  lemma OnceIfTogether(ts: seq<TriggerData>, ds: seq<TriggerData>)
    requires Together(ts) && (forall d :: d in ds ==> d in ts) && Sorted(ds, TriggerOrder)
    requires forall k :: 0 < k < |ds| ==> !SameTrigger(ds[k], ds[k - 1])
    ensures NoneTwice(ds)
  {
    hide TriggerOrder, SameTrigger;
    forall i, j | 0 <= i < j < |ds| ensures !SameTrigger(ds[i], ds[j]) {
      assert ds[i] in ts && ds[i + 1] in ts && ds[j] in ts;
      assert !SameTrigger(ds[i + 1], ds[(i + 1) - 1]);
      SameBothWays(ds[i], ds[i + 1]);
      TriggerOrderEqual(ds[j], ds[j]);
      assert i + 1 < j ==> TriggerOrder(ds[i + 1], ds[j]) != Greater;
      assert Between(ds[i], ds[i + 1], ds[j]);
    }
  }

  lemma SameBothWays(a: TriggerData, b: TriggerData)
    ensures (SameTrigger(a, b) <==> SameTrigger(b, a)) && SameTrigger(a, a)
  {
  }

  lemma SameTransitive(a: TriggerData, b: TriggerData, c: TriggerData)
    requires SameTrigger(a, b) && SameTrigger(b, c)
    ensures SameTrigger(a, c)
  {
  }

  lemma IndexIn<T>(s: seq<T>, ts: seq<T>, x: T) returns (k: nat)
    requires Permutes(s, ts) && x in ts
    ensures k < |s| && s[k] == x
  {
    assert x in multiset(ts);
    k :| 0 <= k < |s| && s[k] == x;
  }

  lemma LessMeansEarlier(s: seq<TriggerData>, i: nat, j: nat)
    requires Sorted(s, TriggerOrder) && i < |s| && j < |s| && TriggerOrder(s[i], s[j]) == Less
    ensures i < j
  {
    hide TriggerOrder;
    TriggerOrderFlips(s[i], s[j]);
    TriggerOrderEqual(s[i], s[j]);
  }

  /** The place of a trigger among the sorted ones, and of its representative among the kept. */
  lemma Kept(ts: seq<TriggerData>, sorted: seq<TriggerData>, t: TriggerData) returns (k: nat, i: nat)
    requires Permutes(sorted, ts) && Sorted(sorted, TriggerOrder) && t in ts
    ensures k < |sorted| && sorted[k] == t && i == |DropRepeats(sorted[..k + 1])| - 1
    ensures i < |DropRepeats(sorted)| && SameTrigger(t, DropRepeats(sorted)[i])
  {
    hide TriggerOrder, DropRepeats, SameTrigger, Sorted;
    k := IndexIn(sorted, ts, t);
    i := Representative(sorted, k);
  }

  lemma KeptOnce(ds: seq<TriggerData>, a: TriggerData, b: TriggerData, c: TriggerData, x: nat, y: nat, z: nat)
    requires NoneTwice(ds) && SameTrigger(a, c) && x <= y <= z < |ds|
    requires SameTrigger(a, ds[x]) && SameTrigger(b, ds[y]) && SameTrigger(c, ds[z])
    ensures SameTrigger(a, b)
  {
    hide SameTrigger;
    SameBothWays(a, ds[x]);
    SameTransitive(ds[x], a, c);
    SameTransitive(ds[x], c, ds[z]);
    assert x == z;
    SameBothWays(b, ds[y]);
    SameTransitive(a, ds[x], b);
  }

  lemma BetweenIsSame(ts: seq<TriggerData>, sorted: seq<TriggerData>, a: TriggerData, b: TriggerData, c: TriggerData)
    requires Permutes(sorted, ts) && Sorted(sorted, TriggerOrder) && NoneTwice(DropRepeats(sorted))
    requires a in ts && b in ts && c in ts && SameTrigger(a, c) && Between(a, b, c)
    ensures SameTrigger(a, b)
  {
    hide TriggerOrder, DropRepeats, SameTrigger, Sorted, NoneTwice, Between, Permutes;
    EqualIsSame(a, b, c);
    if TriggerOrder(a, b) == Less && TriggerOrder(b, c) == Less {
      var i, x := Kept(ts, sorted, a);
      var j, y := Kept(ts, sorted, b);
      var k, z := Kept(ts, sorted, c);
      LessMeansEarlier(sorted, i, j);
      LessMeansEarlier(sorted, j, k);
      KeptGrows(sorted, i + 1, j + 1);
      KeptGrows(sorted, j + 1, k + 1);
      KeptOnce(DropRepeats(sorted), a, b, c, x, y, z);
    }
  }

  lemma EqualIsSame(a: TriggerData, b: TriggerData, c: TriggerData)
    requires SameTrigger(a, c) && Between(a, b, c)
    ensures (TriggerOrder(a, b) == Less && TriggerOrder(b, c) == Less) || SameTrigger(a, b)
  {
    hide TriggerOrder;
    TriggerOrderEqual(a, b);
    TriggerOrderEqual(b, c);
  }

  lemma KeptGrows(ts: seq<TriggerData>, i: nat, j: nat)
    requires i <= j <= |ts|
    ensures |DropRepeats(ts[..i])| <= |DropRepeats(ts[..j])|
  {
    KeptPrefix(ts[..j], i);
    assert ts[..j][..i] == ts[..i];
  }

  /** That is the case whenever the same contents have their fields in the same order. */
  lemma OneOrderIsTogether(ts: seq<TriggerData>)
    requires forall a, c :: a in ts && c in ts && SameTrigger(a, c) ==> a.fields == c.fields
    ensures Together(ts)
  {
    hide TriggerOrder;
    forall a, c | a in ts && c in ts && SameTrigger(a, c) ensures NothingBetween(ts, a, c) {
      forall b | b in ts && Between(a, b, c) ensures SameTrigger(a, b) {
        TriggerOrderEqual(a, c);
        TriggerOrderFlips(a, c);
        TriggerOrderFlips(a, b);
        TriggerOrderTransitive(b, c, a);
        TriggerOrderEqual(a, b);
      }
    }
  }

  const XY: Fields := [Field("x", Bool(false)), Field("y", Bool(false))]
  const X: Fields := [Field("x", Bool(true))]
  const YX: Fields := [Field("y", Bool(false)), Field("x", Bool(false))]

  lemma ExampleOrder()
    ensures MeaningOf(XY) == MeaningOf(YX) && MeaningOf(XY) != MeaningOf(X)
    ensures CompareFields(XY, X) == Less && CompareFields(X, YX) == Less
  {
    SameMeaningDifferentOrder("x", "y", Bool(false), Bool(false));
    assert Meaning(Obj(XY)) == Meaning(Obj(YX));
    assert XY[1..] == [Field("y", Bool(false))] && X[1..] == [];
    assert "y" in MeaningOf(XY);
    assert "y" !in MeaningOf(X);
    TextEqual("x", "x");
    assert CompareText("x", "y") == Less by { assert Codes("x")[0] == 'x' as int && Codes("y")[0] == 'y' as int; }
  }

  /** Three triggers of which the first and the last are the same: all of them are fired. */
  lemma FiredTwiceExample(ds: seq<TriggerData>)
    requires Fired([TriggerData(1, "", XY, ""), TriggerData(1, "", X, ""), TriggerData(1, "", YX, "")], ds)
    ensures !NoneTwice(ds)
  {
    hide Fired, NoneTwice, CompareFields, MeaningOf;
    var a, b, c := TriggerData(1, "", XY, ""), TriggerData(1, "", X, ""), TriggerData(1, "", YX, "");
    var ts := [a, b, c];
    assert ts[0] == a && ts[1] == b && ts[2] == c;
    FiredOnceIff(ts, ds);
    ExampleOrder();
    TextEqual("", "");
    assert Between(a, b, c);
    assert SameTrigger(a, c) && !SameTrigger(a, b);
    assert !NothingBetween(ts, a, c);
  }
}
