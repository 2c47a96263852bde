/** Grouping the listed deployments: nothing is lost, and every group is one class of deployments
    in natural order. */
module Grouping {
  import opened NaturalOrder
  import opened Orders

  /** `row` stands for the fields that grouping does not look at. */
  datatype Deployment = Deployment(row: nat, image: string, host: int, name: string)

  /** A deployment in a group and the name it is shown with, which replaces its own. */
  datatype Entry = Entry(shown: string, deployment: Deployment)

  datatype Group = Group(title: string, entries: seq<Entry>)

  // ---------------------------------------------------------------- sorting

  /** By image, then by host. */
  function ImageHostOrder(a: Deployment, b: Deployment): Ordering {
    Lex(Codes(a.image) + [-1, a.host], Codes(b.image) + [-1, b.host])
  }

  function EntryOrder(a: Entry, b: Entry): Ordering {
    Compare(a.shown, b.shown)
  }

  lemma ImageHostIsPreorder()
    ensures IsPreorder(ImageHostOrder)
  {
    forall a, b ensures ImageHostOrder(b, a) == Flip(ImageHostOrder(a, b)) {
      LexFlips(Codes(a.image) + [-1, a.host], Codes(b.image) + [-1, b.host]);
    }
    forall a, b, c | ImageHostOrder(a, b) != Greater && ImageHostOrder(b, c) != Greater
      ensures ImageHostOrder(a, c) != Greater
    {
      LexTransitive(Codes(a.image) + [-1, a.host], Codes(b.image) + [-1, b.host], Codes(c.image) + [-1, c.host]);
    }
  }

  lemma EntryOrderIsPreorder()
    ensures IsPreorder(EntryOrder)
  {
    forall a, b ensures EntryOrder(b, a) == Flip(EntryOrder(a, b)) {
      CompareIsPreorder(a.shown, b.shown, b.shown);
    }
    forall a, b, c | EntryOrder(a, b) != Greater && EntryOrder(b, c) != Greater ensures EntryOrder(a, c) != Greater {
      CompareIsPreorder(a.shown, b.shown, c.shown);
    }
  }

  // ---------------------------------------------------------------- runs of equal keys

  function Flatten<T>(runs: seq<seq<T>>): seq<T> {
    if runs == [] then [] else runs[0] + Flatten(runs[1..])
  }

  /** `chunk_by`: the longest stretches of equal keys. */
  function Runs<T, K(==)>(s: seq<T>, key: T -> K): (r: seq<seq<T>>)
    ensures Flatten(r) == s
    ensures forall k :: 0 <= k < |r| ==> r[k] != [] && forall x :: x in r[k] ==> key(x) == key(r[k][0])
    ensures s != [] ==> r != [] && r[0][0] == s[0]
  {
    if s == [] then []
    else
      var rest := Runs(s[1..], key);
      assert s == [s[0]] + s[1..];
      if rest != [] && key(rest[0][0]) == key(s[0]) then
        assert ([[s[0]] + rest[0]] + rest[1..])[1..] == rest[1..];
        assert [s[0]] + (rest[0] + Flatten(rest[1..])) == [s[0]] + rest[0] + Flatten(rest[1..]);
        [[s[0]] + rest[0]] + rest[1..]
      else
        assert ([[s[0]]] + rest)[1..] == rest;
        [[s[0]]] + rest
  }

  /** Equal keys stand together. */
  predicate Contiguous<T, K(==)>(s: seq<T>, key: T -> K) {
    forall i, j, k :: 0 <= i < j < k < |s| && key(s[i]) == key(s[k]) ==> key(s[j]) == key(s[i])
  }

  lemma {:induction false} HeadIn<T>(runs: seq<seq<T>>, k: nat)
    requires k < |runs| && runs[k] != []
    ensures runs[k][0] in Flatten(runs)
    decreases |runs|
  {
    if k > 0 { HeadIn(runs[1..], k - 1); }
  }

  lemma ContiguousRest<T, K>(s: seq<T>, key: T -> K)
    requires Contiguous(s, key) && s != []
    ensures Contiguous(s[1..], key)
  {
    forall i, j, k | 0 <= i < j < k < |s[1..]| && key(s[1..][i]) == key(s[1..][k])
      ensures key(s[1..][j]) == key(s[1..][i])
    {
      assert key(s[i + 1]) == key(s[k + 1]);
    }
  }

  lemma {:induction false} RunsDistinct<T, K>(s: seq<T>, key: T -> K)
    requires Contiguous(s, key)
    ensures DistinctKeys(Runs(s, key), key)
  {
    hide Flatten;
    if s != [] {
      ContiguousRest(s, key);
      RunsDistinct(s[1..], key);
      var rest := Runs(s[1..], key);
      if rest != [] && key(rest[0][0]) == key(s[0]) {
        FirstGrows(rest, [s[0]] + rest[0], key);
      } else {
        forall k | 0 <= k < |rest| ensures key(rest[k][0]) != key(s[0]) {
          LaterRunDiffers(s, key, k);
        }
        NewFirst(rest, [s[0]], key);
      }
    }
  }

  lemma FirstGrows<T, K>(rest: seq<seq<T>>, first: seq<T>, key: T -> K)
    requires (forall k :: 0 <= k < |rest| ==> rest[k] != []) && DistinctKeys(rest, key)
    requires rest != [] && first != [] && key(first[0]) == key(rest[0][0])
    ensures DistinctKeys([first] + rest[1..], key)
  {
    var r := [first] + rest[1..];
    assert forall k :: 0 <= k < |r| ==> key(r[k][0]) == key(rest[k][0]);
  }

  lemma NewFirst<T, K>(rest: seq<seq<T>>, first: seq<T>, key: T -> K)
    requires (forall k :: 0 <= k < |rest| ==> rest[k] != []) && DistinctKeys(rest, key)
    requires first != [] && forall k :: 0 <= k < |rest| ==> key(rest[k][0]) != key(first[0])
    ensures DistinctKeys([first] + rest, key)
  {
    var r := [first] + rest;
    assert forall k :: 1 <= k < |r| ==> r[k] == rest[k - 1];
  }

  predicate DistinctKeys<T, K(==)>(runs: seq<seq<T>>, key: T -> K)
    requires forall k :: 0 <= k < |runs| ==> runs[k] != []
  {
    forall j, k :: 0 <= j < k < |runs| ==> key(runs[j][0]) != key(runs[k][0])
  }

  lemma LaterRunDiffers<T, K>(s: seq<T>, key: T -> K, k: nat)
    requires s != [] && Contiguous(s, key) && k < |Runs(s[1..], key)|
    requires key(Runs(s[1..], key)[0][0]) != key(s[0])
    ensures key(Runs(s[1..], key)[k][0]) != key(s[0])
  {
    var rest := Runs(s[1..], key);
    HeadIn(rest, k);
    var i :| 0 <= i < |s[1..]| && s[1..][i] == rest[k][0];
    assert s[i + 1] == rest[k][0] && rest[0][0] == s[1];
  }

  // ---------------------------------------------------------------- groups

  function Origins(groups: seq<Group>): multiset<Deployment> {
    if groups == [] then multiset{} else OriginsOf(groups[0].entries) + Origins(groups[1..])
  }

  function OriginsOf(entries: seq<Entry>): multiset<Deployment> {
    if entries == [] then multiset{} else multiset{entries[0].deployment} + OriginsOf(entries[1..])
  }

  lemma {:induction false} OriginsConcat(a: seq<Group>, b: seq<Group>)
    ensures Origins(a + b) == Origins(a) + Origins(b)
  {
    if a == [] {
      assert a + b == b;
    } else {
      assert (a + b)[1..] == a[1..] + b;
      OriginsConcat(a[1..], b);
    }
  }

  lemma {:induction false} OriginsOfConcat(a: seq<Entry>, b: seq<Entry>)
    ensures OriginsOf(a + b) == OriginsOf(a) + OriginsOf(b)
  {
    if a == [] {
      assert a + b == b;
    } else {
      assert (a + b)[1..] == a[1..] + b;
      OriginsOfConcat(a[1..], b);
    }
  }

  lemma RemoveOne(b: seq<Entry>, x: Entry) returns (rest: seq<Entry>)
    requires x in multiset(b)
    ensures OriginsOf(b) == OriginsOf(rest) + multiset{x.deployment}
    ensures |rest| == |b| - 1 && multiset(rest) == multiset(b) - multiset{x}
  {
    hide OriginsOf;
    var k :| 0 <= k < |b| && b[k] == x;
    rest := b[..k] + b[k + 1..];
    assert b == b[..k] + [x] + b[k + 1..];
    OriginsOfConcat(b[..k] + [x], b[k + 1..]);
    OriginsOfConcat(b[..k], [x]);
    OriginsOfConcat(b[..k], b[k + 1..]);
    OriginsOne(x);
  }

  lemma {:induction false} OriginsOfPermutation(a: seq<Entry>, b: seq<Entry>)
    requires multiset(a) == multiset(b)
    ensures OriginsOf(a) == OriginsOf(b)
    decreases |a|
  {
    if a == [] {
      assert |multiset(b)| == 0;
    } else {
      assert a[0] in multiset(a);
      var c := RemoveOne(a, a[0]);
      var d := RemoveOne(b, a[0]);
      OriginsOfPermutation(c, d);
    }
  }

  /** The layout of the groups of an image. */
  datatype Layout = ByHost | ByName(single: bool)

  function TitleOf(layout: Layout, d: Deployment, hostName: int -> string): string {
    match layout
    case ByHost => d.image + " on " + hostName(d.host)
    case ByName(single) => if single then d.name else d.name + " in " + d.image
  }

  function ShownOf(layout: Layout, d: Deployment, hostName: int -> string): string {
    if layout.ByHost? then d.name else hostName(d.host)
  }

  /** What the members of a group have in common besides the image. */
  predicate SameClass(layout: Layout, a: Deployment, b: Deployment) {
    a.image == b.image && if layout.ByHost? then a.host == b.host else a.name == b.name
  }

  /** A group holds deployments of one class under the title and the names of its layout. */
  predicate Proper(layout: Layout, g: Group, hostName: int -> string) {
    && g.entries != []
    && forall e :: e in g.entries ==>
      && e.shown == ShownOf(layout, e.deployment, hostName)
      && g.title == TitleOf(layout, e.deployment, hostName)
      && SameClass(layout, e.deployment, g.entries[0].deployment)
  }

  lemma ProperIsNotEmpty(layout: Layout, g: Group, hostName: int -> string)
    requires Proper(layout, g, hostName)
    ensures g.entries != []
  {
  }

  /** Deployments of one class are in one group. */
  predicate Separate(layout: Layout, groups: seq<Group>)
    requires forall k :: 0 <= k < |groups| ==> groups[k].entries != []
  {
    forall j, k :: 0 <= j < k < |groups| ==>
      !SameClass(layout, groups[j].entries[0].deployment, groups[k].entries[0].deployment)
  }

  predicate Grouped(layout: Layout, groups: seq<Group>, hostName: int -> string) {
    && (forall k :: 0 <= k < |groups| ==> Proper(layout, groups[k], hostName))
    && Separate(layout, groups)
  }

  predicate AllSorted(groups: seq<Group>) {
    forall k :: 0 <= k < |groups| ==> Sorted(groups[k].entries, EntryOrder)
  }

  predicate OfImage(ds: seq<Deployment>, image: string) {
    forall d :: d in ds ==> d.image == image
  }

  /** The deployments of an image are spread over many hosts under few names. */
  predicate Spread(ds: seq<Deployment>) {
    |set d | d in ds :: d.host| >= 2 * |set d | d in ds :: d.name|
  }

  predicate OnePerHost(ds: seq<Deployment>) {
    |ds| == |set d | d in ds :: d.host|
  }

  function LayoutOf(ds: seq<Deployment>): Layout {
    if Spread(ds) then ByName(OnePerHost(ds)) else ByHost
  }

  /** By host exactly if there are fewer than two hosts for each name; otherwise by name, with a note
      exactly if every host has one deployment. */
  lemma LayoutSays(ds: seq<Deployment>, hosts: set<int>, names: set<string>)
    requires hosts == (set d | d in ds :: d.host) && names == (set d | d in ds :: d.name)
    ensures LayoutOf(ds) == ByHost <==> |hosts| < 2 * |names|
    ensures LayoutOf(ds).ByName? ==> (LayoutOf(ds) == ByName(true) <==> |ds| == |hosts|)
  {
  }

  // ---------------------------------------------------------------- groups by title, in order

  predicate Before(a: string, b: string) {
    CompareText(a, b) == Less
  }

  predicate Ascending(groups: seq<Group>) {
    forall j, k :: 0 <= j < k < |groups| ==> Before(groups[j].title, groups[k].title)
  }

  /** `entry(title).or_default().push(e)` on a map that is ordered by title. */
  function PushEntry(groups: seq<Group>, title: string, e: Entry): (r: seq<Group>)
    ensures r != []
  {
    if groups == [] then [Group(title, [e])]
    else if groups[0].title == title then [Group(title, groups[0].entries + [e])] + groups[1..]
    else if Before(title, groups[0].title) then [Group(title, [e])] + groups
    else [groups[0]] + PushEntry(groups[1..], title, e)
  }

  lemma OriginsOne(e: Entry)
    ensures OriginsOf([e]) == multiset{e.deployment}
  {
    assert [e][1..] == [];
  }

  lemma OriginsOneGroup(g: Group)
    ensures Origins([g]) == OriginsOf(g.entries) && Origins([]) == multiset{}
  {
    assert [g][1..] == [];
  }

  lemma FlattenFrom<T>(runs: seq<seq<T>>, i: nat)
    requires i <= |runs|
    ensures Flatten(runs[i..]) == if i == |runs| then [] else runs[i] + Flatten(runs[i + 1..])
  {
    if i < |runs| { assert runs[i..][1..] == runs[i + 1..]; }
  }

  lemma {:induction false} PushKeepsOrigins(groups: seq<Group>, title: string, e: Entry)
    ensures Origins(PushEntry(groups, title, e)) == Origins(groups) + multiset{e.deployment}
  {
    OriginsOne(e);
    hide OriginsOf, Before;
    var r := PushEntry(groups, title, e);
    if groups == [] {
      assert r[1..] == [];
    } else if groups[0].title == title {
      OriginsOfConcat(groups[0].entries, [e]);
      assert r[1..] == groups[1..];
    } else if Before(title, groups[0].title) {
      assert r[1..] == groups;
    } else {
      assert r[1..] == PushEntry(groups[1..], title, e);
      PushKeepsOrigins(groups[1..], title, e);
    }
  }

  lemma BeforeOrder(a: string, b: string)
    ensures a == b || Before(a, b) || Before(b, a)
  {
    TextFlips(a, b);
    TextEqual(a, b);
  }

  lemma BeforeTransitive(a: string, b: string, c: string)
    requires Before(a, b) && Before(b, c)
    ensures Before(a, c)
  {
    TextTransitive(a, b, c);
  }

  lemma {:induction false} PushKeepsAscending(groups: seq<Group>, title: string, e: Entry)
    requires Ascending(groups)
    ensures Ascending(PushEntry(groups, title, e))
    ensures forall g :: g in PushEntry(groups, title, e) ==> g.title == title || g in groups
  {
    hide Before;
    var r := PushEntry(groups, title, e);
    if groups == [] {
    } else if groups[0].title == title {
      assert r == [Group(title, groups[0].entries + [e])] + groups[1..];
      assert forall k :: 0 <= k < |r| ==> r[k].title == groups[k].title;
    } else if Before(title, groups[0].title) {
      assert r == [Group(title, [e])] + groups;
      forall k | 1 <= k < |r| ensures Before(title, r[k].title) {
        if k > 1 { BeforeTransitive(title, groups[0].title, groups[k - 1].title); }
      }
    } else {
      var more := PushEntry(groups[1..], title, e);
      assert r == [groups[0]] + more;
      PushKeepsAscending(groups[1..], title, e);
      BeforeOrder(title, groups[0].title);
      forall k | 1 <= k < |r| ensures Before(groups[0].title, r[k].title) {
        var g := r[k];
        assert g in more;
        if g.title != title {
          var j :| 0 <= j < |groups[1..]| && groups[1..][j] == g;
          assert groups[j + 1] == g;
        }
      }
    }
  }

  /** Before the groups are sorted inside: their members belong under their title. */
  predicate Filed(layout: Layout, g: Group, hostName: int -> string, image: string) {
    && g.entries != []
    && forall e :: e in g.entries ==>
      e.shown == ShownOf(layout, e.deployment, hostName) && g.title == TitleOf(layout, e.deployment, hostName) &&
        e.deployment.image == image
  }

  predicate AllFiled(layout: Layout, groups: seq<Group>, hostName: int -> string, image: string) {
    forall k :: 0 <= k < |groups| ==> Filed(layout, groups[k], hostName, image)
  }

  lemma {:induction false} PushKeepsFiled(layout: Layout, groups: seq<Group>, e: Entry, hostName: int -> string,
                                          image: string)
    requires AllFiled(layout, groups, hostName, image)
    requires e.shown == ShownOf(layout, e.deployment, hostName) && e.deployment.image == image
    ensures AllFiled(layout, PushEntry(groups, TitleOf(layout, e.deployment, hostName), e), hostName, image)
  {
    hide Before, TitleOf, ShownOf;
    var title := TitleOf(layout, e.deployment, hostName);
    var r := PushEntry(groups, title, e);
    if groups == [] {
    } else if groups[0].title == title {
      assert r == [Group(title, groups[0].entries + [e])] + groups[1..];
      assert Filed(layout, groups[0], hostName, image);
      assert Filed(layout, r[0], hostName, image);
    } else if Before(title, groups[0].title) {
      assert r == [Group(title, [e])] + groups;
    } else {
      assert r == [groups[0]] + PushEntry(groups[1..], title, e);
      PushKeepsFiled(layout, groups[1..], e, hostName, image);
    }
  }

  lemma SameTitleSameName(single: bool, a: Deployment, b: Deployment, hostName: int -> string)
    requires a.image == b.image && TitleOf(ByName(single), a, hostName) == TitleOf(ByName(single), b, hostName)
    ensures a.name == b.name
  {
    var ta, tb := a.name + " in " + a.image, b.name + " in " + b.image;
    if !single {
      assert |a.name| == |b.name|;
      assert a.name == ta[..|a.name|] && b.name == tb[..|b.name|];
    }
  }

  lemma SameNameSameTitle(single: bool, a: Deployment, b: Deployment, hostName: int -> string)
    ensures a.name == b.name && a.image == b.image ==>
      TitleOf(ByName(single), a, hostName) == TitleOf(ByName(single), b, hostName)
  {
  }

  lemma FiledIsGrouped(single: bool, groups: seq<Group>, hostName: int -> string, image: string)
    requires AllFiled(ByName(single), groups, hostName, image) && Ascending(groups)
    ensures Grouped(ByName(single), groups, hostName)
  {
    hide TitleOf, ShownOf, Before;
    var layout := ByName(single);
    forall k | 0 <= k < |groups| ensures Proper(layout, groups[k], hostName) {
      var g := groups[k];
      assert Filed(layout, g, hostName, image);
      forall e | e in g.entries ensures SameClass(layout, e.deployment, g.entries[0].deployment) {
        assert g.entries[0] in g.entries;
        SameTitleSameName(single, e.deployment, g.entries[0].deployment, hostName);
      }
    }
    forall j, k | 0 <= j < k < |groups|
      ensures !SameClass(layout, groups[j].entries[0].deployment, groups[k].entries[0].deployment)
    {
      assert Before(groups[j].title, groups[k].title);
      NotBeforeSelf(groups[j].title);
      var a, b := groups[j].entries[0], groups[k].entries[0];
      assert a in groups[j].entries && b in groups[k].entries;
      assert TitleOf(layout, a.deployment, hostName) == groups[j].title != groups[k].title ==
        TitleOf(layout, b.deployment, hostName);
      assert a.deployment.name == b.deployment.name && a.deployment.image == b.deployment.image ==>
        TitleOf(layout, a.deployment, hostName) == TitleOf(layout, b.deployment, hostName) by {
          SameNameSameTitle(single, a.deployment, b.deployment, hostName);
        }
    }
  }

  lemma NotBeforeSelf(a: string)
    ensures !Before(a, a)
  {
    TextEqual(a, a);
  }

  // ---------------------------------------------------------------- hosts and names of an image

  function HostOf(d: Deployment): int {
    d.host
  }

  function ImageOf(d: Deployment): string {
    d.image
  }

  predicate HostsAscend(ds: seq<Deployment>) {
    forall i, j :: 0 <= i < j < |ds| ==> ds[i].host <= ds[j].host
  }

  /** The hosts, each once. */
  function Hosts(runs: seq<seq<Deployment>>): (r: set<int>)
    requires forall k :: 0 <= k < |runs| ==> runs[k] != []
  {
    set k | 0 <= k < |runs| :: runs[k][0].host
  }

  lemma {:induction false} CountHosts(runs: seq<seq<Deployment>>)
    requires forall k :: 0 <= k < |runs| ==> runs[k] != []
    requires DistinctKeys(runs, HostOf)
    ensures |Hosts(runs)| == |runs|
  {
    if runs != [] {
      var n := |runs| - 1;
      var rest := runs[..n];
      CountHosts(rest);
      assert forall k :: 0 <= k < n ==> HostOf(runs[k][0]) != HostOf(runs[n][0]);
      assert Hosts(runs) == Hosts(rest) + {runs[n][0].host};
      assert runs[n][0].host !in Hosts(rest);
    }
  }

  lemma {:induction false} InFlatten<T>(runs: seq<seq<T>>, x: T)
    ensures x in Flatten(runs) <==> exists k :: 0 <= k < |runs| && x in runs[k]
  {
    if runs != [] {
      InFlatten(runs[1..], x);
      if x in Flatten(runs[1..]) {
        var k :| 0 <= k < |runs[1..]| && x in runs[1..][k];
        assert x in runs[k + 1];
      }
      if k :| 0 <= k < |runs| && x in runs[k] {
        if k > 0 { assert x in runs[1..][k - 1]; }
      }
    }
  }

  lemma HostsOfRuns(ds: seq<Deployment>, runs: seq<seq<Deployment>>)
    requires runs == Runs(ds, HostOf)
    ensures Hosts(runs) == set d | d in ds :: d.host
  {
    forall d | d in ds ensures d.host in Hosts(runs) {
      InFlatten(runs, d);
      var k :| 0 <= k < |runs| && d in runs[k];
      assert HostOf(d) == HostOf(runs[k][0]);
    }
    forall h | h in Hosts(runs) ensures h in set d | d in ds :: d.host {
      var k :| 0 <= k < |runs| && runs[k][0].host == h;
      HeadIn(runs, k);
    }
  }

  function NamesOf(run: seq<Deployment>): (r: seq<string>)
    ensures |r| == |run|
  {
    seq(|run|, k requires 0 <= k < |run| => run[k].name)
  }

  lemma {:induction false} SinglesOnly<T>(runs: seq<seq<T>>)
    requires forall k :: 0 <= k < |runs| ==> runs[k] != []
    ensures |Flatten(runs)| >= |runs|
    ensures |Flatten(runs)| == |runs| <==> forall k :: 0 <= k < |runs| ==> |runs[k]| == 1
  {
    if runs != [] {
      SinglesOnly(runs[1..]);
      assert runs == [runs[0]] + runs[1..];
    }
  }

  lemma AscendIsContiguous(ds: seq<Deployment>)
    requires HostsAscend(ds)
    ensures Contiguous(ds, HostOf)
  {
  }

  // ---------------------------------------------------------------- the code

  /** The groups one host at a time. */
  method ByHosts(byHost: seq<seq<Deployment>>, image: string, hostName: int -> string) returns (groups: seq<Group>)
    requires HostRuns(byHost, image)
    ensures Origins(groups) == multiset(Flatten(byHost)) && Grouped(ByHost, groups, hostName) && AllSorted(groups)
  {
    groups := [];
    NoHostsYet(byHost, image, hostName);
    hide Origins, OriginsOf, Flatten, Sorted, IsPreorder, HostsSoFar;
    for i := 0 to |byHost|
      invariant HostsSoFar(byHost, i, groups, hostName)
    {
      var run := byHost[i];
      var entries := Unrenamed(run);
      EntryOrderIsPreorder();
      var sorted := SortBy(entries, EntryOrder);
      OneHostMore(byHost, image, i, groups, entries, sorted, hostName);
      groups := groups + [Group(image + " on " + hostName(run[0].host), sorted)];
    }
    AllHosts(byHost, image, groups, hostName);
  }

  /** The deployments of an image, host by host. */
  predicate HostRuns(byHost: seq<seq<Deployment>>, image: string) {
    && (forall k :: 0 <= k < |byHost| ==> HostRun(byHost[k], image))
    && DistinctKeys(byHost, HostOf)
  }

  predicate HostRun(run: seq<Deployment>, image: string) {
    run != [] && forall d :: d in run ==> d.host == run[0].host && d.image == image
  }

  predicate HostGroup(g: Group, run: seq<Deployment>, hostName: int -> string) {
    && run != [] && g.entries != [] && Proper(ByHost, g, hostName) && Sorted(g.entries, EntryOrder)
    && HostOf(g.entries[0].deployment) == HostOf(run[0])
  }

  ghost predicate HostsSoFar(byHost: seq<seq<Deployment>>, i: nat, groups: seq<Group>, hostName: int -> string) {
    && |groups| == i <= |byHost| && (forall k :: 0 <= k < i ==> HostGroup(groups[k], byHost[k], hostName))
    && Origins(groups) + multiset(Flatten(byHost[i..])) == multiset(Flatten(byHost))
  }

  lemma NoHostsYet(byHost: seq<seq<Deployment>>, image: string, hostName: int -> string)
    ensures HostsSoFar(byHost, 0, [], hostName)
  {
    assert byHost[0..] == byHost;
  }

  lemma OneHostMore(byHost: seq<seq<Deployment>>, image: string, i: nat, groups: seq<Group>, entries: seq<Entry>,
                    sorted: seq<Entry>, hostName: int -> string)
    requires i < |byHost| && HostRuns(byHost, image) && HostsSoFar(byHost, i, groups, hostName)
    requires |entries| == |byHost[i]| && OriginsOf(entries) == multiset(byHost[i])
    requires forall k :: 0 <= k < |entries| ==> entries[k] == Entry(byHost[i][k].name, byHost[i][k])
    requires multiset(sorted) == multiset(entries) && Sorted(sorted, EntryOrder)
    ensures HostsSoFar(byHost, i + 1, groups + [Group(image + " on " + hostName(byHost[i][0].host), sorted)], hostName)
  {
    hide Origins, OriginsOf, Flatten, Sorted, EntryOrder, Proper;
    var run := byHost[i];
    var g := Group(image + " on " + hostName(run[0].host), sorted);
    assert HostRun(run, image);
    ProperHostGroup(g, run, entries, image, hostName);
    ProperIsNotEmpty(ByHost, g, hostName);
    OriginsOfPermutation(sorted, entries);
    RunMoves(byHost, i, groups, g);
  }

  lemma RunMoves(byHost: seq<seq<Deployment>>, i: nat, groups: seq<Group>, g: Group)
    requires i < |byHost| && OriginsOf(g.entries) == multiset(byHost[i])
    ensures Origins(groups + [g]) + multiset(Flatten(byHost[i + 1..])) ==
      Origins(groups) + multiset(Flatten(byHost[i..]))
  {
    hide Origins, OriginsOf, Flatten;
    OriginsConcat(groups, [g]);
    OriginsOneGroup(g);
    FlattenFrom(byHost, i);
  }

  lemma AllHosts(byHost: seq<seq<Deployment>>, image: string, groups: seq<Group>, hostName: int -> string)
    requires HostRuns(byHost, image) && HostsSoFar(byHost, |byHost|, groups, hostName)
    ensures Origins(groups) == multiset(Flatten(byHost)) && Grouped(ByHost, groups, hostName) && AllSorted(groups)
  {
    FlattenFrom(byHost, |byHost|);
    hide Origins, Flatten, Sorted, Proper;
    assert forall k :: 0 <= k < |groups| ==> HostGroup(groups[k], byHost[k], hostName);
    forall j, k | 0 <= j < k < |groups|
      ensures !SameClass(ByHost, groups[j].entries[0].deployment, groups[k].entries[0].deployment)
    {
      assert HostGroup(groups[j], byHost[j], hostName) && HostGroup(groups[k], byHost[k], hostName);
      assert HostOf(byHost[j][0]) != HostOf(byHost[k][0]);
    }
  }

  method Unrenamed(run: seq<Deployment>) returns (entries: seq<Entry>)
    ensures |entries| == |run| && OriginsOf(entries) == multiset(run)
    ensures forall k :: 0 <= k < |run| ==> entries[k] == Entry(run[k].name, run[k])
  {
    hide OriginsOf;
    entries := [];
    for i := 0 to |run|
      invariant |entries| == i
      invariant forall k :: 0 <= k < i ==> entries[k] == Entry(run[k].name, run[k])
    {
      entries := entries + [Entry(run[i].name, run[i])];
    }
    OriginsAre(entries, run);
  }

  lemma {:induction false} OriginsAre(entries: seq<Entry>, run: seq<Deployment>)
    requires |entries| == |run| && forall k :: 0 <= k < |run| ==> entries[k].deployment == run[k]
    ensures OriginsOf(entries) == multiset(run)
  {
    if run != [] {
      OriginsAre(entries[1..], run[1..]);
      assert run == [run[0]] + run[1..];
    }
  }

  lemma ProperHostGroup(g: Group, run: seq<Deployment>, entries: seq<Entry>, image: string, hostName: int -> string)
    requires run != [] && |entries| == |run| && multiset(g.entries) == multiset(entries)
    requires forall k :: 0 <= k < |run| ==> entries[k] == Entry(run[k].name, run[k])
    requires forall d :: d in run ==> d.host == run[0].host && d.image == image
    requires g.title == image + " on " + hostName(run[0].host)
    ensures Proper(ByHost, g, hostName) && g.entries[0].deployment.host == run[0].host
  {
    assert |g.entries| == |multiset(g.entries)| == |multiset(entries)| == |entries|;
    forall e | e in g.entries ensures e.shown == e.deployment.name && e.deployment in run {
      assert e in multiset(entries);
      var k :| 0 <= k < |entries| && entries[k] == e;
    }
    assert g.entries[0] in g.entries;
  }

  /** The groups one name at a time; the deployments are shown under their hosts' names. */
  method ByNames(byHost: seq<seq<Deployment>>, image: string, single: bool, hostName: int -> string)
    returns (groups: seq<Group>)
    requires forall k :: 0 <= k < |byHost| ==> OfImage(byHost[k], image)
    ensures Origins(groups) == multiset(Flatten(byHost)) && Grouped(ByName(single), groups, hostName)
    ensures AllSorted(groups)
    ensures Ascending(groups)
  {
    var byName: seq<Group> := [];
    for i := 0 to |byHost|
      invariant Ascending(byName) && AllFiled(ByName(single), byName, hostName, image)
      invariant Origins(byName) + multiset(Flatten(byHost[i..])) == multiset(Flatten(byHost))
    {
      FlattenFrom(byHost, i);
      byName := FileRun(byName, byHost[i], image, single, hostName);
    }
    FlattenFrom(byHost, |byHost|);
    FiledIsGrouped(single, byName, hostName, image);
    groups := SortGroups(byName, ByName(single), hostName);
  }

  lemma EntryByName(single: bool, d: Deployment, hostName: int -> string)
    ensures TitleOf(ByName(single), d, hostName) == if single then d.name else d.name + " in " + d.image
    ensures ShownOf(ByName(single), d, hostName) == hostName(d.host)
  {
  }

  method FileRun(groups: seq<Group>, run: seq<Deployment>, image: string, single: bool, hostName: int -> string)
    returns (r: seq<Group>)
    requires OfImage(run, image) && Ascending(groups) && AllFiled(ByName(single), groups, hostName, image)
    ensures Ascending(r) && AllFiled(ByName(single), r, hostName, image)
    ensures Origins(r) == Origins(groups) + multiset(run)
  {
    hide Ascending, AllFiled, PushEntry, Origins, OriginsOf, TitleOf, ShownOf;
    r := groups;
    for i := 0 to |run|
      invariant Ascending(r) && AllFiled(ByName(single), r, hostName, image)
      invariant Origins(r) == Origins(groups) + multiset(run[..i])
    {
      var d := run[i];
      var k := if single then d.name else d.name + " in " + image;
      var e := Entry(hostName(d.host), d);
      assert d in run;
      EntryByName(single, d, hostName);
      PushKeepsOrigins(r, k, e);
      PushKeepsAscending(r, k, e);
      PushKeepsFiled(ByName(single), r, e, hostName, image);
      r := PushEntry(r, k, e);
      assert run[..i + 1] == run[..i] + [d];
    }
    assert run[..|run|] == run;
  }

  method SortGroups(groups: seq<Group>, ghost layout: Layout, ghost hostName: int -> string) returns (r: seq<Group>)
    requires Grouped(layout, groups, hostName)
    ensures Grouped(layout, r, hostName) && AllSorted(r) && Origins(r) == Origins(groups) && SameTitles(r, groups)
  {
    r := [];
    assert SortedSoFar(layout, groups, 0, r, hostName);
    hide Origins, OriginsOf, Sorted, IsPreorder, SortedSoFar;
    for i := 0 to |groups|
      invariant SortedSoFar(layout, groups, i, r, hostName)
    {
      EntryOrderIsPreorder();
      var sorted := SortBy(groups[i].entries, EntryOrder);
      SortedOneMore(layout, groups, i, r, sorted, hostName);
      r := r + [Group(groups[i].title, sorted)];
    }
    AllGroupsSorted(layout, groups, r, hostName);
  }

  predicate SameTitles(a: seq<Group>, b: seq<Group>) {
    |a| == |b| && forall k :: 0 <= k < |a| ==> a[k].title == b[k].title
  }

  ghost predicate SortedSoFar(layout: Layout, groups: seq<Group>, i: nat, r: seq<Group>, hostName: int -> string) {
    && |r| == i <= |groups| && AllSorted(r) && Origins(r) == Origins(groups[..i])
    && forall k :: 0 <= k < i ==> StandsFor(layout, r[k], groups[k], hostName)
  }

  predicate StandsFor(layout: Layout, g: Group, h: Group, hostName: int -> string) {
    && g.title == h.title && g.entries != [] && h.entries != [] && Proper(layout, g, hostName)
    && SameClass(layout, g.entries[0].deployment, h.entries[0].deployment)
  }

  lemma SortedOneMore(layout: Layout, groups: seq<Group>, i: nat, r: seq<Group>, sorted: seq<Entry>,
                      hostName: int -> string)
    requires i < |groups| && SortedSoFar(layout, groups, i, r, hostName) && Proper(layout, groups[i], hostName)
    requires multiset(sorted) == multiset(groups[i].entries) && Sorted(sorted, EntryOrder)
    ensures SortedSoFar(layout, groups, i + 1, r + [Group(groups[i].title, sorted)], hostName)
  {
    hide TitleOf, ShownOf, Origins, OriginsOf, Sorted, EntryOrder, Proper, SameClass;
    var g := Group(groups[i].title, sorted);
    OriginsOfPermutation(sorted, groups[i].entries);
    StaysProper(layout, groups[i], g, hostName);
    ProperIsNotEmpty(layout, g, hostName);
    ProperIsNotEmpty(layout, groups[i], hostName);
    OriginsConcat(r, [g]);
    OriginsConcat(groups[..i], [groups[i]]);
    assert groups[..i + 1] == groups[..i] + [groups[i]];
    OriginsOneGroup(g);
    OriginsOneGroup(groups[i]);
  }

  lemma AllGroupsSorted(layout: Layout, groups: seq<Group>, r: seq<Group>, hostName: int -> string)
    requires Grouped(layout, groups, hostName) && SortedSoFar(layout, groups, |groups|, r, hostName)
    ensures Grouped(layout, r, hostName) && AllSorted(r) && Origins(r) == Origins(groups) && SameTitles(r, groups)
  {
    hide Origins, Sorted, Proper;
    assert groups[..|groups|] == groups;
    forall j, k | 0 <= j < k < |r| ensures !SameClass(layout, r[j].entries[0].deployment, r[k].entries[0].deployment) {
      assert !SameClass(layout, groups[j].entries[0].deployment, groups[k].entries[0].deployment);
      assert StandsFor(layout, r[j], groups[j], hostName) && StandsFor(layout, r[k], groups[k], hostName);
    }
    assert forall k :: 0 <= k < |r| ==> StandsFor(layout, r[k], groups[k], hostName);
  }

  lemma StaysProper(layout: Layout, g: Group, h: Group, hostName: int -> string)
    requires Proper(layout, g, hostName) && h.title == g.title && multiset(h.entries) == multiset(g.entries)
    ensures Proper(layout, h, hostName) && SameClass(layout, h.entries[0].deployment, g.entries[0].deployment)
  {
    hide TitleOf, ShownOf;
    assert |h.entries| == |multiset(h.entries)| == |multiset(g.entries)| == |g.entries|;
    forall e | e in h.entries ensures e in g.entries {
      assert e in multiset(g.entries);
    }
    assert h.entries[0] in h.entries;
  }

  /** What the runs of an image are: one for each host. */
  lemma RunsAreHosts(ds: seq<Deployment>, image: string)
    requires OfImage(ds, image) && HostsAscend(ds)
    ensures HostRuns(Runs(ds, HostOf), image)
    ensures forall k :: 0 <= k < |Runs(ds, HostOf)| ==> OfImage(Runs(ds, HostOf)[k], image)
  {
    hide Runs, Flatten, HostsAscend, Contiguous, DistinctKeys;
    var byHost := Runs(ds, HostOf);
    AscendIsContiguous(ds);
    RunsDistinct(ds, HostOf);
    forall k | 0 <= k < |byHost| ensures OfImage(byHost[k], image) && HostRun(byHost[k], image) {
      forall d | d in byHost[k] ensures d in ds && d.host == byHost[k][0].host {
        InFlatten(byHost, d);
        assert HostOf(d) == HostOf(byHost[k][0]);
      }
    }
  }

  lemma LayoutByRuns(ds: seq<Deployment>, image: string)
    requires HostRuns(Runs(ds, HostOf), image)
    ensures var byHost := Runs(ds, HostOf);
      && |byHost| == |set d | d in ds :: d.host|
      && (OnePerHost(ds) <==> forall k :: 0 <= k < |byHost| ==> |NamesOf(byHost[k])| == 1)
  {
    hide Runs, Flatten;
    var byHost := Runs(ds, HostOf);
    SinglesOnly(byHost);
    HostsOfRuns(ds, byHost);
    CountHosts(byHost);
  }

  method GroupImage(ds: seq<Deployment>, image: string, hostName: int -> string) returns (groups: seq<Group>)
    requires OfImage(ds, image) && HostsAscend(ds)
    ensures Origins(groups) == multiset(ds) && Grouped(LayoutOf(ds), groups, hostName) && AllSorted(groups)
    ensures LayoutOf(ds).ByName? ==> Ascending(groups)
  {
    hide Origins, Runs, Flatten, Grouped, AllSorted, Ascending, HostsAscend, HostRuns, OnePerHost;
    RunsAreHosts(ds, image);
    LayoutByRuns(ds, image);
    var byHost := Runs(ds, HostOf);
    var names := set d | d in ds :: d.name;
    var onePerHost := forall k :: 0 <= k < |byHost| ==> |NamesOf(byHost[k])| == 1;
    if |byHost| >= 2 * |names| {
      groups := ByNames(byHost, image, onePerHost, hostName);
    } else {
      groups := ByHosts(byHost, image, hostName);
    }
  }

  // ---------------------------------------------------------------- all images

  /** The deployments of one image, as they come. */
  function Part(ds: seq<Deployment>, image: string): seq<Deployment> {
    if ds == [] then []
    else (if ds[0].image == image then [ds[0]] else []) + Part(ds[1..], image)
  }

  lemma {:induction false} PartCount(ds: seq<Deployment>, image: string, d: Deployment)
    ensures multiset(Part(ds, image))[d] == if d.image == image then multiset(ds)[d] else 0
  {
    if ds != [] {
      PartCount(ds[1..], image, d);
      assert ds == [ds[0]] + ds[1..];
    }
  }

  lemma {:induction false} FlattenCount(runs: seq<seq<Deployment>>, k: nat, d: Deployment)
    requires k < |runs| && forall j :: 0 <= j < |runs| && j != k ==> d !in runs[j]
    ensures multiset(Flatten(runs))[d] == multiset(runs[k])[d]
    decreases |runs|
  {
    if k > 0 {
      FlattenCount(runs[1..], k - 1, d);
    } else {
      InFlatten(runs[1..], d);
      assert d !in Flatten(runs[1..]);
    }
  }

  /** A run of the sorted deployments has all of its image and no others. */
  lemma RunIsPart(ds: seq<Deployment>, sorted: seq<Deployment>, k: nat)
    requires multiset(sorted) == multiset(ds) && k < |Runs(sorted, ImageOf)|
    requires DistinctKeys(Runs(sorted, ImageOf), ImageOf)
    ensures var run := Runs(sorted, ImageOf)[k];
      OfImage(run, run[0].image) && multiset(run) == multiset(Part(ds, run[0].image))
  {
    hide Part, Flatten, Runs;
    var runs := Runs(sorted, ImageOf);
    var image := ImageOf(runs[k][0]);
    assert forall j, x :: 0 <= j < |runs| && x in runs[j] ==> ImageOf(x) == ImageOf(runs[j][0]);
    forall d: Deployment ensures multiset(runs[k])[d] == multiset(Part(ds, image))[d] {
      PartCount(ds, image, d);
      if d.image == image {
        assert forall j :: 0 <= j < |runs| && j != k ==> ImageOf(runs[j][0]) != image;
        FlattenCount(runs, k, d);
      } else {
        assert d !in runs[k];
      }
    }
  }

  /** Two sequences with the same deployments get the same layout. */
  lemma LayoutOfPermutation(a: seq<Deployment>, b: seq<Deployment>)
    requires multiset(a) == multiset(b)
    ensures LayoutOf(a) == LayoutOf(b)
  {
    assert |a| == |multiset(a)| == |multiset(b)| == |b|;
    forall d ensures d in a <==> d in b {
      assert d in a <==> d in multiset(a);
    }
    assert (set d | d in a :: d.host) == set d | d in b :: d.host;
    assert (set d | d in a :: d.name) == set d | d in b :: d.name;
  }

  /** A group has the layout of its image. */
  predicate Fits(ds: seq<Deployment>, g: Group, hostName: int -> string) {
    && g.entries != [] && Sorted(g.entries, EntryOrder)
    && Proper(LayoutOf(Part(ds, g.entries[0].deployment.image)), g, hostName)
  }

  /** No two groups hold deployments of one class. */
  predicate AllSeparate(ds: seq<Deployment>, groups: seq<Group>)
    requires forall k :: 0 <= k < |groups| ==> groups[k].entries != []
  {
    forall j, k :: 0 <= j < k < |groups| ==>
      var a, b := groups[j].entries[0].deployment, groups[k].entries[0].deployment;
      !SameClass(LayoutOf(Part(ds, a.image)), a, b)
  }

  predicate FromImages(groups: seq<Group>, runs: seq<seq<Deployment>>)
    requires forall k :: 0 <= k < |runs| ==> runs[k] != []
  {
    forall k :: 0 <= k < |groups| ==>
      groups[k].entries != [] && ImageAmong(groups[k].entries[0].deployment.image, runs)
  }

  predicate ImageAmong(image: string, runs: seq<seq<Deployment>>)
    requires forall k :: 0 <= k < |runs| ==> runs[k] != []
  {
    exists j :: 0 <= j < |runs| && ImageOf(runs[j][0]) == image
  }

  lemma SortedImagesContiguous(ds: seq<Deployment>)
    requires Sorted(ds, ImageHostOrder)
    ensures Contiguous(ds, ImageOf)
  {
    hide Lex, Codes;
    forall i, j, k | 0 <= i < j < k < |ds| && ImageOf(ds[i]) == ImageOf(ds[k])
      ensures ImageOf(ds[j]) == ImageOf(ds[i])
    {
      ImageFirst(ds[i], ds[j]);
      ImageFirst(ds[j], ds[k]);
      assert ImageHostOrder(ds[i], ds[j]) != Greater && ImageHostOrder(ds[j], ds[k]) != Greater;
      LexFlips(Codes(ds[i].image), Codes(ds[j].image));
      LexEqual(Codes(ds[i].image), Codes(ds[j].image));
      if Codes(ds[i].image) == Codes(ds[j].image) { CodesInjective(ds[i].image, ds[j].image); }
    }
  }

  /** The image decides first, then the host. */
  lemma ImageFirst(a: Deployment, b: Deployment)
    ensures ImageHostOrder(a, b) ==
      if a.image != b.image then Lex(Codes(a.image), Codes(b.image)) else CompareInt(a.host, b.host)
  {
    LexSeparated(Codes(a.image), a.host, Codes(b.image), b.host);
    if Codes(a.image) == Codes(b.image) { CodesInjective(a.image, b.image); }
  }

  lemma {:induction false} LexSeparated(a: seq<int>, x: int, b: seq<int>, y: int)
    requires (forall k :: 0 <= k < |a| ==> a[k] >= 0) && (forall k :: 0 <= k < |b| ==> b[k] >= 0)
    ensures Lex(a + [-1, x], b + [-1, y]) == if a != b then Lex(a, b) else CompareInt(x, y)
    decreases |a|
  {
    var u, v := a + [-1, x], b + [-1, y];
    if a == [] && b == [] {
      assert u == [-1, x] && v == [-1, y] && u[1..] == [x] && v[1..] == [y];
      assert Lex([x], [y]) == CompareInt(x, y);
    } else if a != [] && b != [] {
      assert u[1..] == a[1..] + [-1, x] && v[1..] == b[1..] + [-1, y];
      LexSeparated(a[1..], x, b[1..], y);
      assert a == [a[0]] + a[1..] && b == [b[0]] + b[1..];
    }
  }

  lemma {:induction false} RunIsSlice<T>(runs: seq<seq<T>>, k: nat) returns (o: nat)
    requires k < |runs|
    ensures o + |runs[k]| <= |Flatten(runs)| && Flatten(runs)[o..o + |runs[k]|] == runs[k]
    decreases |runs|
  {
    if k == 0 {
      o := 0;
    } else {
      var p := RunIsSlice(runs[1..], k - 1);
      o := |runs[0]| + p;
      var rest := Flatten(runs[1..]);
      SliceBehind(runs[0], rest, p, |runs[k]|);
      assert Flatten(runs) == runs[0] + rest && runs[1..][k - 1] == runs[k];
    }
  }

  lemma SliceBehind<T>(a: seq<T>, b: seq<T>, p: nat, n: nat)
    requires p + n <= |b|
    ensures (a + b)[|a| + p..|a| + p + n] == b[p..p + n]
  {
  }

  lemma RunAscends(sorted: seq<Deployment>, k: nat)
    requires Sorted(sorted, ImageHostOrder) && k < |Runs(sorted, ImageOf)|
    ensures HostsAscend(Runs(sorted, ImageOf)[k])
  {
    hide Runs, Flatten, Lex, Codes, ImageHostOrder;
    var runs := Runs(sorted, ImageOf);
    var run := runs[k];
    var o := RunIsSlice(runs, k);
    forall i, j | 0 <= i < j < |run| ensures run[i].host <= run[j].host {
      assert run[i] == sorted[o + i] && run[j] == sorted[o + j];
      assert ImageHostOrder(sorted[o + i], sorted[o + j]) != Greater;
      assert run[i] in run && run[j] in run;
      assert ImageOf(run[i]) == ImageOf(run[j]);
      ImageFirst(run[i], run[j]);
    }
  }

  lemma {:induction false} FirstInOrigins(groups: seq<Group>, k: nat)
    requires k < |groups| && groups[k].entries != []
    ensures groups[k].entries[0].deployment in Origins(groups)
    decreases |groups|
  {
    if k > 0 { FirstInOrigins(groups[1..], k - 1); }
  }

  lemma MoreFit(ds: seq<Deployment>, run: seq<Deployment>, more: seq<Group>, hostName: int -> string)
    requires run != [] && OfImage(run, run[0].image) && LayoutOf(run) == LayoutOf(Part(ds, run[0].image))
    requires Origins(more) == multiset(run) && Grouped(LayoutOf(run), more, hostName) && AllSorted(more)
    ensures forall k :: 0 <= k < |more| ==>
      Fits(ds, more[k], hostName) && more[k].entries[0].deployment.image == run[0].image
  {
    hide Part, LayoutOf, Origins, Sorted, TitleOf, ShownOf, SameClass;
    forall k | 0 <= k < |more|
      ensures Fits(ds, more[k], hostName) && more[k].entries[0].deployment.image == run[0].image
    {
      FirstInOrigins(more, k);
      assert more[k].entries[0].deployment in run;
    }
  }

  lemma JoinGroups(ds: seq<Deployment>, groups: seq<Group>, runs: seq<seq<Deployment>>, i: nat, more: seq<Group>)
    requires i < |runs| && (forall k :: 0 <= k < |runs| ==> runs[k] != []) && DistinctKeys(runs, ImageOf)
    requires FromImages(groups, runs[..i]) && AllSeparate(ds, groups)
    requires forall k :: 0 <= k < |more| ==>
      more[k].entries != [] && more[k].entries[0].deployment.image == runs[i][0].image
    requires Separate(LayoutOf(Part(ds, runs[i][0].image)), more)
    ensures FromImages(groups + more, runs[..i + 1]) && AllSeparate(ds, groups + more)
  {
    hide Part, LayoutOf;
    var all := groups + more;
    forall k | 0 <= k < |all|
      ensures all[k].entries != [] && ImageAmong(all[k].entries[0].deployment.image, runs[..i + 1])
    {
      if k < |groups| {
        var j :| 0 <= j < |runs[..i]| && ImageOf(runs[..i][j][0]) == groups[k].entries[0].deployment.image;
        assert runs[..i + 1][j] == runs[..i][j];
      } else {
        assert all[k] == more[k - |groups|] && runs[..i + 1][i] == runs[i];
        assert ImageOf(runs[..i + 1][i][0]) == all[k].entries[0].deployment.image;
      }
    }
    forall j, k | 0 <= j < k < |all|
      ensures var a, b := all[j].entries[0].deployment, all[k].entries[0].deployment;
        !SameClass(LayoutOf(Part(ds, a.image)), a, b)
    {
      if k < |groups| {
        assert all[j] == groups[j] && all[k] == groups[k];
      } else if j >= |groups| {
        assert all[j] == more[j - |groups|] && all[k] == more[k - |groups|];
      } else {
        assert all[j] == groups[j] && all[k] == more[k - |groups|];
        assert ImageAmong(groups[j].entries[0].deployment.image, runs[..i]);
        var m :| 0 <= m < |runs[..i]| && ImageOf(runs[..i][m][0]) == groups[j].entries[0].deployment.image;
        assert ImageOf(runs[m][0]) != ImageOf(runs[i][0]);
      }
    }
  }

  /** What holds once the first `i` images are grouped. */
  ghost predicate GroupedSoFar(ds: seq<Deployment>, runs: seq<seq<Deployment>>, i: nat, groups: seq<Group>,
                               hostName: int -> string) {
    && i <= |runs| && (forall k :: 0 <= k < |runs| ==> runs[k] != []) && DistinctKeys(runs, ImageOf)
    && AllFit(ds, groups, hostName) && FromImages(groups, runs[..i]) && AllSeparate(ds, groups)
    && Origins(groups) + multiset(Flatten(runs[i..])) == multiset(ds)
  }

  lemma NothingGrouped(ds: seq<Deployment>, sorted: seq<Deployment>, hostName: int -> string)
    requires multiset(sorted) == multiset(ds) && Sorted(sorted, ImageHostOrder)
    ensures GroupedSoFar(ds, Runs(sorted, ImageOf), 0, [], hostName)
  {
    hide Sorted, ImageHostOrder, Contiguous, Runs, Flatten, Fits, LayoutOf, Part, SameClass;
    SortedImagesContiguous(sorted);
    RunsDistinct(sorted, ImageOf);
    var runs := Runs(sorted, ImageOf);
    assert runs[0..] == runs;
  }

  lemma GroupedOneMore(ds: seq<Deployment>, runs: seq<seq<Deployment>>, i: nat, groups: seq<Group>, more: seq<Group>,
                       hostName: int -> string)
    requires GroupedSoFar(ds, runs, i, groups, hostName) && i < |runs|
    requires IsGroupedRun(ds, runs[i], more, hostName)
    ensures GroupedSoFar(ds, runs, i + 1, groups + more, hostName)
  {
    hide Origins, Flatten, Part, Fits, SameClass, LayoutOf, FromImages, AllSeparate;
    JoinGroups(ds, groups, runs, i, more);
    OriginsConcat(groups, more);
    FlattenFrom(runs, i);
    hide DistinctKeys;
    assert multiset(runs[i] + Flatten(runs[i + 1..])) == multiset(runs[i]) + multiset(Flatten(runs[i + 1..]));
  }

  lemma AllGrouped(ds: seq<Deployment>, runs: seq<seq<Deployment>>, groups: seq<Group>, hostName: int -> string)
    requires GroupedSoFar(ds, runs, |runs|, groups, hostName)
    ensures Origins(groups) == multiset(ds) && AllFit(ds, groups, hostName) && AllSeparate(ds, groups)
  {
    hide Origins;
    FlattenFrom(runs, |runs|);
  }

  predicate AllFit(ds: seq<Deployment>, groups: seq<Group>, hostName: int -> string) {
    forall k :: 0 <= k < |groups| ==> groups[k].entries != [] && Fits(ds, groups[k], hostName)
  }

  /** The groups of one image. */
  predicate IsGroupedRun(ds: seq<Deployment>, run: seq<Deployment>, more: seq<Group>, hostName: int -> string) {
    && run != [] && Origins(more) == multiset(run) && AllFit(ds, more, hostName)
    && (forall k :: 0 <= k < |more| ==> more[k].entries[0].deployment.image == run[0].image)
    && Separate(LayoutOf(Part(ds, run[0].image)), more)
  }

  method GroupRun(ghost ds: seq<Deployment>, ghost sorted: seq<Deployment>, ghost i: nat, run: seq<Deployment>,
                  hostName: int -> string)
    returns (more: seq<Group>)
    requires multiset(sorted) == multiset(ds) && Sorted(sorted, ImageHostOrder)
    requires i < |Runs(sorted, ImageOf)| && run == Runs(sorted, ImageOf)[i]
    requires DistinctKeys(Runs(sorted, ImageOf), ImageOf)
    ensures IsGroupedRun(ds, run, more, hostName)
  {
    hide Origins, Runs, Flatten, Part, SameClass, LayoutOf, ImageHostOrder;
    RunIsPart(ds, sorted, i);
    RunAscends(sorted, i);
    LayoutOfPermutation(run, Part(ds, run[0].image));
    more := GroupImage(run, run[0].image, hostName);
    MoreFit(ds, run, more, hostName);
  }

  /** `group_deployments`: every deployment is in exactly one group, the groups are the classes of
      the layout each image calls for, and each is in natural order. */
  method GroupDeployments(ds: seq<Deployment>, hostName: int -> string) returns (groups: seq<Group>)
    ensures Origins(groups) == multiset(ds)
    ensures AllFit(ds, groups, hostName) && AllSeparate(ds, groups)
  {
    hide Origins, Runs, Fits, AllFit, AllSeparate, Sorted, IsPreorder, IsGroupedRun;
    ImageHostIsPreorder();
    var sorted := SortBy(ds, ImageHostOrder);
    var runs := Runs(sorted, ImageOf);
    groups := [];
    NothingGrouped(ds, sorted, hostName);
    assert DistinctKeys(runs, ImageOf);
    hide GroupedSoFar;
    for i := 0 to |runs|
      invariant GroupedSoFar(ds, runs, i, groups, hostName)
    {
      var more := GroupRun(ds, sorted, i, runs[i], hostName);
      GroupedOneMore(ds, runs, i, groups, more, hostName);
      groups := groups + more;
    }
    AllGrouped(ds, runs, groups, hostName);
  }
}
