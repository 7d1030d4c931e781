/** Grouping of evidence for display: a union-find over keys shared between observations. */
module Association {
  import opened Sequences
  import opened Ordering
  import opened Evidence

  // ----- keys

  function PlatformName(p: Platform): string {
    match p
    case Windows => "windows"
    case MacOS => "macos"
  }

  function NodeOf(ev: AppEvidence): string { PlatformName(ev.platform) + "\n" + ev.runtimeIdentity }

  const KEY_FIELDS: seq<(Field, string)> := [
    (DistributionKey, "distributionKey"), (ProductKey, "productKey"), (HostedAppId, "hostedAppId"),
    (PackageId, "packageId"), (BinaryHash, "binaryHash")]

  predicate HasVerified(ev: AppEvidence, f: Field) {
    f in ev.verifiedFields && f in ev.values && ev.values[f] != ""
  }

  function FieldKey(name: string, p: Platform, value: string): string {
    name + ":" + PlatformName(p) + ":" + value
  }

  function FieldKeys(ev: AppEvidence, n: nat): seq<string>
    requires n <= |KEY_FIELDS|
  {
    if n == 0 then []
    else
      var (f, name) := KEY_FIELDS[n - 1];
      FieldKeys(ev, n - 1) + if HasVerified(ev, f) then [FieldKey(name, ev.platform, ev.values[f])] else []
  }

  function AssociationKeys(ev: AppEvidence): seq<string> {
    [FieldKey("identity", ev.platform, ev.runtimeIdentity)] + FieldKeys(ev, |KEY_FIELDS|)
  }

  // ----- which keys associate

  predicate HasPrefix(s: string, prefix: string) { |prefix| <= |s| && s[..|prefix|] == prefix }

  function PackagesOf(group: seq<AppEvidence>): set<string> {
    set item | item in group && HasVerified(item, PackageId) :: item.values[PackageId]
  }

  /** An executable that several packages share says nothing about any of them. */
  predicate Admits(key: string, group: seq<AppEvidence>) {
    HasPrefix(key, "binaryHash:") ==> |PackagesOf(group)| <= 1
  }

  function GroupOf(evidence: seq<AppEvidence>, key: string): seq<AppEvidence> {
    Filter(evidence, (item: AppEvidence) => key in AssociationKeys(item))
  }

  ghost predicate Admitted(evidence: seq<AppEvidence>, key: string) { Admits(key, GroupOf(evidence, key)) }

  // ----- the specification: connected components

  function Nodes(evidence: seq<AppEvidence>): set<string> { set item | item in evidence :: NodeOf(item) }

  /** Two observations share an admitted key. */
  ghost predicate Linked(evidence: seq<AppEvidence>, a: string, b: string) {
    exists x, y, key :: x in evidence && y in evidence && NodeOf(x) == a && NodeOf(y) == b
                        && key in AssociationKeys(x) && key in AssociationKeys(y) && Admitted(evidence, key)
  }

  ghost predicate IsChain(evidence: seq<AppEvidence>, chain: seq<string>) {
    chain != [] && forall i :: 0 <= i < |chain| - 1 ==> Linked(evidence, chain[i], chain[i + 1])
  }

  ghost predicate Connected(evidence: seq<AppEvidence>, a: string, b: string) {
    exists chain :: IsChain(evidence, chain) && chain[0] == a && chain[|chain| - 1] == b
  }

  /** Every node is mapped to the least node of its component. */
  ghost predicate IsComponentMap(evidence: seq<AppEvidence>, roots: map<string, string>) {
    && roots.Keys == Nodes(evidence)
    && (forall a, b :: a in roots && b in roots ==> (roots[a] == roots[b] <==> Connected(evidence, a, b)))
    && (forall a {:trigger roots[a]} :: a in roots ==>
          roots[a] in roots && roots[roots[a]] == roots[a] && Connected(evidence, a, roots[a]))
    && (forall a, b :: a in roots && b in roots && Connected(evidence, a, b) ==> AtMost(roots[a], b))
  }

  // ----- the forest

  /** Every parent is a node and not greater than its child. */
  ghost predicate IsForest(parents: map<string, string>) {
    forall a {:trigger parents[a]} :: a in parents ==> parents[a] in parents && AtMost(parents[a], a)
  }

  ghost function Below(parents: map<string, string>, a: string): set<string> {
    set b | b in parents && Less(b, a)
  }

  lemma {:induction false} BelowShrinks(parents: map<string, string>, a: string)
    requires IsForest(parents) && a in parents && parents[a] != a
    ensures Below(parents, parents[a]) < Below(parents, a)
  {
    var p := parents[a];
    forall b | b in Below(parents, p) ensures b in Below(parents, a) {
      LessTransitive(b, p, a);
    }
    assert p in Below(parents, a) && p !in Below(parents, p) by {
      if Less(p, p) {
        LessAsymmetric(p, p);
      }
    }
  }

  function Root(parents: map<string, string>, a: string): (r: string)
    requires IsForest(parents) && a in parents
    ensures r in parents && parents[r] == r && AtMost(r, a)
    decreases Below(parents, a)
  {
    if parents[a] == a then a
    else
      BelowShrinks(parents, a);
      var r := Root(parents, parents[a]);
      assert AtMost(r, a) by {
        if r != parents[a] {
          LessTransitive(r, parents[a], a);
        }
      }
      r
  }

  function Join(parents: map<string, string>, left: string, right: string): map<string, string>
    requires IsForest(parents) && left in parents && right in parents
  {
    var a, b := Root(parents, left), Root(parents, right);
    if a == b then parents else parents[(if Less(a, b) then b else a) := (if Less(a, b) then a else b)]
  }

  lemma {:induction false} JoinIsForest(parents: map<string, string>, left: string, right: string)
    requires IsForest(parents) && left in parents && right in parents
    ensures IsForest(Join(parents, left, right)) && Join(parents, left, right).Keys == parents.Keys
  {
    LessTotal(Root(parents, left), Root(parents, right));
  }

  lemma {:induction false} RootStep(parents: map<string, string>, c: string)
    requires IsForest(parents) && c in parents
    ensures parents[c] in parents
    ensures Root(parents, c) == if parents[c] == c then c else Root(parents, parents[c])
  {
  }

  /** A union changes one entry: that of the greater of two different roots. */
  lemma {:induction false} JoinChanges(parents: map<string, string>, left: string, right: string, c: string)
    requires IsForest(parents) && left in parents && right in parents && c in parents
    ensures var a, b := Root(parents, left), Root(parents, right);
            var lesser, greater := (if Less(a, b) then a else b), (if Less(a, b) then b else a);
            && c in Join(parents, left, right)
            && Join(parents, left, right)[c] == (if a != b && c == greater then lesser else parents[c])
            && (a == b ==> Join(parents, left, right) == parents)
  {
    hide Less, IsForest, Root;
  }

  /** A union changes the root of exactly the two trees it joins, to the lesser of the two roots. */
  lemma {:induction false} RootAfterJoin(parents: map<string, string>, left: string, right: string, c: string)
    requires IsForest(parents) && left in parents && right in parents && c in parents
    requires IsForest(Join(parents, left, right))
    ensures var a, b := Root(parents, left), Root(parents, right);
            Root(Join(parents, left, right), c)
            == if Root(parents, c) in {a, b} then (if Less(a, b) then a else b) else Root(parents, c)
    decreases Below(parents, c)
  {
    hide Less, AtMost, IsForest, Root, Join;
    var a, b := Root(parents, left), Root(parents, right);
    var joined := Join(parents, left, right);
    var lesser := if Less(a, b) then a else b;
    JoinChanges(parents, left, right, c);
    JoinChanges(parents, left, right, lesser);
    RootStep(parents, c);
    RootStep(joined, c);
    RootStep(joined, lesser);
    if parents[c] != c {
      BelowShrinks(parents, c);
      RootAfterJoin(parents, left, right, parents[c]);
    }
  }

  // ----- connectedness is an equivalence

  lemma {:induction false} ConnectedSelf(evidence: seq<AppEvidence>, a: string)
    ensures Connected(evidence, a, a)
  {
    assert IsChain(evidence, [a]);
  }

  lemma {:induction false} LinkedSymmetric(evidence: seq<AppEvidence>, a: string, b: string)
    requires Linked(evidence, a, b)
    ensures Linked(evidence, b, a)
  {
    hide AssociationKeys, NodeOf, Admitted;
  }

  lemma {:induction false} ConnectedLinked(evidence: seq<AppEvidence>, a: string, b: string)
    requires Linked(evidence, a, b)
    ensures Connected(evidence, a, b)
  {
    hide Linked;
    assert IsChain(evidence, [a, b]);
  }

  lemma {:induction false} ConnectedTransitive(evidence: seq<AppEvidence>, a: string, b: string, c: string)
    requires Connected(evidence, a, b) && Connected(evidence, b, c)
    ensures Connected(evidence, a, c)
  {
    hide Linked;
    var s :| IsChain(evidence, s) && s[0] == a && s[|s| - 1] == b;
    var t :| IsChain(evidence, t) && t[0] == b && t[|t| - 1] == c;
    var u := s + t[1..];
    forall i | 0 <= i < |u| - 1 ensures Linked(evidence, u[i], u[i + 1]) {
      if i >= |s| - 1 {
        assert u[i] == t[i - (|s| - 1)] && u[i + 1] == t[i - (|s| - 1) + 1];
      }
    }
    assert IsChain(evidence, u) && u[0] == a && u[|u| - 1] == c;
  }

  lemma {:induction false} ConnectedSymmetric(evidence: seq<AppEvidence>, a: string, b: string)
    requires Connected(evidence, a, b)
    ensures Connected(evidence, b, a)
  {
    hide Linked;
    var s :| IsChain(evidence, s) && s[0] == a && s[|s| - 1] == b;
    var t := seq(|s|, i requires 0 <= i < |s| => s[|s| - 1 - i]);
    forall i | 0 <= i < |t| - 1 ensures Linked(evidence, t[i], t[i + 1]) {
      assert t[i] == s[|s| - 2 - i + 1] && t[i + 1] == s[|s| - 2 - i];
      LinkedSymmetric(evidence, s[|s| - 2 - i], s[|s| - 2 - i + 1]);
    }
    assert IsChain(evidence, t) && t[0] == b && t[|t| - 1] == a;
  }

  // ----- the trees of the forest

  /** The root of every node. */
  function Roots(parents: map<string, string>): (roots: map<string, string>)
    requires IsForest(parents)
    ensures roots.Keys == parents.Keys
  {
    map a | a in parents :: Root(parents, a)
  }

  lemma {:induction false} RootsAt(parents: map<string, string>, a: string)
    requires IsForest(parents) && a in parents
    ensures Roots(parents)[a] == Root(parents, a)
  {
  }

  /** The two trees become one, named by the lesser of their roots. */
  ghost function JoinRoots(roots: map<string, string>, left: string, right: string): (r: map<string, string>)
    requires left in roots && right in roots
    ensures r.Keys == roots.Keys
    ensures forall c {:trigger r[c]} :: c in roots ==>
              r[c] == if roots[c] == roots[left] || roots[c] == roots[right]
                      then (if Less(roots[left], roots[right]) then roots[left] else roots[right])
                      else roots[c]
  {
    map c | c in roots :: if roots[c] == roots[left] || roots[c] == roots[right]
                          then (if Less(roots[left], roots[right]) then roots[left] else roots[right])
                          else roots[c]
  }

  lemma {:induction false} RootsAfterJoin(parents: map<string, string>, left: string, right: string)
    requires IsForest(parents) && left in parents && right in parents
    ensures IsForest(Join(parents, left, right))
    ensures Roots(Join(parents, left, right)) == JoinRoots(Roots(parents), left, right)
  {
    hide Join, Root, IsForest, Less, Roots, JoinRoots;
    JoinIsForest(parents, left, right);
    JoinKeeps(parents, left, right);
    forall c | c in parents ensures Roots(Join(parents, left, right))[c] == JoinRoots(Roots(parents), left, right)[c] {
      RootsAfterJoinAt(parents, left, right, c);
    }
  }

  lemma {:induction false} JoinKeeps(parents: map<string, string>, left: string, right: string)
    requires IsForest(parents) && left in parents && right in parents
    ensures Join(parents, left, right).Keys == parents.Keys
  {
    hide Less, IsForest, Root;
  }

  lemma {:induction false} RootsAfterJoinAt(parents: map<string, string>, left: string, right: string, c: string)
    requires IsForest(parents) && left in parents && right in parents && c in parents
    requires IsForest(Join(parents, left, right)) && c in Join(parents, left, right)
    ensures Roots(Join(parents, left, right))[c] == JoinRoots(Roots(parents), left, right)[c]
  {
    hide Join, Root, IsForest, Less, Roots;
    RootsAt(parents, left);
    RootsAt(parents, right);
    RootsAt(parents, c);
    RootsAt(Join(parents, left, right), c);
    RootAfterJoin(parents, left, right, c);
  }

  /** Every node is connected to its root, which is a node not greater than itself. */
  ghost predicate SoundAt(evidence: seq<AppEvidence>, roots: map<string, string>, a: string) {
    && a in roots && roots[a] in roots && roots[roots[a]] == roots[a]
    && AtMost(roots[a], a) && Connected(evidence, a, roots[a])
  }

  ghost predicate Sound(evidence: seq<AppEvidence>, roots: map<string, string>) {
    forall a {:trigger SoundAt(evidence, roots, a)} :: a in roots ==> SoundAt(evidence, roots, a)
  }

  ghost predicate SameTree(roots: map<string, string>, a: string, b: string) {
    a in roots && b in roots && roots[a] == roots[b]
  }

  /** Nodes that were in one tree still are. */
  ghost predicate Coarser(roots: map<string, string>, roots': map<string, string>) {
    roots'.Keys == roots.Keys && forall a, b :: SameTree(roots, a, b) ==> SameTree(roots', a, b)
  }

  lemma {:induction false} RootsAreSound(evidence: seq<AppEvidence>, parents: map<string, string>)
    requires forall a :: a in parents ==> parents[a] == a
    ensures IsForest(parents) && Sound(evidence, Roots(parents))
  {
    forall a | a in parents ensures Connected(evidence, a, Root(parents, a)) {
      ConnectedSelf(evidence, a);
    }
  }

  lemma {:induction false} JoinedRoot(roots: map<string, string>, left: string, right: string, c: string)
    requires left in roots && right in roots && c in roots && AtMost(roots[c], c)
    ensures AtMost(JoinRoots(roots, left, right)[c], c)
    ensures var r := JoinRoots(roots, left, right)[c];
            r == roots[c] || (roots[c] in {roots[left], roots[right]} && r in {roots[left], roots[right]})
  {
    hide JoinRoots;
    var a, b := roots[left], roots[right];
    LessTotal(a, b);
    if Less(a, b) && Less(b, c) {
      LessTransitive(a, b, c);
    }
    if Less(b, a) && Less(a, c) {
      LessTransitive(b, a, c);
    }
    hide Less;
  }

  lemma {:induction false} JoinIsCoarser(roots: map<string, string>, left: string, right: string)
    requires left in roots && right in roots
    ensures Coarser(roots, JoinRoots(roots, left, right))
    ensures SameTree(JoinRoots(roots, left, right), left, right)
  {
    hide Less, JoinRoots;
  }

  lemma {:induction false} JoinIsSoundAt(evidence: seq<AppEvidence>, roots: map<string, string>, left: string,
                                         right: string, c: string)
    requires SoundAt(evidence, roots, left) && SoundAt(evidence, roots, right) && SoundAt(evidence, roots, c)
    requires Connected(evidence, left, right)
    ensures SoundAt(evidence, JoinRoots(roots, left, right), c)
  {
    hide Connected, AtMost, JoinRoots, Less;
    var a, b := roots[left], roots[right];
    var r := JoinRoots(roots, left, right)[c];
    ConnectedSymmetric(evidence, left, a);
    ConnectedTransitive(evidence, a, left, right);
    ConnectedTransitive(evidence, a, right, b);
    ConnectedSymmetric(evidence, a, b);
    ConnectedSelf(evidence, a);
    ConnectedSelf(evidence, b);
    JoinedRoot(roots, left, right, c);
    ConnectedSelf(evidence, roots[c]);
    ConnectedTransitive(evidence, c, roots[c], r);
  }

  lemma {:induction false} JoinIsSound(evidence: seq<AppEvidence>, roots: map<string, string>, left: string,
                                       right: string)
    requires Sound(evidence, roots) && left in roots && right in roots && Connected(evidence, left, right)
    ensures Sound(evidence, JoinRoots(roots, left, right))
  {
    hide SoundAt, Connected, JoinRoots, Less;
    assert SoundAt(evidence, roots, left) && SoundAt(evidence, roots, right);
    forall c | c in JoinRoots(roots, left, right) ensures SoundAt(evidence, JoinRoots(roots, left, right), c) {
      assert SoundAt(evidence, roots, c);
      JoinIsSoundAt(evidence, roots, left, right, c);
    }
  }

  lemma {:induction false} CoarserTransitive(p: map<string, string>, q: map<string, string>, r: map<string, string>)
    requires Coarser(p, q) && Coarser(q, r)
    ensures Coarser(p, r)
  {
    hide SameTree;
  }

  /** Every two observations that share the key are in one tree. */
  ghost predicate Together(evidence: seq<AppEvidence>, roots: map<string, string>, key: string) {
    forall x, y :: x in evidence && y in evidence && key in AssociationKeys(x) && key in AssociationKeys(y)
                   ==> SameTree(roots, NodeOf(x), NodeOf(y))
  }

  ghost predicate IsGroup(evidence: seq<AppEvidence>, group: seq<AppEvidence>, key: string) {
    forall x :: x in group <==> x in evidence && key in AssociationKeys(x)
  }

  lemma {:induction false} GroupAdmits(evidence: seq<AppEvidence>, group: seq<AppEvidence>, key: string)
    requires IsGroup(evidence, group, key)
    ensures Admits(key, group) <==> Admitted(evidence, key)
  {
    hide AssociationKeys, HasPrefix;
    assert forall x :: x in group <==> x in GroupOf(evidence, key);
    assert PackagesOf(group) == PackagesOf(GroupOf(evidence, key));
  }

  lemma {:induction false} StaysTogether(evidence: seq<AppEvidence>, roots: map<string, string>,
                                         roots': map<string, string>, key: string)
    requires Together(evidence, roots, key) && Coarser(roots, roots')
    ensures Together(evidence, roots', key)
  {
    hide AssociationKeys, NodeOf, SameTree;
  }

  lemma {:induction false} GroupIsTogether(evidence: seq<AppEvidence>, roots: map<string, string>,
                                           group: seq<AppEvidence>, key: string)
    requires IsGroup(evidence, group, key) && group != []
    requires forall j :: 0 <= j < |group| ==> SameTree(roots, NodeOf(group[0]), NodeOf(group[j]))
    ensures Together(evidence, roots, key)
  {
    hide AssociationKeys, NodeOf;
    forall x, y | x in evidence && y in evidence && key in AssociationKeys(x) && key in AssociationKeys(y)
      ensures SameTree(roots, NodeOf(x), NodeOf(y)) {
      assert x in group && y in group;
    }
  }

  lemma {:induction false} GroupStep(evidence: seq<AppEvidence>, roots: map<string, string>, group: seq<AppEvidence>,
                                     key: string, x: AppEvidence, y: AppEvidence)
    requires Sound(evidence, roots) && roots.Keys == Nodes(evidence)
    requires x in group && y in group && IsGroup(evidence, group, key) && Admitted(evidence, key)
    ensures NodeOf(x) in roots && NodeOf(y) in roots
    ensures Sound(evidence, JoinRoots(roots, NodeOf(x), NodeOf(y)))
  {
    hide AssociationKeys, NodeOf, Connected, JoinRoots, Admitted, Sound;
    assert Linked(evidence, NodeOf(x), NodeOf(y));
    ConnectedLinked(evidence, NodeOf(x), NodeOf(y));
    JoinIsSound(evidence, roots, NodeOf(x), NodeOf(y));
  }

  method JoinGroup(ghost evidence: seq<AppEvidence>, parents: map<string, string>, group: seq<AppEvidence>,
                   ghost key: string)
    returns (parents': map<string, string>)
    requires IsForest(parents) && Sound(evidence, Roots(parents)) && parents.Keys == Nodes(evidence)
    requires group != [] && IsGroup(evidence, group, key) && Admitted(evidence, key)
    ensures IsForest(parents') && Sound(evidence, Roots(parents')) && Coarser(Roots(parents), Roots(parents'))
    ensures Together(evidence, Roots(parents'), key)
  {
    hide AssociationKeys, NodeOf, Join, Root, Roots, JoinRoots, IsForest, Admitted, Sound, SameTree, Coarser, IsGroup,
         Nodes, Together;
    parents' := parents;
    ghost var start := Roots(parents);
    ghost var roots := start;
    CoarserSelf(start);
    for i := 0 to |group|
      invariant IsForest(parents') && Roots(parents') == roots && parents'.Keys == Nodes(evidence)
      invariant Sound(evidence, roots) && Coarser(start, roots)
      invariant forall j :: 0 <= j < i ==> SameTree(roots, NodeOf(group[0]), NodeOf(group[j]))
    {
      GroupStep(evidence, roots, group, key, group[0], group[i]);
      var left, right := NodeOf(group[0]), NodeOf(group[i]);
      ghost var roots' := JoinRoots(roots, left, right);
      JoinIsCoarser(roots, left, right);
      CoarserTransitive(start, roots, roots');
      RootsAfterJoin(parents', left, right);
      forall j | 0 <= j < i ensures SameTree(roots', left, NodeOf(group[j])) {
        StaysInTree(roots, roots', left, NodeOf(group[j]));
      }
      parents' := Join(parents', left, right);
      roots := roots';
    }
    GroupIsTogether(evidence, roots, group, key);
  }

  lemma {:induction false} CoarserSelf(roots: map<string, string>)
    ensures Coarser(roots, roots)
  {
  }

  lemma {:induction false} StaysInTree(roots: map<string, string>, roots': map<string, string>, a: string, b: string)
    requires Coarser(roots, roots') && SameTree(roots, a, b)
    ensures SameTree(roots', a, b)
  {
  }

  method GroupByKey(evidence: seq<AppEvidence>) returns (groups: map<string, seq<AppEvidence>>, order: seq<string>)
    ensures forall key :: key in order <==> key in groups
    ensures forall key :: key in groups <==> exists x :: x in evidence && key in AssociationKeys(x)
    ensures forall key :: key in groups ==> groups[key] != [] && IsGroup(evidence, groups[key], key)
  {
    groups, order := map[], [];
    hide AssociationKeys;
    for i := 0 to |evidence|
      invariant forall key :: key in order <==> key in groups
      invariant forall key :: key in groups <==> exists x :: x in evidence[..i] && key in AssociationKeys(x)
      invariant forall key :: key in groups ==> groups[key] != [] && IsGroup(evidence[..i], groups[key], key)
    {
      var item := evidence[i];
      var keys := AssociationKeys(item);
      ghost var before := groups;
      for j := 0 to |keys|
        invariant forall key :: key in order <==> key in groups
        invariant forall key :: key in groups <==> key in before || key in keys[..j]
        invariant forall key :: key in groups ==> groups[key] != []
        invariant forall key, x :: key in groups ==>
                    (x in groups[key] <==> (key in before && x in before[key]) || (x == item && key in keys[..j]))
      {
        var key := keys[j];
        assert keys[..j + 1] == keys[..j] + [key];
        if key in groups {
          groups := groups[key := groups[key] + [item]];
        } else {
          groups, order := groups[key := [item]], order + [key];
        }
      }
      assert keys[..|keys|] == keys;
      assert evidence[..i + 1] == evidence[..i] + [item];
    }
    assert evidence[..|evidence|] == evidence;
  }

  method InitialParents(evidence: seq<AppEvidence>) returns (parents: map<string, string>)
    ensures parents.Keys == Nodes(evidence)
    ensures forall a :: a in parents ==> parents[a] == a
  {
    parents := map[];
    hide NodeOf;
    for i := 0 to |evidence|
      invariant parents.Keys == Nodes(evidence[..i])
      invariant forall a :: a in parents ==> parents[a] == a
    {
      assert evidence[..i + 1] == evidence[..i] + [evidence[i]];
      parents := parents[NodeOf(evidence[i]) := NodeOf(evidence[i])];
    }
    assert evidence[..|evidence|] == evidence;
  }

  /** The grouping is exactly the connected components, each named by its least node. */
  method AssociateApplicationEvidence(evidence: seq<AppEvidence>) returns (roots: map<string, string>)
    ensures IsComponentMap(evidence, roots)
  {
    hide AssociationKeys, NodeOf, Root, Roots, IsForest, Admits, Admitted, Nodes, Sound, Together, IsGroup, Coarser,
         IsComponentMap;
    var parents := InitialParents(evidence);
    RootsAreSound(evidence, parents);
    ghost var trees := Roots(parents);
    var groups, order := GroupByKey(evidence);
    for i := 0 to |order|
      invariant IsForest(parents) && trees == Roots(parents) && Sound(evidence, trees)
                && parents.Keys == Nodes(evidence)
      invariant forall j :: 0 <= j < i && Admitted(evidence, order[j]) ==> Together(evidence, trees, order[j])
    {
      var key := order[i];
      var group := groups[key];
      GroupAdmits(evidence, group, key);
      if Admits(key, group) {
        parents := JoinGroup(evidence, parents, group, key);
        forall j | 0 <= j < i && Admitted(evidence, order[j]) ensures Together(evidence, Roots(parents), order[j]) {
          StaysTogether(evidence, trees, Roots(parents), order[j]);
        }
        CoarserKeys(trees, Roots(parents));
        trees := Roots(parents);
      }
    }
    AllTogether(evidence, trees, order);
    RootsAreComponents(evidence, trees);
    roots := Roots(parents);
  }

  lemma {:induction false} CoarserKeys(roots: map<string, string>, roots': map<string, string>)
    requires Coarser(roots, roots')
    ensures roots'.Keys == roots.Keys
  {
  }

  /** A key that no observation has groups nothing. */
  lemma {:induction false} AllTogether(evidence: seq<AppEvidence>, roots: map<string, string>, order: seq<string>)
    requires forall key :: key in order <==> exists x :: x in evidence && key in AssociationKeys(x)
    requires forall j :: 0 <= j < |order| && Admitted(evidence, order[j]) ==> Together(evidence, roots, order[j])
    ensures forall key :: Admitted(evidence, key) ==> Together(evidence, roots, key)
  {
    hide AssociationKeys, NodeOf, Admitted;
    forall key | Admitted(evidence, key) ensures Together(evidence, roots, key) {
      if key in order {
        var j :| 0 <= j < |order| && order[j] == key;
      }
    }
  }

  lemma {:induction false} ChainStaysInTree(evidence: seq<AppEvidence>, roots: map<string, string>, chain: seq<string>)
    requires IsChain(evidence, chain) && chain[0] in roots
    requires forall key :: Admitted(evidence, key) ==> Together(evidence, roots, key)
    ensures SameTree(roots, chain[0], chain[|chain| - 1])
  {
    if |chain| > 1 {
      assert Linked(evidence, chain[0], chain[0 + 1]);
      LinkStaysInTree(evidence, roots, chain[0], chain[1]);
      hide Linked, Admitted, Together;
      forall i | 0 <= i < |chain[1..]| - 1 ensures Linked(evidence, chain[1..][i], chain[1..][i + 1]) {
        assert Linked(evidence, chain[i + 1], chain[i + 1 + 1]);
      }
      ChainStaysInTree(evidence, roots, chain[1..]);
    }
  }

  lemma {:induction false} LinkStaysInTree(evidence: seq<AppEvidence>, roots: map<string, string>, a: string, b: string)
    requires Linked(evidence, a, b)
    requires forall key :: Admitted(evidence, key) ==> Together(evidence, roots, key)
    ensures SameTree(roots, a, b)
  {
    hide AssociationKeys, NodeOf, Admitted;
  }

  lemma {:induction false} RootsAreComponents(evidence: seq<AppEvidence>, roots: map<string, string>)
    requires Sound(evidence, roots) && roots.Keys == Nodes(evidence)
    requires forall key :: Admitted(evidence, key) ==> Together(evidence, roots, key)
    ensures IsComponentMap(evidence, roots)
  {
    hide Admitted, Together, Nodes, IsChain, AtMost;
    assert forall a :: a in roots ==> SoundAt(evidence, roots, a);
    forall a, b | a in roots && b in roots
      ensures roots[a] == roots[b] <==> Connected(evidence, a, b)
      ensures Connected(evidence, a, b) ==> AtMost(roots[a], b)
    {
      if Connected(evidence, a, b) {
        ConnectedInTree(evidence, roots, a, b);
      }
      if roots[a] == roots[b] {
        hide Connected;
        ConnectedSymmetric(evidence, b, roots[b]);
        ConnectedTransitive(evidence, a, roots[a], b);
      }
    }
  }

  lemma {:induction false} ConnectedInTree(evidence: seq<AppEvidence>, roots: map<string, string>, a: string, b: string)
    requires Connected(evidence, a, b) && a in roots
    requires forall key :: Admitted(evidence, key) ==> Together(evidence, roots, key)
    ensures SameTree(roots, a, b)
  {
    hide Admitted, Together, Linked;
    var chain :| IsChain(evidence, chain) && chain[0] == a && chain[|chain| - 1] == b;
    ChainStaysInTree(evidence, roots, chain);
  }

  // ----- order independence

  lemma {:induction false} ConnectedByMembers(evidence: seq<AppEvidence>, evidence': seq<AppEvidence>, a: string,
                                              b: string)
    requires forall x :: x in evidence <==> x in evidence'
    requires Connected(evidence, a, b)
    ensures Connected(evidence', a, b)
  {
    hide AssociationKeys, NodeOf;
    var chain :| IsChain(evidence, chain) && chain[0] == a && chain[|chain| - 1] == b;
    forall i | 0 <= i < |chain| - 1 ensures Linked(evidence', chain[i], chain[i + 1]) {
      LinkedByMembers(evidence, evidence', chain[i], chain[i + 1]);
    }
    assert IsChain(evidence', chain);
  }

  lemma {:induction false} LinkedByMembers(evidence: seq<AppEvidence>, evidence': seq<AppEvidence>, a: string,
                                           b: string)
    requires forall x :: x in evidence <==> x in evidence'
    requires Linked(evidence, a, b)
    ensures Linked(evidence', a, b)
  {
    hide AssociationKeys, NodeOf, Admits;
    var x, y, key :| x in evidence && y in evidence && NodeOf(x) == a && NodeOf(y) == b
                     && key in AssociationKeys(x) && key in AssociationKeys(y) && Admitted(evidence, key);
    GroupAdmits(evidence', GroupOf(evidence, key), key);
    assert x in evidence' && y in evidence';
  }

  lemma {:induction false} NodesByMembers(evidence: seq<AppEvidence>, evidence': seq<AppEvidence>)
    requires forall x :: x in evidence <==> x in evidence'
    ensures Nodes(evidence) == Nodes(evidence')
  {
    hide NodeOf;
  }

  lemma {:induction false} ComponentKeys(evidence: seq<AppEvidence>, roots: map<string, string>)
    requires IsComponentMap(evidence, roots)
    ensures roots.Keys == Nodes(evidence)
  {
  }

  /** The root is connected to its node, and not greater than another node that the node is connected to. */
  lemma {:induction false} RootIsLeast(evidence: seq<AppEvidence>, roots: map<string, string>, a: string, b: string)
    requires IsComponentMap(evidence, roots) && a in Nodes(evidence) && b in Nodes(evidence)
    ensures a in roots && roots[a] in Nodes(evidence) && Connected(evidence, a, roots[a])
    ensures Connected(evidence, a, b) ==> AtMost(roots[a], b)
  {
    hide Connected, Nodes, AtMost;
  }

  /** The map depends only on which observations there are, not on their order or repetition. */
  lemma {:induction false} ComponentMapIsUnique(evidence: seq<AppEvidence>, evidence': seq<AppEvidence>,
                                                roots: map<string, string>, roots': map<string, string>)
    requires forall x :: x in evidence <==> x in evidence'
    requires IsComponentMap(evidence, roots) && IsComponentMap(evidence', roots')
    ensures roots == roots'
  {
    hide Connected, NodeOf, AtMost, IsComponentMap, Nodes;
    NodesByMembers(evidence, evidence');
    ComponentKeys(evidence, roots);
    ComponentKeys(evidence', roots');
    forall a | a in roots ensures roots[a] == roots'[a] {
      RootIsLeast(evidence, roots, a, a);
      RootIsLeast(evidence', roots', a, a);
      RootIsLeast(evidence, roots, a, roots'[a]);
      RootIsLeast(evidence', roots', a, roots[a]);
      ConnectedByMembers(evidence, evidence', a, roots[a]);
      ConnectedByMembers(evidence', evidence, a, roots'[a]);
      assert AtMost(roots'[a], roots[a]) && AtMost(roots[a], roots'[a]);
      AtMostAntisymmetric(roots[a], roots'[a]);
    }
  }

  // ----- what a shared key means

  predicate Plain(s: string) { ':' !in s }

  lemma {:induction false} SplitAtColon(a: string, b: string, c: string, d: string)
    requires a + ":" + b == c + ":" + d && Plain(a) && Plain(c)
    ensures a == c && b == d
  {
    var s, t := a + ":" + b, c + ":" + d;
    assert s[|a|] == ':' && t[|c|] == ':';
    assert forall i :: 0 <= i < |a| ==> s[i] == a[i] && a[i] in a;
    assert forall i :: 0 <= i < |c| ==> t[i] == c[i] && c[i] in c;
    assert |a| == |c|;
    assert a == s[..|a|] && c == t[..|c|];
    assert b == s[|a| + 1..] && d == t[|c| + 1..];
  }

  lemma {:induction false} FieldKeyInjective(name: string, p: Platform, value: string, name': string, p': Platform,
                                             value': string)
    requires Plain(name) && Plain(name') && FieldKey(name, p, value) == FieldKey(name', p', value')
    ensures name == name' && p == p' && value == value'
  {
    var rest, rest' := PlatformName(p) + ":" + value, PlatformName(p') + ":" + value';
    assert FieldKey(name, p, value) == name + ":" + rest && FieldKey(name', p', value') == name' + ":" + rest';
    SplitAtColon(name, rest, name', rest');
    SplitAtColon(PlatformName(p), value, PlatformName(p'), value');
  }

  lemma {:induction false} FieldKeysAre(ev: AppEvidence, n: nat, key: string)
    requires n <= |KEY_FIELDS|
    ensures key in FieldKeys(ev, n)
            <==> exists i :: 0 <= i < n && HasVerified(ev, KEY_FIELDS[i].0)
                             && key == FieldKey(KEY_FIELDS[i].1, ev.platform, ev.values[KEY_FIELDS[i].0])
  {
    if n > 0 {
      FieldKeysAre(ev, n - 1, key);
      hide FieldKey, HasVerified;
    }
  }

  ghost predicate SharesField(x: AppEvidence, y: AppEvidence, f: Field) {
    HasVerified(x, f) && HasVerified(y, f) && x.values[f] == y.values[f]
  }

  /** Keys of different kinds never collide: two observations share a key exactly when they are on the
      same platform and have the same identity or the same verified value of one of the key fields. */
  lemma {:induction false} SharedKeyMeans(x: AppEvidence, y: AppEvidence)
    ensures (exists key :: key in AssociationKeys(x) && key in AssociationKeys(y))
            <==> && x.platform == y.platform
                 && (x.runtimeIdentity == y.runtimeIdentity
                     || exists i :: 0 <= i < |KEY_FIELDS| && SharesField(x, y, KEY_FIELDS[i].0))
  {
    if exists key :: key in AssociationKeys(x) && key in AssociationKeys(y) {
      var key :| key in AssociationKeys(x) && key in AssociationKeys(y);
      SharedKeyFields(x, y, key);
    }
    if x.platform == y.platform && x.runtimeIdentity == y.runtimeIdentity {
      assert AssociationKeys(x)[0] in AssociationKeys(x) && AssociationKeys(y)[0] in AssociationKeys(y);
    }
    if x.platform == y.platform && exists i :: 0 <= i < |KEY_FIELDS| && SharesField(x, y, KEY_FIELDS[i].0) {
      var i :| 0 <= i < |KEY_FIELDS| && SharesField(x, y, KEY_FIELDS[i].0);
      var key := FieldKey(KEY_FIELDS[i].1, x.platform, x.values[KEY_FIELDS[i].0]);
      FieldKeysAre(x, |KEY_FIELDS|, key);
      FieldKeysAre(y, |KEY_FIELDS|, key);
      assert key in AssociationKeys(x) && key in AssociationKeys(y);
    }
  }

  lemma {:induction false} KeyNames()
    ensures Plain("identity") && forall i :: 0 <= i < |KEY_FIELDS|
                                     ==> Plain(KEY_FIELDS[i].1) && KEY_FIELDS[i].1 != "identity"
    ensures forall i, j :: 0 <= i < |KEY_FIELDS| && 0 <= j < |KEY_FIELDS| && KEY_FIELDS[i].1 == KEY_FIELDS[j].1
                ==> i == j
  {
    assert KEY_FIELDS[0].1[0] == 'd' && KEY_FIELDS[1].1[1] == 'r' && KEY_FIELDS[2].1[0] == 'h'
           && KEY_FIELDS[3].1[1] == 'a' && KEY_FIELDS[4].1[0] == 'b';
  }

  lemma {:induction false} SharedKeyFields(x: AppEvidence, y: AppEvidence, key: string)
    requires key in AssociationKeys(x) && key in AssociationKeys(y)
    ensures x.platform == y.platform
    ensures x.runtimeIdentity == y.runtimeIdentity
            || exists i :: 0 <= i < |KEY_FIELDS| && SharesField(x, y, KEY_FIELDS[i].0)
  {
    KeyNames();
    FieldKeysAre(x, |KEY_FIELDS|, key);
    FieldKeysAre(y, |KEY_FIELDS|, key);
    var n := |KEY_FIELDS|;
    hide FieldKey, HasVerified, FieldKeys, Plain, KEY_FIELDS;
    if key == FieldKey("identity", x.platform, x.runtimeIdentity) {
      if key == FieldKey("identity", y.platform, y.runtimeIdentity) {
        FieldKeyInjective("identity", x.platform, x.runtimeIdentity, "identity", y.platform, y.runtimeIdentity);
      } else {
        var j :| 0 <= j < n && HasVerified(y, KEY_FIELDS[j].0)
            && key == FieldKey(KEY_FIELDS[j].1, y.platform, y.values[KEY_FIELDS[j].0]);
        FieldKeyInjective("identity", x.platform, x.runtimeIdentity, KEY_FIELDS[j].1, y.platform,
                          y.values[KEY_FIELDS[j].0]);
      }
    } else {
      var i :| 0 <= i < n && HasVerified(x, KEY_FIELDS[i].0)
          && key == FieldKey(KEY_FIELDS[i].1, x.platform, x.values[KEY_FIELDS[i].0]);
      if key == FieldKey("identity", y.platform, y.runtimeIdentity) {
        FieldKeyInjective(KEY_FIELDS[i].1, x.platform, x.values[KEY_FIELDS[i].0], "identity", y.platform,
                          y.runtimeIdentity);
      } else {
        var j :| 0 <= j < n && HasVerified(y, KEY_FIELDS[j].0)
            && key == FieldKey(KEY_FIELDS[j].1, y.platform, y.values[KEY_FIELDS[j].0]);
        FieldKeyInjective(KEY_FIELDS[i].1, x.platform, x.values[KEY_FIELDS[i].0], KEY_FIELDS[j].1, y.platform,
                          y.values[KEY_FIELDS[j].0]);
        assert SharesField(x, y, KEY_FIELDS[i].0);
      }
    }
  }

  // ----- when two observations are linked

  /** The report vouches for the value of the field. */
  predicate Vouches(x: AppEvidence, f: Field, value: string) {
    f in x.verifiedFields && f in x.values && x.values[f] == value && value != ""
  }

  ghost predicate ShareValue(x: AppEvidence, y: AppEvidence, f: Field) {
    exists value :: Vouches(x, f, value) && Vouches(y, f, value)
  }

  /** All reports of the platform that vouch for the executable and for a package agree on the package. */
  ghost predicate OnePackage(evidence: seq<AppEvidence>, p: Platform, hash: string) {
    forall u, w, package, package' | u in evidence && w in evidence && u.platform == p && w.platform == p
                                     && Vouches(u, BinaryHash, hash) && Vouches(w, BinaryHash, hash)
                                     && Vouches(u, PackageId, package) && Vouches(w, PackageId, package')
      :: package == package'
  }

  ghost predicate ShareExecutable(evidence: seq<AppEvidence>, x: AppEvidence, y: AppEvidence) {
    exists hash :: Vouches(x, BinaryHash, hash) && Vouches(y, BinaryHash, hash)
        && OnePackage(evidence, x.platform, hash)
  }

  /** What makes two reports observations of one thing. */
  ghost predicate Alike(evidence: seq<AppEvidence>, x: AppEvidence, y: AppEvidence) {
    && x.platform == y.platform
    && (|| x.runtimeIdentity == y.runtimeIdentity
        || ShareValue(x, y, DistributionKey) || ShareValue(x, y, ProductKey) || ShareValue(x, y, HostedAppId)
        || ShareValue(x, y, PackageId) || ShareExecutable(evidence, x, y))
  }

  lemma {:induction false} PlainNode(p: Platform)
    ensures |PlatformName(p)| > 0 && '\n' !in PlatformName(p)
  {
  }

  /** A node is written as the platform and the identity, on two lines. */
  lemma {:induction false} NodeText(x: AppEvidence)
    ensures x.platform == Windows ==> NodeOf(x) == "windows\n" + x.runtimeIdentity
    ensures x.platform == MacOS ==> NodeOf(x) == "macos\n" + x.runtimeIdentity
  {
  }

  /** Nodes are told apart exactly by platform and identity. */
  lemma {:induction false} NodeIs(x: AppEvidence, y: AppEvidence)
    ensures NodeOf(x) == NodeOf(y) <==> x.platform == y.platform && x.runtimeIdentity == y.runtimeIdentity
  {
    var a, b := PlatformName(x.platform), PlatformName(y.platform);
    PlainNode(x.platform);
    PlainNode(y.platform);
    if NodeOf(x) == NodeOf(y) {
      assert NodeOf(x)[0] == a[0] && NodeOf(y)[0] == b[0];
      assert NodeOf(x)[|a| + 1..] == x.runtimeIdentity && NodeOf(y)[|b| + 1..] == y.runtimeIdentity;
    }
  }

  lemma {:induction false} KeyOfField(x: AppEvidence, p: Platform, i: nat, value: string)
    requires i < |KEY_FIELDS|
    ensures FieldKey(KEY_FIELDS[i].1, p, value) in AssociationKeys(x)
            <==> x.platform == p && Vouches(x, KEY_FIELDS[i].0, value)
  {
    KeyNames();
    var key := FieldKey(KEY_FIELDS[i].1, p, value);
    FieldKeysAre(x, |KEY_FIELDS|, key);
    var n := |KEY_FIELDS|;
    hide FieldKey, FieldKeys, Plain, KEY_FIELDS;
    if key == FieldKey("identity", x.platform, x.runtimeIdentity) {
      FieldKeyInjective(KEY_FIELDS[i].1, p, value, "identity", x.platform, x.runtimeIdentity);
    }
    forall j | 0 <= j < n && HasVerified(x, KEY_FIELDS[j].0)
               && key == FieldKey(KEY_FIELDS[j].1, x.platform, x.values[KEY_FIELDS[j].0])
      ensures j == i && x.platform == p && Vouches(x, KEY_FIELDS[i].0, value)
    {
      FieldKeyInjective(KEY_FIELDS[i].1, p, value, KEY_FIELDS[j].1, x.platform, x.values[KEY_FIELDS[j].0]);
    }
  }

  lemma {:induction false} IdentityKey(x: AppEvidence, p: Platform, value: string)
    ensures FieldKey("identity", p, value) in AssociationKeys(x) <==> x.platform == p && x.runtimeIdentity == value
  {
    KeyNames();
    var key := FieldKey("identity", p, value);
    FieldKeysAre(x, |KEY_FIELDS|, key);
    assert AssociationKeys(x)[0] == FieldKey("identity", x.platform, x.runtimeIdentity);
    var n := |KEY_FIELDS|;
    hide FieldKey, FieldKeys, Plain, KEY_FIELDS;
    if key == FieldKey("identity", x.platform, x.runtimeIdentity) {
      FieldKeyInjective("identity", p, value, "identity", x.platform, x.runtimeIdentity);
    }
    forall j | 0 <= j < n && HasVerified(x, KEY_FIELDS[j].0)
      ensures key != FieldKey(KEY_FIELDS[j].1, x.platform, x.values[KEY_FIELDS[j].0])
    {
      if key == FieldKey(KEY_FIELDS[j].1, x.platform, x.values[KEY_FIELDS[j].0]) {
        FieldKeyInjective("identity", p, value, KEY_FIELDS[j].1, x.platform, x.values[KEY_FIELDS[j].0]);
      }
    }
  }

  /** Only the keys of one name are the keys of executables. */
  lemma {:induction false} PrefixIs(name: string, p: Platform, value: string)
    requires Plain(name)
    ensures HasPrefix(FieldKey(name, p, value), "binaryHash:") <==> name == "binaryHash"
  {
    var key, rest := FieldKey(name, p, value), PlatformName(p) + ":" + value;
    assert key == name + ":" + rest;
    if HasPrefix(key, "binaryHash:") {
      assert Plain("binaryHash");
      assert key == "binaryHash" + ":" + key[11..];
      SplitAtColon(name, rest, "binaryHash", key[11..]);
    }
    if name == "binaryHash" {
      assert key[..11] == "binaryHash:";
    }
  }

  lemma {:induction false} AtMostOneIs(s: set<string>)
    ensures |s| <= 1 <==> forall a, b :: a in s && b in s ==> a == b
  {
    if s != {} {
      var a :| a in s;
      assert |s| == |s - {a}| + 1;
      if |s| <= 1 {
        assert s - {a} == {};
      } else {
        var b :| b in s - {a};
      }
    }
  }

  const HASH_KEY := 4

  lemma {:induction false} HashKeyIs()
    ensures |KEY_FIELDS| == 5 && KEY_FIELDS[HASH_KEY] == (BinaryHash, "binaryHash")
    ensures forall i :: 0 <= i < |KEY_FIELDS| && i != HASH_KEY ==> KEY_FIELDS[i].1 != "binaryHash"
    ensures Plain(KEY_FIELDS[HASH_KEY].1)
  {
    KeyNames();
  }

  lemma {:induction false} PackagesAgree(group: seq<AppEvidence>)
    ensures |PackagesOf(group)| <= 1
            <==> forall u, w, package, package' | u in group && w in group && Vouches(u, PackageId, package)
                                                  && Vouches(w, PackageId, package') :: package == package'
  {
    var packages := PackagesOf(group);
    AtMostOneIs(packages);
    assert forall u, package :: u in group && Vouches(u, PackageId, package) ==> package in packages;
    assert forall package :: package in packages ==> exists u :: u in group && Vouches(u, PackageId, package);
  }

  /** An executable key is admitted exactly when its reports agree on the package. */
  lemma {:induction false} ExecutableIsAdmitted(evidence: seq<AppEvidence>, p: Platform, hash: string)
    ensures Admitted(evidence, FieldKey("binaryHash", p, hash)) <==> OnePackage(evidence, p, hash)
  {
    hide HasPrefix, FieldKey, KEY_FIELDS, AssociationKeys, PackagesOf, Vouches;
    var key := FieldKey("binaryHash", p, hash);
    var group := GroupOf(evidence, key);
    HashKeyIs();
    PrefixIs("binaryHash", p, hash);
    forall x ensures x in group <==> x in evidence && x.platform == p && Vouches(x, BinaryHash, hash) {
      KeyOfField(x, p, HASH_KEY, hash);
    }
    PackagesAgree(group);
  }

  lemma {:induction false} OtherKeyIsAdmitted(evidence: seq<AppEvidence>, name: string, p: Platform, value: string)
    requires Plain(name) && name != "binaryHash"
    ensures Admitted(evidence, FieldKey(name, p, value))
  {
    PrefixIs(name, p, value);
  }

  lemma {:induction false} AlikeShareField(evidence: seq<AppEvidence>, x: AppEvidence, y: AppEvidence, i: nat)
    requires i < |KEY_FIELDS| && i != HASH_KEY && x.platform == y.platform && ShareValue(x, y, KEY_FIELDS[i].0)
    ensures exists key :: key in AssociationKeys(x) && key in AssociationKeys(y) && Admitted(evidence, key)
  {
    KeyNames();
    HashKeyIs();
    hide AssociationKeys, KEY_FIELDS, Vouches, Admitted;
    var value :| Vouches(x, KEY_FIELDS[i].0, value) && Vouches(y, KEY_FIELDS[i].0, value);
    KeyOfField(x, x.platform, i, value);
    KeyOfField(y, x.platform, i, value);
    OtherKeyIsAdmitted(evidence, KEY_FIELDS[i].1, x.platform, value);
  }

  lemma {:induction false} AlikeShareExecutable(evidence: seq<AppEvidence>, x: AppEvidence, y: AppEvidence)
    requires x.platform == y.platform && ShareExecutable(evidence, x, y)
    ensures exists key :: key in AssociationKeys(x) && key in AssociationKeys(y) && Admitted(evidence, key)
  {
    HashKeyIs();
    hide AssociationKeys, KEY_FIELDS, Vouches, Admitted, OnePackage;
    var hash :| Vouches(x, BinaryHash, hash) && Vouches(y, BinaryHash, hash) && OnePackage(evidence, x.platform, hash);
    KeyOfField(x, x.platform, HASH_KEY, hash);
    KeyOfField(y, x.platform, HASH_KEY, hash);
    ExecutableIsAdmitted(evidence, x.platform, hash);
  }

  lemma {:induction false} AlikeShareIdentity(evidence: seq<AppEvidence>, x: AppEvidence, y: AppEvidence)
    requires x.platform == y.platform && x.runtimeIdentity == y.runtimeIdentity
    ensures exists key :: key in AssociationKeys(x) && key in AssociationKeys(y) && Admitted(evidence, key)
  {
    KeyNames();
    assert "identity"[0] != "binaryHash"[0];
    hide AssociationKeys, KEY_FIELDS, Admitted;
    IdentityKey(x, x.platform, x.runtimeIdentity);
    IdentityKey(y, x.platform, x.runtimeIdentity);
    OtherKeyIsAdmitted(evidence, "identity", x.platform, x.runtimeIdentity);
  }

  lemma {:induction false} KeySharersAreAlike(evidence: seq<AppEvidence>, x: AppEvidence, y: AppEvidence, key: string)
    requires key in AssociationKeys(x) && key in AssociationKeys(y) && Admitted(evidence, key)
    ensures Alike(evidence, x, y)
  {
    HashKeyIs();
    var n := |KEY_FIELDS|;
    FieldKeysAre(x, n, key);
    assert key == FieldKey("identity", x.platform, x.runtimeIdentity) || key in FieldKeys(x, n);
    IdentityKey(y, x.platform, x.runtimeIdentity);
    hide FieldKeys, FieldKey, Admitted, AssociationKeys, OnePackage;
    if key != FieldKey("identity", x.platform, x.runtimeIdentity) {
      var i :| 0 <= i < n && HasVerified(x, KEY_FIELDS[i].0)
               && key == FieldKey(KEY_FIELDS[i].1, x.platform, x.values[KEY_FIELDS[i].0]);
      var value := x.values[KEY_FIELDS[i].0];
      KeyOfField(y, x.platform, i, value);
      assert Vouches(x, KEY_FIELDS[i].0, value) && Vouches(y, KEY_FIELDS[i].0, value);
      if i == HASH_KEY {
        ExecutableIsAdmitted(evidence, x.platform, value);
      }
    }
  }

  lemma {:induction false} AlikeIs(evidence: seq<AppEvidence>, x: AppEvidence, y: AppEvidence)
    ensures Alike(evidence, x, y)
            <==> exists key :: key in AssociationKeys(x) && key in AssociationKeys(y) && Admitted(evidence, key)
  {
    if Alike(evidence, x, y) {
      assert KEY_FIELDS[0].0 == DistributionKey && KEY_FIELDS[1].0 == ProductKey && KEY_FIELDS[2].0 == HostedAppId
             && KEY_FIELDS[3].0 == PackageId;
      hide AssociationKeys, KEY_FIELDS, Admitted, ShareValue, ShareExecutable;
      if x.runtimeIdentity == y.runtimeIdentity {
        AlikeShareIdentity(evidence, x, y);
      } else if ShareExecutable(evidence, x, y) {
        AlikeShareExecutable(evidence, x, y);
      } else {
        AlikeShareField(evidence, x, y,
                        if ShareValue(x, y, DistributionKey) then 0 else if ShareValue(x, y, ProductKey) then 1
                                        else if ShareValue(x, y, HostedAppId) then 2 else 3);
      }
    }
    forall key | key in AssociationKeys(x) && key in AssociationKeys(y) && Admitted(evidence, key)
      ensures Alike(evidence, x, y)
    {
      KeySharersAreAlike(evidence, x, y, key);
    }
  }

  /** Two nodes are linked exactly when reports of theirs are alike. */
  lemma {:induction false} LinkedMeans(evidence: seq<AppEvidence>, a: string, b: string)
    ensures Linked(evidence, a, b)
            <==> exists x, y :: x in evidence && y in evidence && NodeOf(x) == a && NodeOf(y) == b
                     && Alike(evidence, x, y)
  {
    hide AssociationKeys, Admitted, NodeOf, Alike;
    forall x, y ensures Alike(evidence, x, y)
                        <==> exists key :: key in AssociationKeys(x) && key in AssociationKeys(y)
                                 && Admitted(evidence, key) {
      AlikeIs(evidence, x, y);
    }
  }
}
