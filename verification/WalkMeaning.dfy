/** Which files the sequential walk reports, said without walking. */
module WalkMeaning {
  import opened Traversal

  /** Entry k of the directory is the next element of the path p and is the file p, or leads on to it. */
  ghost predicate EntryLeads(c: Config, at: Item, k: nat, p: Path)
    requires Consistent(c) && at.dir < |c.tree| && k < |c.tree[at.dir]|
    decreases |p| - |at.path|, 0
  {
    var e := c.tree[at.dir][k];
    assert ConsistentEntry(c, e);
    |at.path| < |p| && at.path <= p && p[|at.path|] == e.name &&
    if |p| == |at.path| + 1 then Accepted(c, e) else Admissible(c, e) && Leads(c, ChildOf(c, at, e), p)
  }

  /** The elements of p after the directory's own path name a chain of walked directories and an accepted file. */
  ghost predicate Leads(c: Config, at: Item, p: Path)
    requires Consistent(c) && at.dir < |c.tree|
    decreases |p| - |at.path|, 2
  {
    |at.path| < |p| && at.path <= p && LeadsFrom(c, at, 0, p)
  }

  /** The same, by way of an entry at position i or later. */
  ghost predicate LeadsFrom(c: Config, at: Item, i: nat, p: Path)
    requires Consistent(c) && at.dir < |c.tree|
    decreases |p| - |at.path|, 1
  {
    exists k :: i <= k < |c.tree[at.dir]| && EntryLeads(c, at, k, p)
  }

  /** No directory holds two entries of the same name. */
  ghost predicate DistinctNames(c: Config) {
    forall d, i, k :: 0 <= d < |c.tree| && 0 <= i < k < |c.tree[d]| ==> c.tree[d][i].name != c.tree[d][k].name
  }

  lemma {:induction false} WalkFromMeaning(c: Config, height: seq<nat>, at: Item, i: nat, p: Path)
    requires Physical(c, height) && at.dir < |c.tree| && i <= |c.tree[at.dir]|
    ensures p in WalkFrom(c, height, at, i) <==> LeadsFrom(c, at, i, p)
    decreases height[at.dir], |c.tree[at.dir]| - i, 1
  {
    hide Walk, Acyclic, Consistent, ConsistentEntry, Leads;
    if i < |c.tree[at.dir]| {
      WalkFromMeaning(c, height, at, i + 1, p);
      EntryMeaning(c, height, at, i, p);
      WalkOneStep(c, height, at, i, p);
    }
  }

  lemma HeightIsNatural(c: Config, height: seq<nat>, d: nat)
    requires Acyclic(c, height) && d < |c.tree|
    ensures |height| == |c.tree| && height[d] >= 0
  {
  }

  /** An entry adds p to the walk exactly when it leads to p. */
  lemma {:induction false} EntryMeaning(c: Config, height: seq<nat>, at: Item, i: nat, p: Path)
    requires Physical(c, height) && at.dir < |c.tree| && i < |c.tree[at.dir]|
    ensures p in WalkEntry(c, height, at, i) <==> EntryLeads(c, at, i, p)
    decreases height[at.dir], |c.tree[at.dir]| - i, 0
  {
    hide Acyclic, WalkFrom, Accepted, Admissible, ChildOf, Classify;
    HeightIsNatural(c, height, at.dir);
    DescendsLower(c, height, at, i);
    ClassifyMeaning(c, at, c.tree[at.dir][i]);
    match Classify(c, at, c.tree[at.dir][i])
    case Ignore =>
    case Found(file) =>
      if EntryLeads(c, at, i, p) {
        assert p == at.path + [p[|at.path|]];
      }
    case Descend(child) =>
      WalkMeansLeads(c, height, child, p);
      assert child.path == at.path + [c.tree[at.dir][i].name];
  }

  /** The walk reports exactly the accepted files under walked directories, and no others. */
  lemma {:induction false} WalkMeansLeads(c: Config, height: seq<nat>, at: Item, p: Path)
    requires Physical(c, height) && at.dir < |c.tree|
    ensures p in Walk(c, height, at) <==> Leads(c, at, p)
    decreases height[at.dir], |c.tree[at.dir]| + 1
  {
    hide Acyclic, Consistent, ConsistentEntry;
    WalkFromMeaning(c, height, at, 0, p);
    WalkStartsAtTop(c, height, at);
  }

  /** Distinct entries lead to distinct paths. */
  lemma {:induction false} WalkFromOnce(c: Config, height: seq<nat>, at: Item, i: nat, p: Path)
    requires Physical(c, height) && DistinctNames(c) && at.dir < |c.tree| && i <= |c.tree[at.dir]|
    ensures WalkFrom(c, height, at, i)[p] <= 1
    decreases height[at.dir], |c.tree[at.dir]| - i
  {
    hide Acyclic, Consistent, ConsistentEntry, Leads, Walk;
    HeightIsNatural(c, height, at.dir);
    if i < |c.tree[at.dir]| {
      DescendsLower(c, height, at, i);
      WalkOneStep(c, height, at, i, p);
      WalkFromOnce(c, height, at, i + 1, p);
      WalkFromMeaning(c, height, at, i + 1, p);
      EntryMeaning(c, height, at, i, p);
      match Classify(c, at, c.tree[at.dir][i])
      case Descend(child) =>
        WalkFromOnce(c, height, child, 0, p);
        WalkStartsAtTop(c, height, child);
      case _ =>
    }
  }

  /** Where names are distinct within each directory, every file is reported once and only if it should be. */
  lemma WalkReportsOnce(c: Config, height: seq<nat>, at: Item, p: Path)
    requires Physical(c, height) && DistinctNames(c) && at.dir < |c.tree|
    ensures Walk(c, height, at)[p] == if Leads(c, at, p) then 1 else 0
  {
    WalkMeansLeads(c, height, at, p);
    WalkFromOnce(c, height, at, 0, p);
  }

  /** Without recursion only the directory's own accepted files are reported. */
  lemma {:induction false} FlatWalk(c: Config, height: seq<nat>, at: Item, i: nat, p: Path) returns (k: nat)
    requires Physical(c, height) && !c.recurse && at.dir < |c.tree| && i <= |c.tree[at.dir]|
    requires p in WalkFrom(c, height, at, i)
    ensures i <= k < |c.tree[at.dir]| && ConsistentEntry(c, c.tree[at.dir][k])
    ensures Accepted(c, c.tree[at.dir][k]) && p == at.path + [c.tree[at.dir][k].name]
    decreases |c.tree[at.dir]| - i
  {
    DescendsLower(c, height, at, i);
    ClassifyMeaning(c, at, c.tree[at.dir][i]);
    if Classify(c, at, c.tree[at.dir][i]) == Found(p) {
      k := i;
    } else {
      k := FlatWalk(c, height, at, i + 1, p);
    }
  }
}
