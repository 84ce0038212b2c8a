/** When a walk that follows links reads everything, and when it reads a directory twice. */
module FollowExact {
  import opened SyncQueue
  import opened QueueProtocol
  import opened Traversal
  import opened TreeWalk
  import opened WalkRuns
  import opened Sums
  import opened WalkResults
  import opened FollowResults
  import opened FollowCompleteness

  // ---------------------------------------------------------------- identifiers that are not faithful

  lemma {:induction false} TwoOfOneIdentifier(items: seq<Item>, k: Key, a: nat, b: nat)
    requires a < b < |items| && items[a].id == k && items[b].id == k
    ensures Sum(items, Weight(Only(k))) >= 2
  {
    if a == 0 {
      SumAtLeast(items[1..], b - 1, Weight(Only(k)));
    } else {
      TwoOfOneIdentifier(items[1..], k, a - 1, b - 1);
    }
  }

  /** No start directory carries the identifier. */
  predicate NoStartCarries(j: Job, k: Key) {
    forall i :: 0 <= i < |j.starts| && j.starts[i].StartDirectory? ==> j.starts[i].item.id != k
  }

  lemma {:induction false} NoStartWeight(j: Job, k: Key, n: nat)
    requires NoStartCarries(j, k) && n <= |j.starts|
    ensures StartWeight(j, Only(k), n) == 0
  {
    if n > 0 {
      NoStartWeight(j, k, n - 1);
    }
  }

  /** Under an identifier that no start directory carries, no run pulls more than one directory. */
  lemma SharedIdentifierIsPulledOnce(j: Job, states: seq<State>, turns: seq<Turn>, n: nat, a: nat, b: nat)
    requires j.jobs > 0 && WellFormed(j) && j.c.follow && IsRun(j, states, turns) && n < |states|
    requires a < |states[n].pulled| && b < |states[n].pulled| && states[n].pulled[a].id == states[n].pulled[b].id
    requires NoStartCarries(j, states[n].pulled[a].id)
    ensures a == b
  {
    hide IsRun, WellFormed;
    var s, k := states[n], states[n].pulled[a].id;
    IdentifierAdmittedOnce(j, states, turns, n, k);
    NoStartWeight(j, k, |j.starts|);
    if a != b {
      TwoOfOneIdentifier(s.pulled, k, if a < b then a else b, if a < b then b else a);
    }
  }

  /** No directory shares the identifier of a start directory. */
  ghost predicate StartsUnshared(j: Job)
    requires WellFormed(j)
  {
    forall i :: 0 <= i < |j.starts| && j.starts[i].StartDirectory? ==> Own(j, j.starts[i].item)
  }

  lemma SharedIsCarriedByNoStart(j: Job, x: Item, y: Item)
    requires WellFormed(j) && StartsUnshared(j) && Reachable(j, x) && Reachable(j, y)
    requires x.id == y.id && x.dir != y.dir
    ensures NoStartCarries(j, x.id)
  {
    hide Reachable;
    forall i | 0 <= i < |j.starts| && j.starts[i].StartDirectory? ensures j.starts[i].item.id != x.id {
      assert Own(j, j.starts[i].item);
    }
  }

  /** Everything that can be reached was read, under each identifier under which it can be reached. */
  ghost predicate EverythingRead(j: Job, s: State)
    requires WellFormed(j)
  {
    forall x :: Reachable(j, x) ==> Read(s, x)
  }

  lemma FaithfulIsRead(j: Job, states: seq<State>, turns: seq<Turn>, n: nat, x: Item)
    requires j.jobs > 0 && WellFormed(j) && j.c.follow && IsRun(j, states, turns) && n < |states|
    requires Over(states[n].master) && Faithful(j) && Reachable(j, x)
    ensures Read(states[n], x)
  {
    hide IsRun, Faithful, Child, WellFormed;
    var xs :| Chain(j, xs) && xs[|xs| - 1] == x;
    FaithfulChain(j, xs);
    EveryReachableDirectoryIsRead(j, states, turns, n, xs);
  }

  /**
    * For every tree, links and cycles included, in which start directories share their identifiers with no other
    * directory: each finished run has read everything that can be reached, under every identifier it can be
    * reached under, if and only if no two of these directories share an identifier.
    */
  lemma FollowingIsCompleteIff(j: Job, states: seq<State>, turns: seq<Turn>, n: nat)
    requires j.jobs > 0 && WellFormed(j) && j.c.follow && IsRun(j, states, turns) && n < |states|
    requires Over(states[n].master) && StartsUnshared(j)
    ensures EverythingRead(j, states[n]) <==> Faithful(j)
  {
    hide IsRun, Reachable, WellFormed, StartsUnshared;
    var s := states[n];
    if Faithful(j) {
      forall x | Reachable(j, x) ensures Read(s, x) {
        FaithfulIsRead(j, states, turns, n, x);
      }
    } else {
      var x :| Reachable(j, x) && !Own(j, x);
      var y :| Reachable(j, y) && y.id == x.id && y.dir != x.dir;
      SharedIsCarriedByNoStart(j, x, y);
      if Read(s, x) && Read(s, y) {
        var p: nat :| p < |s.pulled| && s.pulled[p].dir == x.dir && s.pulled[p].id == x.id;
        var q: nat :| q < |s.pulled| && s.pulled[q].dir == y.dir && s.pulled[q].id == y.id;
        SharedIdentifierIsPulledOnce(j, states, turns, n, p, q);
      }
    }
  }

  /** The directory was pulled, by whatever path and under whatever identifier. */
  predicate DirectoryRead(s: State, d: nat) {
    exists q :: 0 <= q < |s.pulled| && s.pulled[q].dir == d
  }

  /**
    * Two directories that are only ever met under one identifier, which no start directory carries:
    * no run of any job reads them both.
    */
  lemma SharedIdentifierLosesADirectory(j: Job, states: seq<State>, turns: seq<Turn>, n: nat, a: nat, b: nat, k: Key)
    requires j.jobs > 0 && WellFormed(j) && j.c.follow && IsRun(j, states, turns) && n < |states|
    requires a != b && NoStartCarries(j, k)
    requires forall x :: Reachable(j, x) && (x.dir == a || x.dir == b) ==> x.id == k
    ensures !DirectoryRead(states[n], a) || !DirectoryRead(states[n], b)
  {
    hide IsRun, Reachable, WellFormed;
    var s := states[n];
    if DirectoryRead(s, a) && DirectoryRead(s, b) {
      var p: nat :| p < |s.pulled| && s.pulled[p].dir == a;
      var q: nat :| q < |s.pulled| && s.pulled[q].dir == b;
      PulledIsReachable(j, states, turns, n, p);
      PulledIsReachable(j, states, turns, n, q);
      SharedIdentifierIsPulledOnce(j, states, turns, n, p, q);
    }
  }

  /** Every directory is met under one identifier only: none both by a link and without one. */
  ghost predicate OneIdentifierEach(j: Job)
    requires WellFormed(j)
  {
    forall x, y :: Reachable(j, x) && Reachable(j, y) && x.dir == y.dir ==> x.id == y.id
  }

  ghost predicate EveryDirectoryRead(j: Job, s: State)
    requires WellFormed(j)
  {
    forall x :: Reachable(j, x) ==> DirectoryRead(s, x.dir)
  }

  /** There the equivalence is one of directories: each has been read, by whatever path. */
  lemma EveryDirectoryIsReadIff(j: Job, states: seq<State>, turns: seq<Turn>, n: nat)
    requires j.jobs > 0 && WellFormed(j) && j.c.follow && IsRun(j, states, turns) && n < |states|
    requires Over(states[n].master) && StartsUnshared(j) && OneIdentifierEach(j)
    ensures EveryDirectoryRead(j, states[n]) <==> Faithful(j)
  {
    hide IsRun, Reachable, WellFormed, StartsUnshared, Faithful;
    var s := states[n];
    FollowingIsCompleteIff(j, states, turns, n);
    if EveryDirectoryRead(j, s) {
      forall x | Reachable(j, x) ensures Read(s, x) {
        var q: nat :| q < |s.pulled| && s.pulled[q].dir == x.dir;
        PulledIsReachable(j, states, turns, n, q);
      }
    }
    if EverythingRead(j, s) {
      forall x | Reachable(j, x) ensures DirectoryRead(s, x.dir) {
        assert Read(s, x);
      }
    }
  }

  // ---------------------------------------------------------------- directories that are read twice

  ghost predicate ReadTwice(s: State, d: nat) {
    exists a, b :: 0 <= a < b < |s.pulled| && s.pulled[a].dir == d && s.pulled[b].dir == d
  }

  /** The directory can be reached under two identifiers: by a link, say, and without one. */
  ghost predicate TwoIdentifiers(j: Job, d: nat)
    requires WellFormed(j)
  {
    exists x, y :: Reachable(j, x) && Reachable(j, y) && x.dir == d && y.dir == d && x.id != y.id
  }

  /**
    * Identifiers do not keep a directory from being read twice. With faithful ones, a directory under none of
    * whose identifiers the walk starts has been read twice if and only if it can be reached under two.
    */
  lemma ReadTwiceIff(j: Job, states: seq<State>, turns: seq<Turn>, n: nat, d: nat)
    requires j.jobs > 0 && WellFormed(j) && j.c.follow && IsRun(j, states, turns) && n < |states|
    requires Over(states[n].master) && Faithful(j)
    requires forall x :: Reachable(j, x) && x.dir == d ==> NoStartCarries(j, x.id)
    ensures ReadTwice(states[n], d) <==> TwoIdentifiers(j, d)
  {
    hide IsRun, Reachable, WellFormed, Faithful, NoStartCarries;
    var s := states[n];
    if ReadTwice(s, d) {
      var a: nat, b: nat :| a < b < |s.pulled| && s.pulled[a].dir == d && s.pulled[b].dir == d;
      PulledIsReachable(j, states, turns, n, a);
      PulledIsReachable(j, states, turns, n, b);
      if s.pulled[a].id == s.pulled[b].id {
        SharedIdentifierIsPulledOnce(j, states, turns, n, a, b);
      }
    }
    if TwoIdentifiers(j, d) {
      var x, y :| Reachable(j, x) && Reachable(j, y) && x.dir == d && y.dir == d && x.id != y.id;
      FaithfulIsRead(j, states, turns, n, x);
      FaithfulIsRead(j, states, turns, n, y);
      var p: nat :| p < |s.pulled| && s.pulled[p].dir == d && s.pulled[p].id == x.id;
      var q: nat :| q < |s.pulled| && s.pulled[q].dir == d && s.pulled[q].id == y.id;
      assert p < q || q < p;
    }
  }

  // ---------------------------------------------------------------- two devices

  /**
    * Two devices: "mnt" is a mount point whose subdirectory "x" has, on its own device, the inode
    * number that "y" has on the root's. A child inherits its parent's recorded device, so both
    * carry the identifier (1, 7).
    */
  function TwoDevices(jobs: nat): Job {
    Job(Config([[Dirent("mnt", DtDir, 3, Stat(ADirectory(1), Key(2, 2)), Stat(ADirectory(1), Key(2, 2))),
                 Dirent("y", DtDir, 7, Stat(ADirectory(2), Key(1, 7)), Stat(ADirectory(2), Key(1, 7)))],
                [Dirent("x", DtDir, 7, Stat(ADirectory(3), Key(2, 7)), Stat(ADirectory(3), Key(2, 7)))],
                [],
                []],
               true, true, (name: string) => true, (name: string) => false),
        [StartDirectory(Item(0, ["top"], Key(1, 2)))],
        jobs)
  }

  /** The identifier of each of its four directories. */
  function TwoDevicesId(d: nat): Key {
    Key(1, if d == 0 then 2 else if d == 1 then 3 else 7)
  }

  ghost function OnFirstDevice(): Item -> bool {
    (x: Item) => x.dir < 4 && x.id == TwoDevicesId(x.dir)
  }

  lemma TwoDevicesWellFormed(jobs: nat)
    ensures WellFormed(TwoDevices(jobs)) && Inherited(TwoDevices(jobs), OnFirstDevice())
  {
    var j := TwoDevices(jobs);
    assert Consistent(j.c);
    forall at, i | OnFirstDevice()(at) && at.dir < |j.c.tree| && 0 <= i < |j.c.tree[at.dir]|
      ensures InheritedBy(j, OnFirstDevice(), at, i)
    {
    }
  }

  /** What is inherited holds of everything that can be reached. */
  lemma {:induction false} ChainInherits(j: Job, P: Item -> bool, xs: seq<Item>)
    requires WellFormed(j) && Inherited(j, P) && Chain(j, xs)
    ensures P(xs[|xs| - 1])
    decreases |xs|
  {
    if |xs| > 1 {
      var at, x := xs[|xs| - 2], xs[|xs| - 1];
      assert Chain(j, xs[..|xs| - 1]);
      ChainInherits(j, P, xs[..|xs| - 1]);
      assert Child(j, at, x);
      var i: nat :| i < |j.c.tree[at.dir]| && ChildAt(j, at, i, x);
      assert InheritedBy(j, P, at, i);
    }
  }

  /** Both directories can be reached. */
  lemma TwoDevicesReachable(jobs: nat)
    ensures WellFormed(TwoDevices(jobs))
    ensures Reachable(TwoDevices(jobs), Item(2, ["top", "y"], Key(1, 7)))
    ensures Reachable(TwoDevices(jobs), Item(3, ["top", "mnt", "x"], Key(1, 7)))
  {
    var j := TwoDevices(jobs);
    TwoDevicesWellFormed(jobs);
    var top, mnt := Item(0, ["top"], Key(1, 2)), Item(1, ["top", "mnt"], Key(1, 3));
    var y, x := Item(2, ["top", "y"], Key(1, 7)), Item(3, ["top", "mnt", "x"], Key(1, 7));
    assert j.starts[0] == StartDirectory(top);
    assert ChildAt(j, top, 1, y) && ChildAt(j, top, 0, mnt) && ChildAt(j, mnt, 0, x);
    assert Chain(j, [top, y]) && [top, y][1] == y;
    assert Chain(j, [top, mnt, x]) && [top, mnt, x][2] == x;
  }

  /** The tree is one to which the equivalence applies, and every finished run has missed a directory of it. */
  lemma TwoDevicesLoseADirectory(jobs: nat, states: seq<State>, turns: seq<Turn>, n: nat)
    requires jobs > 0 && IsRun(TwoDevices(jobs), states, turns) && n < |states| && Over(states[n].master)
    ensures WellFormed(TwoDevices(jobs)) && OneIdentifierEach(TwoDevices(jobs)) && StartsUnshared(TwoDevices(jobs))
    ensures !EveryDirectoryRead(TwoDevices(jobs), states[n])
  {
    var j := TwoDevices(jobs);
    TwoDevicesWellFormed(jobs);
    TwoDevicesReachable(jobs);
    forall x | Reachable(j, x) ensures OnFirstDevice()(x) {
      var xs :| Chain(j, xs) && xs[|xs| - 1] == x;
      ChainInherits(j, OnFirstDevice(), xs);
    }
    hide IsRun, Reachable, WellFormed;
    EveryDirectoryIsReadIff(j, states, turns, n);
  }

  // ---------------------------------------------------------------- one link, and a link cycle

  /** "link" leads to the directory "d" beside it, which holds the file "f". */
  function OneLink(jobs: nat): Job {
    Job(Config([[Dirent("d", DtDir, 7, Stat(ADirectory(1), Key(1, 7)), Stat(ADirectory(1), Key(1, 7))),
                 Dirent("link", DtLnk, 8, Stat(ASymlink, Key(1, 8)), Stat(ADirectory(1), Key(1, 7)))],
                [Dirent("f", DtReg, 9, Stat(ARegularFile, Key(1, 9)), Stat(ARegularFile, Key(1, 9)))]],
               true, true, (name: string) => true, (name: string) => false),
        [StartDirectory(Item(0, ["top"], Key(1, 2)))],
        jobs)
  }

  /** Its directories, by path and identifier: the link's own inode number makes an identifier of its own. */
  ghost function OneLinkItems(): Item -> bool {
    (x: Item) =>
      || x == Item(0, ["top"], Key(1, 2))
      || x == Item(1, ["top", "d"], Key(1, 7))
      || x == Item(1, ["top", "link"], Key(1, 8))
  }

  lemma OneLinkWellFormed(jobs: nat)
    ensures WellFormed(OneLink(jobs)) && Inherited(OneLink(jobs), OneLinkItems())
  {
    var j := OneLink(jobs);
    assert Consistent(j.c);
    forall at, i | OneLinkItems()(at) && at.dir < |j.c.tree| && 0 <= i < |j.c.tree[at.dir]|
      ensures InheritedBy(j, OneLinkItems(), at, i)
    {
    }
  }

  lemma OneLinkReaches(jobs: nat)
    ensures WellFormed(OneLink(jobs))
    ensures Reachable(OneLink(jobs), Item(1, ["top", "d"], Key(1, 7)))
    ensures Reachable(OneLink(jobs), Item(1, ["top", "link"], Key(1, 8)))
  {
    hide Inherited, Chain;
    var j := OneLink(jobs);
    OneLinkWellFormed(jobs);
    var top := Item(0, ["top"], Key(1, 2));
    var d, link := Item(1, ["top", "d"], Key(1, 7)), Item(1, ["top", "link"], Key(1, 8));
    assert ChildAt(j, top, 0, d) && ChildAt(j, top, 1, link);
    hide Reachable;
    StartIsReachable(j, 0);
    ChildIsReachable(j, top, d);
    ChildIsReachable(j, top, link);
  }

  lemma OneLinkReachable(jobs: nat)
    ensures WellFormed(OneLink(jobs)) && Faithful(OneLink(jobs)) && TwoIdentifiers(OneLink(jobs), 1)
    ensures forall x :: Reachable(OneLink(jobs), x) ==> OneLinkItems()(x)
  {
    hide Reachable, Inherited, OneLink, WellFormed;
    var j := OneLink(jobs);
    OneLinkWellFormed(jobs);
    OneLinkReaches(jobs);
    forall x | Reachable(j, x) ensures OneLinkItems()(x) {
      ReachableInherits(j, OneLinkItems(), x);
    }
  }

  lemma ReachableInherits(j: Job, P: Item -> bool, x: Item)
    requires WellFormed(j) && Inherited(j, P) && Reachable(j, x)
    ensures P(x)
  {
    hide Inherited, Child;
    var xs :| Chain(j, xs) && xs[|xs| - 1] == x;
    ChainInherits(j, P, xs);
  }

  /** Every finished run has read the directory twice and reported its file under both paths. */
  lemma OneLinkIsReadTwice(jobs: nat, states: seq<State>, turns: seq<Turn>, n: nat)
    requires jobs > 0 && IsRun(OneLink(jobs), states, turns) && n < |states| && Over(states[n].master)
    ensures ReadTwice(states[n], 1)
    ensures ["top", "d", "f"] in states[n].out && ["top", "link", "f"] in states[n].out
  {
    hide IsRun, Reachable, Faithful, Inherited, OneLink, WellFormed;
    var j, s := OneLink(jobs), states[n];
    OneLinkReachable(jobs);
    OneLinkJob(jobs);
    ReadTwiceIff(j, states, turns, n, 1);
    var a: nat, b: nat :| a < b < |s.pulled| && s.pulled[a].dir == 1 && s.pulled[b].dir == 1;
    PulledIsReachable(j, states, turns, n, a);
    PulledIsReachable(j, states, turns, n, b);
    if s.pulled[a].id == s.pulled[b].id {
      SharedIdentifierIsPulledOnce(j, states, turns, n, a, b);
    }
    OneLinkFile(jobs, states, turns, n, a);
    OneLinkFile(jobs, states, turns, n, b);
    assert ["top", "d"] + ["f"] == ["top", "d", "f"] && ["top", "link"] + ["f"] == ["top", "link", "f"];
  }

  lemma OneLinkJob(jobs: nat)
    ensures OneLink(jobs).jobs == jobs && OneLink(jobs).c.follow
    ensures forall k :: k != Key(1, 2) ==> NoStartCarries(OneLink(jobs), k)
  {
  }

  lemma OneLinkFile(jobs: nat, states: seq<State>, turns: seq<Turn>, n: nat, q: nat)
    requires jobs > 0 && IsRun(OneLink(jobs), states, turns) && n < |states| && Over(states[n].master)
    requires q < |states[n].pulled| && states[n].pulled[q].dir == 1
    ensures states[n].pulled[q].path + ["f"] in states[n].out
  {
    hide IsRun, Inherited;
    var j, x := OneLink(jobs), states[n].pulled[q];
    OneLinkWellFormed(jobs);
    var p := x.path + ["f"];
    ReportedIsWhatWasPulled(j, p, states, turns, n);
    SumAtLeast(states[n].pulled, q, FilesIn(j.c, p));
    AcceptedEntryCounts(j.c, x, 0, 0, p);
  }

  /** "up" leads back to the start directory that holds it. */
  function LinkCycle(jobs: nat): Job {
    Job(Config([[Dirent("up", DtLnk, 9, Stat(ASymlink, Key(1, 9)), Stat(ADirectory(0), Key(1, 2)))]],
               true, true, (name: string) => true, (name: string) => false),
        [StartDirectory(Item(0, ["top"], Key(1, 2)))],
        jobs)
  }

  /** A cycle is a case of the equivalence, though its directory has two identifiers: all runs read it under both. */
  lemma LinkCycleIsRead(jobs: nat, states: seq<State>, turns: seq<Turn>, n: nat)
    requires jobs > 0 && IsRun(LinkCycle(jobs), states, turns) && n < |states| && Over(states[n].master)
    ensures WellFormed(LinkCycle(jobs)) && StartsUnshared(LinkCycle(jobs)) && !OneIdentifierEach(LinkCycle(jobs))
    ensures EverythingRead(LinkCycle(jobs), states[n]) && ReadTwice(states[n], 0)
  {
    hide IsRun;
    var j := LinkCycle(jobs);
    LinkCycleItems(jobs);
    hide Reachable, WellFormed;
    FollowingIsCompleteIff(j, states, turns, n);
    var s := states[n];
    var top, up := Item(0, ["top"], Key(1, 2)), Item(0, ["top", "up"], Key(1, 9));
    assert Read(s, top) && Read(s, up);
    var p: nat :| p < |s.pulled| && s.pulled[p].dir == 0 && s.pulled[p].id == Key(1, 2);
    var q: nat :| q < |s.pulled| && s.pulled[q].dir == 0 && s.pulled[q].id == Key(1, 9);
    assert p < q || q < p;
  }

  lemma LinkCycleItems(jobs: nat)
    ensures WellFormed(LinkCycle(jobs))
    ensures forall x :: Reachable(LinkCycle(jobs), x) ==> x.dir == 0
    ensures Reachable(LinkCycle(jobs), Item(0, ["top"], Key(1, 2)))
    ensures Reachable(LinkCycle(jobs), Item(0, ["top", "up"], Key(1, 9)))
  {
    var j, P := LinkCycle(jobs), (x: Item) => x.dir == 0;
    assert Consistent(j.c);
    var top, up := Item(0, ["top"], Key(1, 2)), Item(0, ["top", "up"], Key(1, 9));
    assert j.starts[0] == StartDirectory(top);
    assert ChildAt(j, top, 0, up);
    StartIsReachable(j, 0);
    ChildIsReachable(j, top, up);
    forall at, i | P(at) && at.dir < |j.c.tree| && 0 <= i < |j.c.tree[at.dir]| ensures InheritedBy(j, P, at, i) {
    }
    hide Reachable;
    forall x | Reachable(j, x) ensures P(x) {
      ReachableInherits(j, P, x);
    }
  }
}
