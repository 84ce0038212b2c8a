/** One directory of the tree walk: what each entry is taken for, and the sequential recursive walk. */
module Traversal {
  import opened SyncQueue

  type Path = seq<string>

  /** Device and inode number: a FileID's unique identifier. */
  datatype Key = Key(dev: nat, ino: nat)

  /** The type readdir() reports with an entry. */
  datatype DType = DtDir | DtReg | DtLnk | DtUnknown | DtOther

  /** What a stat call finds; a directory is named by its index in the file system. */
  datatype Target = ADirectory(dir: nat) | ARegularFile | ASymlink | SomethingElse

  datatype Stat = Stat(target: Target, id: Key)

  /** A directory entry, with what stat finds for the entry itself and for where it leads. */
  datatype Dirent = Dirent(name: string, dtype: DType, ino: nat, itself: Stat, beyond: Stat)

  /** A FileID for a directory: where it is, how it was reached and its cached identifier. */
  datatype Item = Item(dir: nat, path: Path, id: Key)

  datatype Config = Config(
    tree: seq<seq<Dirent>>,
    recurse: bool,
    follow: bool,
    fileShouldBeScanned: string -> bool,
    dirShouldBeExcluded: string -> bool)

  datatype Action = Ignore | Found(file: Path) | Descend(child: Item)

  predicate IsDot(name: string) {
    name == "." || name == ".."
  }

  /** d_type agrees with the entry, and only a symbolic link leads somewhere else. */
  predicate ConsistentEntry(c: Config, e: Dirent) {
    && (e.dtype == DtDir ==> e.itself.target.ADirectory?)
    && (e.dtype == DtReg ==> e.itself.target.ARegularFile?)
    && (e.dtype == DtLnk ==> e.itself.target.ASymlink?)
    && (e.dtype == DtOther ==> e.itself.target.SomethingElse?)
    && (!e.itself.target.ASymlink? ==> e.beyond == e.itself)
    && !e.beyond.target.ASymlink?
    && (e.itself.target.ADirectory? ==> e.itself.target.dir < |c.tree|)
    && (e.beyond.target.ADirectory? ==> e.beyond.target.dir < |c.tree|)
  }

  ghost predicate Consistent(c: Config) {
    forall d, i :: 0 <= d < |c.tree| && 0 <= i < |c.tree[d]| ==> ConsistentEntry(c, c.tree[d][i])
  }

  predicate NeedsStat(c: Config, e: Dirent) {
    e.dtype == DtUnknown || (c.follow && e.dtype == DtLnk)
  }

  /** What the walk takes an entry for: d_type where that settles it, a stat call where it does not. */
  function TargetOf(c: Config, e: Dirent): Target
    requires ConsistentEntry(c, e)
  {
    if NeedsStat(c, e) then (if c.follow then e.beyond else e.itself).target
    else if e.dtype == DtDir then ADirectory(e.itself.target.dir)
    else if e.dtype == DtReg then ARegularFile
    else if e.dtype == DtLnk then ASymlink
    else SomethingElse
  }

  /** The child's identifier: the parent's device with the entry's inode, unless the entry has none. */
  function KeyOf(at: Item, e: Dirent): Key {
    if e.ino != 0 then Key(at.id.dev, e.ino) else e.beyond.id
  }

  function Classify(c: Config, at: Item, e: Dirent): Action
    requires ConsistentEntry(c, e)
  {
    if e.dtype == DtOther || IsDot(e.name) then Ignore
    else match TargetOf(c, e)
         case ARegularFile => if c.fileShouldBeScanned(e.name) then Found(at.path + [e.name]) else Ignore
         case ADirectory(d) => if !c.recurse || c.dirShouldBeExcluded(e.name) then Ignore
                               else Descend(Item(d, at.path + [e.name], KeyOf(at, e)))
         case ASymlink => Ignore
         case SomethingElse => Ignore
  }

  /** What a stat call on every entry would say, links followed or not. */
  function StatTarget(c: Config, e: Dirent): Target {
    if c.follow then e.beyond.target else e.itself.target
  }

  /** A file to report: regular, accepted by name, and neither "." nor "..". */
  predicate Accepted(c: Config, e: Dirent) {
    e.name != "." && e.name != ".." && StatTarget(c, e).ARegularFile? && c.fileShouldBeScanned(e.name)
  }

  /** A directory to walk, with recursion: not excluded by name, and neither "." nor "..". */
  predicate Admissible(c: Config, e: Dirent) {
    e.name != "." && e.name != ".." && StatTarget(c, e).ADirectory? && c.recurse && !c.dirShouldBeExcluded(e.name)
  }

  /** The FileID made for a directory entry. */
  function ChildOf(c: Config, at: Item, e: Dirent): Item
    requires StatTarget(c, e).ADirectory?
  {
    Item(StatTarget(c, e).dir, at.path + [e.name], KeyOf(at, e))
  }

  /**
    * d_type only saves stat calls: every entry but "." and ".." is taken for what a stat call on it would have
    * said, or one on its target when links are followed.
    */
  lemma DTypeAgreesWithStat(c: Config, at: Item, e: Dirent)
    requires ConsistentEntry(c, e)
    ensures Classify(c, at, e).Found? <==>
            e.name != "." && e.name != ".." && c.fileShouldBeScanned(e.name)
            && (if c.follow then e.beyond.target.ARegularFile? else e.itself.target.ARegularFile?)
    ensures Classify(c, at, e).Descend? <==>
            e.name != "." && e.name != ".." && c.recurse && !c.dirShouldBeExcluded(e.name)
            && (if c.follow then e.beyond.target.ADirectory? else e.itself.target.ADirectory?)
    ensures Classify(c, at, e).Found? ==> Classify(c, at, e).file == at.path + [e.name]
    ensures Classify(c, at, e).Descend? ==>
              var child := Classify(c, at, e).child;
              && child.path == at.path + [e.name]
              && child.dir == (if c.follow then e.beyond.target.dir else e.itself.target.dir)
              && child.id == (if e.ino != 0 then Key(at.id.dev, e.ino) else e.beyond.id)
  {
  }

  /** The same in terms of the two predicates. */
  lemma ClassifyMeaning(c: Config, at: Item, e: Dirent)
    requires ConsistentEntry(c, e)
    ensures forall file :: Classify(c, at, e) == Found(file) <==> Accepted(c, e) && file == at.path + [e.name]
    ensures forall x :: Classify(c, at, e) == Descend(x) <==> Admissible(c, e) && x == ChildOf(c, at, e)
    ensures Classify(c, at, e).Ignore? <==> !Accepted(c, e) && !Admissible(c, e)
    ensures !(Accepted(c, e) && Admissible(c, e))
    ensures Admissible(c, e) ==> StatTarget(c, e).ADirectory? && ChildOf(c, at, e).path == at.path + [e.name]
  {
  }

  // ---------------------------------------------------------------- one directory, entry by entry

  /** The files found and the subdirectories admitted by reading entries, and the visited set they leave. */
  datatype Reading = Reading(files: seq<Path>, children: seq<Item>, visited: set<Key>)

  /** The outcome of one more entry. */
  function ReadOne(c: Config, at: Item, e: Dirent, r: Reading): Reading
    requires ConsistentEntry(c, e)
  {
    match Classify(c, at, e)
    case Ignore => r
    case Found(file) => r.(files := r.files + [file])
    case Descend(child) =>
      if !c.follow then r.(children := r.children + [child])
      else if child.id in r.visited then r
      else r.(children := r.children + [child], visited := r.visited + {child.id})
  }

  /** The outcome of the first n entries of a directory. */
  function ReadUpTo(c: Config, at: Item, n: nat, visited: set<Key>): Reading
    requires at.dir < |c.tree| && n <= |c.tree[at.dir]|
    requires forall e :: e in c.tree[at.dir] ==> ConsistentEntry(c, e)
  {
    if n == 0 then Reading([], [], visited)
    else ReadOne(c, at, c.tree[at.dir][n - 1], ReadUpTo(c, at, n - 1, visited))
  }

  // ---------------------------------------------------------------- what a directory yields

  /** The accepted files among the entries, in order. */
  function AcceptedPaths(c: Config, at: Item, es: seq<Dirent>): seq<Path> {
    if es == [] then []
    else
      var e := es[|es| - 1];
      AcceptedPaths(c, at, es[..|es| - 1]) + (if Accepted(c, e) then [at.path + [e.name]] else [])
  }

  /** The directories to walk among the entries, in order. */
  function AdmissibleItems(c: Config, at: Item, es: seq<Dirent>): seq<Item> {
    if es == [] then []
    else
      var e := es[|es| - 1];
      AdmissibleItems(c, at, es[..|es| - 1]) + (if Admissible(c, e) then [ChildOf(c, at, e)] else [])
  }

  predicate Carries(items: seq<Item>, k: Key) {
    exists i :: 0 <= i < |items| && items[i].id == k
  }

  /** Those whose identifier has not been visited and is no earlier one's. */
  function Unseen(items: seq<Item>, visited: set<Key>): seq<Item> {
    if items == [] then []
    else
      var before, x := items[..|items| - 1], items[|items| - 1];
      Unseen(before, visited) + (if x.id in visited || Carries(before, x.id) then [] else [x])
  }

  /** What one more entry adds. */
  lemma ReadOneMeaning(c: Config, at: Item, e: Dirent, r: Reading)
    requires ConsistentEntry(c, e)
    ensures Admissible(c, e) ==> StatTarget(c, e).ADirectory?
    ensures ReadOne(c, at, e, r) ==
            if Accepted(c, e) then r.(files := r.files + [at.path + [e.name]])
            else if !Admissible(c, e) then r
            else
              var x := ChildOf(c, at, e);
              if !c.follow then r.(children := r.children + [x])
              else if x.id in r.visited then r
              else r.(children := r.children + [x], visited := r.visited + {x.id})
    ensures !(Accepted(c, e) && Admissible(c, e))
  {
  }

  /**
    * Reading the first n entries yields the accepted files among them and the directories to walk: all of them,
    * or when links are followed the first with each identifier that has not been visited.
    */
  lemma {:induction false} DirectoryYields(c: Config, at: Item, n: nat, visited: set<Key>)
    requires at.dir < |c.tree| && n <= |c.tree[at.dir]|
    requires forall e :: e in c.tree[at.dir] ==> ConsistentEntry(c, e)
    ensures var r, es := ReadUpTo(c, at, n, visited), c.tree[at.dir][..n];
            && r.files == AcceptedPaths(c, at, es)
            && (!c.follow ==> r.children == AdmissibleItems(c, at, es) && r.visited == visited)
            && (c.follow ==> r.children == Unseen(AdmissibleItems(c, at, es), visited)
                             && forall k :: k in r.visited <==> k in visited || Carries(AdmissibleItems(c, at, es), k))
    decreases n
  {
    hide ConsistentEntry, Accepted, Admissible, ChildOf, ReadOne, Unseen, Carries;
    if n == 0 {
      NothingUnseen(visited);
    } else {
      DirectoryYields(c, at, n - 1, visited);
      var es, e := c.tree[at.dir][..n], c.tree[at.dir][n - 1];
      assert es[..n - 1] == c.tree[at.dir][..n - 1];
      ReadOneMeaning(c, at, e, ReadUpTo(c, at, n - 1, visited));
      if Admissible(c, e) {
        var items, x := AdmissibleItems(c, at, es[..n - 1]), ChildOf(c, at, e);
        assert AdmissibleItems(c, at, es) == items + [x];
        UnseenOneMore(items, x, visited);
        CarriesOneMore(items, x);
      } else {
        assert AdmissibleItems(c, at, es) == AdmissibleItems(c, at, es[..n - 1]);
      }
    }
  }

  lemma NothingUnseen(visited: set<Key>)
    ensures Unseen([], visited) == [] && forall k :: !Carries([], k)
  {
  }

  lemma UnseenOneMore(items: seq<Item>, x: Item, visited: set<Key>)
    ensures Unseen(items + [x], visited) ==
            if x.id in visited || Carries(items, x.id) then Unseen(items, visited) else Unseen(items, visited) + [x]
  {
    assert (items + [x])[..|items|] == items;
  }

  lemma CarriesOneMore(items: seq<Item>, x: Item)
    ensures forall k :: Carries(items + [x], k) <==> Carries(items, k) || k == x.id
  {
    forall k ensures Carries(items + [x], k) <==> Carries(items, k) || k == x.id {
      assert (items + [x])[|items|] == x;
      if Carries(items, k) {
        var i :| 0 <= i < |items| && items[i].id == k;
        assert (items + [x])[i] == items[i];
      }
    }
  }

  /** DirTree with its two queues; the methods are what one worker does between two pulls. */
  class DirTree {
    const c: Config
    const dirQueue: Queue<Item>
    const outQueue: Queue<Path>
    var dirHasBeenVisited: set<Key>

    ghost predicate Valid()
      reads this
    {
      && (dirQueue as object) != outQueue
      && Consistent(c)
    }

    constructor (config: Config, dirs: Queue<Item>, out: Queue<Path>)
      requires Consistent(config) && (dirs as object) != out
      ensures Valid() && c == config && dirQueue == dirs && outQueue == out
      ensures dirHasBeenVisited == {}
    {
      c, dirQueue, outQueue := config, dirs, out;
      dirHasBeenVisited := {};
    }

    /** unordered_set::insert: true if the key was there already. */
    method HasDirBeenVisited(di: Key) returns (already: bool)
      modifies this
      ensures dirHasBeenVisited == old(dirHasBeenVisited) + {di}
      ensures already == (di in old(dirHasBeenVisited))
    {
      already := di in dirHasBeenVisited;
      dirHasBeenVisited := dirHasBeenVisited + {di};
    }

    /** One entry: files go to the local queue, admitted directories straight to the shared one. */
    method ProcessDirent(dse: Item, e: Dirent, local: seq<Path>) returns (local': seq<Path>, ghost admitted: seq<Item>)
      requires Valid() && ConsistentEntry(c, e)
      requires !dirQueue.closed
      modifies this, dirQueue
      ensures Valid()
      ensures Reading(local', admitted, dirHasBeenVisited) ==
              ReadOne(c, dse, e, Reading(local, [], old(dirHasBeenVisited)))
      // Said of the entry itself.
      ensures local' == local + (if Accepted(c, e) then [dse.path + [e.name]] else [])
      ensures admitted == if Admissible(c, e) && (!c.follow || ChildOf(c, dse, e).id !in old(dirHasBeenVisited))
                          then [ChildOf(c, dse, e)] else []
      ensures dirQueue.State() == Appended(old(dirQueue.State()), admitted)
    {
      local', admitted := local, [];
      ReadOneMeaning(c, dse, e, Reading(local, [], dirHasBeenVisited));
      assert dirQueue.underlyingQueue == dirQueue.underlyingQueue + [];
      var isDir, isFile := e.dtype == DtDir, e.dtype == DtReg;
      var isSymlink, isUnknown := e.dtype == DtLnk, e.dtype == DtUnknown;
      if !isFile && !isDir && !isSymlink && !isUnknown {
        return;
      }
      if 0 < |e.name| && e.name[0] == '.' && (|e.name| == 1 || (e.name[1] == '.' && |e.name| == 2)) {
        assert IsDot(e.name);
        return;
      }
      var dir := if isDir then e.itself.target.dir else 0;
      if isUnknown || (c.follow && isSymlink) {
        var found := if c.follow then e.beyond.target else e.itself.target;
        isDir, isFile, isSymlink := found.ADirectory?, found.ARegularFile?, found.ASymlink?;
        if isDir {
          dir := found.dir;
        }
        if isDir || isFile || isSymlink {
          isUnknown := false;
        }
      }
      if isUnknown {
        return;
      }
      if isFile {
        if c.fileShouldBeScanned(e.name) {
          local' := local + [dse.path + [e.name]];
        }
      } else if isDir {
        if !c.recurse || c.dirShouldBeExcluded(e.name) {
          return;
        }
        var child := Item(dir, dse.path + [e.name], if e.ino != 0 then Key(dse.id.dev, e.ino) else e.beyond.id);
        if c.follow {
          var already := HasDirBeenVisited(child.id);
          if already {
            return;
          }
        }
        var _, _ := dirQueue.PushBack(child);
        admitted := [child];
      }
    }

    /** The body of ReaddirLoop for one directory pulled off the queue. */
    method ReadDirectory(dse: Item)
      requires Valid() && dse.dir < |c.tree|
      requires !dirQueue.closed && !outQueue.closed
      modifies this, dirQueue, outQueue
      ensures Valid()
      ensures var r := ReadUpTo(c, dse, |c.tree[dse.dir]|, old(dirHasBeenVisited));
        && dirQueue.State() == Appended(old(dirQueue.State()), r.children)
        && outQueue.State() == Appended(old(outQueue.State()), r.files)
        && dirHasBeenVisited == r.visited
      // Said of the entries themselves.
      ensures outQueue.State() == Appended(old(outQueue.State()), AcceptedPaths(c, dse, c.tree[dse.dir]))
      ensures var items := AdmissibleItems(c, dse, c.tree[dse.dir]);
              dirQueue.State() ==
              Appended(old(dirQueue.State()), if c.follow then Unseen(items, old(dirHasBeenVisited)) else items)
    {
      var local: seq<Path> := [];
      ghost var children: seq<Item> := [];
      ghost var before := dirQueue.underlyingQueue;
      assert before == before + children;
      var next := 0;
      while next < |c.tree[dse.dir]|
        invariant Valid() && 0 <= next <= |c.tree[dse.dir]|
        invariant Reading(local, children, dirHasBeenVisited) ==
                  ReadUpTo(c, dse, next, old(dirHasBeenVisited))
        invariant dirQueue.State() == old(dirQueue.State()).(queue := before + children)
        invariant outQueue.State() == old(outQueue.State())
      {
        var e := c.tree[dse.dir][next];
        assert ConsistentEntry(c, e);
        ghost var admitted;
        ghost var visited := dirHasBeenVisited;
        ReadOneAppends(c, dse, e, local, children, visited);
        local, admitted := ProcessDirent(dse, e, local);
        assert (before + children) + admitted == before + (children + admitted);
        children := children + admitted;
        next := next + 1;
      }
      assert c.tree[dse.dir][..next] == c.tree[dse.dir];
      DirectoryYields(c, dse, next, old(dirHasBeenVisited));
      if |local| != 0 {
        var _, _ := outQueue.PushBackAll(local);
      } else {
        assert old(outQueue.underlyingQueue) == old(outQueue.underlyingQueue) + [];
      }
    }
  }

  /** What an entry admits does not depend on what was admitted before, only on the visited set. */
  lemma ReadOneAppends(c: Config, at: Item, e: Dirent, files: seq<Path>, children: seq<Item>, visited: set<Key>)
    requires ConsistentEntry(c, e)
    ensures var r := ReadOne(c, at, e, Reading(files, [], visited));
            ReadOne(c, at, e, Reading(files, children, visited)) == r.(children := children + r.children)
  {
    assert children + [] == children;
  }

  // ---------------------------------------------------------------- the sequential recursive walk

  /** Without following links no entry but "." and ".." leads to a directory that is not lower. */
  ghost predicate Acyclic(c: Config, height: seq<nat>) {
    && |height| == |c.tree|
    && forall d, i :: 0 <= d < |c.tree| && 0 <= i < |c.tree[d]| ==>
         var e := c.tree[d][i];
         e.itself.target.ADirectory? && e.name != "." && e.name != ".." && e.itself.target.dir < |c.tree| ==>
           height[e.itself.target.dir] < height[d]
  }

  ghost predicate Physical(c: Config, height: seq<nat>) {
    !c.follow && Consistent(c) && Acyclic(c, height)
  }

  lemma DescendsLower(c: Config, height: seq<nat>, at: Item, i: nat)
    requires Physical(c, height) && at.dir < |c.tree| && i < |c.tree[at.dir]|
    ensures var e := c.tree[at.dir][i];
            ConsistentEntry(c, e) && (Classify(c, at, e).Descend? ==>
              Classify(c, at, e).child.dir < |c.tree| &&
              height[Classify(c, at, e).child.dir] < height[at.dir])
  {
    assert ConsistentEntry(c, c.tree[at.dir][i]);
  }

  /** Every file a recursive walk of the directory reports, with how often it does. */
  ghost function Walk(c: Config, height: seq<nat>, at: Item): multiset<Path>
    requires Physical(c, height) && at.dir < |c.tree|
    decreases height[at.dir], |c.tree[at.dir]| + 1
  {
    WalkFrom(c, height, at, 0)
  }

  /** The same for the entries from position i on. */
  ghost function WalkFrom(c: Config, height: seq<nat>, at: Item, i: nat): multiset<Path>
    requires Physical(c, height) && at.dir < |c.tree| && i <= |c.tree[at.dir]|
    decreases height[at.dir], |c.tree[at.dir]| - i
  {
    if i == |c.tree[at.dir]| then multiset{}
    else
      DescendsLower(c, height, at, i);
      (match Classify(c, at, c.tree[at.dir][i])
       case Ignore => multiset{}
       case Found(file) => multiset{file}
       case Descend(child) => Walk(c, height, child)) + WalkFrom(c, height, at, i + 1)
  }

  /** What an entry at position i adds to the walk. */
  ghost function WalkEntry(c: Config, height: seq<nat>, at: Item, i: nat): multiset<Path>
    requires Physical(c, height) && at.dir < |c.tree| && i < |c.tree[at.dir]|
  {
    DescendsLower(c, height, at, i);
    match Classify(c, at, c.tree[at.dir][i])
    case Ignore => multiset{}
    case Found(file) => multiset{file}
    case Descend(child) => Walk(c, height, child)
  }

  lemma WalkOneStep(c: Config, height: seq<nat>, at: Item, i: nat, p: Path)
    requires Physical(c, height) && at.dir < |c.tree| && i < |c.tree[at.dir]|
    ensures WalkFrom(c, height, at, i)[p] == WalkEntry(c, height, at, i)[p] + WalkFrom(c, height, at, i + 1)[p]
  {
  }

  lemma WalkStartsAtTop(c: Config, height: seq<nat>, x: Item)
    requires Physical(c, height) && x.dir < |c.tree|
    ensures Walk(c, height, x) == WalkFrom(c, height, x, 0)
  {
  }
}
