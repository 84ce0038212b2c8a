/** The type manager: the settings compiled to a sorted table of microstrings and two hash tables. */
module TypeManager {
  import opened Bytes
  import opened Microstring
  import opened TypeSettings

  predicate Short(f: Filter) {
    KindOf(f) == Extension && |f| <= MAX_SIZE + 1
  }

  function Packed(f: Filter): nat
    requires Short(f)
  {
    Pack(f[1..])
  }

  function ShortOnes(fs: set<Filter>): set<nat> {
    set f | f in fs && Short(f) :: Packed(f)
  }

  function LongOnes(fs: set<Filter>): set<Filter> {
    set f | f in fs && KindOf(f) == Extension && !Short(f)
  }

  function LiteralOnes(fs: set<Filter>): set<Filter> {
    set f | f in fs && KindOf(f) == Literal
  }

  /** The filters of some of the active types, but for those removed. */
  function EffectiveAmong(active: map<Name, seq<Filter>>, types: set<Name>, removed: set<Filter>): set<Filter>
    requires types <= active.Keys
  {
    set t, f | t in types && f in active[t] && f !in removed :: f
  }

  predicate Sorted(q: seq<nat>) {
    forall i, k :: 0 <= i < k < |q| ==> q[i] < q[k]
  }

  function AsSet(q: seq<nat>): set<nat> {
    set x | x in q
  }

  lemma {:induction false} LeastExists(s: set<nat>) returns (m: nat)
    requires s != {}
    ensures m in s && forall x :: x in s ==> m <= x
  {
    var y :| y in s;
    if x :| x in s && x < y {
      assert x in s - {y};
      m := LeastExists(s - {y});
      assert forall z :: z in s ==> z == y || z in s - {y};
    } else {
      m := y;
    }
  }

  /** q lists, in order, the elements of s below all of rest. */
  ghost predicate Listed(q: seq<nat>, rest: set<nat>, s: set<nat>) {
    && Sorted(q)
    && (forall x :: x in s <==> x in q || x in rest)
    && (forall x, y :: x in q && y in rest ==> x < y)
  }

  lemma ListLeast(q: seq<nat>, rest: set<nat>, s: set<nat>, m: nat)
    requires Listed(q, rest, s) && m in rest && forall x :: x in rest ==> m <= x
    ensures Listed(q + [m], rest - {m}, s)
  {
    var q' := q + [m];
    assert m in q' && forall x :: x in q ==> x in q';
    assert forall x :: x in q' ==> x in q || x == m;
    forall i, k | 0 <= i < k < |q'| ensures q'[i] < q'[k] {
      assert q[i] in q;
    }
  }

  /** The elements of a std::set, in its order. */
  method Ascending(s: set<nat>) returns (q: seq<nat>)
    ensures Sorted(q) && AsSet(q) == s
  {
    q := [];
    var rest := s;
    while rest != {}
      invariant Listed(q, rest, s)
      decreases |rest|
    {
      ghost var least := LeastExists(rest);
      var m :| m in rest && forall x :: x in rest ==> m <= x;
      ListLeast(q, rest, s, m);
      q := q + [m];
      rest := rest - {m};
    }
  }

  /** std::binary_search. */
  method BinarySearch(q: seq<nat>, x: nat) returns (found: bool)
    requires Sorted(q)
    ensures found <==> x in q
  {
    var lo, hi := 0, |q|;
    while lo < hi
      invariant 0 <= lo <= hi <= |q|
      invariant forall i :: 0 <= i < lo ==> q[i] < x
      invariant forall i :: hi <= i < |q| ==> q[i] >= x
    {
      var mid := (lo + hi) / 2;
      if q[mid] < x {
        lo := mid + 1;
      } else {
        hi := mid;
      }
    }
    found := lo < |q| && q[lo] == x;
  }

  class TypeManager {
    const fnmatch: (Name, Name) -> bool
    var firstTypeHasBeenSeen: bool
    var builtinAndUserTypeMap: map<Name, seq<Filter>>
    var activeTypeMap: map<Name, seq<Filter>>
    var removedTypeFilters: set<Filter>
    var excludeGlobs: seq<Name>
    var includeExcludeGlobs: seq<Rule>
    var fastIncludeExtensions: seq<nat>
    var includeExtensions: set<Filter>
    var includedLiteralFilenames: set<Filter>

    ghost function State(): Settings
      reads this
    {
      Settings(firstTypeHasBeenSeen, builtinAndUserTypeMap, activeTypeMap, removedTypeFilters,
               excludeGlobs, includeExcludeGlobs)
    }

    /** The tables agree with the settings. */
    ghost predicate Compiled()
      reads this
    {
      && Sorted(fastIncludeExtensions)
      && AsSet(fastIncludeExtensions) == ShortOnes(Effective(State()))
      && includeExtensions == LongOnes(Effective(State()))
      && includedLiteralFilenames == LiteralOnes(Effective(State()))
    }

    /** No table holds anything yet. */
    ghost predicate Uncompiled()
      reads this
    {
      fastIncludeExtensions == [] && includeExtensions == {} && includedLiteralFilenames == {}
    }

    constructor (builtin: map<Name, seq<Filter>>, fnmatch: (Name, Name) -> bool)
      ensures State() == Fresh(builtin) && Uncompiled() && this.fnmatch == fnmatch
    {
      this.fnmatch := fnmatch;
      firstTypeHasBeenSeen := false;
      builtinAndUserTypeMap := builtin;
      activeTypeMap := builtin;
      removedTypeFilters := {};
      excludeGlobs := [];
      includeExcludeGlobs := [];
      fastIncludeExtensions := [];
      includeExtensions := {};
      includedLiteralFilenames := {};
    }

    method Type(name: Name) returns (known: bool)
      modifies this`firstTypeHasBeenSeen, this`activeTypeMap, this`removedTypeFilters
      ensures State() == Select(old(State()), name)
      ensures known == (name in builtinAndUserTypeMap)
    {
      if name !in builtinAndUserTypeMap {
        return false;
      }
      if !firstTypeHasBeenSeen {
        activeTypeMap := map[];
        firstTypeHasBeenSeen := true;
      }
      var filters := builtinAndUserTypeMap[name];
      var i := 0;
      while i < |filters|
        invariant 0 <= i <= |filters|
        invariant removedTypeFilters == old(removedTypeFilters) - ElementsOf(filters[..i])
        invariant firstTypeHasBeenSeen
        invariant activeTypeMap == if old(firstTypeHasBeenSeen) then old(activeTypeMap) else map[]
      {
        removedTypeFilters := removedTypeFilters - {filters[i]};
        i := i + 1;
      }
      assert filters[..i] == filters;
      if name !in activeTypeMap {
        activeTypeMap := activeTypeMap[name := filters];
      }
      return true;
    }

    method NoType(name: Name) returns (known: bool)
      modifies this`activeTypeMap, this`removedTypeFilters
      ensures State() == Deselect(old(State()), name)
      ensures known == (name in builtinAndUserTypeMap)
    {
      if name !in builtinAndUserTypeMap {
        return false;
      }
      var filters := builtinAndUserTypeMap[name];
      var i := 0;
      while i < |filters|
        invariant 0 <= i <= |filters|
        invariant removedTypeFilters == old(removedTypeFilters) + ElementsOf(filters[..i])
        invariant activeTypeMap == old(activeTypeMap)
      {
        removedTypeFilters := removedTypeFilters + {filters[i]};
        i := i + 1;
      }
      assert filters[..i] == filters;
      activeTypeMap := activeTypeMap - {name};
      return true;
    }

    method TypeAddIs(name: Name, file: Name)
      modifies this`builtinAndUserTypeMap, this`activeTypeMap
      ensures State() == AddFilter(old(State()), name, file)
    {
      builtinAndUserTypeMap := AppendTo(builtinAndUserTypeMap, name, file);
      activeTypeMap := AppendTo(activeTypeMap, name, file);
    }

    method TypeAddExt(name: Name, ext: Name)
      modifies this`builtinAndUserTypeMap, this`activeTypeMap
      ensures State() == AddFilter(old(State()), name, [PERIOD] + ext)
    {
      builtinAndUserTypeMap := AppendTo(builtinAndUserTypeMap, name, [PERIOD] + ext);
      activeTypeMap := AppendTo(activeTypeMap, name, [PERIOD] + ext);
    }

    method TypeAddGlobExclude(glob: Name)
      modifies this`excludeGlobs, this`includeExcludeGlobs
      ensures State() == AddExclude(old(State()), glob)
    {
      excludeGlobs := excludeGlobs + [glob];
      includeExcludeGlobs := includeExcludeGlobs + [Rule(glob, false)];
    }

    method TypeAddGlobInclude(name: Name, glob: Name)
      modifies this`builtinAndUserTypeMap, this`activeTypeMap, this`includeExcludeGlobs,
               this`firstTypeHasBeenSeen, this`removedTypeFilters
      ensures State() == AddInclude(old(State()), name, glob)
    {
      builtinAndUserTypeMap := AppendTo(builtinAndUserTypeMap, name, [QUERY] + glob);
      activeTypeMap := AppendTo(activeTypeMap, name, [QUERY] + glob);
      includeExcludeGlobs := includeExcludeGlobs + [Rule(glob, true)];
      var _ := Type(name);
    }

    method TypeDel(name: Name) returns (known: bool)
      modifies this`builtinAndUserTypeMap, this`activeTypeMap
      ensures State() == Delete(old(State()), name)
      ensures known == (name in old(builtinAndUserTypeMap))
    {
      activeTypeMap := activeTypeMap - {name};
      known := name in builtinAndUserTypeMap;
      builtinAndUserTypeMap := builtinAndUserTypeMap - {name};
    }

    /** One filter goes to the table its first character and its length select. */
    method CompileFilter(f: Filter, shorts: set<nat>, ghost done: set<Filter>) returns (shorts': set<nat>)
      requires Holds(shorts, done)
      modifies this`includeExtensions, this`includedLiteralFilenames
      ensures Holds(shorts', done + {f})
    {
      shorts' := shorts;
      if f != [] && f[0] == PERIOD {
        if |f| <= MAX_SIZE + 1 {
          var m := Construct(f[1..]);
          shorts' := shorts + {m.value};
        } else {
          includeExtensions := includeExtensions + {f};
        }
      } else if f != [] && f[0] == SLASH {
      } else if f != [] && f[0] == QUERY {
      } else {
        includedLiteralFilenames := includedLiteralFilenames + {f};
      }
    }

    /** The tables hold exactly these filters. */
    ghost predicate Holds(shorts: set<nat>, fs: set<Filter>)
      reads this
    {
      shorts == ShortOnes(fs) && includeExtensions == LongOnes(fs) && includedLiteralFilenames == LiteralOnes(fs)
    }

    /** The filters of one type, but for those a notype() has removed. */
    method CompileFilters(filters: seq<Filter>, shorts: set<nat>, ghost done: set<Filter>) returns (shorts': set<nat>)
      requires Holds(shorts, done)
      modifies this`includeExtensions, this`includedLiteralFilenames
      ensures Holds(shorts', done + (ElementsOf(filters) - removedTypeFilters))
    {
      shorts' := shorts;
      ghost var seen := done;
      var i := 0;
      while i < |filters|
        invariant 0 <= i <= |filters|
        invariant Holds(shorts', seen)
        invariant seen == done + (ElementsOf(filters[..i]) - removedTypeFilters)
      {
        if filters[i] !in removedTypeFilters {
          shorts' := CompileFilter(filters[i], shorts', seen);
          seen := seen + {filters[i]};
        }
        i := i + 1;
      }
      assert filters[..i] == filters;
    }

    method CompileTypeTables()
      requires Uncompiled()
      modifies this`includeExtensions, this`includedLiteralFilenames, this`fastIncludeExtensions
      ensures Compiled()
    {
      var shorts: set<nat> := {};
      ghost var done: set<Filter> := {};
      var types := activeTypeMap.Keys;
      while types != {}
        invariant types <= activeTypeMap.Keys
        invariant Holds(shorts, done)
        invariant done == EffectiveAmong(activeTypeMap, activeTypeMap.Keys - types, removedTypeFilters)
        decreases |types|
      {
        var t :| t in types;
        shorts := CompileFilters(activeTypeMap[t], shorts, done);
        done := done + (ElementsOf(activeTypeMap[t]) - removedTypeFilters);
        types := types - {t};
      }
      fastIncludeExtensions := Ascending(shorts);
      assert done == Effective(State());
    }

    method IsExcludedByAnyGlob(name: Name) returns (r: bool)
      ensures r == Excluded(fnmatch, excludeGlobs, name)
    {
      var i := 0;
      while i < |excludeGlobs|
        invariant 0 <= i <= |excludeGlobs|
        invariant forall k :: 0 <= k < i ==> !fnmatch(excludeGlobs[k], name)
      {
        if fnmatch(excludeGlobs[i], name) {
          return true;
        }
        i := i + 1;
      }
      return false;
    }

    method GlobVerdict(name: Name) returns (verdict: bool)
      ensures verdict == LastRule(fnmatch, includeExcludeGlobs, name)
    {
      verdict := false;
      var i := 0;
      while i < |includeExcludeGlobs|
        invariant 0 <= i <= |includeExcludeGlobs|
        invariant verdict == LastRule(fnmatch, includeExcludeGlobs[..i], name)
      {
        var rule := includeExcludeGlobs[i];
        assert includeExcludeGlobs[..i + 1] == includeExcludeGlobs[..i] + [rule];
        if fnmatch(rule.glob, name) {
          verdict := rule.included;
        }
        i := i + 1;
      }
      assert includeExcludeGlobs[..i] == includeExcludeGlobs;
    }

    /** The fast tables decide as the settings do. */
    method FileShouldBeScanned(name: Name) returns (r: bool)
      requires Compiled() && NoNul(name) && forall f :: f in Effective(State()) ==> NoNul(f)
      ensures r == Admits(fnmatch, State(), name)
    {
      var period := LastPeriod(name);
      if period.Some? && period.value > 0 {
        var ext := name[period.value..];
        var listed := false;
        if |ext| <= MAX_SIZE + 1 {
          var mext := Construct(name[period.value + 1..]);
          assert ext[1..] == name[period.value + 1..];
          ShortLookup(Effective(State()), ext);
          listed := BinarySearch(fastIncludeExtensions, mext.value);
        } else if ext in includeExtensions {
          listed := true;
        }
        assert listed == (ext in Effective(State()));
        if listed {
          var excluded := IsExcludedByAnyGlob(name);
          return !excluded;
        }
      }
      if name in includedLiteralFilenames {
        var excluded := IsExcludedByAnyGlob(name);
        return !excluded;
      }
      r := GlobVerdict(name);
    }
  }

  /** On C strings the table of microstrings holds an extension exactly when the filters do. */
  lemma ShortLookup(fs: set<Filter>, ext: Filter)
    requires Short(ext) && NoNul(ext) && forall f :: f in fs ==> NoNul(f)
    ensures Packed(ext) in ShortOnes(fs) <==> ext in fs
  {
    if Packed(ext) in ShortOnes(fs) {
      var f :| f in fs && Short(f) && Packed(f) == Packed(ext);
      PackIsInjective(f[1..], ext[1..]);
      assert f == [PERIOD] + f[1..] && ext == [PERIOD] + ext[1..];
    }
  }
}
