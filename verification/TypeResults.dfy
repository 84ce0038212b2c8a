/** Laws of the type options, over every sequence of them. */
module TypeResults {
  import opened Bytes
  import opened Microstring
  import opened TypeSettings
  import TM = TypeManager

  predicate IsSuffix(a: seq<Filter>, b: seq<Filter>) {
    |a| <= |b| && b[|b| - |a|..] == a
  }

  /** Every active type is defined, and its active filters are the latest of its filters. */
  ghost predicate Coherent(s: Settings) {
    && s.active.Keys <= s.defined.Keys
    && forall t :: t in s.active ==> IsSuffix(s.active[t], s.defined[t])
  }

  lemma AddKeepsCoherent(s: Settings, name: Name, f: Filter)
    requires Coherent(s)
    ensures Coherent(AddFilter(s, name, f))
  {
    var s' := AddFilter(s, name, f);
    forall t | t in s'.active ensures IsSuffix(s'.active[t], s'.defined[t]) {
      if t == name && t in s.active {
        assert IsSuffix(s.active[t], s.defined[t]);
        var a, d := s.active[t], s.defined[t];
        assert (d + [f])[|d| - |a|..] == d[|d| - |a|..] + [f];
      }
    }
  }

  lemma ApplyKeepsCoherent(s: Settings, op: Op)
    requires Coherent(s)
    ensures Coherent(Apply(s, op))
  {
    match op
    case AddIs(name, file) => AddKeepsCoherent(s, name, file);
    case AddExt(name, ext) => AddKeepsCoherent(s, name, [PERIOD] + ext);
    case GlobInclude(name, glob) => AddKeepsCoherent(s, name, [QUERY] + glob);
    case _ =>
  }

  /** Over every sequence of options, an active type's filters are a suffix of its definition. */
  lemma {:induction false} RunKeepsCoherent(s: Settings, ops: seq<Op>)
    requires Coherent(s)
    ensures Coherent(Run(s, ops))
    decreases |ops|
  {
    if ops != [] {
      ApplyKeepsCoherent(s, ops[0]);
      RunKeepsCoherent(Apply(s, ops[0]), ops[1..]);
    }
  }

  // ---------------------------------------------------------------- --type and --notype

  lemma ActiveIsDefined(s: Settings, t: Name, f: Filter)
    requires Coherent(s) && t in s.active && f in s.active[t]
    ensures t in s.defined && f in ElementsOf(s.defined[t])
  {
    assert IsSuffix(s.active[t], s.defined[t]);
  }

  /** Deselecting a type takes its filters from every other active type too. */
  lemma DeselectTakesFilters(s: Settings, name: Name)
    requires Coherent(s) && name in s.defined
    ensures Effective(Deselect(s, name)) == Effective(s) - ElementsOf(s.defined[name])
  {
    var s' := Deselect(s, name);
    forall f ensures f in Effective(s') <==> f in Effective(s) && f !in ElementsOf(s.defined[name]) {
      InEffective(s, f);
      InEffective(s', f);
      if t :| t in s.active && f in s.active[t] {
        ActiveIsDefined(s, t, f);
        assert t != name ==> t in s'.active && f in s'.active[t];
      }
    }
  }

  /** Selecting it again gives them all back, and nothing else. */
  lemma SelectUndoesDeselect(s: Settings, name: Name)
    requires Coherent(s) && s.seen && name in s.defined
    ensures Effective(Select(Deselect(s, name), name)) == Effective(s) + ElementsOf(s.defined[name])
  {
    var s' := Select(Deselect(s, name), name);
    forall f ensures f in Effective(s') <==> f in Effective(s) || f in ElementsOf(s.defined[name]) {
      InEffective(s, f);
      InEffective(s', f);
      if f in ElementsOf(s.defined[name]) {
        assert name in s'.active && f in s'.active[name];
      } else if t :| t in s.active && f in s.active[t] {
        ActiveIsDefined(s, t, f);
        assert t in s'.active && f in s'.active[t];
      }
    }
  }

  /**
    * A filter added to a deselected type makes the type active with that filter alone, so selecting the type again
    * no longer gives the others back, unless another active type has them.
    */
  lemma AddedToDeselectedHidesTheRest(s: Settings, name: Name, f: Filter, g: Filter)
    requires s.seen && name in s.defined && g in s.defined[name] && g != f
    ensures var s' := Select(AddFilter(Deselect(s, name), name, f), name);
            f in Effective(s') && (g in Effective(s') <==> exists t :: t in s.active && t != name && g in s.active[t])
  {
    var s' := Select(AddFilter(Deselect(s, name), name, f), name);
    InEffective(s', f);
    InEffective(s', g);
    assert s'.active[name] == [f] && f in s'.active[name];
    forall t | t != name ensures t in s'.active <==> t in s.active {
    }
    forall t | t != name && t in s.active ensures s'.active[t] == s.active[t] {
    }
    assert g !in s'.removed;
  }

  function SelectAll(s: Settings, ts: seq<Name>): Settings
    decreases |ts|
  {
    if ts == [] then s else SelectAll(Select(s, ts[0]), ts[1..])
  }

  function DeselectAll(s: Settings, ns: seq<Name>): Settings
    decreases |ns|
  {
    if ns == [] then s else DeselectAll(Deselect(s, ns[0]), ns[1..])
  }

  lemma {:induction false} DeselectAllKeeps(s: Settings, ns: seq<Name>)
    ensures var r := DeselectAll(s, ns);
            r.seen == s.seen && r.defined == s.defined && r.excludes == s.excludes && r.rules == s.rules
    decreases |ns|
  {
    if ns != [] {
      DeselectAllKeeps(Deselect(s, ns[0]), ns[1..]);
    }
  }

  /** Two settings that differ only in what they have removed, and agree on what is effective. */
  ghost predicate Alike(s: Settings, r: Settings) {
    && s.defined == r.defined && s.seen == r.seen && s.excludes == r.excludes && s.rules == r.rules
    && (s.seen ==> s.active == r.active && Untouched(s) && Untouched(r))
  }

  ghost predicate Untouched(s: Settings) {
    forall t, f :: t in s.active && f in s.active[t] ==> f !in s.removed
  }

  lemma SelectAlike(s: Settings, r: Settings, name: Name)
    requires Alike(s, r)
    ensures Alike(Select(s, name), Select(r, name))
  {
  }

  lemma {:induction false} SelectAllAlike(s: Settings, r: Settings, ts: seq<Name>)
    requires Alike(s, r)
    ensures Alike(SelectAll(s, ts), SelectAll(r, ts))
    ensures SelectAll(s, ts).seen == (s.seen || exists i :: 0 <= i < |ts| && ts[i] in s.defined)
    decreases |ts|
  {
    if ts != [] {
      SelectAlike(s, r, ts[0]);
      SelectAllAlike(Select(s, ts[0]), Select(r, ts[0]), ts[1..]);
      assert ts == [ts[0]] + ts[1..];
    }
  }

  /**
    * From a fresh manager, --notype options before --type options that name a known type make no
    * difference: the same types are active, the same filters effective and the same globs in force.
    */
  lemma NotypesBeforeTypesVanish(builtin: map<Name, seq<Filter>>, ns: seq<Name>, ts: seq<Name>)
    requires exists i :: 0 <= i < |ts| && ts[i] in builtin
    ensures var s, r := SelectAll(DeselectAll(Fresh(builtin), ns), ts), SelectAll(Fresh(builtin), ts);
            s.active == r.active && Effective(s) == Effective(r) && s.excludes == r.excludes && s.rules == r.rules
  {
    var s0 := DeselectAll(Fresh(builtin), ns);
    DeselectAllKeeps(Fresh(builtin), ns);
    SelectAllAlike(s0, Fresh(builtin), ts);
    var s, r := SelectAll(s0, ts), SelectAll(Fresh(builtin), ts);
    assert s.seen;
    forall f ensures f in Effective(s) <==> f in Effective(r) {
      InEffective(s, f);
      InEffective(r, f);
    }
  }

  /** --type options that name no known type have no effect at all, on the --notype ones either. */
  lemma {:induction false} UnknownTypesDoNothing(s: Settings, ts: seq<Name>)
    requires forall i :: 0 <= i < |ts| ==> ts[i] !in s.defined
    ensures SelectAll(s, ts) == s
    decreases |ts|
  {
    if ts != [] {
      assert ts[0] !in s.defined;
      UnknownTypesDoNothing(s, ts[1..]);
    }
  }

  /** The filters of the known ones among some types. */
  function FiltersOf(builtin: map<Name, seq<Filter>>, ts: seq<Name>): set<Filter> {
    set t, f | t in ts && t in builtin && f in builtin[t] :: f
  }

  /** Only the types selected so far are active, as they were defined, and none of their filters has been removed. */
  ghost predicate ActiveAre(s: Settings, builtin: map<Name, seq<Filter>>, ts: seq<Name>) {
    && s.defined == builtin
    && (s.seen ==> s.active.Keys == set t | t in ts && t in builtin)
    && (s.seen ==> forall t :: t in s.active ==> t in builtin && s.active[t] == builtin[t])
    && (s.seen ==> forall t, f :: t in s.active && f in builtin[t] ==> f !in s.removed)
    && (s.seen <==> exists t :: t in ts && t in builtin)
  }

  lemma {:induction false} SelectAllActivates(s: Settings, builtin: map<Name, seq<Filter>>, done: seq<Name>,
                                              ts: seq<Name>)
    requires ActiveAre(s, builtin, done)
    ensures ActiveAre(SelectAll(s, ts), builtin, done + ts)
    decreases |ts|
  {
    hide ActiveAre;
    if ts == [] {
      assert done + ts == done;
    } else {
      SelectActivates(s, builtin, done, ts[0]);
      SelectAllActivates(Select(s, ts[0]), builtin, done + [ts[0]], ts[1..]);
      assert done + ts == done + [ts[0]] + ts[1..];
    }
  }

  lemma SelectActivates(s: Settings, builtin: map<Name, seq<Filter>>, done: seq<Name>, t: Name)
    requires ActiveAre(s, builtin, done)
    ensures ActiveAre(Select(s, t), builtin, done + [t])
  {
    assert t in done + [t] && forall u :: u in done + [t] <==> u in done || u == t;
    if t in builtin {
      assert Select(s, t).seen;
    }
  }

  /** From a fresh manager, type options that name some known type leave just those types' filters in effect. */
  lemma TypesSelectTheirFilters(builtin: map<Name, seq<Filter>>, ns: seq<Name>, ts: seq<Name>)
    requires exists i :: 0 <= i < |ts| && ts[i] in builtin
    ensures Effective(SelectAll(DeselectAll(Fresh(builtin), ns), ts)) == FiltersOf(builtin, ts)
  {
    var s := SelectAll(Fresh(builtin), ts);
    NotypesBeforeTypesVanish(builtin, ns, ts);
    SelectAllActivates(Fresh(builtin), builtin, [], ts);
    assert [] + ts == ts;
    assert s.seen;
    forall f ensures f in Effective(s) <==> f in FiltersOf(builtin, ts) {
      InEffective(s, f);
      if f in FiltersOf(builtin, ts) {
        var t :| t in ts && t in builtin && f in builtin[t];
        assert t in s.active && f in s.active[t];
      }
    }
  }

  lemma SetOfNothing(q: seq<nat>)
    ensures TM.AsSet(q) == {} <==> q == []
  {
    if q != [] {
      assert q[0] in TM.AsSet(q);
    }
  }

  lemma {:induction false} SortedIsUnique(q: seq<nat>, r: seq<nat>)
    requires TM.Sorted(q) && TM.Sorted(r) && TM.AsSet(q) == TM.AsSet(r)
    ensures q == r
  {
    SetOfNothing(q);
    SetOfNothing(r);
    if q != [] {
      assert q[0] in TM.AsSet(q);
      assert r[0] in TM.AsSet(r);
      assert q[0] == r[0];
      forall x: nat ensures x in TM.AsSet(q[1..]) <==> x in TM.AsSet(r[1..]) {
        assert x in q <==> x in TM.AsSet(q);
        assert x in r <==> x in TM.AsSet(r);
        TailOfSorted(q, x);
        TailOfSorted(r, x);
      }
      SortedIsUnique(q[1..], r[1..]);
      assert q == [q[0]] + q[1..] && r == [r[0]] + r[1..];
    }
  }

  lemma TailOfSorted(q: seq<nat>, x: nat)
    requires TM.Sorted(q) && q != []
    ensures x in q[1..] <==> x in q && x != q[0]
  {
    assert q == [q[0]] + q[1..];
    if x in q[1..] {
      var i :| 0 <= i < |q[1..]| && q[1..][i] == x;
      assert q[0] < q[i + 1];
    }
  }

  /** Two managers with the same effective filters compile to the same tables. */
  lemma EqualFiltersEqualTables(a: TM.TypeManager, b: TM.TypeManager)
    requires a.Compiled() && b.Compiled() && Effective(a.State()) == Effective(b.State())
    ensures a.fastIncludeExtensions == b.fastIncludeExtensions
    ensures a.includeExtensions == b.includeExtensions
    ensures a.includedLiteralFilenames == b.includedLiteralFilenames
  {
    SortedIsUnique(a.fastIncludeExtensions, b.fastIncludeExtensions);
  }

  // ---------------------------------------------------------------- adding and deleting

  /** A filter is added behind those its type has, and to no other type; it takes effect if it is not removed. */
  lemma AddKeepsTheOthers(s: Settings, name: Name, f: Filter)
    ensures var s' := AddFilter(s, name, f);
            && (forall t :: t in s'.defined <==> t in s.defined || t == name)
            && (forall t :: t in s.defined ==> s.defined[t] <= s'.defined[t])
            && (forall t :: t in s.defined && t != name ==> s'.defined[t] == s.defined[t])
            && s'.defined[name] != [] && s'.defined[name][|s'.defined[name]| - 1] == f
            && |s'.defined[name]| == 1 + (if name in s.defined then |s.defined[name]| else 0)
            && Effective(s') == Effective(s) + (if f in s.removed then {} else {f})
  {
    var s' := AddFilter(s, name, f);
    forall g ensures g in Effective(s') <==> g in Effective(s) || (g == f && f !in s.removed) {
      InEffective(s, g);
      InEffective(s', g);
      if t :| t in s.active && g in s.active[t] {
        assert t in s'.active && g in s'.active[t];
      }
      assert name in s'.active && f in s'.active[name];
    }
  }

  /** A deleted type is unknown and inactive, and the others are as they were. */
  lemma DeletedIsUnknown(s: Settings, name: Name)
    ensures var s' := Delete(s, name);
            && name !in s'.defined && name !in s'.active
            && Select(s', name) == s' && Deselect(s', name) == s'
            && (forall t :: t != name ==> (t in s'.defined <==> t in s.defined) && (t in s'.active <==> t in s.active))
            && (forall t :: t in s'.defined ==> s'.defined[t] == s.defined[t])
            && (forall t :: t in s'.active ==> s'.active[t] == s.active[t])
            && s'.removed == s.removed && s'.excludes == s.excludes && s'.rules == s.rules && s'.seen == s.seen
  {
  }

  // ---------------------------------------------------------------- which names are admitted

  const DOT: int := '.' as int

  /** The filter is ".ext", and the name is something before it and the filter. */
  predicate Extends(f: Filter, base: Name, ext: Name, name: Name) {
    base != [] && DOT !in ext && f == [DOT] + ext && name == base + f
  }

  /** The filter lists the name: as its extension, with something before it, or as the whole name. */
  ghost predicate Lists(f: Filter, name: Name) {
    || (exists base: Name, ext: Name :: Extends(f, base, ext, name))
    || (f == name && (f == [] || (f[0] != DOT && f[0] != '/' as int && f[0] != '?' as int)))
  }

  /** Some active type has a filter for the name that has not been removed. */
  ghost predicate Listed(s: Settings, name: Name) {
    exists t, f :: t in s.active && f in s.active[t] && f !in s.removed && Lists(f, name)
  }

  /** An extension begins at the last period of the name. */
  lemma ExtensionIsBehindLastPeriod(f: Filter, base: Name, ext: Name, name: Name)
    requires Extends(f, base, ext, name)
    ensures LastPeriod(name) == Some(|base|) && |base| > 0 && name[|base|..] == f
  {
    assert name[|base|] == f[0] == DOT;
    forall i | |base| < i < |name| ensures name[i] != DOT {
      assert name[i] == f[i - |base|] == ext[i - |base| - 1] && ext[i - |base| - 1] in ext;
    }
  }

  lemma LastPeriodBeginsExtension(name: Name, k: nat)
    requires LastPeriod(name) == Some(k) && k > 0
    ensures k < |name| && Extends(name[k..], name[..k], name[k + 1..], name)
  {
    hide LastPeriod;
    SplitAround(name, k);
    var ext := name[k + 1..];
    forall i | 0 <= i < |ext| ensures ext[i] != DOT {
      assert ext[i] == name[k + 1 + i];
    }
  }

  lemma SplitAround(name: Name, k: nat)
    requires k < |name|
    ensures name[k..] == [name[k]] + name[k + 1..] && name == name[..k] + name[k..]
  {
  }

  lemma ListsIff(f: Filter, name: Name)
    ensures Lists(f, name) <==>
            || (LastPeriod(name).Some? && LastPeriod(name).value > 0 && f == name[LastPeriod(name).value..])
            || (f == name && KindOf(name) == Literal)
  {
    hide Extends, LastPeriod;
    if base: Name, ext: Name :| Extends(f, base, ext, name) {
      ExtensionIsBehindLastPeriod(f, base, ext, name);
    }
    if LastPeriod(name).Some? && LastPeriod(name).value > 0 {
      LastPeriodBeginsExtension(name, LastPeriod(name).value);
    }
  }

  lemma ListedIff(s: Settings, name: Name)
    ensures Listed(s, name) <==> ListedByExtension(s, name) || ListedByName(s, name)
  {
    hide Lists, Effective, KindOf, LastPeriod;
    if Listed(s, name) {
      var t, f :| t in s.active && f in s.active[t] && f !in s.removed && Lists(f, name);
      InEffective(s, f);
      ListsIff(f, name);
    }
    if ListedByName(s, name) {
      InEffective(s, name);
      ListsIff(name, name);
    }
    if ListedByExtension(s, name) {
      InEffective(s, name[LastPeriod(name).value..]);
      ListsIff(name[LastPeriod(name).value..], name);
    }
  }

  /** A listed name is admitted unless an exclude glob matches; any other if the last rule that matches includes it. */
  lemma AdmitsIff(fnmatch: (Name, Name) -> bool, s: Settings, name: Name)
    ensures Admits(fnmatch, s, name) <==>
            if Listed(s, name) then forall i :: 0 <= i < |s.excludes| ==> !fnmatch(s.excludes[i], name)
            else exists i :: 0 <= i < |s.rules| && s.rules[i].included && fnmatch(s.rules[i].glob, name)
                             && forall k :: i < k < |s.rules| ==> !fnmatch(s.rules[k].glob, name)
  {
    ListedIff(s, name);
    LastRuleMeaning(fnmatch, s.rules, name);
  }

  /** An exclude glob takes exactly the names it matches. */
  lemma ExcludeTakesItsMatches(fnmatch: (Name, Name) -> bool, s: Settings, glob: Name, name: Name)
    ensures fnmatch(glob, name) ==> !Admits(fnmatch, AddExclude(s, glob), name)
    ensures !fnmatch(glob, name) ==> (Admits(fnmatch, AddExclude(s, glob), name) <==> Admits(fnmatch, s, name))
  {
    var s' := AddExclude(s, glob);
    assert Effective(s') == Effective(s);
    assert s'.excludes[|s.excludes|] == glob;
    assert s'.rules[..|s.rules|] == s.rules;
    assert forall i :: 0 <= i < |s.excludes| ==> s'.excludes[i] == s.excludes[i];
  }

  /** An include glob lets in every name it matches that no exclude glob does. */
  lemma IncludeLetsIn(fnmatch: (Name, Name) -> bool, s: Settings, t: Name, glob: Name, name: Name)
    requires fnmatch(glob, name) && forall i :: 0 <= i < |s.excludes| ==> !fnmatch(s.excludes[i], name)
    ensures Admits(fnmatch, AddInclude(s, t, glob), name)
  {
    var s' := AddInclude(s, t, glob);
    assert s'.rules[|s'.rules| - 1] == Rule(glob, true) && s'.excludes == s.excludes;
  }

  /** After --type-add with an extension, names that end in it are admitted unless an exclude glob matches. */
  lemma AddedExtensionIsAdmitted(fnmatch: (Name, Name) -> bool, s: Settings, t: Name, base: Name, ext: Name)
    requires base != [] && DOT !in ext && [DOT] + ext !in s.removed
    ensures Admits(fnmatch, Apply(s, AddExt(t, ext)), base + [DOT] + ext) <==>
            forall i :: 0 <= i < |s.excludes| ==> !fnmatch(s.excludes[i], base + [DOT] + ext)
  {
    var s', name := Apply(s, AddExt(t, ext)), base + [DOT] + ext;
    assert name == base + ([DOT] + ext);
    assert t in s'.active && [DOT] + ext in s'.active[t] && Extends([DOT] + ext, base, ext, name);
    assert Lists([DOT] + ext, name);
    AdmitsIff(fnmatch, s', name);
  }

  /**
    * A file name added to a type is admitted unless an exclude glob matches, if it does not begin like another
    * kind of filter and has not been removed.
    */
  lemma AddedNameIsAdmitted(fnmatch: (Name, Name) -> bool, s: Settings, t: Name, file: Name)
    requires file !in s.removed
    requires file == [] || (file[0] != DOT && file[0] != '/' as int && file[0] != '?' as int)
    ensures Admits(fnmatch, Apply(s, AddIs(t, file)), file) <==>
            forall i :: 0 <= i < |s.excludes| ==> !fnmatch(s.excludes[i], file)
  {
    var s' := Apply(s, AddIs(t, file));
    assert t in s'.active && file in s'.active[t] && Lists(file, file);
    AdmitsIff(fnmatch, s', file);
  }

  /** A file name added to a type is looked up as a name exactly if it does not look like another kind of filter. */
  lemma AddIsHonoured(s: Settings, name: Name, file: Name)
    ensures ListedByName(AddFilter(s, name, file), file) <==>
            file !in s.removed && (file == [] || (file[0] != DOT && file[0] != '/' as int && file[0] != '?' as int))
  {
    var s' := AddFilter(s, name, file);
    assert name in s'.active && file in s'.active[name];
  }

  /** So a name whose only period comes first is listed by no type, whatever the options: only globs admit it. */
  lemma HiddenFilesAreNotListed(fnmatch: (Name, Name) -> bool, s: Settings, name: Name)
    requires name != [] && name[0] == DOT && DOT !in name[1..]
    ensures !Listed(s, name)
    ensures Admits(fnmatch, s, name) <==> LastRule(fnmatch, s.rules, name)
  {
    forall i | 0 < i < |name| ensures name[i] != DOT {
      assert name[i] == name[1..][i - 1];
    }
    assert LastPeriod(name) == Some(0);
    ListedIff(s, name);
  }

  // ---------------------------------------------------------------- globs

  /** The rule that decides is the last one that matches. */
  lemma {:induction false} LastRuleMeaning(fnmatch: (Name, Name) -> bool, rules: seq<Rule>, name: Name)
    ensures LastRule(fnmatch, rules, name) <==>
            exists i :: 0 <= i < |rules| && rules[i].included && fnmatch(rules[i].glob, name)
                        && forall k :: i < k < |rules| ==> !fnmatch(rules[k].glob, name)
  {
    if rules == [] {
    } else {
      var n := |rules| - 1;
      LastRuleMeaning(fnmatch, rules[..n], name);
      if !fnmatch(rules[n].glob, name) && LastRule(fnmatch, rules, name) {
        var i :| 0 <= i < n && rules[..n][i].included && fnmatch(rules[..n][i].glob, name)
                 && forall k :: i < k < n ==> !fnmatch(rules[..n][k].glob, name);
        assert forall k :: i < k < |rules| ==> k == n || rules[k] == rules[..n][k];
      } else if !fnmatch(rules[n].glob, name) {
        forall i | 0 <= i < |rules| && rules[i].included && fnmatch(rules[i].glob, name)
          ensures exists k :: i < k < |rules| && fnmatch(rules[k].glob, name)
        {
          assert rules[..n][i] == rules[i];
          var k :| i < k < n && fnmatch(rules[..n][k].glob, name);
          assert rules[k] == rules[..n][k];
        }
      }
    }
  }

  function AddRules(s: Settings, name: Name, rules: seq<Rule>): Settings
    decreases |rules|
  {
    if rules == [] then s
    else
      var next := if rules[0].included then AddInclude(s, name, rules[0].glob) else AddExclude(s, rules[0].glob);
      AddRules(next, name, rules[1..])
  }

  ghost predicate OnlyGlobs(s: Settings, name: Name) {
    && s.seen
    && (forall f :: name in s.defined && f in s.defined[name] ==> KindOf(f) == Glob)
    && (forall t, f :: t in s.active && f in s.active[t] ==> KindOf(f) == Glob)
  }

  lemma AddIncludeOnlyGlobs(s: Settings, name: Name, glob: Name)
    requires forall f :: name in s.defined && f in s.defined[name] ==> KindOf(f) == Glob
    requires s.seen ==> OnlyGlobs(s, name)
    ensures OnlyGlobs(AddInclude(s, name, glob), name)
    ensures AddInclude(s, name, glob).rules == s.rules + [Rule(glob, true)]
  {
  }

  lemma AddExcludeOnlyGlobs(s: Settings, name: Name, glob: Name)
    ensures var s' := AddExclude(s, glob);
            && s'.rules == s.rules + [Rule(glob, false)] && s'.seen == s.seen && s'.defined == s.defined
            && (OnlyGlobs(s, name) ==> OnlyGlobs(s', name))
  {
  }

  lemma {:induction false} AddRulesOnlyGlobs(s: Settings, name: Name, rules: seq<Rule>)
    requires forall f :: name in s.defined && f in s.defined[name] ==> KindOf(f) == Glob
    requires s.seen ==> OnlyGlobs(s, name)
    ensures AddRules(s, name, rules).rules == s.rules + rules
    ensures (s.seen || exists i :: 0 <= i < |rules| && rules[i].included) ==> OnlyGlobs(AddRules(s, name, rules), name)
    decreases |rules|
  {
    hide AddInclude, AddExclude, KindOf;
    if rules == [] {
    } else {
      var first, s' := rules[0], if rules[0].included then AddInclude(s, name, rules[0].glob)
                                 else AddExclude(s, rules[0].glob);
      if first.included {
        AddIncludeOnlyGlobs(s, name, first.glob);
      } else {
        AddExcludeOnlyGlobs(s, name, first.glob);
      }
      assert s'.rules == s.rules + [first];
      AddRulesOnlyGlobs(s', name, rules[1..]);
      assert rules == [first] + rules[1..];
    }
  }

  /**
    * From a fresh manager, include and exclude globs alone, one include among them, decide by
    * themselves: the last one that matches a name admits it or not, and no built-in type counts.
    */
  lemma GlobsAloneDecide(fnmatch: (Name, Name) -> bool, builtin: map<Name, seq<Filter>>, typeName: Name,
                         rules: seq<Rule>, name: Name)
    requires typeName !in builtin && exists i :: 0 <= i < |rules| && rules[i].included
    ensures Admits(fnmatch, AddRules(Fresh(builtin), typeName, rules), name) <==> LastRule(fnmatch, rules, name)
  {
    AddRulesOnlyGlobs(Fresh(builtin), typeName, rules);
    assert Fresh(builtin).rules + rules == rules;
    if LastPeriod(name).Some? {
      assert KindOf(name[LastPeriod(name).value..]) == Extension;
    }
  }
}
