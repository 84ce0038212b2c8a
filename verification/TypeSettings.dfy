/** Which files the type options admit: the options as operations on settings, and what settings mean. */
module TypeSettings {
  import opened Bytes
  import opened Microstring

  /** A filter of a file type: ".ext", a literal file name, "/regex/" for the first line, or "?glob". */
  type Filter = Name

  const PERIOD: Byte := 46
  const SLASH: Byte := 47
  const QUERY: Byte := 63

  datatype Kind = Extension | FirstLine | Glob | Literal

  function KindOf(f: Filter): Kind {
    if f == [] then Literal
    else if f[0] == PERIOD then Extension
    else if f[0] == SLASH then FirstLine
    else if f[0] == QUERY then Glob
    else Literal
  }

  datatype Rule = Rule(glob: Name, included: bool)

  datatype Settings = Settings(
    seen: bool,                          // type() has been called for a known type
    defined: map<Name, seq<Filter>>,
    active: map<Name, seq<Filter>>,
    removed: set<Filter>,
    excludes: seq<Name>,
    rules: seq<Rule>)

  // ---------------------------------------------------------------- the options

  function Fresh(builtin: map<Name, seq<Filter>>): Settings {
    Settings(false, builtin, builtin, {}, [], [])
  }

  function ElementsOf(fs: seq<Filter>): set<Filter> {
    set f | f in fs
  }

  /** --type=name */
  function Select(s: Settings, name: Name): Settings {
    if name !in s.defined then s
    else
      var active := if s.seen then s.active else map[];
      s.(seen := true,
         removed := s.removed - ElementsOf(s.defined[name]),
         active := if name in active then active else active[name := s.defined[name]])
  }

  /** --notype=name */
  function Deselect(s: Settings, name: Name): Settings {
    if name !in s.defined then s
    else s.(removed := s.removed + ElementsOf(s.defined[name]), active := s.active - {name})
  }

  function AppendTo(m: map<Name, seq<Filter>>, name: Name, f: Filter): map<Name, seq<Filter>> {
    m[name := (if name in m then m[name] else []) + [f]]
  }

  function AddFilter(s: Settings, name: Name, f: Filter): Settings {
    s.(defined := AppendTo(s.defined, name, f), active := AppendTo(s.active, name, f))
  }

  function AddExclude(s: Settings, glob: Name): Settings {
    s.(excludes := s.excludes + [glob], rules := s.rules + [Rule(glob, false)])
  }

  function AddInclude(s: Settings, name: Name, glob: Name): Settings {
    Select(AddFilter(s, name, [QUERY] + glob).(rules := s.rules + [Rule(glob, true)]), name)
  }

  function Delete(s: Settings, name: Name): Settings {
    s.(defined := s.defined - {name}, active := s.active - {name})
  }

  datatype Op =
    | Type(name: Name)
    | NoType(name: Name)
    | AddIs(name: Name, file: Name)
    | AddExt(name: Name, ext: Name)
    | GlobExclude(glob: Name)
    | GlobInclude(name: Name, glob: Name)
    | TypeDel(name: Name)

  function Apply(s: Settings, op: Op): Settings {
    match op
    case Type(name) => Select(s, name)
    case NoType(name) => Deselect(s, name)
    case AddIs(name, file) => AddFilter(s, name, file)
    case AddExt(name, ext) => AddFilter(s, name, [PERIOD] + ext)
    case GlobExclude(glob) => AddExclude(s, glob)
    case GlobInclude(name, glob) => AddInclude(s, name, glob)
    case TypeDel(name) => Delete(s, name)
  }

  function Run(s: Settings, ops: seq<Op>): Settings
    decreases |ops|
  {
    if ops == [] then s else Run(Apply(s, ops[0]), ops[1..])
  }

  // ---------------------------------------------------------------- what settings mean

  /** The filters of active types that no --notype has removed. */
  function Effective(s: Settings): set<Filter> {
    set t, f | t in s.active && f in s.active[t] && f !in s.removed :: f
  }

  lemma InEffective(s: Settings, f: Filter)
    ensures f in Effective(s) <==> f !in s.removed && exists t :: t in s.active && f in s.active[t]
  {
    if t :| t in s.active && f in s.active[t] && f !in s.removed {
      assert f in Effective(s);
    }
  }

  /** Where the last period of a name is. */
  function LastPeriod(name: Name): (r: Option<nat>)
    ensures r.Some? ==> r.value < |name| && name[r.value] == PERIOD && forall i :: r.value < i < |name| ==>
              name[i] != PERIOD
    ensures r.None? ==> forall i :: 0 <= i < |name| ==> name[i] != PERIOD
  {
    if name == [] then None
    else if name[|name| - 1] == PERIOD then Some(|name| - 1)
    else LastPeriod(name[..|name| - 1])
  }

  /** The name ends in an effective ".ext"; a name's leading period starts no extension. */
  predicate ListedByExtension(s: Settings, name: Name) {
    LastPeriod(name).Some? && LastPeriod(name).value > 0 && name[LastPeriod(name).value..] in Effective(s)
  }

  predicate ListedByName(s: Settings, name: Name) {
    KindOf(name) == Literal && name in Effective(s)
  }

  predicate Excluded(fnmatch: (Name, Name) -> bool, excludes: seq<Name>, name: Name) {
    exists i :: 0 <= i < |excludes| && fnmatch(excludes[i], name)
  }

  /** The last rule that matches decides, and a name no rule matches is not included. */
  function LastRule(fnmatch: (Name, Name) -> bool, rules: seq<Rule>, name: Name): bool {
    if rules == [] then false
    else
      var last := rules[|rules| - 1];
      if fnmatch(last.glob, name) then last.included else LastRule(fnmatch, rules[..|rules| - 1], name)
  }

  /** The plain rule for admitting a file. */
  predicate Admits(fnmatch: (Name, Name) -> bool, s: Settings, name: Name) {
    if ListedByExtension(s, name) || ListedByName(s, name) then !Excluded(fnmatch, s.excludes, name)
    else LastRule(fnmatch, s.rules, name)
  }
}
