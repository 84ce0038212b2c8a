/** What the path of a file says: the names on the way down to it, with slashes between them. */
module FilePaths {
  import opened Bytes
  import opened FileIdentity
  import opened IdentityResults

  const SEPARATOR: int := '/' as int
  const HERE: Text := ['.' as int]

  /** The parts of a text between its slashes. */
  function Split(text: Text): (r: seq<Text>)
    ensures r != []
  {
    if text == [] then [[]]
    else
      var rest := Split(text[1..]);
      if text[0] == SEPARATOR then [[]] + rest else [[text[0]] + rest[0]] + rest[1..]
  }

  /** The nearest path given at construction: the file's own, or that of an ancestor. */
  ghost function Given(c: seq<Origin>, f: nat): Text
    requires WellFormed(c) && f < |c|
  {
    if c[f].given != [] || c[f].parent.None? then c[f].given else Given(c, c[f].parent.value)
  }

  /** The names from there down to the file. */
  ghost function Names(c: seq<Origin>, f: nat): seq<Text>
    requires WellFormed(c) && f < |c|
  {
    if c[f].given != [] || c[f].parent.None? then [] else Names(c, c[f].parent.value) + [c[f].basename]
  }

  /** A name that a directory entry can have, other than ".". */
  predicate PlainName(name: Text) {
    name != [] && SEPARATOR !in name && name != HERE
  }

  ghost predicate PlainNames(c: seq<Origin>, f: nat)
    requires WellFormed(c) && f < |c|
  {
    forall i :: 0 <= i < |Names(c, f)| ==> PlainName(Names(c, f)[i])
  }

  lemma {:induction false} SplitPlain(name: Text)
    requires SEPARATOR !in name
    ensures Split(name) == [name]
    decreases |name|
  {
    if name != [] {
      assert name[0] in name && name == [name[0]] + name[1..];
      SplitPlain(name[1..]);
    }
  }

  lemma SplitHead(text: Text)
    ensures Split(text) == [[]] <==> text == []
    ensures text != [] ==> (Split(text)[0] == [] <==> text[0] == SEPARATOR)
  {
    assert Split(text) == [[]] ==> |Split(text)| == 1 && Split(text)[0] == [];
  }

  lemma {:induction false} SplitIsInjective(a: Text, b: Text)
    requires Split(a) == Split(b)
    ensures a == b
    decreases |a|
  {
    SplitHead(a);
    SplitHead(b);
    if a != [] {
      var r, q := Split(a[1..]), Split(b[1..]);
      assert a[0] == SEPARATOR <==> b[0] == SEPARATOR;
      assert Split(a)[1..] == if a[0] == SEPARATOR then r else r[1..];
      assert Split(b)[1..] == if b[0] == SEPARATOR then q else q[1..];
      if a[0] != SEPARATOR {
        assert [a[0]] + r[0] == [b[0]] + q[0];
        assert r[0] == ([a[0]] + r[0])[1..] && q[0] == ([b[0]] + q[0])[1..];
      }
      assert r == q;
      SplitIsInjective(a[1..], b[1..]);
      assert a == [a[0]] + a[1..] && b == [b[0]] + b[1..];
    }
  }

  lemma {:induction false} SplitJoined(a: Text, b: Text)
    ensures Split(a + [SEPARATOR] + b) == Split(a) + Split(b)
    decreases |a|
  {
    var text := a + [SEPARATOR] + b;
    if a == [] {
      assert text[1..] == b;
    } else {
      assert text[1..] == a[1..] + [SEPARATOR] + b;
      SplitJoined(a[1..], b);
    }
  }

  /** What stands before the names: nothing for the current directory. */
  function Front(given: Text): seq<Text> {
    if given == HERE then [] else Split(given)
  }

  lemma JoinGiven(given: Text, name: Text)
    requires SEPARATOR !in name
    ensures Split(Join(given, name)) == Front(given) + [name]
  {
    SplitPlain(name);
    SplitJoined(given, name);
    assert [] + [name] == [name];
  }

  lemma JoinNames(at: Text, front: seq<Text>, names: seq<Text>, name: Text)
    requires Split(at) == front + names && names != [] && names[|names| - 1] != HERE && SEPARATOR !in name
    ensures Split(Join(at, name)) == front + (names + [name])
  {
    hide Split;
    SplitPlain(name);
    SplitPlain(HERE);
    SplitJoined(at, name);
    assert names[|names| - 1] == Split(at)[|Split(at)| - 1];
    assert front + (names + [name]) == Split(at) + [name];
  }

  lemma NamesOfChild(c: seq<Origin>, f: nat)
    requires WellFormed(c) && f < |c| && c[f].given == [] && c[f].parent.Some? && PlainNames(c, f)
    ensures var p := c[f].parent.value;
            && p < f && Given(c, f) == Given(c, p) && Names(c, f) == Names(c, p) + [c[f].basename]
            && PlainNames(c, p) && PlainName(c[f].basename)
            && FullPath(c, f) == Join(FullPath(c, p), c[f].basename)
  {
    var names := Names(c, c[f].parent.value);
    assert Names(c, f)[|names|] == c[f].basename;
    forall i | 0 <= i < |names| ensures PlainName(names[i]) {
      assert names[i] == Names(c, f)[i];
    }
  }

  /** The path given, unless it is the current directory's, and the names behind it: split at the slashes. */
  lemma {:induction false} PathIsItsNames(c: seq<Origin>, f: nat)
    requires WellFormed(c) && f < |c| && PlainNames(c, f)
    ensures Names(c, f) == [] ==> FullPath(c, f) == Given(c, f)
    ensures Names(c, f) != [] ==>
              Split(FullPath(c, f)) == (if Given(c, f) == HERE then [] else Split(Given(c, f))) + Names(c, f)
    decreases f
  {
    hide Join, Split;
    if c[f].given == [] && c[f].parent.Some? {
      NamesOfChild(c, f);
      var p, name := c[f].parent.value, c[f].basename;
      PathIsItsNames(c, p);
      if Names(c, p) == [] {
        JoinGiven(Given(c, p), name);
        assert [] + [name] == [name];
      } else {
        assert PlainName(Names(c, p)[|Names(c, p)| - 1]);
        JoinNames(FullPath(c, p), Front(Given(c, p)), Names(c, p), name);
      }
    }
  }

  /** Below the current directory a path is the names on the way down and nothing else. */
  lemma PathBelowHere(c: seq<Origin>, f: nat)
    requires WellFormed(c) && f < |c| && PlainNames(c, f) && Given(c, f) == HERE && Names(c, f) != []
    ensures Split(FullPath(c, f)) == Names(c, f)
  {
    PathIsItsNames(c, f);
  }

  /** Files below one given path have the same path if and only if the names on the way down to them are the same. */
  lemma SamePathIffSameNames(c: seq<Origin>, f: nat, g: nat)
    requires WellFormed(c) && f < |c| && g < |c| && PlainNames(c, f) && PlainNames(c, g)
    requires Given(c, f) == Given(c, g)
    ensures FullPath(c, f) == FullPath(c, g) <==> Names(c, f) == Names(c, g)
  {
    PathIsItsNames(c, f);
    PathIsItsNames(c, g);
    SplitPlain(HERE);
    var front := if Given(c, f) == HERE then [] else Split(Given(c, f));
    assert (front + Names(c, f))[|front|..] == Names(c, f);
    assert (front + Names(c, g))[|front|..] == Names(c, g);
    if Names(c, f) == Names(c, g) != [] {
      SplitIsInjective(FullPath(c, f), FullPath(c, g));
    }
    assert Names(c, f) != [] ==> PlainName(Names(c, f)[0]);
    assert Names(c, g) != [] ==> PlainName(Names(c, g)[0]);
  }

  /** So in every interleaving GetPath() spells the way down to the file. */
  lemma GetPathSpellsNames(c: seq<Origin>, states: seq<State>, turns: seq<Turn>, k: nat, t: nat)
    requires IsRun(c, states, turns) && k < |states| && t < |states[k].threads| && states[k].threads[t] != []
    requires Top(states[k].threads[t]).bit == Path && Top(states[k].threads[t]).stage.Returning?
    ensures var f := Top(states[k].threads[t]).file;
            f < |c| == |states[k].files| && (PlainNames(c, f) && Names(c, f) != [] ==>
              Split(states[k].files[f].path) == (if Given(c, f) == HERE then [] else Split(Given(c, f))) + Names(c, f))
  {
    hide PlainNames, Names, Given, FullPath;
    GetPathIsPure(c, states, turns, k, t);
    var f := Top(states[k].threads[t]).file;
    if PlainNames(c, f) {
      PathIsItsNames(c, f);
    }
  }
}
