/** Abbreviated type names: the scan of the sorted names that option parsing uses. */
module TypeNames {
  import opened Bytes
  import opened Microstring

  /** The names are a std::map's keys: distinct and in order. */
  ghost predicate InOrder(keys: seq<Name>) {
    forall i, k :: 0 <= i < k < |keys| ==> Before(keys[i], keys[k])
  }

  predicate Contains(name: Name, part: Name) {
    exists i: nat :: i <= |name| && OccursAt(name, part, i)
  }

  /** Something may stand before the part in the name, and something behind it. */
  predicate Encloses(name: Name, pre: Name, part: Name, post: Name) {
    name == pre + part + post
  }

  lemma ContainsIff(name: Name, part: Name)
    ensures Contains(name, part) <==> exists pre: Name, post: Name :: Encloses(name, pre, part, post)
  {
    if Contains(name, part) {
      var i: nat :| i <= |name| && OccursAt(name, part, i);
      assert Encloses(name, name[..i], part, name[i + |part|..]);
    }
    if pre: Name, post: Name :| Encloses(name, pre, part, post) {
      assert OccursAt(name, part, |pre|);
    }
  }

  /** The first difference, if neither string is a prefix of the other. */
  lemma {:induction false} FirstDifference(a: Name, b: Name) returns (k: nat)
    ensures k <= |a| && k <= |b| && a[..k] == b[..k]
    ensures k == |a| || k == |b| || a[k] != b[k]
  {
    k := 0;
    while k < |a| && k < |b| && a[k] == b[k]
      invariant k <= |a| && k <= |b| && a[..k] == b[..k]
    {
      assert a[..k + 1] == a[..k] + [a[k]] && b[..k + 1] == b[..k] + [b[k]];
      k := k + 1;
    }
  }

  /** A name with the prefix does not come before the prefix. */
  lemma PrefixNotBefore(a: Name, p: Name)
    requires p <= a
    ensures !Before(a, p)
  {
    forall k | 0 <= k < |a| && k < |p| ensures a[k] == p[k] {
      assert a[..|p|][k] == p[k];
    }
  }

  /** Between the prefix and a name that has it there are only names that have it. */
  lemma PrefixesAreTogether(a: Name, b: Name, p: Name)
    requires !Before(a, p) && Before(a, b) && p <= b
    ensures p <= a
  {
    var k := FirstDifference(a, p);
    if k < |p| {
      assert k < |a| && a[k] > p[k];
      assert b[..k] == p[..k] && b[k] == p[k];
      assert a[..k] == b[..k];
      LaterIsNotBefore(a, b, k);
    } else {
      assert a[..k] == p;
    }
  }

  lemma LaterIsNotBefore(a: Name, b: Name, k: nat)
    requires k < |a| && k < |b| && a[..k] == b[..k] && a[k] > b[k]
    ensures !Before(a, b)
  {
    forall i | 0 <= i < |a| && i < |b| && a[i] < b[i] ensures a[..i] != b[..i] {
      assert i > k ==> a[..i][k] == a[k] && b[..i][k] == b[k];
    }
    assert |a| < |b| ==> b[..|a|][k] == b[k];
  }

  /** The first key at or after start that is not before p: std::map::lower_bound. */
  function LowerBound(keys: seq<Name>, p: Name, start: nat): (r: nat)
    requires start <= |keys|
    ensures start <= r <= |keys|
    ensures forall i :: start <= i < r ==> Before(keys[i], p)
    ensures r < |keys| ==> !Before(keys[r], p)
    decreases |keys| - start
  {
    if start == |keys| || !Before(keys[start], p) then start else LowerBound(keys, p, start + 1)
  }

  /** Where the names from start on first fail to contain p anywhere. */
  function ContainingUntil(keys: seq<Name>, p: Name, start: nat): (r: nat)
    requires start <= |keys|
    ensures start <= r <= |keys|
    ensures forall i :: start <= i < r ==> Contains(keys[i], p)
    ensures r < |keys| ==> !Contains(keys[r], p)
    decreases |keys| - start
  {
    if start == |keys| || !Contains(keys[start], p) then start else ContainingUntil(keys, p, start + 1)
  }

  /** Where the names from start on first fail to begin with p. */
  function PrefixedUntil(keys: seq<Name>, p: Name, start: nat): (r: nat)
    requires start <= |keys|
    ensures start <= r <= |keys|
    ensures forall i :: start <= i < r ==> p <= keys[i]
    ensures r < |keys| ==> !(p <= keys[r])
    decreases |keys| - start
  {
    if start == |keys| || !(p <= keys[start]) then start else PrefixedUntil(keys, p, start + 1)
  }

  method GetMatchingTypenameList(keys: seq<Name>, p: Name) returns (r: seq<Name>)
    ensures r == keys[LowerBound(keys, p, 0)..ContainingUntil(keys, p, LowerBound(keys, p, 0))]
  {
    r := [];
    ghost var first := LowerBound(keys, p, 0);
    var it := LowerBound(keys, p, 0);
    while it < |keys|
      invariant first <= it <= |keys| && r == keys[first..it]
      invariant ContainingUntil(keys, p, it) == ContainingUntil(keys, p, first)
    {
      if !Contains(keys[it], p) {
        break;
      }
      r := r + [keys[it]];
      it := it + 1;
    }
  }

  lemma PrefixIsContained(a: Name, p: Name)
    requires p <= a
    ensures Contains(a, p)
  {
    assert OccursAt(a, p, 0);
  }

  /** The names that begin with p are exactly those from the lower bound to the end of the prefixed run. */
  lemma PrefixedRun(keys: seq<Name>, p: Name, i: nat)
    requires InOrder(keys) && i < |keys|
    ensures var first := LowerBound(keys, p, 0);
            p <= keys[i] <==> first <= i < PrefixedUntil(keys, p, first)
  {
    var first := LowerBound(keys, p, 0);
    var end := PrefixedUntil(keys, p, first);
    if p <= keys[i] {
      PrefixNotBefore(keys[i], p);
      if end < i {
        PrefixesAreTogetherInOrder(keys, p, end, i);
      }
    }
  }

  lemma PrefixesAreTogetherInOrder(keys: seq<Name>, p: Name, k: nat, i: nat)
    requires InOrder(keys) && k < i < |keys| && !Before(keys[k], p) && p <= keys[i]
    ensures p <= keys[k]
  {
    PrefixesAreTogether(keys[k], keys[i], p);
  }

  /**
    * What the list is for: it holds every name that begins with p, and it holds no other exactly if
    * the name after those does not happen to contain p.
    */
  lemma MatchingNames(keys: seq<Name>, p: Name)
    requires InOrder(keys)
    ensures var first := LowerBound(keys, p, 0);
            var last, end := ContainingUntil(keys, p, first), PrefixedUntil(keys, p, first);
            end <= last && (last == end <==> end == |keys| ||
                                             !exists pre: Name, post: Name :: Encloses(keys[end], pre, p, post))
  {
    var first := LowerBound(keys, p, 0);
    var last, end := ContainingUntil(keys, p, first), PrefixedUntil(keys, p, first);
    forall i | first <= i < end ensures Contains(keys[i], p) {
      PrefixIsContained(keys[i], p);
    }
    if end < |keys| {
      ContainsIff(keys[end], p);
    }
  }
}
