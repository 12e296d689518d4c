/**
  A JavaScript `Set` as the two registries use it: no element twice, and
  iteration in insertion order. It is kept as a sequence without duplicates,
  so that the order `getStats` reports and `forEach` visits is part of the model.
  Membership is stated through `Elements`, the set a sequence lists.
*/
module InsertionOrderedSet {

  /** The elements a sequence lists. */
  function Elements<T>(s: seq<T>): set<T>
  {
    set x | x in s
  }

  /** No element occurs twice. */
  predicate Distinct<T(==)>(s: seq<T>)
  {
    s == [] || (s[0] !in Elements(s[1..]) && Distinct(s[1..]))
  }

  /** `Set.prototype.add`: a new element goes last, a present one stays where it is. */
  function Add<T(==)>(s: seq<T>, x: T): (r: seq<T>)
    ensures Elements(r) == Elements(s) + {x}
    ensures s <= r
  {
    if x in Elements(s) then s
    else
      ElementsSnoc(s, x);
      s + [x]
  }

  /** `Set.prototype.delete`: drop `x`, keep the rest in order. */
  function Delete<T(==)>(s: seq<T>, x: T): (r: seq<T>)
    ensures Elements(r) == Elements(s) - {x}
    ensures x !in Elements(s) ==> r == s
    ensures |r| <= |s|
  {
    if s == [] then []
    else
      ElementsCons(s);
      var rest := Delete(s[1..], x);
      if s[0] == x then rest
      else
        ElementsConcat([s[0]], rest);
        [s[0]] + rest
  }

  /** The elements of `s` that belong to `keep`, in their original order. */
  function Keep<T(==)>(s: seq<T>, keep: set<T>): (r: seq<T>)
    ensures Elements(r) == Elements(s) * keep
    ensures |r| <= |s|
  {
    if s == [] then []
    else
      ElementsCons(s);
      var rest := Keep(s[1..], keep);
      if s[0] in keep then
        ElementsConcat([s[0]], rest);
        [s[0]] + rest
      else rest
  }

  lemma ElementsConcat<T>(a: seq<T>, b: seq<T>)
    ensures Elements(a + b) == Elements(a) + Elements(b)
  {
  }

  /** A non-empty sequence lists its head and the elements of its tail. */
  lemma ElementsCons<T>(s: seq<T>)
    requires s != []
    ensures Elements(s) == {s[0]} + Elements(s[1..])
  {
    assert s == [s[0]] + s[1..];
  }

  lemma ElementsSnoc<T>(s: seq<T>, x: T)
    ensures Elements(s + [x]) == Elements(s) + {x}
  {

  }

  /** Two runs join without duplicates exactly when each has none and they share nothing. */
  lemma {:induction false} DistinctConcat<T>(a: seq<T>, b: seq<T>)
    ensures Distinct(a + b) <==> Distinct(a) && Distinct(b) && Elements(a) !! Elements(b)
  {
    if a == [] {
      assert a + b == b;
    } else {
      assert (a + b)[0] == a[0] && (a + b)[1..] == a[1..] + b;
      DistinctConcat(a[1..], b);
      ElementsConcat(a[1..], b);
    }
  }

  /** Position `i` of `s` cut out: the run before it, the element, the run after it. */
  lemma SplitAt<T>(s: seq<T>, i: nat)
    requires i < |s|
    ensures s == s[..i] + ([s[i]] + s[i + 1..])
    ensures s[..i + 1] == s[..i] + [s[i]] && s[i..] == [s[i]] + s[i + 1..]
    ensures Elements(s[..i + 1]) == Elements(s[..i]) + {s[i]}
  {
    ElementsSnoc(s[..i], s[i]);
  }

  /** In a sequence without duplicates, the element at position `i` occurs nowhere else. */
  lemma DistinctSplit<T>(s: seq<T>, i: nat)
    requires Distinct(s) && i < |s|
    ensures s[..i + 1] == s[..i] + [s[i]] && s[i..] == [s[i]] + s[i + 1..]
    ensures Elements(s[..i + 1]) == Elements(s[..i]) + {s[i]}
    ensures s[i] !in Elements(s[..i]) && s[i] !in Elements(s[i + 1..])
  {
    SplitAt(s, i);
    var t := [s[i]] + s[i + 1..];
    DistinctConcat(s[..i], t);
    assert t[0] == s[i] && t[1..] == s[i + 1..];
  }

  /** Growing a prefix of a sequence without duplicates by one position adds a new element. */
  lemma DistinctPrefix<T>(s: seq<T>, i: nat)
    requires Distinct(s) && i < |s|
    ensures Elements(s[..i + 1]) == Elements(s[..i]) + {s[i]}
    ensures s[i] !in Elements(s[..i])
  {
    DistinctSplit(s, i);
  }

  lemma AddKeepsDistinct<T>(s: seq<T>, x: T)
    requires Distinct(s)
    ensures Distinct(Add(s, x))
    ensures |Add(s, x)| == if x in Elements(s) then |s| else |s| + 1
  {
    if x !in Elements(s) {
      DistinctConcat(s, [x]);
      assert Distinct([x]) by {
        assert [x][1..] == [];
      }
    }
  }

  /** Deleting from a sequence without duplicates removes exactly one element if `x` was there. */
  lemma {:induction false} DeleteKeepsDistinct<T>(s: seq<T>, x: T)
    requires Distinct(s)
    ensures Distinct(Delete(s, x))
    ensures |Delete(s, x)| == if x in Elements(s) then |s| - 1 else |s|
  {
    if s != [] {
      DeleteKeepsDistinct(s[1..], x);
    }
  }

  lemma {:induction false} DeleteConcat<T>(a: seq<T>, b: seq<T>, x: T)
    ensures Delete(a + b, x) == Delete(a, x) + Delete(b, x)
  {
    if a == [] {
      assert a + b == b;
    } else {
      var s := a + b;
      assert s[0] == a[0] && s[1..] == a[1..] + b;
      DeleteConcat(a[1..], b, x);
      if a[0] == x {
        assert Delete(s, x) == Delete(a[1..] + b, x);
        assert Delete(a, x) == Delete(a[1..], x);
      } else {
        var d := Delete(a[1..], x);
        assert Delete(s, x) == [a[0]] + (d + Delete(b, x));
        assert Delete(a, x) == [a[0]] + d;
        assert [a[0]] + (d + Delete(b, x)) == ([a[0]] + d) + Delete(b, x);
      }
    }
  }

  /** Deleting an element that sits between two runs without it joins the runs. */
  lemma DeleteBetween<T>(a: seq<T>, x: T, b: seq<T>)
    requires x !in Elements(a) && x !in Elements(b)
    ensures Delete(a + ([x] + b), x) == a + b
  {
    DeleteConcat(a, [x] + b, x);
    DeleteConcat([x], b, x);
  }

  lemma Regroup<T>(a: seq<T>, x: T, b: seq<T>)
    ensures a + ([x] + b) == (a + [x]) + b
  {
  }

  lemma {:induction false} KeepSnoc<T>(s: seq<T>, x: T, keep: set<T>)
    ensures Keep(s + [x], keep) == Keep(s, keep) + (if x in keep then [x] else [])
  {
    if s != [] {
      KeepSnoc(s[1..], x, keep);
      assert (s + [x])[1..] == s[1..] + [x];
    } else {
      assert s + [x] == [x];
    }
  }

  /**
    One step of a filtering pass over `s` that has dealt with the first `i`
    elements: the sequence `Keep(s[..i], keep) + s[i..]` holds `s[i]`, and moving
    past it either leaves the sequence as it is (the element is kept) or deletes
    the element from it.
  */
  lemma KeepAdvance<T>(s: seq<T>, i: nat, keep: set<T>)
    requires Distinct(s) && i < |s|
    ensures s[i] in Elements(Keep(s[..i], keep) + s[i..])
    ensures s[i] in keep ==> Keep(s[..i + 1], keep) + s[i + 1..] == Keep(s[..i], keep) + s[i..]
    ensures s[i] !in keep ==> Keep(s[..i + 1], keep) + s[i + 1..] == Delete(Keep(s[..i], keep) + s[i..], s[i])
  {
    DistinctSplit(s, i);
    var kept, rest := Keep(s[..i], keep), s[i + 1..];
    KeepSnoc(s[..i], s[i], keep);
    Regroup(kept, s[i], rest);
    ElementsConcat(kept, s[i..]);
    if s[i] !in keep {
      DeleteBetween(kept, s[i], rest);
      assert kept + [] == kept;
    }
  }

  /**
    The state of a filtering pass that deletes, one at a time and in order,
    the elements of `s` outside `keep`, after it has looked at the first `i`.
  */
  function Filtering<T>(s: seq<T>, i: nat, keep: set<T>): seq<T>
    requires i <= |s|
  {
    if i == 0 then s
    else if s[i - 1] in keep then Filtering(s, i - 1, keep)
    else Delete(Filtering(s, i - 1, keep), s[i - 1])
  }

  /** Midway, the pass holds the kept part of what it has looked at, then the rest. */
  lemma {:induction false} FilteringMidway<T>(s: seq<T>, i: nat, keep: set<T>)
    requires Distinct(s) && i <= |s|
    ensures Filtering(s, i, keep) == Keep(s[..i], keep) + s[i..]
  {
    if i == 0 {
      assert s[..0] == [] && s[0..] == s;
    } else {
      var j := i - 1;
      FilteringMidway(s, j, keep);
      KeepAdvance(s, j, keep);
      if s[j] in keep {
        assert Filtering(s, i, keep) == Filtering(s, j, keep);
      } else {
        assert Filtering(s, i, keep) == Delete(Filtering(s, j, keep), s[j]);
      }
    }
  }

  /**
    A pass over a sequence without duplicates ends with `Keep`, and the element
    it looks at next is still in the sequence.
  */
  lemma FilteringFacts<T>(s: seq<T>, i: nat, keep: set<T>)
    requires Distinct(s) && i <= |s|
    ensures i < |s| ==> s[i] in Elements(Filtering(s, i, keep))
    ensures i == |s| ==> Filtering(s, i, keep) == Keep(s, keep)
  {
    FilteringMidway(s, i, keep);
    if i < |s| {
      KeepAdvance(s, i, keep);
    } else {
      assert s[..i] == s && s[i..] == [];
    }
  }

  /** In a sequence without duplicates, distinct positions hold distinct elements. */
  lemma {:induction false} DistinctIndices<T>(s: seq<T>, i: nat, j: nat)
    requires Distinct(s) && i < j < |s|
    ensures s[i] != s[j]
  {
    if i == 0 {
      assert s[j] == s[1..][j - 1];
    } else {
      DistinctIndices(s[1..], i - 1, j - 1);
    }
  }

  /** A sequence without duplicates has as many elements as the set it lists. */
  lemma {:induction false} DistinctCardinality<T>(s: seq<T>)
    requires Distinct(s)
    ensures |Elements(s)| == |s|
  {
    if s != [] {
      DistinctCardinality(s[1..]);
      ElementsCons(s);
    }
  }
}
