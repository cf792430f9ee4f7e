/** The order in which cards are shown: `sortCompareFunc` of the panel's `init`, and the
    sort that `CardSet.render` applies to a copy of the records with it. */
module Ordering {
  import opened Types
  import opened Reducer

  /** `sortCompareFunc`: 1, -1 or 0 as `a` sits below, above or level with `b`. */
  function SortCompare(a: Form, b: Form): (r: int)
    ensures r == 1 <==> a.position > b.position
    ensures r == -1 <==> a.position < b.position
    ensures r == 0 <==> a.position == b.position
  {
    if a.position > b.position then 1
    else if a.position < b.position then -1
    else 0
  }

  /** Swapping the arguments flips the sign, so the comparator is consistent. */
  lemma SortCompareAntisymmetric(a: Form, b: Form)
    ensures SortCompare(a, b) == -SortCompare(b, a)
  {
  }

  /** "Not after" is transitive, so the comparator is a total preorder. */
  lemma SortCompareTransitive(a: Form, b: Form, c: Form)
    requires SortCompare(a, b) <= 0 && SortCompare(b, c) <= 0
    ensures SortCompare(a, c) <= 0
  {
  }

  predicate Sorted(s: seq<Form>) {
    forall i, j :: 0 <= i < j < |s| ==> SortCompare(s[i], s[j]) <= 0
  }

  /** Place `f`, which came later in the input than every record of `s`, after every
      record of `s` that does not sort below it (a stable insertion). */
  function Insert(f: Form, s: seq<Form>): seq<Form>
    decreases |s|
  {
    if s == [] then [f]
    else if SortCompare(s[|s| - 1], f) > 0 then Insert(f, s[..|s| - 1]) + [s[|s| - 1]]
    else s + [f]
  }

  /** The result of `Array.prototype.sort` with `sortCompareFunc` on a copy of `forms`,
      computed by insertion; with distinct positions every sort gives this result. */
  function SortByPosition(forms: seq<Form>): seq<Form>
    decreases |forms|
  {
    if forms == [] then [] else Insert(forms[|forms| - 1], SortByPosition(forms[..|forms| - 1]))
  }

  lemma {:induction false} InsertPositions(f: Form, s: seq<Form>)
    ensures multiset(Insert(f, s)) == multiset(s) + multiset{f}
    ensures PositionSet(Insert(f, s)) == PositionSet(s) + {f.position}
    decreases |s|
  {
    if s == [] {
      assert [f][0] == f;
    } else if SortCompare(s[|s| - 1], f) > 0 {
      var init, last := s[..|s| - 1], s[|s| - 1];
      assert s == init + [last];
      InsertPositions(f, init);
      PositionSetConcat(Insert(f, init), [last]);
      PositionSetConcat(init, [last]);
      assert [last][0] == last;
    } else {
      PositionSetConcat(s, [f]);
      assert [f][0] == f;
    }
  }

  /** Each record of the insertion is `f` or comes from `s`. */
  lemma InsertFrom(f: Form, s: seq<Form>, i: nat)
    requires i < |Insert(f, s)|
    ensures Insert(f, s)[i] == f || exists k :: 0 <= k < |s| && s[k] == Insert(f, s)[i]
  {
    InsertPositions(f, s);
    var x := Insert(f, s)[i];
    assert x in multiset(Insert(f, s));
  }

  lemma {:induction false} InsertSorted(f: Form, s: seq<Form>)
    requires Sorted(s)
    ensures Sorted(Insert(f, s))
    decreases |s|
  {
    if s != [] && SortCompare(s[|s| - 1], f) > 0 {
      var init, last := s[..|s| - 1], s[|s| - 1];
      var head := Insert(f, init);
      InsertSorted(f, init);
      forall i | 0 <= i < |head|
        ensures head[i].position <= last.position
      {
        InsertFrom(f, init, i);
      }
      assert Insert(f, s) == head + [last];
    }
  }

  lemma {:induction false} InsertDistinct(f: Form, s: seq<Form>)
    requires DistinctPositions(s) && f.position !in PositionSet(s)
    ensures DistinctPositions(Insert(f, s))
    decreases |s|
  {
    if s != [] && SortCompare(s[|s| - 1], f) > 0 {
      var init, last := s[..|s| - 1], s[|s| - 1];
      var head := Insert(f, init);
      assert s == init + [last];
      PositionSetConcat(init, [last]);
      InsertDistinct(f, init);
      forall i | 0 <= i < |head|
        ensures head[i].position != last.position
      {
        InsertFrom(f, init, i);
      }
      assert Insert(f, s) == head + [last];
    } else if s != [] {
      assert forall i :: 0 <= i < |s| ==> s[i].position in PositionSet(s);
    }
  }

  /** The sorted copy holds the same records, in order of position, and keeps the
      positions and their distinctness. */
  lemma {:induction false} SortByPositionProperties(forms: seq<Form>)
    ensures multiset(SortByPosition(forms)) == multiset(forms)
    ensures PositionSet(SortByPosition(forms)) == PositionSet(forms)
    ensures Sorted(SortByPosition(forms))
    ensures DistinctPositions(forms) ==> DistinctPositions(SortByPosition(forms))
    decreases |forms|
  {
    if forms != [] {
      var init, last := forms[..|forms| - 1], forms[|forms| - 1];
      assert forms == init + [last];
      SortByPositionProperties(init);
      InsertPositions(last, SortByPosition(init));
      InsertSorted(last, SortByPosition(init));
      if DistinctPositions(forms) {
        InsertDistinct(last, SortByPosition(init));
      }
      PositionSetConcat(init, [last]);
      assert PositionSet([last]) == {last.position};
    }
  }

  /** Sorted records with distinct positions sit in strictly increasing positions. */
  lemma {:induction false} StrictlyIncreasing(s: seq<Form>, i: nat, j: nat)
    requires Sorted(s) && DistinctPositions(s)
    requires i <= j < |s|
    ensures s[j].position - s[i].position >= j - i
    decreases j - i
  {
    if i < j {
      StrictlyIncreasing(s, i, j - 1);
      assert s[j - 1].position != s[j].position;
    }
  }

  /** Sorted dense positions base..base+n-1 are exactly base, base + 1, ... in order:
      the record at index j of the sorted copy has position base + j. */
  lemma SortedDensePositions(s: seq<Form>, base: int)
    requires Sorted(s) && DensePositions(s, base)
    ensures forall j :: 0 <= j < |s| ==> s[j].position == base + j
  {
    forall j | 0 <= j < |s|
      ensures s[j].position == base + j
    {
      StrictlyIncreasing(s, 0, j);
      StrictlyIncreasing(s, j, |s| - 1);
    }
  }
}
