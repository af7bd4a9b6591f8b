/**
 * The materials list held by the page and the pure list transformations its
 * handlers apply: appending the created record, swapping the updated record
 * in by id, filtering the deleted record out by id, and the search filter
 * that feeds the table.
 */
module MaterialList {
  import opened Text

  /** The server assigns ids; the page only compares them. */
  type MaterialId = int

  /** A material as the server returns it. */
  datatype Material = Material(id: MaterialId, name: string, isActive: bool, alloysCount: nat)

  /** The create form's draft: a material without an id or a count. */
  datatype Draft = Draft(name: string, isActive: bool)

  /** The draft the page starts with and returns to after a successful create. */
  const EmptyDraft := Draft("", true)

  ghost predicate HasId(s: seq<Material>, id: MaterialId) {
    exists i :: 0 <= i < |s| && s[i].id == id
  }

  /** No two entries share an id, as the server guarantees for the list it sends. */
  ghost predicate UniqueIds(s: seq<Material>) {
    forall i, j :: 0 <= i < j < |s| ==> s[i].id != s[j].id
  }

  /** `r` is `s` with some elements left out and the rest in their original order. */
  ghost predicate IsSubsequence<T>(r: seq<T>, s: seq<T>)
    decreases |s|
  {
    if r == [] then true
    else if s == [] then false
    else if r[0] == s[0] then IsSubsequence(r[1..], s[1..])
    else IsSubsequence(r, s[1..])
  }

  /* ---------------------------------------------------------------------- */
  /* Array.prototype.filter                                                  */
  /* ---------------------------------------------------------------------- */

  /** `s.filter(keep)`: the elements that pass `keep`, in order. */
  function Filter<T(!new)>(s: seq<T>, keep: T -> bool): (r: seq<T>)
    ensures |r| <= |s|
    ensures forall x :: x in r <==> x in s && keep(x)
  {
    if s == [] then []
    else if keep(s[0]) then [s[0]] + Filter(s[1..], keep)
    else Filter(s[1..], keep)
  }

  /** Filtering a concatenation filters each part and keeps the parts in order. */
  lemma {:induction false} FilterConcat<T(!new)>(a: seq<T>, b: seq<T>, keep: T -> bool)
    ensures Filter(a + b, keep) == Filter(a, keep) + Filter(b, keep)
    decreases |a|
  {
    if a != [] {
      assert (a + b)[1..] == a[1..] + b;
      FilterConcat(a[1..], b, keep);
    } else {
      assert a + b == b;
    }
  }

  /** Filtering keeps the relative order of what it keeps. */
  lemma {:induction false} FilterIsSubsequence<T(!new)>(s: seq<T>, keep: T -> bool)
    ensures IsSubsequence(Filter(s, keep), s)
    decreases |s|
  {
    if s != [] {
      FilterIsSubsequence(s[1..], keep);
      if !keep(s[0]) {
        SubsequenceOfTail(Filter(s[1..], keep), s);
      }
    }
  }

  lemma {:induction false} SubsequenceReflexive<T>(s: seq<T>)
    ensures IsSubsequence(s, s)
    decreases |s|
  {
    if s != [] {
      SubsequenceReflexive(s[1..]);
    }
  }

  /** A subsequence of the tail is a subsequence of the whole. */
  lemma {:induction false} SubsequenceOfTail<T>(r: seq<T>, s: seq<T>)
    requires s != [] && IsSubsequence(r, s[1..])
    ensures IsSubsequence(r, s)
    decreases |s|, 1
  {
    if r != [] && r[0] == s[0] {
      SubsequenceDropHead(r, s[1..]);
    }
  }

  /** Dropping the first element of a subsequence leaves a subsequence. */
  lemma {:induction false} SubsequenceDropHead<T>(r: seq<T>, t: seq<T>)
    requires r != [] && IsSubsequence(r, t)
    ensures IsSubsequence(r[1..], t)
    decreases |t| + 1, 0
  {
    if r[0] != t[0] {
      SubsequenceDropHead(r, t[1..]);
    }
    SubsequenceOfTail(r[1..], t);
  }

  /** When every element passes, filtering returns the sequence unchanged. */
  lemma {:induction false} FilterKeepsAll<T(!new)>(s: seq<T>, keep: T -> bool)
    requires forall x :: x in s ==> keep(x)
    ensures Filter(s, keep) == s
    decreases |s|
  {
    if s != [] {
      FilterKeepsAll(s[1..], keep);
    }
  }

  /** Two tests that agree on every element filter alike. */
  lemma {:induction false} FilterCongruent<T(!new)>(s: seq<T>, p: T -> bool, q: T -> bool)
    requires forall x :: x in s ==> p(x) == q(x)
    ensures Filter(s, p) == Filter(s, q)
    decreases |s|
  {
    if s != [] {
      FilterCongruent(s[1..], p, q);
    }
  }

  /* ---------------------------------------------------------------------- */
  /* The update handler's map                                                */
  /* ---------------------------------------------------------------------- */

  /**
   * `s.map(x => x.id === id ? m : x)`: every entry carrying `id` becomes `m`,
   * every other entry stays where and what it was.
   */
  function ReplaceById(s: seq<Material>, id: MaterialId, m: Material): (r: seq<Material>)
    ensures |r| == |s|
    ensures forall i :: 0 <= i < |s| ==> r[i] == (if s[i].id == id then m else s[i])
  {
    if s == [] then []
    else [if s[0].id == id then m else s[0]] + ReplaceById(s[1..], id, m)
  }

  /** With no entry carrying `id`, the update leaves the list as it was. */
  lemma ReplaceAbsent(s: seq<Material>, id: MaterialId, m: Material)
    requires !HasId(s, id)
    ensures ReplaceById(s, id, m) == s
  {
  }

  /** With unique ids, the update swaps the one entry at the position of `id`. */
  lemma ReplaceAt(s: seq<Material>, k: nat, m: Material)
    requires UniqueIds(s) && k < |s|
    ensures ReplaceById(s, s[k].id, m) == s[k := m]
  {
  }

  /** Applying the same update twice is applying it once. */
  lemma ReplaceIdempotent(s: seq<Material>, id: MaterialId, m: Material)
    ensures ReplaceById(ReplaceById(s, id, m), id, m) == ReplaceById(s, id, m)
  {
  }

  /** An update whose returned record keeps the id keeps the ids unique. */
  lemma ReplacePreservesUniqueIds(s: seq<Material>, id: MaterialId, m: Material)
    requires UniqueIds(s) && m.id == id
    ensures UniqueIds(ReplaceById(s, id, m))
  {
  }

  /* ---------------------------------------------------------------------- */
  /* The delete handler's filter                                             */
  /* ---------------------------------------------------------------------- */

  /** `s.filter(x => x.id !== id)`. */
  function RemoveById(s: seq<Material>, id: MaterialId): (r: seq<Material>)
    ensures |r| <= |s|
    ensures forall x :: x in r <==> x in s && x.id != id
  {
    Filter(s, (x: Material) => x.id != id)
  }

  /** The entries that survive a delete keep their relative order. */
  lemma RemoveIsSubsequence(s: seq<Material>, id: MaterialId)
    ensures IsSubsequence(RemoveById(s, id), s)
  {
    FilterIsSubsequence(s, (x: Material) => x.id != id);
  }

  /** Deleting an id the list does not hold leaves the list as it was. */
  lemma RemoveAbsent(s: seq<Material>, id: MaterialId)
    requires !HasId(s, id)
    ensures RemoveById(s, id) == s
  {
    forall x | x in s ensures x.id != id {
      var i :| 0 <= i < |s| && s[i] == x;
    }
    FilterKeepsAll(s, (x: Material) => x.id != id);
  }

  /** With unique ids, deleting an id the list holds removes exactly one entry. */
  lemma {:induction false} RemoveOne(s: seq<Material>, id: MaterialId)
    requires UniqueIds(s) && HasId(s, id)
    ensures |RemoveById(s, id)| == |s| - 1
    decreases |s|
  {
    var tail := s[1..];
    assert UniqueIds(tail) by {
      forall i, j | 0 <= i < j < |tail| ensures tail[i].id != tail[j].id {
        assert tail[i] == s[i + 1] && tail[j] == s[j + 1];
      }
    }
    if s[0].id == id {
      assert !HasId(tail, id) by {
        forall i | 0 <= i < |tail| ensures tail[i].id != id {
          assert tail[i] == s[i + 1];
        }
      }
      RemoveAbsent(tail, id);
    } else {
      var k :| 0 <= k < |s| && s[k].id == id;
      assert tail[k - 1].id == id;
      RemoveOne(tail, id);
    }
  }

  /** Deleting keeps the ids unique. */
  lemma {:induction false} RemovePreservesUniqueIds(s: seq<Material>, id: MaterialId)
    requires UniqueIds(s)
    ensures UniqueIds(RemoveById(s, id))
  {
    FilterPreservesUniqueIds(s, (x: Material) => x.id != id);
  }

  lemma {:induction false} FilterPreservesUniqueIds(s: seq<Material>, keep: Material -> bool)
    requires UniqueIds(s)
    ensures UniqueIds(Filter(s, keep))
    decreases |s|
  {
    if s != [] {
      var tail := s[1..];
      assert UniqueIds(tail) by {
        forall i, j | 0 <= i < j < |tail| ensures tail[i].id != tail[j].id {
          assert tail[i] == s[i + 1] && tail[j] == s[j + 1];
        }
      }
      FilterPreservesUniqueIds(tail, keep);
      if keep(s[0]) {
        var rest := Filter(tail, keep);
        var r := [s[0]] + rest;
        forall j | 0 < j < |r| ensures r[0].id != r[j].id {
          assert rest[j - 1] in tail;
          var k :| 0 <= k < |tail| && tail[k] == rest[j - 1];
          assert s[k + 1] == tail[k];
        }
        assert forall i, j :: 0 < i < j < |r| ==> r[i] == rest[i - 1] && r[j] == rest[j - 1];
      }
    }
  }

  /* ---------------------------------------------------------------------- */
  /* Create followed by delete                                               */
  /* ---------------------------------------------------------------------- */

  /** Appending a record whose id is fresh keeps the ids unique. */
  lemma AppendPreservesUniqueIds(s: seq<Material>, m: Material)
    ensures UniqueIds(s) && !HasId(s, m.id) ==> UniqueIds(s + [m])
  {
  }

  /** Deleting the id of a record just appended restores the list that was there before. */
  lemma CreateThenDelete(s: seq<Material>, m: Material)
    requires !HasId(s, m.id)
    ensures RemoveById(s + [m], m.id) == s
  {
    var keep := (x: Material) => x.id != m.id;
    FilterConcat(s, [m], keep);
    RemoveAbsent(s, m.id);
    assert Filter([m], keep) == [];
  }

  /* ---------------------------------------------------------------------- */
  /* The search box                                                          */
  /* ---------------------------------------------------------------------- */

  /** `m.name.toLowerCase().includes(term.toLowerCase())`. */
  predicate MatchesSearch(m: Material, term: string)
    ensures term == [] ==> MatchesSearch(m, term)
    ensures MatchesSearch(m, term) ==> |term| <= |m.name|
  {
    Includes(Lower(m.name), Lower(term))
  }

  /** The page's `filteredMaterials`. */
  function Search(s: seq<Material>, term: string): (r: seq<Material>)
    ensures |r| <= |s|
    ensures forall x :: x in r <==> x in s && MatchesSearch(x, term)
  {
    Filter(s, (x: Material) => MatchesSearch(x, term))
  }

  /**
   * A material is shown exactly when it is in the list and the lower-cased
   * term occurs somewhere in its lower-cased name.
   */
  lemma SearchSpec(s: seq<Material>, term: string, x: Material)
    ensures x in Search(s, term) <==> x in s && exists i :: OccursAt(Lower(x.name), Lower(term), i)
  {
    IncludesSpec(Lower(x.name), Lower(term));
  }

  /** The shown materials keep the list's order. */
  lemma SearchIsSubsequence(s: seq<Material>, term: string)
    ensures IsSubsequence(Search(s, term), s)
  {
    FilterIsSubsequence(s, (x: Material) => MatchesSearch(x, term));
  }

  /** An empty search box shows the whole list, in order. */
  lemma SearchEmptyTerm(s: seq<Material>, term: string)
    requires term == []
    ensures Search(s, term) == s
  {
    FilterKeepsAll(s, (x: Material) => MatchesSearch(x, term));
  }

  /** The search ignores the case of the term. */
  lemma SearchIgnoresTermCase(s: seq<Material>, term: string)
    ensures Search(s, Lower(term)) == Search(s, term)
  {
    LowerIdempotent(term);
    FilterCongruent(s, (x: Material) => MatchesSearch(x, Lower(term)), (x: Material) => MatchesSearch(x, term));
  }
}
