/** The list animalbase.js shows: `prepareFilteredList` keeps the records of
    the selected type, and `prepareSortedList` sorts a list in place with the
    comparator of the current settings. */
module Projection {
  import opened Filtering
  import opened Records
  import opened Ordering

  /** `prepareFilteredList`: the whole collection for the filter "all", and
      otherwise the records whose type is the filter, in collection order. */
  function Filtered(s: seq<Animal>, filter: string): (r: seq<Animal>)
    ensures |r| <= |s|
    ensures forall a :: a in r ==> a in s && (filter == "all" || a.kind == filter)
  {
    if filter == "all" then s else Where(s, HasKind(filter))
  }

  /** The filter keeps each record of the selected type as often as the
      collection holds it, and nothing else; "all" keeps the collection itself. */
  lemma FilteredContents(s: seq<Animal>, filter: string, x: Animal)
    ensures filter == "all" ==> Filtered(s, filter) == s
    ensures multiset(Filtered(s, filter))[x]
         == if filter == "all" || x.kind == filter then multiset(s)[x] else 0
  {
    if filter != "all" {
      WhereCount(s, HasKind(filter), x);
    }
  }

  /** The filter keeps collection order: filtering a concatenation is
      concatenating the filtered parts. */
  lemma FilteredOrder(a: seq<Animal>, b: seq<Animal>, filter: string)
    ensures Filtered(a + b, filter) == Filtered(a, filter) + Filtered(b, filter)
  {
    if filter != "all" {
      WhereConcat(a, b, HasKind(filter));
    }
  }

  /** `prepareSortedList`: sorts the list in place with `sortByCriteria`.
      The engine's own sort algorithm is not known; this is an insertion
      sort that moves a record left while the comparator puts it first. */
  method PrepareSortedList(a: array<Animal>, st: Settings)
    modifies a
    ensures Sorted(a[..], st)
    ensures multiset(a[..]) == multiset(old(a[..]))
  {
    var i := 0;
    while i < a.Length
      invariant 0 <= i <= a.Length
      invariant Sorted(a[..i], st)
      invariant multiset(a[..]) == multiset(old(a[..]))
    {
      Insert(a, i, st);
      i := i + 1;
    }
    assert a[..] == a[..a.Length];
  }

  /** Moves `a[i]` left into the sorted prefix `a[..i]`. */
  method Insert(a: array<Animal>, i: nat, st: Settings)
    requires i < a.Length && Sorted(a[..i], st)
    modifies a
    ensures Sorted(a[..i + 1], st)
    ensures multiset(a[..]) == multiset(old(a[..]))
  {
    var j := i;
    while j > 0 && SortByCriteria(a[j], a[j - 1], st) < 0
      invariant 0 <= j <= i
      invariant forall p, q :: 0 <= p < q <= i && p != j && q != j ==> InOrder(a[p], a[q], st)
      invariant forall q :: j < q <= i ==> InOrder(a[j], a[q], st)
      invariant multiset(a[..]) == multiset(old(a[..]))
    {
      CriteriaInOrder(a[j], a[j - 1], st);
      Swap(a, j);
      j := j - 1;
    }
    if j > 0 {
      CriteriaInOrder(a[j], a[j - 1], st);
      forall p | 0 <= p < j ensures InOrder(a[p], a[j], st) {
        if p < j - 1 {
          InOrderTransitive(a[p], a[j - 1], a[j], st);
        }
      }
    }
  }

  /** Exchanges `a[j - 1]` and `a[j]`. */
  method Swap(a: array<Animal>, j: nat)
    requires 0 < j < a.Length
    modifies a
    ensures a[..] == old(a[..])[j - 1 := old(a[j])][j := old(a[j - 1])]
    ensures multiset(a[..]) == multiset(old(a[..]))
  {
    a[j - 1], a[j] := a[j], a[j - 1];
  }
}
