/**
 * The list operations the view models use on their observable collections:
 * `IndexOf` (first occurrence, -1 when absent), `RemoveAt`, `Insert`,
 * `Remove` (first occurrence, no-op when absent) and `Move` (remove, then
 * insert at the target index), and a list with a selected element, with
 * the remove-and-reselect and move-the-selection edits both view models
 * make. Elements are compared by value; the view models keep them
 * distinct, which makes value equality the reference equality of the
 * source's `IndexOf`.
 */
module ListEdits {
  import opened Basics

  /** The index of the first occurrence of `x`, or -1. */
  function IndexOf<T(==)>(s: seq<T>, x: T): (i: int)
    ensures -1 <= i < |s|
    ensures i == -1 <==> x !in s
    ensures i >= 0 ==> s[i] == x && x !in s[..i]
    decreases |s|
  {
    if |s| == 0 then -1
    else if s[0] == x then 0
    else
      var j := IndexOf(s[1..], x);
      assert s[1..][..if j < 0 then 0 else j] == s[1..1 + (if j < 0 then 0 else j)];
      if j < 0 then -1 else 1 + j
  }

  /** The elements of a list are pairwise distinct. */
  predicate Distinct<T(==)>(s: seq<T>) {
    forall i, j :: 0 <= i < j < |s| ==> s[i] != s[j]
  }

  /** In a list without repeats, position i holds x exactly when IndexOf says so. */
  lemma IndexOfDistinct<T>(s: seq<T>, i: int)
    requires Distinct(s) && 0 <= i < |s|
    ensures IndexOf(s, s[i]) == i
  {
  }

  function RemoveAt<T>(s: seq<T>, i: int): (r: seq<T>)
    requires 0 <= i < |s|
    ensures |r| == |s| - 1
    ensures forall k :: 0 <= k < i ==> r[k] == s[k]
    ensures forall k :: i <= k < |r| ==> r[k] == s[k + 1]
    ensures multiset(r) + multiset{s[i]} == multiset(s)
  {
    assert s == s[..i] + [s[i]] + s[i + 1..];
    s[..i] + s[i + 1..]
  }

  function Insert<T>(s: seq<T>, i: int, x: T): (r: seq<T>)
    requires 0 <= i <= |s|
    ensures |r| == |s| + 1 && r[i] == x
    ensures forall k :: 0 <= k < i ==> r[k] == s[k]
    ensures forall k :: i < k < |r| ==> r[k] == s[k - 1]
    ensures multiset(r) == multiset(s) + multiset{x}
  {
    assert s == s[..i] + s[i..];
    s[..i] + [x] + s[i..]
  }

  /** Removing what was just inserted gives the list back. */
  lemma RemoveInserted<T>(s: seq<T>, i: int, x: T)
    requires 0 <= i <= |s|
    ensures RemoveAt(Insert(s, i, x), i) == s
  {
  }

  /** Inserting the removed element where it was gives the list back. */
  lemma InsertRemoved<T>(s: seq<T>, i: int)
    requires 0 <= i < |s|
    ensures Insert(RemoveAt(s, i), i, s[i]) == s
  {
  }

  /** `List.Remove`: the first occurrence goes, the rest keep their order. */
  function Remove<T(==)>(s: seq<T>, x: T): (r: seq<T>)
    ensures x !in s ==> r == s
    ensures x in s ==> |r| == |s| - 1 && multiset(r) + multiset{x} == multiset(s)
  {
    var i := IndexOf(s, x);
    if i < 0 then s else RemoveAt(s, i)
  }

  /** `ObservableCollection.Move`: take the element out, then insert it at index `to`. */
  function Move<T>(s: seq<T>, from: int, to: int): (r: seq<T>)
    requires 0 <= from < |s| && 0 <= to < |s|
    ensures |r| == |s| && r[to] == s[from]
    ensures multiset(r) == multiset(s)
  {
    Insert(RemoveAt(s, from), to, s[from])
  }

  /** Moving to a neighbouring index swaps the two and leaves every other position alone. */
  lemma MoveAdjacent<T>(s: seq<T>, i: int, j: int)
    requires 0 <= i < |s| && 0 <= j < |s| && (j == i + 1 || j == i - 1)
    ensures Move(s, i, j)[j] == s[i] && Move(s, i, j)[i] == s[j]
    ensures forall k :: 0 <= k < |s| && k != i && k != j ==> Move(s, i, j)[k] == s[k]
  {
  }

  /** Moving back undoes a move. */
  lemma MoveBack<T>(s: seq<T>, i: int, j: int)
    requires 0 <= i < |s| && 0 <= j < |s|
    ensures Move(Move(s, i, j), j, i) == s
  {
    var r := Move(s, i, j);
    RemoveInserted(RemoveAt(s, i), j, s[i]);
    assert RemoveAt(r, j) == RemoveAt(s, i);
    InsertRemoved(s, i);
  }

  /**
   * The index selected after the element at `index` was removed and `n`
   * elements are left: the same index, or the new last one; none when empty.
   */
  function Reselect(n: nat, index: int): (r: Option<int>)
    ensures n == 0 <==> r.None?
    ensures r.Some? ==> 0 <= r.value < n || index < 0
    ensures r.Some? && 0 <= index < n ==> r.value == index
    ensures r.Some? && index >= n ==> r.value == n - 1
  {
    if n > 0 then Some(Min(index, n - 1)) else None
  }

  // ------------------------------------------------------------ a list with a selection

  datatype Listing<T> = Listing(items: seq<T>, selected: Option<T>)

  /** No element twice, and the selection, if any, is on the list. */
  predicate Sound<T(==)>(l: Listing<T>) {
    Distinct(l.items) && (l.selected.Some? ==> l.selected.value in l.items)
  }

  function SelectedIndex<T(==)>(l: Listing<T>): (i: int)
    requires Sound(l) && l.selected.Some?
    ensures 0 <= i < |l.items| && l.items[i] == l.selected.value
  {
    IndexOf(l.items, l.selected.value)
  }

  /**
   * Removes the selected element and selects the one that took its place,
   * or the new last one; nothing is selected once the list is empty.
   */
  function RemoveSelected<T(==)>(l: Listing<T>): (r: Listing<T>)
    requires Sound(l)
    ensures Sound(r)
    ensures l.selected.None? ==> r == l
    ensures l.selected.Some? ==>
      var i := SelectedIndex(l);
      && r.items == RemoveAt(l.items, i)
      && l.selected.value !in r.items
      && (r.selected.None? <==> |l.items| == 1)
      && (i + 1 < |l.items| ==> r.selected == Some(l.items[i + 1]))
      && (i + 1 == |l.items| && i > 0 ==> r.selected == Some(l.items[i - 1]))
  {
    if l.selected.None? then l
    else
      var i := SelectedIndex(l);
      var rest := RemoveAt(l.items, i);
      var sel := Reselect(|rest|, i);
      Listing(rest, if sel.Some? then Some(rest[sel.value]) else None)
  }

  /** A swap of two positions keeps the elements distinct. */
  lemma SwapKeepsDistinct<T>(s: seq<T>, i: int, j: int, r: seq<T>)
    requires Distinct(s) && 0 <= i < |s| && 0 <= j < |s| && |r| == |s|
    requires r[i] == s[j] && r[j] == s[i]
    requires forall k :: 0 <= k < |r| && k != i && k != j ==> r[k] == s[k]
    ensures Distinct(r)
  {
    forall k | 0 <= k < |r|
      ensures r[k] == s[Swapped(k, i, j)]
    {
    }
  }

  /** The position whose element lands at k when positions i and j trade places. */
  function Swapped(k: int, i: int, j: int): int {
    if k == i then j else if k == j then i else k
  }

  /** Swaps the selected element with its predecessor; nothing happens at the top. */
  function MoveSelectedUp<T(==)>(l: Listing<T>): (r: Listing<T>)
    requires Sound(l)
    ensures Sound(r) && r.selected == l.selected
    ensures multiset(r.items) == multiset(l.items)
    ensures l.selected.None? || SelectedIndex(l) == 0 ==> r == l
    ensures l.selected.Some? && SelectedIndex(l) > 0 ==>
      var i := SelectedIndex(l);
      && r.items[i - 1] == l.items[i] && r.items[i] == l.items[i - 1]
      && forall k :: 0 <= k < |l.items| && k != i - 1 && k != i ==> r.items[k] == l.items[k]
  {
    if l.selected.None? then l
    else
      var i := SelectedIndex(l);
      if i > 0 then
        var items := Move(l.items, i, i - 1);
        MoveAdjacent(l.items, i, i - 1);
        SwapKeepsDistinct(l.items, i, i - 1, items);
        l.(items := items)
      else l
  }

  /** Swaps the selected element with its successor; nothing happens at the bottom. */
  function MoveSelectedDown<T(==)>(l: Listing<T>): (r: Listing<T>)
    requires Sound(l)
    ensures Sound(r) && r.selected == l.selected
    ensures multiset(r.items) == multiset(l.items)
    ensures l.selected.None? || SelectedIndex(l) == |l.items| - 1 ==> r == l
    ensures l.selected.Some? && SelectedIndex(l) < |l.items| - 1 ==>
      var i := SelectedIndex(l);
      && r.items[i + 1] == l.items[i] && r.items[i] == l.items[i + 1]
      && forall k :: 0 <= k < |l.items| && k != i && k != i + 1 ==> r.items[k] == l.items[k]
  {
    if l.selected.None? then l
    else
      var i := SelectedIndex(l);
      if i < |l.items| - 1 then
        var items := Move(l.items, i, i + 1);
        MoveAdjacent(l.items, i, i + 1);
        SwapKeepsDistinct(l.items, i, i + 1, items);
        l.(items := items)
      else l
  }

  /** Moving the selection up and then down again restores the list, and the other way round. */
  lemma MoveUpThenDown<T>(l: Listing<T>)
    requires Sound(l) && l.selected.Some? && SelectedIndex(l) > 0
    ensures MoveSelectedDown(MoveSelectedUp(l)) == l
  {
    var i := SelectedIndex(l);
    var m := MoveSelectedUp(l);
    assert m == l.(items := Move(l.items, i, i - 1));
    IndexOfDistinct(m.items, i - 1);
    assert SelectedIndex(m) == i - 1;
    assert MoveSelectedDown(m) == m.(items := Move(m.items, i - 1, i));
    MoveBack(l.items, i, i - 1);
  }

  lemma MoveDownThenUp<T>(l: Listing<T>)
    requires Sound(l) && l.selected.Some? && SelectedIndex(l) < |l.items| - 1
    ensures MoveSelectedUp(MoveSelectedDown(l)) == l
  {
    var i := SelectedIndex(l);
    var m := MoveSelectedDown(l);
    assert m == l.(items := Move(l.items, i, i + 1));
    IndexOfDistinct(m.items, i + 1);
    assert SelectedIndex(m) == i + 1;
    assert MoveSelectedUp(m) == m.(items := Move(m.items, i + 1, i));
    MoveBack(l.items, i, i + 1);
  }

  // ------------------------------------------------------------ first occurrences

  /** After the first occurrence of x trades places with its predecessor, it is still the first. */
  lemma FirstAfterSwap<T>(s: seq<T>, x: T, i: int, r: seq<T>)
    requires 0 <= i && i + 1 < |s| && s[i + 1] == x && x !in s[..i + 1]
    requires |r| == |s| && r[i] == x && r[i + 1] == s[i]
    requires forall k :: 0 <= k < |s| && k != i && k != i + 1 ==> r[k] == s[k]
    ensures IndexOf(r, x) == i
  {
    assert r[..i] == s[..i];
    assert x !in r[..i] by {
      assert forall y :: y in s[..i] ==> y in s[..i + 1];
    }
  }

  /**
   * r is s with the neighbours at j and j + 1 traded and everything else
   * in place.
   */
  predicate Swapped1<T(==)>(s: seq<T>, r: seq<T>, j: int) {
    && 0 <= j && j + 1 < |s| && |r| == |s|
    && r[j] == s[j + 1] && r[j + 1] == s[j]
    && forall k :: 0 <= k < |s| && k != j && k != j + 1 ==> r[k] == s[k]
  }

  /** `RemoveAt(i)` then `Insert(i - 1, x)` on the first occurrence i of x; nothing when x is first or absent. */
  function MoveFirstUp<T(==)>(s: seq<T>, x: T): (r: seq<T>)
    ensures |r| == |s| && multiset(r) == multiset(s)
    ensures IndexOf(s, x) <= 0 ==> r == s
    ensures IndexOf(s, x) > 0 ==> Swapped1(s, r, IndexOf(s, x) - 1) && IndexOf(r, x) == IndexOf(s, x) - 1
  {
    var i := IndexOf(s, x);
    if i > 0 then
      MovedUpFirst(s, x, i);
      Move(s, i, i - 1)
    else s
  }

  lemma MovedUpFirst<T>(s: seq<T>, x: T, i: int)
    requires 0 < i < |s| && i == IndexOf(s, x)
    ensures Swapped1(s, Move(s, i, i - 1), i - 1) && IndexOf(Move(s, i, i - 1), x) == i - 1
  {
    var r := Move(s, i, i - 1);
    MoveAdjacent(s, i, i - 1);
    assert s[i] == x && x !in s[..i];
    FirstAfterSwap(s, x, i - 1, r);
  }

  /**
   * `RemoveAt(i)` then `Insert(i + 1, x)` on the first occurrence i of x;
   * nothing when it is last. An absent x in a non-empty list would make
   * the source remove at -1, which throws.
   */
  function MoveFirstDown<T(==)>(s: seq<T>, x: T): (r: seq<T>)
    requires x in s || s == []
    ensures |r| == |s| && multiset(r) == multiset(s)
    ensures IndexOf(s, x) >= |s| - 1 ==> r == s
    ensures IndexOf(s, x) < |s| - 1 ==> Swapped1(s, r, IndexOf(s, x))
  {
    var i := IndexOf(s, x);
    if i < |s| - 1 then
      MoveAdjacent(s, i, i + 1);
      Move(s, i, i + 1)
    else s
  }

  /** Moving the first occurrence up and then down restores the list. */
  lemma FirstUpThenDown<T>(s: seq<T>, x: T)
    requires IndexOf(s, x) > 0
    ensures MoveFirstDown(MoveFirstUp(s, x), x) == s
  {
    var i := IndexOf(s, x);
    var up := MoveFirstUp(s, x);
    assert up == Move(s, i, i - 1);
    assert IndexOf(up, x) == i - 1;
    assert x in up by {
      assert up[i - 1] == x;
    }
    assert MoveFirstDown(up, x) == Move(up, i - 1, i);
    MoveBack(s, i, i - 1);
  }

  /**
   * Down then up is not an undo when the next element equals x: moving
   * down changes nothing visible, and moving up then lifts the first
   * occurrence above its predecessor.
   */
  lemma FirstDownThenUpExample()
    ensures MoveFirstUp(MoveFirstDown(["x", "a", "a"], "a"), "a") == ["a", "x", "a"]
  {
    var s := ["x", "a", "a"];
    assert s[0] != "a" && s[1] == "a";
    assert IndexOf(s, "a") == 1 by {
      assert IndexOf(s[1..], "a") == 0;
    }
    assert MoveFirstDown(s, "a") == s;
    assert MoveFirstUp(s, "a") == Move(s, 1, 0);
  }

  /**
   * `Remove(x)` on a list holding x, and the element selected afterwards:
   * the one that took the place of the first occurrence, or the new last
   * one, or none once the list is empty.
   */
  function RemoveFirstReselect<T(==)>(s: seq<T>, x: T): (r: (seq<T>, Option<T>))
    requires x in s
    ensures var i := IndexOf(s, x);
      && |r.0| == |s| - 1 && r.0[..i] == s[..i] && r.0[i..] == s[i + 1..]
      && (r.1.None? <==> |s| == 1)
      && (i + 1 < |s| ==> r.1 == Some(s[i + 1]))
      && (i + 1 == |s| && i > 0 ==> r.1 == Some(s[i - 1]))
  {
    var i := IndexOf(s, x);
    var rest := RemoveAt(s, i);
    assert rest[..i] == s[..i] && rest[i..] == s[i + 1..];
    var sel := Reselect(|rest|, i);
    (rest, if sel.Some? then Some(rest[sel.value]) else None)
  }

  /** Appending an element the list lacks and removing its first occurrence restores the list. */
  lemma RemoveAppended<T>(s: seq<T>, x: T)
    requires x !in s
    ensures Remove(s + [x], x) == s
    ensures RemoveFirstReselect(s + [x], x).0 == s
  {
    assert (s + [x])[..|s|] == s;
    assert IndexOf(s + [x], x) == |s|;
  }
}
