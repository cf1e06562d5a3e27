/** What the two resource-assignment tables share: the rows shown for a list of assignments
    (one per assignment and an empty row for adding one), the selection kept across a
    refresh, and deletion of the selected rows (`filter`, `map`, then `removeAll`). */
module AssignmentTable {
  import opened Wrappers

  /** The table rows: every assignment in order, then the placeholder row. */
  function Rows<A>(assignments: seq<A>): (rows: seq<Option<A>>)
    ensures |rows| == |assignments| + 1
    ensures forall i :: 0 <= i < |assignments| ==> rows[i] == Some(assignments[i])
    ensures rows[|assignments|] == None
  {
    if assignments == [] then [None] else [Some(assignments[0])] + Rows(assignments[1..])
  }

  /** The only row without an assignment is the last one. */
  lemma PlaceholderIsLast<A>(assignments: seq<A>, i: nat)
    requires i < |Rows(assignments)|
    ensures Rows(assignments)[i].None? <==> i == |Rows(assignments)| - 1
  {
  }

  /** The selection after the rows were rebuilt: the previous row when it still exists,
      otherwise none (-1). */
  function RestoredSelection(previous: int, rowCount: nat): (selected: int)
    ensures -1 <= selected < rowCount
    ensures 0 <= previous < rowCount ==> selected == previous
    ensures !(0 <= previous < rowCount) ==> selected == -1
  {
    if 0 <= previous < rowCount then previous else -1
  }

  /** `selectedRows.filter { it < size }.map { list[it] }`: the selected assignments, in
      the order of the selection. */
  function Picked<A(==)>(s: seq<A>, selectedRows: seq<nat>): (picked: seq<A>)
    ensures |picked| <= |selectedRows|
    ensures forall k :: 0 <= k < |selectedRows| && selectedRows[k] < |s| ==> s[selectedRows[k]] in picked
    ensures forall j :: 0 <= j < |picked| ==> picked[j] in s
  {
    if selectedRows == [] then []
    else (if selectedRows[0] < |s| then [s[selectedRows[0]]] else []) + Picked(s, selectedRows[1..])
  }

  /** `removeAll`: every element that is not one of `xs`, in order. */
  function RemoveAll<A(==, !new)>(s: seq<A>, xs: seq<A>): (r: seq<A>)
    ensures forall x :: x in r <==> x in s && x !in xs
    ensures |r| <= |s|
  {
    if s == [] then []
    else (if s[0] in xs then [] else [s[0]]) + RemoveAll(s[1..], xs)
  }

  /** `removeAll` keeps the relative order: it works piece by piece. */
  lemma {:induction false} RemoveAllAppend<A(!new)>(a: seq<A>, b: seq<A>, xs: seq<A>)
    ensures RemoveAll(a + b, xs) == RemoveAll(a, xs) + RemoveAll(b, xs)
  {
    if a == [] {
      assert a + b == b;
    } else {
      assert (a + b)[1..] == a[1..] + b;
      RemoveAllAppend(a[1..], b, xs);
    }
  }

  predicate Distinct<A(==)>(s: seq<A>) {
    forall i, j :: 0 <= i < j < |s| ==> s[i] != s[j]
  }

  /** No two assignments share a key. */
  predicate UniqueKeys<A>(s: seq<A>, key: A -> nat) {
    forall i, j :: 0 <= i < j < |s| ==> key(s[i]) != key(s[j])
  }

  lemma UniqueKeysDistinct<A>(s: seq<A>, key: A -> nat)
    requires UniqueKeys(s, key)
    ensures Distinct(s)
  {
  }

  lemma {:induction false} RemoveAllUnique<A(!new)>(s: seq<A>, xs: seq<A>, key: A -> nat)
    requires UniqueKeys(s, key)
    ensures UniqueKeys(RemoveAll(s, xs), key)
  {
    if s != [] {
      RemoveAllUnique(s[1..], xs, key);
      var rest := RemoveAll(s[1..], xs);
      forall j | 0 <= j < |rest| ensures key(rest[j]) != key(s[0]) {
        assert rest[j] in s[1..];
        var k :| 0 <= k < |s[1..]| && s[1..][k] == rest[j];
        assert s[1..][k] == s[k + 1];
      }
      if s[0] !in xs {
        var r := RemoveAll(s, xs);
        assert r == [s[0]] + rest;
        forall a, b | 0 <= a < b < |r| ensures key(r[a]) != key(r[b]) {
          if a > 0 {
            assert r[a] == rest[a - 1] && r[b] == rest[b - 1];
          } else {
            assert r[b] == rest[b - 1];
          }
        }
      }
    }
  }

  /** Removing the assignment at one index keeps the keys of the others unique. */
  lemma RemoveAtUnique<A>(s: seq<A>, i: nat, key: A -> nat)
    requires UniqueKeys(s, key) && i < |s|
    ensures UniqueKeys(s[..i] + s[i + 1..], key)
  {
    var r := s[..i] + s[i + 1..];
    forall a, b | 0 <= a < b < |r| ensures key(r[a]) != key(r[b]) {
      var a' := if a < i then a else a + 1;
      var b' := if b < i then b else b + 1;
      assert r[a] == s[a'] && r[b] == s[b'];
    }
  }

  /** With distinct assignments, deleting the selected rows removes exactly the assignments
      on selected rows. */
  lemma {:induction false} DeleteSelected<A(!new)>(s: seq<A>, selectedRows: seq<nat>, i: nat)
    requires Distinct(s) && i < |s|
    ensures s[i] in RemoveAll(s, Picked(s, selectedRows)) <==> i !in selectedRows
  {
    PickedDistinct(s, selectedRows, i);
  }

  lemma {:induction false} PickedDistinct<A>(s: seq<A>, selectedRows: seq<nat>, i: nat)
    requires Distinct(s) && i < |s|
    ensures s[i] in Picked(s, selectedRows) <==> i in selectedRows
  {
    if selectedRows != [] {
      PickedDistinct(s, selectedRows[1..], i);
      var r := selectedRows[0];
      if r < |s| && r != i {
        assert s[r] != s[i];
      }
    }
  }
}
