/** The assignments tab of the resource properties dialog: the tasks a person is assigned
    to, as an editable table with an empty last row for adding one. Changes are staged: a
    mutator per task collects additions and removals, and removed assignments are deleted
    only on commit. Assignments are values with a key standing for their identity; the
    mutators are kept as the list of calls made on each. */
module ResourceAssignmentsFx {
  import opened Wrappers
  import opened AssignmentTable

  type TaskId = nat

  /** An assignment of the dialog's person to a task. */
  datatype Assignment = Assignment(key: nat, task: TaskId, load: real)

  /** A value handed to `setValueAt`. */
  datatype CellValue = NullValue | TaskValue(task: TaskId) | FloatValue(number: real) | OtherValue

  /** A call on a task's assignment mutator, always about the dialog's person. */
  datatype MutatorOp = AddAssignment | DeleteAssignment

  type Mutators = map<TaskId, seq<MutatorOp>>

  const NewAssignmentLoad: real := 100.0

  function KeyOf(a: Assignment): nat { a.key }

  predicate KeysBelow(s: seq<Assignment>, bound: nat) {
    forall i :: 0 <= i < |s| ==> s[i].key < bound
  }

  /** `getMutator(task)` followed by one call on it: the mutator is created on first use
      and reused afterwards, and no other task's mutator changes. */
  function WithCall(mutators: Mutators, task: TaskId, op: MutatorOp): (r: Mutators)
    ensures r.Keys == mutators.Keys + {task}
    ensures task in mutators ==> r[task] == mutators[task] + [op]
    ensures task !in mutators ==> r[task] == [op]
    ensures forall t :: t in mutators && t != task ==> r[t] == mutators[t]
  {
    var calls := if task in mutators then mutators[task] else [];
    mutators[task := calls + [op]]
  }

  function Tasks(assignments: seq<Assignment>): set<TaskId> {
    set i | 0 <= i < |assignments| :: assignments[i].task
  }

  /** The calls `delete` makes: a removal on the mutator of each deleted assignment's task. */
  function DeleteCalls(mutators: Mutators, toDelete: seq<Assignment>): Mutators
    decreases |toDelete|
  {
    if toDelete == [] then mutators
    else DeleteCalls(WithCall(mutators, toDelete[0].task, DeleteAssignment), toDelete[1..])
  }

  /** `delete` gives exactly the tasks of the deleted assignments a mutator, and only ever
      adds calls to an existing mutator. */
  lemma {:induction false} DeleteCallsMutators(mutators: Mutators, toDelete: seq<Assignment>)
    ensures DeleteCalls(mutators, toDelete).Keys == mutators.Keys + Tasks(toDelete)
    ensures forall t :: t in mutators ==> mutators[t] <= DeleteCalls(mutators, toDelete)[t]
    decreases |toDelete|
  {
    if toDelete != [] {
      var next := WithCall(mutators, toDelete[0].task, DeleteAssignment);
      DeleteCallsMutators(next, toDelete[1..]);
      assert Tasks(toDelete) == {toDelete[0].task} + Tasks(toDelete[1..]) by {
        forall t | t in Tasks(toDelete) ensures t in {toDelete[0].task} + Tasks(toDelete[1..]) {
          var i :| 0 <= i < |toDelete| && toDelete[i].task == t;
          if i > 0 {
            assert toDelete[1..][i - 1] == toDelete[i];
          }
        }
        forall t | t in Tasks(toDelete[1..]) ensures t in Tasks(toDelete) {
          var i :| 0 <= i < |toDelete[1..]| && toDelete[1..][i].task == t;
          assert toDelete[i + 1] == toDelete[1..][i];
        }
      }
      forall t | t in mutators ensures mutators[t] <= DeleteCalls(mutators, toDelete)[t] {
        assert mutators[t] <= next[t];
      }
    }
  }

  /** `ResourceAssignmentTableModelFx`. */
  class ResourceAssignmentTableModelFx {
    var assignments: seq<Assignment>
    var assignmentsToDelete: seq<Assignment>
    var mutators: Mutators
    /** Tasks whose mutator was committed. */
    var committed: set<TaskId>
    /** Assignments whose `delete` was called, in order. */
    var deletedLog: seq<Assignment>
    var nextKey: nat

    predicate Valid()
      reads this
    {
      UniqueKeys(assignments, KeyOf) && KeysBelow(assignments, nextKey)
    }

    /** The model over the person's assignments; keys from `nextKey` on are unused. */
    constructor(initial: seq<Assignment>, nextKey: nat)
      requires UniqueKeys(initial, KeyOf) && KeysBelow(initial, nextKey)
      ensures Valid() && assignments == initial && this.nextKey == nextKey
      ensures assignmentsToDelete == [] && mutators == map[] && committed == {} && deletedLog == []
    {
      assignments := initial;
      assignmentsToDelete := [];
      mutators := map[];
      committed := {};
      deletedLog := [];
      this.nextKey := nextKey;
    }

    /** `setValueAt`: nothing for a null value; a task on the row past the list adds an
        assignment with load 100; on an existing row only a number in column 2 changes
        anything, the load. */
    method SetValueAt(value: CellValue, row: nat, col: int)
      requires Valid()
      modifies this
      ensures Valid()
      ensures value.NullValue? || (row >= |old(assignments)| && !value.TaskValue?)
              || (row < |old(assignments)| && !(col == 2 && value.FloatValue?)) ==>
        assignments == old(assignments) && mutators == old(mutators) && nextKey == old(nextKey)
      ensures row >= |old(assignments)| && value.TaskValue? ==>
        assignments == old(assignments) + [Assignment(old(nextKey), value.task, NewAssignmentLoad)]
        && mutators == WithCall(old(mutators), value.task, AddAssignment) && nextKey == old(nextKey) + 1
      ensures row < |old(assignments)| && col == 2 && value.FloatValue? ==>
        assignments == old(assignments)[row := old(assignments)[row].(load := value.number)]
        && mutators == old(mutators) && nextKey == old(nextKey)
      ensures assignmentsToDelete == old(assignmentsToDelete) && committed == old(committed)
      ensures deletedLog == old(deletedLog)
    {
      if value.NullValue? {
        return;
      }
      if row >= |assignments| {
        if value.TaskValue? {
          CallMutator(value.task, AddAssignment);
          var ra := Assignment(nextKey, value.task, NewAssignmentLoad);
          nextKey := nextKey + 1;
          assignments := assignments + [ra];
        }
      } else if col == 2 && value.FloatValue? {
        var a := assignments[row];
        assignments := assignments[row := a.(load := value.number)];
        assert forall i :: 0 <= i < |assignments| ==> assignments[i].key == old(assignments)[i].key;
      }
    }

    /** `getMutator`: the task's mutator, created on first use. */
    method GetMutator(task: TaskId)
      modifies this
      ensures task in mutators
      ensures mutators == if task in old(mutators) then old(mutators) else old(mutators)[task := []]
      ensures assignments == old(assignments) && assignmentsToDelete == old(assignmentsToDelete)
      ensures committed == old(committed) && deletedLog == old(deletedLog) && nextKey == old(nextKey)
    {
      if task !in mutators {
        mutators := mutators[task := []];
      }
    }

    /** `getMutator(task)` and one call on the mutator. */
    method CallMutator(task: TaskId, op: MutatorOp)
      modifies this
      ensures mutators == WithCall(old(mutators), task, op)
      ensures assignments == old(assignments) && assignmentsToDelete == old(assignmentsToDelete)
      ensures committed == old(committed) && deletedLog == old(deletedLog) && nextKey == old(nextKey)
    {
      GetMutator(task);
      mutators := mutators[task := mutators[task] + [op]];
    }

    /** `delete`: the assignments on the selected rows that exist are removed from the
        list and recorded, and their tasks' mutators are told. */
    method Delete(selectedRows: seq<nat>)
      requires Valid()
      modifies this
      ensures Valid()
      ensures assignments == RemoveAll(old(assignments), Picked(old(assignments), selectedRows))
      ensures assignmentsToDelete == old(assignmentsToDelete) + Picked(old(assignments), selectedRows)
      ensures mutators == DeleteCalls(old(mutators), Picked(old(assignments), selectedRows))
      ensures committed == old(committed) && deletedLog == old(deletedLog) && nextKey == old(nextKey)
    {
      var toDelete := Picked(assignments, selectedRows);
      RecordDeletes(toDelete);
      RemoveAllUnique(assignments, toDelete, KeyOf);
      var kept := RemoveAll(assignments, toDelete);
      assert forall i :: 0 <= i < |kept| ==> kept[i] in assignments;
      assignments := kept;
    }

    /** The loop of `delete` over the assignments to delete. */
    method RecordDeletes(toDelete: seq<Assignment>)
      modifies this
      ensures assignmentsToDelete == old(assignmentsToDelete) + toDelete
      ensures mutators == DeleteCalls(old(mutators), toDelete)
      ensures assignments == old(assignments) && nextKey == old(nextKey)
      ensures committed == old(committed) && deletedLog == old(deletedLog)
    {
      var k := 0;
      while k < |toDelete|
        invariant 0 <= k <= |toDelete|
        invariant assignmentsToDelete == old(assignmentsToDelete) + toDelete[..k]
        invariant DeleteCalls(old(mutators), toDelete) == DeleteCalls(mutators, toDelete[k..])
        invariant assignments == old(assignments) && nextKey == old(nextKey)
        invariant committed == old(committed) && deletedLog == old(deletedLog)
      {
        assert toDelete[..k + 1] == toDelete[..k] + [toDelete[k]];
        assert toDelete[k..][1..] == toDelete[k + 1..];
        var ra := toDelete[k];
        assert toDelete[k..][0] == ra;
        CallMutator(ra.task, DeleteAssignment);
        assignmentsToDelete := assignmentsToDelete + [ra];
        k := k + 1;
      }
      assert toDelete[..k] == toDelete;
    }

    /** `commit`: every mutator is committed, then each recorded assignment that is no
        longer in the list is deleted. */
    method Commit()
      modifies this
      ensures committed == old(committed) + old(mutators).Keys
      ensures deletedLog == old(deletedLog) + RemoveAll(old(assignmentsToDelete), old(assignments))
      ensures assignments == old(assignments) && assignmentsToDelete == old(assignmentsToDelete)
      ensures mutators == old(mutators) && nextKey == old(nextKey)
    {
      CommitMutators();
      DeleteRemoved();
    }

    /** The first loop of `commit`: every task's mutator commits. */
    method CommitMutators()
      modifies this
      ensures committed == old(committed) + old(mutators).Keys
      ensures deletedLog == old(deletedLog)
      ensures assignments == old(assignments) && assignmentsToDelete == old(assignmentsToDelete)
      ensures mutators == old(mutators) && nextKey == old(nextKey)
    {
      var pending := mutators.Keys;
      while pending != {}
        invariant pending <= mutators.Keys
        invariant committed == old(committed) + (mutators.Keys - pending)
        invariant assignments == old(assignments) && assignmentsToDelete == old(assignmentsToDelete)
        invariant mutators == old(mutators) && nextKey == old(nextKey) && deletedLog == old(deletedLog)
        decreases pending
      {
        var t :| t in pending;
        committed := committed + {t};
        pending := pending - {t};
      }
    }

    /** The second loop of `commit`: a recorded deletion happens only when the assignment
        is no longer in the list. */
    method DeleteRemoved()
      modifies this
      ensures deletedLog == old(deletedLog) + RemoveAll(old(assignmentsToDelete), old(assignments))
      ensures committed == old(committed)
      ensures assignments == old(assignments) && assignmentsToDelete == old(assignmentsToDelete)
      ensures mutators == old(mutators) && nextKey == old(nextKey)
    {
      var deleted := StillRemoved(assignmentsToDelete, assignments);
      deletedLog := deletedLog + deleted;
    }
  }

  /** The loop of `commit` over the recorded deletions: those whose assignment is no
      longer in the list, in the order they were recorded. */
  method StillRemoved(recorded: seq<Assignment>, current: seq<Assignment>) returns (deleted: seq<Assignment>)
    ensures deleted == RemoveAll(recorded, current)
  {
    deleted := [];
    var k := 0;
    while k < |recorded|
      invariant 0 <= k <= |recorded|
      invariant deleted == RemoveAll(recorded[..k], current)
    {
      RemoveAllAppend(recorded[..k], [recorded[k]], current);
      assert recorded[..k + 1] == recorded[..k] + [recorded[k]];
      var ra := recorded[k];
      assert [ra][1..] == [];
      assert RemoveAll([ra], current) == (if ra in current then [] else [ra]) + RemoveAll([], current);
      if ra !in current {
        deleted := deleted + [ra];
      }
      k := k + 1;
    }
    assert recorded[..k] == recorded;
  }

  /** An assignment removed in the table and then added back under the same identity is
      not deleted by `commit`; one still removed is. */
  lemma CommitDeletesOnlyRemoved(recorded: seq<Assignment>, current: seq<Assignment>, ra: Assignment)
    requires ra in recorded
    ensures ra in RemoveAll(recorded, current) <==> ra !in current
  {
  }

  /** The panel's delete followed by its commit: a listed assignment is deleted exactly
      when its row was selected, whatever was staged before. */
  lemma DeleteThenCommit(assignments: seq<Assignment>, staged: seq<Assignment>, rows: seq<nat>, i: nat)
    requires UniqueKeys(assignments, KeyOf) && i < |assignments|
    ensures var picked := Picked(assignments, rows);
      assignments[i] in RemoveAll(staged + picked, RemoveAll(assignments, picked)) <==> i in rows
  {
    UniqueKeysDistinct(assignments, KeyOf);
    DeleteSelected(assignments, rows, i);
    PickedDistinct(assignments, rows, i);
  }

  /** `TaskComboTableCell.startEdit`: the task editor opens only on a row without an
      assignment. */
  function TaskEditStarts(rows: seq<Option<Assignment>>, index: nat): (starts: bool)
    requires index < |rows|
    ensures starts ==> rows[index] == None
    ensures rows[index] == None ==> starts
  {
    rows[index].None?
  }

  /** On the table's rows the task of an existing assignment is never edited: only the
      last row opens the editor. */
  lemma TaskEditOnlyOnLastRow(assignments: seq<Assignment>, index: nat)
    requires index < |Rows(assignments)|
    ensures TaskEditStarts(Rows(assignments), index) <==> index == |assignments|
  {
  }

  /** `ResourceAssignmentsPanelFx`, reduced to its table, its selection and the model. */
  class ResourceAssignmentsPanelFx {
    const innerModel: ResourceAssignmentTableModelFx
    var tableItems: seq<Option<Assignment>>
    var selectedIndex: int

    constructor(innerModel: ResourceAssignmentTableModelFx)
      ensures this.innerModel == innerModel && tableItems == [] && selectedIndex == -1
    {
      this.innerModel := innerModel;
      tableItems := [];
      selectedIndex := -1;
    }

    /** `refreshTable`: one row per assignment and the empty row; the previous selection
        comes back only when that row still exists. */
    method RefreshTable()
      requires -1 <= selectedIndex
      modifies this
      ensures tableItems == Rows(innerModel.assignments)
      ensures selectedIndex == RestoredSelection(old(selectedIndex), |tableItems|)
    {
      var currentSelection := selectedIndex;
      tableItems := [];
      selectedIndex := -1;
      var assignments := innerModel.assignments;
      var i := 0;
      while i < |assignments|
        invariant 0 <= i <= |assignments|
        invariant |tableItems| == i
        invariant forall k :: 0 <= k < i ==> tableItems[k] == Some(assignments[k])
        invariant selectedIndex == -1 && assignments == innerModel.assignments
      {
        tableItems := tableItems + [Some(assignments[i])];
        i := i + 1;
      }
      tableItems := tableItems + [None];
      if currentSelection != -1 && currentSelection < |tableItems| {
        selectedIndex := currentSelection;
      }
    }

    /** The table's delete action: the model's `delete`, then `refreshTable`. */
    method Delete(indices: seq<nat>)
      requires innerModel.Valid() && -1 <= selectedIndex
      modifies this, innerModel
      ensures innerModel.Valid()
      ensures var picked := Picked(old(innerModel.assignments), indices);
        innerModel.assignments == RemoveAll(old(innerModel.assignments), picked)
        && innerModel.assignmentsToDelete == old(innerModel.assignmentsToDelete) + picked
        && innerModel.mutators == DeleteCalls(old(innerModel.mutators), picked)
      ensures innerModel.committed == old(innerModel.committed) && innerModel.deletedLog == old(innerModel.deletedLog)
      ensures innerModel.nextKey == old(innerModel.nextKey)
      ensures tableItems == Rows(innerModel.assignments)
      ensures selectedIndex == RestoredSelection(old(selectedIndex), |tableItems|)
    {
      innerModel.Delete(indices);
      RefreshTable();
    }

    /** `commit`: the model's `commit`; the list, the recorded deletions and the mutators
        stay as they are. */
    method Commit()
      modifies innerModel
      ensures innerModel.committed == old(innerModel.committed) + old(innerModel.mutators).Keys
      ensures innerModel.deletedLog
        == old(innerModel.deletedLog) + RemoveAll(old(innerModel.assignmentsToDelete), old(innerModel.assignments))
      ensures innerModel.assignments == old(innerModel.assignments)
      ensures innerModel.assignmentsToDelete == old(innerModel.assignmentsToDelete)
      ensures innerModel.mutators == old(innerModel.mutators) && innerModel.nextKey == old(innerModel.nextKey)
    {
      innerModel.Commit();
    }
  }
}
