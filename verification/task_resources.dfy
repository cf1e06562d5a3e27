/** The resources tab of the task properties dialog: an editable table of the task's
    resource assignments with an empty last row for adding one, the rule enabling the delete
    action, and the commit that also sets the task's cost. Assignments are values with a
    key standing for their identity; the calls made on the task's assignment collection are
    kept as logs. */
module TaskResources {
  import opened Wrappers
  import opened AssignmentTable

  /** A human resource, with the role it has by default. */
  datatype Resource = Resource(id: nat, name: string, role: string)

  /** A resource assignment; `role` is `None` while it is whatever `addAssignment` chose. */
  datatype Assignment = Assignment(key: nat, resource: Resource, load: real, isCoordinator: bool, role: Option<string>)

  /** A value handed to `setValueAt`. */
  datatype CellValue = NullValue | ResourceValue(resource: Resource) | RoleValue(role: string)
                     | BoolValue(flag: bool) | TextValue(text: string)

  /** A call on the assignment collection's mutator. */
  datatype MutatorOp = AddAssignment(resource: Resource) | DeleteAssignment(resource: Resource)

  const NewAssignmentLoad: real := 100.0

  /** The table model's state: its assignment list, the mutator calls and the assignments
      whose `delete` was called, in order, and the key the next new assignment gets. */
  datatype TableState = TableState(assignments: seq<Assignment>, mutatorOps: seq<MutatorOp>,
                                   deleted: seq<Assignment>, nextKey: nat)

  predicate KeysBelow(s: seq<Assignment>, bound: nat) {
    forall i :: 0 <= i < |s| ==> s[i].key < bound
  }

  function KeyOf(a: Assignment): nat { a.key }

  /** No two assignments share a key, and every key was handed out already. */
  predicate ValidState(st: TableState) {
    UniqueKeys(st.assignments, KeyOf) && KeysBelow(st.assignments, st.nextKey)
  }

  /** `createAssignment`: a resource becomes a new assignment at the end, with load 100,
      the resource's role, and the coordinator flag when it is the first one; any other
      value is ignored. */
  function CreateAssignment(st: TableState, value: CellValue): (r: TableState)
    ensures value.ResourceValue? ==>
      r.assignments == st.assignments
        + [Assignment(st.nextKey, value.resource, NewAssignmentLoad, st.assignments == [], Some(value.resource.role))]
      && r.mutatorOps == st.mutatorOps + [AddAssignment(value.resource)] && r.deleted == st.deleted
    ensures !value.ResourceValue? ==> r == st
    ensures ValidState(st) ==> ValidState(r)
  {
    if value.ResourceValue? then
      var a := Assignment(st.nextKey, value.resource, NewAssignmentLoad, st.assignments == [], Some(value.resource.role));
      TableState(st.assignments + [a], st.mutatorOps + [AddAssignment(value.resource)], st.deleted, st.nextKey + 1)
    else st
  }

  /** `updateAssignment` of the assignment on `row`; `parsedLoad` is `value.toString().toFloat()`,
      `None` when that throws. */
  function UpdateAssignment(st: TableState, value: CellValue, row: nat, col: int, parsedLoad: Option<real>): (r: TableState)
    requires row < |st.assignments|
    ensures col == 1 && value.NullValue? ==>
      r.assignments == st.assignments[..row] + st.assignments[row + 1..]
      && r.deleted == st.deleted + [st.assignments[row]] && r.mutatorOps == st.mutatorOps
      && r.nextKey == st.nextKey
    ensures col == 1 && value.ResourceValue? ==>
      |r.assignments| == |st.assignments|
      && (forall i :: 0 <= i < |st.assignments| && i != row ==> r.assignments[i] == st.assignments[i])
      && r.assignments[row].resource == value.resource
      && r.assignments[row].load == st.assignments[row].load
      && r.assignments[row].isCoordinator == st.assignments[row].isCoordinator
      && r.assignments[row].role.None? && r.nextKey == st.nextKey + 1
      && r.mutatorOps == st.mutatorOps + [DeleteAssignment(st.assignments[row].resource), AddAssignment(value.resource)]
      && r.deleted == st.deleted + [st.assignments[row]]
    ensures col == 1 && value.ResourceValue? && KeysBelow(st.assignments, st.nextKey) ==>
      r.assignments[row] !in st.assignments
    ensures col == 2 && parsedLoad.Some? ==>
      r == st.(assignments := st.assignments[row := st.assignments[row].(load := parsedLoad.value)])
    ensures col == 3 && value.BoolValue? ==>
      r == st.(assignments := st.assignments[row := st.assignments[row].(isCoordinator := value.flag)])
    ensures col == 4 && value.RoleValue? ==>
      r == st.(assignments := st.assignments[row := st.assignments[row].(role := Some(value.role))])
    ensures ((col == 2 && parsedLoad.None?) || (col == 3 && !value.BoolValue?) || (col == 4 && !value.RoleValue?)
             || (col == 1 && !value.NullValue? && !value.ResourceValue?) || !(1 <= col <= 4)) ==> r == st
    ensures ValidState(st) ==> ValidState(r)
  {
    var a := st.assignments[row];
    if col == 4 then
      if value.RoleValue? then Updated(st, row, a.(role := Some(value.role))) else st
    else if col == 3 then
      if value.BoolValue? then Updated(st, row, a.(isCoordinator := value.flag)) else st
    else if col == 2 then
      if parsedLoad.Some? then Updated(st, row, a.(load := parsedLoad.value)) else st
    else if col == 1 then
      if value.NullValue? then
        RemoveAtValid(st, row);
        st.(assignments := st.assignments[..row] + st.assignments[row + 1..], deleted := st.deleted + [a])
      else if value.ResourceValue? then
        var b := Assignment(st.nextKey, value.resource, a.load, a.isCoordinator, None);
        ReplaceValid(st, row, b);
        TableState(st.assignments[row := b],
                   st.mutatorOps + [DeleteAssignment(a.resource), AddAssignment(value.resource)],
                   st.deleted + [a], st.nextKey + 1)
      else st
    else st
  }

  /** The assignment on `row` with some of its fields changed in place. */
  function Updated(st: TableState, row: nat, b: Assignment): (r: TableState)
    requires row < |st.assignments| && b.key == st.assignments[row].key
    ensures r == st.(assignments := st.assignments[row := b])
    ensures ValidState(st) ==> ValidState(r)
  {
    var r := st.(assignments := st.assignments[row := b]);
    assert forall i :: 0 <= i < |r.assignments| ==> r.assignments[i].key == st.assignments[i].key;
    r
  }

  lemma RemoveAtValid(st: TableState, row: nat)
    requires row < |st.assignments|
    ensures ValidState(st) ==> ValidState(st.(assignments := st.assignments[..row] + st.assignments[row + 1..]))
  {
    if ValidState(st) {
      RemoveAtUnique(st.assignments, row, KeyOf);
      var r := st.assignments[..row] + st.assignments[row + 1..];
      forall i | 0 <= i < |r| ensures r[i].key < st.nextKey {
        assert r[i] in st.assignments;
      }
    }
  }

  lemma ReplaceValid(st: TableState, row: nat, b: Assignment)
    requires row < |st.assignments| && b.key == st.nextKey
    ensures KeysBelow(st.assignments, st.nextKey) ==> b !in st.assignments
    ensures ValidState(st) ==> ValidState(st.(assignments := st.assignments[row := b], nextKey := st.nextKey + 1))
  {
    if KeysBelow(st.assignments, st.nextKey) {
      forall i | 0 <= i < |st.assignments| ensures st.assignments[i] != b {
        assert st.assignments[i].key < st.nextKey;
      }
    }
  }

  /** `setValueAt`: a row past the list creates an assignment, an existing row is updated. */
  function SetValueAtState(st: TableState, value: CellValue, row: nat, col: int, parsedLoad: Option<real>): (r: TableState)
    ensures ValidState(st) ==> ValidState(r)
    ensures row >= |st.assignments| ==> r == CreateAssignment(st, value)
    ensures row < |st.assignments| ==> r == UpdateAssignment(st, value, row, col, parsedLoad)
  {
    if row >= |st.assignments| then CreateAssignment(st, value) else UpdateAssignment(st, value, row, col, parsedLoad)
  }

  /** Removing assignments keeps the keys unique and below the next key. */
  lemma RemoveAllValid(s: seq<Assignment>, xs: seq<Assignment>, nextKey: nat)
    requires UniqueKeys(s, KeyOf) && KeysBelow(s, nextKey)
    ensures UniqueKeys(RemoveAll(s, xs), KeyOf) && KeysBelow(RemoveAll(s, xs), nextKey)
  {
    RemoveAllUnique(s, xs, KeyOf);
    var kept := RemoveAll(s, xs);
    forall i | 0 <= i < |kept| ensures kept[i].key < nextKey {
      assert kept[i] in s;
    }
  }

  /** `ResourceAssignmentTableModel`. */
  class ResourceAssignmentTableModel {
    var assignments: seq<Assignment>
    var mutatorOps: seq<MutatorOp>
    var deleted: seq<Assignment>
    var nextKey: nat
    var committed: bool
    /** `value.toString().toFloat()`, `None` for a NumberFormatException. */
    const parseLoad: CellValue -> Option<real>

    function State(): TableState
      reads this
    {
      TableState(assignments, mutatorOps, deleted, nextKey)
    }

    predicate Valid()
      reads this
    {
      ValidState(State())
    }

    /** The model over the task's assignments; keys from `nextKey` on are unused. */
    constructor(initial: seq<Assignment>, nextKey: nat, parseLoad: CellValue -> Option<real>)
      requires UniqueKeys(initial, KeyOf) && KeysBelow(initial, nextKey)
      ensures Valid() && assignments == initial && this.nextKey == nextKey && this.parseLoad == parseLoad
      ensures mutatorOps == [] && deleted == [] && !committed
    {
      assignments := initial;
      mutatorOps := [];
      deleted := [];
      this.nextKey := nextKey;
      committed := false;
      this.parseLoad := parseLoad;
    }

    /** `assignments`: a copy of the list. */
    function Assignments(): (r: seq<Assignment>)
      reads this
      ensures r == assignments
    {
      assignments
    }

    method SetValueAt(value: CellValue, row: nat, col: int)
      requires Valid()
      modifies this
      ensures Valid()
      ensures State() == SetValueAtState(old(State()), value, row, col, parseLoad(value))
      ensures committed == old(committed)
    {
      if row >= |assignments| {
        CreateAssignmentFrom(value);
      } else {
        UpdateAssignmentAt(value, row, col);
      }
    }

    method CreateAssignmentFrom(value: CellValue)
      requires Valid()
      modifies this
      ensures Valid()
      ensures State() == CreateAssignment(old(State()), value)
      ensures committed == old(committed)
    {
      if value.ResourceValue? {
        var a := Assignment(nextKey, value.resource, NewAssignmentLoad, assignments == [], Some(value.resource.role));
        mutatorOps := mutatorOps + [AddAssignment(value.resource)];
        assignments := assignments + [a];
        nextKey := nextKey + 1;
      }
    }

    method UpdateAssignmentAt(value: CellValue, row: nat, col: int)
      requires Valid() && row < |assignments|
      modifies this
      ensures Valid()
      ensures State() == UpdateAssignment(old(State()), value, row, col, parseLoad(value))
      ensures committed == old(committed)
    {
      var a := assignments[row];
      if col == 4 {
        if value.RoleValue? {
          assignments := assignments[row := a.(role := Some(value.role))];
        }
      } else if col == 3 {
        if value.BoolValue? {
          assignments := assignments[row := a.(isCoordinator := value.flag)];
        }
      } else if col == 2 {
        var load := parseLoad(value);
        if load.Some? {
          assignments := assignments[row := a.(load := load.value)];
        }
      } else if col == 1 {
        if value.NullValue? {
          deleted := deleted + [a];
          assignments := assignments[..row] + assignments[row + 1..];
        } else if value.ResourceValue? {
          deleted := deleted + [a];
          mutatorOps := mutatorOps + [DeleteAssignment(a.resource)];
          var b := Assignment(nextKey, value.resource, a.load, a.isCoordinator, None);
          mutatorOps := mutatorOps + [AddAssignment(value.resource)];
          assignments := assignments[row := b];
          nextKey := nextKey + 1;
        }
      }
    }

    /** `delete`: the assignments on the selected rows past the list's end are ignored, the
        others are deleted and removed from the list. */
    method Delete(selectedRows: seq<nat>)
      requires Valid()
      modifies this
      ensures Valid()
      ensures assignments == RemoveAll(old(assignments), Picked(old(assignments), selectedRows))
      ensures deleted == old(deleted) + Picked(old(assignments), selectedRows)
      ensures mutatorOps == old(mutatorOps) && nextKey == old(nextKey) && committed == old(committed)
    {
      var toDelete := Picked(assignments, selectedRows);
      var kept := RemoveAll(assignments, toDelete);
      RemoveAllValid(assignments, toDelete, nextKey);
      RecordDeleted(toDelete);
      assignments := kept;
    }

    /** The `forEach` that hands each assignment to delete to the mutator. */
    method RecordDeleted(toDelete: seq<Assignment>)
      modifies this
      ensures deleted == old(deleted) + toDelete
      ensures assignments == old(assignments) && mutatorOps == old(mutatorOps)
      ensures nextKey == old(nextKey) && committed == old(committed)
    {
      var k := 0;
      while k < |toDelete|
        invariant 0 <= k <= |toDelete|
        invariant deleted == old(deleted) + toDelete[..k]
        invariant assignments == old(assignments) && mutatorOps == old(mutatorOps)
        invariant nextKey == old(nextKey) && committed == old(committed)
      {
        assert toDelete[..k + 1] == toDelete[..k] + [toDelete[k]];
        deleted := deleted + [toDelete[k]];
        k := k + 1;
      }
      assert toDelete[..k] == toDelete;
    }

    /** `commit`: the mutator's changes go to the task. */
    method Commit()
      modifies this
      ensures committed && State() == old(State())
    {
      committed := true;
    }
  }

  /** The new cost of the task: zero and calculated, or the entered value. */
  datatype CostStub = CostStub(value: real, isCalculated: bool)

  function CostOf(costIsCalculated: bool, costValue: real): (cost: CostStub)
    ensures cost.isCalculated == costIsCalculated
    ensures cost.value == if costIsCalculated then 0.0 else costValue
  {
    if costIsCalculated then CostStub(0.0, true) else CostStub(costValue, false)
  }

  /** `TaskResourcesPanel`, reduced to its table, its selection and its cost options. */
  class TaskResourcesPanel {
    const model: ResourceAssignmentTableModel
    var tableItems: seq<Option<Assignment>>
    var selectedRow: int
    var costIsCalculated: bool
    var costValue: real

    constructor(model: ResourceAssignmentTableModel, costIsCalculated: bool, costValue: real)
      ensures this.model == model && tableItems == [] && selectedRow == -1
      ensures this.costIsCalculated == costIsCalculated && this.costValue == costValue
    {
      this.model := model;
      tableItems := [];
      selectedRow := -1;
      this.costIsCalculated := costIsCalculated;
      this.costValue := costValue;
    }

    /** `refreshTable`: one row per assignment and the empty row, keeping the selection
        when its row is still there. */
    method RefreshTable()
      modifies this
      ensures tableItems == Rows(model.assignments)
      ensures selectedRow == RestoredSelection(old(selectedRow), |tableItems|)
      ensures costIsCalculated == old(costIsCalculated) && costValue == old(costValue)
    {
      var currentSelection := selectedRow;
      var assignments := model.Assignments();
      tableItems := [];
      var i := 0;
      while i < |assignments|
        invariant 0 <= i <= |assignments|
        invariant |tableItems| == i
        invariant forall k :: 0 <= k < i ==> tableItems[k] == Some(assignments[k])
        invariant costIsCalculated == old(costIsCalculated) && costValue == old(costValue)
      {
        tableItems := tableItems + [Some(assignments[i])];
        i := i + 1;
      }
      tableItems := tableItems + [None];
      selectedRow := RestoredSelection(currentSelection, |tableItems|);
    }

    /** `updateActions`: delete is enabled for a selected row other than the last. */
    function DeleteEnabled(): (enabled: bool)
      reads this
      ensures enabled ==> 0 <= selectedRow < |tableItems| && selectedRow != |tableItems| - 1
      ensures 0 <= selectedRow < |tableItems| - 1 ==> enabled
    {
      selectedRow >= 0 && selectedRow < |tableItems| - 1
    }

    /** The delete action: with a row selected, its assignment goes to the model's `delete`
        and the table is rebuilt; with none, nothing happens. */
    method DeleteSelectedRow()
      requires model.Valid()
      modifies this, model
      ensures model.Valid()
      ensures old(selectedRow) >= 0 ==>
        var picked := Picked(old(model.assignments), [old(selectedRow) as nat]);
        model.assignments == RemoveAll(old(model.assignments), picked)
        && model.deleted == old(model.deleted) + picked
        && tableItems == Rows(model.assignments)
        && selectedRow == RestoredSelection(old(selectedRow), |tableItems|)
      ensures old(selectedRow) < 0 ==>
        model.State() == old(model.State()) && tableItems == old(tableItems) && selectedRow == old(selectedRow)
      ensures model.mutatorOps == old(model.mutatorOps) && model.nextKey == old(model.nextKey)
      ensures model.committed == old(model.committed)
      ensures costIsCalculated == old(costIsCalculated) && costValue == old(costValue)
    {
      if selectedRow >= 0 {
        model.Delete([selectedRow as nat]);
        RefreshTable();
      }
    }

    /** `commit`: the table's changes, then the cost. */
    method Commit() returns (cost: CostStub)
      modifies model
      ensures model.committed && model.State() == old(model.State())
      ensures cost == CostOf(costIsCalculated, costValue)
    {
      model.Commit();
      if costIsCalculated {
        cost := CostStub(0.0, true);
      } else {
        cost := CostStub(costValue, false);
      }
    }
  }

  /** On a table built from the model's list, delete is enabled exactly when the selected
      row holds an assignment, never on the empty row; every assignment row can be
      deleted. */
  lemma DeleteEnabledOnAssignmentRows(panel: TaskResourcesPanel)
    requires panel.tableItems == Rows(panel.model.assignments)
    ensures panel.DeleteEnabled()
        <==> 0 <= panel.selectedRow < |panel.model.assignments|
             && panel.tableItems[panel.selectedRow] == Some(panel.model.assignments[panel.selectedRow])
  {
  }

  lemma DeleteRemovesSelected(st: TableState, selectedRows: seq<nat>, i: nat)
    requires ValidState(st) && i < |st.assignments|
    ensures st.assignments[i] in RemoveAll(st.assignments, Picked(st.assignments, selectedRows))
        <==> i !in selectedRows
  {
    UniqueKeysDistinct(st.assignments, KeyOf);
    DeleteSelected(st.assignments, selectedRows, i);
  }

  /** Any sequence of edits keeps assignments distinct: a refresh shows each one once. */
  lemma {:induction false} EditsKeepValid(st: TableState, edits: seq<(CellValue, nat, int, Option<real>)>)
    requires ValidState(st)
    ensures ValidState(ApplyEdits(st, edits))
    decreases |edits|
  {
    if edits != [] {
      var e := edits[0];
      EditsKeepValid(SetValueAtState(st, e.0, e.1, e.2, e.3), edits[1..]);
    }
  }

  function ApplyEdits(st: TableState, edits: seq<(CellValue, nat, int, Option<real>)>): TableState
    decreases |edits|
  {
    if edits == [] then st
    else ApplyEdits(SetValueAtState(st, edits[0].0, edits[0].1, edits[0].2, edits[0].3), edits[1..])
  }
}
