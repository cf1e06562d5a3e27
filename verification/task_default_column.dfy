/** The built-in task table columns: their stubs (id, visibility, order, width), value
    classes, name keys and default editability, the lookup by id, and the comparator that
    orders outline numbers such as "1.2.10". */
module TaskColumns {
  import opened Wrappers
  import opened JavaText

  // ---------------------------------------------------------------------------------------
  // The column table

  datatype TaskDefaultColumn =
    | Type | Priority | Info | Name | BeginDate | EndDate | Duration | Completion
    | Coordinator | Predecessors | Id | OutlineNumber | Cost | Resources | Color | Notes
    | Attachments

  /** `values()`: the columns in declaration order. */
  const Values: seq<TaskDefaultColumn> :=
    [Type, Priority, Info, Name, BeginDate, EndDate, Duration, Completion, Coordinator,
     Predecessors, Id, OutlineNumber, Cost, Resources, Color, Notes, Attachments]

  /** A column stub: id, display name (null in the table), visibility, order and width. */
  datatype ColumnStub = ColumnStub(id: string, name: Option<string>, visible: bool, order: int, width: int)

  function Stub(c: TaskDefaultColumn): ColumnStub {
    match c
    case Type => ColumnStub("tpd0", None, false, -1, -1)
    case Priority => ColumnStub("tpd1", None, false, -1, 50)
    case Info => ColumnStub("tpd2", None, false, -1, -1)
    case Name => ColumnStub("tpd3", None, true, 0, 200)
    case BeginDate => ColumnStub("tpd4", None, true, 1, 75)
    case EndDate => ColumnStub("tpd5", None, true, 2, 75)
    case Duration => ColumnStub("tpd6", None, false, -1, 50)
    case Completion => ColumnStub("tpd7", None, false, -1, 50)
    case Coordinator => ColumnStub("tpd8", None, false, -1, 200)
    case Predecessors => ColumnStub("tpd9", None, false, -1, 200)
    case Id => ColumnStub("tpd10", None, false, -1, 20)
    case OutlineNumber => ColumnStub("tpd11", None, false, 4, 20)
    case Cost => ColumnStub("tpd12", None, false, -1, 20)
    case Resources => ColumnStub("tpd13", None, false, -1, 20)
    case Color => ColumnStub("tpd14", None, false, -1, 20)
    case Notes => ColumnStub("tpd15", None, true, -1, 20)
    case Attachments => ColumnStub("tpd16", None, false, -1, 20)
  }

  /** The Java classes the columns hold. */
  datatype ValueClass = IconClass | StringClass | CalendarClass | IntegerClass | BigDecimalClass | ColorClass

  function ValueClassOf(c: TaskDefaultColumn): ValueClass {
    match c
    case Type | Priority | Info | Attachments => IconClass
    case Name | Coordinator | Predecessors | OutlineNumber | Resources | Notes => StringClass
    case BeginDate | EndDate => CalendarClass
    case Duration | Completion | Id => IntegerClass
    case Cost => BigDecimalClass
    case Color => ColorClass
  }

  function NameKey(c: TaskDefaultColumn): string {
    match c
    case Type => "tableColType"
    case Priority => "tableColPriority"
    case Info => "tableColInfo"
    case Name => "tableColName"
    case BeginDate => "tableColBegDate"
    case EndDate => "tableColEndDate"
    case Duration => "tableColDuration"
    case Completion => "tableColCompletion"
    case Coordinator => "tableColCoordinator"
    case Predecessors => "tableColPredecessors"
    case Id => "tableColID"
    case OutlineNumber => "tableColOutline"
    case Cost => "tableColCost"
    case Resources => "resources"
    case Color => "option.taskDefaultColor.label"
    case Notes => "notes"
    case Attachments => "webLink"
  }

  /** An editability predicate, which may be null. */
  datatype EditRule<-T> = NoRule | Rule(test: T -> bool)

  /** The predicate each column starts with: `NOT_EDITABLE`, `ALWAYS_EDITABLE` or null. */
  function DefaultRule<T>(c: TaskDefaultColumn): EditRule<T> {
    match c
    case Info | Coordinator | Id | OutlineNumber | Resources => Rule(_ => false)
    case Duration | Color | Notes | Attachments => NoRule
    case _ => Rule(_ => true)
  }

  /** `isEditable`: a null predicate allows editing, otherwise the predicate decides. */
  function IsEditable<T>(rule: EditRule<T>, task: T): (r: bool)
    ensures rule.NoRule? ==> r
    ensures rule.Rule? ==> r == rule.test(task)
  {
    rule.NoRule? || rule.test(task)
  }

  /** With the predicates the table sets, exactly the computed columns refuse editing. */
  lemma DefaultEditable<T>(c: TaskDefaultColumn, task: T)
    ensures IsEditable(DefaultRule<T>(c), task)
        <==> c !in {Info, Coordinator, Id, OutlineNumber, Resources}
  {
  }

  /** `getName`: the name key itself when no locale API is installed, else its translation. */
  function GetName(c: TaskDefaultColumn, localeApi: Option<string -> string>): (s: string)
    ensures localeApi.None? ==> s == NameKey(c)
    ensures localeApi.Some? ==> s == localeApi.value(NameKey(c))
  {
    match localeApi
    case None => NameKey(c)
    case Some(i18n) => i18n(NameKey(c))
  }

  datatype CustomPropertyClass = Text | Integer | Double | Date | Boolean

  /** `getCustomPropertyClass`: Integer, BigDecimal and GregorianCalendar have classes of
      their own; everything else is text. */
  function GetCustomPropertyClass(c: TaskDefaultColumn): (k: CustomPropertyClass)
    ensures k == Integer <==> ValueClassOf(c) == IntegerClass
    ensures k == Double <==> ValueClassOf(c) == BigDecimalClass
    ensures k == Date <==> ValueClassOf(c) == CalendarClass
    ensures k != Boolean
  {
    match ValueClassOf(c)
    case IntegerClass => Integer
    case BigDecimalClass => Double
    case CalendarClass => Date
    case _ => Text
  }

  /** Which built-in columns are numeric, dates or text, as the custom-property machinery
      sees them. */
  lemma CustomPropertyClasses(c: TaskDefaultColumn)
    ensures GetCustomPropertyClass(c) == Integer <==> c in {Duration, Completion, Id}
    ensures GetCustomPropertyClass(c) == Double <==> c == Cost
    ensures GetCustomPropertyClass(c) == Date <==> c in {BeginDate, EndDate}
  {
  }

  /** `find` specified: the first column, in declaration order, with the given stub id. */
  function FindIn(cols: seq<TaskDefaultColumn>, id: string): (r: Option<TaskDefaultColumn>)
    ensures r.Some? ==> r.value in cols && Stub(r.value).id == id
    ensures r.None? ==> forall i :: 0 <= i < |cols| ==> Stub(cols[i]).id != id
  {
    if cols == [] then None
    else if Stub(cols[0]).id == id then Some(cols[0])
    else FindIn(cols[1..], id)
  }

  /** `find(id)`: a walk over `values()` that stops at the first column with that id. */
  method Find(id: string) returns (r: Option<TaskDefaultColumn>)
    ensures r == FindIn(Values, id)
  {
    var i := 0;
    while i < |Values|
      invariant 0 <= i <= |Values|
      invariant FindIn(Values, id) == FindIn(Values[i..], id)
    {
      if Stub(Values[i]).id == id {
        return Some(Values[i]);
      }
      assert Values[i..][1..] == Values[i + 1..];
      i := i + 1;
    }
    return None;
  }

  /** The stub ids are pairwise different. */
  lemma StubIdsDistinct(c: TaskDefaultColumn, d: TaskDefaultColumn)
    requires c != d
    ensures Stub(c).id != Stub(d).id
  {
  }

  lemma {:induction false} FindInMember(cols: seq<TaskDefaultColumn>, c: TaskDefaultColumn)
    requires c in cols
    ensures FindIn(cols, Stub(c).id) == Some(c)
  {
    if cols[0] != c {
      StubIdsDistinct(cols[0], c);
      FindInMember(cols[1..], c);
    }
  }

  /** Every column is found by its own id. */
  lemma FindStub(c: TaskDefaultColumn)
    ensures FindIn(Values, Stub(c).id) == Some(c)
  {
    FindInMember(Values, c);
  }

  /** `getColumnStubs`: a fresh stub per column, in declaration order, with the column's id,
      visibility, order and width and its display name. */
  method GetColumnStubs(localeApi: Option<string -> string>) returns (result: seq<ColumnStub>)
    ensures |result| == |Values|
    ensures forall i :: 0 <= i < |Values| ==>
      result[i] == Stub(Values[i]).(name := Some(GetName(Values[i], localeApi)))
  {
    result := [];
    var i := 0;
    while i < |Values|
      invariant 0 <= i <= |Values|
      invariant |result| == i
      invariant forall k :: 0 <= k < i ==>
        result[k] == Stub(Values[k]).(name := Some(GetName(Values[k], localeApi)))
    {
      var dc := Values[i];
      var stub := Stub(dc);
      result := result + [ColumnStub(stub.id, Some(GetName(dc, localeApi)), stub.visible, stub.order, stub.width)];
      i := i + 1;
    }
  }

  // ---------------------------------------------------------------------------------------
  // Outline numbers

  /** What a `Scanner` with delimiter "." sees next: an `int`, or something else. */
  datatype Token = IntToken(value: int) | Other

  predicate ValidTokens(ts: seq<Token>) {
    forall i :: 0 <= i < |ts| ==> ts[i].IntToken? ==> IsInt32(ts[i].value)
  }

  function Signum(x: int): (s: int)
    ensures s == -1 || s == 0 || s == 1
    ensures (s < 0 <==> x < 0) && (s == 0 <==> x == 0)
  {
    if x < 0 then -1 else if x == 0 then 0 else 1
  }

  predicate HasNextInt(ts: seq<Token>, i: nat) { i < |ts| && ts[i].IntToken? }

  /** `OUTLINE_NUMBER_COMPARATOR` as written: integer pairs are compared by the sign of
      their `int` difference, which wraps around in 32 bits. */
  function CompareAsWritten(a: seq<Token>, b: seq<Token>): (r: int)
    ensures r == -1 || r == 0 || r == 1
  {
    if HasNextInt(a, 0) && HasNextInt(b, 0) then
      var diff := Wrap32(a[0].value - b[0].value);
      if diff != 0 then Signum(diff) else CompareAsWritten(a[1..], b[1..])
    else if HasNextInt(a, 0) then 1
    else if HasNextInt(b, 0) then -1
    else 0
  }

  /** The comparator as evidently intended: the sign of the exact difference. */
  function CompareOutline(a: seq<Token>, b: seq<Token>): (r: int)
    ensures r == -1 || r == 0 || r == 1
  {
    if HasNextInt(a, 0) && HasNextInt(b, 0) then
      if a[0].value != b[0].value then Signum(a[0].value - b[0].value)
      else CompareOutline(a[1..], b[1..])
    else if HasNextInt(a, 0) then 1
    else if HasNextInt(b, 0) then -1
    else 0
  }

  /** The comparator's loop: both scanners advance together while both see an `int`. */
  method Compare(a: seq<Token>, b: seq<Token>) returns (r: int)
    ensures r == CompareAsWritten(a, b)
    ensures NonNegative(a) && NonNegative(b) ==> r == CompareOutline(a, b)
  {
    if NonNegative(a) && NonNegative(b) {
      CompareNoOverflow(a, b);
    }
    var i := 0;
    while HasNextInt(a, i) && HasNextInt(b, i)
      invariant 0 <= i <= |a| && i <= |b|
      invariant CompareAsWritten(a, b) == CompareAsWritten(a[i..], b[i..])
      decreases |a| - i
    {
      var diff := Wrap32(a[i].value - b[i].value);
      if diff != 0 {
        return Signum(diff);
      }
      assert a[i..][1..] == a[i + 1..] && b[i..][1..] == b[i + 1..];
      i := i + 1;
    }
    if HasNextInt(a, i) {
      return 1;
    }
    if HasNextInt(b, i) {
      return -1;
    }
    return 0;
  }

  /** The leading run of integers: the part of an outline number the comparator reads. */
  function IntPrefix(ts: seq<Token>): (p: seq<int>)
    ensures |p| <= |ts|
    ensures forall i :: 0 <= i < |p| ==> ts[i] == IntToken(p[i])
    ensures |p| < |ts| ==> ts[|p|].Other?
  {
    if ts == [] || ts[0].Other? then [] else [ts[0].value] + IntPrefix(ts[1..])
  }

  /** Lexicographic order of integer sequences; a proper prefix is smaller. */
  function LexCompare(x: seq<int>, y: seq<int>): int {
    if x == [] && y == [] then 0
    else if x == [] then -1
    else if y == [] then 1
    else if x[0] != y[0] then Signum(x[0] - y[0])
    else LexCompare(x[1..], y[1..])
  }

  /** The intended comparator is the lexicographic order of the leading integers. */
  lemma {:induction false} CompareOutlineLex(a: seq<Token>, b: seq<Token>)
    ensures CompareOutline(a, b) == LexCompare(IntPrefix(a), IntPrefix(b))
  {
    if HasNextInt(a, 0) && HasNextInt(b, 0) && a[0].value == b[0].value {
      CompareOutlineLex(a[1..], b[1..]);
    }
  }

  lemma {:induction false} LexAntisymmetric(x: seq<int>, y: seq<int>)
    ensures LexCompare(x, y) == -LexCompare(y, x)
  {
    if x != [] && y != [] && x[0] == y[0] {
      LexAntisymmetric(x[1..], y[1..]);
    }
  }

  lemma {:induction false} LexReflexive(x: seq<int>)
    ensures LexCompare(x, x) == 0
  {
    if x != [] {
      LexReflexive(x[1..]);
    }
  }

  /** A proper prefix sorts before the longer sequence. */
  lemma {:induction false} LexPrefix(x: seq<int>, rest: seq<int>)
    requires rest != []
    ensures LexCompare(x, x + rest) == -1
  {
    if x != [] {
      assert (x + rest)[1..] == x[1..] + rest;
      LexPrefix(x[1..], rest);
    }
  }

  /** The intended comparator is antisymmetric and calls equal outline numbers equal. */
  lemma CompareOutlineOrder(a: seq<Token>, b: seq<Token>)
    ensures CompareOutline(a, b) == -CompareOutline(b, a)
    ensures IntPrefix(a) == IntPrefix(b) ==> CompareOutline(a, b) == 0
  {
    CompareOutlineLex(a, b);
    CompareOutlineLex(b, a);
    LexAntisymmetric(IntPrefix(a), IntPrefix(b));
    LexReflexive(IntPrefix(a));
  }

  /** Integers no smaller than zero, as outline numbers are. */
  predicate NonNegative(ts: seq<Token>) {
    forall i :: 0 <= i < |ts| ==> ts[i].IntToken? ==> 0 <= ts[i].value <= IntMax
  }

  /** On non-negative numbers the difference cannot wrap: the comparator as written is the
      intended one. */
  lemma {:induction false} CompareNoOverflow(a: seq<Token>, b: seq<Token>)
    requires NonNegative(a) && NonNegative(b)
    ensures CompareAsWritten(a, b) == CompareOutline(a, b)
  {
    if HasNextInt(a, 0) && HasNextInt(b, 0) {
      assert IsInt32(a[0].value - b[0].value);
      if a[0].value == b[0].value {
        assert NonNegative(a[1..]) && NonNegative(b[1..]);
        CompareNoOverflow(a[1..], b[1..]);
      }
    }
  }

  /** The difference wraps for `Integer.MIN_VALUE` against 0: each side is reported as the
      smaller one. */
  lemma CompareWrapsAround()
    ensures CompareAsWritten([IntToken(IntMin)], [IntToken(0)]) == -1
    ensures CompareAsWritten([IntToken(0)], [IntToken(IntMin)]) == -1
    ensures CompareOutline([IntToken(0)], [IntToken(IntMin)]) == 1
  {
    assert Wrap32(0 - IntMin) == IntMin;
    assert [IntToken(IntMin)][1..] == [] && [IntToken(0)][1..] == [];
  }
}
