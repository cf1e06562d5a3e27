/** Loading tasks from a project file: the XML task records (already read from the file)
    become tasks of the task manager, with their attributes sanitised; their dependencies
    are collected as records and later turned into dependencies between known tasks; and the
    timeline of the Gantt view is rebuilt from its list of ids. The task manager is a map
    from id to task. Conversions done by code outside the loader (XML dates, colours,
    priorities, constraint types, URL decoding, decimal numbers) are kept as the text they
    are applied to. */
module TaskSerializer {
  import opened Wrappers
  import opened JavaText
  import DateParser

  type TaskId = int

  /** A `<depend>` element of a task. */
  datatype XmlDependency = XmlDependency(id: TaskId, lag: int, depType: string, hardness: string)

  /** A `<customproperty>` element: the definition id and the value, if any. */
  datatype XmlCustomProperty = XmlCustomProperty(propId: string, value: Option<string>)

  /** A `<task>` element; absent attributes are `None`. */
  datatype XmlTask = XmlTask(
    id: TaskId, name: string, uid: string, startDate: string, duration: int,
    isExpanded: bool, isMilestone: bool, isProjectTask: bool, completion: int, priority: string,
    color: Option<string>, legacyFixedStart: Option<string>, earliestStartDate: Option<string>,
    thirdDateConstraint: Option<int>, webLink: Option<string>, shape: Option<string>,
    costManualValue: Option<real>, isCostCalculated: Option<bool>, notes: Option<string>,
    dependencies: Option<seq<XmlDependency>>, customPropertyValues: seq<XmlCustomProperty>)

  /** `CostStub`: a manual value and whether the cost is calculated instead. */
  datatype Cost = Cost(value: real, isCalculated: bool)

  /** A custom property value, by the declared type of its definition. A double keeps the
      text `Double.valueOf` reads; a date is what the ISO 8601 parser returns. */
  datatype CustomValue =
    | TextValue(text: string)
    | BoolValue(flag: bool)
    | IntValue(number: int)
    | DoubleValue(digits: string)
    | DateValue(date: DateParser.Parsed)

  /** The declared class of a custom property definition. */
  datatype PropertyType = StringType | BooleanType | IntegerType | DoubleType | DateType | OtherType

  /** A task as the loader leaves it. `None` stands for the task's default where the loader
      does not set the attribute. */
  datatype Task = Task(
    id: TaskId, name: string, uid: Option<string>, start: Option<string>, duration: nat,
    parent: Option<TaskId>, expanded: bool, legacyMilestone: bool,
    isProjectTask: bool, completion: int, priority: string, color: Option<string>,
    thirdDate: Option<string>, thirdDateConstraint: int, webLink: Option<string>,
    shape: Option<seq<int>>, cost: Option<Cost>, notes: Option<string>,
    customValues: map<string, CustomValue>)

  /** Why loading a task stopped: an exception the loader does not catch. */
  datatype LoadError =
    | ShapeNotAnInt(token: string)
    | ShapeTooLong(index: nat)
    | CustomNotAnInt(propId: string, text: string)
    | CustomDateNoSuchElement(propId: string, text: string)
    | MalformedWebLink(text: string)

  /** The task manager: its tasks by id, the custom property definitions by id, the
      dependencies created so far, and the dependency collection's refusal of a new
      dependency (a `TaskDependencyException`). `urlDecode` stands for
      `URLDecoder.decode(text, "UTF-8")`: the decoded text, or `None` for the
      IllegalArgumentException a malformed escape such as "%zz" raises. */
  class TaskManager {
    var tasks: map<TaskId, Task>
    var dependencies: seq<Dependency>
    const customDefs: map<string, PropertyType>
    const refuses: (TaskId, TaskId) -> bool
    const urlDecode: string -> Option<string>

    constructor(customDefs: map<string, PropertyType>, refuses: (TaskId, TaskId) -> bool,
                urlDecode: string -> Option<string>)
      ensures tasks == map[] && dependencies == []
      ensures this.customDefs == customDefs && this.refuses == refuses && this.urlDecode == urlDecode
    {
      tasks := map[];
      dependencies := [];
      this.customDefs := customDefs;
      this.refuses := refuses;
      this.urlDecode := urlDecode;
    }
  }

  // ---------------------------------------------------------------------------------------
  // The task itself

  /** The duration a task gets: a negative one in the file becomes 1. */
  function Duration(d: int): (r: nat)
    ensures d >= 0 ==> r == d
    ensures d < 0 ==> r == 1
  {
    if d >= 0 then d else 1
  }

  /** The parent of the new task: the task loaded for the XML parent, or none when there
      is no XML parent or it has not been loaded. */
  function ParentTask(loaded: map<XmlTask, TaskId>, parent: Option<XmlTask>): (p: Option<TaskId>)
    ensures p.Some? <==> parent.Some? && parent.value in loaded
    ensures p.Some? ==> p.value == loaded[parent.value]
  {
    if parent.Some? && parent.value in loaded then Some(loaded[parent.value]) else None
  }

  /** What the task builder makes of the element before the task exists. */
  function Built(parentTask: Option<TaskId>, child: XmlTask): Task {
    Task(child.id, child.name,
      if IsBlank(child.uid) then None else Some(child.uid),
      if IsBlank(child.startDate) then None else Some(child.startDate),
      Duration(child.duration), parentTask, child.isExpanded, child.isMilestone,
      false, 0, "", None, None, 0, None, None, None, None, map[])
  }

  /** The attributes set on the built task before its web link is decoded. */
  function WithAttributes(t: Task, child: XmlTask): Task {
    t.(isProjectTask := child.isProjectTask, completion := child.completion,
       priority := child.priority,
       color := if child.color.Some? then child.color else t.color,
       thirdDate := if child.earliestStartDate.Some? then child.earliestStartDate else t.thirdDate,
       thirdDateConstraint := if child.thirdDateConstraint.Some? then child.thirdDateConstraint.value else 0)
  }

  /** The web link attribute decoded: none when it is absent, the decoded text, or the
      IllegalArgumentException that escapes `loadTask` (only UnsupportedEncodingException
      is caught). */
  function WebLinkOf(child: XmlTask, urlDecode: string -> Option<string>): (r: Result<Option<string>, LoadError>)
    ensures child.webLink.None? ==> r == Ok(None)
    ensures child.webLink.Some? ==> (r.Ok? <==> urlDecode(child.webLink.value).Some?)
    ensures r.Ok? && child.webLink.Some? ==> r.value == urlDecode(child.webLink.value)
    ensures r.Err? ==> child.webLink.Some? && r.error == MalformedWebLink(child.webLink.value)
  {
    match child.webLink
    case None => Ok(None)
    case Some(text) =>
      (match urlDecode(text)
       case Some(decoded) => Ok(Some(decoded))
       case None => Err(MalformedWebLink(text)))
  }

  /** The cost a task gets: a missing manual value is 0 and a missing flag says the cost is
      calculated. */
  function CostOf(child: XmlTask): (c: Cost)
    ensures child.costManualValue.None? ==> c.value == 0.0
    ensures child.costManualValue.Some? ==> c.value == child.costManualValue.value
    ensures c.isCalculated <==> child.isCostCalculated != Some(false)
  {
    Cost(if child.costManualValue.Some? then child.costManualValue.value else 0.0,
         if child.isCostCalculated.Some? then child.isCostCalculated.value else true)
  }

  // ---------------------------------------------------------------------------------------
  // The shape: at most 16 comma-separated ints

  const ShapeSlots: nat := 16

  /** The tokens a `StringTokenizer` with delimiter ',' returns: the non-empty pieces
      between commas. */
  function Tokens(s: string): (ts: seq<string>)
    ensures forall i :: 0 <= i < |ts| ==> ts[i] != [] && ',' !in ts[i]
    ensures forall t :: t in ts <==> t in Split(s, ',') && t != []
  {
    NonEmpty(Split(s, ','))
  }

  /** The non-empty pieces, in order. */
  function NonEmpty(pieces: seq<string>): (r: seq<string>)
    requires forall i :: 0 <= i < |pieces| ==> ',' !in pieces[i]
    ensures forall i :: 0 <= i < |r| ==> r[i] != [] && ',' !in r[i]
    ensures forall p :: p in r <==> p in pieces && p != []
    ensures |r| <= |pieces|
  {
    if pieces == [] then []
    else (if pieces[0] == [] then [] else [pieces[0]]) + NonEmpty(pieces[1..])
  }

  /** Dropping the empty pieces works piece by piece, so the order is kept. */
  lemma {:induction false} NonEmptyAppend(a: seq<string>, b: seq<string>)
    requires forall i :: 0 <= i < |a| ==> ',' !in a[i]
    requires forall i :: 0 <= i < |b| ==> ',' !in b[i]
    ensures NonEmpty(a + b) == NonEmpty(a) + NonEmpty(b)
  {
    if a == [] {
      assert a + b == b;
    } else {
      assert (a + b)[0] == a[0] && (a + b)[1..] == a[1..] + b;
      NonEmptyAppend(a[1..], b);
    }
  }

  /** Pieces that are all non-empty are kept as they are. */
  lemma {:induction false} NonEmptyKeepsAll(pieces: seq<string>)
    requires forall i :: 0 <= i < |pieces| ==> pieces[i] != [] && ',' !in pieces[i]
    ensures NonEmpty(pieces) == pieces
  {
    if pieces != [] {
      NonEmptyKeepsAll(pieces[1..]);
    }
  }

  /** Non-empty tokens without commas, joined with commas, tokenize back to themselves. */
  lemma TokensJoin(ts: seq<string>)
    requires forall i :: 0 <= i < |ts| ==> ts[i] != [] && ',' !in ts[i]
    ensures Tokens(Join(ts, ",")) == ts
  {
    if ts == [] {
      assert Split("", ',') == [""];
    } else {
      SplitJoin(ts, ',');
      NonEmptyKeepsAll(ts);
    }
  }

  /** Token `i` can be stored: it is an int and there is a slot for it. */
  predicate Fits(tokens: seq<string>, i: int) {
    0 <= i < |tokens| && i < ShapeSlots && ParseInt(tokens[i]).Some?
  }

  /** The first token that cannot be stored, if any. */
  function FirstMisfit(tokens: seq<string>, from: nat): (m: Option<nat>)
    requires from <= |tokens|
    requires forall j :: 0 <= j < from ==> Fits(tokens, j)
    ensures m.None? ==> forall j :: 0 <= j < |tokens| ==> Fits(tokens, j)
    ensures m.Some? ==> (from <= m.value < |tokens| && !Fits(tokens, m.value)
                         && forall j :: 0 <= j < m.value ==> Fits(tokens, j))
    decreases |tokens| - from
  {
    if from == |tokens| then None
    else if !Fits(tokens, from) then Some(from)
    else FirstMisfit(tokens, from + 1)
  }

  /** The exception token `i` raises: `toInt` is evaluated before the array store. */
  function Misfit(tokens: seq<string>, i: int): LoadError
    requires 0 <= i < |tokens|
  {
    if ParseInt(tokens[i]).None? then ShapeNotAnInt(tokens[i]) else ShapeTooLong(i)
  }

  /** Token `i` is the first that cannot be stored. */
  predicate ShapeFailsAt(tokens: seq<string>, i: int) {
    0 <= i < |tokens| && !Fits(tokens, i) && forall j :: 0 <= j < i ==> Fits(tokens, j)
  }

  /** The 16 shape slots: the tokens' values from slot 0 on, zero after them. */
  function Slots(tokens: seq<string>, count: nat): (slots: seq<int>)
    requires count <= |tokens| && count <= ShapeSlots
    requires forall j :: 0 <= j < count ==> ParseInt(tokens[j]).Some?
    ensures |slots| == ShapeSlots
  {
    seq(ShapeSlots, i requires 0 <= i < ShapeSlots =>
      if i < count then ParseInt(tokens[i]).value else 0)
  }

  /** Storing the next token's value in the slots. */
  lemma SlotsStep(tokens: seq<string>, count: nat)
    requires count < |tokens| && count < ShapeSlots
    requires forall j :: 0 <= j <= count ==> ParseInt(tokens[j]).Some?
    ensures Slots(tokens, count)[count := ParseInt(tokens[count]).value] == Slots(tokens, count + 1)
  {
  }

  /** The shape read from the tokens: the filled slots, or the first token's failure. */
  function Shape(tokens: seq<string>): (r: Result<seq<int>, LoadError>)
    ensures r.Ok? <==> |tokens| <= ShapeSlots && forall j :: 0 <= j < |tokens| ==> ParseInt(tokens[j]).Some?
    ensures r.Ok? ==> |r.value| == ShapeSlots
    ensures r.Ok? ==> forall j :: 0 <= j < |tokens| ==> r.value[j] == ParseInt(tokens[j]).value
    ensures r.Ok? ==> forall j :: |tokens| <= j < ShapeSlots ==> r.value[j] == 0
    ensures r.Err? ==> exists i :: 0 <= i < |tokens| && ShapeFailsAt(tokens, i) && r.error == Misfit(tokens, i)
  {
    match FirstMisfit(tokens, 0)
    case None =>
      assert |tokens| > ShapeSlots ==> !Fits(tokens, ShapeSlots);
      assert forall j :: 0 <= j < |tokens| ==> ParseInt(tokens[j]).Some? by {
        forall j | 0 <= j < |tokens| ensures ParseInt(tokens[j]).Some? {
          assert Fits(tokens, j);
        }
      }
      Ok(Slots(tokens, |tokens|))
    case Some(i) => Err(Misfit(tokens, i))
  }

  /** The first token that cannot be stored decides the failure. */
  lemma ShapeFailure(tokens: seq<string>, i: nat)
    requires i < |tokens| && ShapeFailsAt(tokens, i)
    ensures Shape(tokens) == Err(Misfit(tokens, i))
  {
    var r := Shape(tokens);
    assert i >= ShapeSlots || ParseInt(tokens[i]).None?;
    assert r.Err?;
    var k: int :| 0 <= k < |tokens| && ShapeFailsAt(tokens, k) && r.error == Misfit(tokens, k);
    assert i < k ==> Fits(tokens, i);
    assert k < i ==> Fits(tokens, k);
  }

  /** When every token can be stored, the shape is the filled slots. */
  lemma ShapeSuccess(tokens: seq<string>)
    requires forall j :: 0 <= j < |tokens| ==> Fits(tokens, j)
    ensures |tokens| <= ShapeSlots
    ensures forall j :: 0 <= j < |tokens| ==> ParseInt(tokens[j]).Some?
    ensures Shape(tokens) == Ok(Slots(tokens, |tokens|))
  {
    assert |tokens| > ShapeSlots ==> Fits(tokens, ShapeSlots);
    forall j | 0 <= j < |tokens| ensures ParseInt(tokens[j]).Some? {
      assert Fits(tokens, j);
    }
    assert FirstMisfit(tokens, 0).None?;
  }

  /** The loop of `loadTask` that fills the shape array, token by token. */
  method ReadShape(text: string) returns (r: Result<seq<int>, LoadError>)
    ensures r == Shape(Tokens(text))
  {
    var tokens := Tokens(text);
    var slots := new int[ShapeSlots](i => 0);
    var count := 0;
    while count < |tokens|
      invariant 0 <= count <= |tokens| && count <= ShapeSlots
      invariant forall j :: 0 <= j < count ==> Fits(tokens, j)
      invariant forall j :: 0 <= j < count ==> ParseInt(tokens[j]).Some?
      invariant slots[..] == Slots(tokens, count)
    {
      var token := tokens[count];
      var value := ParseInt(token);
      if value.None? {
        ShapeFailure(tokens, count);
        return Err(ShapeNotAnInt(token));
      }
      if count >= ShapeSlots {
        ShapeFailure(tokens, count);
        return Err(ShapeTooLong(count));
      }
      SlotsStep(tokens, count);
      slots[count] := value.value;
      count := count + 1;
    }
    ShapeSuccess(tokens);
    return Ok(slots[..]);
  }

  /** A shape of at most 16 ints is read back in full, zero-padded. */
  lemma ShapeShortList(tokens: seq<string>, values: seq<int>)
    requires |tokens| == |values| <= ShapeSlots
    requires forall j :: 0 <= j < |tokens| ==> ParseInt(tokens[j]) == Some(values[j])
    ensures Shape(tokens).Ok? && Shape(tokens).value == values + seq(ShapeSlots - |values|, _ => 0)
  {
    var r := Shape(tokens);
    var expected := values + seq(ShapeSlots - |values|, _ => 0);
    assert forall j :: 0 <= j < ShapeSlots ==> r.value[j] == expected[j];
  }

  /** Seventeen ints are too many: loading the task fails. */
  lemma ShapeTooManyTokens(tokens: seq<string>)
    requires |tokens| > ShapeSlots
    ensures Shape(tokens).Err?
  {
  }

  // ---------------------------------------------------------------------------------------
  // Dependencies recorded while loading

  /** Constraint types: finish-start is the default, the others are read from their
      persistent value. */
  datatype ConstraintType = FinishStart | FromPersistentValue(text: string)

  /** Hardness: STRONG, RUBBER, or as read by `Hardness.parse`. */
  datatype Hardness = Strong | Rubber | Parsed(text: string)

  /** `GanttDependStructure`. */
  datatype DependStructure = DependStructure(
    taskId: TaskId, successorTaskId: TaskId, difference: int,
    dependType: ConstraintType, hardness: Hardness)

  /** The record one `<depend>` element of task `id` becomes. */
  function Record(id: TaskId, d: XmlDependency): (ds: DependStructure)
    ensures ds.taskId == id && ds.successorTaskId == d.id && ds.difference == d.lag
    ensures IsBlank(d.depType) ==> ds.dependType == FinishStart && ds.hardness == Strong
    ensures !IsBlank(d.depType) ==> ds.dependType == FromPersistentValue(d.depType)
    ensures !IsBlank(d.depType) ==> ds.hardness == Parsed(d.hardness)
  {
    if IsBlank(d.depType) then DependStructure(id, d.id, d.lag, FinishStart, Strong)
    else DependStructure(id, d.id, d.lag, FromPersistentValue(d.depType), Parsed(d.hardness))
  }

  /** One record per element, in the order of the file. */
  function Records(id: TaskId, ds: seq<XmlDependency>): (r: seq<DependStructure>)
    ensures |r| == |ds|
    ensures forall i :: 0 <= i < |ds| ==> r[i] == Record(id, ds[i])
  {
    if ds == [] then [] else [Record(id, ds[0])] + Records(id, ds[1..])
  }

  function DependenciesOf(child: XmlTask): (r: seq<DependStructure>)
    ensures child.dependencies.None? ==> r == []
    ensures child.dependencies.Some? ==> r == Records(child.id, child.dependencies.value)
  {
    if child.dependencies.Some? then Records(child.id, child.dependencies.value) else []
  }

  // ---------------------------------------------------------------------------------------
  // Custom property values

  /** The conversions whose exception escapes `loadCustomProperties`: `Integer.valueOf` on
      a text that is not an int, and the NoSuchElementException that `DateParser.parse`
      lets through (only its InvalidDateException is caught). */
  predicate Uncaught(defs: map<string, PropertyType>, p: XmlCustomProperty) {
    p.propId in defs && p.value.Some? &&
    ((defs[p.propId] == IntegerType && ParseInt(p.value.value).None?)
     || (defs[p.propId] == DateType && DateParser.Parse(p.value.value) == Err(DateParser.NoSuchElement)))
  }

  /** The value a custom property takes by its definition's type: `Ok(None)` when it is
      skipped, an error when the conversion's exception is not caught. */
  function Convert(defs: map<string, PropertyType>, p: XmlCustomProperty): (r: Result<Option<CustomValue>, LoadError>)
    ensures p.propId !in defs || p.value.None? ==> r == Ok(None)
    ensures r.Err? <==> Uncaught(defs, p)
    ensures r.Err? && defs[p.propId] == IntegerType ==> r.error == CustomNotAnInt(p.propId, p.value.value)
    ensures r.Err? && defs[p.propId] == DateType ==> r.error == CustomDateNoSuchElement(p.propId, p.value.value)
    ensures p.propId in defs && p.value.Some? && defs[p.propId] == DateType ==>
      (r == Ok(None) <==> DateParser.Parse(p.value.value).Err? && DateParser.Parse(p.value.value).error.InvalidDate?)
    ensures p.propId in defs && p.value.Some? ==> var text := p.value.value;
      match defs[p.propId]
      case StringType => r == Ok(Some(TextValue(text)))
      case BooleanType => r == Ok(Some(BoolValue(LowerCase(text) == "true")))
      case IntegerType => ParseInt(text).Some? ==> r == Ok(Some(IntValue(ParseInt(text).value)))
      case DoubleType => r == Ok(Some(DoubleValue(text)))
      case DateType => DateParser.Parse(text).Ok? ==> r == Ok(Some(DateValue(DateParser.Parse(text).value)))
      case OtherType => r == Ok(None)
  {
    if p.propId !in defs || p.value.None? then Ok(None)
    else
      var text := p.value.value;
      match defs[p.propId]
      case StringType => Ok(Some(TextValue(text)))
      case BooleanType => Ok(Some(BoolValue(LowerCase(text) == "true")))
      case IntegerType =>
        (match ParseInt(text)
         case Some(n) => Ok(Some(IntValue(n)))
         case None => Err(CustomNotAnInt(p.propId, text)))
      case DoubleType => Ok(Some(DoubleValue(text)))
      case DateType =>
        (match DateParser.Parse(text)
         case Ok(d) => Ok(Some(DateValue(d)))
         case Err(e) => if e.NoSuchElement? then Err(CustomDateNoSuchElement(p.propId, text)) else Ok(None))
      case OtherType => Ok(None)
  }

  /** A date value cut off right after the '.' of its fraction ("2020-01-01T10:00:00.")
      stops the loading of the task. */
  lemma DateWithBareDotAborts(defs: map<string, PropertyType>, p: XmlCustomProperty,
      y: string, mo: string, d: string, h: string, mi: string, sec: string)
    requires p.propId in defs && defs[p.propId] == DateType
    requires p.value == Some(DateParser.Concat([y, "-", mo, "-", d] + ["T", h, ":", mi, ":", sec, "."]))
    requires DateParser.IsWord(y) && DateParser.IsWord(mo) && DateParser.IsWord(d)
    requires DateParser.IsWord(h) && DateParser.IsWord(mi) && DateParser.IsWord(sec)
    requires ParseInt(y).Some? && ParseInt(mo).Some? && ParseInt(d).Some?
    requires ParseInt(h).Some? && ParseInt(mi).Some? && ParseInt(sec).Some?
    ensures Convert(defs, p) == Err(CustomDateNoSuchElement(p.propId, p.value.value))
  {
    DateParser.ParseBareDotWords(p.value.value, y, mo, d, h, mi, sec);
  }

  /** The task's custom values after the properties were applied in order, and the
      exception that stopped it, if one did. */
  datatype Applied = Applied(values: map<string, CustomValue>, error: Option<LoadError>)

  function ApplyCustom(defs: map<string, PropertyType>, props: seq<XmlCustomProperty>,
                       values: map<string, CustomValue>): Applied
  {
    if props == [] then Applied(values, None)
    else match Convert(defs, props[0])
      case Err(e) => Applied(values, Some(e))
      case Ok(None) => ApplyCustom(defs, props[1..], values)
      case Ok(Some(v)) => ApplyCustom(defs, props[1..], values[props[0].propId := v])
  }

  /** Only an uncaught conversion exception stops the loading of a task: unknown
      definitions, null values and dates with an InvalidDateException are skipped. */
  lemma {:induction false} CustomErrorOnlyUncaught(defs: map<string, PropertyType>,
      props: seq<XmlCustomProperty>, values: map<string, CustomValue>)
    ensures ApplyCustom(defs, props, values).error.Some? <==>
      exists i :: 0 <= i < |props| && Uncaught(defs, props[i])
  {
    if props != [] {
      CustomErrorOnlyUncaught(defs, props[1..], values);
      var c := Convert(defs, props[0]);
      if c.Ok? && c.value.Some? {
        CustomErrorOnlyUncaught(defs, props[1..], values[props[0].propId := c.value.value]);
      }
      if exists i :: 0 <= i < |props| && Uncaught(defs, props[i]) {
        var i :| 0 <= i < |props| && Uncaught(defs, props[i]);
        if i > 0 {
          assert props[1..][i - 1] == props[i];
        }
      }
      if c.Ok? {
        forall i | 0 <= i < |props[1..]| && Uncaught(defs, props[1..][i])
          ensures exists i :: 0 <= i < |props| && Uncaught(defs, props[i])
        {
          assert props[1..][i] == props[i + 1];
        }
      }
    }
  }

  /** The value the last property with id `k` converts to, if any of them converts to one. */
  function LastValue(defs: map<string, PropertyType>, props: seq<XmlCustomProperty>, k: string): (r: Option<CustomValue>)
    ensures r.Some? ==> exists i :: 0 <= i < |props| && props[i].propId == k && Convert(defs, props[i]) == Ok(r)
  {
    if props == [] then None
    else
      var later := LastValue(defs, props[1..], k);
      if later.Some? then
        assert forall i :: 0 <= i < |props[1..]| ==> props[1..][i] == props[i + 1];
        later
      else if props[0].propId == k && Convert(defs, props[0]).Ok? then Convert(defs, props[0]).value
      else None
  }

  /** When no conversion fails, each key ends with the value of the last property that set
      it, and a key no property set keeps the value it had. */
  lemma {:induction false} ApplyCustomValues(defs: map<string, PropertyType>,
      props: seq<XmlCustomProperty>, values: map<string, CustomValue>, k: string)
    requires ApplyCustom(defs, props, values).error.None?
    ensures var result := ApplyCustom(defs, props, values).values;
      if LastValue(defs, props, k).Some? then k in result && result[k] == LastValue(defs, props, k).value
      else (k in result <==> k in values) && (k in values ==> result[k] == values[k])
  {
    if props != [] {
      var c := Convert(defs, props[0]);
      if c.Ok? && c.value.Some? {
        ApplyCustomValues(defs, props[1..], values[props[0].propId := c.value.value], k);
      } else {
        ApplyCustomValues(defs, props[1..], values, k);
      }
    }
  }

  /** A property is only set through a definition: every new key is the id of a defined
      property of the element. */
  lemma {:induction false} CustomKeysDefined(defs: map<string, PropertyType>,
      props: seq<XmlCustomProperty>, values: map<string, CustomValue>)
    ensures forall k :: k in ApplyCustom(defs, props, values).values ==>
      k in values || (k in defs && exists i :: 0 <= i < |props| && props[i].propId == k)
  {
    if props != [] {
      var c := Convert(defs, props[0]);
      if c.Ok? {
        var next := if c.value.Some? then values[props[0].propId := c.value.value] else values;
        CustomKeysDefined(defs, props[1..], next);
        forall k | k in ApplyCustom(defs, props, values).values
          ensures k in values || (k in defs && exists i :: 0 <= i < |props| && props[i].propId == k)
        {
          if k !in next {
            var i :| 0 <= i < |props[1..]| && props[1..][i].propId == k;
            assert props[i + 1].propId == k;
          } else if k !in values {
            assert props[0].propId == k;
          }
        }
      }
    }
  }

  /** The `forEach` of `loadCustomProperties`: each property converted and set in turn; an
      exception leaves the values set so far. */
  method LoadCustomValues(defs: map<string, PropertyType>, props: seq<XmlCustomProperty>,
                          initial: map<string, CustomValue>) returns (applied: Applied)
    ensures applied == ApplyCustom(defs, props, initial)
  {
    var values := initial;
    var k := 0;
    while k < |props|
      invariant 0 <= k <= |props|
      invariant ApplyCustom(defs, props, initial) == ApplyCustom(defs, props[k..], values)
    {
      assert props[k..][0] == props[k] && props[k..][1..] == props[k + 1..];
      var converted := Convert(defs, props[k]);
      match converted {
        case Err(e) =>
          return Applied(values, Some(e));
        case Ok(None) =>
        case Ok(Some(v)) =>
          values := values[props[k].propId := v];
      }
      k := k + 1;
    }
    return Applied(values, None);
  }

  // ---------------------------------------------------------------------------------------
  // Loading one task

  /** What loading one element leaves: the task as stored, the dependency records added,
      and the exception that ended the load early, if any. */
  datatype Outcome = Outcome(task: Task, dependencies: seq<DependStructure>, error: Option<LoadError>)

  /** The shape attribute read: none when it is absent, or the exception its tokens raise. */
  function ShapeOf(child: XmlTask): (r: Result<Option<seq<int>>, LoadError>)
    ensures child.shape.None? ==> r == Ok(None)
    ensures child.shape.Some? ==> (r.Ok? <==> Shape(Tokens(child.shape.value)).Ok?)
    ensures child.shape.Some? && r.Ok? ==> r.value == Some(Shape(Tokens(child.shape.value)).value)
    ensures child.shape.Some? && r.Err? ==> r.error == Shape(Tokens(child.shape.value)).error
  {
    if child.shape.None? then Ok(None)
    else match Shape(Tokens(child.shape.value))
      case Ok(slots) => Ok(Some(slots))
      case Err(e) => Err(e)
  }

  /** `loadTask` after the shape: cost and notes, the dependency records, then the custom
      values, which may stop it. */
  function Finish(t: Task, defs: map<string, PropertyType>, child: XmlTask): (o: Outcome)
    ensures o.dependencies == DependenciesOf(child) && o.task.cost == Some(CostOf(child))
    ensures o.task.id == t.id && o.task.parent == t.parent && o.task.duration == t.duration
    ensures o.task.shape == t.shape
    ensures o.error.Some? <==>
      exists i :: 0 <= i < |child.customPropertyValues| && Uncaught(defs, child.customPropertyValues[i])
  {
    var t2 := t.(cost := Some(CostOf(child)),
                 notes := if child.notes.Some? then child.notes else t.notes);
    var applied := ApplyCustom(defs, child.customPropertyValues, t2.customValues);
    CustomErrorOnlyUncaught(defs, child.customPropertyValues, t2.customValues);
    Outcome(t2.(customValues := applied.values), DependenciesOf(child), applied.error)
  }

  /** `loadTask` from the shape on: a bad shape stops it (no cost, notes, dependencies or
      custom values); otherwise `Finish` runs. */
  function AfterLink(t: Task, defs: map<string, PropertyType>, child: XmlTask): (o: Outcome)
    ensures o.task.id == t.id && o.task.parent == t.parent && o.task.duration == t.duration
    ensures o.task.webLink == t.webLink
    ensures ShapeOf(child).Err? ==>
      o.error == Some(ShapeOf(child).error) && o.dependencies == [] && o.task == t
    ensures ShapeOf(child).Ok? ==>
      o.dependencies == DependenciesOf(child) && o.task.cost == Some(CostOf(child))
      && (o.error.Some? <==> exists i :: 0 <= i < |child.customPropertyValues| && Uncaught(defs, child.customPropertyValues[i]))
  {
    match ShapeOf(child)
    case Err(e) => Outcome(t, [], Some(e))
    case Ok(shape) => Finish(t.(shape := if shape.Some? then shape else t.shape), defs, child)
  }

  /** `loadTask` from the web link on: a malformed link stops it (no shape, cost, notes,
      dependencies or custom values); otherwise the decoded link is set and `AfterLink` runs. */
  function Linked(t: Task, defs: map<string, PropertyType>, urlDecode: string -> Option<string>,
                  child: XmlTask): (o: Outcome)
    ensures o.task.id == t.id && o.task.parent == t.parent && o.task.duration == t.duration
    ensures WebLinkOf(child, urlDecode).Err? ==>
      o.error == Some(WebLinkOf(child, urlDecode).error) && o.dependencies == [] && o.task == t
    ensures WebLinkOf(child, urlDecode).Ok? ==>
      o == AfterLink(t.(webLink := WebLinkOf(child, urlDecode).value), defs, child)
      && o.task.webLink == WebLinkOf(child, urlDecode).value
  {
    match WebLinkOf(child, urlDecode)
    case Err(e) => Outcome(t, [], Some(e))
    case Ok(link) => AfterLink(t.(webLink := link), defs, child)
  }

  /** `loadTask` as a whole: a malformed web link or a bad shape stops it after the
      attributes (no cost, notes, dependencies or custom values); an uncaught custom value
      conversion stops it after the dependencies and the values before it. */
  function Load(parentTask: Option<TaskId>, defs: map<string, PropertyType>,
                urlDecode: string -> Option<string>, child: XmlTask): (o: Outcome)
    ensures o.task.id == child.id && o.task.parent == parentTask
    ensures o.task.duration == Duration(child.duration)
    ensures WebLinkOf(child, urlDecode).Err? ==>
      o.error == Some(WebLinkOf(child, urlDecode).error) && o.dependencies == [] && o.task.cost.None?
    ensures WebLinkOf(child, urlDecode).Ok? ==> o.task.webLink == WebLinkOf(child, urlDecode).value
    ensures WebLinkOf(child, urlDecode).Ok? && ShapeOf(child).Err? ==>
      o.error == Some(ShapeOf(child).error) && o.dependencies == [] && o.task.cost.None?
    ensures WebLinkOf(child, urlDecode).Ok? && ShapeOf(child).Ok? ==>
      o.dependencies == DependenciesOf(child) && o.task.cost == Some(CostOf(child))
      && (o.error.Some? <==> exists i :: 0 <= i < |child.customPropertyValues| && Uncaught(defs, child.customPropertyValues[i]))
  {
    Linked(WithAttributes(Built(parentTask, child), child), defs, urlDecode, child)
  }

  /** The shape attribute, read by the loop when present. */
  method ReadShapeOf(child: XmlTask) returns (r: Result<Option<seq<int>>, LoadError>)
    ensures r == ShapeOf(child)
  {
    if child.shape.None? {
      return Ok(None);
    }
    var shape := ReadShape(child.shape.value);
    if shape.Err? {
      return Err(shape.error);
    }
    return Ok(Some(shape.value));
  }

  /** `TaskLoader`: the tasks flagged with the legacy "fixed-start" attribute, the
      dependency records collected, and the task loaded for each element. */
  class TaskLoader {
    const manager: TaskManager
    var legacyFixedStartTasks: seq<TaskId>
    var dependencies: seq<DependStructure>
    var mapXmlGantt: map<XmlTask, TaskId>

    constructor(manager: TaskManager)
      ensures this.manager == manager
      ensures legacyFixedStartTasks == [] && dependencies == [] && mapXmlGantt == map[]
    {
      this.manager := manager;
      legacyFixedStartTasks := [];
      dependencies := [];
      mapXmlGantt := map[];
    }

    /** `loadTask`: the task is built, registered under its id and remembered for the
        element before any attribute is read that may fail. */
    method LoadTask(parent: Option<XmlTask>, child: XmlTask) returns (r: Result<TaskId, LoadError>)
      modifies this, manager
      ensures mapXmlGantt == old(mapXmlGantt)[child := child.id]
      ensures legacyFixedStartTasks == old(legacyFixedStartTasks)
        + (if child.legacyFixedStart == Some("true") then [child.id] else [])
      ensures var o := Load(ParentTask(old(mapXmlGantt), parent), manager.customDefs, manager.urlDecode, child);
        manager.tasks == old(manager.tasks)[child.id := o.task]
        && dependencies == old(dependencies) + o.dependencies
        && r == (if o.error.Some? then Err(o.error.value) else Ok(child.id))
      ensures manager.dependencies == old(manager.dependencies)
    {
      var task := BuildTask(parent, child);
      r := LoadLinked(task, child);
    }

    /** `loadTask` from the web link on, for the task stored under its id. */
    method LoadLinked(task: Task, child: XmlTask) returns (r: Result<TaskId, LoadError>)
      requires child.id in manager.tasks && manager.tasks[child.id] == task
      modifies this, manager
      ensures var o := Linked(task, manager.customDefs, manager.urlDecode, child);
        manager.tasks == old(manager.tasks)[child.id := o.task]
        && dependencies == old(dependencies) + o.dependencies
        && r == (if o.error.Some? then Err(o.error.value) else Ok(child.id))
      ensures mapXmlGantt == old(mapXmlGantt) && legacyFixedStartTasks == old(legacyFixedStartTasks)
      ensures manager.dependencies == old(manager.dependencies)
    {
      var link := WebLinkOf(child, manager.urlDecode);
      if link.Err? {
        return Err(link.error);
      }
      var t := task.(webLink := link.value);
      manager.tasks := manager.tasks[child.id := t];
      r := LoadShaped(t, child);
    }

    /** `loadTask` from the shape on, for the task stored under its id. */
    method LoadShaped(task: Task, child: XmlTask) returns (r: Result<TaskId, LoadError>)
      requires child.id in manager.tasks && manager.tasks[child.id] == task
      modifies this, manager
      ensures var o := AfterLink(task, manager.customDefs, child);
        manager.tasks == old(manager.tasks)[child.id := o.task]
        && dependencies == old(dependencies) + o.dependencies
        && r == (if o.error.Some? then Err(o.error.value) else Ok(child.id))
      ensures mapXmlGantt == old(mapXmlGantt) && legacyFixedStartTasks == old(legacyFixedStartTasks)
      ensures manager.dependencies == old(manager.dependencies)
    {
      var shape := ReadShapeOf(child);
      if shape.Err? {
        return Err(shape.error);
      }
      r := FinishTask(task.(shape := if shape.value.Some? then shape.value else task.shape), child);
    }

    /** The first part of `loadTask`: the task is built, registered under its id and
        remembered for the element, and its plain attributes are set. */
    method BuildTask(parent: Option<XmlTask>, child: XmlTask) returns (task: Task)
      modifies this, manager
      ensures task == WithAttributes(Built(ParentTask(old(mapXmlGantt), parent), child), child)
      ensures manager.tasks == old(manager.tasks)[child.id := task]
      ensures mapXmlGantt == old(mapXmlGantt)[child := child.id]
      ensures legacyFixedStartTasks == old(legacyFixedStartTasks)
        + (if child.legacyFixedStart == Some("true") then [child.id] else [])
      ensures dependencies == old(dependencies) && manager.dependencies == old(manager.dependencies)
    {
      var parentTask := ParentTask(mapXmlGantt, parent);
      task := WithAttributes(Built(parentTask, child), child);
      manager.tasks := manager.tasks[child.id := task];
      mapXmlGantt := mapXmlGantt[child := child.id];
      if child.legacyFixedStart == Some("true") {
        legacyFixedStartTasks := legacyFixedStartTasks + [child.id];
      }
    }

    /** The rest of `loadTask` once the shape was read. */
    method FinishTask(task: Task, child: XmlTask) returns (r: Result<TaskId, LoadError>)
      modifies this, manager
      ensures var o := Finish(task, manager.customDefs, child);
        manager.tasks == old(manager.tasks)[child.id := o.task]
        && dependencies == old(dependencies) + o.dependencies
        && r == (if o.error.Some? then Err(o.error.value) else Ok(child.id))
      ensures mapXmlGantt == old(mapXmlGantt) && legacyFixedStartTasks == old(legacyFixedStartTasks)
      ensures manager.dependencies == old(manager.dependencies)
    {
      var t := task.(cost := Some(CostOf(child)));
      if child.notes.Some? {
        t := t.(notes := child.notes);
      }
      LoadDependencies(child);
      r := LoadCustomProperties(t, child);
    }

    /** `loadCustomProperties` on the task being loaded, and what `loadTask` then returns. */
    method LoadCustomProperties(t: Task, child: XmlTask) returns (r: Result<TaskId, LoadError>)
      modifies manager
      ensures var applied := ApplyCustom(manager.customDefs, child.customPropertyValues, t.customValues);
        manager.tasks == old(manager.tasks)[child.id := t.(customValues := applied.values)]
        && r == (if applied.error.Some? then Err(applied.error.value) else Ok(child.id))
      ensures manager.dependencies == old(manager.dependencies)
    {
      var applied := LoadCustomValues(manager.customDefs, child.customPropertyValues, t.customValues);
      manager.tasks := manager.tasks[child.id := t.(customValues := applied.values)];
      if applied.error.Some? {
        return Err(applied.error.value);
      }
      return Ok(child.id);
    }

    /** `loadDependencies`: one record per `<depend>` element, appended in order. */
    method LoadDependencies(xmlTask: XmlTask)
      modifies this
      ensures dependencies == old(dependencies) + DependenciesOf(xmlTask)
      ensures legacyFixedStartTasks == old(legacyFixedStartTasks) && mapXmlGantt == old(mapXmlGantt)
    {
      if xmlTask.dependencies.Some? {
        var ds := xmlTask.dependencies.value;
        var i := 0;
        while i < |ds|
          invariant 0 <= i <= |ds|
          invariant dependencies == old(dependencies) + Records(xmlTask.id, ds[..i])
          invariant legacyFixedStartTasks == old(legacyFixedStartTasks) && mapXmlGantt == old(mapXmlGantt)
        {
          assert Records(xmlTask.id, ds[..i + 1]) == Records(xmlTask.id, ds[..i]) + [Record(xmlTask.id, ds[i])];
          dependencies := dependencies + [Record(xmlTask.id, ds[i])];
          i := i + 1;
        }
        assert ds[..i] == ds;
      }
    }
  }

  /** A task whose XML parent was not loaded yet is loaded without a parent. */
  lemma MissingParentIsNoParent(loaded: map<XmlTask, TaskId>, parent: XmlTask,
                                defs: map<string, PropertyType>,
                                urlDecode: string -> Option<string>, child: XmlTask)
    requires parent !in loaded
    ensures Load(ParentTask(loaded, Some(parent)), defs, urlDecode, child).task.parent.None?
  {
  }

  // ---------------------------------------------------------------------------------------
  // The dependency graph

  /** A dependency between two tasks, the dependant depending on the dependee. */
  datatype Dependency = Dependency(dependant: TaskId, dependee: TaskId,
    constraint: ConstraintType, difference: int, hardness: Hardness)

  /** The record's dependency is created: both tasks exist and the collection accepts it. */
  predicate Accepted(ds: DependStructure, known: set<TaskId>, refuses: (TaskId, TaskId) -> bool) {
    ds.taskId in known && ds.successorTaskId in known && !refuses(ds.successorTaskId, ds.taskId)
  }

  /** The dependency a record becomes; a legacy fixed-start dependant makes it RUBBER. */
  function DependencyOf(ds: DependStructure, legacy: seq<TaskId>): (d: Dependency)
    ensures d.dependant == ds.successorTaskId && d.dependee == ds.taskId
    ensures d.hardness == (if ds.successorTaskId in legacy then Rubber else ds.hardness)
  {
    Dependency(ds.successorTaskId, ds.taskId, ds.dependType, ds.difference,
      if ds.successorTaskId in legacy then Rubber else ds.hardness)
  }

  function Graph(deps: seq<DependStructure>, known: set<TaskId>, refuses: (TaskId, TaskId) -> bool,
                 legacy: seq<TaskId>): (g: seq<Dependency>)
    ensures |g| <= |deps|
  {
    if deps == [] then [] else Created(deps[0], known, refuses, legacy) + Graph(deps[1..], known, refuses, legacy)
  }

  /** The dependency one record adds to the graph: none when it is not accepted. */
  function Created(ds: DependStructure, known: set<TaskId>, refuses: (TaskId, TaskId) -> bool,
                   legacy: seq<TaskId>): seq<Dependency>
  {
    if Accepted(ds, known, refuses) then [DependencyOf(ds, legacy)] else []
  }

  /** The dependencies created are exactly those of the accepted records. */
  lemma {:induction false} GraphExactly(deps: seq<DependStructure>, known: set<TaskId>,
      refuses: (TaskId, TaskId) -> bool, legacy: seq<TaskId>, d: Dependency)
    ensures d in Graph(deps, known, refuses, legacy) <==>
      exists i :: 0 <= i < |deps| && Accepted(deps[i], known, refuses) && d == DependencyOf(deps[i], legacy)
  {
    if deps != [] {
      GraphExactly(deps[1..], known, refuses, legacy, d);
      if exists i :: 0 <= i < |deps| && Accepted(deps[i], known, refuses) && d == DependencyOf(deps[i], legacy) {
        var i :| 0 <= i < |deps| && Accepted(deps[i], known, refuses) && d == DependencyOf(deps[i], legacy);
        if i > 0 {
          assert deps[1..][i - 1] == deps[i];
        }
      }
      if exists i :: 0 <= i < |deps[1..]| && Accepted(deps[1..][i], known, refuses) && d == DependencyOf(deps[1..][i], legacy) {
        var i :| 0 <= i < |deps[1..]| && Accepted(deps[1..][i], known, refuses) && d == DependencyOf(deps[1..][i], legacy);
        assert deps[1..][i] == deps[i + 1];
      }
    }
  }

  /** Every dependency created joins two tasks of the manager. */
  lemma GraphEndsKnown(deps: seq<DependStructure>, known: set<TaskId>,
      refuses: (TaskId, TaskId) -> bool, legacy: seq<TaskId>, d: Dependency)
    requires d in Graph(deps, known, refuses, legacy)
    ensures d.dependant in known && d.dependee in known
    ensures d.dependant in legacy ==> d.hardness == Rubber
  {
    GraphExactly(deps, known, refuses, legacy, d);
  }

  /** `loadDependencyGraph`: the records in order, each becoming a dependency when both of
      its tasks exist and the collection accepts it. */
  method LoadDependencyGraph(deps: seq<DependStructure>, manager: TaskManager, legacy: seq<TaskId>)
    modifies manager
    ensures manager.dependencies
      == old(manager.dependencies) + Graph(deps, manager.tasks.Keys, manager.refuses, legacy)
    ensures manager.tasks == old(manager.tasks)
  {
    var i := 0;
    while i < |deps|
      invariant 0 <= i <= |deps|
      invariant manager.tasks == old(manager.tasks)
      invariant manager.dependencies
        == old(manager.dependencies) + Graph(deps[..i], manager.tasks.Keys, manager.refuses, legacy)
    {
      var ds := deps[i];
      GraphSnoc(deps, i, manager.tasks.Keys, manager.refuses, legacy);
      if ds.taskId in manager.tasks && ds.successorTaskId in manager.tasks {
        if !manager.refuses(ds.successorTaskId, ds.taskId) {
          manager.dependencies := manager.dependencies + [DependencyOf(ds, legacy)];
        }
      }
      i := i + 1;
    }
    assert deps[..i] == deps;
  }

  /** One more record adds what that record creates. */
  lemma GraphSnoc(deps: seq<DependStructure>, i: nat, known: set<TaskId>,
      refuses: (TaskId, TaskId) -> bool, legacy: seq<TaskId>)
    requires i < |deps|
    ensures Graph(deps[..i + 1], known, refuses, legacy)
      == Graph(deps[..i], known, refuses, legacy) + Created(deps[i], known, refuses, legacy)
  {
    GraphAppend(deps[..i], [deps[i]], known, refuses, legacy);
    assert deps[..i + 1] == deps[..i] + [deps[i]];
    assert [deps[i]][1..] == [];
    assert Graph([deps[i]], known, refuses, legacy) == Created(deps[i], known, refuses, legacy) + [];
  }

  lemma {:induction false} GraphAppend(a: seq<DependStructure>, b: seq<DependStructure>, known: set<TaskId>,
      refuses: (TaskId, TaskId) -> bool, legacy: seq<TaskId>)
    ensures Graph(a + b, known, refuses, legacy) == Graph(a, known, refuses, legacy) + Graph(b, known, refuses, legacy)
  {
    if a == [] {
      assert a + b == b;
    } else {
      assert (a + b)[0] == a[0] && (a + b)[1..] == a[1..] + b;
      GraphAppend(a[1..], b, known, refuses, legacy);
      var c := Created(a[0], known, refuses, legacy);
      assert Graph(a + b, known, refuses, legacy) == c + Graph(a[1..] + b, known, refuses, legacy);
      assert c + (Graph(a[1..], known, refuses, legacy) + Graph(b, known, refuses, legacy))
          == (c + Graph(a[1..], known, refuses, legacy)) + Graph(b, known, refuses, legacy);
    }
  }

  // ---------------------------------------------------------------------------------------
  // The timeline of the Gantt view

  /** A `<view>` element: its id and its timeline attribute. */
  datatype XmlView = XmlView(id: string, timeline: string)

  /** The Gantt chart's view: the first one with id "gantt-chart". */
  function GanttView(views: seq<XmlView>): (v: Option<XmlView>)
    ensures v.Some? <==> exists i :: 0 <= i < |views| && views[i].id == "gantt-chart"
    ensures v.Some? ==> v.value.id == "gantt-chart"
    ensures v.Some? ==> exists i :: 0 <= i < |views| && views[i] == v.value && NoGanttBefore(views, i)
  {
    if views == [] then None
    else if views[0].id == "gantt-chart" then Some(views[0])
    else
      var v := GanttView(views[1..]);
      assert forall i :: 0 <= i < |views[1..]| ==> views[1..][i] == views[i + 1];
      v
  }

  predicate NoGanttBefore(views: seq<XmlView>, i: nat)
    requires i <= |views|
  {
    forall j :: 0 <= j < i ==> views[j].id != "gantt-chart"
  }

  /** `split(",").mapNotNull { it.trim().toIntOrNull() }`. */
  function Ids(pieces: seq<string>): (ids: seq<TaskId>)
    ensures |ids| <= |pieces|
  {
    if pieces == [] then []
    else
      var first := ParseInt(Trim(pieces[0]));
      (if first.Some? then [first.value] else []) + Ids(pieces[1..])
  }

  /** The ids of existing tasks, in order. */
  function Known(ids: seq<TaskId>, known: set<TaskId>): (r: seq<TaskId>)
    ensures |r| <= |ids|
    ensures forall i :: 0 <= i < |r| ==> r[i] in known
  {
    if ids == [] then []
    else (if ids[0] in known then [ids[0]] else []) + Known(ids[1..], known)
  }

  /** The timeline a timeline attribute yields. */
  function Timeline(text: string, known: set<TaskId>): seq<TaskId> {
    Known(Ids(Split(text, ',')), known)
  }

  /** The task view: the tasks shown on the timeline, in order. */
  class TaskView {
    var timelineTasks: seq<TaskId>

    constructor()
      ensures timelineTasks == []
    {
      timelineTasks := [];
    }
  }

  /** Timeline loading in `loadGanttView`: without a Gantt chart view nothing changes;
      otherwise the list is cleared and refilled with the ids of existing tasks. */
  method LoadTimeline(views: seq<XmlView>, tasks: map<TaskId, Task>, view: TaskView)
    modifies view
    ensures GanttView(views).None? ==> view.timelineTasks == old(view.timelineTasks)
    ensures GanttView(views).Some? ==> view.timelineTasks == Timeline(GanttView(views).value.timeline, tasks.Keys)
  {
    var xmlView := GanttView(views);
    if xmlView.None? {
      return;
    }
    var text := xmlView.value.timeline;
    view.timelineTasks := [];
    AddExisting(Ids(Split(text, ',')), tasks, view);
    assert view.timelineTasks == Timeline(text, tasks.Keys);
  }

  /** The `forEach` that adds each id of an existing task to the timeline. */
  method AddExisting(ids: seq<TaskId>, tasks: map<TaskId, Task>, view: TaskView)
    modifies view
    ensures view.timelineTasks == old(view.timelineTasks) + Known(ids, tasks.Keys)
  {
    var i := 0;
    while i < |ids|
      invariant 0 <= i <= |ids|
      invariant view.timelineTasks == old(view.timelineTasks) + Known(ids[..i], tasks.Keys)
    {
      var id := ids[i];
      assert ids[..i + 1] == ids[..i] + [id];
      KnownAppend(ids[..i], [id], tasks.Keys);
      KnownOne(id, tasks.Keys);
      if id in tasks {
        view.timelineTasks := view.timelineTasks + [id];
      }
      i := i + 1;
    }
    assert ids[..i] == ids;
  }

  lemma {:induction false} KnownAppend(a: seq<TaskId>, b: seq<TaskId>, known: set<TaskId>)
    ensures Known(a + b, known) == Known(a, known) + Known(b, known)
  {
    if a == [] {
      assert a + b == b;
    } else {
      assert (a + b)[1..] == a[1..] + b;
      KnownAppend(a[1..], b, known);
    }
  }

  lemma KnownOne(id: TaskId, known: set<TaskId>)
    ensures Known([id], known) == if id in known then [id] else []
  {
    assert [id][1..] == [];
  }

  /** The ids of the timeline as printed: each id in decimal, joined with commas. */
  function Printed(ids: seq<TaskId>): (pieces: seq<string>)
    ensures |pieces| == |ids|
  {
    if ids == [] then [] else [IntToString(ids[0])] + Printed(ids[1..])
  }

  /** Reading back a printed timeline of existing tasks yields the same tasks in the same
      order. */
  lemma TimelineRoundTrip(ids: seq<TaskId>, known: set<TaskId>)
    requires forall i :: 0 <= i < |ids| ==> IsInt32(ids[i]) && ids[i] in known
    ensures Timeline(Join(Printed(ids), ","), known) == ids
  {
    if ids == [] {
      assert Split("", ',') == [""];
      assert Ids([""]) == [] by {
        assert Trim("") == "";
      }
    } else {
      PrintedPieces(ids);
      SplitJoin(Printed(ids), ',');
      IdsPrinted(ids);
      KnownAll(ids, known);
    }
  }

  lemma {:induction false} KnownAll(ids: seq<TaskId>, known: set<TaskId>)
    requires forall i :: 0 <= i < |ids| ==> ids[i] in known
    ensures Known(ids, known) == ids
  {
    if ids != [] {
      KnownAll(ids[1..], known);
    }
  }

  /** A printed id has no comma and no surrounding white space, and reads back as itself. */
  lemma PrintedId(i: int)
    requires IsInt32(i)
    ensures ',' !in IntToString(i)
    ensures Trim(IntToString(i)) == IntToString(i)
    ensures ParseInt(Trim(IntToString(i))) == Some(i)
  {
    var s := IntToString(i);
    var n: nat := if i < 0 then -i else i;
    NatToStringDigits(n);
    var d := NatToString(n);
    assert s == d || s == "-" + d;
    assert s[|s| - 1] == d[|d| - 1];
    assert IsDigit(d[|d| - 1]);
    assert !IsWhitespace(s[0]) && !IsWhitespace(s[|s| - 1]);
    assert TrimStart(s) == s;
    assert TrimEnd(s) == s;
    forall k | 0 <= k < |s| ensures s[k] != ',' {
      if s == d {
        assert IsDigit(d[k]);
      } else if k > 0 {
        assert s[k] == d[k - 1];
        assert IsDigit(d[k - 1]);
      }
    }
    ParseIntToString(i);
  }

  lemma {:induction false} PrintedPieces(ids: seq<TaskId>)
    requires forall i :: 0 <= i < |ids| ==> IsInt32(ids[i])
    ensures forall k :: 0 <= k < |ids| ==> Printed(ids)[k] == IntToString(ids[k]) && ',' !in Printed(ids)[k]
  {
    if ids != [] {
      PrintedPieces(ids[1..]);
      PrintedId(ids[0]);
      forall k | 1 <= k < |ids| ensures Printed(ids)[k] == Printed(ids[1..])[k - 1] {
      }
    }
  }

  lemma {:induction false} IdsPrinted(ids: seq<TaskId>)
    requires forall i :: 0 <= i < |ids| ==> IsInt32(ids[i])
    ensures Ids(Printed(ids)) == ids
  {
    if ids != [] {
      var pieces := Printed(ids);
      assert pieces[0] == IntToString(ids[0]) && pieces[1..] == Printed(ids[1..]);
      PrintedId(ids[0]);
      IdsCons(pieces, ids[0]);
      IdsPrinted(ids[1..]);
      assert [ids[0]] + ids[1..] == ids;
    }
  }

  lemma IdsCons(pieces: seq<string>, id: TaskId)
    requires pieces != [] && ParseInt(Trim(pieces[0])) == Some(id)
    ensures Ids(pieces) == [id] + Ids(pieces[1..])
  {
  }
}
