/** The scheduler: it walks the dependency graph layer by layer and, for every task, narrows
    the ranges its start and end may lie in by intersecting the ranges its incoming
    dependency edges allow, then moves the task to the lower end of the start range and the
    upper end of the end range. Dates are day numbers; a range is an interval whose ends are
    "cuts" as in Guava's `Range`, each of which may be missing. */
module Scheduler {
  import opened Wrappers

  // ---------------------------------------------------------------------------------------
  // Ranges

  /** Where a range ends: below all dates, just below or just above a date, above all dates.
      A closed lower end at x is `Below(x)`, an open one `Above(x)`; a closed upper end at x
      is `Above(x)`, an open one `Below(x)`. */
  datatype Cut = BelowAll | Below(at: int) | Above(at: int) | AboveAll

  /** The order of cuts along the time line. */
  predicate CutLt(a: Cut, b: Cut) {
    match a
    case BelowAll => b != BelowAll
    case AboveAll => false
    case Below(x) => (b.Below? && x < b.at) || (b.Above? && x <= b.at) || b.AboveAll?
    case Above(x) => (b.Below? && x < b.at) || (b.Above? && x < b.at) || b.AboveAll?
  }

  predicate CutLe(a: Cut, b: Cut) { a == b || CutLt(a, b) }

  function MaxCut(a: Cut, b: Cut): (c: Cut)
    ensures c == a || c == b
    ensures CutLe(a, c) && CutLe(b, c)
  {
    if CutLe(a, b) then b else a
  }

  function MinCut(a: Cut, b: Cut): (c: Cut)
    ensures c == a || c == b
    ensures CutLe(c, a) && CutLe(c, b)
  {
    if CutLe(a, b) then a else b
  }

  /** The cut lies below date `v`. */
  predicate IsLessThan(c: Cut, v: int) {
    match c
    case BelowAll => true
    case AboveAll => false
    case Below(x) => x <= v
    case Above(x) => x < v
  }

  /** A cut below another is below every date the other one is below. */
  lemma LessThanMonotone(a: Cut, b: Cut, v: int)
    requires CutLe(a, b) && IsLessThan(b, v)
    ensures IsLessThan(a, v)
  {
  }

  datatype Range = Range(lower: Cut, upper: Cut)

  /** The ranges Guava can build: the lower end is not after the upper end. */
  predicate Valid(r: Range) {
    CutLe(r.lower, r.upper) && r.lower != AboveAll && r.upper != BelowAll
  }

  type ValidRange = r: Range | Valid(r) witness Range(BelowAll, AboveAll)

  const All: ValidRange := Range(BelowAll, AboveAll)

  predicate Contains(r: Range, v: int) {
    IsLessThan(r.lower, v) && !IsLessThan(r.upper, v)
  }

  /** `Range.closed(a, b)`; it throws IllegalArgumentException when `a > b`. */
  function Closed(a: int, b: int): (r: Result<ValidRange, Failure>)
    ensures r.Ok? <==> a <= b
    ensures r.Ok? ==> forall v :: Contains(r.value, v) <==> a <= v <= b
  {
    if a <= b then Ok(Range(Below(a), Above(b))) else Err(IllegalArgument)
  }

  /** `Range.downTo(x, CLOSED)`. */
  function AtLeast(x: int): (r: ValidRange)
    ensures forall v :: Contains(r, v) <==> x <= v
  {
    Range(Below(x), AboveAll)
  }

  /** `Range.upTo(x, CLOSED)`. */
  function AtMost(x: int): (r: ValidRange)
    ensures forall v :: Contains(r, v) <==> v <= x
  {
    Range(BelowAll, Above(x))
  }

  /** `a.intersection(b)`: the largest range both enclose; IllegalArgumentException when the
      two are disconnected. */
  function Intersect(a: ValidRange, b: ValidRange): (r: Result<ValidRange, Failure>)
    ensures r.Err? ==> r.error == IllegalArgument
    ensures r.Ok? ==> r.value.lower == MaxCut(a.lower, b.lower) && r.value.upper == MinCut(a.upper, b.upper)
  {
    var lower := MaxCut(a.lower, b.lower);
    var upper := MinCut(a.upper, b.upper);
    if CutLe(lower, upper) then Ok(Range(lower, upper)) else Err(IllegalArgument)
  }

  /** The intersection holds exactly the dates both ranges hold. */
  lemma IntersectContains(a: ValidRange, b: ValidRange, v: int)
    requires Intersect(a, b).Ok?
    ensures Contains(Intersect(a, b).value, v) <==> Contains(a, v) && Contains(b, v)
  {
    var lower := MaxCut(a.lower, b.lower);
    var upper := MinCut(a.upper, b.upper);
    if IsLessThan(lower, v) {
      LessThanMonotone(a.lower, lower, v);
      LessThanMonotone(b.lower, lower, v);
    }
    if IsLessThan(a.upper, v) {
      LessThanMonotone(upper, a.upper, v);
    }
    if IsLessThan(b.upper, v) {
      LessThanMonotone(upper, b.upper, v);
    }
  }

  /** Disconnected ranges, the ones intersection refuses, have no date in common. */
  lemma IntersectDisconnected(a: ValidRange, b: ValidRange, v: int)
    requires Intersect(a, b).Err?
    ensures !(Contains(a, v) && Contains(b, v))
  {
    var lower := MaxCut(a.lower, b.lower);
    var upper := MinCut(a.upper, b.upper);
    if IsLessThan(lower, v) {
      LessThanMonotone(upper, lower, v);
    }
  }

  /** `a.span(b)`: the smallest range enclosing both. */
  function Span(a: ValidRange, b: ValidRange): (r: ValidRange)
    ensures r.lower == MinCut(a.lower, b.lower) && r.upper == MaxCut(a.upper, b.upper)
    ensures forall v :: Contains(a, v) || Contains(b, v) ==> Contains(r, v)
  {
    var r := Range(MinCut(a.lower, b.lower), MaxCut(a.upper, b.upper));
    assert CutLe(r.lower, a.lower) && CutLe(a.lower, a.upper) && CutLe(a.upper, r.upper);
    CutLeTransitive(r.lower, a.lower, a.upper);
    CutLeTransitive(r.lower, a.upper, r.upper);
    forall v | Contains(a, v) || Contains(b, v) ensures Contains(r, v) {
      if Contains(a, v) {
        LessThanMonotone(r.lower, a.lower, v);
        if IsLessThan(r.upper, v) {
          LessThanMonotone(a.upper, r.upper, v);
        }
      } else {
        LessThanMonotone(r.lower, b.lower, v);
        if IsLessThan(r.upper, v) {
          LessThanMonotone(b.upper, r.upper, v);
        }
      }
    }
    r
  }

  lemma CutLeTransitive(a: Cut, b: Cut, c: Cut)
    requires CutLe(a, b) && CutLe(b, c)
    ensures CutLe(a, c)
  {
  }

  function MinOf(s: seq<int>): (m: int)
    requires s != []
    ensures m in s && forall i :: 0 <= i < |s| ==> m <= s[i]
  {
    if |s| == 1 then s[0] else var m := MinOf(s[1..]); if s[0] <= m then s[0] else m
  }

  function MaxOf(s: seq<int>): (m: int)
    requires s != []
    ensures m in s && forall i :: 0 <= i < |s| ==> s[i] <= m
  {
    if |s| == 1 then s[0] else var m := MaxOf(s[1..]); if s[0] >= m then s[0] else m
  }

  /** `Range.encloseAll(dates)`: from the earliest to the latest date, both included. */
  function EncloseAll(dates: seq<int>): (r: ValidRange)
    requires dates != []
    ensures forall i :: 0 <= i < |dates| ==> Contains(r, dates[i])
    ensures forall v :: Contains(r, v) <==> MinOf(dates) <= v <= MaxOf(dates)
  {
    Range(Below(MinOf(dates)), Above(MaxOf(dates)))
  }

  function LowerEndpoint(r: ValidRange): int
    requires r.lower != BelowAll
  {
    r.lower.at
  }

  function UpperEndpoint(r: ValidRange): int
    requires r.upper != AboveAll
  {
    r.upper.at
  }

  // ---------------------------------------------------------------------------------------
  // Collecting the incoming edges

  /** The exceptions of a node's scheduling: IllegalArgumentException is logged and the
      walk goes on, IllegalStateException (a missing endpoint) ends the run. */
  datatype Failure = IllegalArgument | IllegalState

  /** A dependency edge as `refresh` leaves it: whether it still applies, its kind, and the
      ranges it allows for the start and end of the dependant task. */
  datatype EdgeKind = Strong | Weak | Subtask
  datatype Edge = Edge(refreshed: bool, kind: EdgeKind, startRange: ValidRange, endRange: ValidRange)

  /** The range variables of `schedule` and the list of subtask dates. */
  datatype Collected = Collected(start: ValidRange, end: ValidRange,
                                 weakStart: ValidRange, weakEnd: ValidRange, subtaskDates: seq<int>)

  const Initial := Collected(All, All, All, All, [])

  /** One incoming edge taken into account. */
  function Absorb(c: Collected, e: Edge): (r: Result<Collected, Failure>)
    ensures r.Ok? && e.kind != Strong ==> r.value.start == c.start && r.value.end == c.end
    ensures r.Ok? && e.kind != Weak ==> r.value.weakStart == c.weakStart && r.value.weakEnd == c.weakEnd
    ensures r.Ok? && (!e.refreshed || e.kind != Subtask) ==> r.value.subtaskDates == c.subtaskDates
  {
    if !e.refreshed then Ok(c)
    else match e.kind
      case Subtask =>
        if e.startRange.upper == AboveAll || e.endRange.lower == BelowAll then Err(IllegalState)
        else Ok(c.(subtaskDates := c.subtaskDates + [UpperEndpoint(e.startRange), LowerEndpoint(e.endRange)]))
      case Weak =>
        var ws :- Intersect(c.weakStart, e.startRange);
        var we :- Intersect(c.weakEnd, e.endRange);
        Ok(c.(weakStart := ws, weakEnd := we))
      case Strong =>
        var s :- Intersect(c.start, e.startRange);
        var en :- Intersect(c.end, e.endRange);
        Ok(c.(start := s, end := en))
  }

  /** All incoming edges, in order. */
  function Collect(c: Collected, edges: seq<Edge>): Result<Collected, Failure>
    decreases |edges|
  {
    if edges == [] then Ok(c)
    else match Absorb(c, edges[0])
      case Err(f) => Err(f)
      case Ok(c2) => Collect(c2, edges[1..])
  }

  predicate StrongEdge(e: Edge) { e.refreshed && e.kind == Strong }

  /** The collected start range holds exactly the dates every applying strong edge allows
      for the start (and so does the end range for the end). */
  lemma {:induction false} CollectStrong(c: Collected, edges: seq<Edge>, v: int)
    requires Collect(c, edges).Ok?
    ensures Contains(Collect(c, edges).value.start, v) <==>
      Contains(c.start, v) && forall i :: 0 <= i < |edges| && StrongEdge(edges[i]) ==> Contains(edges[i].startRange, v)
    ensures Contains(Collect(c, edges).value.end, v) <==>
      Contains(c.end, v) && forall i :: 0 <= i < |edges| && StrongEdge(edges[i]) ==> Contains(edges[i].endRange, v)
    decreases |edges|
  {
    if edges != [] {
      var e := edges[0];
      var c2 := Absorb(c, e).value;
      CollectStrong(c2, edges[1..], v);
      if StrongEdge(e) {
        IntersectContains(c.start, e.startRange, v);
        IntersectContains(c.end, e.endRange, v);
      }
      forall i | 1 <= i < |edges| ensures edges[i] == edges[1..][i - 1] {
      }
    }
  }

  predicate SubtaskEdgeLacksEndpoint(e: Edge) {
    e.refreshed && e.kind == Subtask && (e.startRange.upper == AboveAll || e.endRange.lower == BelowAll)
  }

  /** Only a subtask edge without the endpoints it is read for raises IllegalStateException. */
  lemma {:induction false} CollectIllegalState(c: Collected, edges: seq<Edge>)
    requires Collect(c, edges) == Err(IllegalState)
    ensures exists i :: 0 <= i < |edges| && SubtaskEdgeLacksEndpoint(edges[i])
    decreases |edges|
  {
    var e := edges[0];
    match Absorb(c, e)
    case Err(f) =>
      assert SubtaskEdgeLacksEndpoint(edges[0]);
    case Ok(c2) =>
      CollectIllegalState(c2, edges[1..]);
      var i :| 0 <= i < |edges[1..]| && SubtaskEdgeLacksEndpoint(edges[1..][i]);
      assert edges[1..][i] == edges[i + 1];
  }

  /** Edges whose `refresh()` is false contribute nothing. */
  function Refreshed(edges: seq<Edge>): (r: seq<Edge>)
    ensures forall i :: 0 <= i < |r| ==> r[i].refreshed
  {
    if edges == [] then []
    else (if edges[0].refreshed then [edges[0]] else []) + Refreshed(edges[1..])
  }

  lemma {:induction false} CollectIgnoresStale(c: Collected, edges: seq<Edge>)
    ensures Collect(c, edges) == Collect(c, Refreshed(edges))
    decreases |edges|
  {
    if edges != [] {
      var e := edges[0];
      if e.refreshed {
        var r := Refreshed(edges);
        assert r == [e] + Refreshed(edges[1..]);
        assert r[0] == e && r[1..] == Refreshed(edges[1..]);
        match Absorb(c, e)
        case Err(f) =>
        case Ok(c2) => CollectIgnoresStale(c2, edges[1..]);
      } else {
        assert Refreshed(edges) == Refreshed(edges[1..]);
        assert Collect(c, edges) == Collect(c, edges[1..]);
        CollectIgnoresStale(c, edges[1..]);
      }
    }
  }

  // ---------------------------------------------------------------------------------------
  // Combining the ranges and moving the task

  /** The third-date constraint of a task; only EARLIESTBEGIN matters here. */
  datatype ThirdDateConstraint = EarliestBegin | OtherConstraint

  /** The task of a node: its dates, its third date and constraint, and whether it has
      nested tasks. */
  datatype TaskInfo = TaskInfo(start: int, end: int, constraint: ThirdDateConstraint,
                               third: Option<int>, hasNested: bool)

  /** No range holding every date of two non-empty ranges misses a date of their span. */
  lemma SpanSmallest(a: ValidRange, b: ValidRange, s: Range, x: int, y: int, v: int)
    requires Contains(a, x) && Contains(b, y)
    requires forall w :: Contains(a, w) || Contains(b, w) ==> Contains(s, w)
    requires Contains(Span(a, b), v)
    ensures Contains(s, v)
  {
    var low := if IsLessThan(a.lower, v) then x else y;
    var high := if !IsLessThan(a.upper, v) then x else y;
    assert Contains(s, low) && Contains(s, high);
    if low > v {
      assert Contains(if IsLessThan(a.lower, v) then a else b, v);
    } else if high < v {
      assert Contains(if !IsLessThan(a.upper, v) then a else b, v);
    } else {
      assert IsLessThan(s.lower, v) by {
        assert IsLessThan(s.lower, low);
      }
      assert !IsLessThan(s.upper, v) by {
        assert !IsLessThan(s.upper, high);
      }
    }
  }

  /** The span of the subtasks, or the task itself when it has none. */
  function SubtasksSpan(c: Collected, t: TaskInfo): Result<ValidRange, Failure> {
    if c.subtaskDates == [] then Closed(t.start, t.end) else Ok(EncloseAll(c.subtaskDates))
  }

  /** A bounded strong range is narrowed by the weak one; an unbounded one takes the weak
      range, when that is bounded, narrowed by the given subtree range. */
  function WithWeak(strong: ValidRange, weak: ValidRange, subtree: ValidRange): (r: Result<ValidRange, Failure>)
    ensures strong != All ==> r == Intersect(strong, weak)
    ensures strong == All && weak != All ==> r == Intersect(weak, subtree)
    ensures strong == All && weak == All ==> r == Ok(All)
  {
    if strong != All then Intersect(strong, weak)
    else if weak != All then Intersect(weak, subtree)
    else Ok(strong)
  }

  /** The final start and end ranges of `schedule`. */
  function Combine(c: Collected, t: TaskInfo): Result<(ValidRange, ValidRange), Failure> {
    var span :- SubtasksSpan(c, t);
    var start :- WithWeak(c.start, c.weakStart, Span(span, AtLeast(t.start)));
    var end :- WithWeak(c.end, c.weakEnd, Span(span, AtMost(t.end)));
    var start :- if t.constraint == EarliestBegin && t.third.Some?
                 then Intersect(start, AtLeast(t.third.value)) else Ok(start);
    if c.subtaskDates == [] then Ok((start, end))
    else
      var start :- Intersect(start, span);
      var end :- Intersect(end, span);
      Ok((start, end))
  }

  /** `Combine` fails only with IllegalArgumentException. */
  lemma CombineFailure(c: Collected, t: TaskInfo)
    requires Combine(c, t).Err?
    ensures Combine(c, t).error == IllegalArgument
  {
  }

  /** With EARLIESTBEGIN and a third date, the final start range starts no earlier than
      that date. */
  lemma CombineEarliestBegin(c: Collected, t: TaskInfo)
    requires Combine(c, t).Ok? && t.constraint == EarliestBegin && t.third.Some?
    ensures CutLe(Below(t.third.value), Combine(c, t).value.0.lower)
  {
    var span := SubtasksSpan(c, t).value;
    var s1 := WithWeak(c.start, c.weakStart, Span(span, AtLeast(t.start))).value;
    var s2 := Intersect(s1, AtLeast(t.third.value)).value;
    if c.subtaskDates != [] {
      var s3 := Intersect(s2, span).value;
      CutLeTransitive(Below(t.third.value), s2.lower, s3.lower);
    }
  }

  /** A task with subtasks gets ranges inside the span of its subtasks. */
  lemma CombineSubtasks(c: Collected, t: TaskInfo)
    requires Combine(c, t).Ok? && c.subtaskDates != []
    ensures var span := EncloseAll(c.subtaskDates);
      CutLe(span.lower, Combine(c, t).value.0.lower) && CutLe(Combine(c, t).value.0.upper, span.upper)
      && CutLe(span.lower, Combine(c, t).value.1.lower) && CutLe(Combine(c, t).value.1.upper, span.upper)
  {
  }

  /** `modifyTaskStart`: nothing when the start is already there; a task with nested tasks
      gets the new start, any other task is shifted, keeping its length. */
  function ModifyStart(t: TaskInfo, newStart: int): (r: TaskInfo)
    ensures r.start == newStart
    ensures t.start == newStart ==> r == t
    ensures t.start != newStart && t.hasNested ==> r == t.(start := newStart)
    ensures !t.hasNested ==> r.end - r.start == t.end - t.start
  {
    if t.start == newStart then t
    else if t.hasNested then t.(start := newStart)
    else t.(start := newStart, end := t.end + (newStart - t.start))
  }

  /** `modifyTaskEnd`: nothing when the end is already there, else the new end. */
  function ModifyEnd(t: TaskInfo, newEnd: int): (r: TaskInfo)
    ensures r.end == newEnd
    ensures r.start == t.start && r.constraint == t.constraint && r.third == t.third
    ensures t.end == newEnd ==> r == t
  {
    if t.end == newEnd then t else t.(end := newEnd)
  }

  /** The end date chosen for an upper endpoint: when the endpoint is a working day right
      after holidays, the start of those holidays if that lies after the task's start.
      `holidayStart` stands for the calendar's answer (the closest working and non-working
      dates before the endpoint, adjusted to the unit of the task's duration). */
  function EndDate(upper: int, start: int, holidayStart: int -> Option<int>): (d: int)
    ensures holidayStart(upper).Some? && holidayStart(upper).value > start ==> d == holidayStart(upper).value
    ensures !(holidayStart(upper).Some? && holidayStart(upper).value > start) ==> d == upper
  {
    match holidayStart(upper)
    case Some(p) => if p > start then p else upper
    case None => upper
  }

  /** What `schedule` makes of a task, or the exception it raises. */
  function ScheduleTask(t: TaskInfo, edges: seq<Edge>, holidayStart: int -> Option<int>): Result<TaskInfo, Failure> {
    var c :- Collect(Initial, edges);
    var ranges :- Combine(c, t);
    var t1 := if ranges.0.lower != BelowAll then ModifyStart(t, LowerEndpoint(ranges.0)) else t;
    if ranges.1.upper != AboveAll then Ok(ModifyEnd(t1, EndDate(UpperEndpoint(ranges.1), t1.start, holidayStart)))
    else Ok(t1)
  }

  /** A task scheduled under EARLIESTBEGIN with a third date starts no earlier than it. */
  lemma ScheduleEarliestBegin(t: TaskInfo, edges: seq<Edge>, holidayStart: int -> Option<int>)
    requires ScheduleTask(t, edges, holidayStart).Ok?
    requires t.constraint == EarliestBegin && t.third.Some?
    ensures ScheduleTask(t, edges, holidayStart).value.start >= t.third.value
  {
    var c := Collect(Initial, edges).value;
    CombineEarliestBegin(c, t);
  }

  /** Only a subtask edge lacking an endpoint stops the whole run. */
  lemma ScheduleIllegalState(t: TaskInfo, edges: seq<Edge>, holidayStart: int -> Option<int>)
    requires ScheduleTask(t, edges, holidayStart) == Err(IllegalState)
    ensures exists i :: 0 <= i < |edges| && SubtaskEdgeLacksEndpoint(edges[i])
  {
    match Collect(Initial, edges)
    case Err(f) => CollectIllegalState(Initial, edges);
    case Ok(c) => CombineFailure(c, t);
  }

  /** A task with no applying edge, no subtasks and no EARLIESTBEGIN constraint stays
      where it is. */
  lemma ScheduleUnconstrained(t: TaskInfo, edges: seq<Edge>, holidayStart: int -> Option<int>)
    requires forall i :: 0 <= i < |edges| ==> !edges[i].refreshed
    requires t.start <= t.end && t.constraint != EarliestBegin
    ensures ScheduleTask(t, edges, holidayStart) == Ok(t)
  {
    CollectIgnoresStale(Initial, edges);
    assert Refreshed(edges) == [] by {
      if Refreshed(edges) != [] {
        StaleRefreshed(edges);
      }
    }
  }

  lemma {:induction false} StaleRefreshed(edges: seq<Edge>)
    requires forall i :: 0 <= i < |edges| ==> !edges[i].refreshed
    ensures Refreshed(edges) == []
  {
    if edges != [] {
      StaleRefreshed(edges[1..]);
    }
  }

  // ---------------------------------------------------------------------------------------
  // The walk over the graph

  /** A node of the dependency graph: its task and its incoming edges. */
  type TaskId = int
  datatype Node = Node(task: TaskId, incoming: seq<Edge>)

  predicate NodesKnown(layers: seq<seq<Node>>, tasks: set<TaskId>) {
    forall i, j :: 0 <= i < |layers| && 0 <= j < |layers[i]| ==> layers[i][j].task in tasks
  }

  /** The state of a walk: the tasks, the tasks whose IllegalArgumentException was logged,
      and whether an unchecked exception ended it. */
  datatype Walk = Walk(tasks: map<TaskId, TaskInfo>, logged: seq<TaskId>, aborted: bool)

  /** The walk after one node: its task rescheduled, its IllegalArgumentException logged,
      or the walk ended by an IllegalStateException. */
  function StepNode(w: Walk, n: Node, holidayStart: int -> Option<int>): (r: Walk)
    requires n.task in w.tasks
    ensures r.tasks.Keys == w.tasks.Keys
    ensures r.logged == w.logged || r.logged == w.logged + [n.task]
  {
    match ScheduleTask(w.tasks[n.task], n.incoming, holidayStart)
    case Ok(t) => w.(tasks := w.tasks[n.task := t])
    case Err(IllegalArgument) => w.(logged := w.logged + [n.task])
    case Err(IllegalState) => w.(aborted := true)
  }

  /** What `schedule` leaves behind, read as a step of the walk. */
  lemma ScheduledStep(w: Walk, n: Node, holidayStart: int -> Option<int>, failure: Option<Failure>, tasks: map<TaskId, TaskInfo>)
    requires n.task in w.tasks
    requires match ScheduleTask(w.tasks[n.task], n.incoming, holidayStart)
      case Ok(t) => failure.None? && tasks == w.tasks[n.task := t]
      case Err(f) => failure == Some(f) && tasks == w.tasks
    ensures StepNode(w, n, holidayStart) ==
      if failure == Some(IllegalState) then w.(aborted := true)
      else w.(tasks := tasks, logged := if failure == Some(IllegalArgument) then w.logged + [n.task] else w.logged)
  {
  }

  function WalkNodes(w: Walk, nodes: seq<Node>, holidayStart: int -> Option<int>): (r: Walk)
    requires forall j :: 0 <= j < |nodes| ==> nodes[j].task in w.tasks
    ensures r.tasks.Keys == w.tasks.Keys
    decreases |nodes|
  {
    if w.aborted || nodes == [] then w
    else WalkNodes(StepNode(w, nodes[0], holidayStart), nodes[1..], holidayStart)
  }

  function WalkLayers(w: Walk, layers: seq<seq<Node>>, holidayStart: int -> Option<int>): (r: Walk)
    requires NodesKnown(layers, w.tasks.Keys)
    ensures r.tasks.Keys == w.tasks.Keys
    decreases |layers|
  {
    if layers == [] then w
    else
      var w2 := WalkNodes(w, layers[0], holidayStart);
      assert NodesKnown(layers[1..], w2.tasks.Keys) by {
        forall i, j | 0 <= i < |layers[1..]| && 0 <= j < |layers[1..][i]|
          ensures layers[1..][i][j].task in w2.tasks
        {
          assert layers[1..][i] == layers[i + 1];
        }
      }
      WalkLayers(w2, layers[1..], holidayStart)
  }

  predicate NoMissingEndpoints(nodes: seq<Node>) {
    forall j, i :: 0 <= j < |nodes| && 0 <= i < |nodes[j].incoming| ==> !SubtaskEdgeLacksEndpoint(nodes[j].incoming[i])
  }

  /** Without a subtask edge lacking an endpoint a walk visits every node: failures of
      single nodes are logged and the walk goes on. */
  lemma {:induction false} WalkNodesCompletes(w: Walk, nodes: seq<Node>, holidayStart: int -> Option<int>)
    requires forall j :: 0 <= j < |nodes| ==> nodes[j].task in w.tasks
    requires !w.aborted && NoMissingEndpoints(nodes)
    ensures !WalkNodes(w, nodes, holidayStart).aborted
    decreases |nodes|
  {
    if nodes != [] {
      var n := nodes[0];
      if ScheduleTask(w.tasks[n.task], n.incoming, holidayStart) == Err(IllegalState) {
        ScheduleIllegalState(w.tasks[n.task], n.incoming, holidayStart);
      }
      var w2 := StepNode(w, n, holidayStart);
      assert NoMissingEndpoints(nodes[1..]) by {
        forall j, i | 0 <= j < |nodes[1..]| && 0 <= i < |nodes[1..][j].incoming|
          ensures !SubtaskEdgeLacksEndpoint(nodes[1..][j].incoming[i])
        {
          assert nodes[1..][j] == nodes[j + 1];
        }
      }
      WalkNodesCompletes(w2, nodes[1..], holidayStart);
    }
  }

  /** A logged failure never hides a node: the tasks logged in a walk are tasks of nodes
      whose scheduling failed. */
  lemma {:induction false} WalkNodesLogsOnlyNodes(w: Walk, nodes: seq<Node>, holidayStart: int -> Option<int>)
    requires forall j :: 0 <= j < |nodes| ==> nodes[j].task in w.tasks
    ensures var r := WalkNodes(w, nodes, holidayStart);
      |w.logged| <= |r.logged| && r.logged[..|w.logged|] == w.logged
      && forall k :: |w.logged| <= k < |r.logged| ==> exists j :: 0 <= j < |nodes| && nodes[j].task == r.logged[k]
    decreases |nodes|
  {
    if !w.aborted && nodes != [] {
      var n := nodes[0];
      var w2 := StepNode(w, n, holidayStart);
      WalkNodesLogsOnlyNodes(w2, nodes[1..], holidayStart);
      var r := WalkNodes(w, nodes, holidayStart);
      assert r == WalkNodes(w2, nodes[1..], holidayStart);
      LoggedExtension(w.logged, w2.logged, r.logged, n, nodes);
    }
  }

  lemma LoggedExtension(logged: seq<TaskId>, logged2: seq<TaskId>, r: seq<TaskId>, n: Node, nodes: seq<Node>)
    requires nodes != [] && nodes[0] == n
    requires logged2 == logged || logged2 == logged + [n.task]
    requires |logged2| <= |r| && r[..|logged2|] == logged2
    requires forall k :: |logged2| <= k < |r| ==> exists j :: 0 <= j < |nodes[1..]| && nodes[1..][j].task == r[k]
    ensures |logged| <= |r| && r[..|logged|] == logged
    ensures forall k :: |logged| <= k < |r| ==> exists j :: 0 <= j < |nodes| && nodes[j].task == r[k]
  {
    forall k | |logged| <= k < |r|
      ensures exists j :: 0 <= j < |nodes| && nodes[j].task == r[k]
    {
      if k < |logged2| {
        assert r[k] == n.task;
      } else {
        var j :| 0 <= j < |nodes[1..]| && nodes[1..][j].task == r[k];
        assert nodes[j + 1].task == r[k];
      }
    }
    assert r[..|logged|] == logged by {
      assert r[..|logged2|] == logged2;
      assert logged2[..|logged|] == logged;
    }
  }

  // ---------------------------------------------------------------------------------------
  // The scheduler object

  class SchedulerImpl {
    var enabled: bool
    var isRunning: bool
    var tasks: map<TaskId, TaskInfo>
    var logged: seq<TaskId>
    const holidayStart: int -> Option<int>

    constructor(tasks: map<TaskId, TaskInfo>, holidayStart: int -> Option<int>)
      ensures enabled && !isRunning && this.tasks == tasks && logged == []
      ensures this.holidayStart == holidayStart
    {
      enabled := true;
      isRunning := false;
      this.tasks := tasks;
      logged := [];
      this.holidayStart := holidayStart;
    }

    method SetEnabled(enabled: bool)
      modifies this
      ensures this.enabled == enabled
      ensures isRunning == old(isRunning) && tasks == old(tasks) && logged == old(logged)
    {
      this.enabled := enabled;
    }

    /** `run`: nothing when disabled or already running; otherwise the walk, with the
        running flag cleared afterwards, also when an exception ends the walk. */
    method Run(layers: seq<seq<Node>>) returns (thrown: bool)
      requires NodesKnown(layers, tasks.Keys)
      modifies this
      ensures isRunning == old(isRunning) && enabled == old(enabled)
      ensures !old(enabled) || old(isRunning) ==> tasks == old(tasks) && logged == old(logged) && !thrown
      ensures old(enabled) && !old(isRunning) ==>
        var w := WalkLayers(Walk(old(tasks), old(logged), false), layers, holidayStart);
        tasks == w.tasks && logged == w.logged && thrown == w.aborted
    {
      if !enabled || isRunning {
        return false;
      }
      isRunning := true;
      thrown := DoRun(layers);
      isRunning := false;
    }

    /** `doRun`: the layers in order, every node of each. */
    method DoRun(layers: seq<seq<Node>>) returns (thrown: bool)
      requires NodesKnown(layers, tasks.Keys)
      modifies this
      ensures var w := WalkLayers(Walk(old(tasks), old(logged), false), layers, holidayStart);
        tasks == w.tasks && logged == w.logged && thrown == w.aborted
      ensures enabled == old(enabled) && isRunning == old(isRunning)
    {
      var i := 0;
      while i < |layers|
        invariant 0 <= i <= |layers|
        invariant NodesKnown(layers[i..], tasks.Keys)
        invariant WalkLayers(Walk(old(tasks), old(logged), false), layers, holidayStart)
               == WalkLayers(Walk(tasks, logged, false), layers[i..], holidayStart)
        invariant enabled == old(enabled) && isRunning == old(isRunning)
      {
        assert layers[i..][0] == layers[i] && layers[i..][1..] == layers[i + 1..];
        thrown := WalkLayer(layers[i]);
        if thrown {
          WalkLayersAborted(Walk(tasks, logged, true), layers[i + 1..], holidayStart);
          return;
        }
        i := i + 1;
      }
      return false;
    }

    /** The nodes of one layer; an IllegalArgumentException of one node is logged and the
        next node scheduled. */
    method WalkLayer(nodes: seq<Node>) returns (thrown: bool)
      requires forall j :: 0 <= j < |nodes| ==> nodes[j].task in tasks
      modifies this
      ensures var w := WalkNodes(Walk(old(tasks), old(logged), false), nodes, holidayStart);
        tasks == w.tasks && logged == w.logged && thrown == w.aborted
      ensures enabled == old(enabled) && isRunning == old(isRunning)
    {
      var k := 0;
      while k < |nodes|
        invariant 0 <= k <= |nodes|
        invariant tasks.Keys == old(tasks).Keys
        invariant WalkNodes(Walk(old(tasks), old(logged), false), nodes, holidayStart)
               == WalkNodes(Walk(tasks, logged, false), nodes[k..], holidayStart)
        invariant enabled == old(enabled) && isRunning == old(isRunning)
      {
        var n := nodes[k];
        assert nodes[k..][0] == n && nodes[k..][1..] == nodes[k + 1..];
        ghost var before := Walk(tasks, logged, false);
        assert WalkNodes(before, nodes[k..], holidayStart)
            == WalkNodes(StepNode(before, n, holidayStart), nodes[k + 1..], holidayStart);
        thrown := Step(n);
        if thrown {
          assert WalkNodes(Walk(tasks, logged, true), nodes[k + 1..], holidayStart) == Walk(tasks, logged, true);
          return;
        }
        k := k + 1;
      }
      return false;
    }

    /** One node of a layer: `schedule`, with an IllegalArgumentException logged. */
    method Step(n: Node) returns (thrown: bool)
      requires n.task in tasks
      modifies this
      ensures var w := StepNode(Walk(old(tasks), old(logged), false), n, holidayStart);
        tasks == w.tasks && logged == w.logged && thrown == w.aborted
      ensures enabled == old(enabled) && isRunning == old(isRunning)
    {
      ghost var before := Walk(tasks, logged, false);
      var failure := Schedule(n);
      ScheduledStep(before, n, holidayStart, failure, tasks);
      if failure == Some(IllegalArgument) {
        logged := logged + [n.task];
      }
      thrown := failure == Some(IllegalState);
    }

    /** `schedule` for one node: the incoming edges narrow the ranges, then the task is
        moved. Any exception leaves the task as it was. */
    method Schedule(node: Node) returns (failure: Option<Failure>)
      requires node.task in tasks
      modifies this
      ensures match ScheduleTask(old(tasks)[node.task], node.incoming, holidayStart)
        case Ok(t) => failure.None? && tasks == old(tasks)[node.task := t]
        case Err(f) => failure == Some(f) && tasks == old(tasks)
      ensures logged == old(logged) && enabled == old(enabled) && isRunning == old(isRunning)
    {
      var c := CollectEdges(node.incoming);
      if c.Err? {
        return Some(c.error);
      }
      var t := tasks[node.task];
      var ranges := Combine(c.value, t);
      if ranges.Err? {
        return Some(ranges.error);
      }
      var (startRange, endRange) := ranges.value;
      if startRange.lower != BelowAll {
        ModifyTaskStart(node.task, LowerEndpoint(startRange));
      }
      if endRange.upper != AboveAll {
        var endDate := EndDate(UpperEndpoint(endRange), tasks[node.task].start, holidayStart);
        ModifyTaskEnd(node.task, endDate);
      }
      return None;
    }

    /** `modifyTaskStart` through the task's mutator. */
    method ModifyTaskStart(task: TaskId, newStart: int)
      requires task in tasks
      modifies this
      ensures tasks == old(tasks)[task := ModifyStart(old(tasks)[task], newStart)]
      ensures logged == old(logged) && enabled == old(enabled) && isRunning == old(isRunning)
    {
      var t := tasks[task];
      if t.start == newStart {
        return;
      }
      if t.hasNested {
        tasks := tasks[task := t.(start := newStart)];
      } else {
        var shift := newStart - t.start;
        tasks := tasks[task := t.(start := t.start + shift, end := t.end + shift)];
      }
    }

    /** `modifyTaskEnd` through the task's mutator. */
    method ModifyTaskEnd(task: TaskId, newEnd: int)
      requires task in tasks
      modifies this
      ensures tasks == old(tasks)[task := ModifyEnd(old(tasks)[task], newEnd)]
      ensures logged == old(logged) && enabled == old(enabled) && isRunning == old(isRunning)
    {
      var t := tasks[task];
      if t.end == newEnd {
        return;
      }
      tasks := tasks[task := t.(end := newEnd)];
    }
  }

  /** An aborted walk stays as it is. */
  lemma {:induction false} WalkLayersAborted(w: Walk, layers: seq<seq<Node>>, holidayStart: int -> Option<int>)
    requires w.aborted && NodesKnown(layers, w.tasks.Keys)
    ensures WalkLayers(w, layers, holidayStart) == w
    decreases |layers|
  {
    if layers != [] {
      assert NodesKnown(layers[1..], w.tasks.Keys) by {
        forall i, j | 0 <= i < |layers[1..]| && 0 <= j < |layers[1..][i]|
          ensures layers[1..][i][j].task in w.tasks
        {
          assert layers[1..][i] == layers[i + 1];
        }
      }
      WalkLayersAborted(w, layers[1..], holidayStart);
    }
  }

  /** The loop of `schedule` over the incoming edges, reassigning the four ranges and
      appending subtask dates. */
  method CollectEdges(incoming: seq<Edge>) returns (r: Result<Collected, Failure>)
    ensures r == Collect(Initial, incoming)
  {
    var startRange, endRange, weakStartRange, weakEndRange: ValidRange := All, All, All, All;
    var subtaskRanges: seq<int> := [];
    var i := 0;
    while i < |incoming|
      invariant 0 <= i <= |incoming|
      invariant Collect(Initial, incoming)
             == Collect(Collected(startRange, endRange, weakStartRange, weakEndRange, subtaskRanges), incoming[i..])
    {
      var edge := incoming[i];
      assert incoming[i..][0] == edge && incoming[i..][1..] == incoming[i + 1..];
      if edge.refreshed {
        match edge.kind {
          case Subtask =>
            if edge.startRange.upper == AboveAll || edge.endRange.lower == BelowAll {
              return Err(IllegalState);
            }
            subtaskRanges := subtaskRanges + [UpperEndpoint(edge.startRange), LowerEndpoint(edge.endRange)];
          case Weak =>
            var ws := Intersect(weakStartRange, edge.startRange);
            if ws.Err? {
              return Err(ws.error);
            }
            weakStartRange := ws.value;
            var we := Intersect(weakEndRange, edge.endRange);
            if we.Err? {
              return Err(we.error);
            }
            weakEndRange := we.value;
          case Strong =>
            var s := Intersect(startRange, edge.startRange);
            if s.Err? {
              return Err(s.error);
            }
            startRange := s.value;
            var e := Intersect(endRange, edge.endRange);
            if e.Err? {
              return Err(e.error);
            }
            endRange := e.value;
        }
      }
      i := i + 1;
    }
    return Ok(Collected(startRange, endRange, weakStartRange, weakEndRange, subtaskRanges));
  }
}
