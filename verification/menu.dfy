/** Menu building. A menu is described by a program of builder calls (`items`, `separator`,
    `submenu` with the calls made inside it). Three builders run such programs: the list
    builder flattens it into one action list with submenu brackets, the Swing builder keeps a
    stack of open menus and also replays such a list, and the JavaFX builder keeps a stack of
    open menus for the duration of each submenu. Also the conversion of a Swing menu bar. */
module Menus {
  import opened Wrappers

  /** A `GPAction` as the builders see it: the SEPARATOR and SUBMENU_END markers, or an
      action with its name, its IS_SUBMENU flag and its SELECTED_KEY value (null if none). */
  datatype GPAction = SeparatorAction | SubmenuEndAction | Action(name: string, isSubmenu: bool, selected: Option<bool>)

  /** A built menu item. */
  datatype MenuItem = SeparatorItem | ActionItem(action: GPAction) | CheckBoxItem(action: GPAction)
                    | SubMenu(title: string, items: seq<MenuItem>)

  /** The calls a piece of menu-building code makes on its builder. */
  datatype Call = Items(actions: seq<GPAction>) | SeparatorCall | Submenu(title: string, body: seq<Call>)

  /** `asMenuItem`: a separator for SEPARATOR, a check box when SELECTED_KEY is set, a plain
      item otherwise. */
  function AsMenuItem(a: GPAction): (item: MenuItem)
    ensures a == SeparatorAction <==> item == SeparatorItem
    ensures item.CheckBoxItem? <==> a.Action? && a.selected.Some?
    ensures !item.SeparatorItem? ==> !item.SubMenu? && item.action == a
  {
    match a
    case SeparatorAction => SeparatorItem
    case Action(_, _, Some(_)) => CheckBoxItem(a)
    case _ => ActionItem(a)
  }

  /** An action that is neither a submenu header nor the submenu end marker. */
  predicate Ordinary(a: GPAction) {
    a != SubmenuEndAction && !(a.Action? && a.isSubmenu)
  }

  /** Code whose `items` calls pass only ordinary actions. */
  predicate WellFormed(p: seq<Call>) {
    forall i :: 0 <= i < |p| ==> CallWellFormed(p[i])
  }

  predicate CallWellFormed(c: Call) {
    match c
    case Items(actions) => forall j :: 0 <= j < |actions| ==> Ordinary(actions[j])
    case SeparatorCall => true
    case Submenu(_, body) => WellFormed(body)
  }

  function MapAsMenuItem(actions: seq<GPAction>): (items: seq<MenuItem>)
    ensures |items| == |actions|
    ensures forall i :: 0 <= i < |actions| ==> items[i] == AsMenuItem(actions[i])
  {
    if actions == [] then [] else [AsMenuItem(actions[0])] + MapAsMenuItem(actions[1..])
  }

  /** The menu tree a program describes, as the JavaFX builder builds it. */
  function Tree(p: seq<Call>): seq<MenuItem>
    decreases p
  {
    if p == [] then [] else CallTree(p[0]) + Tree(p[1..])
  }

  function CallTree(c: Call): seq<MenuItem>
    decreases c
  {
    match c
    case Items(actions) => MapAsMenuItem(actions)
    case SeparatorCall => [SeparatorItem]
    case Submenu(title, body) => [SubMenu(title, Tree(body))]
  }

  /** The submenu header `MenuBuilderAsList.submenu` creates. */
  function Header(title: string): GPAction { Action(title, true, None) }

  /** The list a program flattens to: the header, the submenu's own list and SUBMENU_END
      stand for a submenu. */
  function Flatten(p: seq<Call>): seq<GPAction>
    decreases p
  {
    if p == [] then [] else FlattenCall(p[0]) + Flatten(p[1..])
  }

  function FlattenCall(c: Call): seq<GPAction>
    decreases c
  {
    match c
    case Items(actions) => actions
    case SeparatorCall => [SeparatorAction]
    case Submenu(title, body) => [Header(title)] + Flatten(body) + [SubmenuEndAction]
  }

  lemma {:induction false} FlattenAppend(p: seq<Call>, q: seq<Call>)
    ensures Flatten(p + q) == Flatten(p) + Flatten(q)
  {
    if p != [] {
      assert (p + q)[1..] == p[1..] + q;
      FlattenAppend(p[1..], q);
    } else {
      assert p + q == q;
    }
  }

  // ---------------------------------------------------------------------------------------
  // Balanced brackets

  /** The list closes exactly the `depth` submenus open before it and never closes more. */
  predicate BalancedAt(actions: seq<GPAction>, depth: nat) {
    if actions == [] then depth == 0
    else if actions[0].Action? && actions[0].isSubmenu then BalancedAt(actions[1..], depth + 1)
    else if actions[0] == SubmenuEndAction then depth > 0 && BalancedAt(actions[1..], depth - 1)
    else BalancedAt(actions[1..], depth)
  }

  predicate Balanced(actions: seq<GPAction>) { BalancedAt(actions, 0) }

  lemma {:induction false} BalancedPrefix(p: seq<Call>, rest: seq<GPAction>, depth: nat)
    requires WellFormed(p)
    ensures BalancedAt(Flatten(p) + rest, depth) <==> BalancedAt(rest, depth)
    decreases p, 1
  {
    if p != [] {
      assert Flatten(p) + rest == FlattenCall(p[0]) + (Flatten(p[1..]) + rest);
      BalancedPrefix(p[1..], rest, depth);
      BalancedCall(p[0], Flatten(p[1..]) + rest, depth);
    } else {
      assert Flatten(p) + rest == rest;
    }
  }

  lemma {:induction false} BalancedCall(c: Call, rest: seq<GPAction>, depth: nat)
    requires CallWellFormed(c)
    ensures BalancedAt(FlattenCall(c) + rest, depth) <==> BalancedAt(rest, depth)
    decreases c, 0
  {
    match c
    case Items(actions) => BalancedOrdinary(actions, rest, depth);
    case SeparatorCall => assert ([SeparatorAction] + rest)[1..] == rest;
    case Submenu(title, body) =>
      var s := [Header(title)] + Flatten(body) + [SubmenuEndAction] + rest;
      assert s[1..] == Flatten(body) + ([SubmenuEndAction] + rest);
      BalancedPrefix(body, [SubmenuEndAction] + rest, depth + 1);
      assert ([SubmenuEndAction] + rest)[1..] == rest;
  }

  lemma {:induction false} BalancedOrdinary(actions: seq<GPAction>, rest: seq<GPAction>, depth: nat)
    requires forall j :: 0 <= j < |actions| ==> Ordinary(actions[j])
    ensures BalancedAt(actions + rest, depth) <==> BalancedAt(rest, depth)
  {
    if actions != [] {
      assert (actions + rest)[1..] == actions[1..] + rest;
      BalancedOrdinary(actions[1..], rest, depth);
    } else {
      assert actions + rest == rest;
    }
  }

  /** The list builder's output is a balanced bracket sequence. */
  lemma FlattenBalanced(p: seq<Call>)
    requires WellFormed(p)
    ensures Balanced(Flatten(p))
  {
    BalancedPrefix(p, [], 0);
    assert Flatten(p) + [] == Flatten(p);
  }

  // ---------------------------------------------------------------------------------------
  // MenuBuilderAsList

  class MenuBuilderAsList {
    var actionList: seq<GPAction>

    constructor()
      ensures actionList == []
    {
      actionList := [];
    }

    method Items(actions: seq<GPAction>)
      modifies this
      ensures actionList == old(actionList) + actions
    {
      actionList := actionList + actions;
    }

    method Separator()
      modifies this
      ensures actionList == old(actionList) + [SeparatorAction]
    {
      actionList := actionList + [SeparatorAction];
    }

    /** `submenu`: the code runs on a fresh builder, whose list lands between the header
        and SUBMENU_END. */
    method Submenu(title: string, body: seq<Call>)
      modifies this
      ensures actionList == old(actionList) + FlattenCall(Call.Submenu(title, body))
      decreases Call.Submenu(title, body), 0
    {
      var submenuBuilder := new MenuBuilderAsList();
      submenuBuilder.Run(body);
      actionList := actionList + [Header(title)] + submenuBuilder.actionList + [SubmenuEndAction];
    }

    /** Runs menu-building code on this builder. */
    method Run(p: seq<Call>)
      modifies this
      ensures actionList == old(actionList) + Flatten(p)
      decreases p, 1
    {
      var i := 0;
      while i < |p|
        decreases |p| - i
        invariant 0 <= i <= |p|
        invariant actionList == old(actionList) + Flatten(p[..i])
      {
        FlattenAppend(p[..i], [p[i]]);
        assert p[..i + 1] == p[..i] + [p[i]];
        assert Flatten([p[i]]) == FlattenCall(p[i]) by {
          assert [p[i]][1..] == [];
        }
        match p[i] {
          case Items(actions) => Items(actions);
          case SeparatorCall => Separator();
          case Submenu(title, body) => Submenu(title, body);
        }
        i := i + 1;
      }
      assert p[..i] == p;
    }

    /** `actions()`: a copy; the list is a value, so later calls cannot change it. */
    function Actions(): (r: seq<GPAction>)
      reads this
      ensures r == actionList
    {
      actionList
    }
  }

  // ---------------------------------------------------------------------------------------
  // The stack of open menus

  /** An open menu: its title and the items added to it so far. */
  datatype Frame = Frame(title: string, items: seq<MenuItem>)

  /** The stack of open menus, the root at index 0. A menu that is open above another is
      already an item of it; it is written into its parent when it is closed. */
  type MenuStack = seq<Frame>

  function AddItem(stack: MenuStack, item: MenuItem): (r: MenuStack)
    requires stack != []
    ensures |r| == |stack| && r[..|r| - 1] == stack[..|stack| - 1]
    ensures r[|r| - 1] == Frame(stack[|stack| - 1].title, stack[|stack| - 1].items + [item])
  {
    stack[..|stack| - 1] + [Frame(stack[|stack| - 1].title, stack[|stack| - 1].items + [item])]
  }

  function AddItems(stack: MenuStack, items: seq<MenuItem>): (r: MenuStack)
    requires stack != []
  {
    stack[..|stack| - 1] + [Frame(stack[|stack| - 1].title, stack[|stack| - 1].items + items)]
  }

  lemma AddItemsNone(stack: MenuStack)
    requires stack != []
    ensures AddItems(stack, []) == stack
  {
    var top := stack[|stack| - 1];
    assert top.items + [] == top.items;
    assert stack == stack[..|stack| - 1] + [top];
  }

  lemma AddItemsTwice(stack: MenuStack, a: seq<MenuItem>, b: seq<MenuItem>)
    requires stack != []
    ensures AddItems(AddItems(stack, a), b) == AddItems(stack, a + b)
  {
    var s1 := AddItems(stack, a);
    assert s1[..|s1| - 1] == stack[..|stack| - 1];
    var top := stack[|stack| - 1];
    assert top.items + a + b == top.items + (a + b);
  }

  function Push(stack: MenuStack, title: string): MenuStack {
    stack + [Frame(title, [])]
  }

  /** Closing the top menu below the root: it becomes the last item of its parent. */
  function Close(stack: MenuStack): (r: MenuStack)
    requires |stack| >= 2
    ensures |r| == |stack| - 1 && r[..|r| - 1] == stack[..|stack| - 2]
    ensures var parent := stack[|stack| - 2]; var child := stack[|stack| - 1];
      r[|r| - 1] == Frame(parent.title, parent.items + [SubMenu(child.title, child.items)])
  {
    var child := stack[|stack| - 1];
    AddItem(stack[..|stack| - 1], SubMenu(child.title, child.items))
  }

  // ---------------------------------------------------------------------------------------
  // MenuBuilderSwing

  /** The Swing builder's state: the open menus, and what the root holds once an unmatched
      SUBMENU_END has popped it. */
  datatype SwingMenu = SwingMenu(stack: MenuStack, closedRoot: seq<MenuItem>)

  /** `MenuBuilderSwing.add` on the state: with no open menu `peek` throws and nothing
      changes; otherwise SEPARATOR, a submenu header, SUBMENU_END, and any other action in
      this order of precedence. */
  function Step(m: SwingMenu, a: GPAction): SwingMenu {
    if m.stack == [] then m
    else if a == SeparatorAction then m.(stack := AddItem(m.stack, SeparatorItem))
    else if a.Action? && a.isSubmenu then m.(stack := Push(m.stack, a.name))
    else if a == SubmenuEndAction then
      if |m.stack| == 1 then SwingMenu([], m.stack[0].items) else m.(stack := Close(m.stack))
    else if a.Action? && a.selected.Some? then m.(stack := AddItem(m.stack, CheckBoxItem(a)))
    else m.(stack := AddItem(m.stack, ActionItem(a)))
  }

  /** Replaying a list of actions through `add`. */
  function Replay(m: SwingMenu, actions: seq<GPAction>): SwingMenu
    decreases |actions|
  {
    if actions == [] then m else Replay(Step(m, actions[0]), actions[1..])
  }

  lemma {:induction false} ReplayAppend(m: SwingMenu, a: seq<GPAction>, b: seq<GPAction>)
    ensures Replay(m, a + b) == Replay(Replay(m, a), b)
    decreases |a|
  {
    if a != [] {
      assert (a + b)[1..] == a[1..] + b;
      ReplayAppend(Step(m, a[0]), a[1..], b);
    } else {
      assert a + b == b;
    }
  }

  /** `MenuBuilderSwing` running menu-building code: `submenu` opens the submenu and leaves
      it open. */
  function RunSwing(m: SwingMenu, p: seq<Call>): SwingMenu
    decreases p
  {
    if p == [] then m else RunSwing(ExecSwing(m, p[0]), p[1..])
  }

  function ExecSwing(m: SwingMenu, c: Call): SwingMenu
    decreases c
  {
    match c
    case Items(actions) => Replay(m, actions)
    case SeparatorCall => Step(m, SeparatorAction)
    case Submenu(title, body) => if m.stack == [] then m else RunSwing(m.(stack := Push(m.stack, title)), body)
  }

  class MenuBuilderSwing {
    var stack: MenuStack
    var closedRoot: seq<MenuItem>

    /** A builder over a root menu. */
    constructor()
      ensures stack == [Frame("", [])] && closedRoot == []
    {
      stack := [Frame("", [])];
      closedRoot := [];
    }

    function State(): SwingMenu
      reads this
    {
      SwingMenu(stack, closedRoot)
    }

    /** `add`; `thrown` is the EmptyStackException of `peek` on an empty stack. */
    method Add(action: GPAction) returns (thrown: bool)
      modifies this
      ensures State() == Step(old(State()), action)
      ensures thrown <==> old(stack) == []
    {
      if stack == [] {
        return true;
      }
      thrown := false;
      if action == SeparatorAction {
        stack := AddItem(stack, SeparatorItem);
        return;
      }
      if action.Action? && action.isSubmenu {
        stack := Push(stack, action.name);
        return;
      }
      if action == SubmenuEndAction {
        if |stack| == 1 {
          closedRoot := stack[0].items;
          stack := [];
        } else {
          stack := Close(stack);
        }
        return;
      }
      if action.Action? && action.selected.Some? {
        stack := AddItem(stack, CheckBoxItem(action));
      } else {
        stack := AddItem(stack, ActionItem(action));
      }
    }

    /** `items`: each action through `add`. `thrown` is the EmptyStackException of the
        first `add` that finds no open menu; every later `add` would throw again without a
        change, so the state is that of the whole replay. */
    method Items(actions: seq<GPAction>) returns (thrown: bool)
      modifies this
      ensures State() == Replay(old(State()), actions)
      ensures thrown <==> exists k :: 0 <= k < |actions| && Replay(old(State()), actions[..k]).stack == []
    {
      thrown := false;
      var i := 0;
      while i < |actions|
        invariant 0 <= i <= |actions|
        invariant State() == Replay(old(State()), actions[..i])
        invariant thrown <==> exists k :: 0 <= k < i && Replay(old(State()), actions[..k]).stack == []
      {
        ReplayAppend(old(State()), actions[..i], [actions[i]]);
        assert actions[..i + 1] == actions[..i] + [actions[i]];
        assert [actions[i]][1..] == [];
        var t := Add(actions[i]);
        thrown := thrown || t;
        i := i + 1;
      }
      assert actions[..i] == actions;
    }

    /** `submenu`: `peek` throws EmptyStackException when no menu is open; otherwise the
        submenu is opened and the code runs in it, passing on what it throws. */
    method Submenu(title: string, body: seq<Call>) returns (thrown: bool)
      modifies this
      ensures State() == ExecSwing(old(State()), Call.Submenu(title, body))
      ensures thrown == ExecThrows(old(State()), Call.Submenu(title, body))
      decreases Call.Submenu(title, body), 0
    {
      if stack == [] {
        return true;
      }
      stack := Push(stack, title);
      thrown := Run(body);
    }

    /** Menu-building code run against this builder; `thrown` says whether one of its calls
        threw. */
    method Run(p: seq<Call>) returns (thrown: bool)
      modifies this
      ensures State() == RunSwing(old(State()), p)
      ensures thrown == RunThrows(old(State()), p)
      decreases p, 1
    {
      thrown := false;
      var i := 0;
      while i < |p|
        decreases |p| - i
        invariant 0 <= i <= |p|
        invariant RunSwing(old(State()), p) == RunSwing(State(), p[i..])
        invariant RunThrows(old(State()), p) == (thrown || RunThrows(State(), p[i..]))
      {
        assert p[i..][1..] == p[i + 1..];
        var t;
        match p[i] {
          case Items(actions) => t := Items(actions);
          case SeparatorCall => t := Add(SeparatorAction);
          case Submenu(title, body) => t := Submenu(title, body);
        }
        thrown := thrown || t;
        i := i + 1;
      }
    }
  }

  /** Some `add` of `actions`, replayed from `m`, finds no open menu. */
  predicate ReplayThrows(m: SwingMenu, actions: seq<GPAction>) {
    exists k :: 0 <= k < |actions| && Replay(m, actions[..k]).stack == []
  }

  /** Whether code run by the Swing builder from `m` throws EmptyStackException. */
  predicate RunThrows(m: SwingMenu, p: seq<Call>)
    decreases p
  {
    p != [] && (ExecThrows(m, p[0]) || RunThrows(ExecSwing(m, p[0]), p[1..]))
  }

  predicate ExecThrows(m: SwingMenu, c: Call)
    decreases c
  {
    match c
    case Items(actions) => ReplayThrows(m, actions)
    case SeparatorCall => m.stack == []
    case Submenu(title, body) => m.stack == [] || RunThrows(m.(stack := Push(m.stack, title)), body)
  }

  /** Once a call has thrown, no menu is open any more. */
  lemma {:induction false} RunThrowsStopped(m: SwingMenu, p: seq<Call>)
    requires RunThrows(m, p)
    ensures RunSwing(m, p).stack == []
    decreases p, 1
  {
    if ExecThrows(m, p[0]) {
      ExecThrowsStopped(m, p[0]);
      RunEmpty(ExecSwing(m, p[0]), p[1..]);
    } else {
      RunThrowsStopped(ExecSwing(m, p[0]), p[1..]);
    }
  }

  lemma {:induction false} ExecThrowsStopped(m: SwingMenu, c: Call)
    requires ExecThrows(m, c)
    ensures ExecSwing(m, c).stack == []
    decreases c, 0
  {
    match c
    case Items(actions) =>
      var k :| 0 <= k < |actions| && Replay(m, actions[..k]).stack == [];
      ReplayAppend(m, actions[..k], actions[k..]);
      assert actions[..k] + actions[k..] == actions;
      ReplayEmpty(Replay(m, actions[..k]), actions[k..]);
    case SeparatorCall =>
    case Submenu(title, body) =>
      if m.stack != [] {
        RunThrowsStopped(m.(stack := Push(m.stack, title)), body);
      }
  }

  /** With no menu open, code changes nothing. */
  lemma {:induction false} RunEmpty(m: SwingMenu, p: seq<Call>)
    requires m.stack == []
    ensures RunSwing(m, p) == m
    decreases |p|
  {
    if p != [] {
      match p[0] {
        case Items(actions) => ReplayEmpty(m, actions);
        case SeparatorCall =>
        case Submenu(_, _) =>
      }
      RunEmpty(ExecSwing(m, p[0]), p[1..]);
    }
  }

  /** Well-formed code run while a menu is open never throws and leaves a menu open. */
  lemma {:induction false} WellFormedNeverThrows(m: SwingMenu, p: seq<Call>)
    requires m.stack != [] && WellFormed(p)
    ensures !RunThrows(m, p) && RunSwing(m, p).stack != []
    decreases p, 1
  {
    if p != [] {
      ExecNeverThrows(m, p[0]);
      WellFormedNeverThrows(ExecSwing(m, p[0]), p[1..]);
    }
  }

  lemma {:induction false} ExecNeverThrows(m: SwingMenu, c: Call)
    requires m.stack != [] && CallWellFormed(c)
    ensures !ExecThrows(m, c) && ExecSwing(m, c).stack != []
    decreases c, 0
  {
    match c
    case Items(actions) =>
      forall k | 0 <= k <= |actions|
        ensures Replay(m, actions[..k]).stack != []
      {
        ReplayOrdinary(m, actions[..k]);
      }
      assert actions[..|actions|] == actions;
    case SeparatorCall =>
    case Submenu(title, body) =>
      WellFormedNeverThrows(m.(stack := Push(m.stack, title)), body);
  }

  /** Replaying the list builder's output through the Swing builder builds the menu tree
      the code describes, inside the menu that was open, and leaves the same menus open. */
  lemma {:induction false} ReplayFlatten(m: SwingMenu, p: seq<Call>)
    requires m.stack != [] && WellFormed(p)
    ensures Replay(m, Flatten(p)) == m.(stack := AddItems(m.stack, Tree(p)))
    decreases p, 1
  {
    if p == [] {
      AddItemsNone(m.stack);
    } else {
      ReplayAppend(m, FlattenCall(p[0]), Flatten(p[1..]));
      ReplayFlattenCall(m, p[0]);
      var m1 := m.(stack := AddItems(m.stack, CallTree(p[0])));
      ReplayFlatten(m1, p[1..]);
      AddItemsTwice(m.stack, CallTree(p[0]), Tree(p[1..]));
    }
  }

  lemma {:induction false} ReplayFlattenCall(m: SwingMenu, c: Call)
    requires m.stack != [] && CallWellFormed(c)
    ensures Replay(m, FlattenCall(c)) == m.(stack := AddItems(m.stack, CallTree(c)))
    decreases c, 0
  {
    match c
    case Items(actions) => ReplayOrdinary(m, actions);
    case SeparatorCall =>
      assert [SeparatorAction][1..] == [];
    case Submenu(title, body) =>
      var pushed := m.(stack := Push(m.stack, title));
      assert Step(m, Header(title)) == pushed;
      var s := [Header(title)] + Flatten(body) + [SubmenuEndAction];
      assert s[1..] == Flatten(body) + [SubmenuEndAction];
      ReplayAppend(pushed, Flatten(body), [SubmenuEndAction]);
      ReplayFlatten(pushed, body);
      var filled := pushed.(stack := AddItems(pushed.stack, Tree(body)));
      assert filled.stack == m.stack + [Frame(title, Tree(body))] by {
        assert [] + Tree(body) == Tree(body);
      }
      assert [SubmenuEndAction][1..] == [];
      StepCloseFilled(m, title, Tree(body));
  }

  /** SUBMENU_END on a filled submenu above `m`'s menus adds it to `m`'s top menu. */
  lemma StepCloseFilled(m: SwingMenu, title: string, items: seq<MenuItem>)
    requires m.stack != []
    ensures Step(m.(stack := m.stack + [Frame(title, items)]), SubmenuEndAction)
      == m.(stack := AddItems(m.stack, [SubMenu(title, items)]))
  {
    var stack := m.stack + [Frame(title, items)];
    assert stack[..|stack| - 1] == m.stack;
  }

  lemma {:induction false} ReplayOrdinary(m: SwingMenu, actions: seq<GPAction>)
    requires m.stack != []
    requires forall j :: 0 <= j < |actions| ==> Ordinary(actions[j])
    ensures Replay(m, actions) == m.(stack := AddItems(m.stack, MapAsMenuItem(actions)))
    decreases |actions|
  {
    if actions == [] {
      AddItemsNone(m.stack);
    } else {
      var m1 := m.(stack := AddItems(m.stack, [AsMenuItem(actions[0])]));
      StepOrdinary(m, actions[0]);
      ReplayOrdinary(m1, actions[1..]);
      AddItemsTwice(m.stack, [AsMenuItem(actions[0])], MapAsMenuItem(actions[1..]));
      assert [AsMenuItem(actions[0])] + MapAsMenuItem(actions[1..]) == MapAsMenuItem(actions);
    }
  }

  /** `add` of an ordinary action puts its item into the open menu. */
  lemma StepOrdinary(m: SwingMenu, a: GPAction)
    requires m.stack != [] && Ordinary(a)
    ensures Step(m, a) == m.(stack := AddItems(m.stack, [AsMenuItem(a)]))
  {
  }

  /** A balanced list, replayed while enough menus are open, leaves as many menus open. */
  lemma {:induction false} ReplayBalancedDepth(m: SwingMenu, actions: seq<GPAction>, depth: nat)
    requires BalancedAt(actions, depth) && |m.stack| >= depth + 1
    ensures |Replay(m, actions).stack| == |m.stack| - depth
    decreases |actions|
  {
    if actions != [] {
      var a := actions[0];
      if a.Action? && a.isSubmenu {
        ReplayBalancedDepth(Step(m, a), actions[1..], depth + 1);
      } else if a == SubmenuEndAction {
        ReplayBalancedDepth(Step(m, a), actions[1..], depth - 1);
      } else {
        ReplayBalancedDepth(Step(m, a), actions[1..], depth);
      }
    }
  }

  /** An unmatched SUBMENU_END pops the root; after that every `add` throws. */
  lemma UnmatchedEndPopsRoot(f: Frame, rest: seq<GPAction>)
    ensures Step(SwingMenu([f], []), SubmenuEndAction) == SwingMenu([], f.items)
    ensures Replay(SwingMenu([], f.items), rest) == SwingMenu([], f.items)
  {
    ReplayEmpty(SwingMenu([], f.items), rest);
  }

  lemma {:induction false} ReplayEmpty(m: SwingMenu, rest: seq<GPAction>)
    requires m.stack == []
    ensures Replay(m, rest) == m
    decreases |rest|
  {
    if rest != [] {
      ReplayEmpty(Step(m, rest[0]), rest[1..]);
    }
  }

  /** The Swing builder's `submenu` leaves the submenu open: items added afterwards land in
      it. */
  lemma SwingSubmenuStaysOpen(m: SwingMenu, title: string, actions: seq<GPAction>)
    requires m.stack != []
    requires forall j :: 0 <= j < |actions| ==> Ordinary(actions[j])
    ensures RunSwing(m, [Call.Submenu(title, []), Items(actions)])
         == m.(stack := m.stack + [Frame(title, MapAsMenuItem(actions))])
  {
    var p := [Call.Submenu(title, []), Items(actions)];
    var pushed := m.(stack := Push(m.stack, title));
    assert ExecSwing(m, p[0]) == pushed;
    assert p[1..] == [Items(actions)];
    assert [Items(actions)][1..] == [];
    assert RunSwing(pushed, p[1..]) == Replay(pushed, actions);
    ReplayOrdinary(pushed, actions);
    assert pushed.stack[..|pushed.stack| - 1] == m.stack;
    assert [] + MapAsMenuItem(actions) == MapAsMenuItem(actions);
  }

  // ---------------------------------------------------------------------------------------
  // MenuBuilderFx

  class MenuBuilderFx {
    var stack: MenuStack

    /** A builder over a context menu, which is the root. */
    constructor()
      ensures stack == [Frame("", [])]
    {
      stack := [Frame("", [])];
    }

    method Add(item: MenuItem)
      requires stack != []
      modifies this
      ensures stack == AddItem(old(stack), item)
    {
      stack := AddItem(stack, item);
    }

    method Items(actions: seq<GPAction>)
      requires stack != []
      modifies this
      ensures stack == AddItems(old(stack), MapAsMenuItem(actions))
    {
      AddItemsNone(stack);
      var i := 0;
      while i < |actions|
        invariant 0 <= i <= |actions|
        invariant stack == AddItems(old(stack), MapAsMenuItem(actions[..i]))
      {
        assert MapAsMenuItem(actions[..i + 1]) == MapAsMenuItem(actions[..i]) + [AsMenuItem(actions[i])];
        AddItemsTwice(old(stack), MapAsMenuItem(actions[..i]), [AsMenuItem(actions[i])]);
        Add(AsMenuItem(actions[i]));
        i := i + 1;
      }
      assert actions[..i] == actions;
    }

    method Separator()
      requires stack != []
      modifies this
      ensures stack == AddItem(old(stack), SeparatorItem)
    {
      Add(SeparatorItem);
    }

    /** `submenu`: opens the submenu, runs the code in it, closes it again. */
    method Submenu(title: string, body: seq<Call>)
      requires stack != []
      modifies this
      ensures stack == AddItems(old(stack), CallTree(Call.Submenu(title, body)))
      decreases Call.Submenu(title, body), 0
    {
      ghost var before := stack;
      stack := Push(stack, title);
      Run(body);
      assert stack == before + [Frame(title, Tree(body))] by {
        assert [] + Tree(body) == Tree(body);
      }
      stack := Close(stack);
      assert stack[..|stack| - 1] == before[..|before| - 1];
    }

    method Run(p: seq<Call>)
      requires stack != []
      modifies this
      ensures stack == AddItems(old(stack), Tree(p))
      decreases p, 1
    {
      AddItemsNone(stack);
      var i := 0;
      while i < |p|
        decreases |p| - i
        invariant 0 <= i <= |p|
        invariant stack == AddItems(old(stack), Tree(p[..i]))
      {
        TreeAppend(p[..i], [p[i]]);
        assert p[..i + 1] == p[..i] + [p[i]];
        assert Tree([p[i]]) == CallTree(p[i]) by {
          assert [p[i]][1..] == [];
        }
        AddItemsTwice(old(stack), Tree(p[..i]), CallTree(p[i]));
        match p[i] {
          case Items(actions) => Items(actions);
          case SeparatorCall => Separator();
          case Submenu(title, body) => Submenu(title, body);
        }
        i := i + 1;
      }
      assert p[..i] == p;
    }
  }

  lemma {:induction false} TreeAppend(p: seq<Call>, q: seq<Call>)
    ensures Tree(p + q) == Tree(p) + Tree(q)
  {
    if p != [] {
      assert (p + q)[1..] == p[1..] + q;
      TreeAppend(p[1..], q);
    } else {
      assert p + q == q;
    }
  }

  // ---------------------------------------------------------------------------------------
  // MenuBarBuilder and convertMenu

  datatype Menu = Menu(title: string, items: seq<MenuItem>)

  /** A menu item of the converted bar: a null entry or an action that is not a GPAction
      becomes a separator. */
  function ConvertItem(a: Option<GPAction>): (item: MenuItem)
    ensures a.None? ==> item == SeparatorItem
    ensures a.Some? ==> item == AsMenuItem(a.value)
  {
    if a.None? then SeparatorItem else AsMenuItem(a.value)
  }

  function ConvertItems(actions: seq<Option<GPAction>>): (items: seq<MenuItem>)
    ensures |items| == |actions|
    ensures forall i :: 0 <= i < |actions| ==> items[i] == ConvertItem(actions[i])
  {
    if actions == [] then [] else [ConvertItem(actions[0])] + ConvertItems(actions[1..])
  }

  class MenuBarBuilder {
    var menus: seq<Menu>

    constructor()
      ensures menus == []
    {
      menus := [];
    }

    /** `addMenu`: one more menu, its items in order. */
    method AddMenu(title: string, actions: seq<Option<GPAction>>)
      modifies this
      ensures menus == old(menus) + [Menu(title, ConvertItems(actions))]
    {
      var items: seq<MenuItem> := [];
      var i := 0;
      while i < |actions|
        invariant 0 <= i <= |actions|
        invariant items == ConvertItems(actions[..i])
      {
        assert ConvertItems(actions[..i + 1]) == ConvertItems(actions[..i]) + [ConvertItem(actions[i])];
        items := items + [ConvertItem(actions[i])];
        i := i + 1;
      }
      assert actions[..i] == actions;
      menus := menus + [Menu(title, items)];
    }
  }

  /** A Swing menu: its text and, per item, the item's GPAction (`None` for a null item or
      an action of another kind). */
  datatype JMenu = JMenu(text: string, actions: seq<Option<GPAction>>)

  /** `convertMenu`: the JavaFX menu bar with the same menus and items, in the same order. */
  method ConvertMenu(menuBar: seq<JMenu>) returns (result: seq<Menu>)
    ensures |result| == |menuBar|
    ensures forall i :: 0 <= i < |menuBar| ==>
      result[i] == Menu(menuBar[i].text, ConvertItems(menuBar[i].actions))
  {
    var builder := new MenuBarBuilder();
    var i := 0;
    while i < |menuBar|
      invariant 0 <= i <= |menuBar|
      invariant |builder.menus| == i
      invariant forall k :: 0 <= k < i ==>
        builder.menus[k] == Menu(menuBar[k].text, ConvertItems(menuBar[k].actions))
    {
      var jmenu := menuBar[i];
      var actions: seq<Option<GPAction>> := [];
      var ii := 0;
      while ii < |jmenu.actions|
        invariant 0 <= ii <= |jmenu.actions|
        invariant actions == jmenu.actions[..ii]
      {
        actions := actions + [jmenu.actions[ii]];
        ii := ii + 1;
      }
      assert actions == jmenu.actions;
      builder.AddMenu(jmenu.text, actions);
      i := i + 1;
    }
    result := builder.menus;
  }
}
