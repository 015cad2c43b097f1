/**
  `ReorderWindow`: a dialog that lets the user reorder a copy of the item list
  with move up / down / to top / to bottom, reset it to the order it opened
  with, and either confirm the new order or cancel.
 */
module ReorderWindow {
  import opened Base
  import opened Models

  /** `list.RemoveAt(i)`. */
  function RemoveAt<T>(s: seq<T>, i: nat): seq<T>
    requires i < |s|
  {
    s[..i] + s[i + 1..]
  }

  /** `list.Insert(i, x)`. */
  function InsertAt<T>(s: seq<T>, i: nat, x: T): seq<T>
    requires i <= |s|
  {
    s[..i] + [x] + s[i..]
  }

  /** Take the element at `from` out and put it back so that it ends up at index `to`. */
  function Relocate<T>(s: seq<T>, from: nat, to: nat): seq<T>
    requires from < |s| && to < |s|
  {
    InsertAt(RemoveAt(s, from), to, s[from])
  }

  /** Relocating is a permutation that puts the moved element at its target index. */
  lemma RelocatePermutes<T>(s: seq<T>, from: nat, to: nat)
    requires from < |s| && to < |s|
    ensures |Relocate(s, from, to)| == |s|
    ensures multiset(Relocate(s, from, to)) == multiset(s)
    ensures Relocate(s, from, to)[to] == s[from]
  {
    var rest := RemoveAt(s, from);
    assert s == s[..from] + [s[from]] + s[from + 1..];
    assert multiset(s) == multiset(rest) + multiset{s[from]};
    assert rest == rest[..to] + rest[to..];
    assert multiset(rest) == multiset(rest[..to]) + multiset(rest[to..]);
  }

  /** Taking the moved element out again leaves all the others in their old relative order. */
  lemma RelocateKeepsOthersInOrder<T>(s: seq<T>, from: nat, to: nat)
    requires from < |s| && to < |s|
    ensures RemoveAt(Relocate(s, from, to), to) == RemoveAt(s, from)
  {
    var rest := RemoveAt(s, from);
    var r := Relocate(s, from, to);
    assert r[..to] == rest[..to];
    assert r[to + 1..] == rest[to..];
  }

  /** Moving the element back from `to` to `from` restores the original order. */
  lemma RelocateUndo<T>(s: seq<T>, from: nat, to: nat)
    requires from < |s| && to < |s|
    ensures |Relocate(s, from, to)| == |s|
    ensures Relocate(Relocate(s, from, to), to, from) == s
  {
    RelocatePermutes(s, from, to);
    RelocateKeepsOthersInOrder(s, from, to);
    var rest := RemoveAt(s, from);
    assert s == InsertAt(rest, from, s[from]);
  }

  /** Moving up by one swaps the element with its upper neighbour and touches nothing else. */
  lemma MoveUpSwaps<T>(s: seq<T>, i: nat)
    requires 0 < i < |s|
    ensures Relocate(s, i, i - 1) == s[i - 1 := s[i]][i := s[i - 1]]
  {
    var r := Relocate(s, i, i - 1);
    var w := s[i - 1 := s[i]][i := s[i - 1]];
    assert |r| == |w|;
    forall k | 0 <= k < |r|
      ensures r[k] == w[k]
    {
      if k < i - 1 {
      } else if k == i - 1 {
      } else if k == i {
      } else {
      }
    }
  }

  /** Moving down by one swaps the element with its lower neighbour and touches nothing else. */
  lemma MoveDownSwaps<T>(s: seq<T>, i: nat)
    requires i + 1 < |s|
    ensures Relocate(s, i, i + 1) == s[i := s[i + 1]][i + 1 := s[i]]
  {
    var r := Relocate(s, i, i + 1);
    var w := s[i := s[i + 1]][i + 1 := s[i]];
    assert |r| == |w|;
    forall k | 0 <= k < |r|
      ensures r[k] == w[k]
    {
      if k < i {
      } else if k == i {
      } else if k == i + 1 {
      } else {
      }
    }
  }

  /** Moving to the top puts the element first, followed by the others in their old order. */
  lemma MoveTopShape<T>(s: seq<T>, i: nat)
    requires i < |s|
    ensures Relocate(s, i, 0) == [s[i]] + RemoveAt(s, i)
  {
  }

  /** Moving to the bottom puts the element last, after the others in their old order. */
  lemma MoveBottomShape<T>(s: seq<T>, i: nat)
    requires i < |s|
    ensures Relocate(s, i, |s| - 1) == RemoveAt(s, i) + [s[i]]
  {
    var rest := RemoveAt(s, i);
    assert |rest| == |s| - 1;
    assert rest[|s| - 1..] == [];
    assert rest[..|s| - 1] == rest;
  }

  /** A user action while the dialog is open: selecting a row (-1 clears the selection) or clicking one of its buttons. */
  datatype Action =
    SelectRow(index: int) | ClickMoveUp | ClickMoveDown | ClickMoveTop | ClickMoveBottom | ClickReset | ClickOk | ClickCancel

  /** The dialog's state as a value: working list, selected index (-1 for none), `Result`, `DialogResult`, and whether it has closed. */
  datatype DialogState = DialogState(
    items: seq<SoftwareItem>, selectedIndex: int,
    result: Option<seq<SoftwareItem>>, dialogResult: Option<bool>, closed: bool)

  /**
    What the dialog keeps true: the selection is a valid index or -1, every
    list it holds is a reordering of the snapshot it opened with, a closed
    dialog has a dialog result, and a dialog closed with `true` has a result.
   */
  ghost predicate Consistent(original: seq<SoftwareItem>, st: DialogState) {
    && -1 <= st.selectedIndex < |st.items|
    && multiset(st.items) == multiset(original)
    && (st.result.Some? ==> multiset(st.result.value) == multiset(original))
    && (st.dialogResult == Some(true) ==> st.result.Some?)
    && (st.closed ==> st.dialogResult.Some?)
  }

  /** The state the dialog opens in on `source`: first row selected if any, nothing decided. */
  function Opened(source: seq<SoftwareItem>): (st: DialogState)
    ensures Consistent(source, st) && !st.closed
  {
    DialogState(source, if |source| > 0 then 0 else -1, None, None, false)
  }

  /**
    The effect of one user action, written independently of the dialog's
    methods: the reference the class is checked against. Selecting a row
    outside the list is ignored, as a list box does.
   */
  function Step(original: seq<SoftwareItem>, st: DialogState, a: Action): DialogState
    requires -1 <= st.selectedIndex < |st.items|
  {
    var i := st.selectedIndex;
    var n := |st.items|;
    match a
    case SelectRow(k) =>
      if -1 <= k < n then st.(selectedIndex := k) else st
    case ClickMoveUp =>
      if i > 0 then st.(items := Relocate(st.items, i, i - 1), selectedIndex := i - 1) else st
    case ClickMoveDown =>
      if 0 <= i < n - 1 then st.(items := Relocate(st.items, i, i + 1), selectedIndex := i + 1) else st
    case ClickMoveTop =>
      if i > 0 then st.(items := Relocate(st.items, i, 0), selectedIndex := 0) else st
    case ClickMoveBottom =>
      if 0 <= i < n - 1 then st.(items := Relocate(st.items, i, n - 1), selectedIndex := n - 1) else st
    case ClickReset =>
      st.(items := original, selectedIndex := if |original| > 0 then 0 else -1)
    case ClickOk =>
      st.(result := Some(st.items), dialogResult := Some(true), closed := true)
    case ClickCancel =>
      st.(dialogResult := Some(false), closed := true)
  }

  /** Every action keeps the dialog consistent: moves only reorder the working list. */
  lemma StepConsistent(original: seq<SoftwareItem>, st: DialogState, a: Action)
    requires Consistent(original, st)
    ensures Consistent(original, Step(original, st, a))
  {
    if a.ClickMoveUp? || a.ClickMoveDown? || a.ClickMoveTop? || a.ClickMoveBottom? {
      MoveStepConsistent(original, st, a);
    } else {
      OtherStepConsistent(original, st, a);
    }
  }

  lemma MoveStepConsistent(original: seq<SoftwareItem>, st: DialogState, a: Action)
    requires Consistent(original, st)
    requires a.ClickMoveUp? || a.ClickMoveDown? || a.ClickMoveTop? || a.ClickMoveBottom?
    ensures Consistent(original, Step(original, st, a))
  {
    var i := st.selectedIndex;
    var n := |st.items|;
    var to := match a
      case ClickMoveUp => i - 1
      case ClickMoveDown => i + 1
      case ClickMoveTop => 0
      case _ => n - 1;
    var moves := if a.ClickMoveUp? || a.ClickMoveTop? then i > 0 else 0 <= i < n - 1;
    if moves {
      MoveConsistent(original, st, to);
      assert Step(original, st, a) == st.(items := Relocate(st.items, i, to), selectedIndex := to);
    } else {
      assert Step(original, st, a) == st;
    }
  }

  lemma OtherStepConsistent(original: seq<SoftwareItem>, st: DialogState, a: Action)
    requires Consistent(original, st)
    requires a.SelectRow? || a.ClickReset? || a.ClickOk? || a.ClickCancel?
    ensures Consistent(original, Step(original, st, a))
  {
  }

  /** Relocating the selected item to `to`, and selecting it there, keeps the dialog consistent. */
  lemma MoveConsistent(original: seq<SoftwareItem>, st: DialogState, to: nat)
    requires Consistent(original, st) && 0 <= st.selectedIndex && to < |st.items|
    ensures Consistent(original, st.(items := Relocate(st.items, st.selectedIndex, to), selectedIndex := to))
  {
    RelocatePermutes(st.items, st.selectedIndex, to);
  }

  /** The state after the user's `actions`, of which those after the dialog closes have no effect. */
  function Replay(original: seq<SoftwareItem>, st: DialogState, actions: seq<Action>): (t: DialogState)
    requires Consistent(original, st)
    ensures Consistent(original, t)
    decreases |actions|
  {
    if actions == [] || st.closed then st
    else StepConsistent(original, st, actions[0]); Replay(original, Step(original, st, actions[0]), actions[1..])
  }

  /**
    Closing from the title bar: a dialog still open closes with a false
    dialog result and keeps no result list; a closed dialog stays as it is.
   */
  function TitleBarClosed(st: DialogState): (c: DialogState)
    ensures c.closed && (st.closed ==> c == st) && (!st.closed ==> c.dialogResult == Some(false))
    ensures c.items == st.items && c.selectedIndex == st.selectedIndex && c.result == st.result
    ensures forall original :: Consistent(original, st) ==> Consistent(original, c)
  {
    if st.closed then st else st.(dialogResult := Some(false), closed := true)
  }

  /**
    Only the OK button confirms: a dialog not yet confirmed ends confirmed
    only if `ClickOk` is among the actions, and then it hands back a
    reordering of its snapshot.
   */
  lemma {:induction false} OnlyOkConfirms(original: seq<SoftwareItem>, st: DialogState, actions: seq<Action>)
    requires Consistent(original, st) && st.dialogResult != Some(true)
    ensures var t := Replay(original, st, actions);
      t.dialogResult == Some(true) ==>
        ClickOk in actions && t.result.Some? && multiset(t.result.value) == multiset(original)
    decreases |actions|
  {
    if actions != [] && !st.closed {
      var next := Step(original, st, actions[0]);
      StepConsistent(original, st, actions[0]);
      if actions[0] != ClickOk {
        OnlyOkConfirms(original, next, actions[1..]);
        var t := Replay(original, next, actions[1..]);
        if t.dialogResult == Some(true) {
          var j :| 0 <= j < |actions[1..]| && actions[1..][j] == ClickOk;
          assert actions[j + 1] == ClickOk;
        }
      }
    }
  }

  /** Cancelling first closes the dialog at once with `false`, whatever follows, and leaves no result. */
  lemma CancelFirstDiscards(source: seq<SoftwareItem>, rest: seq<Action>)
    ensures Replay(source, Opened(source), [ClickCancel] + rest)
      == Opened(source).(dialogResult := Some(false), closed := true)
  {
    var s := Opened(source);
    var actions := [ClickCancel] + rest;
    assert actions[0] == ClickCancel;
    StepConsistent(source, s, ClickCancel);
    var t := Step(source, s, ClickCancel);
    assert t.closed;
    assert Replay(source, t, actions[1..]) == t;
  }

  /** Reset followed by OK confirms the order the dialog opened with, whatever was moved before. */
  lemma ResetThenOkKeepsOrder(source: seq<SoftwareItem>, st: DialogState)
    requires Consistent(source, st) && !st.closed
    ensures Replay(source, st, [ClickReset, ClickOk]).result == Some(source)
    ensures Replay(source, st, [ClickReset, ClickOk]).dialogResult == Some(true)
  {
    StepConsistent(source, st, ClickReset);
    var s1 := Step(source, st, ClickReset);
    StepConsistent(source, s1, ClickOk);
    assert [ClickReset, ClickOk][1..] == [ClickOk];
    assert [ClickOk][1..] == [];
  }

  /** The dialog: the working list, the snapshot it opened with, the list's selection and the outcome. */
  class ReorderWindow {
    /** The order the dialog opened with; never changed. */
    const original: seq<SoftwareItem>
    /** The working list shown in the list box. */
    var items: seq<SoftwareItem>
    /** The list box's selected index, -1 for none. */
    var selectedIndex: int
    var result: Option<seq<SoftwareItem>>
    var dialogResult: Option<bool>
    var closed: bool

    /** The dialog's fields as a value. */
    function State(): DialogState
      reads this
    {
      DialogState(items, selectedIndex, result, dialogResult, closed)
    }

    /** The dialog always satisfies `Consistent` with respect to its snapshot. */
    ghost predicate Valid()
      reads this
    {
      Consistent(original, State())
    }

    /** Copies the caller's list into the snapshot and the working list; selects the first item if any. */
    constructor (source: seq<SoftwareItem>)
      ensures Valid() && State() == Opened(source)
      ensures original == source && items == source
      ensures selectedIndex == (if |source| > 0 then 0 else -1)
      ensures result == None && dialogResult == None && !closed
    {
      original := source;
      items := source;
      selectedIndex := if |source| > 0 then 0 else -1;
      result := None;
      dialogResult := None;
      closed := false;
    }

    /** The user selects row `i` (or clears the selection with -1). */
    method Select(i: int)
      requires Valid() && -1 <= i < |items|
      modifies this`selectedIndex
      ensures Valid() && selectedIndex == i
      ensures State() == Step(original, old(State()), SelectRow(i))
    {
      selectedIndex := i;
    }

    /** `MoveUp_Click`: the selected item swaps with the one above and stays selected; a no-op at the top or with no selection. */
    method MoveUpClick()
      requires Valid()
      modifies this`items, this`selectedIndex
      ensures Valid()
      ensures State() == Step(original, old(State()), ClickMoveUp)
      ensures var i := old(selectedIndex);
        if i > 0 then items == Relocate(old(items), i, i - 1) && selectedIndex == i - 1
        else items == old(items) && selectedIndex == i
    {
      var i := selectedIndex;
      if i > 0 {
        RelocatePermutes(items, i, i - 1);
        var it := items[i];
        items := RemoveAt(items, i);
        items := InsertAt(items, i - 1, it);
        selectedIndex := i - 1;
      }
    }

    /** `MoveDown_Click`: the selected item swaps with the one below and stays selected; a no-op on the last item or with no selection. */
    method MoveDownClick()
      requires Valid()
      modifies this`items, this`selectedIndex
      ensures Valid()
      ensures State() == Step(original, old(State()), ClickMoveDown)
      ensures var i := old(selectedIndex);
        if 0 <= i < |old(items)| - 1 then items == Relocate(old(items), i, i + 1) && selectedIndex == i + 1
        else items == old(items) && selectedIndex == i
    {
      var i := selectedIndex;
      if i >= 0 && i < |items| - 1 {
        RelocatePermutes(items, i, i + 1);
        var it := items[i];
        items := RemoveAt(items, i);
        items := InsertAt(items, i + 1, it);
        selectedIndex := i + 1;
      }
    }

    /** `MoveTop_Click`: the selected item goes first and stays selected; a no-op when it is already first or nothing is selected. */
    method MoveTopClick()
      requires Valid()
      modifies this`items, this`selectedIndex
      ensures Valid()
      ensures State() == Step(original, old(State()), ClickMoveTop)
      ensures var i := old(selectedIndex);
        if i > 0 then items == Relocate(old(items), i, 0) && selectedIndex == 0
        else items == old(items) && selectedIndex == i
    {
      var i := selectedIndex;
      if i > 0 {
        RelocatePermutes(items, i, 0);
        var it := items[i];
        items := RemoveAt(items, i);
        items := InsertAt(items, 0, it);
        selectedIndex := 0;
      }
    }

    /** `MoveBottom_Click`: the selected item is appended last and stays selected; a no-op when it is already last or nothing is selected. */
    method MoveBottomClick()
      requires Valid()
      modifies this`items, this`selectedIndex
      ensures Valid()
      ensures State() == Step(original, old(State()), ClickMoveBottom)
      ensures var i := old(selectedIndex);
        if 0 <= i < |old(items)| - 1 then items == Relocate(old(items), i, |old(items)| - 1) && selectedIndex == |items| - 1
        else items == old(items) && selectedIndex == i
    {
      var i := selectedIndex;
      if i >= 0 && i < |items| - 1 {
        ghost var moved := Relocate(items, i, |items| - 1);
        MoveBottomShape(items, i);
        var it := items[i];
        items := RemoveAt(items, i);
        items := items + [it];
        assert items == moved;
        selectedIndex := |items| - 1;
      }
      assert State() == Step(original, old(State()), ClickMoveBottom);
      StepConsistent(original, old(State()), ClickMoveBottom);
    }

    /** `Reset_Click`: the working list becomes a fresh copy of the snapshot, first row selected if any. */
    method ResetClick()
      requires Valid()
      modifies this`items, this`selectedIndex
      ensures Valid()
      ensures State() == Step(original, old(State()), ClickReset)
      ensures items == original
      ensures selectedIndex == (if |original| > 0 then 0 else -1)
    {
      items := original;
      selectedIndex := if |items| > 0 then 0 else -1;
    }

    /** `Ok_Click`: the result is a copy of the working list, and the dialog closes with `true`. */
    method OkClick()
      requires Valid()
      modifies this`result, this`dialogResult, this`closed
      ensures Valid()
      ensures State() == Step(original, old(State()), ClickOk)
      ensures result == Some(items) && dialogResult == Some(true) && closed
    {
      result := Some(items);
      dialogResult := Some(true);
      closed := true;
    }

    /** `Cancel_Click`: the dialog closes with `false`; the result is not set. */
    method CancelClick()
      requires Valid()
      modifies this`dialogResult, this`closed
      ensures Valid()
      ensures State() == Step(original, old(State()), ClickCancel)
      ensures dialogResult == Some(false) && closed
    {
      dialogResult := Some(false);
      closed := true;
    }
  
    /** The title bar's close button: a dialog closed this way reports a false dialog result. */
    method TitleBarClose()
      requires Valid()
      modifies this`dialogResult, this`closed
      ensures Valid()
      ensures State() == TitleBarClosed(old(State()))
    {
      if !closed {
        dialogResult := Some(false);
        closed := true;
      }
    }

    /**
      `ShowDialog()`: the modal loop. The user's `actions` are handled one by
      one until the dialog closes; a dialog still open when they run out is
      closed from the title bar, so a dialog result is always reported.
     */
    method ShowDialog(actions: seq<Action>) returns (dialogResultOut: Option<bool>)
      requires Valid()
      modifies this`items, this`selectedIndex, this`result, this`dialogResult, this`closed
      ensures Valid()
      ensures State() == TitleBarClosed(Replay(original, old(State()), actions))
      ensures dialogResultOut == dialogResult && dialogResultOut.Some?
    {
      ghost var final := Replay(original, State(), actions);
      var n := 0;
      while n < |actions| && !closed
        invariant 0 <= n <= |actions|
        invariant Valid()
        invariant Replay(original, State(), actions[n..]) == final
      {
        ghost var before := State();
        match actions[n] {
          case SelectRow(i) =>
            if -1 <= i < |items| {
              Select(i);
            }
          case ClickMoveUp => MoveUpClick();
          case ClickMoveDown => MoveDownClick();
          case ClickMoveTop => MoveTopClick();
          case ClickMoveBottom => MoveBottomClick();
          case ClickReset => ResetClick();
          case ClickOk => OkClick();
          case ClickCancel => CancelClick();
        }
        assert State() == Step(original, before, actions[n]);
        assert actions[n..][1..] == actions[n + 1..];
        n := n + 1;
      }
      assert Replay(original, State(), actions[n..]) == State();
      TitleBarClose();
      dialogResultOut := dialogResult;
    }
  }
}
