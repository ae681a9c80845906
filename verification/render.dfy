/**
 One render pass, as abstract lines rather than terminal bytes: a line per
 button then a line per axis, each group in ascending id order as iterating
 an ordered map yields them, then the cursor position when there is one.
 */
module Render {
  import opened Wrappers
  import opened JsEvent
  import opened Tracker
  import opened Cursor

  /** `Button #<id>: ON|OFF` and `Axis #<id>: <value>`. */
  datatype Line = ButtonLine(id: int, on: bool) | AxisLine(id: int, value: int)

  datatype Frame = Frame(lines: seq<Line>, cursor: Option<Pos>)

  /** Button lines come first. */
  function Group(l: Line): nat {
    if l.ButtonLine? then 0 else 1
  }

  /** The order in which a render pass emits lines. */
  predicate Before(l1: Line, l2: Line) {
    Group(l1) < Group(l2) || (Group(l1) == Group(l2) && l1.id < l2.id)
  }

  ghost predicate InRenderOrder(lines: seq<Line>) {
    forall i, j :: 0 <= i < j < |lines| ==> Before(lines[i], lines[j])
  }

  /** Line `l` shows an entry of `s` with its current value. */
  predicate ShowsEntryOf(l: Line, s: State) {
    match l
    case ButtonLine(k, on) => k in s.buttons && s.buttons[k] == on
    case AxisLine(k, v) => k in s.axes && s.axes[k] == v
  }

  /** `lines` shows every entry of both maps and nothing else. */
  ghost predicate ListsState(lines: seq<Line>, s: State) {
    && (forall i :: 0 <= i < |lines| ==> ShowsEntryOf(lines[i], s))
    && (forall k :: k in s.buttons ==> ButtonLine(k, s.buttons[k]) in lines)
    && (forall k :: k in s.axes ==> AxisLine(k, s.axes[k]) in lines)
  }

  /** `f` is what one render pass shows for state `s` with selected axis `axis`. */
  ghost predicate IsFrameOf(f: Frame, s: State, axis: int) {
    InRenderOrder(f.lines) && ListsState(f.lines, s) && f.cursor == CursorFor(s.axes, axis)
  }

  /** The keys of an ordered map in iteration order: ascending, each key once. */
  method SortedKeys(keys: set<Byte>) returns (r: seq<Byte>)
    ensures forall i, j :: 0 <= i < j < |r| ==> r[i] < r[j]
    ensures forall i :: 0 <= i < |r| ==> r[i] in keys
    ensures forall k :: k in keys ==> k in r
  {
    r := [];
    var id: int := 0;
    while id < 0x100
      invariant 0 <= id <= 0x100
      invariant forall i, j :: 0 <= i < j < |r| ==> r[i] < r[j]
      invariant forall i :: 0 <= i < |r| ==> r[i] in keys && r[i] < id
      invariant forall k :: k in keys && k < id ==> k in r
    {
      if id in keys {
        r := r + [id as Byte];
      }
      id := id + 1;
    }
  }

  /** One render pass: the button lines, the axis lines, then the cursor if both axes are known. */
  method RenderFrame(s: State, axis: int) returns (f: Frame)
    ensures IsFrameOf(f, s, axis)
  {
    var buttonIds := SortedKeys(s.buttons.Keys);
    var axisIds := SortedKeys(s.axes.Keys);
    var nb := |buttonIds|;
    var lines: seq<Line> := [];
    var i := 0;
    while i < nb
      invariant 0 <= i <= nb
      invariant |lines| == i
      invariant forall j :: 0 <= j < i ==> lines[j] == ButtonLine(buttonIds[j], s.buttons[buttonIds[j]])
    {
      lines := lines + [ButtonLine(buttonIds[i], s.buttons[buttonIds[i]])];
      i := i + 1;
    }
    i := 0;
    while i < |axisIds|
      invariant 0 <= i <= |axisIds|
      invariant |lines| == nb + i
      invariant forall j :: 0 <= j < nb ==> lines[j] == ButtonLine(buttonIds[j], s.buttons[buttonIds[j]])
      invariant forall j :: 0 <= j < i ==> lines[nb + j] == AxisLine(axisIds[j], s.axes[axisIds[j]])
    {
      lines := lines + [AxisLine(axisIds[i], s.axes[axisIds[i]])];
      i := i + 1;
    }
    forall p, q | 0 <= p < q < |lines|
      ensures Before(lines[p], lines[q])
    {
      if q < nb {
        assert lines[p].id == buttonIds[p] < buttonIds[q] == lines[q].id;
      } else if p < nb {
        assert lines[p] == ButtonLine(buttonIds[p], s.buttons[buttonIds[p]]);
        assert lines[nb + (q - nb)] == AxisLine(axisIds[q - nb], s.axes[axisIds[q - nb]]);
      } else {
        assert lines[nb + (p - nb)] == AxisLine(axisIds[p - nb], s.axes[axisIds[p - nb]]);
        assert lines[nb + (q - nb)] == AxisLine(axisIds[q - nb], s.axes[axisIds[q - nb]]);
      }
    }
    forall p | 0 <= p < |lines|
      ensures ShowsEntryOf(lines[p], s)
    {
      if p >= nb {
        assert lines[nb + (p - nb)] == AxisLine(axisIds[p - nb], s.axes[axisIds[p - nb]]);
      }
    }
    forall k | k in s.buttons
      ensures ButtonLine(k, s.buttons[k]) in lines
    {
      var j := IndexOf(buttonIds, k);
      assert lines[j] == ButtonLine(k, s.buttons[k]);
    }
    forall k | k in s.axes
      ensures AxisLine(k, s.axes[k]) in lines
    {
      var j := IndexOf(axisIds, k);
      assert lines[nb + j] == AxisLine(k, s.axes[k]);
    }
    f := Frame(lines, CursorFor(s.axes, axis));
  }

  /** A position at which `x` occurs in `r`. */
  lemma IndexOf<T>(r: seq<T>, x: T) returns (j: int)
    requires x in r
    ensures 0 <= j < |r| && r[j] == x
  {
    j :| 0 <= j < |r| && r[j] == x;
  }

  /** Two sequences in render order that hold the same lines are the same sequence. */
  lemma {:induction false} OrderedListingUnique(a: seq<Line>, b: seq<Line>)
    requires InRenderOrder(a) && InRenderOrder(b)
    requires forall l :: l in a <==> l in b
    ensures a == b
    decreases |a|
  {
    if |a| > 0 && |b| > 0 {
      var j := IndexOf(b, a[0]);
      var i := IndexOf(a, b[0]);
      assert a[0] == b[0];
      var a', b' := a[1..], b[1..];
      forall l
        ensures l in a' <==> l in b'
      {
        if l in a' {
          var p := IndexOf(a', l);
          assert a[p + 1] == l && Before(a[0], a[p + 1]);
          var r := IndexOf(b, l);
          assert r != 0 && b'[r - 1] == l;
        }
        if l in b' {
          var p := IndexOf(b', l);
          assert b[p + 1] == l && Before(b[0], b[p + 1]);
          var r := IndexOf(a, l);
          assert r != 0 && a'[r - 1] == l;
        }
      }
      OrderedListingUnique(a', b');
      assert a == [a[0]] + a' && b == [b[0]] + b';
    } else {
      HeadIn(a);
      HeadIn(b);
    }
  }

  lemma HeadIn<T>(r: seq<T>)
    ensures |r| > 0 ==> r[0] in r
  {
  }

  /** The description `IsFrameOf` leaves no freedom: a state and an axis determine the frame. */
  lemma FrameUnique(f1: Frame, f2: Frame, s: State, axis: int)
    requires IsFrameOf(f1, s, axis) && IsFrameOf(f2, s, axis)
    ensures f1 == f2
  {
    forall l
      ensures l in f1.lines <==> l in f2.lines
    {
      if l in f1.lines {
        var p := IndexOf(f1.lines, l);
        assert ShowsEntryOf(f1.lines[p], s);
      }
      if l in f2.lines {
        var p := IndexOf(f2.lines, l);
        assert ShowsEntryOf(f2.lines[p], s);
      }
    }
    OrderedListingUnique(f1.lines, f2.lines);
  }

  /**
   The render order spelled out: every button line precedes every axis line,
   ids ascend strictly within each group, and no id is shown twice in a group.
   */
  lemma FrameOrder(f: Frame, s: State, axis: int)
    requires IsFrameOf(f, s, axis)
    ensures forall i, j :: 0 <= i < |f.lines| && 0 <= j < |f.lines| && f.lines[i].ButtonLine? && f.lines[j].AxisLine? ==> i < j
    ensures forall i, j :: 0 <= i < j < |f.lines| && f.lines[i].ButtonLine? == f.lines[j].ButtonLine? ==> f.lines[i].id < f.lines[j].id
    ensures forall i, j :: 0 <= i < |f.lines| && 0 <= j < |f.lines| && f.lines[i].ButtonLine? == f.lines[j].ButtonLine? && f.lines[i].id == f.lines[j].id ==> i == j
  {
  }
}
