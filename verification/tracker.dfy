/**
 The state the event loop keeps: a map from button id to pressed/released and
 a map from axis id to the raw axis value. Ids are record numbers, so every
 key is a byte even though the maps are keyed by `int` in the program. Axis
 values stay `int`, as in the program's `map<int, int>`; that they are signed
 16-bit values is a property of `Replay` rather than of the type. Each record
 updates at most one entry of one map, last write wins, and no entry is ever
 removed.
 */
module Tracker {
  import opened JsEvent

  datatype State = State(buttons: map<Byte, bool>, axes: map<Byte, int>)

  /** Both maps start empty. */
  const Initial: State := State(map[], map[])

  /** The per-record update of the loop body. */
  function Step(s: State, e: Event): (r: State)
    // a button record sets its id to ON exactly when the value is nonzero
    ensures Classify(e.eventType) == ButtonClass ==>
              e.number in r.buttons && (r.buttons[e.number] <==> e.value != 0)
    // an axis record stores the raw value under its id
    ensures Classify(e.eventType) == AxisClass ==>
              e.number in r.axes && r.axes[e.number] == e.value
    // a record of one class leaves the other map alone; an ignored one leaves both
    ensures Classify(e.eventType) != ButtonClass ==> r.buttons == s.buttons
    ensures Classify(e.eventType) != AxisClass ==> r.axes == s.axes
    // no entry is removed, and only the record's own id can be added or changed
    ensures s.buttons.Keys <= r.buttons.Keys <= s.buttons.Keys + {e.number}
    ensures s.axes.Keys <= r.axes.Keys <= s.axes.Keys + {e.number}
    ensures forall k :: k in s.buttons && k != e.number ==> r.buttons[k] == s.buttons[k]
    ensures forall k :: k in s.axes && k != e.number ==> r.axes[k] == s.axes[k]
  {
    match Classify(e.eventType)
    case ButtonClass => s.(buttons := s.buttons[e.number := e.value != 0])
    case AxisClass => s.(axes := s.axes[e.number := e.value])
    case Ignored => s
  }

  /** Setting the init flag on a record's type does not change what the record does. */
  lemma StepIgnoresInit(s: State, e: Event)
    ensures Step(s, e.(eventType := SetInit(e.eventType))) == Step(s, e)
  {
    ClassifyIgnoresInit(e.eventType);
  }

  /**
   The state after the loop has consumed `evs`, starting from empty maps.
   Every stored axis value came from a record, so it is a signed 16-bit value.
   */
  function Replay(evs: seq<Event>): (r: State)
    ensures forall k :: k in r.axes ==> InInt16(r.axes[k])
    decreases |evs|
  {
    if |evs| == 0 then Initial
    else Step(Replay(evs[..|evs| - 1]), evs[|evs| - 1])
  }

  /** Consuming one more record is one more step. */
  lemma ReplayAppend(evs: seq<Event>, e: Event)
    ensures Replay(evs + [e]) == Step(Replay(evs), e)
  {
    assert (evs + [e])[..|evs|] == evs;
  }

  /** Record `e` writes class `c` at `id`. */
  predicate WritesTo(e: Event, c: Class, id: int) {
    Classify(e.eventType) == c && e.number == id
  }

  /** Record `i` of `evs` is the last one that writes class `c` at `id`. */
  ghost predicate IsLastWrite(evs: seq<Event>, c: Class, id: int, i: int) {
    && 0 <= i < |evs|
    && WritesTo(evs[i], c, id)
    && forall j :: i < j < |evs| ==> !WritesTo(evs[j], c, id)
  }

  /** The ids the map updated by class `c` holds; an ignored record updates no map. */
  function KeysOf(s: State, c: Class): set<Byte> {
    match c
    case ButtonClass => s.buttons.Keys
    case AxisClass => s.axes.Keys
    case Ignored => {}
  }

  /** Some record of `evs` writes class `c` at `id`. */
  ghost predicate EverWritten(evs: seq<Event>, c: Class, id: int) {
    exists i :: 0 <= i < |evs| && WritesTo(evs[i], c, id)
  }

  /** An id is a key of a map exactly when some record of that class wrote it. */
  lemma {:induction false} ReplayKeysWritten(evs: seq<Event>, c: Class, id: int)
    requires c != Ignored
    ensures id in KeysOf(Replay(evs), c) <==> EverWritten(evs, c, id)
    decreases |evs|
  {
    if |evs| > 0 {
      var n := |evs| - 1;
      var pre := evs[..n];
      ReplayKeysWritten(pre, c, id);
      assert Replay(evs) == Step(Replay(pre), evs[n]);
      if EverWritten(pre, c, id) {
        var i :| 0 <= i < |pre| && WritesTo(pre[i], c, id);
        assert evs[i] == pre[i];
      }
      if EverWritten(evs, c, id) && !WritesTo(evs[n], c, id) {
        var i :| 0 <= i < |evs| && WritesTo(evs[i], c, id);
        assert i < n && pre[i] == evs[i];
      }
    }
  }

  /** The last button record for an id decides whether it is ON. */
  lemma {:induction false} ReplayButtonValue(evs: seq<Event>, id: int, i: int)
    requires IsLastWrite(evs, ButtonClass, id, i)
    ensures id in Replay(evs).buttons && (Replay(evs).buttons[id] <==> evs[i].value != 0)
    decreases |evs|
  {
    var n := |evs| - 1;
    var pre := evs[..n];
    assert Replay(evs) == Step(Replay(pre), evs[n]);
    if i < n {
      assert pre[i] == evs[i];
      assert forall j :: i < j < n ==> pre[j] == evs[j];
      ReplayButtonValue(pre, id, i);
    }
  }

  /** The last axis record for an id decides the value it holds. */
  lemma {:induction false} ReplayAxisValue(evs: seq<Event>, id: int, i: int)
    requires IsLastWrite(evs, AxisClass, id, i)
    ensures id in Replay(evs).axes && Replay(evs).axes[id] == evs[i].value
    decreases |evs|
  {
    var n := |evs| - 1;
    var pre := evs[..n];
    assert Replay(evs) == Step(Replay(pre), evs[n]);
    if i < n {
      assert pre[i] == evs[i];
      assert forall j :: i < j < n ==> pre[j] == evs[j];
      ReplayAxisValue(pre, id, i);
    }
  }

  /**
   Last write wins for buttons: an id is present exactly when some button
   record for it was consumed, and then its value is that of the last such record.
   */
  lemma ReplayButtonsLastWriteWins(evs: seq<Event>, id: int)
    ensures id in Replay(evs).buttons <==> exists i :: 0 <= i < |evs| && WritesTo(evs[i], ButtonClass, id)
    ensures forall i :: IsLastWrite(evs, ButtonClass, id, i) ==>
              id in Replay(evs).buttons && (Replay(evs).buttons[id] <==> evs[i].value != 0)
  {
    ReplayKeysWritten(evs, ButtonClass, id);
    forall i | IsLastWrite(evs, ButtonClass, id, i)
      ensures id in Replay(evs).buttons && (Replay(evs).buttons[id] <==> evs[i].value != 0)
    {
      ReplayButtonValue(evs, id, i);
    }
  }

  /**
   Last write wins for axes: an id is present exactly when some axis record
   for it was consumed, and then it holds the value of the last such record.
   */
  lemma ReplayAxesLastWriteWins(evs: seq<Event>, id: int)
    ensures id in Replay(evs).axes <==> exists i :: 0 <= i < |evs| && WritesTo(evs[i], AxisClass, id)
    ensures forall i :: IsLastWrite(evs, AxisClass, id, i) ==>
              id in Replay(evs).axes && Replay(evs).axes[id] == evs[i].value
  {
    ReplayKeysWritten(evs, AxisClass, id);
    forall i | IsLastWrite(evs, AxisClass, id, i)
      ensures id in Replay(evs).axes && Replay(evs).axes[id] == evs[i].value
    {
      ReplayAxisValue(evs, id, i);
    }
  }

  /** A present id always has a last write, so the previous lemmas determine every entry. */
  lemma {:induction false} PresentIdHasLastWrite(evs: seq<Event>, c: Class, id: int)
    requires exists i :: 0 <= i < |evs| && WritesTo(evs[i], c, id)
    ensures exists i :: IsLastWrite(evs, c, id, i)
    decreases |evs|
  {
    var n := |evs| - 1;
    if WritesTo(evs[n], c, id) {
      assert IsLastWrite(evs, c, id, n);
    } else {
      var pre := evs[..n];
      var k :| 0 <= k < |evs| && WritesTo(evs[k], c, id);
      assert k < n && pre[k] == evs[k];
      PresentIdHasLastWrite(pre, c, id);
      var i :| IsLastWrite(pre, c, id, i);
      assert IsLastWrite(evs, c, id, i);
    }
  }

  /** Entries are never removed: every id present after a prefix is present after the whole sequence. */
  lemma {:induction false} ReplayNeverRemoves(evs: seq<Event>, k: nat)
    requires k <= |evs|
    ensures Replay(evs[..k]).buttons.Keys <= Replay(evs).buttons.Keys
    ensures Replay(evs[..k]).axes.Keys <= Replay(evs).axes.Keys
    decreases |evs| - k
  {
    if k < |evs| {
      ReplayNeverRemoves(evs, k + 1);
      assert evs[..k + 1][..k] == evs[..k];
    } else {
      assert evs[..k] == evs;
    }
  }
}
