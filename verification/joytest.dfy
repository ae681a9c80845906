/**
 The program's read loop over a given sequence of decoded records: each record
 updates the state and is followed by one render pass, whether or not the
 record changed anything. A short read ends the sequence.
 */
module Joytest {
  import opened Wrappers
  import opened JsEvent
  import opened Tracker
  import opened Cursor
  import opened Render

  /**
   Runs the loop over `records` with selected axis `axis`. Returns the final
   state and the frame rendered after each record, in order.
   */
  method EventLoop(axis: int, records: seq<Event>) returns (s: State, frames: seq<Frame>)
    ensures s == Replay(records)
    ensures |frames| == |records|
    ensures forall i :: 0 <= i < |records| ==> IsFrameOf(frames[i], Replay(records[..i + 1]), axis)
  {
    s := Initial;
    frames := [];
    var i := 0;
    while i < |records|
      invariant 0 <= i <= |records|
      invariant s == Replay(records[..i])
      invariant |frames| == i
      invariant forall j :: 0 <= j < i ==> IsFrameOf(frames[j], Replay(records[..j + 1]), axis)
    {
      ReplayAppend(records[..i], records[i]);
      assert records[..i] + [records[i]] == records[..i + 1];
      s := Step(s, records[i]);
      var f := RenderFrame(s, axis);
      ghost var previous := frames;
      frames := frames + [f];
      assert IsFrameOf(frames[i], Replay(records[..i + 1]), axis);
      assert forall j :: 0 <= j < i ==> frames[j] == previous[j];
      i := i + 1;
    }
    assert records[..i] == records;
  }

  /** Every cursor the loop ever places lies within columns 1..41 and rows 1..21. */
  lemma ReplayCursorOnScreen(evs: seq<Event>, axis: int)
    ensures CursorFor(Replay(evs).axes, axis).Some? ==>
              1 <= CursorFor(Replay(evs).axes, axis).value.col <= 41 &&
              1 <= CursorFor(Replay(evs).axes, axis).value.row <= 21
  {
  }

  /** With axes 0 and 1 centred the cursor sits at column 21, row 11. */
  lemma CentredCursor(evs: seq<Event>)
    requires 0 in Replay(evs).axes && Replay(evs).axes[0] == 0
    requires 1 in Replay(evs).axes && Replay(evs).axes[1] == 0
    ensures CursorFor(Replay(evs).axes, 0) == Some(Pos(11, 21))
  {
  }

  /** After axis 0 reports 32767 and axis 1 reports -32767, the cursor is at column 41, row 1. */
  lemma CornerCursor()
    ensures CursorFor(Replay([Event(0x02, 0, 32767), Event(0x82, 1, -32767)]).axes, 0) == Some(Pos(1, 41))
  {
    var evs := [Event(0x02, 0, 32767), Event(0x82, 1, -32767)];
    assert evs[..1] == [evs[0]];
    assert [evs[0]][..0] == [];
  }
}
