# joytest — a Dafny model of the joystick event loop

`joytest` reads `js_event` records from a Linux joystick device node
(a path such as `/dev/input/js0`) and, after every record, redraws a terminal
view: one line per button (`Button #<id>: ON|OFF`) and one line per axis
(`Axis #<id>: <value>`). Then, when both axes of the selected pair
(`axis`, `axis+1`) have been reported, it moves the terminal cursor to a
position derived from them.

This project models the pure part of that loop, once the records are given
as a sequence:

- **JsEvent** (`js_event.dfy`): the decoded record `Event(eventType, number, value)`
  with an 8-bit type, an 8-bit number and a signed 16-bit value; the joystick
  API constants `JS_EVENT_BUTTON = 0x01`, `JS_EVENT_AXIS = 0x02`,
  `JS_EVENT_INIT = 0x80`; the masking of the init flag and the three-way
  classification.
- **Tracker** (`tracker.dfy`): the two maps, buttons (id to pressed) and axes
  (id to raw value), the per-record `Step`, and `Replay`, the fold of `Step`
  over a record sequence from empty maps. Includes last-write-wins and frame
  lemmas.
- **Cursor** (`cursor.dfy`): C's truncating division `TDiv`, characterised
  independently of its definition and proved unique. Also the column formula
  `a*20/32767 + 20 + 1`, the row formula `b*10/32767 + 10 + 1`, and their
  bounds and monotonicity.
- **Render** (`render.dfy`): one render pass as abstract lines plus an
  optional cursor. The ascending listing of map keys, and the predicate
  `IsFrameOf`, which fixes the frame uniquely.
- **Joytest** (`joytest.dfy`): the read loop `EventLoop`. It renders one frame
  per record, and frame `i` shows the state after records `0..i`.

Design choices:

- The record's type is kept as a `bv8` bit pattern. In C, `ev.type & ~JS_EVENT_INIT`
  promotes the byte to `int` and clears bit 7 only. `StripInit` does that with
  `& !0x80`.
- Map keys have type `Byte`. The program's maps are keyed by `int`, but only
  `ev.number` (an unsigned byte) is ever inserted. Lookups with an arbitrary
  `int` axis, as in `axes.count(axis)`, are still modelled.
- Iterating a `std::map` visits keys in ascending order. `SortedKeys` produces
  that order by scanning the byte range.
- The nominal axis range is ±32767, but the code stores the record's signed
  16-bit value, so -32768 can occur. The model follows the code, and
  `CursorX` and `CursorY` cover -32768 (column 1, row 1).
- Multiplying a 16-bit value by 20 or 10 stays well inside C `int`, so no
  wrap-around is modelled there.

## Model

| member | source | states |
|---|---|---|
| JsEvent.StripInit | joytest/joytest.cc:37 | masking the init flag yields a type below 0x80 that is either the type itself or the type minus 0x80 |
| JsEvent.Classify | joytest/joytest.cc:37-44 | a record is a button update exactly for types 0x01 and 0x81, an axis update exactly for 0x02 and 0x82, and is ignored otherwise |
| JsEvent.ClassifyIgnoresInit | joytest/joytest.cc:37-41 | a type and the same type with the init flag set classify alike |
| Tracker.Step | joytest/joytest.cc:37-44 | a button record sets its id to ON exactly when the value is nonzero; an axis record stores the raw value; each leaves the other map untouched, an ignored record leaves both, no key is removed and keys other than the record's number keep their values |
| Tracker.StepIgnoresInit | joytest/joytest.cc:37-43 | setting the init flag on a record does not change the state it produces |
| Tracker.ReplayButtonsLastWriteWins | joytest/joytest.cc:33-40 | after a record sequence, a button id is present exactly when some button record carried it, and its value is ON exactly when the last such record had a nonzero value |
| Tracker.ReplayAxesLastWriteWins | joytest/joytest.cc:34-44 | after a record sequence, an axis id is present exactly when some axis record carried it, and it holds the value of the last such record |
| Tracker.ReplayKeysWritten | joytest/joytest.cc:33-44 | for buttons and for axes alike, an id is a key of the map exactly when some record of that class carried it |
| Tracker.ReplayButtonValue | joytest/joytest.cc:37-39 | the last button record for an id decides it: ON exactly when that record's value is nonzero |
| Tracker.ReplayAxisValue | joytest/joytest.cc:41-43 | the last axis record for an id decides it: the map holds that record's raw value |
| Tracker.PresentIdHasLastWrite | joytest/joytest.cc:33-44 | an id written at least once has a last write, so the two lemmas above determine every entry |
| Tracker.ReplayNeverRemoves | joytest/joytest.cc:33-44 | every id present after a prefix of the records is still present after the whole sequence |
| Tracker.Replay | joytest/joytest.cc:33-44 | the state after consuming a record sequence from empty maps; every stored axis value lies in the signed 16-bit range because each is a record's value |
| Cursor.TDiv | joytest/joytest.cc:56-57 | the quotient leaves a remainder smaller than the divisor in magnitude that is zero or has the dividend's sign, which is C's truncation toward zero |
| Cursor.TruncatedQuotientUnique | joytest/joytest.cc:56-57 | only one quotient satisfies the truncation property, so TDiv is exactly C division |
| Cursor.TDivOdd | joytest/joytest.cc:56-57 | truncating division is symmetric about zero |
| Cursor.TDivMonotone | joytest/joytest.cc:56-57 | dividing by a positive divisor preserves order |
| Cursor.TruncationDiffersFromEuclidean | joytest/joytest.cc:56 | for -20 / 32767, C truncation gives 0 where Euclidean division gives -1, so axis value -1 stays in column 21 |
| Cursor.CursorX | joytest/joytest.cc:56 | the column computed with C truncating division; any signed 16-bit axis value puts it in 1..41 |
| Cursor.CursorY | joytest/joytest.cc:57 | the row computed with C truncating division; any signed 16-bit axis value puts it in 1..21 |
| Cursor.CursorMonotone | joytest/joytest.cc:56-57 | a larger axis value never moves the cursor left or up |
| Cursor.CursorCorners | joytest/joytest.cc:56-57 | the centre (0, 0) maps to column 21 and row 11; 32767 maps to column 41; -32767 maps to row 1; -32768 maps to column 1 and row 1 |
| Cursor.CursorFor | joytest/joytest.cc:54-58 | a cursor exists exactly when both `axis` and `axis+1` are known; its column comes from the first axis and its row from the second, within 1..41 and 1..21 |
| Render.SortedKeys | joytest/joytest.cc:46-52 | the listing of a map's keys is strictly ascending, contains only keys, and contains every key |
| Render.RenderFrame | joytest/joytest.cc:45-58 | one render pass lists every button and axis entry with its current value in render order, shows nothing else, and carries the cursor exactly when both selected axes are known |
| Render.OrderedListingUnique | joytest/joytest.cc:45-53 | two line sequences in render order with the same lines are equal |
| Render.FrameUnique | joytest/joytest.cc:45-58 | a state and a selected axis determine the rendered frame uniquely |
| Render.FrameOrder | joytest/joytest.cc:45-53 | in a rendered frame every button line precedes every axis line, ids ascend strictly within each group, and no id appears twice in a group |
| Joytest.EventLoop | joytest/joytest.cc:35-61 | the loop ends in the last-write-wins state of all records and renders exactly one frame per record, frame i showing the state after records 0..i, including after ignored records |
| Joytest.ReplayCursorOnScreen | joytest/joytest.cc:54-58 | every cursor the loop places, after any record sequence, lies within columns 1..41 and rows 1..21 |
| Joytest.CentredCursor | joytest/joytest.cc:54-57 | with axes 0 and 1 at 0 and selected axis 0, the cursor is at column 21, row 11 |
| Joytest.CornerCursor | joytest/joytest.cc:41-57 | after an axis-0 record of 32767 and an init-flagged axis-1 record of -32767, the cursor is at column 41, row 1 |

## Left out

- Command-line handling (joytest/joytest.cc:13-23): the usage message, exit code 1 and `atol` parsing. The selected axis is an `int` parameter.
- Opening the device and reporting failure with `perror` (joytest/joytest.cc:25-30): this is operating-system I/O.
- The blocking `read` of fixed-size records (joytest/joytest.cc:35): records arrive as a given sequence. A short read or a read error ends that sequence.
- The binary layout of `js_event` (timestamp, byte order, struct size): this is platform ABI. Records are already decoded.
- The exact escape sequences (`ESC[H`, `ESC[K`, `ESC[row;colH`), `%d` formatting and `fflush`: render passes are abstract lines and a position.
- CursorFor: C `int` overflow of `axis+1` when `axis` is `INT_MAX` is not modelled; the model uses unbounded `axis + 1`.
