/**
 The decoded joystick record and its classification, after the Linux joystick
 API (`linux/joystick.h`): a record carries an 8-bit type, an 8-bit number
 (the button or axis id) and a signed 16-bit value. The timestamp, the byte
 order and the size of the binary record are platform ABI and are not modelled.
 */
module JsEvent {

  /** An unsigned 8-bit quantity, as `__u8` in the record. */
  type Byte = x: int | 0 <= x < 0x100

  /** A signed 16-bit quantity, as `__s16` in the record. */
  type Int16 = x: int | InInt16(x)

  predicate InInt16(x: int) {
    -0x8000 <= x < 0x8000
  }

  /** Event type constants of the joystick API. */
  const JS_EVENT_BUTTON: bv8 := 0x01
  const JS_EVENT_AXIS: bv8 := 0x02
  const JS_EVENT_INIT: bv8 := 0x80

  /** One decoded record (the `js_event` without its timestamp); the type stays a bit pattern. */
  datatype Event = Event(eventType: bv8, number: Byte, value: Int16)

  /** What the loop does with a record: update a button, update an axis, or nothing. */
  datatype Class = ButtonClass | AxisClass | Ignored

  /**
   The type with the init flag cleared. The `__u8` type is promoted to `int`
   and and-ed with `~JS_EVENT_INIT`, which clears bit 7 and nothing else
   because a promoted byte has no higher bits set.
   */
  function StripInit(t: bv8): (r: bv8)
    ensures r < JS_EVENT_INIT
    ensures r == t || r == t - JS_EVENT_INIT
  {
    t & !JS_EVENT_INIT
  }

  /** The type with the init flag set, as the driver reports initial state. */
  function SetInit(t: bv8): (r: bv8)
    ensures r >= JS_EVENT_INIT
    ensures r == t || r == t + JS_EVENT_INIT
  {
    t | JS_EVENT_INIT
  }

  /** Classification of a record type: the masked type is compared with the two known kinds. */
  function Classify(t: bv8): (c: Class)
    ensures c == ButtonClass <==> t == JS_EVENT_BUTTON || t == JS_EVENT_BUTTON + JS_EVENT_INIT
    ensures c == AxisClass <==> t == JS_EVENT_AXIS || t == JS_EVENT_AXIS + JS_EVENT_INIT
  {
    var masked := StripInit(t);
    if masked == JS_EVENT_BUTTON then ButtonClass
    else if masked == JS_EVENT_AXIS then AxisClass
    else Ignored
  }

  /** The init flag has no say in classification: `t` and `t | JS_EVENT_INIT` classify alike. */
  lemma ClassifyIgnoresInit(t: bv8)
    ensures Classify(SetInit(t)) == Classify(t)
    ensures StripInit(SetInit(t)) == StripInit(t)
  {
  }
}
