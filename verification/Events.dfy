/** The `input_event` record and the part of its destructuring the engine looks at. */
module Events {
  type u16 = x: int | 0 <= x < 0x1_0000
  type i32 = x: int | -0x8000_0000 <= x < 0x8000_0000

  type i64 = x: int | -0x8000_0000_0000_0000 <= x < 0x8000_0000_0000_0000

  // Times are only copied, never computed with.
  datatype TimeVal = TimeVal(sec: i64, usec: i64)

  datatype InputEvent = InputEvent(time: TimeVal, etype: u16, code: u16, value: i32)

  const EV_SYN: u16 := 0x00
  const EV_KEY: u16 := 0x01
  const EV_ABS: u16 := 0x03
  const EV_SW: u16 := 0x05
  const EV_LED: u16 := 0x11

  const SYN_REPORT: u16 := 0
  const SYN_DROPPED: u16 := 3

  // Event types outside these five are only passed through, so they share one case.
  datatype EventSummary =
    | Synchronization(code: u16, value: i32)
    | Key(code: u16, value: i32)
    | AbsoluteAxis(code: u16, value: i32)
    | Switch(code: u16, value: i32)
    | Led(code: u16, value: i32)
    | Other(code: u16, value: i32)

  function Destructure(ev: InputEvent): EventSummary {
    if ev.etype == EV_SYN then Synchronization(ev.code, ev.value)
    else if ev.etype == EV_KEY then Key(ev.code, ev.value)
    else if ev.etype == EV_ABS then AbsoluteAxis(ev.code, ev.value)
    else if ev.etype == EV_SW then Switch(ev.code, ev.value)
    else if ev.etype == EV_LED then Led(ev.code, ev.value)
    else Other(ev.code, ev.value)
  }

  predicate IsReport(ev: InputEvent) {
    ev.etype == EV_SYN && ev.code == SYN_REPORT
  }

  predicate IsDropped(ev: InputEvent) {
    ev.etype == EV_SYN && ev.code == SYN_DROPPED
  }

  function Report(time: TimeVal): InputEvent {
    InputEvent(time, EV_SYN, SYN_REPORT, 0)
  }
}
