/** The byte frame `HardwareInterface.set_led` writes to the serial port:
    the LED's truth value as 0 or 1, the ASCII digit of the value, and a
    newline. */
module Hardware {
  import opened Common

  const Newline: byte := 10
  const DigitZero: byte := 48

  /** `bytes([int(bool(led)), ord(str(int(val))), ord('\n')])`. `ord` needs
      a one-character string, so a value outside 0..9 raises `TypeError`. */
  function LedFrame(led: int, val: int): (r: Result<Bytes>)
    ensures r.Ok? <==> 0 <= val <= 9
    ensures r.Raised? ==> r.error == TypeError
    ensures r.Ok? ==> |r.value| == 3 && r.value[2] == Newline && r.value[0] in {0, 1}
  {
    // `set_led` is declared without `self`; it is read as a method of the
    // hardware object.
    if 0 <= val <= 9 then
      Ok([if led != 0 then 1 else 0, DigitZero + val, Newline])
    else
      Raised(TypeError)
  }

  /** What the device reads back out of a frame: whether the LED is lit and
      the digit value, or `None` for bytes that are not a frame. */
  function ParseLedFrame(frame: Bytes): Option<(bool, int)>
  {
    if |frame| == 3 && frame[0] in {0, 1} && DigitZero <= frame[1] <= DigitZero + 9 && frame[2] == Newline
    then Some((frame[0] == 1, frame[1] - DigitZero))
    else None
  }

  /** Every frame `set_led` writes is read back as the LED's truth value and
      the value written, and every well-formed frame is the one `set_led`
      writes for what it carries. */
  lemma LedFrameRoundTrip(led: int, val: int, frame: Bytes)
    ensures 0 <= val <= 9 ==> ParseLedFrame(LedFrame(led, val).value) == Some((led != 0, val))
    ensures ParseLedFrame(frame).Some? ==>
      var (on, v) := ParseLedFrame(frame).value;
      LedFrame(if on then 1 else 0, v) == Ok(frame)
  {
    if ParseLedFrame(frame).Some? {
      var (on, v) := ParseLedFrame(frame).value;
      assert frame == [if on then 1 else 0, DigitZero + v, Newline];
    }
  }
}
