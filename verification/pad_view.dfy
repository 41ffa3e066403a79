/**
 * The `ControlPadView` of code-old.py: twelve buttons, and after every color
 * change the whole matrix re-sent as one LED frame.
 */
module PadView {
  import opened Wrappers
  import opened Seqs
  import opened Bits
  import opened Frames
  import opened Colors
  import opened LedMatrix

  /** The pad as built: twelve unlit buttons. */
  function NewPad(): (buttons: seq<Led>)
    ensures |buttons| == 12
    ensures forall i | 0 <= i < 12 :: buttons[i] == Off
  {
    seq(12, _ => Off)
  }

  /** `refresh_button_colors`: the frame `CanMessage(0x215, payload)` sends for the current pad. */
  function RefreshButtonColors(buttons: seq<Led>): (f: Frame)
    ensures f.id == LedMatrixId && |f.data| == 8
    ensures f.data[..5] == RgbMatrixToHex(RgbMatrices(buttons)) && f.data[5..] == [0, 0, 0]
    ensures BytesMessage(LedMatrixId, List(RgbMatrixToHex(RgbMatrices(buttons)))) == Success(f)
  {
    var payload := RgbMatrixToHex(RgbMatrices(buttons));
    BytesMessageAgrees(LedMatrixId, payload);
    Frame(LedMatrixId, Normalize(payload))
  }

  /**
   * The recoloring half of `update_color(index, color)`: `buttons[index]` takes the
   * color (negative indices count from the end, as in Python); nothing else changes.
   */
  function Recolor(buttons: seq<Led>, index: int, code: int): (r: seq<Led>)
    requires -(|buttons| as int) <= index < |buttons|
    ensures |r| == |buttons|
    ensures r[PyIndex(|buttons|, index)] == ChangeColor(buttons[PyIndex(|buttons|, index)], code)
    ensures forall j | 0 <= j < |buttons| && j != PyIndex(|buttons|, index) :: r[j] == buttons[j]
  {
    var k := PyIndex(|buttons|, index);
    buttons[k := ChangeColor(buttons[k], code)]
  }

  /** `update_color(index, color)`: the recolored pad and the frame then sent for all of it. */
  function UpdateColor(buttons: seq<Led>, index: int, code: int): (seq<Led>, Frame)
    requires -(|buttons| as int) <= index < |buttons|
  {
    var updated := Recolor(buttons, index, code);
    (updated, RefreshButtonColors(updated))
  }

  /** The frame carries the whole pad: the keypad recovers every button's color from its payload. */
  lemma FrameCarriesPad(buttons: seq<Led>)
    requires |buttons| >= 12
    ensures UnpackLeds(RefreshButtonColors(buttons).data) == buttons[..12]
  {
    var f := RefreshButtonColors(buttons);
    var payload := RgbMatrixToHex(RgbMatrices(buttons));
    var a, b := UnpackLeds(f.data), UnpackLeds(payload);
    assert AllBytes(f.data);
    forall k: nat | k < 40
      ensures BitOf(LittleEndian(f.data), k) == BitOf(LittleEndian(payload), k)
    {
      LittleEndianBit(f.data, k / 8, k % 8);
      LittleEndianBit(payload, k / 8, k % 8);
    }
    assert a == b;
    UnpackPacked(buttons);
  }

  /**
   * After `update_color` the keypad, decoding the frame just sent, sees the
   * recolored button in its new color and every other button as it was.
   */
  lemma UpdateColorFrameShowsChange(buttons: seq<Led>, index: int, code: int)
    requires |buttons| == 12 && -12 <= index < 12
    ensures var (pad, frame) := UpdateColor(buttons, index, code);
      var leds := UnpackLeds(frame.data);
      && leds[PyIndex(12, index)] == ChangeColor(buttons[PyIndex(12, index)], code)
      && forall j | 0 <= j < 12 && j != PyIndex(12, index) :: leds[j] == buttons[j]
  {
    var pad := Recolor(buttons, index, code);
    FrameCarriesPad(pad);
    assert pad[..12] == pad;
  }

  /** The frame for an unlit pad is eight zero bytes. */
  lemma AllOffFrame(buttons: seq<Led>)
    requires forall i | 0 <= i < |buttons| :: buttons[i] == Off
    ensures RefreshButtonColors(buttons) == Frame(LedMatrixId, Zeros(8))
  {
    AllOffPacksToZero(buttons);
    assert Normalize([0, 0, 0, 0, 0]) == Zeros(8);
  }
}
