/**
 * The `ControlPadView` of code.py: thirteen buttons, a packer that shifts every
 * byte left by one and formats it with `hex`, and a refresh that only computes
 * the payload (its send is commented out).
 */
module ShiftedPadView {
  import opened Wrappers
  import opened Colors
  import opened LedMatrix
  import opened Hex
  import PadView

  /** The pad as built: thirteen unlit buttons. */
  function NewPad(): (buttons: seq<Led>)
    ensures |buttons| == 13
    ensures forall i | 0 <= i < 13 :: buttons[i] == Off
  {
    seq(13, _ => Off)
  }

  /** `rgb_matrix_to_hex` of code.py: the same five slices, each value `<< 1` and passed to `hex`. */
  function RgbMatrixToHexShifted(m: Matrix): (out: seq<string>)
    ensures |out| == 5
    ensures forall j | 0 <= j < 5 :: ParseHex(out[j]) == Some(2 * RgbMatrixToHex(m)[j])
  {
    var v := RgbMatrixToHex(m);
    var out := seq(5, j requires 0 <= j < 5 => ToHex(2 * v[j]));
    assert forall j | 0 <= j < 5 :: ParseHex(out[j]) == Some(2 * v[j]) by {
      forall j | 0 <= j < 5
        ensures ParseHex(out[j]) == Some(2 * v[j])
      {
        ParseToHex(2 * v[j]);
      }
    }
    out
  }

  /** Every shifted value is even and at most `0x1FE`; the last one is at most `0x1E`. */
  lemma ShiftedBounds(m: Matrix)
    ensures forall j | 0 <= j < 5 ::
      var n := ParseHex(RgbMatrixToHexShifted(m)[j]).value; n % 2 == 0 && n <= 0x1FE
    ensures ParseHex(RgbMatrixToHexShifted(m)[4]).value <= 0x1E
  {
  }

  /** An unlit pad formats as five `"0x0"`. */
  lemma AllOffShifted(buttons: seq<Led>)
    requires forall i | 0 <= i < |buttons| :: buttons[i] == Off
    ensures RgbMatrixToHexShifted(RgbMatrices(buttons)) == ["0x0", "0x0", "0x0", "0x0", "0x0"]
  {
    AllOffPacksToZero(buttons);
    assert ToHex(0) == "0x0";
  }

  /**
   * `refresh_button_colors`: the payload it computes and prints, each entry the
   * code-old.py payload byte doubled; nothing is sent.
   */
  function RefreshButtonColors(buttons: seq<Led>): (payload: seq<string>)
    ensures |payload| == 5
    ensures forall j | 0 <= j < 5 :: ParseHex(payload[j]) == Some(2 * RgbMatrixToHex(RgbMatrices(buttons))[j])
  {
    RgbMatrixToHexShifted(RgbMatrices(buttons))
  }

  /** Button 12 is outside `buttons[0:12]`, so its color never reaches the payload. */
  lemma LastButtonIgnored(buttons: seq<Led>, led: Led)
    requires |buttons| == 13
    ensures RefreshButtonColors(buttons[12 := led]) == RefreshButtonColors(buttons)
  {
    assert RgbMatrices(buttons[12 := led]) == RgbMatrices(buttons);
  }

  /**
   * `update_color(id, color)`: the same recoloring as code-old.py's; the payload
   * the refresh then computes is only printed, so no frame is sent.
   */
  function UpdateColor(buttons: seq<Led>, id: int, code: int): seq<Led>
    requires -(|buttons| as int) <= id < |buttons|
  {
    PadView.Recolor(buttons, id, code)
  }

  /**
   * Recoloring button 12 changes the pad but not the payload: a color given to the
   * thirteenth button is never shown.
   */
  lemma UpdateLastButtonUnseen(buttons: seq<Led>, code: int)
    requires |buttons| == 13
    ensures UpdateColor(buttons, 12, code)[12] == ChangeColor(buttons[12], code)
    ensures RefreshButtonColors(UpdateColor(buttons, 12, code)) == RefreshButtonColors(buttons)
  {
    var r := UpdateColor(buttons, 12, code);
    assert r == buttons[12 := ChangeColor(buttons[12], code)];
    LastButtonIgnored(buttons, ChangeColor(buttons[12], code));
  }
}
