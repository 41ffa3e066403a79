/**
 * `decode_button_press`: the first two bytes of a button-press frame unpacked into
 * the twelve-entry bit list the main loop indexes from the end.
 */
module Decoder {
  import opened Wrappers
  import opened Seqs
  import opened Bits
  import opened Vehicle

  /** Reading `int_values[1]` of a payload with fewer than two bytes raises an IndexError. */
  datatype DecodeError = ShortFrame

  /** The 12-bit key field of a payload: all of byte 0 and the low nibble of byte 1. */
  function Keycode(state: seq<byte>): nat
    requires |state| >= 2
  {
    (state[0] as nat) + 256 * ((state[1] as nat) % 16)
  }

  /**
   * `bay2 + bay1`: the low four bits of byte 1 then the eight bits of byte 0, each
   * most significant first, taken from `bin((1 << 8) + b)`.
   */
  function DecodeButtonPress(state: seq<byte>): (r: Result<seq<bit>, DecodeError>)
    ensures r.Failure? <==> |state| < 2
    ensures |state| >= 2 ==> |r.value| == 12
    ensures |state| >= 2 ==> forall k | 0 <= k < 12 :: r.value[11 - k] == BitOf(Keycode(state), k)
  {
    if |state| < 2 then Failure(ShortFrame)
    else
      var b0: nat, b1: nat := state[0], state[1];
      KeycodeBits(state);
      Success(LowBitsMsb(256 + b1, 4) + LowBitsMsb(256 + b0, 8))
  }

  /** The bits `bin((1 << 8) + b)` ends in are those of `b` and, for byte 1, of its low nibble. */
  lemma KeycodeBits(state: seq<byte>)
    requires |state| >= 2
    ensures forall i | 0 <= i < 8 :: BitOf(256 + state[0] as nat, i) == BitOf(Keycode(state), i)
    ensures forall i | 8 <= i < 12 :: BitOf(256 + state[1] as nat, i - 8) == BitOf(Keycode(state), i)
  {
    var b0: nat, b1: nat := state[0], state[1];
    var lo, hi := b1 % 16, b1 / 16;
    assert Pow2(4) == 16 && Pow2(8) == 256;
    assert Keycode(state) == b0 + Pow2(8) * lo;
    forall i | 0 <= i < 8
      ensures BitOf(256 + b0, i) == BitOf(Keycode(state), i)
    {
      BitOfAddHigh(b0, 1, 8, i);
      BitOfAddHigh(b0, lo, 8, i);
    }
    forall i | 8 <= i < 12
      ensures BitOf(256 + b1, i - 8) == BitOf(Keycode(state), i)
    {
      ShrShr(Keycode(state), 8, i - 8);
      ShrAddHigh(b0, lo, 8);
      assert 256 + b1 == lo + Pow2(4) * (16 + hi);
      BitOfAddHigh(lo, 16 + hi, 4, i - 8);
    }
  }

  /** `pressed_buttons[BUTTON_PRESSED_X]` is bit `BUTTON_X` of the key field. */
  lemma PressedBitOfButton(state: seq<byte>, b: Button)
    requires |state| >= 2
    ensures PyAt(DecodeButtonPress(state).value, b.PressedIndex()) == BitOf(Keycode(state), b.Index())
  {
  }

  /** In particular `BUTTON_PRESSED_HAZARD = -1` selects bit 0 of byte 0. */
  lemma HazardIsBitZero(state: seq<byte>)
    requires |state| >= 2
    ensures PyAt(DecodeButtonPress(state).value, HazardButton.PressedIndex()) == state[0] % 2
  {
    PressedBitOfButton(state, HazardButton);
  }

  /** The high nibble of byte 1 and every byte after it play no part in the decoded list. */
  lemma DecodeIgnoresRest(s: seq<byte>, t: seq<byte>)
    requires |s| >= 2 && |t| >= 2
    requires s[0] == t[0] && s[1] % 16 == t[1] % 16
    ensures DecodeButtonPress(s) == DecodeButtonPress(t)
  {
    var a, b := DecodeButtonPress(s).value, DecodeButtonPress(t).value;
    assert Keycode(s) == Keycode(t);
    forall j | 0 <= j < 12
      ensures a[j] == b[j]
    {
      assert BitOf(Keycode(s), 11 - j) == BitOf(Keycode(t), 11 - j);
    }
    assert a == b;
  }

  /** The two-byte payload a keypad sends for a given list of pressed bits. */
  function EncodeButtonPress(pressed: seq<bit>): (payload: seq<byte>)
    requires |pressed| == 12
    ensures |payload| == 2 && payload[1] < 16
  {
    assert Pow2(8) == 256 && Pow2(4) == 16;
    [FromBitsMsb(pressed[4..]), FromBitsMsb(pressed[..4])]
  }

  /** Decoding an encoded press gives back the pressed bits. */
  lemma DecodeEncode(pressed: seq<bit>)
    requires |pressed| == 12
    ensures DecodeButtonPress(EncodeButtonPress(pressed)) == Success(pressed)
  {
    var payload := EncodeButtonPress(pressed);
    var r := DecodeButtonPress(payload).value;
    forall j | 0 <= j < 12
      ensures r[j] == pressed[j]
    {
      var k := 11 - j;
      assert r[11 - k] == BitOf(Keycode(payload), k);
      EncodedKeycodeBit(pressed, k);
    }
    assert r == pressed;
  }

  /** Bit `k` of the key field of an encoded press is entry `11 - k` of the pressed bits. */
  lemma EncodedKeycodeBit(pressed: seq<bit>, k: nat)
    requires |pressed| == 12 && k < 12
    ensures BitOf(Keycode(EncodeButtonPress(pressed)), k) == pressed[11 - k]
  {
    var payload := EncodeButtonPress(pressed);
    var b0: nat, b1: nat := payload[0], payload[1];
    assert Pow2(8) == 256;
    assert Keycode(payload) == b0 + Pow2(8) * b1;
    if k < 8 {
      BitOfAddHigh(b0, b1, 8, k);
      FromBitsMsbBit(pressed[4..], k);
    } else {
      ShrShr(Keycode(payload), 8, k - 8);
      ShrAddHigh(b0, b1, 8);
      FromBitsMsbBit(pressed[..4], k - 8);
    }
  }

  /** Encoding a decoded payload gives back the two bytes the decoder reads, with the ignored nibble cleared. */
  lemma EncodeDecode(state: seq<byte>)
    requires |state| >= 2
    ensures EncodeButtonPress(DecodeButtonPress(state).value) == [state[0], state[1] % 16]
  {
    var r := DecodeButtonPress(state).value;
    assert Pow2(8) == 256 && Pow2(4) == 16;
    assert r[4..] == LowBitsMsb(256 + state[0] as nat, 8);
    assert r[..4] == LowBitsMsb(256 + state[1] as nat, 4);
    var b0: nat, b1: nat := state[0], state[1];
    LowBitsOfLowPart(256 + b0, 8, b0, 1);
    LowBitsOfLowPart(256 + b1, 4, b1 % 16, 16 + b1 / 16);
    FromLowBits(b0, 8);
    FromLowBits(b1 % 16, 4);
  }

  /** The low `n` bits of `low + 2^n * high` are those of `low`. */
  lemma LowBitsOfLowPart(x: nat, n: nat, low: nat, high: nat)
    requires x == low + Pow2(n) * high
    ensures LowBitsMsb(x, n) == LowBitsMsb(low, n)
  {
    var a, b := LowBitsMsb(x, n), LowBitsMsb(low, n);
    forall j | 0 <= j < n
      ensures a[j] == b[j]
    {
      var i := n - 1 - j;
      assert a[n - 1 - i] == BitOf(x, i) && b[n - 1 - i] == BitOf(low, i);
      BitOfAddHigh(low, high, n, i);
    }
  }
}
