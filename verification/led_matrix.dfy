/**
 * `ControlPadView.rgb_matrices` and `rgb_matrix_to_hex`: the colors of buttons
 * 0..11 split into red, green and blue rows and packed into the five-byte payload
 * of the LED frame.
 */
module LedMatrix {
  import opened Seqs
  import opened Bits
  import opened Colors

  /** One channel of the pad: entry `i` belongs to button `i`. */
  type Row = r: seq<bit> | |r| == 12 witness [0, 0, 0, 0, 0, 0, 0, 0, 0, 0, 0, 0]

  datatype Matrix = Matrix(red: Row, green: Row, blue: Row)

  /** `rgb_matrices`: rows start as `[0] * 12` and buttons `0..11` (as many as there are) fill them. */
  function RgbMatrices(buttons: seq<Led>): Matrix
  {
    Matrix(
      seq(12, i requires 0 <= i < 12 => if i < |buttons| then buttons[i].red else 0),
      seq(12, i requires 0 <= i < 12 => if i < |buttons| then buttons[i].green else 0),
      seq(12, i requires 0 <= i < 12 => if i < |buttons| then buttons[i].blue else 0))
  }

  /**
   * `rgb_matrix_to_hex` of code-old.py: each row reversed, then sliced into five
   * bytes and each byte read as a binary number.
   */
  function RgbMatrixToHex(m: Matrix): (out: seq<nat>)
    ensures |out| == 5
    ensures AllBytes(out)
    ensures out[4] < 16
  {
    var rr, gr, br := Reverse(m.red), Reverse(m.green), Reverse(m.blue);
    var zeros: seq<bit> := [0, 0, 0, 0];
    assert Pow2(8) == 256 && Pow2(4) == 16;
    FromBitsMsbLeadingZeros(zeros, br[..4]);
    [ FromBitsMsb(rr[4..]),
      FromBitsMsb(gr[8..] + rr[..4]),
      FromBitsMsb(gr[..8]),
      FromBitsMsb(br[4..]),
      FromBitsMsb(zeros + br[..4]) ]
  }

  /**
   * Bit `k` of the payload read as one little-endian number: red of button `k`,
   * green of button `k - 12`, blue of button `k - 24`, and nothing from bit 36 on.
   */
  function MatrixBit(m: Matrix, k: nat): bit
  {
    if k < 12 then m.red[k]
    else if k < 24 then m.green[k - 12]
    else if k < 36 then m.blue[k - 24]
    else 0
  }

  /** Bit `i` of payload byte `j` is bit `8*j + i` of the matrix. */
  lemma PayloadByteBit(m: Matrix, j: nat, i: nat)
    requires j < 5 && i < 8
    ensures BitOf(RgbMatrixToHex(m)[j], i) == MatrixBit(m, 8 * j + i)
  {
    var rr, gr, br := Reverse(m.red), Reverse(m.green), Reverse(m.blue);
    var zeros: seq<bit> := [0, 0, 0, 0];
    if j == 0 {
      FromBitsMsbBit(rr[4..], i);
    } else if j == 1 {
      FromBitsMsbBit(gr[8..] + rr[..4], i);
    } else if j == 2 {
      FromBitsMsbBit(gr[..8], i);
    } else if j == 3 {
      FromBitsMsbBit(br[4..], i);
    } else {
      FromBitsMsbBit(zeros + br[..4], i);
    }
  }

  /** The packing, bit for bit: the little-endian payload holds exactly the three rows, one after another. */
  lemma PackedBits(m: Matrix, k: nat)
    ensures BitOf(LittleEndian(RgbMatrixToHex(m)), k) == MatrixBit(m, k)
  {
    var out := RgbMatrixToHex(m);
    if k < 40 {
      LittleEndianBit(out, k / 8, k % 8);
      PayloadByteBit(m, k / 8, k % 8);
    } else {
      LittleEndianBeyond(out, k);
    }
  }

  /** The LED of every button as the keypad reads it back out of a payload. */
  function UnpackLeds(payload: seq<nat>): (leds: seq<Led>)
    ensures |leds| == 12
  {
    var v := LittleEndian(payload);
    seq(12, i requires 0 <= i < 12 => Led(BitOf(v, i), BitOf(v, 12 + i), BitOf(v, 24 + i)))
  }

  /** Packing loses nothing: the payload gives back the colors of buttons 0..11. */
  lemma UnpackPacked(buttons: seq<Led>)
    requires |buttons| >= 12
    ensures UnpackLeds(RgbMatrixToHex(RgbMatrices(buttons))) == buttons[..12]
  {
    var m := RgbMatrices(buttons);
    var leds := UnpackLeds(RgbMatrixToHex(m));
    forall i | 0 <= i < 12
      ensures leds[i] == buttons[i]
    {
      PackedBits(m, i);
      PackedBits(m, 12 + i);
      PackedBits(m, 24 + i);
    }
    assert leds == buttons[..12];
  }

  /** A pad with every button unlit packs to five zero bytes. */
  lemma AllOffPacksToZero(buttons: seq<Led>)
    requires forall i | 0 <= i < |buttons| :: buttons[i] == Off
    ensures RgbMatrixToHex(RgbMatrices(buttons)) == [0, 0, 0, 0, 0]
  {
    var m := RgbMatrices(buttons);
    var out := RgbMatrixToHex(m);
    forall j | 0 <= j < 5
      ensures out[j] == 0
    {
      forall i | 0 <= i < 8
        ensures BitOf(out[j], i) == 0
      {
        PayloadByteBit(m, j, i);
      }
      ZeroBitsZero(out[j]);
    }
  }

  /** Only the hazard button lit yellow packs to `[1, 16, 0, 0, 0]`. */
  lemma HazardYellowPayload(buttons: seq<Led>)
    requires |buttons| >= 12 && buttons[0] == Yellow.Rgb()
    requires forall i | 1 <= i < |buttons| :: buttons[i] == Off
    ensures RgbMatrixToHex(RgbMatrices(buttons)) == [1, 16, 0, 0, 0]
  {
    var m := RgbMatrices(buttons);
    var out := RgbMatrixToHex(m);
    var expected: seq<nat> := [1, 16, 0, 0, 0];
    assert Pow2(4) == 16;
    forall j | 0 <= j < 5
      ensures out[j] == expected[j]
    {
      forall i | 0 <= i < 8
        ensures BitOf(out[j], i) == BitOf(expected[j], i)
      {
        PayloadByteBit(m, j, i);
        if j == 1 {
          BitOfPowerOfTwo(4, i);
        } else if j == 0 {
          BitOfPowerOfTwo(0, i);
        } else {
          BitOfSmall(0, 0, i);
        }
      }
      SameBitsSame(out[j], expected[j]);
    }
  }
}
