/**
 * `CanMessage`: a CAN frame identifier with its payload normalised to exactly
 * eight entries, zero-padded when shorter and truncated when longer.
 */
module Frames {
  import opened Wrappers
  import opened Seqs

  /** Identifier of the keypad's RGB LED matrix frame. */
  const LedMatrixId: int := 0x215

  datatype Frame = Frame(id: int, data: seq<int>)

  /** The `data` argument of the constructor: a Python list, or a value of any other type. */
  datatype Data = List(items: seq<int>) | NotList

  /** `bytes(...)` raises a ValueError on an entry outside 0..255. */
  datatype FrameError = ByteOutOfRange

  /** The eight-entry payload a list normalises to: `(items + [0] * 8)[0:8]`. */
  function Normalize(items: seq<int>): (d: seq<int>)
    ensures |d| == 8
    ensures forall i | 0 <= i < 8 :: d[i] == if i < |items| then items[i] else 0
  {
    (items + Zeros(8))[..8]
  }

  /**
   * The constructor of code2.py: eight zeros are appended to the caller's list one at
   * a time and the payload re-sliced after each; `after` is the caller's list
   * afterwards, since the constructor extends it in place.
   */
  method NewCanMessage(id: int, data: Data) returns (msg: Frame, after: Data)
    ensures msg.id == id
    ensures data.List? ==> |msg.data| == 8
    ensures data.List? ==> forall i | 0 <= i < 8 && i < |data.items| :: msg.data[i] == data.items[i]
    ensures data.List? ==> forall i | |data.items| <= i < 8 :: msg.data[i] == 0
    ensures data.List? ==> after == List(data.items + Zeros(8))
    ensures data.NotList? ==> msg.data == [] && after == data
  {
    if data.List? {
      var list := data.items;
      var payload: seq<int> := [];
      var n := 0;
      while n < 8
        invariant 0 <= n <= 8
        invariant list == data.items + Zeros(n)
        invariant n > 0 ==> payload == PyPrefix(list, 8)
      {
        list := list + [0];
        payload := PyPrefix(list, 8);
        n := n + 1;
      }
      assert payload == Normalize(data.items);
      msg := Frame(id, payload);
      after := List(list);
    } else {
      msg := Frame(id, []);
      after := data;
    }
  }

  /**
   * The constructor of code-old.py and code.py, which wraps the same payload in
   * `bytes(...)` and so fails on an entry that is not a byte.
   */
  function BytesMessage(id: int, data: Data): (r: Result<Frame, FrameError>)
    ensures data.NotList? ==> r == Success(Frame(id, []))
    ensures data.List? ==>
      (r.Success? <==> forall i | 0 <= i < |data.items| && i < 8 :: 0 <= data.items[i] < 256)
    ensures data.List? && r.Success? ==> r.value == Frame(id, Normalize(data.items))
  {
    match data
    case NotList => Success(Frame(id, []))
    case List(items) =>
      var d := Normalize(items);
      if forall i | 0 <= i < 8 :: 0 <= d[i] < 256 then Success(Frame(id, d))
      else Failure(ByteOutOfRange)
  }

  /** Both constructors put the same payload in the frame when the list holds bytes. */
  lemma BytesMessageAgrees(id: int, items: seq<int>)
    requires forall i | 0 <= i < |items| :: 0 <= items[i] < 256
    ensures BytesMessage(id, List(items)) == Success(Frame(id, Normalize(items)))
  {
  }
}
