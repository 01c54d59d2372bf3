/** The value list of handle_configure_request (sinwm.c:699-716): only the
    fields the client asked for are forwarded, in bit order, under a mask
    with exactly those bits. */
module ConfigurePacking {
  import opened Common
  import opened Commands

  /** The fields of a ConfigureRequest event the handler reads. */
  datatype ConfigureRequest = ConfigureRequest(
    window: Window, valueMask: bv16,
    x: int, y: int, width: int, height: int,
    borderWidth: int, sibling: Window, stackMode: int)

  /** The seven configurable fields, in bit order. */
  function Fields(ev: ConfigureRequest): seq<int> {
    [ev.x, ev.y, ev.width, ev.height, ev.borderWidth, ev.sibling, ev.stackMode]
  }

  /** The mask bit of field `k`. */
  const FIELD_BITS: seq<bv16> := [CONFIG_WINDOW_X, CONFIG_WINDOW_Y, CONFIG_WINDOW_WIDTH,
    CONFIG_WINDOW_HEIGHT, CONFIG_WINDOW_BORDER_WIDTH, CONFIG_WINDOW_SIBLING, CONFIG_WINDOW_STACK_MODE]

  predicate HasBit(mask: bv16, k: nat)
    requires k < 7
  {
    mask & FIELD_BITS[k] != 0
  }

  /** One line of the handler: when the request has `bit`, set it in the
      mask and append the field's value. */
  function Step(acc: (bv16, seq<int>), valueMask: bv16, bit: bv16, value: int): (bv16, seq<int>) {
    if valueMask & bit != 0 then (acc.0 | bit, acc.1 + [value]) else acc
  }

  /** The mask and value list the handler builds, one field at a time. */
  function Pack(ev: ConfigureRequest): (bv16, seq<int>) {
    var vm := ev.valueMask;
    var a1 := Step((0, []), vm, CONFIG_WINDOW_X, ev.x);
    var a2 := Step(a1, vm, CONFIG_WINDOW_Y, ev.y);
    var a3 := Step(a2, vm, CONFIG_WINDOW_WIDTH, ev.width);
    var a4 := Step(a3, vm, CONFIG_WINDOW_HEIGHT, ev.height);
    var a5 := Step(a4, vm, CONFIG_WINDOW_BORDER_WIDTH, ev.borderWidth);
    var a6 := Step(a5, vm, CONFIG_WINDOW_SIBLING, ev.sibling);
    Step(a6, vm, CONFIG_WINDOW_STACK_MODE, ev.stackMode)
  }

  /** The bits below bit `k`. */
  const LOW_BITS: seq<bv16> := [0, 1, 3, 7, 15, 31, 63, 127]

  /** Reference definition: the requested fields below bit `k`, in bit order. */
  function SelectBelow(fields: seq<int>, mask: bv16, k: nat): seq<int>
    requires |fields| == 7 && k <= 7
  {
    if k == 0 then []
    else SelectBelow(fields, mask, k - 1) + (if HasBit(mask, k - 1) then [fields[k - 1]] else [])
  }

  /** What the server reads back for the fields below bit `k`: the value list
      is consumed from its end, one value per set bit. */
  function Unpack(mask: bv16, values: seq<int>, k: nat): seq<Option<int>>
    requires k <= 7
  {
    if k == 0 then []
    else if HasBit(mask, k - 1) && |values| > 0 then
      Unpack(mask, values[..|values| - 1], k - 1) + [Some(values[|values| - 1])]
    else Unpack(mask, values, k - 1) + [None]
  }

  /** The fields the client asked for below bit `k`. */
  function Requested(fields: seq<int>, mask: bv16, k: nat): seq<Option<int>>
    requires |fields| == 7 && k <= 7
  {
    if k == 0 then []
    else Requested(fields, mask, k - 1) + [if HasBit(mask, k - 1) then Some(fields[k - 1]) else None]
  }

  /** One handler line extends the mask by one bit and the values by the
      field exactly when that field was requested. */
  lemma StepSelects(fields: seq<int>, mask: bv16, k: nat, acc: (bv16, seq<int>))
    requires |fields| == 7 && k < 7
    requires acc == (mask & LOW_BITS[k], SelectBelow(fields, mask, k))
    ensures Step(acc, mask, FIELD_BITS[k], fields[k]) == (mask & LOW_BITS[k + 1], SelectBelow(fields, mask, k + 1))
  {
    StepMask(mask, k, acc.0);
    var has := HasBit(mask, k);
    var below := SelectBelow(fields, mask, k);
    assert SelectBelow(fields, mask, k + 1) == if has then below + [fields[k]] else below;
  }

  /** The mask half of one handler line. */
  lemma StepMask(mask: bv16, k: nat, m: bv16)
    requires k < 7 && m == mask & LOW_BITS[k]
    ensures (if mask & FIELD_BITS[k] != 0 then m | FIELD_BITS[k] else m) == mask & LOW_BITS[k + 1]
  {
    var lo, bit, hi := LOW_BITS[k], FIELD_BITS[k], LOW_BITS[k + 1];
    BitTables(k);
    MaskStep(mask, lo, bit, hi);
  }

  /** Setting one more bit, which is a single bit, in a masked value. */
  lemma MaskStep(mask: bv16, lo: bv16, bit: bv16, hi: bv16)
    requires hi == lo | bit && bit & (bit - 1) == 0
    ensures mask & bit != 0 ==> (mask & lo) | bit == mask & hi
    ensures mask & bit == 0 ==> mask & lo == mask & hi
  {
  }

  /** Each field bit is a single bit and extends the bits below it. */
  lemma BitTables(k: nat)
    requires k < 7
    ensures LOW_BITS[k + 1] == LOW_BITS[k] | FIELD_BITS[k]
    ensures FIELD_BITS[k] & (FIELD_BITS[k] - 1) == 0
  {
  }

  /** The packed mask is the request's mask cut to the seven known bits, and
      the values are the requested fields in bit order. */
  lemma PackSelects(ev: ConfigureRequest)
    ensures Pack(ev) == (ev.valueMask & 0x7F, SelectBelow(Fields(ev), ev.valueMask, 7))
  {
    var f, vm := Fields(ev), ev.valueMask;
    var a0: (bv16, seq<int>) := (0, []);
    StepSelects(f, vm, 0, a0);
    var a1 := Step(a0, vm, CONFIG_WINDOW_X, ev.x);
    StepSelects(f, vm, 1, a1);
    var a2 := Step(a1, vm, CONFIG_WINDOW_Y, ev.y);
    StepSelects(f, vm, 2, a2);
    var a3 := Step(a2, vm, CONFIG_WINDOW_WIDTH, ev.width);
    StepSelects(f, vm, 3, a3);
    var a4 := Step(a3, vm, CONFIG_WINDOW_HEIGHT, ev.height);
    StepSelects(f, vm, 4, a4);
    var a5 := Step(a4, vm, CONFIG_WINDOW_BORDER_WIDTH, ev.borderWidth);
    StepSelects(f, vm, 5, a5);
    var a6 := Step(a5, vm, CONFIG_WINDOW_SIBLING, ev.sibling);
    StepSelects(f, vm, 6, a6);
  }

  /** Decoding the selected values under the same mask gives back exactly the
      requested fields and nothing for the others. */
  lemma {:induction false} UnpackSelect(fields: seq<int>, mask: bv16, k: nat)
    requires |fields| == 7 && k <= 7
    ensures Unpack(mask, SelectBelow(fields, mask, k), k) == Requested(fields, mask, k)
  {
    if k > 0 {
      UnpackSelect(fields, mask, k - 1);
      var s := SelectBelow(fields, mask, k);
      if HasBit(mask, k - 1) {
        assert s == SelectBelow(fields, mask, k - 1) + [fields[k - 1]];
        assert s[..|s| - 1] == SelectBelow(fields, mask, k - 1);
        assert s[|s| - 1] == fields[k - 1];
      } else {
        assert s == SelectBelow(fields, mask, k - 1);
      }
    }
  }

  /** Cutting the mask to the seven known bits keeps the same bits below 7. */
  lemma LowBitsSame(mask: bv16, k: nat)
    requires k < 7
    ensures HasBit(mask & 0x7F, k) == HasBit(mask, k)
  {
  }

  lemma {:induction false} RequestedLowBits(fields: seq<int>, mask: bv16, k: nat)
    requires |fields| == 7 && k <= 7
    ensures Requested(fields, mask & 0x7F, k) == Requested(fields, mask, k)
    ensures SelectBelow(fields, mask & 0x7F, k) == SelectBelow(fields, mask, k)
  {
    if k > 0 {
      RequestedLowBits(fields, mask, k - 1);
      LowBitsSame(mask, k - 1);
    }
  }

  /** Round trip: the server, decoding the forwarded mask and values, sees
      exactly the fields the client requested and nothing more. */
  lemma PackRoundTrip(ev: ConfigureRequest)
    ensures Unpack(Pack(ev).0, Pack(ev).1, 7) == Requested(Fields(ev), ev.valueMask, 7)
  {
    PackSelects(ev);
    RequestedLowBits(Fields(ev), ev.valueMask, 7);
    UnpackSelect(Fields(ev), ev.valueMask & 0x7F, 7);
  }
}
