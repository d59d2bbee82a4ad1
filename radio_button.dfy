/** `RadioButton` (library/kabuki/toolkit/hmi/hmi_button_radio.cc): a cyclic
    selection index over `numButtons + 1` positions. */
module RadioButton {

  /** The index after one `hit`: the next position, wrapping to 0 after
      `numButtons`. */
  function HitNext(index: int, numButtons: int): int
  {
    if index + 1 > numButtons then 0 else index + 1
  }

  /** `hits` presses in a row. */
  function Hits(index: int, numButtons: int, hits: nat): int
  {
    if hits == 0 then index else HitNext(Hits(index, numButtons, hits - 1), numButtons)
  }

  /** Presses compose: a + b presses are a presses followed by b. */
  lemma {:induction false} HitsCompose(index: int, numButtons: int, a: nat, b: nat)
    ensures Hits(index, numButtons, a + b) == Hits(Hits(index, numButtons, a), numButtons, b)
  {
    if b > 0 {
      HitsCompose(index, numButtons, a, b - 1);
    }
  }

  /** Below the wrap point each press moves the selection up by one. */
  lemma {:induction false} HitsAdvance(index: int, numButtons: int, hits: nat)
    requires 0 <= index && index + hits <= numButtons
    ensures Hits(index, numButtons, hits) == index + hits
  {
    if hits > 0 {
      HitsAdvance(index, numButtons, hits - 1);
    }
  }

  /** Pressing once per position, `numButtons + 1` times, brings a selection
      in `[0, numButtons]` back where it was. */
  lemma HitsCycle(index: int, numButtons: int)
    requires 0 <= index <= numButtons
    ensures Hits(index, numButtons, numButtons + 1) == index
  {
    var toTop := numButtons - index;
    HitsCompose(index, numButtons, toTop, index + 1);
    HitsAdvance(index, numButtons, toTop);
    HitsCompose(numButtons, numButtons, 1, index);
    assert Hits(numButtons, numButtons, 1) == 0;
    HitsAdvance(0, numButtons, index);
  }

  class RadioButton {
    var index: int
    var numButtons: int

    /** The selection is never negative and the count of extra positions
        is not negative. `SetValue` has no upper check, so the index may
        exceed `numButtons` until the next `hit`. */
    predicate Valid()
      reads this
    {
      index >= 0 && numButtons >= 0
    }

    constructor ()
      ensures Valid() && index == 0 && numButtons == 0
    {
      index := 0;
      numButtons := 0;
    }

    method GetIndex() returns (i: int)
      ensures i == index
    {
      return index;
    }

    /** Stores a non-negative value (returning true) and refuses a negative
        one, leaving the index alone. */
    method SetValue(value: int) returns (ok: bool)
      requires Valid()
      modifies this`index
      ensures Valid()
      ensures ok <==> value >= 0
      ensures index == if ok then value else old(index)
    {
      if value < 0 {
        return false;
      }
      index := value;
      return true;
    }

    /** Advances the selection, wrapping to 0 once it passes `numButtons`;
        afterwards it lies in `[0, numButtons]`. */
    method Hit()
      requires Valid()
      modifies this`index
      ensures Valid()
      ensures index == HitNext(old(index), numButtons)
      ensures 0 <= index <= numButtons
    {
      index := index + 1;
      if index > numButtons {
        index := 0;
      }
    }
  }
}
