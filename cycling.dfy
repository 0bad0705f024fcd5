/**
 * The "next image" step of both car screens: the index moves on by one and
 * wraps to the first image after the last.
 */
module Cycling {

  /** `(index + 1) % size` for a non-empty list. */
  function NextIndex(index: nat, size: nat): (next: nat)
    requires size > 0
    ensures next < size
    ensures index < size ==> next == if index + 1 == size then 0 else index + 1
  {
    (index + 1) % size
  }

  /** The index after k presses of the cycle action. */
  function Advance(index: nat, size: nat, k: nat): (r: nat)
    requires size > 0
    ensures k > 0 || index < size ==> r < size
  {
    if k == 0 then index else NextIndex(Advance(index, size, k - 1), size)
  }

  /** a + b presses are a presses followed by b presses. */
  lemma {:induction false} AdvanceAdd(index: nat, size: nat, a: nat, b: nat)
    requires size > 0
    ensures Advance(index, size, a + b) == Advance(Advance(index, size, a), size, b)
  {
    if b > 0 {
      AdvanceAdd(index, size, a, b - 1);
    }
  }

  /** From an index in range, presses step through the following indices one
      by one until the last. */
  lemma {:induction false} AdvanceSteps(index: nat, size: nat, k: nat)
    requires size > 0 && index + k < size
    ensures Advance(index, size, k) == index + k
  {
    if k > 0 {
      AdvanceSteps(index, size, k - 1);
    }
  }

  /** Pressing the cycle action once per image returns to the starting image,
      and from the first image every image is reached on the way. */
  lemma FullCycle(index: nat, size: nat)
    requires size > 0 && index < size
    ensures Advance(index, size, size) == index
    ensures forall j :: 0 <= j < size ==> Advance(0, size, j) == j
  {
    var toLast := size - 1 - index;
    AdvanceSteps(index, size, toLast);
    AdvanceAdd(index, size, toLast, 1);
    assert Advance(index, size, toLast + 1) == 0;
    AdvanceAdd(index, size, toLast + 1, index);
    AdvanceSteps(0, size, index);
    forall j | 0 <= j < size ensures Advance(0, size, j) == j {
      AdvanceSteps(0, size, j);
    }
  }
}
