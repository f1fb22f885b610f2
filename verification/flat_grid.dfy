/**
 Two-dimensional data kept row after row in one sequence.
 */
module FlatGrid {

  /** Where row `y` starts when every row takes `width` places. */
  function Offset(y: nat, width: nat): nat {
    y * width
  }

  lemma Distributes(a: nat, b: nat, width: nat)
    ensures (a + b) * width == a * width + b * width && b * width >= 0
  {
  }

  lemma NoOffset(width: nat)
    ensures Offset(0, width) == 0
  {
  }

  lemma OffsetStep(y: nat, height: nat, width: nat)
    requires y < height
    ensures Offset(y, width) + width == Offset(y + 1, width) <= Offset(height, width)
  {
    var rest := height - y - 1;
    assert height == y + 1 + rest;
    Distributes(y, 1, width);
    Distributes(y + 1, rest, width);
  }
}
