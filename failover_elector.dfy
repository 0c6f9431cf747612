/**
 * The Infinispan fail-over elector: a fixed rotation over the membership
 * view, so that every member that sees the same view picks the same node
 * without communicating.
 */
module FailOverElection {

  /** The elector's rotation; a final field set to 5. */
  const Shift: int := 5

  /** Java's `%` on `int`: the remainder truncated toward zero, so it takes the sign of `a`. */
  function JavaRem(a: int, b: int): (r: int)
    requires b > 0
    ensures -b < r < b
    ensures a >= 0 ==> r == a % b
    ensures a < 0 ==> r == -((-a) % b) && r <= 0
  {
    if a >= 0 then a % b else -((-a) % b)
  }

  /** A positive multiple of a positive number is at least that number. */
  lemma {:induction false} MulAtLeast(d: int, b: int)
    requires d >= 1 && b > 0
    ensures d * b >= b
  {
    if d > 1 {
      MulAtLeast(d - 1, b);
      assert d * b == (d - 1) * b + b;
    }
  }

  /** Euclidean division is unique: a remainder in range with some quotient is `%`. */
  lemma ModUnique(a: int, b: int, q: int, r: int)
    requires b > 0 && 0 <= r < b && a == q * b + r
    ensures a % b == r
  {
    var q', r' := a / b, a % b;
    assert (q' - q) * b == r - r' by {
      assert a == q' * b + r';
      assert (q' - q) * b == q' * b - q * b;
    }
    if q' > q {
      MulAtLeast(q' - q, b);
    } else if q' < q {
      MulAtLeast(q - q', b);
    }
  }

  /**
   * The index the elector computes for a view of `size` members and a
   * rotation `shift`: `(shift % size + size) % size` with Java's `%`.
   * It is in range and equals the Euclidean remainder, whatever the sign of `shift`.
   */
  function ElectIndex(shift: int, size: int): (i: int)
    requires size > 0
    ensures 0 <= i < size
    ensures i == shift % size
  {
    var r := JavaRem(shift, size);
    var i := JavaRem(r + size, size);
    assert i == shift % size by {
      if shift >= 0 {
        ModUnique(r + size, size, 1, r);
      } else {
        var q, m := (-shift) / size, (-shift) % size;
        assert -shift == q * size + m;
        if m == 0 {
          ModUnique(size, size, 1, 0);
          ModUnique(shift, size, -q, 0);
        } else {
          ModUnique(size - m, size, 0, size - m);
          ModUnique(shift, size, -q - 1, size - m);
        }
      }
    }
    i
  }

  /** The member elected from a non-empty view; an empty view is a division by zero in the source. */
  function Elect(view: seq<string>): (a: string)
    requires |view| > 0
    ensures a in view
    ensures a == view[Shift % |view|]
  {
    view[ElectIndex(Shift, |view|)]
  }

  /** The choice depends only on the size of the view: equal sizes elect the same position. */
  lemma ElectSamePosition(v1: seq<string>, v2: seq<string>)
    requires |v1| == |v2| > 0
    ensures var k := ElectIndex(Shift, |v1|); Elect(v1) == v1[k] && Elect(v2) == v2[k]
  {
  }

  /** With the rotation 5: three members elect the third, one member itself, five members the first. */
  lemma ElectExamples()
    ensures ElectIndex(Shift, 3) == 2
    ensures ElectIndex(Shift, 1) == 0
    ensures ElectIndex(Shift, 5) == 0
    ensures Elect(["A", "B", "C"]) == "C"
  {
  }
}
