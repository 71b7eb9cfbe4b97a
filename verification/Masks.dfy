/** Bit masks as natural numbers. */
module Masks {

  function Pow2(k: nat): (r: nat)
    ensures r > 0
  {
    if k == 0 then 1 else 2 * Pow2(k - 1)
  }

  /** The number of one bits. */
  function Ones(m: nat): nat {
    if m == 0 then 0 else m % 2 + Ones(m / 2)
  }

  /** `mask & bit`, for a power of two. */
  predicate Has(mask: nat, bit: nat)
    requires bit > 0
  {
    mask / bit % 2 == 1
  }

  lemma {:induction false} OnesOfSum(low: nat, k: nat)
    requires low < Pow2(k)
    ensures Ones(low + Pow2(k)) == Ones(low) + 1
  {
    if k == 0 {
      assert Ones(1) == 1 + Ones(0);
    } else {
      assert (low + Pow2(k)) / 2 == low / 2 + Pow2(k - 1);
      assert (low + Pow2(k)) % 2 == low % 2;
      OnesOfSum(low / 2, k - 1);
    }
  }

  /** The low k+1 bits are the low k bits and the bit above them. */
  lemma SplitBit(mask: nat, b: nat)
    requires b > 0
    ensures mask % (2 * b) == mask % b + (if Has(mask, b) then b else 0)
  {
    var q, r := mask / b, mask % b;
    assert mask == q * b + r;
    var h, l := q / 2, q % 2;
    assert q == 2 * h + l;
    assert mask == h * (2 * b) + (l * b + r) by {
      assert (2 * h + l) * b == h * (2 * b) + l * b;
    }
    assert 0 <= l * b + r < 2 * b;
    RemainderIs(mask, h, 2 * b, l * b + r);
  }

  lemma RemainderIs(x: nat, q: nat, d: nat, r: nat)
    requires d > 0 && r < d && x == q * d + r
    ensures x % d == r
  {
    assert x == (x / d) * d + x % d;
    StepUp(q, x / d, d);
    StepUp(x / d, q, d);
  }

  lemma StepUp(a: nat, b: nat, d: nat)
    ensures a < b ==> a * d + d <= b * d
  {
    if a < b {
      assert (a + 1) * d <= b * d;
      assert (a + 1) * d == a * d + d;
    }
  }

  /** The planes asked for among the `depth` lowest ones, highest first. */
  function Planes(mask: nat, depth: nat): seq<nat> {
    if depth == 0 then []
    else (if Has(mask, Pow2(depth - 1)) then [Pow2(depth - 1)] else []) + Planes(mask, depth - 1)
  }

  /** The bit of plane d - 1, or 0 when no plane is left. */
  function PlaneBit(d: nat): nat {
    if d == 0 then 0 else Pow2(d - 1)
  }

  /** One step down the planes: `sent` are those above, among the ones asked for. */
  lemma NextPlane(sent: seq<nat>, mask: nat, d: nat, all: seq<nat>, plane: nat)
    requires d > 0 && plane == PlaneBit(d) && sent + Planes(mask, d) == all
    ensures plane > 0 && plane / 2 == PlaneBit(d - 1) < plane
    ensures Has(mask, plane) ==> (sent + [plane]) + Planes(mask, d - 1) == all
    ensures !Has(mask, plane) ==> sent + Planes(mask, d - 1) == all
  {
    assert Pow2(0) == 1;
  }

  /** Their number is the number of one bits in the low part of the mask. */
  lemma {:induction false} PlanesAreOnes(mask: nat, depth: nat)
    ensures |Planes(mask, depth)| == Ones(mask % Pow2(depth))
  {
    if depth == 0 {
      assert mask % 1 == 0;
    } else {
      var b := Pow2(depth - 1);
      PlanesAreOnes(mask, depth - 1);
      SplitBit(mask, b);
      if Has(mask, b) {
        OnesOfSum(mask % b, depth - 1);
      }
    }
  }

  /** Each plane asked for occurs, and once: they descend. */
  lemma {:induction false} PlanesDescend(mask: nat, depth: nat)
    ensures forall i :: 0 <= i < |Planes(mask, depth)| ==> 0 < Planes(mask, depth)[i] < Pow2(depth)
    ensures forall i, j :: 0 <= i < j < |Planes(mask, depth)| ==> Planes(mask, depth)[i] > Planes(mask, depth)[j]
  {
    if depth > 0 {
      PlanesDescend(mask, depth - 1);
    }
  }

  lemma {:induction false} PlaneOccurs(mask: nat, depth: nat, k: nat)
    requires k < depth
    ensures Pow2(k) in Planes(mask, depth) <==> Has(mask, Pow2(k))
  {
    if k < depth - 1 {
      PlaneOccurs(mask, depth - 1, k);
      PowGrows(k, depth - 1);
    } else {
      PlanesDescend(mask, depth - 1);
    }
  }

  lemma {:induction false} PowGrows(i: nat, j: nat)
    requires i < j
    ensures Pow2(i) < Pow2(j)
  {
    if i < j - 1 {
      PowGrows(i, j - 1);
    }
  }
}
