/** Shared vocabulary. */
module Basics {
  datatype Option<+T> = None | Some(value: T)

  type Byte = b: int | 0 <= b < 256

  /** The lowest set bit from `k` on; the length if there is none. */
  function Lowest(bits: seq<bool>, k: nat): (r: nat)
    requires k <= |bits|
    ensures k <= r <= |bits| && (r < |bits| ==> bits[r]) && forall j :: k <= j < r ==> !bits[j]
    decreases |bits| - k
  {
    if k == |bits| || bits[k] then k else Lowest(bits, k + 1)
  }

  lemma MulStep(w: nat, a: nat, b: nat)
    requires a < b
    ensures w * a + w <= w * b
  {
    assert w * b == w * (a + 1) + w * (b - a - 1);
  }

  lemma QuotientUnique(h: nat, w: nat, q: nat, r: nat)
    requires 0 < w && r < w && h == w * q + r
    ensures h / w == q && h % w == r
  {
    var d := h / w;
    assert h == w * d + h % w;
    if d < q {
      MulStep(w, d, q);
    } else if d > q {
      MulStep(w, q, d);
    }
  }
}
