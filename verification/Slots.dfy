/** Slot vectors under the homomorphic operations: pointwise sums and products, and cyclic rotation. */
module Slots {

  type Slots = seq<real>

  /** Rotation by r to the left (to the right when r is negative). */
  function Rotate(v: Slots, r: int): (w: Slots)
    requires |v| > 0
    ensures |w| == |v| && forall p :: 0 <= p < |v| ==> w[p] == v[(p + r) % |v|]
  {
    seq(|v|, p requires 0 <= p < |v| => v[(p + r) % |v|])
  }

  function Times(u: Slots, v: Slots): (w: Slots)
    requires |u| == |v|
    ensures |w| == |u| && forall p :: 0 <= p < |u| ==> w[p] == u[p] * v[p]
  {
    seq(|u|, p requires 0 <= p < |u| => u[p] * v[p])
  }

  function Plus(u: Slots, v: Slots): (w: Slots)
    requires |u| == |v|
    ensures |w| == |u| && forall p :: 0 <= p < |u| ==> w[p] == u[p] + v[p]
  {
    seq(|u|, p requires 0 <= p < |u| => u[p] + v[p])
  }

  /** What a mask of ones and zeros leaves of a value. */
  lemma Masked(mask: real, x: real)
    ensures mask == 1.0 ==> mask * x == x && x * mask == x
    ensures mask == 0.0 ==> mask * x == 0.0 && x * mask == 0.0
  {
  }
  // ---- Sums ----

  function Sum(s: seq<real>): real {
    if s == [] then 0.0 else Sum(s[..|s| - 1]) + s[|s| - 1]
  }

  lemma {:induction false} SumConcat(a: seq<real>, b: seq<real>)
    ensures Sum(a + b) == Sum(a) + Sum(b)
    decreases |b|
  {
    if b == [] {
      assert a + b == a;
    } else {
      var init, last := b[..|b| - 1], b[|b| - 1];
      assert (a + b)[..|a + b| - 1] == a + init;
      SumConcat(a, init);
    }
  }

  lemma SumNext(s: seq<real>, i: nat)
    requires i < |s|
    ensures Sum(s[..i + 1]) == Sum(s[..i]) + s[i]
  {
    assert s[..i + 1][..i] == s[..i];
  }

  /** s read cyclically from position c. */
  function Turned(s: seq<real>, c: nat): (t: seq<real>)
    requires c <= |s|
    ensures |t| == |s|
  {
    s[c..] + s[..c]
  }

  lemma SumSwapped(a: seq<real>, b: seq<real>)
    ensures Sum(a + b) == Sum(b + a)
  {
    hide Sum;
    SumConcat(a, b);
    SumConcat(b, a);
  }

  lemma Halves(s: seq<real>, c: nat) returns (a: seq<real>, b: seq<real>)
    requires c <= |s|
    ensures s == a + b && Turned(s, c) == b + a
  {
    a, b := s[..c], s[c..];
  }

  lemma SumTurned(s: seq<real>, c: nat)
    requires c <= |s|
    ensures Sum(Turned(s, c)) == Sum(s)
  {
    hide *;
    var a, b := Halves(s, c);
    SumSwapped(a, b);
  }
}
