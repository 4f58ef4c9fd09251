/** Facts about products, quotients and counts, kept apart so that no other proof does nonlinear arithmetic. */
module Arithmetic {

  lemma MultipleBound(a: int, b: int)
    requires 0 < b
    ensures a >= 1 ==> a * b >= b
    ensures a <= -1 ==> a * b <= -b
  {
  }

  lemma QuotientUnique(k: int, divisor: int, p: int, r: int)
    requires 0 < divisor && k == p * divisor + r && 0 <= r < divisor
    ensures k / divisor == p
  {
    var q := k / divisor;
    var x := p - q;
    assert k == q * divisor + k % divisor;
    assert x * divisor == p * divisor - q * divisor;
    MultipleBound(x, divisor);
  }

  lemma QuotientStep(k: int, divisor: int)
    requires 0 < divisor <= k
    ensures k / divisor == (k - divisor) / divisor + 1
  {
    var q, r := (k - divisor) / divisor, (k - divisor) % divisor;
    assert k - divisor == q * divisor + r;
    assert (q + 1) * divisor == q * divisor + divisor;
    QuotientUnique(k, divisor, q + 1, r);
  }

  /** Scaling keeps the order; the products are named so that nothing else has to multiply. */
  lemma Scaled(a: real, b: real, p: real, ap: real, bp: real)
    requires p > 0.0 && ap == a * p && bp == b * p
    ensures a <= b <==> ap <= bp
    ensures a == b <==> ap == bp
  {
    assert (b - a) * p == bp - ap;
  }

  /** A sequence without repetitions has as many places as values. */
  lemma {:induction false} AsMany(s: seq<nat>, places: set<nat>, values: set<nat>)
    requires forall j, k :: 0 <= j < k < |s| ==> s[j] != s[k]
    requires forall k :: k in places ==> k < |s| && s[k] in values
    requires forall v :: v in values ==> exists k :: k in places && k < |s| && s[k] == v
    ensures |places| == |values|
    decreases |places|
  {
    if places == {} {
      assert values == {};
    } else {
      var k :| k in places;
      forall v | v in values - {s[k]} ensures exists j :: j in places - {k} && j < |s| && s[j] == v {
        var j :| j in places && j < |s| && s[j] == v;
        assert j in places - {k};
      }
      AsMany(s, places - {k}, values - {s[k]});
    }
  }
}
