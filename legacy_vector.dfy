/** The older vector of the root package (vector.go). NewVector, Add, X
    and Y are those of the `vector` package (Vectors.Vec and
    Vectors.Vector); it has no Rotate, and its Normalize divides by the
    length without a threshold. */
module LegacyVectors {
  import opened Platform
  import opened Vectors

  /** A float64 quotient: finite, or Inf/NaN after a division by zero. */
  datatype Quotient = Finite(v: Vec) | NonFinite

  /** Normalize without the zero guard: (x/len, y/len), not finite when
      the length is zero. */
  function Normalize(m: Math, v: Vec): (r: Quotient)
    ensures r.NonFinite? <==> v.Length(m) == 0.0
    ensures r.Finite? ==> r.v.x * v.Length(m) == v.x && r.v.y * v.Length(m) == v.y
  {
    var l := v.Length(m);
    if l == 0.0 then NonFinite else Finite(Vec(v.x / l, v.y / l))
  }

  /** At or above the threshold both versions agree; strictly between zero
      and the threshold the older one still scales to length one where the
      newer one returns the zero vector; at zero only the newer one gives a
      finite result. */
  lemma NormalizeVersionsCompared(m: Math, v: Vec)
    requires SqrtSound(m)
    ensures v.Length(m) >= MinMagnitude ==> Normalize(m, v) == Finite(v.Normalize(m))
    ensures 0.0 < v.Length(m) < MinMagnitude ==>
      && v.Normalize(m) == Vec(0.0, 0.0)
      && Normalize(m, v).Finite?
      && Normalize(m, v).v.SquaredLength() == 1.0
    ensures v == Vec(0.0, 0.0) ==> Normalize(m, v) == NonFinite && v.Normalize(m) == Vec(0.0, 0.0)
  {
    var l := v.Length(m);
    if 0.0 < l {
      assert l * l == v.x * v.x + v.y * v.y;
      UnitQuotient(v.x, v.y, l);
    }
    if v == Vec(0.0, 0.0) {
      assert v.SquaredLength() == 0.0;
      ZeroRoot(m);
    }
  }

  /** A sound square root of zero is zero. */
  lemma ZeroRoot(m: Math)
    requires SqrtSound(m)
    ensures m.sqrt(0.0) == 0.0
  {
    var r := m.sqrt(0.0);
    if r > 0.0 {
      ProductPos(r, r, r * r);
    }
  }
}
