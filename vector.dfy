/** The two-dimensional vector of the `vector` package. `Vec` is its value
    (what entities embed and copy); `Vector` is a heap cell holding one,
    as `*Vector` is in Go, whose `Add` and `Rotate` overwrite the cell. */
module Vectors {
  import opened Platform

  /** Below this length Normalize gives the zero vector (1e-9). */
  const MinMagnitude: real := 0.000000001

  datatype Vec = Vec(x: real, y: real) {

    /** Componentwise translation. */
    function Add(dx: real, dy: real): (v: Vec)
      ensures v.x - x == dx && v.y - y == dy
    {
      Vec(x + dx, y + dy)
    }

    /** x*x + y*y, the square of the length. */
    function SquaredLength(): real {
      x * x + y * y
    }

    /** math.Sqrt(math.Pow(x, 2) + math.Pow(y, 2)). */
    function Length(m: Math): real {
      m.sqrt(SquaredLength())
    }

    /** Counter-clockwise rotation by `deg` degrees. */
    function Rotate(m: Math, deg: real): Vec {
      var a := deg * Pi / 180.0;
      Vec(x * m.cos(a) - y * m.sin(a), x * m.sin(a) + y * m.cos(a))
    }

    /** A new vector of length one in the same direction, or the zero
        vector when the length is below MinMagnitude. */
    function Normalize(m: Math): Vec {
      var l := Length(m);
      if l < MinMagnitude then Vec(0.0, 0.0) else Vec(x / l, y / l)
    }
  }

  /** A heap cell holding a vector: the `*Vector` that NewVector returns. */
  class Vector {
    var x: real
    var y: real

    /** The value the cell holds. */
    function Value(): Vec
      reads this
    {
      Vec(x, y)
    }

    function X(): real
      reads this
    {
      x
    }

    function Y(): real
      reads this
    {
      y
    }

    /** NewVector. */
    constructor (x0: real, y0: real)
      ensures Value() == Vec(x0, y0)
    {
      x, y := x0, y0;
    }

    /** Adds (dx, dy) to the cell in place. */
    method Add(dx: real, dy: real)
      modifies this
      ensures Value() == old(Value()).Add(dx, dy)
    {
      x := x + dx;
      y := y + dy;
    }

    /** Rotates the cell in place and returns the same cell. */
    method Rotate(m: Math, angle: real) returns (r: Vector)
      modifies this
      ensures r == this
      ensures Value() == old(Value()).Rotate(m, angle)
    {
      var a := angle * Pi / 180.0;
      var nx := x * m.cos(a) - y * m.sin(a);
      var ny := x * m.sin(a) + y * m.cos(a);
      x := nx;
      y := ny;
      r := this;
    }

    /** Returns a new cell with the normalized value; the receiver is read
        only. */
    method Normalize(m: Math) returns (r: Vector)
      ensures fresh(r)
      ensures r.Value() == Value().Normalize(m)
    {
      var l := m.sqrt(x * x + y * y);
      assert Value().SquaredLength() == x * x + y * y;
      assert l == Value().Length(m);
      ghost var before := Value();
      if l < MinMagnitude {
        r := new Vector(0.0, 0.0);
      } else {
        r := new Vector(x / l, y / l);
      }
      assert Value() == before;
    }
  }

  /** Add(0, 0) changes nothing, and adding then subtracting the same
      offset is the identity. */
  lemma AddZeroAndBack(v: Vec, dx: real, dy: real)
    ensures v.Add(0.0, 0.0) == v
    ensures v.Add(dx, dy).Add(-dx, -dy) == v
  {
  }

  /** Rotating (1, 0) by deg degrees gives (cos, sin) of the angle in
      radians. */
  lemma RotateUnitX(m: Math, deg: real)
    ensures Vec(1.0, 0.0).Rotate(m, deg) == Vec(m.cos(deg * Pi / 180.0), m.sin(deg * Pi / 180.0))
  {
  }

  /** With sound trigonometry a rotation keeps the length. */
  lemma RotateKeepsLength(m: Math, v: Vec, deg: real)
    requires TrigSound(m)
    ensures v.Rotate(m, deg).SquaredLength() == v.SquaredLength()
  {
    var a := deg * Pi / 180.0;
    var c, s := m.cos(a), m.sin(a);
    var r := v.Rotate(m, deg);
    calc {
      r.SquaredLength();
      (v.x * c - v.y * s) * (v.x * c - v.y * s) + (v.x * s + v.y * c) * (v.x * s + v.y * c);
      v.x * v.x * (c * c + s * s) + v.y * v.y * (c * c + s * s);
      { assert c * c + s * s == 1.0; }
      v.SquaredLength();
    }
  }

  /** With sound trigonometry, rotating back by the opposite angle
      restores the vector. */
  lemma RotateRoundTrip(m: Math, v: Vec, deg: real)
    requires TrigSound(m)
    ensures v.Rotate(m, deg).Rotate(m, -deg) == v
  {
    var a := deg * Pi / 180.0;
    assert (-deg) * Pi / 180.0 == -a;
    var c, s := m.cos(a), m.sin(a);
    assert m.cos(-a) == c && m.sin(-a) == -s;
    assert c * c + s * s == 1.0;
    var r := v.Rotate(m, deg);
    assert r == Vec(v.x * c - v.y * s, v.x * s + v.y * c);
    var b := r.Rotate(m, -deg);
    calc {
      b.x;
      r.x * c - r.y * (-s);
      (v.x * c - v.y * s) * c + (v.x * s + v.y * c) * s;
      v.x * (c * c + s * s);
      v.x;
    }
    calc {
      b.y;
      r.x * (-s) + r.y * c;
      -(v.x * c - v.y * s) * s + (v.x * s + v.y * c) * c;
      v.y * (c * c + s * s);
      v.y;
    }
  }

  /** Below the threshold Normalize yields zero; otherwise, with a sound
      square root, a vector of length one that scales back to the input. */
  lemma NormalizeIsUnit(m: Math, v: Vec)
    requires SqrtSound(m)
    ensures v.Length(m) < MinMagnitude ==> v.Normalize(m) == Vec(0.0, 0.0)
    ensures v.Length(m) >= MinMagnitude ==>
      && v.Normalize(m).SquaredLength() == 1.0
      && v.Normalize(m).x * v.Length(m) == v.x
      && v.Normalize(m).y * v.Length(m) == v.y
  {
    var l := v.Length(m);
    if l >= MinMagnitude {
      assert l * l == v.x * v.x + v.y * v.y;
      UnitQuotient(v.x, v.y, l);
    }
  }

  /** (x/l)^2 + (y/l)^2 == 1 when l > 0 and l^2 == x^2 + y^2. */
  lemma UnitQuotient(x: real, y: real, l: real)
    requires l > 0.0 && l * l == x * x + y * y
    ensures (x / l) * (x / l) + (y / l) * (y / l) == 1.0
    ensures (x / l) * l == x && (y / l) * l == y
  {
    var d := l * l;
    ProductPos(l, l, d);
    var s := (x / l) * (x / l) + (y / l) * (y / l);
    assert (x / l) * l == x && (y / l) * l == y;
    assert s * d == ((x / l) * l) * ((x / l) * l) + ((y / l) * l) * ((y / l) * l);
    assert s * d == x * x + y * y;
    UnitFactor(s, d, s * d);
  }

  /** p == a * b with a, b > 0 gives p > 0 (stated on p, so that the fact
      is kept when a and b are the same term). */
  lemma ProductPos(a: real, b: real, p: real)
    requires a > 0.0 && b > 0.0 && p == a * b
    ensures p > 0.0
  {
  }

  /** x * d == d with d > 0 forces x == 1. */
  lemma UnitFactor(x: real, d: real, p: real)
    requires d > 0.0 && p == x * d && p == d
    ensures x == 1.0
  {
    if x > 1.0 {
      ProductPos(x - 1.0, d, p - d);
    } else if x < 1.0 {
      ProductPos(1.0 - x, d, d - p);
    }
  }
}
