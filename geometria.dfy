/**
 * Hit-testing geometry over canvas coordinates, taken as real numbers:
 * the ray-casting polygon test `puntoEnPoligono` and the circular
 * tolerance test the click handler applies to every non-polygon seat.
 */
module Geometria {

  datatype Punto = Punto(x: real, y: real)

  /** The constant added to the denominator of the crossing test. */
  const EPSILON: real := 0.00001

  /** Extra radius, in pixels, granted around a seat when it is clicked. */
  const TOLERANCIA: real := 5.0

  /**
   * Whether the horizontal ray from (x, y) towards +x crosses the edge from
   * `a` (vertex i) to `b` (vertex j) as `puntoEnPoligono` decides it. The edge
   * must straddle the ray's height, and then x must lie left of
   * `(b.x - a.x) * (y - a.y) / (b.y - a.y + EPSILON) + a.x`. When that
   * denominator is exactly zero, JavaScript divides to +Infinity, -Infinity or
   * NaN according to the sign of the numerator, and only +Infinity makes the
   * comparison true.
   */
  predicate Cruza(a: Punto, b: Punto, x: real, y: real)
  {
    && ((a.y > y) != (b.y > y))
    && var num := (b.x - a.x) * (y - a.y);
       var den := b.y - a.y + EPSILON;
       if den != 0.0 then x < num / den + a.x else num > 0.0
  }

  /** The vertex before vertex `i`, wrapping round from the first to the last. */
  function Anterior(i: nat, n: nat): (j: nat)
    requires i < n
    ensures j < n
  {
    if i == 0 then n - 1 else i - 1
  }

  /** How many of the edges (i, i - 1) with i < k the ray from (x, y) crosses. */
  function Cruces(pts: seq<Punto>, x: real, y: real, k: nat): nat
    requires k <= |pts|
  {
    if k == 0 then 0
    else Cruces(pts, x, y, k - 1)
         + (if Cruza(pts[k - 1], pts[Anterior(k - 1, |pts|)], x, y) then 1 else 0)
  }

  /** The even-odd rule: (x, y) is inside when the ray crosses an odd number of edges. */
  predicate DentroPoligono(pts: seq<Punto>, x: real, y: real)
  {
    Cruces(pts, x, y, |pts|) % 2 == 1
  }

  /**
   * `puntoEnPoligono`: walks the edges (i, j) with j the previous vertex and
   * negates `dentro` on every crossing, so the answer is the parity of the
   * crossing count. The crossing test of each edge is `Cruza`.
   */
  method PuntoEnPoligono(puntos: seq<Punto>, x: real, y: real) returns (dentro: bool)
    ensures dentro <==> DentroPoligono(puntos, x, y)
  {
    dentro := false;
    var i := 0;
    var j := |puntos| - 1;
    while i < |puntos|
      invariant 0 <= i <= |puntos|
      invariant j == if i == 0 then |puntos| - 1 else i - 1
      invariant dentro <==> Cruces(puntos, x, y, i) % 2 == 1
    {
      var intersect := Cruza(puntos[i], puntos[j], x, y);
      if intersect {
        dentro := !dentro;
      }
      j := i;
      i := i + 1;
    }
  }

  /** No edge straddles a height that lies strictly below, or on or above, every vertex. */
  lemma {:induction false} SinCrucesFueraDeFranja(pts: seq<Punto>, x: real, y: real, k: nat)
    requires k <= |pts|
    requires (forall i :: 0 <= i < |pts| ==> pts[i].y > y) || (forall i :: 0 <= i < |pts| ==> pts[i].y <= y)
    ensures Cruces(pts, x, y, k) == 0
  {
    if k > 0 {
      SinCrucesFueraDeFranja(pts, x, y, k - 1);
      var j := Anterior(k - 1, |pts|);
      assert (pts[k - 1].y > y) == (pts[j].y > y);
    }
  }

  /** A point above or below the polygon's vertical extent is outside it. */
  lemma FueraDeFranja(pts: seq<Punto>, x: real, y: real)
    requires (forall i :: 0 <= i < |pts| ==> pts[i].y > y) || (forall i :: 0 <= i < |pts| ==> pts[i].y <= y)
    ensures !DentroPoligono(pts, x, y)
  {
    SinCrucesFueraDeFranja(pts, x, y, |pts|);
  }

  /**
   * The click test for rectangle, circle and triangle seats: the seat counts
   * as a disc of radius `size / 2 + TOLERANCIA` around its centre. The distance
   * comparison is done on squares, which needs the radius to be non-negative
   * (a square root is never below a negative radius).
   */
  predicate EnDisco(centro: Punto, size: real, x: real, y: real)
  {
    var r := size / 2.0 + TOLERANCIA;
    var dx := x - centro.x;
    var dy := y - centro.y;
    r >= 0.0 && dx * dx + dy * dy <= r * r
  }

  /**
   * The squared test agrees with the code's `Math.sqrt(dx * dx + dy * dy) <= size / 2 + 5`:
   * for the non-negative `d` whose square is the squared distance, the seat is
   * hit exactly when `d` is at most the radius.
   */
  lemma EnDiscoSegunDistancia(centro: Punto, size: real, x: real, y: real, d: real)
    requires d >= 0.0
    requires d * d == (x - centro.x) * (x - centro.x) + (y - centro.y) * (y - centro.y)
    ensures EnDisco(centro, size, x, y) <==> d <= size / 2.0 + TOLERANCIA
  {
    var r := size / 2.0 + TOLERANCIA;
    if d <= r {
      CuadradoMonotono(d, r);
    } else if r >= 0.0 {
      CuadradoMonotono(r, d);
      assert r * r < d * d;
    }
  }

  /** A click farther from the centre than the radius along either axis misses the disc. */
  lemma LejosNoGolpea(centro: Punto, size: real, x: real, y: real)
    requires Abs(x - centro.x) > size / 2.0 + TOLERANCIA || Abs(y - centro.y) > size / 2.0 + TOLERANCIA
    ensures !EnDisco(centro, size, x, y)
  {
    var r := size / 2.0 + TOLERANCIA;
    var dx, dy := x - centro.x, y - centro.y;
    if r >= 0.0 {
      CuadradoMonotono(0.0, Abs(dx));
      CuadradoMonotono(0.0, Abs(dy));
      if Abs(dx) > r {
        CuadradoMonotono(r, Abs(dx));
      } else {
        CuadradoMonotono(r, Abs(dy));
      }
      assert Abs(dx) * Abs(dx) == dx * dx && Abs(dy) * Abs(dy) == dy * dy;
    }
  }

  function Abs(a: real): (r: real)
    ensures r >= 0.0 && (r == a || r == -a)
  {
    if a < 0.0 then -a else a
  }

  /** Squaring is monotone on the non-negative reals, strictly so on distinct values. */
  lemma CuadradoMonotono(a: real, b: real)
    requires 0.0 <= a <= b
    ensures a * a <= b * b
    ensures a < b ==> a * a < b * b
  {
    var aa, ab, bb := a * a, a * b, b * b;
    assert aa <= ab <= bb;
    if a < b {
      assert ab < bb;
    }
  }
}
