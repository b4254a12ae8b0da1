/**
  Longitude boxes on a circle: the box around a centre, which may cross the date line, and the box of
  a view, which may wrap.
*/
module DateLine {
  import opened Reals

  /** Turning x by whole circles brings it within `limit` of c. */
  ghost predicate Within(x: real, c: real, limit: real) {
    exists k: int :: Near(x, c, limit, k)
  }

  predicate Near(x: real, c: real, limit: real, k: int) {
    -limit <= x + 360.0 * k as real - c <= limit
  }

  /** The name of a longitude in [-180, 180). */
  function Normal(lng: real): real {
    lng - 360.0 * ((lng + 180.0) / 360.0).Floor as real
  }

  datatype Box = Everything | FromOrUpTo(from: real, upTo: real) | Span(west: real, east: real)

  function BoxAround(lng: real, half: real): Box {
    var c := Normal(lng);
    var west, east := c - half, c + half;
    if half >= 180.0 then Everything
    else if west < -180.0 then FromOrUpTo(west + 360.0, east)
    else if east > 180.0 then FromOrUpTo(west, east - 360.0)
    else Span(west, east)
  }

  predicate Admits(b: Box, x: real) {
    match b
    case Everything => true
    case FromOrUpTo(from, upTo) => x >= from || x <= upTo
    case Span(west, east) => west <= x <= east
  }

  lemma NormalIsTheSamePlace(lng: real, x: real, limit: real)
    ensures -180.0 <= Normal(lng) < 180.0
    ensures Within(x, lng, limit) <==> Within(x, Normal(lng), limit)
  {
    var turns := ((lng + 180.0) / 360.0).Floor;
    if k: int :| Near(x, lng, limit, k) {
      assert Near(x, Normal(lng), limit, k - turns);
    }
    if k: int :| Near(x, Normal(lng), limit, k) {
      assert Near(x, lng, limit, k + turns);
    }
  }

  /** For places and centres named in [-180, 180], one turn either way is enough to look at. */
  lemma AtMostOneTurn(x: real, c: real, limit: real)
    requires -180.0 <= x <= 180.0 && -180.0 <= c < 180.0
    ensures Within(x, c, limit) <==> Near(x, c, limit, 0) || Near(x, c, limit, 1) || Near(x, c, limit, -1)
  {
  }

  /** x names the date line by the sign of the other side than the one where the span ends. */
  predicate OtherName(x: real, west: real, east: real) {
    west <= east && ((x == -180.0 < west && east == 180.0) || (x == 180.0 > east && west == -180.0))
  }

  /** The box around a centre admits a longitude exactly when its distance on the circle is at most the
      half-width, except for one name of the date line: when the box only touches +-180, the date line
      is admitted under the sign of that side and not under the other. */
  lemma BoxAroundIsTheCircularDistance(lng: real, half: real, x: real)
    requires -180.0 <= x <= 180.0
    ensures var b := BoxAround(lng, half);
      Admits(b, x) <==> Within(x, lng, half) && !(b.Span? && OtherName(x, b.west, b.east))
  {
    NormalIsTheSamePlace(lng, x, half);
    AtMostOneTurn(x, Normal(lng), half);
  }

  /** So a box is right about every longitude exactly when it does not stop at the date line. */
  lemma BoxIsRightExactlyWhen(lng: real, half: real)
    requires half >= 0.0
    ensures (forall x :: -180.0 <= x <= 180.0 ==> (Admits(BoxAround(lng, half), x) <==> Within(x, lng, half)))
      <==> half >= 180.0 || (Normal(lng) - half != -180.0 && Normal(lng) + half != 180.0)
  {
    var b, c := BoxAround(lng, half), Normal(lng);
    NormalIsTheSamePlace(lng, 0.0, half);
    forall x | -180.0 <= x <= 180.0
      ensures Admits(b, x) <==> Within(x, lng, half) && !(b.Span? && OtherName(x, b.west, b.east))
    {
      BoxAroundIsTheCircularDistance(lng, half, x);
    }
    if half < 180.0 && c - half == -180.0 {
      TouchesTheDateLine(lng, half, 180.0);
    }
    if half < 180.0 && c + half == 180.0 {
      TouchesTheDateLine(lng, half, -180.0);
    }
  }

  lemma TouchesTheDateLine(lng: real, half: real, x: real)
    requires 0.0 <= half < 180.0
    requires (Normal(lng) - half == -180.0 && x == 180.0) || (Normal(lng) + half == 180.0 && x == -180.0)
    ensures Within(x, lng, half) && !Admits(BoxAround(lng, half), x)
  {
    var c := Normal(lng);
    NormalIsTheSamePlace(lng, x, half);
    assert Near(x, c, half, if x == 180.0 then -1 else 1);
  }

  /** Ten degrees around 170 reach the date line but not its other name. */
  lemma EastwardBoxMissesTheDateLine()
    ensures Within(-180.0, 170.0, 10.0) && !Admits(BoxAround(170.0, 10.0), -180.0)
  {
    assert ((170.0 + 180.0) / 360.0).Floor == 0;
    TouchesTheDateLine(170.0, 10.0, -180.0);
  }

  /** At most one side of the box crosses the date line. */
  lemma OnlyOneSideCrosses(lng: real, half: real)
    requires half < 180.0
    ensures !(Normal(lng) - half < -180.0 && Normal(lng) + half > 180.0)
  {
  }

  // ---------------------------------------------------------------- the view

  /** A view from `west` eastward to `east`; it wraps when west > east. */
  function ViewBox(west: real, east: real): Box {
    if west <= east then Span(west, east) else FromOrUpTo(west, east)
  }

  /** Going east from `west` one meets x, under one of its names, no later than `east`. */
  ghost predicate OnTheWayEast(x: real, west: real, east: real) {
    exists k: int :: Meets(x, west, east, k)
  }

  predicate Meets(x: real, west: real, east: real, k: int) {
    west <= x + 360.0 * k as real <= if west <= east then east else east + 360.0
  }

  /** A view with sides in [-180, 180]: when it wraps it admits exactly what lies on the way east, otherwise
      all of it but the other name of a date line at its edge. */
  lemma ViewIsTheWayEast(west: real, east: real, x: real)
    requires -180.0 <= west <= 180.0 && -180.0 <= east <= 180.0 && -180.0 <= x <= 180.0
    ensures Admits(ViewBox(west, east), x) <==> OnTheWayEast(x, west, east) && !OtherName(x, west, east)
  {
    if Admits(ViewBox(west, east), x) {
      assert Meets(x, west, east, if west > east && x < west then 1 else 0);
    }
    if k: int :| Meets(x, west, east, k) {
      assert -2 <= k <= 2;
    }
  }

  /** The sides of a view for which its box is right. */
  predicate RightView(west: real, east: real) {
    if west <= east then (-180.0 < west && east < 180.0) || (west <= -180.0 && 180.0 <= east)
    else (west <= 180.0 && -180.0 <= east) || (180.0 < west && east < -180.0)
  }

  /** Maps also hand over sides outside [-180, 180]. Whatever they are, the box admits exactly the
      longitudes on the way east when the sides are inside and do not touch the date line, cover every
      longitude, or wrap within [-180, 180]; or when nothing is asked for at all. */
  lemma ViewIsRightExactlyWhen(west: real, east: real)
    ensures (forall x :: -180.0 <= x <= 180.0 ==> (Admits(ViewBox(west, east), x) <==> OnTheWayEast(x, west, east)))
      <==> RightView(west, east)
  {
    if RightView(west, east) {
      forall x | -180.0 <= x <= 180.0
        ensures Admits(ViewBox(west, east), x) <==> OnTheWayEast(x, west, east)
      {
        RightViewAdmits(west, east, x);
      }
    } else {
      var x := WrongView(west, east);
      assert Admits(ViewBox(west, east), x) != OnTheWayEast(x, west, east);
    }
  }

  lemma RightViewAdmits(west: real, east: real, x: real)
    requires RightView(west, east) && -180.0 <= x <= 180.0
    ensures Admits(ViewBox(west, east), x) <==> OnTheWayEast(x, west, east)
  {
    if Admits(ViewBox(west, east), x) {
      assert Meets(x, west, east, if west > east && x < west then 1 else 0);
    }
    if k: int :| Meets(x, west, east, k) {
      assert west <= east && -180.0 < west ==> k == 0;
    }
  }

  /** For any other sides, a longitude the box is wrong about. */
  lemma WrongView(west: real, east: real) returns (x: real)
    requires !RightView(west, east)
    ensures -180.0 <= x <= 180.0 && Admits(ViewBox(west, east), x) != OnTheWayEast(x, west, east)
  {
    if west <= east {
      if west <= -180.0 <= east {
        x := 180.0;
        assert Meets(x, west, east, -1);
      } else if -180.0 < west <= 180.0 {
        x := -180.0;
        assert Meets(x, west, east, 1);
      } else {
        x := Normal(west);
        assert Meets(x, west, east, ((west + 180.0) / 360.0).Floor);
      }
    } else if west > 180.0 && east < 180.0 {
      x := -180.0;
    } else if -180.0 < west <= 180.0 {
      x := 180.0;
    } else {
      x := BesideTheView(west, east);
    }
  }

  lemma BesideTheView(west: real, east: real) returns (x: real)
    requires west > east
    ensures -180.0 <= x < 180.0 && !OnTheWayEast(x, west, east)
  {
    var y := if west < east + 360.0 then (east + west) / 2.0 else east + 180.0;
    var turns := ((y + 180.0) / 360.0).Floor;
    x := Normal(y);
    forall k: int
      ensures !Meets(x, west, east, k)
    {
      InTheGap(y, west, east, k - turns);
    }
  }

  lemma InTheGap(y: real, west: real, east: real, m: int)
    requires east < y < west && y < east + 360.0
    ensures !(west <= y + 360.0 * m as real <= east + 360.0)
  {
    assert m >= 1 || m <= 0;
  }

  /** A view from -190 to -170 holds 175, under the name -185; its box does not. */
  lemma UnwrappedViewMissesAStrip()
    ensures OnTheWayEast(175.0, -190.0, -170.0) && !Admits(ViewBox(-190.0, -170.0), 175.0)
  {
    assert Meets(175.0, -190.0, -170.0, -1);
  }
}
