/**
 * The curve module of the elliptic-curve toolkit, for curves
 * y^2 = x^3 + a*x + b over the integers modulo `field`: the discriminant, the
 * existence check, the right-hand side of the equation at a given x, the table
 * of points and the addition of two points.
 *
 * The square-root routine used to enumerate points is not part of this model;
 * it is a parameter `root`, which returns the roots it found or fails.
 */
module Elliptic {
  import opened PyInt
  import opened Outcomes
  import SimplicityTests

  /* ---------------------------------------------------------------------- */
  /* find_discriminant and is_curve_exist                                   */
  /* ---------------------------------------------------------------------- */

  /** `find_discriminant(a, b, field)`: 4a^3 + 27b^2 reduced by Python's `% field`. */
  function FindDiscriminant(a: int, b: int, field: int): (d: int)
    requires field != 0
    ensures field > 0 ==> 0 <= d < field
    ensures field < 0 ==> field < d <= 0
    ensures (4 * Pow(a, 3) + 27 * Pow(b, 2) - d) % field == 0
    ensures d == 0 <==> (4 * Pow(a, 3) + 27 * Pow(b, 2)) % field == 0
  {
    PyModZero(4 * Pow(a, 3) + 27 * Pow(b, 2), field);
    PyMod(4 * Pow(a, 3) + 27 * Pow(b, 2), field)
  }

  const NotPrimeFieldMessage := "Given field is not an a simple number"
  const NoCurveMessage := "Given curve doesn't exist"

  /** The number of Fermat rounds `is_curve_exist` asks for when `rounds` is None. */
  const DefaultRounds := 7

  function RoundsOrDefault(rounds: Option<int>): int
  {
    if rounds.Some? then rounds.value else DefaultRounds
  }

  /**
   * `is_curve_exist(a, b, field, rounds)` with the bases the Fermat test draws
   * given as `ws`: one base per round whenever the test reaches its rounds.
   */
  function IsCurveExist(a: int, b: int, field: int, rounds: Option<int>, ws: seq<int>): (r: Outcome<bool>)
    requires SimplicityTests.Witnesses(field, ws)
    requires SimplicityTests.ReachesRounds(field) ==>
      |ws| == SimplicityTests.RoundCount(RoundsOrDefault(rounds))
    ensures r == Ok(true) || r == Err(NotPrimeFieldMessage) || r == Err(NoCurveMessage)
  {
    if SimplicityTests.Ferma(field, ws) != Ok(true) then Err(NotPrimeFieldMessage)
    else if FindDiscriminant(a, b, field) == 0 then Err(NoCurveMessage)
    else Ok(true)
  }

  /** The field passes the Fermat test: 2, 3, or an odd number outside the table whose every base passes. */
  ghost predicate FieldPassesFerma(field: int, ws: seq<int>)
    requires SimplicityTests.Witnesses(field, ws)
  {
    || field == 2
    || field == 3
    || (SimplicityTests.ReachesRounds(field) &&
        forall i :: 0 <= i < |ws| ==> PyMod(Pow(ws[i], field - 1), field) == 1)
  }

  /**
   * `is_curve_exist` answers True exactly when the field passes the Fermat
   * test and the field does not divide 4a^3 + 27b^2; it reports a non-prime
   * field before it looks at the discriminant, and never answers False.
   */
  lemma IsCurveExistVerdict(a: int, b: int, field: int, rounds: Option<int>, ws: seq<int>)
    requires SimplicityTests.Witnesses(field, ws)
    requires SimplicityTests.ReachesRounds(field) ==>
      |ws| == SimplicityTests.RoundCount(RoundsOrDefault(rounds))
    ensures IsCurveExist(a, b, field, rounds, ws) == Err(NotPrimeFieldMessage) <==>
      !FieldPassesFerma(field, ws)
    ensures IsCurveExist(a, b, field, rounds, ws) == Ok(true) <==>
      FieldPassesFerma(field, ws) && (4 * Pow(a, 3) + 27 * Pow(b, 2)) % field != 0
    ensures IsCurveExist(a, b, field, rounds, ws) != Ok(false)
  {
    SimplicityTests.FermaFixedCases(field, ws);
    if SimplicityTests.ReachesRounds(field) {
      SimplicityTests.FermaVerdict(field, ws);
    }
  }

  /** The curve y^2 = x^3 + 2x + 3 exists over the integers modulo 13 (seven rounds by default). */
  lemma IsCurveExistExample()
    ensures SimplicityTests.Witnesses(13, [1, 1, 1, 1, 1, 1, 1])
    ensures IsCurveExist(2, 3, 13, None, [1, 1, 1, 1, 1, 1, 1]) == Ok(true)
  {
    var ws := [1, 1, 1, 1, 1, 1, 1];
    assert SimplicityTests.PyGcd(1, 13) == 1 by {
      PyModPositive(13, 1);
      assert SimplicityTests.GcdLoop(13, 1) == SimplicityTests.GcdLoop(1, 0);
    }
    PowOfOne(12);
    PyModPositive(1, 13);
    SimplicityTests.FermaVerdict(13, ws);
    assert FindDiscriminant(2, 3, 13) != 0 by {
      PyModPositive(275, 13);
    }
  }

  /* ---------------------------------------------------------------------- */
  /* find_ordinate and find_points                                          */
  /* ---------------------------------------------------------------------- */

  /** `find_ordinate(x, a, b, field)`: x^3 + a*x + b reduced by Python's `% field` (the y^2 the curve needs). */
  function FindOrdinate(x: int, a: int, b: int, field: int): (v: int)
    requires field != 0
    ensures field > 0 ==> 0 <= v < field
    ensures field < 0 ==> field < v <= 0
    ensures (Pow(x, 3) + a * x + b - v) % field == 0
  {
    PyMod(Pow(x, 3) + a * x + b, field)
  }

  /** A point (x, y) whose y^2 is congruent to x^3 + a*x + b modulo the field. */
  predicate OnCurve(x: int, y: int, a: int, b: int, field: int)
    requires field != 0
  {
    PyMod(y * y, field) == FindOrdinate(x, a, b, field)
  }

  /** One entry `x: [y...]` of the table `find_points` builds, in insertion order. */
  datatype Row = Row(x: int, ys: seq<int>)

  /** The list stored under key x, if any. */
  function Lookup(rows: seq<Row>, x: int): Option<seq<int>>
  {
    if rows == [] then None
    else if rows[0].x == x then Some(rows[0].ys)
    else Lookup(rows[1..], x)
  }

  /** The entry `find_points` makes for x: [0] for a zero ordinate, else the roots found, else none. */
  function EntryFor(a: int, b: int, field: int, root: (int, int) -> Option<seq<int>>, x: int): Option<seq<int>>
    requires field != 0
  {
    var v := FindOrdinate(x, a, b, field);
    if v == 0 then Some([v])
    else
      match root(v, field)
      case None => None
      case Some(rs) => if rs == [] then None else Some(rs)
  }

  lemma {:induction false} LookupAppend(rows: seq<Row>, row: Row, x: int)
    ensures Lookup(rows + [row], x) ==
      if Lookup(rows, x).Some? then Lookup(rows, x)
      else if row.x == x then Some(row.ys)
      else None
  {
    if rows != [] {
      assert (rows + [row])[1..] == rows[1..] + [row];
      LookupAppend(rows[1..], row, x);
    }
  }

  lemma {:induction false} LookupAbsent(rows: seq<Row>, x: int)
    requires forall i :: 0 <= i < |rows| ==> rows[i].x != x
    ensures Lookup(rows, x) == None
  {
    if rows != [] {
      LookupAbsent(rows[1..], x);
    }
  }

  /**
   * `find_points(a, b, field)`: visits x = 0, 1, ..., field - 1 once each, in
   * increasing order; a zero ordinate records [0], otherwise the roots the
   * square-root routine returns are appended in order, and an x whose root
   * computation fails (or finds nothing) gets no entry.
   */
  method FindPoints(a: int, b: int, field: int, root: (int, int) -> Option<seq<int>>)
    returns (rows: seq<Row>)
    ensures forall i :: 0 <= i < |rows| ==> 0 <= rows[i].x < field
    ensures forall i, j :: 0 <= i < j < |rows| ==> rows[i].x < rows[j].x
    ensures forall x :: 0 <= x < field ==> Lookup(rows, x) == EntryFor(a, b, field, root, x)
    ensures forall x :: x < 0 || x >= field ==> Lookup(rows, x) == None
  {
    rows := [];
    var count := if field < 0 then 0 else field;
    for x := 0 to count
      invariant forall i :: 0 <= i < |rows| ==> 0 <= rows[i].x < x
      invariant forall i, j :: 0 <= i < j < |rows| ==> rows[i].x < rows[j].x
      invariant forall x' :: 0 <= x' < x ==> Lookup(rows, x') == EntryFor(a, b, field, root, x')
    {
      var y := FindOrdinate(x, a, b, field);
      var ys: seq<int> := [];
      if y == 0 {
        ys := [y];
      } else {
        match root(y, field)
        case None =>
        case Some(roots) =>
          for k := 0 to |roots|
            invariant ys == roots[..k]
          {
            ys := ys + [roots[k]];
          }
          assert roots[..|roots|] == roots;
      }
      assert ys == [] <==> EntryFor(a, b, field, root, x) == None;
      assert ys != [] ==> EntryFor(a, b, field, root, x) == Some(ys);
      if ys != [] {
        forall x' | 0 <= x' < x + 1
          ensures Lookup(rows + [Row(x, ys)], x') == EntryFor(a, b, field, root, x')
        {
          LookupAppend(rows, Row(x, ys), x');
          if x' == x {
            LookupAbsent(rows, x);
          }
        }
        rows := rows + [Row(x, ys)];
      } else {
        LookupAbsent(rows, x);
      }
    }
    forall x | x < 0 || x >= field
      ensures Lookup(rows, x) == None
    {
      LookupAbsent(rows, x);
    }
  }

  /** The square-root routine returns only genuine roots of its argument. */
  ghost predicate RootsSound(root: (int, int) -> Option<seq<int>>)
  {
    forall v, p :: p != 0 && root(v, p).Some? ==>
      forall y :: y in root(v, p).value ==> PyMod(y * y, p) == PyMod(v, p)
  }

  /** When the square-root routine is sound, every point `find_points` lists is on the curve. */
  lemma EntriesOnCurve(a: int, b: int, field: int, root: (int, int) -> Option<seq<int>>, x: int)
    requires field > 0 && RootsSound(root)
    requires EntryFor(a, b, field, root, x).Some?
    ensures forall y :: y in EntryFor(a, b, field, root, x).value ==> OnCurve(x, y, a, b, field)
  {
    var v := FindOrdinate(x, a, b, field);
    if v == 0 {
      PyModOfResidue(0, field);
    } else {
      PyModOfResidue(v, field);
    }
  }

  /* ---------------------------------------------------------------------- */
  /* add_points                                                             */
  /* ---------------------------------------------------------------------- */

  datatype Point = Point(x: int, y: int)

  /**
   * What `add_points` produces: the point `(rx, ry)`, the pair
   * `(ValueError, message)`, a bare `ValueError`, or a ZeroDivisionError that
   * escapes (the doubling branch has no handler).
   */
  datatype Addition =
    | Sum(point: Point)
    | ValueErrorWith(msg: string)
    | BareValueError
    | ZeroDivisionRaised

  const DenominatorMessage := "Denominator can not be equal zero"

  /** Slope of the general branch: ((qy - py) % p) // (qx - px) % p, a floor quotient, not a modular inverse. */
  function ChordSlope(f: Point, s: Point, field: int): (m: int)
    requires field != 0 && s.x != f.x
    ensures field > 0 ==> 0 <= m < field
    ensures field < 0 ==> field < m <= 0
  {
    PyMod(PyFloorDiv(PyMod(s.y - f.y, field), s.x - f.x), field)
  }

  /**
   * The general branch of `add_points` (distinct points): a ZeroDivisionError
   * from `% field` or from `// (qx - px)` is caught and a bare ValueError
   * returned; otherwise the point built from the floor-quotient slope.
   */
  function AddChord(f: Point, s: Point, field: int): (r: Addition)
    ensures r == BareValueError <==> field == 0 || f.x == s.x
    ensures r != BareValueError ==> r.Sum?
    ensures r.Sum? && field > 0 ==> 0 <= r.point.x < field && 0 <= r.point.y < field
    ensures r.Sum? && field < 0 ==> field < r.point.x <= 0 && field < r.point.y <= 0
  {
    if field == 0 || s.x - f.x == 0 then BareValueError
    else
      var m := ChordSlope(f, s, field);
      var rx := PyMod(Pow(m, 2) - (f.x + s.x), field);
      var ry := PyMod(-f.y + m * (f.x - rx), field);
      Sum(Point(rx, ry))
  }

  /**
   * The doubling branch of `add_points` (equal points, y != 0), which has no
   * handler: `% field` with field 0, or a zero `(2y) % field`, raises
   * ZeroDivisionError. Its x uses ((3x^2 + a) % p // 2) * y as the slope,
   * while its y divides by (2y) % p.
   */
  function AddTangent(f: Point, field: int, a: int): (r: Addition)
    requires f.y != 0
    ensures r == ZeroDivisionRaised <==> field == 0 || PyMod(2 * f.y, field) == 0
    ensures r != ZeroDivisionRaised ==> r.Sum?
    ensures r.Sum? && field > 0 ==> 0 <= r.point.x < field && 0 <= r.point.y < field
    ensures r.Sum? && field < 0 ==> field < r.point.x <= 0 && field < r.point.y <= 0
  {
    if field == 0 then ZeroDivisionRaised
    else
      var m := PyMod(3 * Pow(f.x, 2) + a, field);
      var rx := PyMod(Pow(PyFloorDiv(m, 2) * f.y, 2) - 2 * f.x, field);
      var den := PyMod(2 * f.y, field);
      if den == 0 then ZeroDivisionRaised
      else
        var ry := PyMod(-f.y + PyFloorDiv(m, den) * (f.x - rx), field);
        Sum(Point(rx, ry))
  }

  /**
   * `add_points(f, s, field, a)`: equal points with y = 0 give the
   * denominator message, other equal points are doubled, distinct points
   * take the general branch.
   */
  function AddPoints(f: Point, s: Point, field: int, a: int): (r: Addition)
    ensures f == s && f.y == 0 ==> r == ValueErrorWith(DenominatorMessage)
    ensures f == s && f.y != 0 ==>
      (r == ZeroDivisionRaised <==> field == 0 || PyMod(2 * f.y, field) == 0)
    ensures f == s && f.y != 0 ==> r.Sum? || r == ZeroDivisionRaised
    ensures f != s ==> (r == BareValueError <==> field == 0 || f.x == s.x)
    ensures f != s ==> r.Sum? || r == BareValueError
    ensures r.ValueErrorWith? ==> r == ValueErrorWith(DenominatorMessage)
    ensures r.Sum? ==> field != 0
    ensures r.Sum? && field > 0 ==> 0 <= r.point.x < field && 0 <= r.point.y < field
    ensures r.Sum? && field < 0 ==> field < r.point.x <= 0 && field < r.point.y <= 0
  {
    if f.x == s.x && f.y == s.y then
      if f.y == 0 then ValueErrorWith(DenominatorMessage) else AddTangent(f, field, a)
    else
      AddChord(f, s, field)
  }

  /**
   * General branch: for distinct x over a positive field, the sum is
   * (rx, ry) in [0, p)^2 with rx = m^2 - (px + qx) and ry = -py + m*(px - rx)
   * modulo p, for the floor-quotient slope m; it does not depend on `a`.
   */
  lemma AddPointsChord(f: Point, s: Point, field: int, a: int)
    requires field > 0 && f.x != s.x
    ensures AddPoints(f, s, field, a) == AddChord(f, s, field)
    ensures AddPoints(f, s, field, a).Sum?
    ensures var r := AddPoints(f, s, field, a).point;
      var m := ChordSlope(f, s, field);
      && 0 <= r.x < field && 0 <= r.y < field
      && (Pow(m, 2) - (f.x + s.x) - r.x) % field == 0
      && (-f.y + m * (f.x - r.x) - r.y) % field == 0
  {
  }

  /**
   * Doubling branch: for y != 0 with (2y) % p != 0, the double is (rx, ry)
   * with rx = (((3x^2 + a) % p // 2) * y)^2 - 2x and
   * ry = -y + ((3x^2 + a) % p // (2y) % p) * (x - rx) modulo p.
   */
  lemma AddPointsTangent(f: Point, field: int, a: int)
    requires field > 0 && f.y != 0 && PyMod(2 * f.y, field) != 0
    ensures AddPoints(f, f, field, a).Sum?
    ensures var r := AddPoints(f, f, field, a).point;
      var m := PyMod(3 * Pow(f.x, 2) + a, field);
      && 0 <= r.x < field && 0 <= r.y < field
      && (Pow(PyFloorDiv(m, 2) * f.y, 2) - 2 * f.x - r.x) % field == 0
      && (-f.y + PyFloorDiv(m, PyMod(2 * f.y, field)) * (f.x - r.x) - r.y) % field == 0
  {
  }

  /** y^2 = x^3 + a*x + b modulo a positive field, as a congruence. */
  lemma OnCurveCongruence(x: int, y: int, a: int, b: int, field: int)
    requires field > 0
    ensures OnCurve(x, y, a, b, field) <==> (y * y - (Pow(x, 3) + a * x + b)) % field == 0
  {
    var u, v := y * y, Pow(x, 3) + a * x + b;
    PyModPositive(u, field);
    PyModPositive(v, field);
    CongruentIff(u, v, field);
  }

  /** P = (0, 4) is on y^2 = x^3 + 2x + 3 over 13: 16 and 3 agree modulo 13. */
  lemma FirstPointOnCurve()
    ensures OnCurve(0, 4, 2, 3, 13)
  {
    assert Pow(0, 3) == 0;
    OnCurveCongruence(0, 4, 2, 3, 13);
  }

  /** Q = (3, 6) is on that curve: 36 and 36. */
  lemma SecondPointOnCurve()
    ensures OnCurve(3, 6, 2, 3, 13)
  {
    assert Pow(3, 3) == 27;
    OnCurveCongruence(3, 6, 2, 3, 13);
  }

  /** (10, 9) is not on that curve: 81 and 1023 differ modulo 13. */
  lemma ForwardSumOffCurve()
    ensures !OnCurve(10, 9, 2, 3, 13)
  {
    assert Pow(10, 3) == 1000;
    OnCurveCongruence(10, 9, 2, 3, 13);
  }

  /** On that curve the chord slope from P to Q is (2 % 13) // 3 % 13 = 0. */
  lemma ForwardSlope()
    ensures ChordSlope(Point(0, 4), Point(3, 6), 13) == 0
  {
    PyModPositive(2, 13);
    PyModPositive(0, 13);
  }

  lemma ForwardAbscissa()
    ensures AddChord(Point(0, 4), Point(3, 6), 13).point.x == 10
  {
    ForwardSlope();
    PyModPositive(-3, 13);
  }

  /** P + Q on that curve is (10, 9). */
  lemma AddPointsForward()
    ensures AddPoints(Point(0, 4), Point(3, 6), 13, 2) == Sum(Point(10, 9))
  {
    ForwardSlope();
    ForwardAbscissa();
    PyModPositive(-4, 13);
  }

  /** Q + P on that curve: the slope is (-2 % 13) // -3 % 13 = 11 // -3 % 13 = 9, giving (0, 8). */
  lemma AddPointsBackward()
    ensures AddPoints(Point(3, 6), Point(0, 4), 13, 2) == Sum(Point(0, 8))
  {
    var f, s := Point(3, 6), Point(0, 4);
    assert ChordSlope(f, s, 13) == 9 by {
      PyModPositive(-2, 13);
      assert PyFloorDiv(11, -3) == -4;
      PyModPositive(-4, 13);
    }
    assert PyMod(Pow(9, 2) - (3 + 0), 13) == 0 by {
      assert Pow(9, 2) == 81;
      PyModPositive(78, 13);
    }
    assert PyMod(-6 + 9 * (3 - 0), 13) == 8 by {
      PyModPositive(21, 13);
    }
  }

  /**
   * Why no group law is claimed: on y^2 = x^3 + 2x + 3 over 13, with the
   * curve points P = (0, 4) and Q = (3, 6), P + Q = (10, 9) but
   * Q + P = (0, 8), and (10, 9) is not on the curve.
   */
  lemma AddPointsNotCommutative()
    ensures OnCurve(0, 4, 2, 3, 13) && OnCurve(3, 6, 2, 3, 13)
    ensures AddPoints(Point(0, 4), Point(3, 6), 13, 2) != AddPoints(Point(3, 6), Point(0, 4), 13, 2)
    ensures AddPoints(Point(0, 4), Point(3, 6), 13, 2).Sum?
    ensures !OnCurve(AddPoints(Point(0, 4), Point(3, 6), 13, 2).point.x,
                     AddPoints(Point(0, 4), Point(3, 6), 13, 2).point.y, 2, 3, 13)
  {
    FirstPointOnCurve();
    SecondPointOnCurve();
    ForwardSumOffCurve();
    AddPointsForward();
    AddPointsBackward();
  }
}
