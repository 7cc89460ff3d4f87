/** The least-squares fit of milliseconds against bytes, over the reals. */
module FitLinear {
  import opened Wrappers

  datatype Point = Point(x: real, y: real)

  datatype Fit = Fit(fixed: real, slope: real, r2: real)

  /** Multiplication, named so that proofs about sums can treat a product as one term. */
  function Times(a: real, b: real): real {
    a * b
  }

  function Square(x: real): real {
    Times(x, x)
  }

  function Total(ps: seq<Point>, f: Point -> real): real {
    if ps == [] then 0.0 else f(ps[0]) + Total(ps[1..], f)
  }

  function Xs(): Point -> real { (p: Point) => p.x }

  function Ys(): Point -> real { (p: Point) => p.y }

  function Spread(m: real): Point -> real { (p: Point) => Square(p.x - m) }

  function SpreadY(m: real): Point -> real { (p: Point) => Square(p.y - m) }

  function Cross(mx: real, my: real): Point -> real { (p: Point) => Times(p.x - mx, p.y - my) }

  /** The residual under the line `a + b * x`. */
  function Residual(a: real, b: real): Point -> real { (p: Point) => p.y - (a + Times(b, p.x)) }

  function Squared(a: real, b: real): Point -> real { (p: Point) => Square(p.y - (a + Times(b, p.x))) }

  function FitLinear(ps: seq<Point>): Option<Fit> {
    var n := |ps|;
    if n < 2 then None else
      var mx, my := Total(ps, Xs()) / n as real, Total(ps, Ys()) / n as real;
      var sxx := Total(ps, Spread(mx));
      if sxx == 0.0 then None else
        var slope := Total(ps, Cross(mx, my)) / sxx;
        var fixed := my - Times(slope, mx);
        var ssRes := Total(ps, Squared(fixed, slope));
        var ssTot := Total(ps, SpreadY(my));
        Some(Fit(fixed, slope, if ssTot != 0.0 then 1.0 - ssRes / ssTot else 1.0))
  }

  /** The sum of squared residuals of a line. */
  function Loss(ps: seq<Point>, a: real, b: real): real {
    Total(ps, Squared(a, b))
  }

  /** Some two samples have different sizes. */
  ghost predicate TwoSizes(ps: seq<Point>) {
    exists p, q :: p in ps && q in ps && p.x != q.x
  }

  // The algebra of products.

  lemma Distribute(c: real, x: real, y: real)
    ensures Times(c, x + y) == Times(c, x) + Times(c, y)
    ensures Times(x + y, c) == Times(x, c) + Times(y, c)
  {
  }

  lemma Commute(a: real, b: real)
    ensures Times(a, b) == Times(b, a)
  {
  }

  lemma Regroup(a: real, b: real, c: real)
    ensures Times(Times(a, b), c) == Times(a, Times(b, c))
  {
  }

  lemma DistributeMinus(c: real, x: real, y: real)
    ensures Times(c, x - y) == Times(c, x) - Times(c, y)
    ensures Times(x - y, c) == Times(x, c) - Times(y, c)
  {
  }

  lemma Negate(a: real, b: real)
    ensures Times(-a, b) == -Times(a, b)
  {
  }

  lemma MinusTwice(a: real, b: real)
    ensures Times(-2.0 * a, b) == -2.0 * Times(a, b)
  {
  }

  lemma Trivial(x: real)
    ensures Times(x, 1.0) == x && Times(1.0, x) == x && Times(x, 0.0) == 0.0 && Times(0.0, x) == 0.0
  {
  }

  lemma Quotient(x: real, y: real)
    requires y != 0.0
    ensures Times(x / y, y) == x
  {
  }

  lemma SameSign(a: real, b: real)
    requires (a > 0.0 && b > 0.0) || (a < 0.0 && b < 0.0)
    ensures Times(a, b) > 0.0
  {
  }

  lemma SquareNonNegative(x: real)
    ensures Square(x) >= 0.0
    ensures Square(x) == 0.0 <==> x == 0.0
  {
    hide Times;
    Trivial(x);
    if x != 0.0 {
      SameSign(x, x);
    }
  }

  lemma NonZeroProduct(a: real, b: real)
    requires Times(a, b) == 0.0 && b != 0.0
    ensures a == 0.0
  {
  }

  // Sums are linear.

  /** The one induction: a scaled sum added to a sum. */
  lemma {:induction false} TotalLinear(ps: seq<Point>, f: Point -> real, g: Point -> real, c: real, h: Point -> real)
    requires forall p :: f(p) == g(p) + Times(c, h(p))
    ensures Total(ps, f) == Total(ps, g) + Times(c, Total(ps, h))
  {
    hide Times;
    if ps == [] {
      Trivial(c);
    } else {
      TotalLinear(ps[1..], f, g, c, h);
      Distribute(c, h(ps[0]), Total(ps[1..], h));
    }
  }

  function One(): Point -> real { (p: Point) => 1.0 }

  lemma {:induction false} TotalOne(ps: seq<Point>)
    ensures Total(ps, One()) == |ps| as real
  {
    if ps != [] {
      TotalOne(ps[1..]);
    }
  }

  function XX(): Point -> real { (p: Point) => Times(p.x, p.x) }

  function XY(): Point -> real { (p: Point) => Times(p.y, p.x) }

  function Level(a: real): Point -> real { (p: Point) => p.y - a }

  function LevelX(a: real): Point -> real { (p: Point) => Times(p.y - a, p.x) }

  function ResidualX(a: real, b: real): Point -> real { (p: Point) => Times(p.y - (a + Times(b, p.x)), p.x) }

  function Center(m: real): Point -> real { (p: Point) => p.x - m }

  function CenterX(m: real): Point -> real { (p: Point) => Times(p.x - m, p.x) }

  lemma TotalLevel(ps: seq<Point>, a: real)
    ensures Total(ps, Level(a)) == Total(ps, Ys()) - Times(a, |ps| as real)
  {
    hide Times;
    forall p: Point ensures Level(a)(p) == Ys()(p) + Times(-a, One()(p)) {
      Trivial(-a);
    }
    TotalLinear(ps, Level(a), Ys(), -a, One());
    TotalOne(ps);
    Negate(a, |ps| as real);
  }

  lemma TotalResidual(ps: seq<Point>, a: real, b: real)
    ensures Total(ps, Residual(a, b)) == Total(ps, Ys()) - Times(a, |ps| as real) - Times(b, Total(ps, Xs()))
  {
    hide Times;
    forall p: Point ensures Residual(a, b)(p) == Level(a)(p) + Times(-b, Xs()(p)) {
      Negate(b, p.x);
    }
    TotalLinear(ps, Residual(a, b), Level(a), -b, Xs());
    TotalLevel(ps, a);
    Negate(b, Total(ps, Xs()));
  }

  lemma TotalLevelX(ps: seq<Point>, a: real)
    ensures Total(ps, LevelX(a)) == Total(ps, XY()) - Times(a, Total(ps, Xs()))
  {
    hide Times;
    forall p: Point ensures LevelX(a)(p) == XY()(p) + Times(-a, Xs()(p)) {
      DistributeMinus(p.x, p.y, a);
      Negate(a, p.x);
    }
    TotalLinear(ps, LevelX(a), XY(), -a, Xs());
    Negate(a, Total(ps, Xs()));
  }

  lemma ResidualXOne(p: Point, a: real, b: real)
    ensures ResidualX(a, b)(p) == LevelX(a)(p) + Times(-b, XX()(p))
  {
    hide Times;
    var bx := Times(b, p.x);
    assert p.y - (a + bx) == p.y - a - bx;
    DistributeMinus(p.x, p.y - a, bx);
    Regroup(b, p.x, p.x);
    Negate(b, XX()(p));
  }

  lemma TotalResidualX(ps: seq<Point>, a: real, b: real)
    ensures Total(ps, ResidualX(a, b)) == Total(ps, XY()) - Times(a, Total(ps, Xs())) - Times(b, Total(ps, XX()))
  {
    hide Times;
    forall p: Point ensures ResidualX(a, b)(p) == LevelX(a)(p) + Times(-b, XX()(p)) {
      ResidualXOne(p, a, b);
    }
    TotalLinear(ps, ResidualX(a, b), LevelX(a), -b, XX());
    TotalLevelX(ps, a);
    Negate(b, Total(ps, XX()));
  }

  lemma SpreadOne(p: Point, m: real)
    ensures CenterX(m)(p) == XX()(p) + Times(-m, Xs()(p))
    ensures Spread(m)(p) == CenterX(m)(p) + Times(-m, Center(m)(p))
  {
    hide Times;
    DistributeMinus(p.x, p.x, m);
    DistributeMinus(p.x - m, p.x, m);
    Commute(p.x - m, p.x);
    Negate(m, p.x);
    Negate(m, p.x - m);
  }

  /** About the mean size, the spread needs only the plain sums. */
  lemma TotalSpread(ps: seq<Point>, m: real)
    requires Total(ps, Xs()) == Times(m, |ps| as real)
    ensures Total(ps, Spread(m)) == Total(ps, XX()) - Times(m, Total(ps, Xs()))
  {
    hide Times;
    forall p: Point
      ensures CenterX(m)(p) == XX()(p) + Times(-m, Xs()(p)) && Spread(m)(p) == CenterX(m)(p) + Times(-m, Center(m)(p)) {
      SpreadOne(p, m);
    }
    forall p: Point ensures Center(m)(p) == Xs()(p) + Times(-m, One()(p)) {
      Trivial(-m);
    }
    TotalLinear(ps, CenterX(m), XX(), -m, Xs());
    TotalLinear(ps, Center(m), Xs(), -m, One());
    TotalLinear(ps, Spread(m), CenterX(m), -m, Center(m));
    TotalOne(ps);
    Negate(m, |ps| as real);
    Negate(m, Total(ps, Xs()));
    Trivial(-m);
  }

  lemma CrossOne(p: Point, mx: real, my: real)
    ensures Cross(mx, my)(p) == LevelX(my)(p) + Times(-mx, Level(my)(p))
  {
    hide Times;
    DistributeMinus(p.y - my, p.x, mx);
    Commute(p.x, p.y - my);
    Negate(mx, p.y - my);
  }

  /** About the mean time, so does the cross sum. */
  lemma TotalCross(ps: seq<Point>, mx: real, my: real)
    requires Total(ps, Ys()) == Times(my, |ps| as real)
    ensures Total(ps, Cross(mx, my)) == Total(ps, XY()) - Times(my, Total(ps, Xs()))
  {
    hide Times;
    forall p: Point ensures Cross(mx, my)(p) == LevelX(my)(p) + Times(-mx, Level(my)(p)) {
      CrossOne(p, mx, my);
    }
    TotalLinear(ps, Cross(mx, my), LevelX(my), -mx, Level(my));
    TotalLevel(ps, my);
    TotalLevelX(ps, my);
    Trivial(-mx);
  }

  /** The fitted line balances its residuals, alone and against the sizes. */
  lemma NormalEquations(ps: seq<Point>)
    requires FitLinear(ps).Some?
    ensures Total(ps, Residual(FitLinear(ps).value.fixed, FitLinear(ps).value.slope)) == 0.0
    ensures Total(ps, ResidualX(FitLinear(ps).value.fixed, FitLinear(ps).value.slope)) == 0.0
  {
    hide Times;
    var n := |ps| as real;
    var mx, my := Total(ps, Xs()) / n, Total(ps, Ys()) / n;
    var fixed, slope := FitLinear(ps).value.fixed, FitLinear(ps).value.slope;
    Quotient(Total(ps, Xs()), n);
    Quotient(Total(ps, Ys()), n);
    TotalSpread(ps, mx);
    TotalCross(ps, mx, my);
    TotalResidual(ps, fixed, slope);
    TotalResidualX(ps, fixed, slope);
    Quotient(Total(ps, Cross(mx, my)), Total(ps, Spread(mx)));
    Balanced(n, Total(ps, Xs()), Total(ps, Ys()), mx, my, slope);
    BalancedX(Total(ps, Xs()), Total(ps, XX()), Total(ps, XY()), mx, my, slope);
  }

  lemma Balanced(n: real, sx: real, sy: real, mx: real, my: real, b: real)
    requires Times(mx, n) == sx && Times(my, n) == sy
    ensures sy - Times(my - Times(b, mx), n) - Times(b, sx) == 0.0
  {
    hide Times;
    DistributeMinus(n, my, Times(b, mx));
    Regroup(b, mx, n);
  }

  lemma BalancedX(sx: real, sxx: real, sxy: real, mx: real, my: real, b: real)
    requires Times(b, sxx - Times(mx, sx)) == sxy - Times(my, sx)
    ensures sxy - Times(my - Times(b, mx), sx) - Times(b, sxx) == 0.0
  {
    hide Times;
    DistributeMinus(sx, my, Times(b, mx));
    Regroup(b, mx, sx);
    DistributeMinus(b, sxx, Times(mx, sx));
  }

  // Moving the line.

  function Shift(da: real, db: real): Point -> real { (p: Point) => Square(da + Times(db, p.x)) }

  /** The squared residual and the squared move, then with the first cross term as well. */
  function Apart(a: real, b: real, da: real, db: real): Point -> real {
    (p: Point) => Squared(a, b)(p) + Times(1.0, Shift(da, db)(p))
  }

  function Nearer(a: real, b: real, da: real, db: real): Point -> real {
    (p: Point) => Apart(a, b, da, db)(p) + Times(-2.0 * da, Residual(a, b)(p))
  }

  lemma Binomial(r: real, d: real)
    ensures Square(r - d) == Square(r) - 2.0 * Times(r, d) + Square(d)
  {
    hide Times;
    DistributeMinus(r - d, r, d);
    DistributeMinus(r, r, d);
    DistributeMinus(d, r, d);
    Commute(r, d);
  }

  lemma CrossTerms(r: real, da: real, db: real, x: real)
    ensures 2.0 * Times(r, da + Times(db, x)) == -Times(-2.0 * da, r) - Times(-2.0 * db, Times(r, x))
  {
    hide Times;
    Distribute(r, da, Times(db, x));
    Commute(r, da);
    Commute(r, Times(db, x));
    Regroup(db, x, r);
    Commute(x, r);
    MinusTwice(da, r);
    MinusTwice(db, Times(r, x));
  }

  lemma ShiftOne(p: Point, a: real, b: real, da: real, db: real)
    ensures Squared(a + da, b + db)(p) == Nearer(a, b, da, db)(p) + Times(-2.0 * db, ResidualX(a, b)(p))
  {
    hide Times;
    var r, d := p.y - (a + Times(b, p.x)), da + Times(db, p.x);
    Distribute(p.x, b, db);
    var moved := p.y - (a + da + Times(b + db, p.x));
    assert moved == r - d;
    assert Squared(a + da, b + db)(p) == Square(moved);
    Binomial(r, d);
    CrossTerms(r, da, db, p.x);
    Trivial(Square(d));
    assert Squared(a, b)(p) == Square(r) && Shift(da, db)(p) == Square(d);
    assert Apart(a, b, da, db)(p) == Square(r) + Square(d);
    assert Nearer(a, b, da, db)(p) == Square(r) + Square(d) + Times(-2.0 * da, r);
    assert ResidualX(a, b)(p) == Times(r, p.x);
  }

  /** How the loss changes when the line moves. */
  lemma ShiftLoss(ps: seq<Point>, a: real, b: real, da: real, db: real)
    ensures Loss(ps, a + da, b + db)
         == Loss(ps, a, b) + Total(ps, Shift(da, db)) + Times(-2.0 * da, Total(ps, Residual(a, b)))
             + Times(-2.0 * db, Total(ps, ResidualX(a, b)))
  {
    hide Times;
    forall p: Point
      ensures Squared(a + da, b + db)(p) == Nearer(a, b, da, db)(p) + Times(-2.0 * db, ResidualX(a, b)(p)) {
      ShiftOne(p, a, b, da, db);
    }
    TotalLinear(ps, Apart(a, b, da, db), Squared(a, b), 1.0, Shift(da, db));
    TotalLinear(ps, Nearer(a, b, da, db), Apart(a, b, da, db), -2.0 * da, Residual(a, b));
    TotalLinear(ps, Squared(a + da, b + db), Nearer(a, b, da, db), -2.0 * db, ResidualX(a, b));
    Trivial(Total(ps, Shift(da, db)));
  }

  // Least squares.

  lemma {:induction false} TotalNonNegative(ps: seq<Point>, f: Point -> real)
    requires forall p :: f(p) >= 0.0
    ensures Total(ps, f) >= 0.0
    ensures Total(ps, f) == 0.0 ==> forall p :: p in ps ==> f(p) == 0.0
  {
    if ps != [] {
      TotalNonNegative(ps[1..], f);
      assert ps == [ps[0]] + ps[1..];
    }
  }

  lemma {:induction false} AllZero(ps: seq<Point>, f: Point -> real)
    requires forall p :: p in ps ==> f(p) == 0.0
    ensures Total(ps, f) == 0.0
  {
    if ps != [] {
      AllZero(ps[1..], f);
    }
  }

  lemma ShiftNonNegative(ps: seq<Point>, da: real, db: real)
    ensures Total(ps, Shift(da, db)) >= 0.0
    ensures Total(ps, Shift(da, db)) == 0.0 ==> forall p :: p in ps ==> da + Times(db, p.x) == 0.0
  {
    hide Times;
    forall p: Point ensures Shift(da, db)(p) >= 0.0 && (Shift(da, db)(p) == 0.0 <==> da + Times(db, p.x) == 0.0) {
      SquareNonNegative(da + Times(db, p.x));
    }
    TotalNonNegative(ps, Shift(da, db));
  }

  /** A line that is zero at two sizes is zero. */
  lemma FlatLine(da: real, db: real, x: real, y: real)
    requires da + Times(db, x) == 0.0 && da + Times(db, y) == 0.0 && x != y
    ensures da == 0.0 && db == 0.0
  {
    hide Times;
    DistributeMinus(db, x, y);
    NonZeroProduct(db, x - y);
    Trivial(x);
  }

  lemma SpreadNonNegative(ps: seq<Point>, m: real)
    ensures Total(ps, Spread(m)) == 0.0 <==> forall p :: p in ps ==> p.x == m
  {
    hide Times;
    forall p: Point ensures Spread(m)(p) >= 0.0 && (Spread(m)(p) == 0.0 <==> p.x == m) {
      SquareNonNegative(p.x - m);
    }
    TotalNonNegative(ps, Spread(m));
    if forall p :: p in ps ==> p.x == m {
      AllZero(ps, Spread(m));
    }
  }

  lemma {:induction false} SameSizes(ps: seq<Point>, x: real)
    requires forall p :: p in ps ==> p.x == x
    ensures Total(ps, Xs()) == Times(|ps| as real, x)
  {
    hide Times;
    Trivial(x);
    if ps != [] {
      SameSizes(ps[1..], x);
      Distribute(x, |ps[1..]| as real, 1.0);
    }
  }

  lemma MeanOfSame(n: real, x: real)
    requires n > 0.0
    ensures Times(n, x) / n == x
  {
  }

  /** The fit exists exactly when the sizes vary. */
  lemma FitExists(ps: seq<Point>)
    ensures FitLinear(ps).Some? <==> TwoSizes(ps)
  {
    hide Times;
    if |ps| >= 2 {
      SpreadNonNegative(ps, Total(ps, Xs()) / |ps| as real);
      if !TwoSizes(ps) {
        SameSizes(ps, ps[0].x);
        MeanOfSame(|ps| as real, ps[0].x);
      }
    }
  }

  /** From the fitted line, every move costs exactly the squares of the move. */
  lemma LossFromFit(ps: seq<Point>, a: real, b: real)
    requires FitLinear(ps).Some?
    ensures Loss(ps, a, b) == Loss(ps, FitLinear(ps).value.fixed, FitLinear(ps).value.slope)
                            + Total(ps, Shift(a - FitLinear(ps).value.fixed, b - FitLinear(ps).value.slope))
  {
    hide Times;
    var fixed, slope := FitLinear(ps).value.fixed, FitLinear(ps).value.slope;
    var da, db := a - fixed, b - slope;
    NormalEquations(ps);
    ShiftLoss(ps, fixed, slope, da, db);
    assert fixed + da == a && slope + db == b;
    Trivial(-2.0 * da);
    Trivial(-2.0 * db);
  }

  lemma OnlyZeroMoveIsFree(ps: seq<Point>, a: real, b: real, a': real, b': real)
    requires TwoSizes(ps)
    requires Loss(ps, a', b') == Loss(ps, a, b) + Total(ps, Shift(a' - a, b' - b))
    ensures Loss(ps, a, b) <= Loss(ps, a', b')
    ensures Loss(ps, a, b) == Loss(ps, a', b') <==> a' == a && b' == b
  {
    hide Times;
    ShiftNonNegative(ps, a' - a, b' - b);
    if Total(ps, Shift(a' - a, b' - b)) == 0.0 {
      var p, q :| p in ps && q in ps && p.x != q.x;
      FlatLine(a' - a, b' - b, p.x, q.x);
    }
  }

  /** No line fits better, and every other line fits worse. */
  lemma FitIsLeastSquares(ps: seq<Point>, a: real, b: real)
    requires TwoSizes(ps)
    ensures FitLinear(ps).Some?
    ensures var fit := FitLinear(ps).value;
            && Loss(ps, fit.fixed, fit.slope) <= Loss(ps, a, b)
            && (Loss(ps, fit.fixed, fit.slope) == Loss(ps, a, b) <==> a == fit.fixed && b == fit.slope)
  {
    hide Times;
    FitExists(ps);
    LossFromFit(ps, a, b);
    OnlyZeroMoveIsFree(ps, FitLinear(ps).value.fixed, FitLinear(ps).value.slope, a, b);
  }

  /** The total spread of the times is the loss of the best level line. */
  lemma {:induction false} SpreadIsLevelLoss(ps: seq<Point>, m: real)
    ensures Total(ps, SpreadY(m)) == Loss(ps, m, 0.0)
  {
    hide Times;
    if ps != [] {
      SpreadIsLevelLoss(ps[1..], m);
      Trivial(ps[0].x);
    }
  }

  lemma LossNonNegative(ps: seq<Point>, a: real, b: real)
    ensures Loss(ps, a, b) >= 0.0
  {
    hide Times;
    forall p: Point ensures Squared(a, b)(p) >= 0.0 {
      SquareNonNegative(p.y - (a + Times(b, p.x)));
    }
    TotalNonNegative(ps, Squared(a, b));
  }

  lemma Share(res: real, tot: real)
    requires 0.0 <= res <= tot && tot > 0.0
    ensures 0.0 <= res / tot <= 1.0
  {
  }

  /** The reported share of explained variance is a share. */
  lemma R2IsAShare(ps: seq<Point>)
    requires FitLinear(ps).Some?
    ensures 0.0 <= FitLinear(ps).value.r2 <= 1.0
  {
    hide Times;
    FitExists(ps);
    var my := Total(ps, Ys()) / |ps| as real;
    FitIsLeastSquares(ps, my, 0.0);
    SpreadIsLevelLoss(ps, my);
    LossNonNegative(ps, FitLinear(ps).value.fixed, FitLinear(ps).value.slope);
    LossNonNegative(ps, my, 0.0);
    if Total(ps, SpreadY(my)) != 0.0 {
      Share(Loss(ps, FitLinear(ps).value.fixed, FitLinear(ps).value.slope), Total(ps, SpreadY(my)));
    }
  }

  function Mean(ps: seq<Point>): real
    requires ps != []
  {
    Total(ps, Ys()) / |ps| as real
  }

  /** r2 is the share of the loss about the mean that the line takes away: all of it exactly when the
      line meets every sample, and none exactly when the line is level and the times differ. */
  lemma R2IsTheShareExplained(ps: seq<Point>)
    requires FitLinear(ps).Some?
    ensures var fit, mean := FitLinear(ps).value, Mean(ps);
            && Loss(ps, fit.fixed, fit.slope) == Times(1.0 - fit.r2, Loss(ps, mean, 0.0))
            && (fit.r2 == 1.0 <==> Loss(ps, fit.fixed, fit.slope) == 0.0)
            && (fit.r2 == 0.0 <==> fit.slope == 0.0 && Loss(ps, mean, 0.0) != 0.0)
  {
    hide Times;
    FitExists(ps);
    var fit, mean := FitLinear(ps).value, Mean(ps);
    var res, tot := Loss(ps, fit.fixed, fit.slope), Loss(ps, mean, 0.0);
    FitIsLeastSquares(ps, mean, 0.0);
    SpreadIsLevelLoss(ps, mean);
    LossNonNegative(ps, fit.fixed, fit.slope);
    if fit.slope == 0.0 {
      LevelFit(ps);
    }
    if tot == 0.0 {
      Trivial(1.0 - fit.r2);
    } else {
      ShareLeft(res, tot);
    }
  }

  lemma LevelFit(ps: seq<Point>)
    requires FitLinear(ps).Some? && FitLinear(ps).value.slope == 0.0
    ensures FitLinear(ps).value.fixed == Mean(ps)
  {
    hide Times;
    Trivial(Total(ps, Xs()) / |ps| as real);
  }

  lemma ShareLeft(res: real, tot: real)
    requires tot != 0.0
    ensures Times(1.0 - (1.0 - res / tot), tot) == res
    ensures 1.0 - res / tot == 1.0 <==> res == 0.0
    ensures 1.0 - res / tot == 0.0 <==> res == tot
  {
    var q := res / tot;
    Quotient(res, tot);
    assert 1.0 - (1.0 - q) == q;
    assert q == 1.0 ==> Times(q, tot) == tot;
    assert res == tot ==> tot / tot == 1.0;
  }

  /** Samples on a line give back that line, with nothing unexplained. */
  lemma CollinearIsRecovered(ps: seq<Point>, a: real, b: real)
    requires TwoSizes(ps) && forall p :: p in ps ==> p.y == a + b * p.x
    ensures FitLinear(ps) == Some(Fit(a, b, 1.0))
  {
    CollinearLoss(ps, a, b);
    hide Times;
    FitIsLeastSquares(ps, a, b);
    LossNonNegative(ps, FitLinear(ps).value.fixed, FitLinear(ps).value.slope);
  }

  lemma CollinearLoss(ps: seq<Point>, a: real, b: real)
    requires forall p :: p in ps ==> p.y == a + b * p.x
    ensures Loss(ps, a, b) == 0.0
  {
    forall p | p in ps ensures Squared(a, b)(p) == 0.0 {
      SquareNonNegative(p.y - (a + Times(b, p.x)));
    }
    AllZero(ps, Squared(a, b));
  }

  // Sample order.

  lemma {:induction false} TotalRemove(ps: seq<Point>, f: Point -> real, i: nat)
    requires i < |ps|
    ensures Total(ps, f) == f(ps[i]) + Total(ps[..i] + ps[i + 1..], f)
  {
    if i == 0 {
      assert ps[..0] + ps[1..] == ps[1..];
    } else {
      TotalRemove(ps[1..], f, i - 1);
      assert (ps[..i] + ps[i + 1..])[1..] == ps[1..][..i - 1] + ps[1..][i..];
    }
  }

  lemma RestPermuted(ps: seq<Point>, qs: seq<Point>) returns (i: nat)
    requires multiset(ps) == multiset(qs) && ps != []
    ensures i < |qs| && qs[i] == ps[0] && multiset(ps[1..]) == multiset(qs[..i] + qs[i + 1..])
  {
    assert ps[0] in multiset(qs);
    i :| 0 <= i < |qs| && qs[i] == ps[0];
    assert ps == [ps[0]] + ps[1..];
    assert qs == qs[..i] + [qs[i]] + qs[i + 1..];
    assert multiset(ps[1..]) == multiset(ps) - multiset{ps[0]};
    assert multiset(qs[..i] + qs[i + 1..]) == multiset(qs) - multiset{ps[0]};
  }

  lemma {:induction false} TotalPermuted(ps: seq<Point>, qs: seq<Point>, f: Point -> real)
    requires multiset(ps) == multiset(qs)
    ensures Total(ps, f) == Total(qs, f)
  {
    if ps == [] {
      assert |multiset(qs)| == 0;
    } else {
      var i := RestPermuted(ps, qs);
      TotalRemove(qs, f, i);
      TotalPermuted(ps[1..], qs[..i] + qs[i + 1..], f);
    }
  }

  /** The order of the samples does not matter. */
  lemma FitIgnoresOrder(ps: seq<Point>, qs: seq<Point>)
    requires multiset(ps) == multiset(qs)
    ensures FitLinear(ps) == FitLinear(qs)
  {
    hide Times;
    assert |ps| == |multiset(ps)| == |multiset(qs)| == |qs|;
    TotalPermuted(ps, qs, Xs());
    TotalPermuted(ps, qs, Ys());
    if |ps| >= 2 {
      var mx, my := Total(ps, Xs()) / |ps| as real, Total(ps, Ys()) / |ps| as real;
      TotalPermuted(ps, qs, Spread(mx));
      TotalPermuted(ps, qs, Cross(mx, my));
      TotalPermuted(ps, qs, SpreadY(my));
      if FitLinear(ps).Some? {
        var slope := Total(ps, Cross(mx, my)) / Total(ps, Spread(mx));
        TotalPermuted(ps, qs, Squared(my - Times(slope, mx), slope));
      }
    }
  }
}
