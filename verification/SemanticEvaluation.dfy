/** Precision of accepted classifications with the lower Wilson bound, in exact reals. */
module SemanticEvaluation {
  import opened Text
  import opened Filtering

  // ---------- the Wilson bound ----------

  datatype Bound = Undefined | OutOfRange | Lower(value: real)

  /** What stands under the square root. */
  function Radicand(p: real, n: real, z: real): real
    requires n > 0.0
  {
    (p * (1.0 - p) + z * z / (4.0 * n)) / n
  }

  /** `root` stands for the square root of the radicand. */
  function Unclamped(p: real, n: real, z: real, root: real): real
    requires n > 0.0
  {
    PositiveDenominator(n, z);
    (p + z * z / (2.0 * n) - z * root) / (1.0 + z * z / n)
  }

  lemma PositiveDenominator(n: real, z: real)
    requires n > 0.0
    ensures 1.0 + z * z / n > 0.0
  {
    assert z * z >= 0.0;
    assert z * z / n >= 0.0;
  }

  function WilsonLower(correct: int, total: int, z: real, sqrt: real -> real): Bound
  {
    if total <= 0 then Undefined
    else if correct < 0 || correct > total then OutOfRange
    else
      var p := correct as real / total as real;
      var lower := Unclamped(p, total as real, z, sqrt(Radicand(p, total as real, z)));
      Lower(if lower > 0.0 then lower else 0.0)
  }

  ghost predicate SquareRoot(sqrt: real -> real)
  {
    forall x :: x >= 0.0 ==> sqrt(x) >= 0.0 && sqrt(x) * sqrt(x) == x
  }

  /** The quadratic whose smaller root the Wilson bound is, with the square of `z` as `w`. */
  function Residual(p: real, n: real, w: real, x: real): real
  {
    n * (p - x) * (p - x) - w * x * (1.0 - x)
  }

  /** Completing the square. */
  lemma CompletedSquare(p: real, n: real, w: real, x: real, a: real, b: real)
    requires a == n + w && b == 2.0 * n * p + w
    ensures 4.0 * a * Residual(p, n, w, x) == (2.0 * a * x - b) * (2.0 * a * x - b) - (b * b - 4.0 * a * n * p * p)
  {
    assert Residual(p, n, w, x) == a * x * x - b * x + n * p * p;
  }

  lemma Discriminant(p: real, n: real, z: real, root: real, w: real, a: real, b: real, d: real)
    requires n > 0.0 && w == z * z && a == n + w && b == 2.0 * n * p + w && d == 2.0 * n * z * root
    requires root * root == Radicand(p, n, z)
    ensures d * d == 4.0 * n * w * p * (1.0 - p) + w * w == b * b - 4.0 * a * n * p * p
  {
    var q := w / (4.0 * n);
    var r := (p * (1.0 - p) + q) / n;
    assert 4.0 * n * q == w;
    assert n * r == p * (1.0 - p) + q;
    Squared(n, z, root, d);
    assert d * d == 4.0 * w * n * (n * r);
    Cleared(p, n, w, q, r);
  }

  lemma Squared(n: real, z: real, root: real, d: real)
    requires d == 2.0 * n * z * root
    ensures d * d == 4.0 * n * n * (z * z) * (root * root)
  {
  }

  lemma Cleared(p: real, n: real, w: real, q: real, r: real)
    requires 4.0 * n * q == w && n * r == p * (1.0 - p) + q
    ensures 4.0 * w * n * (n * r) == 4.0 * n * w * p * (1.0 - p) + w * w
  {
    assert w * (4.0 * n * q) == w * w;
  }

  /** The bound, freed of its nested fractions. */
  lemma Unfolded(p: real, n: real, z: real, root: real)
    requires n > 0.0
    ensures 2.0 * (n + z * z) * Unclamped(p, n, z, root) == 2.0 * n * p + z * z - 2.0 * n * z * root
  {
    PositiveDenominator(n, z);
    var w := z * z;
    var num, den := p + w / (2.0 * n) - z * root, 1.0 + w / n;
    var l := num / den;
    assert l * den == num;
    assert n * den == n + w;
    assert 2.0 * n * num == 2.0 * n * p + w - 2.0 * n * z * root by {
      assert 2.0 * n * (w / (2.0 * n)) == w;
    }
    assert 2.0 * (n * den) * l == 2.0 * n * (l * den);
  }

  lemma Positive(x: real, y: real)
    requires x > 0.0 && y > 0.0
    ensures x * y > 0.0
  {
  }

  lemma SquaresOrder(x: real, y: real)
    requires x >= 0.0 && y >= 0.0 && x * x <= y * y
    ensures x <= y
  {
    assert (x - y) * (x + y) == x * x - y * y;
    if x > y { Positive(x - y, x + y); }
  }

  lemma BelowBySquares(x: real, y: real)
    requires y >= 0.0 && x * x <= y * y
    ensures -y <= x <= y
  {
    if x >= 0.0 { SquaresOrder(x, y); } else { SquaresOrder(-x, y); }
  }

  /** The solution of a quadratic by its discriminant `d * d`. */
  lemma SmallerRoot(p: real, n: real, w: real, a: real, b: real, d: real, l: real, x: real)
    requires a == n + w > 0.0 && b == 2.0 * n * p + w && d >= 0.0
    requires d * d == b * b - 4.0 * a * n * p * p && 2.0 * a * l == b - d
    ensures Residual(p, n, w, l) == 0.0
    ensures Residual(p, n, w, x) == 0.0 ==> l <= x
  {
    CompletedSquare(p, n, w, l, a, b);
    RootOf(Residual(p, n, w, l), l, a, b, d);
    if Residual(p, n, w, x) == 0.0 {
      CompletedSquare(p, n, w, x, a, b);
      BelowBySquares(2.0 * a * x - b, d);
      Cancel(a, l, x);
    }
  }

  /**
   * The unclamped bound is the smaller root of the Wilson quadratic and lies between 0 and the observed rate,
   * so clamping at zero changes nothing.  `x` stands for any other root.
   */
  lemma WilsonLaw(p: real, n: real, z: real, root: real, x: real)
    requires n > 0.0 && 0.0 <= p <= 1.0 && z >= 0.0
    requires root >= 0.0 && root * root == Radicand(p, n, z)
    ensures var l := Unclamped(p, n, z, root);
      && Residual(p, n, z * z, l) == 0.0
      && (Residual(p, n, z * z, x) == 0.0 ==> l <= x)
      && 0.0 <= l <= p
  {
    var l := Unclamped(p, n, z, root);
    var w := z * z;
    var a, b, d := n + w, 2.0 * n * p + w, 2.0 * n * z * root;
    Nonnegative(z, z);
    Nonnegative(n, z);
    Nonnegative(n * z, root);
    Discriminant(p, n, z, root, w, a, b, d);
    Unfolded(p, n, z, root);
    SmallerRoot(p, n, w, a, b, d, l, x);
    Between(p, n, w, a, b, d, l);
  }

  lemma RootOf(residual: real, l: real, a: real, b: real, d: real)
    requires a > 0.0 && 2.0 * a * l == b - d
    requires 4.0 * a * residual == (2.0 * a * l - b) * (2.0 * a * l - b) - d * d
    ensures residual == 0.0
  {
    assert (2.0 * a * l - b) * (2.0 * a * l - b) == d * d;
  }

  lemma Cancel(a: real, x: real, y: real)
    requires a > 0.0 && 2.0 * a * x <= 2.0 * a * y
    ensures x <= y
  {
    assert x > y ==> a * (x - y) > 0.0;
  }

  lemma Nonnegative(x: real, y: real)
    requires x >= 0.0 && y >= 0.0
    ensures x * y >= 0.0
  {
  }

  lemma Between(p: real, n: real, w: real, a: real, b: real, d: real, l: real)
    requires n > 0.0 && 0.0 <= p <= 1.0 && w >= 0.0 && a == n + w && b == 2.0 * n * p + w && d >= 0.0
    requires d * d == 4.0 * n * w * p * (1.0 - p) + w * w == b * b - 4.0 * a * n * p * p
    requires 2.0 * a * l == b - d
    ensures 0.0 <= l <= p
  {
    Nonnegative(n, p);
    Nonnegative(n * p, p);
    Nonnegative(a, n * p * p);
    assert 4.0 * a * n * p * p == 4.0 * (a * (n * p * p));
    SquaresOrder(d, b);
    Cancel(a, 0.0, l);
    AbovePart(p, n, w, d);
    assert 2.0 * a * p == 2.0 * n * p + 2.0 * w * p;
    Cancel(a, l, p);
  }

  lemma AbovePart(p: real, n: real, w: real, d: real)
    requires n > 0.0 && 0.0 <= p <= 1.0 && w >= 0.0 && d >= 0.0 && d * d == 4.0 * n * w * p * (1.0 - p) + w * w
    ensures w - 2.0 * w * p <= d
  {
    var q := p * (1.0 - p);
    var e := w * (1.0 - 2.0 * p);
    Nonnegative(p, 1.0 - p);
    Nonnegative(w, w);
    Nonnegative(w * w, q);
    Nonnegative(n, w);
    Nonnegative(n * w, q);
    assert d * d == 4.0 * (n * w * q) + w * w;
    assert e * e == w * w - 4.0 * (w * w * q) by {
      assert (1.0 - 2.0 * p) * (1.0 - 2.0 * p) == 1.0 - 4.0 * q;
      assert e * e == w * w * ((1.0 - 2.0 * p) * (1.0 - 2.0 * p));
    }
    BelowBySquares(e, d);
  }

  // ---------- the counting loop ----------

  datatype Row = Row(accepted: bool, selected: Option<string>, expected: Option<string>)

  datatype Report = Report(total: nat, accepted: nat, coverage: real, dangerous: nat, precision: Option<real>,
                           bound: Option<Bound>)

  predicate Successful(answer: Option<string>)
  {
    answer == Some("success") || answer == Some("already_done")
  }

  predicate Dangerous(r: Row)
  {
    Successful(r.selected) && !Successful(r.expected)
  }

  predicate Correct(r: Row)
  {
    r.selected == r.expected
  }

  /** An accepted row is never both dangerous and correct, so the counts share the accepted rows. */
  lemma {:induction false} CountsShare(rows: seq<Row>)
    ensures |Select(rows, Dangerous)| + |Select(rows, Correct)| <= |rows|
  {
    if rows != [] {
      CountsShare(rows[..|rows| - 1]);
    }
  }

  /** The places of the accepted rows. */
  function AcceptedAt(rows: seq<Row>): set<int>
  {
    set i | 0 <= i < |rows| && rows[i].accepted
  }

  /** The places of the accepted rows that are classified as expected. */
  function CorrectAt(rows: seq<Row>): set<int>
  {
    set i | 0 <= i < |rows| && rows[i].accepted && rows[i].selected == rows[i].expected
  }

  /** The places of the accepted rows that are taken for a success without being one. */
  function DangerousAt(rows: seq<Row>): set<int>
  {
    set i | 0 <= i < |rows| && rows[i].accepted
      && rows[i].selected in [Some("success"), Some("already_done")]
      && rows[i].expected !in [Some("success"), Some("already_done")]
  }

  lemma AcceptedCount(rows: seq<Row>)
    ensures |Accepted(rows)| == |AcceptedAt(rows)|
  {
    SelectCount(rows, (r: Row) => r.accepted, AcceptedAt(rows));
  }

  lemma CorrectCount(rows: seq<Row>)
    ensures |Select(Accepted(rows), Correct)| == |CorrectAt(rows)|
  {
    var both := (r: Row) => r.accepted && r.selected == r.expected;
    SelectTwice(rows, (r: Row) => r.accepted, Correct, both);
    SelectCount(rows, both, CorrectAt(rows));
  }

  lemma DangerousCount(rows: seq<Row>)
    ensures |Select(Accepted(rows), Dangerous)| == |DangerousAt(rows)|
  {
    var both := (r: Row) => r.accepted && Dangerous(r);
    SelectTwice(rows, (r: Row) => r.accepted, Dangerous, both);
    SelectCount(rows, both, DangerousAt(rows));
  }

  function Accepted(rows: seq<Row>): seq<Row>
  {
    Select(rows, (r: Row) => r.accepted)
  }

  method CountAccepted(accepted: seq<Row>) returns (dangerous: nat, correct: nat)
    ensures dangerous == |Select(accepted, Dangerous)| && correct == |Select(accepted, Correct)|
    ensures dangerous + correct <= |accepted|
  {
    dangerous, correct := 0, 0;
    for i := 0 to |accepted|
      invariant dangerous == |Select(accepted[..i], Dangerous)|
      invariant correct == |Select(accepted[..i], Correct)|
    {
      assert accepted[..i + 1][..i] == accepted[..i];
      if Dangerous(accepted[i]) { dangerous := dangerous + 1; }
      if Correct(accepted[i]) { correct := correct + 1; }
    }
    assert accepted[..|accepted|] == accepted;
    CountsShare(accepted);
  }

  /** The rate is that of `part` in `whole`. */
  ghost predicate Share(rate: real, part: nat, whole: nat)
  {
    rate * whole as real == part as real && 0.0 <= rate <= 1.0
  }

  /** The reported rates for `correct` of `n` accepted rows. */
  ghost predicate Rated(precision: real, bound: Bound, correct: nat, dangerous: nat, n: nat, z: real)
  {
    && Share(precision, correct, n)
    && bound.Lower? && 0.0 <= bound.value <= precision
    && Residual(precision, n as real, z * z, bound.value) == 0.0
    && dangerous as real <= (1.0 - precision) * n as real
  }

  /** The counting never leaves the range the bound accepts, and the reported bound never exceeds the precision. */
  method EvaluateRows(rows: seq<Row>, z: real, sqrt: real -> real) returns (report: Report)
    requires SquareRoot(sqrt) && z >= 0.0
    ensures report.total == |rows| && report.accepted == |AcceptedAt(rows)|
    ensures report.dangerous == |DangerousAt(rows)|
    ensures rows != [] ==> Share(report.coverage, report.accepted, |rows|)
    ensures report.accepted == 0 <==> report.precision.None?
    ensures report.precision.None? <==> report.bound.None?
    ensures report.precision.Some? ==>
      Rated(report.precision.value, report.bound.value, |CorrectAt(rows)|, report.dangerous, report.accepted, z)
  {
    AcceptedCount(rows);
    CorrectCount(rows);
    DangerousCount(rows);
    if rows == [] { return Report(0, 0, 0.0, 0, None, None); }
    var accepted := Accepted(rows);
    var dangerous, correct := CountAccepted(accepted);
    var n := |accepted|;
    var coverage := n as real / |rows| as real;
    RateLaw(n, |rows|, coverage);
    if n == 0 { return Report(|rows|, 0, coverage, dangerous, None, None); }
    var precision, bound := Rates(correct, dangerous, n, z, sqrt);
    report := Report(|rows|, n, coverage, dangerous, Some(precision), Some(bound));
  }

  method Rates(correct: nat, ghost dangerous: nat, n: nat, z: real, sqrt: real -> real)
    returns (precision: real, bound: Bound)
    requires 0 < n && correct + dangerous <= n && SquareRoot(sqrt) && z >= 0.0
    ensures Rated(precision, bound, correct, dangerous, n, z)
  {
    precision, bound := correct as real / n as real, WilsonLower(correct, n, z, sqrt);
    RateLaw(correct, n, precision);
    RadicandNonnegative(precision, n as real, z);
    WilsonLaw(precision, n as real, z, sqrt(Radicand(precision, n as real, z)), precision);
    assert (1.0 - precision) * n as real == n as real - correct as real;
  }

  lemma RateLaw(correct: nat, n: nat, rate: real)
    requires 0 < n && correct <= n && rate == correct as real / n as real
    ensures Share(rate, correct, n)
  {
  }

  lemma RadicandNonnegative(p: real, n: real, z: real)
    requires n > 0.0 && 0.0 <= p <= 1.0
    ensures Radicand(p, n, z) >= 0.0
  {
    Nonnegative(p, 1.0 - p);
    assert z * z >= 0.0;
    assert z * z / (4.0 * n) >= 0.0;
  }
}
