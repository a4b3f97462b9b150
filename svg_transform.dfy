/**
 * `svg2geo.py`'s `attr2transform`: an SVG `transform` attribute as a 2-D affine matrix
 * `[a, b, c, d, e, f]`, which maps `(x, y)` to `(a*x + c*y + e, b*x + d*y + f)`.
 * The attribute is given as its sequence of operations, each `translate` and
 * `scale` argument read as `ReadArgs` reads it. The script's own reading, `ReadArgsAsWritten`,
 * tries two numbers first and so splits a one-number argument of two or more characters.
 */
module SvgTransform {
  import opened Common
  import opened Geometry
  import Text

  datatype Matrix = Matrix(a: real, b: real, c: real, d: real, e: real, f: real)

  const Identity: Matrix := Matrix(1.0, 0.0, 0.0, 1.0, 0.0, 0.0)

  /** The affine map of a matrix, as the first half of `transform` computes it. */
  function Apply(m: Matrix, p: Point): Point
  {
    Point(m.a * p.x + m.c * p.y + m.e, m.b * p.x + m.d * p.y + m.f)
  }

  /** The product `m · m1` as `attr2transform` forms it for `m` followed by the rest `m1`. */
  function Compose(m: Matrix, m1: Matrix): Matrix
  {
    Matrix(m.a * m1.a + m.c * m1.b,
           m.b * m1.a + m.d * m1.b,
           m.a * m1.c + m.c * m1.d,
           m.b * m1.c + m.d * m1.d,
           m.a * m1.e + m.c * m1.f + m.e,
           m.b * m1.e + m.d * m1.f + m.f)
  }

  lemma RightDist(a: real, b: real, x: real)
    ensures (a + b) * x == a * x + b * x
  {
  }

  lemma Assoc(a: real, b: real, x: real)
    ensures (a * b) * x == a * (b * x)
  {
  }

  lemma LeftDist3(k: real, u: real, v: real, w: real)
    ensures k * (u + v + w) == k * u + k * v + k * w
  {
  }

  /** One coordinate of the product: `(a, c, e)` is the row of `m` that gives it, `(a1, c1, e1)` and `(b1, d1, f1)` are `m1`'s. */
  lemma RowProduct(a: real, c: real, e: real, a1: real, b1: real, c1: real, d1: real, e1: real, f1: real, x: real, y: real)
    ensures (a * a1 + c * b1) * x + (a * c1 + c * d1) * y + (a * e1 + c * f1 + e) ==
            a * (a1 * x + c1 * y + e1) + c * (b1 * x + d1 * y + f1) + e
  {
    calc {
      (a * a1 + c * b1) * x + (a * c1 + c * d1) * y + (a * e1 + c * f1 + e);
      { RightDist(a * a1, c * b1, x); RightDist(a * c1, c * d1, y); }
      (a * a1) * x + (c * b1) * x + ((a * c1) * y + (c * d1) * y) + (a * e1 + c * f1 + e);
      { Assoc(a, a1, x); Assoc(c, b1, x); Assoc(a, c1, y); Assoc(c, d1, y); }
      a * (a1 * x) + c * (b1 * x) + (a * (c1 * y) + c * (d1 * y)) + (a * e1 + c * f1 + e);
      (a * (a1 * x) + a * (c1 * y) + a * e1) + (c * (b1 * x) + c * (d1 * y) + c * f1) + e;
      { LeftDist3(a, a1 * x, c1 * y, e1); LeftDist3(c, b1 * x, d1 * y, f1); }
      a * (a1 * x + c1 * y + e1) + c * (b1 * x + d1 * y + f1) + e;
    }
  }

  /** The product applies the later operations first: `(m · m1)(p) == m(m1(p))`. */
  lemma ComposeApply(m: Matrix, m1: Matrix, p: Point)
    ensures Apply(Compose(m, m1), p) == Apply(m, Apply(m1, p))
  {
    var q := Apply(m1, p);
    var r := Apply(Compose(m, m1), p);
    assert r.x == m.a * q.x + m.c * q.y + m.e by {
      RowProduct(m.a, m.c, m.e, m1.a, m1.b, m1.c, m1.d, m1.e, m1.f, p.x, p.y);
    }
    assert r.y == m.b * q.x + m.d * q.y + m.f by {
      RowProduct(m.b, m.d, m.f, m1.a, m1.b, m1.c, m1.d, m1.e, m1.f, p.x, p.y);
    }
    assert r == Point(r.x, r.y);
  }

  /** The identity is neutral on both sides of the product. */
  lemma ComposeIdentity(m: Matrix)
    ensures Compose(m, Identity) == m
    ensures Compose(Identity, m) == m
  {
  }

  /**
   * One operation of a `transform` attribute. `translate` and `scale` whose argument
   * `ReadArgs` reads as one number keep their optional second argument as `None`; `rotate`
   * carries the cosine and sine of its angle; `Other` is any text that starts with no known
   * keyword.
   */
  datatype Op =
    | MatrixOp(m: Matrix)
    | Translate(tx: real, ty: Option<real>)
    | Scale(sx: real, sy: Option<real>)
    | Rotate(cos: real, sin: real)
    | Other

  /** The matrix of one known operation. */
  function OpMatrix(op: Op): Matrix
    requires !op.Other?
  {
    match op
    case MatrixOp(m) => m
    case Translate(tx, None) => Matrix(1.0, 0.0, 0.0, 1.0, tx, 0.0)
    case Translate(tx, Some(ty)) => Matrix(1.0, 0.0, 0.0, 1.0, tx, ty)
    case Scale(sx, None) => Matrix(sx, 0.0, 0.0, 1.0, 0.0, 0.0)
    case Scale(sx, Some(sy)) => Matrix(sx, 0.0, 0.0, sy, 0.0, 0.0)
    case Rotate(cos, sin) => Matrix(cos, sin, -sin, cos, 0.0, 0.0)
  }

  /**
   * `attr2transform`: the first operation's matrix times the matrix of the rest; an empty
   * rest or one that starts with no known keyword is the identity.
   */
  function Attr2Transform(ops: seq<Op>): Matrix
  {
    if ops == [] || ops[0].Other? then Identity
    else Compose(OpMatrix(ops[0]), Attr2Transform(ops[1..]))
  }

  /** The operations that take effect: those before the first unknown one. */
  function Effective(ops: seq<Op>): (r: seq<Op>)
    ensures |r| <= |ops| && r == ops[..|r|]
    ensures forall k :: 0 <= k < |r| ==> !r[k].Other?
    ensures |r| < |ops| ==> ops[|r|].Other?
  {
    if ops == [] || ops[0].Other? then [] else [ops[0]] + Effective(ops[1..])
  }

  /** Apply the effective operations to a point, the last one first. */
  function ApplyAll(ops: seq<Op>, p: Point): Point
    requires forall k :: 0 <= k < |ops| ==> !ops[k].Other?
  {
    if ops == [] then p else Apply(OpMatrix(ops[0]), ApplyAll(ops[1..], p))
  }

  /**
   * The matrix means the operations: applying it to a point applies every operation before
   * the first unknown one, right to left, as the SVG transform list prescribes.
   */
  lemma {:induction false} Attr2TransformApplies(ops: seq<Op>, p: Point)
    ensures Apply(Attr2Transform(ops), p) == ApplyAll(Effective(ops), p)
  {
    if ops != [] && !ops[0].Other? {
      Attr2TransformApplies(ops[1..], p);
      ComposeApply(OpMatrix(ops[0]), Attr2Transform(ops[1..]), p);
      assert Effective(ops)[1..] == Effective(ops[1..]);
    }
  }

  /** Everything from the first unknown operation on is ignored. */
  lemma {:induction false} UnknownStops(ops: seq<Op>, rest: seq<Op>)
    ensures Attr2Transform(ops + [Other] + rest) == Attr2Transform(Effective(ops))
  {
    if ops == [] {
    } else if ops[0].Other? {
      assert (ops + [Other] + rest)[0] == ops[0];
    } else {
      assert (ops + [Other] + rest)[1..] == ops[1..] + [Other] + rest;
      UnknownStops(ops[1..], rest);
      assert Effective(ops)[1..] == Effective(ops[1..]);
    }
  }

  /** The single operations, and an attribute that starts with no known keyword. */
  lemma SingleOps()
    ensures Attr2Transform([Other]) == Identity && Attr2Transform([]) == Identity
    ensures Attr2Transform([Scale(2.0, Some(3.0))]) == Matrix(2.0, 0.0, 0.0, 3.0, 0.0, 0.0)
    ensures Attr2Transform([Scale(2.0, None)]) == Matrix(2.0, 0.0, 0.0, 1.0, 0.0, 0.0)
    ensures Attr2Transform([MatrixOp(Matrix(2.0, 3.0, 4.0, 5.0, 6.0, 7.0))]) == Matrix(2.0, 3.0, 4.0, 5.0, 6.0, 7.0)
    ensures Attr2Transform([Translate(2.0, Some(3.0))]) == Matrix(1.0, 0.0, 0.0, 1.0, 2.0, 3.0)
    ensures Attr2Transform([Translate(2.0, None)]) == Matrix(1.0, 0.0, 0.0, 1.0, 2.0, 0.0)
  {
    assert [Scale(2.0, Some(3.0))][1..] == [];
    assert [Scale(2.0, None)][1..] == [];
    assert [MatrixOp(Matrix(2.0, 3.0, 4.0, 5.0, 6.0, 7.0))][1..] == [];
    assert [Translate(2.0, Some(3.0))][1..] == [];
    assert [Translate(2.0, None)][1..] == [];
  }

  // The arguments of `translate(…)` and `scale(…)`, read with `NUM1` and `NUM2`.

  /** `10^n` as a real. */
  function Pow10(n: nat): (r: real)
    ensures r >= 1.0
  {
    if n == 0 then 1.0 else 10.0 * Pow10(n - 1)
  }

  /** `10^n` as a natural number. */
  function Pow10Nat(n: nat): (r: nat)
    ensures r >= 1 && r as real == Pow10(n)
  {
    if n == 0 then 1 else 10 * Pow10Nat(n - 1)
  }

  /** The value of a decimal digit. */
  function DigitValue(c: char): nat
    requires Text.IsDigit(c)
  {
    c as int - '0' as int
  }

  /**
   * `NUM1`, ` ?,?-?[0-9]*\.?[0-9]+`, matched against the whole of `t` and read by `float`,
   * scanning from the right: `v` is the value of the `n` digits already read, the last
   * ones of the number. `None` when `t` does not match.
   */
  function Num1From(t: string, v: nat, n: nat): Option<real>
    decreases |t|
  {
    if t != [] && Text.IsDigit(t[|t| - 1]) then
      Num1From(t[..|t| - 1], v + DigitValue(t[|t| - 1]) * Pow10Nat(n), n + 1)
    else if n == 0 then None
    else if t != [] && t[|t| - 1] == '.' then IntDigits(t[..|t| - 1], 0, 0, v as real / Pow10(n))
    else Lead(t, v as real)
  }

  /** The digits before the point, `[0-9]*`, added to the fraction `frac` read after it. */
  function IntDigits(t: string, v: nat, n: nat, frac: real): Option<real>
    decreases |t|
  {
    if t != [] && Text.IsDigit(t[|t| - 1]) then
      IntDigits(t[..|t| - 1], v + DigitValue(t[|t| - 1]) * Pow10Nat(n), n + 1, frac)
    else Lead(t, v as real + frac)
  }

  /** What may stand before the digits: an optional space, an optional comma, an optional minus. */
  function Lead(t: string, x: real): Option<real>
  {
    var neg := |t| > 0 && t[|t| - 1] == '-';
    var t1 := if neg then t[..|t| - 1] else t;
    var t2 := if |t1| > 0 && t1[|t1| - 1] == ',' then t1[..|t1| - 1] else t1;
    var t3 := if |t2| > 0 && t2[|t2| - 1] == ' ' then t2[..|t2| - 1] else t2;
    if t3 == [] then Some(if neg then -x else x) else None
  }

  /** `NUM1` matched against the whole argument. */
  function Num1(arg: string): Option<real>
  {
    Num1From(arg, 0, 0)
  }

  /** `NUM2` matches with its first number ending after the first `i` characters. */
  predicate SplitsAt(arg: string, i: nat)
    requires i <= |arg|
  {
    Num1(arg[..i]).Some? && Num1(arg[i..]).Some?
  }

  /**
   * Where `NUM2` splits the argument, trying first parts of `i` characters and fewer: the
   * longest first part after which a second number follows, since the backtracking of
   * `re.match` tries a longer first number before a shorter one; `None` when none works.
   */
  function LongestSplit(arg: string, i: nat): (r: Option<nat>)
    requires i <= |arg|
    ensures r.Some? ==> 0 < r.value <= i && SplitsAt(arg, r.value)
    decreases i
  {
    if i == 0 then None
    else if SplitsAt(arg, i) then Some(i)
    else LongestSplit(arg, i - 1)
  }

  /** No first part longer than the split found (up to `i` characters) is a split. */
  lemma {:induction false} LongestSplitLongest(arg: string, i: nat)
    requires i <= |arg|
    ensures forall j :: (if LongestSplit(arg, i).Some? then LongestSplit(arg, i).value else 0) < j <= i ==> !SplitsAt(arg, j)
    decreases i
  {
    if i > 0 && !SplitsAt(arg, i) {
      LongestSplitLongest(arg, i - 1);
    }
  }

  /** The argument of `translate(…)` or `scale(…)`: one number or two. */
  datatype Args = One(v: real) | Two(v1: real, v2: real)

  /**
   * The argument as `attr2transform` reads it: `NUM2` first, `NUM1` only when that fails.
   * `None` is the failed match whose `group` raises.
   */
  function ReadArgsAsWritten(arg: string): Option<Args>
  {
    match LongestSplit(arg, |arg|)
    case Some(i) => Some(Two(Num1(arg[..i]).value, Num1(arg[i..]).value))
    case None =>
      match Num1(arg)
      case Some(v) => Some(One(v))
      case None => None
  }

  /**
   * The argument as SVG means it: one number when the whole argument is one, otherwise two
   * as `NUM2` splits them.
   */
  function ReadArgs(arg: string): Option<Args>
  {
    match Num1(arg)
    case Some(v) => Some(One(v))
    case None => ReadArgsAsWritten(arg)
  }

  /**
   * The script reads two numbers whenever the argument splits into two, and one only when
   * it does not split but is one number.
   */
  lemma AsWrittenReads(arg: string)
    ensures ReadArgsAsWritten(arg).Some? && ReadArgsAsWritten(arg).value.Two? <==>
      exists i :: 0 < i <= |arg| && SplitsAt(arg, i)
    ensures ReadArgsAsWritten(arg).Some? && ReadArgsAsWritten(arg).value.One? <==>
      Num1(arg).Some? && forall i :: 0 < i <= |arg| ==> !SplitsAt(arg, i)
  {
    LongestSplitLongest(arg, |arg|);
  }

  /**
   * Read as SVG means it, the argument is one number exactly when it is one, and otherwise
   * reads as the script reads it; it fails exactly where the script's reading fails.
   */
  lemma IntendedReads(arg: string)
    ensures ReadArgs(arg).Some? && ReadArgs(arg).value.One? <==> Num1(arg).Some?
    ensures ReadArgs(arg).None? <==> ReadArgsAsWritten(arg).None?
    ensures Num1(arg).None? ==> ReadArgs(arg) == ReadArgsAsWritten(arg)
    ensures ReadArgs(arg).Some? && ReadArgs(arg).value.Two? ==> exists i :: 0 < i <= |arg| && SplitsAt(arg, i)
  {
    AsWrittenReads(arg);
  }

  /** The `translate` operation of an argument. */
  function TranslateOp(a: Args): Op
  {
    match a
    case One(v) => Translate(v, None)
    case Two(x, y) => Translate(x, Some(y))
  }

  /** The `scale` operation of an argument. */
  function ScaleOp(a: Args): Op
  {
    match a
    case One(v) => Scale(v, None)
    case Two(x, y) => Scale(x, Some(y))
  }

  /** A non-empty string of decimal digits, read before `n` digits of value `v`. */
  lemma {:induction false} DigitsScan(t: string, v: nat, n: nat)
    requires Text.AllDigits(t) && |t| + n > 0
    ensures Num1From(t, v, n) == Some((Text.DigitsValue(t) * Pow10Nat(n) + v) as real)
    decreases |t|
  {
    if t != [] {
      var init, d, p := t[..|t| - 1], DigitValue(t[|t| - 1]), Pow10Nat(n);
      assert Text.AllDigits(init);
      DigitsScan(init, v + d * p, n + 1);
      assert Num1From(t, v, n) == Num1From(init, v + d * p, n + 1);
      assert Pow10Nat(n + 1) == 10 * p;
      assert Text.DigitsValue(t) == Text.DigitsValue(init) * 10 + d;
      ShiftDigit(Text.DigitsValue(init), d, p, v);
    }
  }

  /** One more digit `d` in front of a scanned tail: `a·10p + (v + d·p) == (10a + d)·p + v`. */
  lemma ShiftDigit(a: int, d: int, p: int, v: int)
    ensures a * (10 * p) + (v + d * p) == (a * 10 + d) * p + v
  {
    assert a * (10 * p) == (a * 10) * p;
    assert (a * 10 + d) * p == (a * 10) * p + d * p;
  }

  /** A non-empty string of decimal digits is one number, its decimal value. */
  lemma DigitsNumber(s: string)
    requires |s| > 0 && Text.AllDigits(s)
    ensures Num1(s) == Some(Text.DigitsValue(s) as real)
  {
    DigitsScan(s, 0, 0);
  }

  /** The empty argument is no number. */
  lemma EmptyNoNumber()
    ensures Num1([]) == None
  {
  }

  /** An argument of two or more digits splits before its last digit and not after it. */
  lemma SplitsBeforeLast(s: string)
    requires |s| >= 2 && Text.AllDigits(s)
    ensures !SplitsAt(s, |s|) && SplitsAt(s, |s| - 1)
    ensures Num1(s[..|s| - 1]) == Some(Text.DigitsValue(s[..|s| - 1]) as real)
    ensures Num1(s[|s| - 1..]) == Some((s[|s| - 1] as int - '0' as int) as real)
  {
    var n := |s|;
    var head, last := s[..n - 1], s[n - 1..];
    assert s[n..] == [];
    EmptyNoNumber();
    assert Text.AllDigits(head) && Text.AllDigits(last);
    DigitsNumber(head);
    DigitsNumber(last);
    assert last[..0] == [];
    assert Text.DigitsValue(last) == Text.DigitsValue([]) * 10 + DigitValue(s[n - 1]);
  }

  /**
   * The script splits every argument of two or more decimal digits before its last digit:
   * `translate(10)` moves by `(1, 0)`.
   */
  lemma AsWrittenSplitsDigits(s: string)
    requires |s| >= 2 && Text.AllDigits(s)
    ensures ReadArgsAsWritten(s) == Some(Two(Text.DigitsValue(s[..|s| - 1]) as real, (s[|s| - 1] as int - '0' as int) as real))
  {
    SplitsBeforeLast(s);
    assert LongestSplit(s, |s|) == Some(|s| - 1);
  }

  /** Read as SVG means it, a string of decimal digits is one number. */
  lemma ReadDigits(s: string)
    requires |s| > 0 && Text.AllDigits(s)
    ensures ReadArgs(s) == Some(One(Text.DigitsValue(s) as real))
    ensures Apply(Attr2Transform([TranslateOp(One(Text.DigitsValue(s) as real))]), Point(0.0, 0.0)) == Point(Text.DigitsValue(s) as real, 0.0)
  {
    DigitsNumber(s);
    SingleOp(TranslateOp(One(Text.DigitsValue(s) as real)));
  }

  /** An attribute of one known operation is that operation's matrix. */
  lemma SingleOp(op: Op)
    requires !op.Other?
    ensures Attr2Transform([op]) == OpMatrix(op)
  {
    assert [op][1..] == [];
    ComposeIdentity(OpMatrix(op));
  }

  /** `translate(10)` as the script reads it moves by `(1, 0)`; as SVG means it, by `(10, 0)`. */
  lemma TranslateTen()
    ensures ReadArgsAsWritten("10") == Some(Two(1.0, 0.0))
    ensures Attr2Transform([TranslateOp(Two(1.0, 0.0))]) == Matrix(1.0, 0.0, 0.0, 1.0, 1.0, 0.0)
    ensures ReadArgs("10") == Some(One(10.0))
    ensures Attr2Transform([TranslateOp(One(10.0))]) == Matrix(1.0, 0.0, 0.0, 1.0, 10.0, 0.0)
  {
    TenDigits();
    SingleOp(TranslateOp(Two(1.0, 0.0)));
    SingleOp(TranslateOp(One(10.0)));
  }

  /** The two readings of the argument `10`. */
  lemma TenDigits()
    ensures ReadArgsAsWritten("10") == Some(Two(1.0, 0.0))
    ensures ReadArgs("10") == Some(One(10.0))
  {
    var t := "10";
    TenParts();
    assert t[..2] == t && t[2..] == [] && t[..1] == "1" && t[1..] == "0";
    EmptyNoNumber();
    assert !SplitsAt(t, 2) && SplitsAt(t, 1);
    assert LongestSplit(t, 2) == Some(1);
  }

  /** The numbers in `10` that `NUM1` can match. */
  lemma TenParts()
    ensures Num1("10") == Some(10.0)
    ensures Num1("1") == Some(1.0)
    ensures Num1("0") == Some(0.0)
  {
    assert "10"[..1] == "1" && "1"[..0] == [] && "0"[..0] == [];
  }

  /**
   * `scale(10)` as the script reads it (`TenDigits`) is `scale(1, 0)`, which flattens every
   * point onto the `x` axis; as SVG means it, it scales `x` by 10.
   */
  lemma ScaleTen()
    ensures Attr2Transform([ScaleOp(Two(1.0, 0.0))]) == Matrix(1.0, 0.0, 0.0, 0.0, 0.0, 0.0)
    ensures Attr2Transform([ScaleOp(One(10.0))]) == Matrix(10.0, 0.0, 0.0, 1.0, 0.0, 0.0)
  {
    SingleOp(ScaleOp(Two(1.0, 0.0)));
    SingleOp(ScaleOp(One(10.0)));
  }

  /** `translate(12.5)` as the script reads it is `translate(12, .5)`. */
  lemma TranslateTwelveHalf()
    ensures ReadArgsAsWritten("12.5") == Some(Two(12.0, 0.5))
    ensures ReadArgs("12.5") == Some(One(12.5))
  {
    var t := "12.5";
    TwelveHalfParts();
    assert t[..4] == t && t[4..] == [] && t[..3] == "12." && t[3..] == "5";
    assert t[..2] == "12" && t[2..] == ".5";
    EmptyNoNumber();
    assert !SplitsAt(t, 4) && !SplitsAt(t, 3) && SplitsAt(t, 2);
    assert LongestSplit(t, 4) == Some(2);
  }

  /** The numbers in `12.5` that `NUM1` can match, and the one it cannot. */
  lemma TwelveHalfParts()
    ensures Num1("12.5") == Some(12.5)
    ensures Num1("12.") == None
    ensures Num1("12") == Some(12.0)
    ensures Num1(".5") == Some(0.5)
  {
    assert "12.5"[..3] == "12." && "12."[..2] == "12" && "12"[..1] == "1" && "1"[..0] == [];
    assert ".5"[..1] == "." && "."[..0] == [];
  }
}
