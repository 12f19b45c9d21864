/** The record of one optimization outcome (gadma/optimizers/optimizer_result.py).

    The record is a value: its fields are set once when it is built and never
    change, and the lists it holds (`X`, `X_out`) cannot be affected by later
    changes to the caller's lists, which is what the source's deep copies
    ensure. */
module OptimizerResults {
  import opened Results
  import opened Strings
  import Models

  /** A point of the search: one value per unfixed variable. */
  type Point = seq<Models.Value>

  datatype OptimizerResult = OptimizerResult(
    x: Point,            // the best point of the run
    y: real,             // the objective at x
    success: bool,
    status: int,
    message: string,
    X: seq<Point>,       // every point evaluated
    Y: seq<real>,        // the objective at each of X
    nEval: int,
    nIter: int,
    XOut: seq<Point>,    // the points worth resuming from
    YOut: seq<real>)

  /** `OptimizerResult(x, y, success, status, message, X, Y, n_eval, n_iter,
      X_out=[], Y_out=[])`. */
  function Make(x: Point, y: real, success: bool, status: int, message: string,
                X: seq<Point>, Y: seq<real>, nEval: int, nIter: int,
                XOut: seq<Point> := [], YOut: seq<real> := []): (r: OptimizerResult)
    ensures r.x == x && r.y == y && r.success == success && r.status == status && r.message == message
    ensures r.X == X && r.Y == Y && r.nEval == nEval && r.nIter == nIter
    ensures r.XOut == XOut && r.YOut == YOut
  {
    OptimizerResult(x, y, success, status, message, X, Y, nEval, nIter, XOut, YOut)
  }

  /** The fields of `scipy.optimize.OptimizeResult` that are read. */
  datatype SciPyResult = SciPyResult(
    x: Point, fun: real, success: bool, status: int, message: string, nfev: int, nit: int)

  /** `OptimizerResult.from_SciPy_OptimizeResult`: the history is left empty and
      the best point is the only point worth resuming from. */
  function FromSciPy(s: SciPyResult): (r: OptimizerResult)
    ensures r.X == [] && r.Y == []
    ensures r.XOut == [s.x] && r.YOut == [s.fun]
  {
    Make(s.x, s.fun, s.success, s.status, s.message, [], [], s.nfev, s.nit, [s.x], [s.fun])
  }

  /** The SciPy view of a record: `x`, `fun = y`, `nfev = n_eval`, `nit = n_iter`. */
  function ToSciPy(r: OptimizerResult): SciPyResult
  {
    SciPyResult(r.x, r.y, r.success, r.status, r.message, r.nEval, r.nIter)
  }

  /** The conversion from SciPy loses nothing SciPy reported, and a record built
      by it resumes from its own best point, whose value is `y`. */
  lemma FromSciPyRoundTrip(s: SciPyResult)
    ensures ToSciPy(FromSciPy(s)) == s
    ensures FromSciPy(s).XOut == [FromSciPy(s).x] && FromSciPy(s).YOut == [FromSciPy(s).y]
  {
  }

  /** The label line `i` of `__repr__` starts with, right-aligned to width 8. */
  function Label(i: nat): (tag: string)
    requires i < 7
    ensures |tag| == 8 && '\n' !in tag
  {
    ["  status", " success", " message", "       x", "       y", "  n_eval", "  n_iter"][i]
  }

  /** One line of `__repr__`: the label, `": "` and the field; both read back. */
  function Line(tag: string, field: string): (l: string)
    ensures |l| == |tag| + 2 + |field|
    ensures l[..|tag| + 2] == tag + ": " && l[|tag| + 2..] == field
  {
    tag + ": " + field
  }

  /** What `__repr__` shows after each label. */
  function ReprFields(r: OptimizerResult, showX: Point -> string, showY: real -> string): (fields: seq<string>)
    ensures |fields| == 7
  {
    [ IntToString(r.status), BoolToString(r.success), r.message, showX(r.x), showY(r.y),
      IntToString(r.nEval), IntToString(r.nIter) ]
  }

  /** The lines of `__repr__`, before the line breaks; `showX` and `showY` stand
      for Python's rendering of the best point and of its value. */
  function ReprLines(r: OptimizerResult, showX: Point -> string, showY: real -> string): (lines: seq<string>)
    ensures |lines| == 7
    ensures forall i :: 0 <= i < 7 ==> lines[i] == Line(Label(i), ReprFields(r, showX, showY)[i])
  {
    var fields := ReprFields(r, showX, showY);
    seq(7, i requires 0 <= i < 7 => Line(Label(i), fields[i]))
  }

  /** `__repr__`: status, success, message, x, y, n_eval and n_iter, one per
      line, each line ending in a line break. */
  function Repr(r: OptimizerResult, showX: Point -> string, showY: real -> string): string
  {
    Join(ReprLines(r, showX, showY), "\n") + "\n"
  }

  /** Split at line breaks, `__repr__` gives back its seven lines in their
      fixed order and an empty tail, as long as the message and the renderings
      hold no line break. */
  lemma ReprSplitsIntoLines(r: OptimizerResult, showX: Point -> string, showY: real -> string)
    requires '\n' !in r.message && '\n' !in showX(r.x) && '\n' !in showY(r.y)
    ensures SplitOn(Repr(r, showX, showY), '\n') == ReprLines(r, showX, showY) + [""]
  {
    var lines := ReprLines(r, showX, showY);
    ReprLinesUnbroken(r, showX, showY);
    JoinSnocEmpty(lines, '\n');
    SplitJoin(lines + [""], '\n');
  }

  /** Each line of `__repr__` is its label, `": "` and the field: the three
      counters read back as the integers stored, and the other lines hold
      the success flag, the message and the renderings of `x` and `y`. */
  lemma ReprLinesReadable(r: OptimizerResult, showX: Point -> string, showY: real -> string)
    ensures forall i :: 0 <= i < 7 ==> ReprLines(r, showX, showY)[i][..10] == Label(i) + ": "
    ensures ParseInt(ReprLines(r, showX, showY)[0][10..]) == Some(r.status)
    ensures ReprLines(r, showX, showY)[1][10..] == BoolToString(r.success)
    ensures ReprLines(r, showX, showY)[2][10..] == r.message
    ensures ReprLines(r, showX, showY)[3][10..] == showX(r.x)
    ensures ReprLines(r, showX, showY)[4][10..] == showY(r.y)
    ensures ParseInt(ReprLines(r, showX, showY)[5][10..]) == Some(r.nEval)
    ensures ParseInt(ReprLines(r, showX, showY)[6][10..]) == Some(r.nIter)
  {
  }

  /** No line of `__repr__` holds a line break of its own. */
  lemma ReprLinesUnbroken(r: OptimizerResult, showX: Point -> string, showY: real -> string)
    requires '\n' !in r.message && '\n' !in showX(r.x) && '\n' !in showY(r.y)
    ensures forall i :: 0 <= i < |ReprLines(r, showX, showY) + [""]| ==> '\n' !in (ReprLines(r, showX, showY) + [""])[i]
  {
    var lines := ReprLines(r, showX, showY);
    var fields := ReprFields(r, showX, showY);
    NumeralUnbroken(r.status);
    NumeralUnbroken(r.nEval);
    NumeralUnbroken(r.nIter);
    assert '\n' !in BoolToString(r.success);
    forall i | 0 <= i < 7 ensures '\n' !in lines[i] {
      LineUnbroken(Label(i), fields[i]);
    }
    forall i | 0 <= i < 8 ensures '\n' !in (lines + [""])[i] {
      if i < 7 {
        assert (lines + [""])[i] == lines[i];
      }
    }
  }

  lemma LineUnbroken(tag: string, field: string)
    requires '\n' !in tag && '\n' !in field
    ensures '\n' !in Line(tag, field)
  {
    var l := Line(tag, field);
    assert l == tag + (": " + field);
  }

  lemma NumeralUnbroken(i: int)
    ensures '\n' !in IntToString(i)
  {
  }

  lemma JoinSnocEmpty(lines: seq<string>, c: char)
    requires |lines| > 0
    ensures Join(lines + [""], [c]) == Join(lines, [c]) + [c]
    decreases |lines|
  {
    if |lines| > 1 {
      JoinSnocEmpty(lines[1..], c);
      assert (lines + [""])[1..] == lines[1..] + [""];
    }
  }
}
