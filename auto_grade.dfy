/** The batch grader: for every `.py` submission it screens the imports, runs
    the script, and scores the `result` it binds and the plot it draws against
    the reference answer. Numeric comparison, image similarity and figure
    rendering are foreign code; the model takes them as the fields of a
    Numerics value. */
module AutoGrade {
  import opened Submission

  /** The absolute tolerance of the value comparison. */
  const TOLERANCE: real := 0.0001
  /** The similarity a plot must strictly exceed to earn its point. */
  const THRESHOLD: real := 0.95

  /** What `np.allclose` does with two values: answer whether they are close,
      or raise (a `TypeError` for None, a `ValueError` for shapes that do not
      broadcast). */
  datatype Compared = Compared(close: bool) | CompareRaised(cause: string)

  /** The foreign operations grading calls. `allclose(s, c, tol)` compares the
      student's value (None when it bound none) with the reference; `similarity`
      is the whole image comparison (grey-scale, resize to the reference,
      structural similarity); `blank` is the image saved when no figure is open. */
  datatype Numerics<!V, !I> = Numerics(allclose: (Option<V>, V, real) -> Compared, similarity: (I, I) -> real, blank: I)

  /** The reference answer, loaded once and shared by every submission. */
  datatype Reference<V, I> = Reference(values: V, image: I)

  /** The outcome of grading one submission: a score, or the exception its
      execution raised, which nothing catches. */
  datatype Graded = Scored(score: int) | Crashed(cause: string)

  // ---------------------------------------------------------------------------
  // The screener that records nothing

  /** The screener's loops stop at the first refused import, but no branch
      changes the verdict: a script that parses is accepted whatever it imports. */
  method CheckForbiddenImports(parse: ParseOutcome, forbidden: set<string>) returns (ok: bool, message: Option<seq<string>>)
    ensures parse.SyntaxError? ==> !ok && message == Some([SyntaxMessage(parse.detail)])
    ensures parse.Parsed? ==> ok && message == None
  {
    if parse.SyntaxError? {
      return false, Some([SyntaxMessage(parse.detail)]);
    }
    var nodes := parse.nodes;
    var i := 0;
    while i < |nodes|
      invariant 0 <= i <= |nodes|
    {
      var node := nodes[i];
      if node.Import? {
        var j := 0;
        while j < |node.names|
          invariant 0 <= j <= |node.names|
        {
          if IsForbidden(node.names[j], forbidden) {
            break;
          }
          j := j + 1;
        }
      } else if FromIsForbidden(node.source, forbidden) {
        break;
      }
      i := i + 1;
    }
    return true, None;
  }

  // ---------------------------------------------------------------------------
  // Grading one submission

  /** `getattr(namespace, name, None)`: a missing name yields None, not an error. */
  function Getattr<V>(namespace: map<string, V>, name: string): (r: Option<V>)
    ensures r.Some? <==> name in namespace
    ensures r.Some? ==> r.value == namespace[name]
  {
    if name in namespace then Some(namespace[name]) else None
  }

  /** Saves the current figure (the most recent one still open), or a blank new
      figure when none is open, and closes it: the image and the figures left open. */
  function ExtractPlot<I>(open: seq<I>, blank: I): (r: (I, seq<I>))
    ensures open == [] ==> r == (blank, [])
    ensures open != [] ==> r.1 + [r.0] == open
  {
    if open == [] then (blank, []) else (open[|open| - 1], open[..|open| - 1])
  }

  /** `compare_values`: the student's `result`, or None, against the reference. */
  function CompareValues<V, I>(namespace: map<string, V>, expected: Reference<V, I>, numerics: Numerics<V, I>): Compared
  {
    numerics.allclose(Getattr(namespace, "result"), expected.values, TOLERANCE)
  }

  /** The value point: the comparison answers that the values are close. */
  predicate ValueMatches<V, I>(namespace: map<string, V>, expected: Reference<V, I>, numerics: Numerics<V, I>)
  {
    CompareValues(namespace, expected, numerics) == Compared(true)
  }

  /** The plot point: the saved image is strictly more similar than THRESHOLD. */
  predicate PlotMatches<V, I>(plot: I, expected: Reference<V, I>, numerics: Numerics<V, I>)
  {
    numerics.similarity(plot, expected.image) > THRESHOLD
  }

  /** Grading one submission while the figures `open` are still open from earlier
      submissions: the outcome and the figures left open afterwards. The plot is
      saved and closed before the values are compared, so a comparison that
      raises still leaves one figure fewer open. */
  function Grade<V, I>(open: seq<I>, run: Execution<V, I>, expected: Reference<V, I>, numerics: Numerics<V, I>): (r: (Graded, seq<I>))
    ensures run.Raised? ==> r == (Crashed(run.cause), open)
    // saving the plot closes the most recent figure and no other
    ensures run.Ran? && open + run.figures == [] ==> r.1 == []
    ensures run.Ran? && open + run.figures != [] ==> r.1 == (open + run.figures)[..|open + run.figures| - 1]
    ensures run.Ran? && CompareValues(run.namespace, expected, numerics).CompareRaised? ==>
              r.0 == Crashed(CompareValues(run.namespace, expected, numerics).cause)
    ensures run.Ran? && CompareValues(run.namespace, expected, numerics).Compared? ==>
              var plot := ExtractPlot(open + run.figures, numerics.blank).0;
              r.0.Scored? && 0 <= r.0.score <= 2 &&
              (r.0.score == 2 <==> ValueMatches(run.namespace, expected, numerics) && PlotMatches(plot, expected, numerics)) &&
              (r.0.score == 0 <==> !ValueMatches(run.namespace, expected, numerics) && !PlotMatches(plot, expected, numerics))
  {
    match run
    case Raised(cause) => (Crashed(cause), open)
    case Ran(namespace, figures) =>
      var (plot, stillOpen) := ExtractPlot(open + figures, numerics.blank);
      match CompareValues(namespace, expected, numerics)
      case CompareRaised(cause) => (Crashed(cause), stillOpen)
      case Compared(close) =>
        var valuePoint := if close then 1 else 0;
        var plotPoint := if PlotMatches(plot, expected, numerics) then 1 else 0;
        (Scored(valuePoint + plotPoint), stillOpen)
  }

  /** The image graded is the last figure the script left open; a script that
      drew nothing is graded on the most recent figure an earlier submission
      left open, or on a blank figure when there is none. */
  lemma GradedPlot<I>(open: seq<I>, figures: seq<I>, blank: I)
    ensures figures != [] ==> ExtractPlot(open + figures, blank).0 == figures[|figures| - 1]
    ensures figures == [] && open != [] ==> ExtractPlot(open + figures, blank).0 == open[|open| - 1]
    ensures figures == [] && open == [] ==> ExtractPlot(open + figures, blank).0 == blank
  {
    if figures == [] {
      assert open + figures == open;
    }
  }

  /** A similarity of exactly THRESHOLD earns no plot point: the score is then
      the value point alone. */
  lemma ThresholdIsStrict<V, I>(open: seq<I>, run: Execution<V, I>, expected: Reference<V, I>, numerics: Numerics<V, I>)
    requires run.Ran? && CompareValues(run.namespace, expected, numerics).Compared?
    requires numerics.similarity(ExtractPlot(open + run.figures, numerics.blank).0, expected.image) == 0.95
    ensures Grade(open, run, expected, numerics).0.score == if ValueMatches(run.namespace, expected, numerics) then 1 else 0
  {
  }

  /** Grades one submission: runs nothing itself (the run is an input), reads
      `result`, saves the current figure and adds up the points. */
  method GradeStudent<V, I>(open: seq<I>, run: Execution<V, I>, expected: Reference<V, I>, numerics: Numerics<V, I>)
    returns (graded: Graded, stillOpen: seq<I>)
    ensures (graded, stillOpen) == Grade(open, run, expected, numerics)
  {
    if run.Raised? {
      return Crashed(run.cause), open;
    }
    var studentOutput := Getattr(run.namespace, "result");
    var (studentPlot, leftOpen) := ExtractPlot(open + run.figures, numerics.blank);
    stillOpen := leftOpen;

    var score := 0;
    var compared := numerics.allclose(studentOutput, expected.values, TOLERANCE);
    if compared.CompareRaised? {
      return Crashed(compared.cause), stillOpen;
    }
    if compared.close {
      score := score + 1;
    }
    var similarity := numerics.similarity(studentPlot, expected.image);
    if similarity > THRESHOLD {
      score := score + 1;
    }
    return Scored(score), stillOpen;
  }

  // ---------------------------------------------------------------------------
  // The batch over a directory listing

  /** A file of the submissions directory, with the outcome of parsing it and of
      running it. */
  datatype StudentFile<V, I> = StudentFile(filename: string, parse: ParseOutcome, run: Execution<V, I>)

  /** What the batch reports about one `.py` file: refused by the screener, or scored. */
  datatype Report = Rejected(filename: string) | Total(filename: string, score: int)

  /** The batch either goes through the whole listing or stops at the first
      submission whose execution raises. */
  datatype Batch = Completed(reports: seq<Report>) | Aborted(reports: seq<Report>, cause: string)

  /** The files of the listing that the batch looks at, in listing order. */
  function PyFiles<V, I>(files: seq<StudentFile<V, I>>): (r: seq<StudentFile<V, I>>)
    ensures |r| <= |files|
    ensures forall k :: 0 <= k < |r| ==> EndsWith(r[k].filename, ".py")
  {
    if files == [] then []
    else
      var last := files[|files| - 1];
      PyFiles(files[..|files| - 1]) + if EndsWith(last.filename, ".py") then [last] else []
  }

  /** Every `.py` file of the listing is kept, as often as the listing holds it,
      and nothing else is. */
  lemma {:induction false} PyFilesCounts<V, I>(files: seq<StudentFile<V, I>>)
    ensures forall x :: multiset(PyFiles(files))[x] == if EndsWith(x.filename, ".py") then multiset(files)[x] else 0
  {
    if files != [] {
      var init, last := files[..|files| - 1], files[|files| - 1];
      PyFilesCounts(init);
      assert files == init + [last];
    }
  }

  /** The filter keeps listing order: filtering a listing split in two gives the
      filtered first part followed by the filtered second part. */
  lemma {:induction false} PyFilesAppend<V, I>(front: seq<StudentFile<V, I>>, back: seq<StudentFile<V, I>>)
    ensures PyFiles(front + back) == PyFiles(front) + PyFiles(back)
    decreases |back|
  {
    if back != [] {
      var init := back[..|back| - 1];
      assert (front + back)[..|front + back| - 1] == front + init;
      PyFilesAppend(front, init);
    } else {
      assert front + back == front;
    }
  }

  /** One pass of the main loop over `file`, after the reports `reports` with
      the figures `open` left open. */
  function Step<V, I>(reports: seq<Report>, open: seq<I>, file: StudentFile<V, I>, expected: Reference<V, I>, numerics: Numerics<V, I>): (Batch, seq<I>)
  {
    if !EndsWith(file.filename, ".py") then (Completed(reports), open)
    // the screener refuses a script only when it does not parse
    else if file.parse.SyntaxError? then (Completed(reports + [Rejected(file.filename)]), open)
    else
      match Grade(open, file.run, expected, numerics)
      case (Crashed(cause), stillOpen) => (Aborted(reports, cause), stillOpen)
      case (Scored(score), stillOpen) => (Completed(reports + [Total(file.filename, score)]), stillOpen)
  }

  /** The main loop over a listing, starting with no figure open: the batch and
      the figures left open. */
  function RunBatch<V, I>(files: seq<StudentFile<V, I>>, expected: Reference<V, I>, numerics: Numerics<V, I>): (r: (Batch, seq<I>))
    ensures forall k :: 0 <= k < |r.0.reports| && r.0.reports[k].Total? ==> 0 <= r.0.reports[k].score <= 2
  {
    if files == [] then (Completed([]), [])
    else
      var (batch, open) := RunBatch(files[..|files| - 1], expected, numerics);
      if batch.Aborted? then (batch, open)
      else Step(batch.reports, open, files[|files| - 1], expected, numerics)
  }

  /** One report per `.py` file, in listing order, and the screener refuses
      exactly the files that do not parse: refused imports never stop grading. */
  lemma {:induction false} CompletedReports<V, I>(files: seq<StudentFile<V, I>>, expected: Reference<V, I>, numerics: Numerics<V, I>)
    requires RunBatch(files, expected, numerics).0.Completed?
    ensures var reports, py := RunBatch(files, expected, numerics).0.reports, PyFiles(files);
            |reports| == |py| &&
            forall k :: 0 <= k < |reports| ==>
              reports[k].filename == py[k].filename &&
              (reports[k].Rejected? <==> py[k].parse.SyntaxError?)
  {
    if files != [] {
      var init := files[..|files| - 1];
      CompletedReports(init, expected, numerics);
    }
  }

  /** A `.py` file that parses, and whose run or value comparison raises. */
  predicate Crashes<V, I>(file: StudentFile<V, I>, expected: Reference<V, I>, numerics: Numerics<V, I>)
  {
    EndsWith(file.filename, ".py") && file.parse.Parsed? &&
    (file.run.Raised? || CompareValues(file.run.namespace, expected, numerics).CompareRaised?)
  }

  /** The batch stops exactly when some `.py` file that parses raises when run
      or when its value is compared. */
  lemma {:induction false} AbortsIff<V, I>(files: seq<StudentFile<V, I>>, expected: Reference<V, I>, numerics: Numerics<V, I>)
    ensures RunBatch(files, expected, numerics).0.Aborted? <==> exists k :: 0 <= k < |files| && Crashes(files[k], expected, numerics)
  {
    if files != [] {
      var init := files[..|files| - 1];
      AbortsIff(init, expected, numerics);
      if exists k :: 0 <= k < |init| && Crashes(init[k], expected, numerics) {
        var k :| 0 <= k < |init| && Crashes(init[k], expected, numerics);
        assert files[k] == init[k];
      }
      if exists k :: 0 <= k < |files| && Crashes(files[k], expected, numerics) {
        var k :| 0 <= k < |files| && Crashes(files[k], expected, numerics);
        if k < |init| {
          assert init[k] == files[k];
        }
      }
    }
  }

  /** When the comparison raises for a missing value, as `np.allclose(None, …)`
      does, a `.py` script that parses, runs and binds no `result` stops the batch. */
  lemma MissingResultStops<V, I>(files: seq<StudentFile<V, I>>, k: nat, expected: Reference<V, I>, numerics: Numerics<V, I>)
    requires numerics.allclose(None, expected.values, TOLERANCE).CompareRaised?
    requires k < |files| && EndsWith(files[k].filename, ".py") && files[k].parse.Parsed?
    requires files[k].run.Ran? && "result" !in files[k].run.namespace
    ensures RunBatch(files, expected, numerics).0.Aborted?
  {
    AbortsIff(files, expected, numerics);
    assert Crashes(files[k], expected, numerics);
  }

  /** The points of a script that ran and whose value comparison answered. */
  function Points<V, I>(namespace: map<string, V>, plot: I, expected: Reference<V, I>, numerics: Numerics<V, I>): int
  {
    (if ValueMatches(namespace, expected, numerics) then 1 else 0) + (if PlotMatches(plot, expected, numerics) then 1 else 0)
  }

  /** One pass of the main loop over a `.py` script that parses, runs and whose
      value comparison answers: it is scored on the figure saved from the open
      ones, and that figure is closed. */
  lemma StepScores<V, I>(reports: seq<Report>, open: seq<I>, file: StudentFile<V, I>, expected: Reference<V, I>, numerics: Numerics<V, I>)
    requires EndsWith(file.filename, ".py") && file.parse.Parsed? && file.run.Ran?
    requires CompareValues(file.run.namespace, expected, numerics).Compared?
    ensures var (plot, stillOpen) := ExtractPlot(open + file.run.figures, numerics.blank);
            Step(reports, open, file, expected, numerics) ==
              (Completed(reports + [Total(file.filename, Points(file.run.namespace, plot, expected, numerics))]), stillOpen)
  {
  }

  /** Figures leak from one submission to the next: after a script that leaves
      `f1` and `f2` open is graded on `f2`, a following script that draws nothing
      is graded on `f1`. */
  lemma LeftOpenFigureGraded<V, I>(a: StudentFile<V, I>, b: StudentFile<V, I>, f1: I, f2: I, expected: Reference<V, I>, numerics: Numerics<V, I>)
    requires EndsWith(a.filename, ".py") && a.parse.Parsed? && a.run.Ran? && a.run.figures == [f1, f2]
    requires EndsWith(b.filename, ".py") && b.parse.Parsed? && b.run.Ran? && b.run.figures == []
    requires CompareValues(a.run.namespace, expected, numerics).Compared?
    requires CompareValues(b.run.namespace, expected, numerics).Compared?
    ensures RunBatch([a, b], expected, numerics) ==
            (Completed([Total(a.filename, Points(a.run.namespace, f2, expected, numerics)),
                        Total(b.filename, Points(b.run.namespace, f1, expected, numerics))]), [])
  {
    var reportA := Total(a.filename, Points(a.run.namespace, f2, expected, numerics));
    var reportB := Total(b.filename, Points(b.run.namespace, f1, expected, numerics));
    assert [] + a.run.figures == [f1, f2] && [f1, f2][..1] == [f1];
    StepScores([], [], a, expected, numerics);
    assert [] + [reportA] == [reportA] && [a][..0] == [];
    assert RunBatch([a], expected, numerics) == (Completed([reportA]), [f1]);
    assert [f1] + b.run.figures == [f1] && [f1][..0] == [];
    StepScores([reportA], [f1], b, expected, numerics);
    assert ExtractPlot([f1], numerics.blank) == (f1, []);
    assert [a, b][..1] == [a];
    assert RunBatch([a, b], expected, numerics) == Step([reportA], [f1], b, expected, numerics);
    assert [reportA] + [reportB] == [reportA, reportB];
  }

  /** Two listings that differ only in the imports of scripts that parse are
      graded the same: the screener's walk never influences the batch. */
  lemma {:induction false} ImportsDoNotMatter<V, I>(files: seq<StudentFile<V, I>>, others: seq<StudentFile<V, I>>, expected: Reference<V, I>, numerics: Numerics<V, I>)
    requires |files| == |others|
    requires forall k :: 0 <= k < |files| ==>
               files[k].filename == others[k].filename && files[k].run == others[k].run &&
               files[k].parse.SyntaxError? == others[k].parse.SyntaxError?
    ensures RunBatch(files, expected, numerics) == RunBatch(others, expected, numerics)
  {
    if files != [] {
      var n := |files| - 1;
      ImportsDoNotMatter(files[..n], others[..n], expected, numerics);
      assert files[n].filename == others[n].filename;
    }
  }

  /** The main loop: only `.py` files are screened and graded; the first
      execution that raises ends the batch. */
  method GradeAll<V, I>(files: seq<StudentFile<V, I>>, expected: Reference<V, I>, numerics: Numerics<V, I>)
    returns (batch: Batch)
    ensures batch == RunBatch(files, expected, numerics).0
  {
    var reports: seq<Report> := [];
    var open: seq<I> := [];
    var i := 0;
    while i < |files|
      invariant 0 <= i <= |files|
      invariant RunBatch(files[..i], expected, numerics) == (Completed(reports), open)
    {
      var file := files[i];
      assert files[..i + 1][..i] == files[..i];
      if EndsWith(file.filename, ".py") {
        var ok, message := CheckForbiddenImports(file.parse, FORBIDDEN_IMPORTS);
        if !ok {
          reports := reports + [Rejected(file.filename)];
        } else {
          var graded;
          graded, open := GradeStudent(open, file.run, expected, numerics);
          if graded.Crashed? {
            AbortedStays(files, i + 1, expected, numerics);
            return Aborted(reports, graded.cause);
          }
          reports := reports + [Total(file.filename, graded.score)];
        }
      }
      i := i + 1;
    }
    assert files[..i] == files;
    return Completed(reports);
  }

  /** Once a prefix of the listing has stopped the batch, the rest of the
      listing changes nothing. */
  lemma {:induction false} AbortedStays<V, I>(files: seq<StudentFile<V, I>>, n: nat, expected: Reference<V, I>, numerics: Numerics<V, I>)
    requires n <= |files|
    requires RunBatch(files[..n], expected, numerics).0.Aborted?
    ensures RunBatch(files, expected, numerics).0 == RunBatch(files[..n], expected, numerics).0
    decreases |files|
  {
    if n < |files| {
      var init := files[..|files| - 1];
      assert init[..n] == files[..n];
      AbortedStays(init, n, expected, numerics);
    } else {
      assert files[..n] == files;
    }
  }
}
