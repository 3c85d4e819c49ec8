# Autograder decision logic in Dafny

This project models the decision logic of a small autograder for data-analysis
assignments. It has two tools:

- `auto_grade.py`, the batch grader. It walks a directory of student scripts,
  screens each `.py` file's imports, runs the script, and scores it. One point
  comes from the bound `result` being close to the reference value. One point
  comes from the saved plot being more than 0.95 similar to the reference plot.
- `check_format.py`, the format checker. A student runs it before submitting.
  It screens the imports, runs the script, and checks that `result` and
  `my_func` are bound and that a figure was drawn. Every diagnostic goes to one
  module-global `errors` list.

Modules:

- `Submission` (submission.dfy) holds what both tools share. It has the parsed
  import statements (`ImportNode`, `ParseOutcome`), the outcome of running a
  script (`Execution`), the refused set `{"os", "sys", "subprocess", "shutil"}`,
  and the top-level-name test that both screeners use.
- `AutoGrade` (auto_grade.dfy) holds the screener that records nothing, the
  grading of one submission, and the main loop over a directory listing. The
  matplotlib figure registry is modelled as the sequence of figures still open.
  It is carried from one submission to the next.
- `CheckFormat` (check_format.dfy) holds the screener that records diagnostics
  and `check_student_file`. The global list is the `errors` field of a
  `FormatChecker` object. Its methods append to it with loops. Their
  postconditions tie the new list to the pure function `Validate`. The
  `Session` function chains calls, and lemmas about it state how the list
  builds up across calls.

Parsing, module execution, numeric comparison, image similarity and figure
rendering are foreign code, so they are inputs:

- A parse is `SyntaxError(detail)` or `Parsed(import nodes in walk order)`.
- A run is `Raised(cause)` or `Ran(bound names with their values, figures left open)`.
- `allclose`, the image similarity and the blank image that `savefig` renders
  when no figure is open are fields of a `Numerics` value.

Where the code's behaviour may surprise a reader, the model follows the code:

- Neither screener ever rejects a forbidden import. A script that parses gets
  `(True, None)`. The recording variant only appends diagnostics.
- The plot point needs a similarity strictly greater than 0.95, not at least 0.95.
- `REQUIRED_FUNCTIONS` is checked with `hasattr` only. Callability is not checked.
- `grade_student` does not catch an exception raised by the student's script,
  nor one raised by `np.allclose` while comparing its value. A script that binds
  no `result` has None compared, which numpy refuses with a `TypeError`. The
  batch stops at that file (`Batch.Aborted`).
- `auto_grade.py` does not close all figures before a run. `extract_plot` closes only
  the figure it saves, so figures a script leaves open can be graded as the plot
  of a later script that draws nothing (`AutoGrade.GradedPlot`, `AutoGrade.LeftOpenFigureGraded`).
- The score lies in [0, 2]. The "/10" shown after it is display only.

## Model

| member | source | states |
|---|---|---|
| `Submission.TopLevelSpec` | auto_grade.py:27 | The top-level name (`split(".")[0]`) is a prefix of the target, has no `.`, and is followed by a `.` or by the end of the target. |
| `Submission.TopLevelUnique` | check_format.py:29 | Any prefix of the target that has no `.` and is followed by a `.` or by the end of the target is the top-level name. So `split(".")[0]` is exactly the part before the first `.`. |
| `Submission.IsForbiddenIff` | auto_grade.py:27 | A target is refused iff it is a refused module or a submodule of one (`m` or `m.` followed by more). A name that only starts with a refused name is not refused. |
| `Submission.ForbiddenExamples` | auto_grade.py:13-33 | With the fixed set {os, sys, subprocess, shutil}: `os.path` is refused as `os`, and a relative `from . import x` (module None) is never refused. |
| `Submission.PrefixNotForbidden` | auto_grade.py:27 | `osx` is not refused: a name that only begins with `os` is its own top-level module. |
| `AutoGrade.CheckForbiddenImports` | auto_grade.py:16-35 | A syntax error gives (false, [syntax message]). A script that parses gives (true, None) whatever it imports: the breaks only cut the walk short. |
| `AutoGrade.Getattr` | auto_grade.py:69 | A missing `result` is passed to the value comparison as None. A bound one is passed as its value. |
| `AutoGrade.ExtractPlot` | auto_grade.py:48-53 | With no figure open, a blank image is saved and nothing stays open. Otherwise the saved image is the most recent open figure, and the ones before it stay open. |
| `AutoGrade.Grade` | auto_grade.py:66-86 | A run that raises gives the crash and leaves the open figures alone. Otherwise the most recent figure is closed whatever happens next. A value comparison that raises gives that crash. Otherwise the score is in [0, 2]. It is 2 iff the value is close (tolerance 1e-4) and the similarity exceeds 0.95. It is 0 iff neither holds. |
| `AutoGrade.GradedPlot` | auto_grade.py:48-53 | The graded image is the last figure the script left open. If the script drew nothing, it is the most recent figure an earlier submission left open, or a blank figure. |
| `AutoGrade.ThresholdIsStrict` | auto_grade.py:79-84 | When the value comparison answers, a similarity of exactly 0.95 earns no plot point, so the score is the value point alone. |
| `AutoGrade.GradeStudent` | auto_grade.py:66-86 | Accumulating the score step by step from 0 gives the outcome and the open figures that `Grade` specifies. |
| `AutoGrade.PyFiles` | auto_grade.py:92-93 | The files the main loop looks at all end in `.py` and are no more than the listing. |
| `AutoGrade.PyFilesCounts` | auto_grade.py:92-93 | Every `.py` file of the listing is looked at, as often as the listing holds it, and no other file is. |
| `AutoGrade.PyFilesAppend` | auto_grade.py:92-93 | The filter keeps listing order: filtering two parts of a listing and joining them gives the filtered listing. |
| `AutoGrade.RunBatch` | auto_grade.py:88-104 | Every reported score of the batch lies in [0, 2]. |
| `AutoGrade.CompletedReports` | auto_grade.py:92-104 | A batch that completes reports once per `.py` file, in listing order. A file is reported rejected iff it does not parse. |
| `AutoGrade.AbortsIff` | auto_grade.py:97-103 | The batch stops iff some `.py` file that parses raises when run or when its value is compared. |
| `AutoGrade.MissingResultStops` | auto_grade.py:66-73 | When comparing None raises, as in numpy, a `.py` script that parses, runs and binds no `result` stops the batch. |
| `AutoGrade.StepScores` | auto_grade.py:93-104 | A `.py` script that parses, runs and is compared gets a report with its points, graded on the figure saved from the open ones, and that figure is closed. |
| `AutoGrade.LeftOpenFigureGraded` | auto_grade.py:48-53 | Over a batch: a script that leaves two figures open is graded on the second. A following script that draws nothing is graded on the first, and nothing stays open. |
| `AutoGrade.ImportsDoNotMatter` | auto_grade.py:24-35 | Two listings that differ only in the imports of scripts that parse get the same batch result. |
| `AutoGrade.AbortedStays` | auto_grade.py:92-103 | Once a prefix of the listing has stopped the batch, the remaining files change nothing. |
| `AutoGrade.GradeAll` | auto_grade.py:88-104 | The main loop (`.py` filter, screen, skip the rejected, grade, stop on an exception) returns the batch that `RunBatch` specifies. |
| `CheckFormat.ImportDiagnosticsStep` | check_format.py:26-33 | Diagnostics follow walk order: those for the first i + 1 nodes are those for the first i, followed by those for node i. |
| `CheckFormat.AliasDiagnosticsCount` | check_format.py:28-30 | No early exit within an `import` node. A refused alias gets one "Forbidden import detected: <name>" per occurrence. An alias that is not refused gets none. |
| `CheckFormat.NodeDiagnosticsIff` | check_format.py:27-33 | One node records a diagnostic naming `name` iff it is an `import` listing the refused alias `name`, or a `from` node whose non-empty module `name` is refused. |
| `CheckFormat.ImportDiagnosticsComplete` | check_format.py:26-33 | Every offending node's diagnostic appears in the list, wherever the node comes in the walk. |
| `CheckFormat.ImportDiagnosticsSound` | check_format.py:26-33 | Every diagnostic naming `name` comes from some node that imports the refused target `name`. |
| `CheckFormat.AliasDiagnosticsShape` | check_format.py:28-30 | Every diagnostic of an `import` node names one of its aliases, and that alias is refused. |
| `CheckFormat.ImportDiagnosticsIff` | check_format.py:26-33 | A diagnostic naming `name` is recorded iff some node imports the refused target `name`. |
| `CheckFormat.AliasDiagnosticsEmptyIff` | check_format.py:28-30 | An `import` node records nothing iff none of its aliases is refused. |
| `CheckFormat.ImportDiagnosticsEmptyIff` | check_format.py:26-35 | Screening records nothing iff no import node imports a refused module. |
| `CheckFormat.MissingDiagnosticsIff` | check_format.py:59-67 | Every required name is checked. A diagnostic appears exactly for the names that are not bound. |
| `CheckFormat.MissingDiagnosticsEmptyIff` | check_format.py:59-67 | The required-name checks add nothing iff every required name is bound. |
| `CheckFormat.StructuralDiagnosticsExact` | check_format.py:59-71 | With the required lists as they are, the structural checks add, in order: a missing `result`, a missing `my_func()`, then "No plot detected" when no figure is open. |
| `CheckFormat.Validate` | check_format.py:38-75 | The list only grows. A success has an empty list and the confirmation text. A non-`.py` path is refused first and leaves the list alone. A syntax error is refused without running and leaves the list alone. A raising run returns "Your script could not run: <cause>" and keeps only the import diagnostics. A script that runs gains the import diagnostics and then the structural ones. It fails iff the list is then not empty, and it then returns the whole list. |
| `CheckFormat.ValidateOkIff` | check_format.py:73-75 | A call succeeds iff: the list was empty before it, the path ends in `.py`, the script parses, it imports nothing refused, it runs, it binds `result` and `my_func`, and it leaves a figure open. |
| `CheckFormat.Session` | check_format.py:15 | Successive calls in one process: one outcome per call. Each outcome's list extends the starting list and the list the previous call left. A successful call leaves an empty list. |
| `CheckFormat.SessionErrorsGrow` | check_format.py:15 | The list is never cleared. What one call leaves is a prefix of what any later call leaves. |
| `CheckFormat.SessionStaysFailed` | check_format.py:73-74 | Once a call has left a diagnostic, every later call in the process returns False. |
| `CheckFormat.FormatChecker.constructor` | check_format.py:15 | The process starts with an empty list. |
| `CheckFormat.FormatChecker.CheckForbiddenImports` | check_format.py:18-35 | A syntax error gives (false, [syntax message]) and leaves the list alone. Otherwise the result is (true, None), and the list gains the screening diagnostics in walk order. |
| `CheckFormat.FormatChecker.RecordForbiddenNode` | check_format.py:27-33 | Screening one node appends that node's diagnostics to the list and nothing else. |
| `CheckFormat.FormatChecker.RecordForbiddenAliases` | check_format.py:28-30 | The loop over an `import` node's aliases appends one diagnostic per refused alias, in alias order. |
| `CheckFormat.FormatChecker.RecordMissing` | check_format.py:60-67 | The loop over a required list appends a diagnostic for each unbound name, in list order. |
| `CheckFormat.FormatChecker.CheckStructure` | check_format.py:59-71 | The checks after a successful run append the missing-variable, missing-function and no-plot diagnostics, in that order. |
| `CheckFormat.FormatChecker.CheckStudentFile` | check_format.py:38-75 | The verdict and the new list are those `Validate` gives for the old list. |

## Left out

- Reading the file and `ast.parse` are not modelled. Their outcome is the `ParseOutcome` input. The syntax-error text is an opaque `detail` string.
- Loading and running the script with `importlib` is not modelled. Its outcome is the `Execution` input: the exception's text, or the bound names with their values and the figures left open.
- `np.load`, `np.allclose`, the PIL conversion and resizing, and SSIM are floating-point library code. They are the `allclose`, `similarity` and `blank` fields of `Numerics`. The threshold 0.95 is modelled. The tolerance 1e-4 is only passed to the `allclose` field, which stands for the whole numpy comparison, including its default relative tolerance of 1e-5.
- AutoGrade.Grade: which values `np.allclose` refuses (None, shapes that do not broadcast) is left to the `allclose` field. The model only says that a refusal stops the batch (`AutoGrade.AbortsIff`, `AutoGrade.MissingResultStops`). The image similarity is taken never to raise.
- AutoGrade.ExtractPlot: the figure registry is modelled as the figures still open, in creation order. A script can only add figures to it. The model does not capture a script that closes figures (`plt.close("all")`, `plt.close(fig)`), including ones an earlier submission left open. It does not capture `plt.figure(n)` making an earlier figure current again either, since `savefig` saves the current figure and the model saves the most recent one.
- CheckFormat.Validate: `except Exception` does not catch `SystemExit`. A script that calls `exit()` or `sys.exit(...)` ends the whole checker process with no message. The model treats every raising run as "Your script could not run".
- CheckFormat.Validate: `return False, errors` returns the global list itself, so a list returned earlier keeps growing with later calls. The model returns a snapshot (`Lines(...)`) and does not capture this aliasing.
- Figures left open by a script that raises are not modelled. The batch of `auto_grade.py` stops there anyway, and the format checker closes all figures before each run.
- Directory listing, printing, `sys.exit`, the usage check of the format checker's command line, and the "/10" display are command-line glue.
- The screener call: both entry points call the screener with one argument. It takes two, so Python would raise `TypeError` there. The model passes `FORBIDDEN_IMPORTS` as the evidently intended second argument and does not model the crash.
