/** The pre-submission format checker: it screens a script's imports, runs it,
    and checks that it binds the required names and draws a plot. Every
    diagnostic goes to one list that lives as long as the process and is never
    cleared, so the model keeps it as a field of a FormatChecker object. */
module CheckFormat {
  import opened Submission

  const REQUIRED_VARIABLES: seq<string> := ["result"]
  const REQUIRED_FUNCTIONS: seq<string> := ["my_func"]

  const NOT_PY: string := "File must be a .py file"
  const CONFIRMED: string := "File format confirmed! You may submit now."
  const NO_PLOT: string := "No plot detected"

  function ForbiddenDiagnostic(name: string): string
  {
    "Forbidden import detected: " + name
  }

  function MissingVariable(v: string): string
  {
    "Missing required variable: " + v
  }

  function MissingFunction(f: string): string
  {
    "Missing required function: " + f + "()"
  }

  function CouldNotRun(cause: string): string
  {
    "Your script could not run: " + cause
  }

  /** The second half of a verdict: one line of text, or a list of diagnostics. */
  datatype Message = Text(text: string) | Lines(lines: seq<string>)

  /** What one call of the checker returns, with the diagnostics list it leaves. */
  datatype Outcome = Outcome(ok: bool, message: Message, errors: seq<string>)

  // ---------------------------------------------------------------------------
  // Screening diagnostics

  /** The diagnostics the walk records for the aliases of one `import` node. */
  function AliasDiagnostics(names: seq<string>, forbidden: set<string>): seq<string>
  {
    if names == [] then []
    else
      var last := names[|names| - 1];
      AliasDiagnostics(names[..|names| - 1], forbidden) +
      (if IsForbidden(last, forbidden) then [ForbiddenDiagnostic(last)] else [])
  }

  /** The diagnostics the walk records for one import node. */
  function NodeDiagnostics(node: ImportNode, forbidden: set<string>): seq<string>
  {
    match node
    case Import(names) => AliasDiagnostics(names, forbidden)
    case ImportFrom(source) =>
      if FromIsForbidden(source, forbidden) then [ForbiddenDiagnostic(source.value)] else []
  }

  /** The diagnostics the walk records for a whole script, in walk order. */
  function ImportDiagnostics(nodes: seq<ImportNode>, forbidden: set<string>): seq<string>
  {
    if nodes == [] then []
    else ImportDiagnostics(nodes[..|nodes| - 1], forbidden) + NodeDiagnostics(nodes[|nodes| - 1], forbidden)
  }

  /** Node `node` imports `name`, and `name` is refused. */
  predicate Offends(node: ImportNode, name: string, forbidden: set<string>)
  {
    match node
    case Import(names) => name in names && IsForbidden(name, forbidden)
    case ImportFrom(source) => source == Some(name) && FromIsForbidden(source, forbidden)
  }

  /** Node `node` imports nothing refused. */
  predicate Clean(node: ImportNode, forbidden: set<string>)
  {
    match node
    case Import(names) => forall n :: n in names ==> !IsForbidden(n, forbidden)
    case ImportFrom(source) => !FromIsForbidden(source, forbidden)
  }

  lemma ForbiddenDiagnosticInjective(a: string, b: string)
    requires ForbiddenDiagnostic(a) == ForbiddenDiagnostic(b)
    ensures a == b
  {
    var prefix := "Forbidden import detected: ";
    assert a == ForbiddenDiagnostic(a)[|prefix|..];
    assert b == ForbiddenDiagnostic(b)[|prefix|..];
  }

  /** Walk order: the diagnostics for the first i + 1 nodes are those for the
      first i followed by those for node i. */
  lemma ImportDiagnosticsStep(nodes: seq<ImportNode>, i: nat, forbidden: set<string>)
    requires i < |nodes|
    ensures ImportDiagnostics(nodes[..i + 1], forbidden) == ImportDiagnostics(nodes[..i], forbidden) + NodeDiagnostics(nodes[i], forbidden)
  {
    assert nodes[..i + 1][..i] == nodes[..i];
  }

  /** No early exit: each refused alias of an `import` node is recorded once for
      every time it is listed, and an alias that is not refused is never recorded. */
  lemma {:induction false} AliasDiagnosticsCount(names: seq<string>, name: string, forbidden: set<string>)
    ensures multiset(AliasDiagnostics(names, forbidden))[ForbiddenDiagnostic(name)] ==
            if IsForbidden(name, forbidden) then multiset(names)[name] else 0
  {
    if names != [] {
      var init, last := names[..|names| - 1], names[|names| - 1];
      assert names == init + [last];
      AliasDiagnosticsCount(init, name, forbidden);
      if last != name && IsForbidden(last, forbidden) && ForbiddenDiagnostic(last) == ForbiddenDiagnostic(name) {
        ForbiddenDiagnosticInjective(last, name);
      }
    }
  }

  lemma {:induction false} AliasDiagnosticsShape(names: seq<string>, forbidden: set<string>, d: string)
    requires d in AliasDiagnostics(names, forbidden)
    ensures exists n :: n in names && IsForbidden(n, forbidden) && d == ForbiddenDiagnostic(n)
  {
    var init, last := names[..|names| - 1], names[|names| - 1];
    if d in AliasDiagnostics(init, forbidden) {
      AliasDiagnosticsShape(init, forbidden, d);
      var n :| n in init && IsForbidden(n, forbidden) && d == ForbiddenDiagnostic(n);
      assert n in names;
    } else {
      assert last in names;
    }
  }

  /** One node's diagnostics name `name` exactly when the node imports the
      refused target `name`. */
  lemma NodeDiagnosticsIff(node: ImportNode, name: string, forbidden: set<string>)
    ensures ForbiddenDiagnostic(name) in NodeDiagnostics(node, forbidden) <==> Offends(node, name, forbidden)
  {
    var d := ForbiddenDiagnostic(name);
    match node
    case Import(names) =>
      if d in AliasDiagnostics(names, forbidden) {
        AliasDiagnosticsShape(names, forbidden, d);
        var n :| n in names && IsForbidden(n, forbidden) && d == ForbiddenDiagnostic(n);
        ForbiddenDiagnosticInjective(n, name);
      }
      if Offends(node, name, forbidden) {
        AliasDiagnosticsCount(names, name, forbidden);
        assert multiset(AliasDiagnostics(names, forbidden))[d] > 0;
      }
    case ImportFrom(source) =>
      if d in NodeDiagnostics(node, forbidden) {
        ForbiddenDiagnosticInjective(source.value, name);
      }
  }

  lemma {:induction false} ImportDiagnosticsComplete(nodes: seq<ImportNode>, k: nat, name: string, forbidden: set<string>)
    requires k < |nodes| && Offends(nodes[k], name, forbidden)
    ensures ForbiddenDiagnostic(name) in ImportDiagnostics(nodes, forbidden)
  {
    var init := nodes[..|nodes| - 1];
    if k == |nodes| - 1 {
      NodeDiagnosticsIff(nodes[k], name, forbidden);
    } else {
      assert init[k] == nodes[k];
      ImportDiagnosticsComplete(init, k, name, forbidden);
    }
  }

  lemma {:induction false} ImportDiagnosticsSound(nodes: seq<ImportNode>, name: string, forbidden: set<string>) returns (k: nat)
    requires ForbiddenDiagnostic(name) in ImportDiagnostics(nodes, forbidden)
    ensures k < |nodes| && Offends(nodes[k], name, forbidden)
  {
    var init, last := nodes[..|nodes| - 1], nodes[|nodes| - 1];
    if ForbiddenDiagnostic(name) in ImportDiagnostics(init, forbidden) {
      k := ImportDiagnosticsSound(init, name, forbidden);
      assert init[k] == nodes[k];
    } else {
      NodeDiagnosticsIff(last, name, forbidden);
      k := |nodes| - 1;
    }
  }

  /** A script's screening records a diagnostic naming `name` exactly when some
      node imports the refused target `name`. */
  lemma ImportDiagnosticsIff(nodes: seq<ImportNode>, name: string, forbidden: set<string>)
    ensures ForbiddenDiagnostic(name) in ImportDiagnostics(nodes, forbidden) <==>
            exists k :: 0 <= k < |nodes| && Offends(nodes[k], name, forbidden)
  {
    if ForbiddenDiagnostic(name) in ImportDiagnostics(nodes, forbidden) {
      var k := ImportDiagnosticsSound(nodes, name, forbidden);
    }
    if k :| 0 <= k < |nodes| && Offends(nodes[k], name, forbidden) {
      ImportDiagnosticsComplete(nodes, k, name, forbidden);
    }
  }

  lemma {:induction false} AliasDiagnosticsEmptyIff(names: seq<string>, forbidden: set<string>)
    ensures AliasDiagnostics(names, forbidden) == [] <==> forall n :: n in names ==> !IsForbidden(n, forbidden)
  {
    if names != [] {
      var init, last := names[..|names| - 1], names[|names| - 1];
      assert names == init + [last];
      AliasDiagnosticsEmptyIff(init, forbidden);
    }
  }

  /** A script records no screening diagnostic exactly when none of its import
      nodes imports a refused module. */
  lemma {:induction false} ImportDiagnosticsEmptyIff(nodes: seq<ImportNode>, forbidden: set<string>)
    ensures ImportDiagnostics(nodes, forbidden) == [] <==> forall k :: 0 <= k < |nodes| ==> Clean(nodes[k], forbidden)
  {
    if nodes != [] {
      var init, last := nodes[..|nodes| - 1], nodes[|nodes| - 1];
      ImportDiagnosticsEmptyIff(init, forbidden);
      if last.Import? {
        AliasDiagnosticsEmptyIff(last.names, forbidden);
      }
      assert forall k :: 0 <= k < |init| ==> init[k] == nodes[k];
    }
  }

  // ---------------------------------------------------------------------------
  // Structural diagnostics

  /** One diagnostic per name of `required` that is not bound, in list order. */
  function MissingDiagnostics(required: seq<string>, bound: set<string>, describe: string -> string): seq<string>
  {
    if required == [] then []
    else
      var last := required[|required| - 1];
      MissingDiagnostics(required[..|required| - 1], bound, describe) +
      (if last in bound then [] else [describe(last)])
  }

  /** Every required name is checked (no short circuit): a diagnostic appears
      exactly for the names that are not bound. */
  lemma {:induction false} MissingDiagnosticsIff(required: seq<string>, bound: set<string>, describe: string -> string, d: string)
    ensures d in MissingDiagnostics(required, bound, describe) <==>
            exists k :: 0 <= k < |required| && required[k] !in bound && d == describe(required[k])
  {
    if required != [] {
      var init := required[..|required| - 1];
      MissingDiagnosticsIff(init, bound, describe, d);
      assert forall k :: 0 <= k < |init| ==> init[k] == required[k];
    }
  }

  lemma {:induction false} MissingDiagnosticsEmptyIff(required: seq<string>, bound: set<string>, describe: string -> string)
    ensures MissingDiagnostics(required, bound, describe) == [] <==> forall k :: 0 <= k < |required| ==> required[k] in bound
  {
    if required != [] {
      var init := required[..|required| - 1];
      MissingDiagnosticsEmptyIff(init, bound, describe);
      assert forall k :: 0 <= k < |init| ==> init[k] == required[k];
    }
  }

  function PlotDiagnostics(figures: nat): seq<string>
  {
    if figures == 0 then [NO_PLOT] else []
  }

  /** The diagnostics of the three structural checks, for a script that ran and
      bound the names `bound` and left `figures` figures open. */
  function StructuralDiagnostics(bound: set<string>, figures: nat): seq<string>
  {
    MissingDiagnostics(REQUIRED_VARIABLES, bound, MissingVariable) +
    MissingDiagnostics(REQUIRED_FUNCTIONS, bound, MissingFunction) +
    PlotDiagnostics(figures)
  }

  /** With the required lists as they are, the structural checks report, in this
      order, a missing `result`, a missing `my_func` and the absence of a plot. */
  lemma StructuralDiagnosticsExact(bound: set<string>, figures: nat)
    ensures StructuralDiagnostics(bound, figures) ==
            (if "result" in bound then [] else [MissingVariable("result")]) +
            (if "my_func" in bound then [] else [MissingFunction("my_func")]) +
            (if figures == 0 then [NO_PLOT] else [])
  {
    assert REQUIRED_VARIABLES[..0] == [] && REQUIRED_FUNCTIONS[..0] == [];
    assert MissingDiagnostics(REQUIRED_VARIABLES, bound, MissingVariable) ==
           if "result" in bound then [] else [MissingVariable("result")];
    assert MissingDiagnostics(REQUIRED_FUNCTIONS, bound, MissingFunction) ==
           if "my_func" in bound then [] else [MissingFunction("my_func")];
  }

  // ---------------------------------------------------------------------------
  // One call of the checker

  /** The outcome of checking one file when the diagnostics list already holds
      `errors`. */
  function Validate<V, I>(errors: seq<string>, path: string, parse: ParseOutcome, run: Execution<V, I>): (r: Outcome)
    ensures errors <= r.errors
    ensures r.ok ==> r.errors == [] && r.message == Text(CONFIRMED)
    ensures !r.ok && r.errors != [] && r.message.Lines? && parse.Parsed? ==> r.message.lines == r.errors
    // a path without the .py suffix is refused before anything else happens
    ensures !EndsWith(path, ".py") ==> r == Outcome(false, Text(NOT_PY), errors)
    // a syntax error is refused without running the script
    ensures EndsWith(path, ".py") && parse.SyntaxError? ==>
              r == Outcome(false, Lines([SyntaxMessage(parse.detail)]), errors)
    // refused imports only add diagnostics; a run that raises skips the structural checks
    ensures EndsWith(path, ".py") && parse.Parsed? && run.Raised? ==>
              r == Outcome(false, Text(CouldNotRun(run.cause)), errors + ImportDiagnostics(parse.nodes, FORBIDDEN_IMPORTS))
    // a script that runs gains the structural diagnostics after the import ones, and
    // fails, returning the whole list, exactly when that list is not empty
    ensures EndsWith(path, ".py") && parse.Parsed? && run.Ran? ==>
              r.errors == errors + ImportDiagnostics(parse.nodes, FORBIDDEN_IMPORTS) + StructuralDiagnostics(run.namespace.Keys, |run.figures|) &&
              (r.ok <==> r.errors == []) && (!r.ok ==> r.message == Lines(r.errors))
  {
    if !EndsWith(path, ".py") then Outcome(false, Text(NOT_PY), errors)
    else
      match parse
      case SyntaxError(detail) => Outcome(false, Lines([SyntaxMessage(detail)]), errors)
      case Parsed(nodes) =>
        var screened := errors + ImportDiagnostics(nodes, FORBIDDEN_IMPORTS);
        match run
        case Raised(cause) => Outcome(false, Text(CouldNotRun(cause)), screened)
        case Ran(namespace, figures) =>
          var checked := screened + StructuralDiagnostics(namespace.Keys, |figures|);
          if checked != [] then Outcome(false, Lines(checked), checked)
          else Outcome(true, Text(CONFIRMED), checked)
  }

  /** A call confirms the format exactly when the list was empty before it, the
      path ends in .py, the script parses, imports nothing refused, runs, binds
      `result` and `my_func`, and leaves a figure open. */
  lemma ValidateOkIff<V, I>(errors: seq<string>, path: string, parse: ParseOutcome, run: Execution<V, I>)
    ensures Validate(errors, path, parse, run).ok <==>
            errors == [] && EndsWith(path, ".py") && parse.Parsed? &&
            (forall k :: 0 <= k < |parse.nodes| ==> Clean(parse.nodes[k], FORBIDDEN_IMPORTS)) &&
            run.Ran? && "result" in run.namespace && "my_func" in run.namespace && run.figures != []
  {
    if EndsWith(path, ".py") && parse.Parsed? && run.Ran? {
      ImportDiagnosticsEmptyIff(parse.nodes, FORBIDDEN_IMPORTS);
      StructuralDiagnosticsExact(run.namespace.Keys, |run.figures|);
    }
  }

  // ---------------------------------------------------------------------------
  // Successive calls sharing the one diagnostics list

  datatype Call<V, I> = Call(path: string, parse: ParseOutcome, run: Execution<V, I>)

  /** The outcomes of successive calls made in one process, each starting from
      the list the previous one left. */
  function Session<V, I>(errors: seq<string>, calls: seq<Call<V, I>>): (outcomes: seq<Outcome>)
    ensures |outcomes| == |calls|
    ensures forall k :: 0 <= k < |outcomes| ==> errors <= outcomes[k].errors
    ensures forall k :: 0 <= k < |outcomes| ==> outcomes[k].ok ==> outcomes[k].errors == []
    ensures forall k :: 0 < k < |outcomes| ==> outcomes[k - 1].errors <= outcomes[k].errors
    decreases |calls|
  {
    if calls == [] then []
    else
      var o := Validate(errors, calls[0].path, calls[0].parse, calls[0].run);
      [o] + Session(o.errors, calls[1..])
  }

  /** The list is never cleared: what a call leaves is a prefix of what any later
      call leaves, so its length never decreases. */
  lemma {:induction false} SessionErrorsGrow<V, I>(errors: seq<string>, calls: seq<Call<V, I>>, i: nat, j: nat)
    requires i <= j < |calls|
    ensures Session(errors, calls)[i].errors <= Session(errors, calls)[j].errors
    decreases j
  {
    if i < j {
      var outcomes := Session(errors, calls);
      SessionErrorsGrow(errors, calls, i, j - 1);
      var a, b, c := outcomes[i].errors, outcomes[j - 1].errors, outcomes[j].errors;
      assert a == b[..|a|] && b == c[..|b|];
      assert c[..|b|][..|a|] == c[..|a|];
    }
  }

  /** Once a call has left a diagnostic, every later call in the process fails. */
  lemma SessionStaysFailed<V, I>(errors: seq<string>, calls: seq<Call<V, I>>, i: nat, j: nat)
    requires i <= j < |calls|
    requires Session(errors, calls)[i].errors != []
    ensures !Session(errors, calls)[j].ok
  {
    SessionErrorsGrow(errors, calls, i, j);
  }

  // ---------------------------------------------------------------------------
  // The checker object

  class FormatChecker {
    /** Every diagnostic recorded since the process started. */
    var errors: seq<string>

    constructor ()
      ensures errors == []
    {
      errors := [];
    }

    /** The screener that records: one diagnostic per refused import, yet the
        verdict is (true, None) whenever the script parses. */
    method CheckForbiddenImports(parse: ParseOutcome, forbidden: set<string>) returns (ok: bool, message: Option<seq<string>>)
      modifies this
      ensures parse.SyntaxError? ==> !ok && message == Some([SyntaxMessage(parse.detail)]) && errors == old(errors)
      ensures parse.Parsed? ==> ok && message == None && errors == old(errors) + ImportDiagnostics(parse.nodes, forbidden)
    {
      if parse.SyntaxError? {
        return false, Some([SyntaxMessage(parse.detail)]);
      }
      var nodes := parse.nodes;
      var i := 0;
      while i < |nodes|
        invariant 0 <= i <= |nodes|
        invariant errors == old(errors) + ImportDiagnostics(nodes[..i], forbidden)
      {
        RecordForbiddenNode(nodes[i], forbidden);
        ImportDiagnosticsStep(nodes, i, forbidden);
        i := i + 1;
      }
      assert nodes[..i] == nodes;
      return true, None;
    }

    /** The walk's visit of one node: an `import` node records each refused
        alias, a `from` node records its module when that is refused. */
    method RecordForbiddenNode(node: ImportNode, forbidden: set<string>)
      modifies this
      ensures errors == old(errors) + NodeDiagnostics(node, forbidden)
    {
      if node.Import? {
        RecordForbiddenAliases(node.names, forbidden);
      } else if FromIsForbidden(node.source, forbidden) {
        errors := errors + [ForbiddenDiagnostic(node.source.value)];
      }
    }

    /** The inner walk over the aliases of one `import` node: every refused
        alias is recorded, with no early exit. */
    method RecordForbiddenAliases(names: seq<string>, forbidden: set<string>)
      modifies this
      ensures errors == old(errors) + AliasDiagnostics(names, forbidden)
    {
      var j := 0;
      while j < |names|
        invariant 0 <= j <= |names|
        invariant errors == old(errors) + AliasDiagnostics(names[..j], forbidden)
      {
        var name := names[j];
        if IsForbidden(name, forbidden) {
          errors := errors + [ForbiddenDiagnostic(name)];
        }
        assert names[..j + 1][..j] == names[..j];
        j := j + 1;
      }
      assert names[..j] == names;
    }

    /** One of the required-name loops: each name of `required` that the run did
        not bind is recorded, described by `describe`, with no early exit. */
    method RecordMissing(required: seq<string>, bound: set<string>, describe: string -> string)
      modifies this
      ensures errors == old(errors) + MissingDiagnostics(required, bound, describe)
    {
      for i := 0 to |required|
        invariant errors == old(errors) + MissingDiagnostics(required[..i], bound, describe)
      {
        if required[i] !in bound {
          errors := errors + [describe(required[i])];
        }
        assert required[..i + 1][..i] == required[..i];
      }
      assert required[..|required|] == required;
    }

    /** The three structural checks of a script that ran: required variables,
        required functions, and at least one open figure. */
    method CheckStructure(bound: set<string>, figures: nat)
      modifies this
      ensures errors == old(errors) + StructuralDiagnostics(bound, figures)
    {
      RecordMissing(REQUIRED_VARIABLES, bound, MissingVariable);
      RecordMissing(REQUIRED_FUNCTIONS, bound, MissingFunction);
      if figures == 0 {
        errors := errors + [NO_PLOT];
      }
    }

    /** Checks one file; the verdict and the list it leaves are those Validate gives. */
    method CheckStudentFile<V, I>(path: string, parse: ParseOutcome, run: Execution<V, I>) returns (ok: bool, message: Message)
      modifies this
      ensures Outcome(ok, message, errors) == Validate(old(errors), path, parse, run)
    {
      if !EndsWith(path, ".py") {
        return false, Text(NOT_PY);
      }
      var screenedOk, screenMessage := CheckForbiddenImports(parse, FORBIDDEN_IMPORTS);
      if !screenedOk {
        return false, Lines(screenMessage.value);
      }
      if run.Raised? {
        return false, Text(CouldNotRun(run.cause));
      }
      CheckStructure(run.namespace.Keys, |run.figures|);
      if errors != [] {
        return false, Lines(errors);
      }
      return true, Text(CONFIRMED);
    }
  }
}
