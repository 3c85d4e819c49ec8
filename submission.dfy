/** A student submission as the two tools see it: the import statements that
    parsing the script yields, and what executing it as a module leaves behind.
    Parsing and execution themselves happen outside the model; their outcomes
    are inputs. */
module Submission {

  datatype Option<T> = None | Some(value: T)

  /** One import statement of a parsed script. `import a.b, c` lists its alias
      names; `from m import x` carries its module as `source`, which is None for a relative
      import such as `from . import x`. */
  datatype ImportNode = Import(names: seq<string>) | ImportFrom(source: Option<string>)

  /** The outcome of parsing a script: a syntax error with its description, or
      the script's import statements in the order the syntax-tree walk meets them. */
  datatype ParseOutcome = SyntaxError(detail: string) | Parsed(nodes: seq<ImportNode>)

  /** The outcome of executing a script as a module: the exception it raised, or
      the names its top level bound (with their values) and the figures it
      created and left open, in creation order. */
  datatype Execution<V, I> = Raised(cause: string) | Ran(namespace: map<string, V>, figures: seq<I>)

  /** The capability modules a submission may not import. */
  const FORBIDDEN_IMPORTS: set<string> := {"os", "sys", "subprocess", "shutil"}

  /** The diagnostic both screeners return when the script does not parse. */
  function SyntaxMessage(detail: string): string
  {
    "Syntax error while parsing file: " + detail
  }

  /** `name.split(".")[0]`: the top-level module of a dotted import target. */
  function TopLevel(name: string): string
  {
    if name == [] || name[0] == '.' then [] else [name[0]] + TopLevel(name[1..])
  }

  /** The top-level name is the prefix of the target up to its first `.`: it has
      no `.` and is followed by a `.` or by the end of the target. */
  lemma {:induction false} TopLevelSpec(name: string)
    ensures TopLevel(name) <= name && '.' !in TopLevel(name)
    ensures |TopLevel(name)| < |name| ==> name[|TopLevel(name)|] == '.'
  {
    if name != [] && name[0] != '.' {
      TopLevelSpec(name[1..]);
    }
  }

  /** The three properties of TopLevelSpec pin the top-level name down: no other
      prefix of `name` has them. */
  lemma TopLevelUnique(name: string, r: string)
    requires r <= name && '.' !in r
    requires |r| < |name| ==> name[|r|] == '.'
    ensures r == TopLevel(name)
  {
    TopLevelSpec(name);
  }

  /** `name` is the module `m` itself or a submodule of it. */
  predicate NamesModule(name: string, m: string)
  {
    name == m || m + "." <= name
  }

  /** An import target is refused exactly when its top-level module is in the
      refused set. */
  predicate IsForbidden(name: string, forbidden: set<string>)
  {
    TopLevel(name) in forbidden
  }

  /** A `from m import x` node is refused only when `m` is present and non-empty
      and its top-level module is refused. */
  predicate FromIsForbidden(source: Option<string>, forbidden: set<string>)
  {
    source.Some? && source.value != "" && IsForbidden(source.value, forbidden)
  }

  /** The screening test holds exactly when the target is a refused module or
      one of its submodules; a name that merely begins with a refused name
      (`osx`) is not caught. */
  lemma IsForbiddenIff(name: string, forbidden: set<string>)
    ensures IsForbidden(name, forbidden) <==>
            exists m :: m in forbidden && '.' !in m && NamesModule(name, m)
  {
    var t := TopLevel(name);
    TopLevelSpec(name);
    if IsForbidden(name, forbidden) {
      if |t| < |name| {
        assert name[..|t| + 1] == t + ".";
        assert t + "." <= name;
      }
      assert NamesModule(name, t);
    }
    if m :| m in forbidden && '.' !in m && NamesModule(name, m) {
      if name != m {
        assert name[|m|] == (m + ".")[|m|] == '.';
      }
      TopLevelUnique(name, m);
    }
  }

  /** `os.path` is refused as `os`, and a relative `from . import x` is never
      refused. */
  lemma ForbiddenExamples()
    ensures IsForbidden("os.path", FORBIDDEN_IMPORTS)
    ensures !FromIsForbidden(None, FORBIDDEN_IMPORTS)
  {
    var target := "os.path";
    assert target[..2] == "os" && target[2] == '.';
    TopLevelUnique(target, "os");
  }

  /** A name that merely begins with a refused name is not refused: `osx` is
      its own top-level module. */
  lemma PrefixNotForbidden()
    ensures !IsForbidden("osx", FORBIDDEN_IMPORTS)
  {
    TopLevelUnique("osx", "osx");
  }

  /** `s.endswith(suffix)`. */
  predicate EndsWith(s: string, suffix: string)
  {
    |suffix| <= |s| && s[|s| - |suffix|..] == suffix
  }
}
