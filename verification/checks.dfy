/**
 * The check runner: it picks the checks to run by name, runs each command,
 * maps what happened to a return code and an output, and folds the results
 * into a JSON report with a `failed` verdict and a process exit code.
 *
 * Running a command is not modelled: `run` says how each command ends
 * (a finished process, a timeout, or any other exception), and `identity`
 * is what `git log` printed, or `None` when it failed.
 */
module Checks {
  import opened Common
  import opened Text

  /** A named check and the command line that runs it. */
  datatype Check = Check(name: string, cmd: string)

  /** The checks the runner knows, in the order they run. */
  const Catalogue: seq<Check> := [
    Check("mypy", "mypy --strict backend"),
    Check("pylint", "pylint backend --output-format=text"),
    Check("py_compile", "python -m py_compile backend/*.py"),
    Check("pytest", "pytest -q")
  ]

  /** Seconds each command may run. */
  const Timeout: nat := 300

  /** Characters of output kept per check in the report. */
  const OutputLimit: nat := 200000

  /** The return code reported for a command that ran out of time. */
  const TimeoutCode: int := 124

  /** How running one command ended. A missing stream is `None`. */
  datatype Outcome =
    | Completed(returncode: int, stdout: Option<string>, stderr: Option<string>)
    | TimedOut
    | Raised(message: string)

  datatype CmdResult = CmdResult(returncode: int, output: string)

  /** One entry of the report's `checks` list. */
  datatype Entry = Entry(name: string, returncode: int, output: string)

  /** The JSON report the runner writes. */
  datatype Report = Report(failed: bool, checks: seq<Entry>, author: string)

  /** The checks of `cs` whose name is listed in `names`, in the order of `cs`. */
  function KeepNamed(cs: seq<Check>, names: seq<string>): (r: seq<Check>)
    ensures forall c :: c in r <==> c in cs && c.name in names
    ensures IsSubsequence(r, cs)
  {
    if |cs| == 0 then []
    else if cs[0].name in names then [cs[0]] + KeepNamed(cs[1..], names)
    else KeepNamed(cs[1..], names)
  }

  /**
   * The checks to run: all of them when no names are given or the list is
   * empty; otherwise those whose name is listed, in catalogue order, with
   * unknown names ignored.
   */
  function SelectChecks(names: Option<seq<string>>): (r: seq<Check>)
    ensures names.None? || |names.value| == 0 ==> r == Catalogue
    ensures names.Some? && |names.value| > 0 ==>
              forall c :: c in r <==> c in Catalogue && c.name in names.value
    ensures IsSubsequence(r, Catalogue)
  {
    if names.None? || |names.value| == 0 then Catalogue else KeepNamed(Catalogue, names.value)
  }

  /**
   * `run_cmd`: a finished process gives its return code and its standard
   * output followed by its standard error; a timeout gives 124, any other
   * exception gives 1, each with a line naming the command.
   */
  function RunCmd(cmd: string, timeout: nat, outcome: Outcome): (r: CmdResult)
    ensures outcome.Completed? ==> r.returncode == outcome.returncode
    ensures outcome.Completed? ==> r.output == outcome.stdout.GetOr("") + outcome.stderr.GetOr("")
    ensures outcome.TimedOut? ==> r.returncode == TimeoutCode
    ensures outcome.TimedOut? ==> r.output == "Timeout (" + NatToString(timeout) + "s) while running: " + cmd + "\n"
    ensures outcome.Raised? ==> r.returncode == 1
    ensures outcome.Raised? ==> r.output == "Error running " + cmd + ": " + outcome.message + "\n"
  {
    match outcome
    case Completed(code, out, err) => CmdResult(code, out.GetOr("") + err.GetOr(""))
    case TimedOut => CmdResult(TimeoutCode, "Timeout (" + NatToString(timeout) + "s) while running: " + cmd + "\n")
    case Raised(msg) => CmdResult(1, "Error running " + cmd + ": " + msg + "\n")
  }

  /** A command counts as passed only when its process finished with code 0. */
  lemma RunCmdFailsUnlessZero(cmd: string, timeout: nat, outcome: Outcome)
    ensures RunCmd(cmd, timeout, outcome).returncode == 0 <==> outcome.Completed? && outcome.returncode == 0
  {
  }

  /** A command that did not finish names itself in its output. */
  lemma RunCmdNamesUnfinished(cmd: string, timeout: nat, outcome: Outcome)
    ensures outcome.TimedOut? ==> EndsWith(RunCmd(cmd, timeout, outcome).output, cmd + "\n")
    ensures outcome.Raised? ==> StartsWith(RunCmd(cmd, timeout, outcome).output, "Error running " + cmd)
  {
  }

  /** Python's `s[:n]`. */
  function Truncate(s: string, n: nat): (r: string)
    ensures |r| == if |s| <= n then |s| else n
    ensures StartsWith(s, r)
  {
    if |s| <= n then s else s[..n]
  }

  /** `get_last_author`: the trimmed identity `git log` printed, or "unknown" when it failed. */
  function LastAuthor(identity: Option<string>): (r: string)
    ensures identity.None? ==> r == "unknown"
    ensures identity.Some? ==> Trimmed(r, Whitespace) && |r| <= |identity.value|
    ensures identity.Some? ==> r == Strip(identity.value)
  {
    match identity
    case None => "unknown"
    case Some(out) => Strip(out)
  }

  /**
   * An identity printed without surrounding whitespace is reported as it is,
   * and reading back a reported author gives the same author.
   */
  lemma LastAuthorKeepsCleanIdentity(out: string)
    ensures Trimmed(out, Whitespace) ==> LastAuthor(Some(out)) == out
    ensures LastAuthor(Some(LastAuthor(Some(out)))) == LastAuthor(Some(out))
  {
    if Trimmed(out, Whitespace) {
      StripCharsTrimmed(out, Whitespace);
    }
    StripCharsIdempotent(out, Whitespace);
  }

  /**
   * The report entry for one executed check: its name, a return code that is
   * 0 only for a process that finished with 0, and the command's output cut
   * to its first `OutputLimit` characters.
   */
  function EntryFor(c: Check, outcome: Outcome): (e: Entry)
    ensures e.name == c.name
    ensures e.returncode == RunCmd(c.cmd, Timeout, outcome).returncode
    ensures e.returncode == 0 <==> outcome.Completed? && outcome.returncode == 0
    ensures |e.output| <= OutputLimit
    ensures var out := RunCmd(c.cmd, Timeout, outcome).output;
            |e.output| == (if |out| <= OutputLimit then |out| else OutputLimit)
    ensures StartsWith(RunCmd(c.cmd, Timeout, outcome).output, e.output)
  {
    var res := RunCmd(c.cmd, Timeout, outcome);
    Entry(c.name, res.returncode, Truncate(res.output, OutputLimit))
  }

  /** The entries for `cs`, run in order. */
  function Entries(cs: seq<Check>, run: string -> Outcome): (r: seq<Entry>)
    ensures |r| == |cs|
    ensures forall i :: 0 <= i < |cs| ==> r[i] == EntryFor(cs[i], run(cs[i].cmd))
  {
    if |cs| == 0 then [] else Entries(cs[..|cs| - 1], run) + [EntryFor(cs[|cs| - 1], run(cs[|cs| - 1].cmd))]
  }

  /** Some entry records a non-zero return code. */
  predicate AnyFailed(es: seq<Entry>) {
    exists i :: 0 <= i < |es| && es[i].returncode != 0
  }

  /**
   * The report `main` writes: one entry per selected check in order, the
   * author `git log` gave, and `failed` exactly when some entry's code is not 0.
   */
  function BuildReport(names: Option<seq<string>>, run: string -> Outcome, identity: Option<string>): (r: Report)
    ensures r.author == LastAuthor(identity)
    ensures |r.checks| == |SelectChecks(names)|
    ensures forall i :: 0 <= i < |r.checks| ==> r.checks[i].name == SelectChecks(names)[i].name
    ensures forall i :: 0 <= i < |r.checks| ==>
              r.checks[i] == EntryFor(SelectChecks(names)[i], run(SelectChecks(names)[i].cmd))
    ensures r.failed <==> exists i :: 0 <= i < |r.checks| && r.checks[i].returncode != 0
  {
    var es := Entries(SelectChecks(names), run);
    Report(AnyFailed(es), es, LastAuthor(identity))
  }

  /** The process exit status for a report. */
  function ExitCode(report: Report): (code: int)
    ensures code == 0 || code == 1
    ensures code == 1 <==> report.failed
  {
    if report.failed then 1 else 0
  }

  /**
   * The loop of `main`: runs `toRun` one after another, appending one entry
   * per check and setting `failed` as soon as one returns non-zero.
   */
  method RunAll(toRun: seq<Check>, run: string -> Outcome) returns (entries: seq<Entry>, failed: bool)
    ensures |entries| == |toRun|
    ensures forall i :: 0 <= i < |toRun| ==>
              var res := RunCmd(toRun[i].cmd, Timeout, run(toRun[i].cmd));
              && entries[i].name == toRun[i].name
              && entries[i].returncode == res.returncode
              && entries[i].output == Truncate(res.output, OutputLimit)
    ensures failed <==> exists i :: 0 <= i < |entries| && entries[i].returncode != 0
    ensures entries == Entries(toRun, run)
  {
    entries := [];
    failed := false;
    var i := 0;
    while i < |toRun|
      invariant 0 <= i <= |toRun|
      invariant entries == Entries(toRun[..i], run)
      invariant failed <==> AnyFailed(entries)
      decreases |toRun| - i
    {
      var chk := toRun[i];
      var res := RunCmd(chk.cmd, Timeout, run(chk.cmd));
      var entry := Entry(chk.name, res.returncode, Truncate(res.output, OutputLimit));
      assert toRun[..i + 1][..i] == toRun[..i];
      entries := entries + [entry];
      if res.returncode != 0 {
        failed := true;
      }
      assert entries[i] == entry;
      i := i + 1;
    }
    assert toRun[..|toRun|] == toRun;
  }

  /** `main`: the report for the selected checks, and the exit status that goes with it. */
  method RunChecks(names: Option<seq<string>>, run: string -> Outcome, identity: Option<string>)
    returns (report: Report, code: int)
    ensures report.author == LastAuthor(identity)
    ensures |report.checks| == |SelectChecks(names)|
    ensures report.failed <==> exists i :: 0 <= i < |report.checks| && report.checks[i].returncode != 0
    ensures code == 1 <==> report.failed
    ensures code == 0 <==> !report.failed
    ensures report == BuildReport(names, run, identity)
  {
    var toRun := SelectChecks(names);
    var entries, failed := RunAll(toRun, run);
    report := Report(failed, entries, LastAuthor(identity));
    code := if report.failed then 1 else 0;
  }

  /** With no check run, the report has not failed and the exit status is 0. */
  lemma NothingRunPasses(names: Option<seq<string>>, run: string -> Outcome, identity: Option<string>)
    requires SelectChecks(names) == []
    ensures var r := BuildReport(names, run, identity);
            r.checks == [] && !r.failed && ExitCode(r) == 0
  {
  }

  /** A list naming no known check selects nothing, so it runs nothing. */
  lemma UnknownNamesSelectNothing(names: seq<string>)
    requires |names| > 0
    requires forall i :: 0 <= i < |Catalogue| ==> Catalogue[i].name !in names
    ensures SelectChecks(Some(names)) == []
  {
  }

  /** The report fails exactly when some selected command did not finish with code 0. */
  lemma FailedIffSomeCommandFailed(names: Option<seq<string>>, run: string -> Outcome, identity: Option<string>)
    ensures var cs := SelectChecks(names);
            BuildReport(names, run, identity).failed <==>
              exists i :: 0 <= i < |cs| && !(run(cs[i].cmd).Completed? && run(cs[i].cmd).returncode == 0)
  {
  }
}
