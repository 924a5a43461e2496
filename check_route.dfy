/**
 * The diagnostics route: the fixed table of tools, the fallback chain that
 * probes one tool, the report that probes them all in declared order, and
 * the host summary sent beside it.
 */
module CheckRoute {
  import opened Wrappers
  import opened JsStrings
  import opened VersionExtraction
  import opened Host

  /** A tool to detect and the commands that may report its version, in order of preference. */
  datatype ToolCheck = ToolCheck(id: string, displayLabel: string, commands: seq<string>)

  /**
   * What the route reports for one tool. The result spreads the tool into
   * itself, so it carries the tool's `commands` as well.
   */
  datatype ToolResult = ToolResult(
    id: string,
    displayLabel: string,
    commands: seq<string>,
    installed: bool,
    version: Option<string>,
    output: Option<string>,
    error: Option<string>)

  predicate Distinct<T(==)>(s: seq<T>) {
    forall i, j :: 0 <= i < j < |s| ==> s[i] != s[j]
  }

  /** `TOOL_CHECKS`. */
  const ToolChecks: seq<ToolCheck> := [
    ToolCheck("node", "Node.js", ["node --version", "node -v"]),
    ToolCheck("python", "Python", ["python3 --version", "python --version"]),
    ToolCheck("next", "Next.js", ["npx --yes next --version", "npx next --version"]),
    ToolCheck("shadcn", "shadcn/ui", ["npx --yes shadcn@latest --version", "npx shadcn@latest --version"]),
    ToolCheck("tailwind", "Tailwind CSS", ["npx tailwindcss --version"]),
    ToolCheck("fastapi", "FastAPI", [
      "python3 -c \"import fastapi, sys; sys.stdout.write(fastapi.__version__)\"",
      "python -c \"import fastapi, sys; sys.stdout.write(fastapi.__version__)\""]),
    ToolCheck("pnpm", "pnpm", ["pnpm --version"])
  ]

  /** The table has seven tools with distinct ids, each with a non-empty list of distinct commands. */
  lemma ToolChecksWellFormed()
    ensures |ToolChecks| == 7
    ensures forall i, j :: 0 <= i < j < |ToolChecks| ==> ToolChecks[i].id != ToolChecks[j].id
    ensures forall t :: t in ToolChecks ==> t.commands != [] && Distinct(t.commands)
  {
  }

  // ---------------------------------------------------------------------
  // runToolCheck
  // ---------------------------------------------------------------------

  /** The result when a command succeeds: its trimmed, combined output and the version found in it. */
  function Succeeded(tool: ToolCheck, stdout: string, stderr: string): (r: ToolResult)
    ensures r.installed && r.error.None?
    ensures r.output.None? <==> Trim(stdout + stderr) == []
    ensures r.output.Some? ==> r.output.value == Trim(stdout + stderr)
    ensures r.version == ExtractVersion(Some(Trim(stdout + stderr)))
  {
    var combined := Trim(stdout + stderr);
    ToolResult(tool.id, tool.displayLabel, tool.commands, true,
      ExtractVersion(Some(combined)), if combined == [] then None else Some(combined), None)
  }

  /**
   * The result when the last command fails: its message is the error, and
   * its trimmed stderr the output; a blank stderr gives an empty output, a
   * missing one none.
   */
  function FailedLast(tool: ToolCheck, message: string, stderr: Option<string>): (r: ToolResult)
    ensures !r.installed && r.version.None? && r.error == Some(message)
    ensures r.output.None? <==> stderr.None?
    ensures r.output.Some? ==> r.output.value == Trim(stderr.value)
  {
    ToolResult(tool.id, tool.displayLabel, tool.commands, false, None,
      if stderr.Some? then Some(Trim(stderr.value)) else None, Some(message))
  }

  /** The result when no command ran at all: missing, with no output and a fixed error. */
  function NothingRun(tool: ToolCheck): (r: ToolResult)
    ensures CopiesTool(r, tool) && !r.installed && r.version.None? && r.output.None?
    ensures r.error == Some("No commands executed")
  {
    ToolResult(tool.id, tool.displayLabel, tool.commands, false, None, None, Some("No commands executed"))
  }

  /** The test after a failure: the command equals, as a string, the last one of the list. */
  predicate IsLastCommand(tool: ToolCheck, command: string) {
    tool.commands != [] && command == tool.commands[|tool.commands| - 1]
  }

  /**
   * How the chain settles: a command succeeded, a command equal to the last
   * one failed, or no command ran.
   */
  datatype Outcome =
    | Success(stdout: string, stderr: string)
    | LastFailure(message: string, errorStderr: Option<string>)
    | NoCommands

  /** The `(id, label, commands)` spread into every result. */
  predicate CopiesTool(r: ToolResult, tool: ToolCheck) {
    r.id == tool.id && r.displayLabel == tool.displayLabel && r.commands == tool.commands
  }

  /**
   * The result object for an outcome. It always carries the tool; a tool is
   * installed exactly on a success, and then has no error; otherwise it has
   * no version but an error.
   */
  function ResultOf(tool: ToolCheck, outcome: Outcome): (r: ToolResult)
    ensures CopiesTool(r, tool)
    ensures r.installed <==> outcome.Success?
    ensures r.installed ==> r.error.None?
    ensures !r.installed ==> r.version.None? && r.error.Some?
  {
    match outcome
    case Success(stdout, stderr) => Succeeded(tool, stdout, stderr)
    case LastFailure(message, stderr) => FailedLast(tool, message, stderr)
    case NoCommands => NothingRun(tool)
  }

  /** How a probe settled, together with the commands it ran, in order. */
  datatype Run = Run(outcome: Outcome, invoked: seq<string>)

  /**
   * The fallback chain from the `k`-th command on: a success returns at
   * once; a failure of a command equal to the last one returns the failure;
   * any other failure moves on to the next command. Since the last command
   * always equals itself, a chain with commands left never ends without one
   * settling it.
   */
  function RunFrom(tool: ToolCheck, exec: Exec, k: nat): (run: Run)
    requires k <= |tool.commands|
    ensures run.invoked == [] <==> k == |tool.commands|
    ensures run.outcome.NoCommands? <==> k == |tool.commands|
    decreases |tool.commands| - k
  {
    if k == |tool.commands| then Run(NoCommands, [])
    else
      var command := tool.commands[k];
      match exec(command)
      case Completed(stdout, stderr) => Run(Success(stdout, stderr), [command])
      case Failed(message, stderr) =>
        if IsLastCommand(tool, command) then Run(LastFailure(message, stderr), [command])
        else
          var rest := RunFrom(tool, exec, k + 1);
          Run(rest.outcome, [command] + rest.invoked)
  }

  /**
   * What `runToolCheck` reports for a tool. A tool is installed only when
   * one of its commands succeeded; a tool without commands is reported with
   * the fixed `No commands executed` error.
   */
  function ProbeResult(tool: ToolCheck, exec: Exec): (r: ToolResult)
    ensures CopiesTool(r, tool)
    ensures r.installed ==> exists c :: c in tool.commands && exec(c).Completed?
    ensures tool.commands == [] ==> r == NothingRun(tool)
  {
    SuccessRanCommand(tool, exec);
    ResultOf(tool, RunFrom(tool, exec, 0).outcome)
  }

  /** A chain that ends in success ran a command of the list that completed. */
  lemma SuccessRanCommand(tool: ToolCheck, exec: Exec)
    ensures RunFrom(tool, exec, 0).outcome.Success? ==>
      exists c :: c in tool.commands && exec(c).Completed?
  {
    if tool.commands != [] {
      RunFromDecided(tool, exec, 0);
      RunFromRunsInOrder(tool, exec, 0);
      var run := RunFrom(tool, exec, 0);
      var n := |run.invoked|;
      assert run.invoked[n - 1] == tool.commands[n - 1];
    }
  }

  /** The chain runs commands in list order: a contiguous run of the list from the `k`-th command. */
  lemma {:induction false} RunFromRunsInOrder(tool: ToolCheck, exec: Exec, k: nat)
    requires k <= |tool.commands|
    ensures var run := RunFrom(tool, exec, k);
      k + |run.invoked| <= |tool.commands| && run.invoked == tool.commands[k..k + |run.invoked|]
    decreases |tool.commands| - k
  {
    if k < |tool.commands| {
      var command := tool.commands[k];
      if exec(command).Failed? && !IsLastCommand(tool, command) {
        RunFromRunsInOrder(tool, exec, k + 1);
        var rest := RunFrom(tool, exec, k + 1).invoked;
        assert RunFrom(tool, exec, k).invoked == [command] + rest;
        assert tool.commands[k..k + 1 + |rest|] == [command] + tool.commands[k + 1..k + 1 + |rest|];
      }
    }
  }

  /**
   * `runToolCheck`: tries the tool's commands in order and returns the
   * result of the chain; `invoked` records every command it ran.
   */
  method RunToolCheck(tool: ToolCheck, exec: Exec) returns (result: ToolResult, ghost invoked: seq<string>)
    ensures result == ProbeResult(tool, exec)
    ensures invoked == RunFrom(tool, exec, 0).invoked
  {
    invoked := [];
    for i := 0 to |tool.commands|
      invariant invoked == tool.commands[..i]
      invariant forall j :: 0 <= j < i ==> FallsThrough(tool, exec, tool.commands[j])
    {
      var command := tool.commands[i];
      assert tool.commands[..i + 1] == invoked + [command];
      invoked := invoked + [command];
      match exec(command)
      case Completed(stdout, stderr) =>
        ChainReaches(tool, exec, i);
        RunFromStep(tool, exec, i);
        return Succeeded(tool, stdout, stderr), invoked;
      case Failed(message, stderr) =>
        if IsLastCommand(tool, command) {
          ChainReaches(tool, exec, i);
          RunFromStep(tool, exec, i);
          return FailedLast(tool, message, stderr), invoked;
        }
    }
    ChainReaches(tool, exec, |tool.commands|);
    assert tool.commands[..|tool.commands|] == tool.commands;
    result := NothingRun(tool);
  }

  /** The chain moves past `command`: it failed and is not equal to the last command. */
  predicate FallsThrough(tool: ToolCheck, exec: Exec, command: string) {
    exec(command).Failed? && !IsLastCommand(tool, command)
  }

  /**
   * When the first `k` commands all fall through, the chain from the start
   * has run them and then behaves as the chain from the `k`-th command.
   */
  lemma {:induction false} ChainReaches(tool: ToolCheck, exec: Exec, k: nat)
    requires k <= |tool.commands|
    requires forall j :: 0 <= j < k ==> FallsThrough(tool, exec, tool.commands[j])
    ensures RunFrom(tool, exec, 0).outcome == RunFrom(tool, exec, k).outcome
    ensures RunFrom(tool, exec, 0).invoked == tool.commands[..k] + RunFrom(tool, exec, k).invoked
  {
    if k > 0 {
      ChainReaches(tool, exec, k - 1);
      var command := tool.commands[k - 1];
      assert FallsThrough(tool, exec, command);
      var rest := RunFrom(tool, exec, k).invoked;
      var before := tool.commands[..k - 1];
      assert RunFrom(tool, exec, k - 1).invoked == [command] + rest;
      assert before + ([command] + rest) == (before + [command]) + rest;
      assert tool.commands[..k] == before + [command];
    }
  }

  /** One step of the chain at the `k`-th command. */
  lemma RunFromStep(tool: ToolCheck, exec: Exec, k: nat)
    requires k < |tool.commands|
    ensures var command := tool.commands[k];
      RunFrom(tool, exec, k) ==
        match exec(command)
        case Completed(stdout, stderr) => Run(Success(stdout, stderr), [command])
        case Failed(message, stderr) =>
          if IsLastCommand(tool, command) then Run(LastFailure(message, stderr), [command])
          else Run(RunFrom(tool, exec, k + 1).outcome, [command] + RunFrom(tool, exec, k + 1).invoked)
  {
  }

  // ---------------------------------------------------------------------
  // What the chain promises.
  // ---------------------------------------------------------------------

  /**
   * The command a chain ran last decides its outcome: a success gives the
   * success outcome; a failure does so only when the command equals the
   * list's last one.
   */
  predicate Decides(tool: ToolCheck, exec: Exec, command: string, outcome: Outcome) {
    match exec(command)
    case Completed(stdout, stderr) => outcome == Success(stdout, stderr)
    case Failed(message, stderr) => IsLastCommand(tool, command) && outcome == LastFailure(message, stderr)
  }

  /** Every command of `invoked` but the last failed and differs from the list's last command. */
  predicate FellThrough(tool: ToolCheck, exec: Exec, invoked: seq<string>) {
    forall j :: 0 <= j < |invoked| - 1 ==> FallsThrough(tool, exec, invoked[j])
  }

  /** A chain moves on from a command only when it failed and is not the last one. */
  lemma {:induction false} RunFromFallsThrough(tool: ToolCheck, exec: Exec, k: nat)
    requires k <= |tool.commands|
    ensures FellThrough(tool, exec, RunFrom(tool, exec, k).invoked)
    decreases |tool.commands| - k
  {
    if k < |tool.commands| {
      var command := tool.commands[k];
      if FallsThrough(tool, exec, command) {
        RunFromFallsThrough(tool, exec, k + 1);
        var rest := RunFrom(tool, exec, k + 1).invoked;
        var inv := [command] + rest;
        assert RunFrom(tool, exec, k).invoked == inv;
        forall j | 0 <= j < |inv| - 1
          ensures FallsThrough(tool, exec, inv[j])
        {
          if j > 0 {
            assert inv[j] == rest[j - 1];
          }
        }
      }
    }
  }

  /** The command a chain ran last decides its outcome. */
  lemma {:induction false} RunFromDecided(tool: ToolCheck, exec: Exec, k: nat)
    requires k < |tool.commands|
    ensures var run := RunFrom(tool, exec, k);
      Decides(tool, exec, run.invoked[|run.invoked| - 1], run.outcome)
    decreases |tool.commands| - k
  {
    var command := tool.commands[k];
    if FallsThrough(tool, exec, command) {
      RunFromDecided(tool, exec, k + 1);
      var rest := RunFrom(tool, exec, k + 1);
      assert RunFrom(tool, exec, k) == Run(rest.outcome, [command] + rest.invoked);
      assert ([command] + rest.invoked)[|rest.invoked|] == rest.invoked[|rest.invoked| - 1];
    }
  }

  /** The first command succeeding decides the result, and nothing else runs. */
  lemma FirstSuccessWins(tool: ToolCheck, exec: Exec)
    requires tool.commands != [] && exec(tool.commands[0]).Completed?
    ensures var out := exec(tool.commands[0]);
      && RunFrom(tool, exec, 0) == Run(Success(out.stdout, out.stderr), [tool.commands[0]])
      && ProbeResult(tool, exec) == Succeeded(tool, out.stdout, out.stderr)
  {
  }

  /**
   * When every command fails the tool is reported missing, with the error
   * and trimmed stderr of the last command, and the chain stopped at a
   * command equal to it.
   */
  lemma {:induction false} AllFailing(tool: ToolCheck, exec: Exec, k: nat)
    requires k < |tool.commands|
    requires forall c :: c in tool.commands ==> exec(c).Failed?
    ensures var run := RunFrom(tool, exec, k);
      var last := exec(tool.commands[|tool.commands| - 1]);
      && run.outcome == LastFailure(last.message, last.errorStderr)
      && IsLastCommand(tool, run.invoked[|run.invoked| - 1])
    decreases |tool.commands| - k
  {
    var command := tool.commands[k];
    assert exec(command).Failed?;
    if !IsLastCommand(tool, command) {
      AllFailing(tool, exec, k + 1);
      var rest := RunFrom(tool, exec, k + 1).invoked;
      assert RunFrom(tool, exec, k).invoked == [command] + rest;
      assert ([command] + rest)[|rest|] == rest[|rest| - 1];
    }
  }

  /** When every command fails, the report for the tool is the last command's failure. */
  lemma ProbeResultAllFailing(tool: ToolCheck, exec: Exec)
    requires tool.commands != []
    requires forall c :: c in tool.commands ==> exec(c).Failed?
    ensures var last := exec(tool.commands[|tool.commands| - 1]);
      ProbeResult(tool, exec) == FailedLast(tool, last.message, last.errorStderr)
  {
    AllFailing(tool, exec, 0);
  }

  // ---------------------------------------------------------------------
  // The chain read by position, and when the two readings agree.
  // ---------------------------------------------------------------------

  /** The chain with the last command recognised by its position in the list. */
  function RunByPosition(tool: ToolCheck, exec: Exec, k: nat): Run
    requires k <= |tool.commands|
    decreases |tool.commands| - k
  {
    if k == |tool.commands| then Run(NoCommands, [])
    else
      var command := tool.commands[k];
      match exec(command)
      case Completed(stdout, stderr) => Run(Success(stdout, stderr), [command])
      case Failed(message, stderr) =>
        if k == |tool.commands| - 1 then Run(LastFailure(message, stderr), [command])
        else
          var rest := RunByPosition(tool, exec, k + 1);
          Run(rest.outcome, [command] + rest.invoked)
  }

  /** With distinct commands, comparing by value is comparing by position. */
  lemma {:induction false} DistinctCommandsRunByPosition(tool: ToolCheck, exec: Exec, k: nat)
    requires k <= |tool.commands| && Distinct(tool.commands)
    ensures RunFrom(tool, exec, k) == RunByPosition(tool, exec, k)
    decreases |tool.commands| - k
  {
    if k < |tool.commands| {
      assert IsLastCommand(tool, tool.commands[k]) <==> k == |tool.commands| - 1;
      if k < |tool.commands| - 1 {
        DistinctCommandsRunByPosition(tool, exec, k + 1);
      }
    }
  }

  /** Read by position, the chain succeeds exactly when a command from the `k`-th on completes. */
  lemma {:induction false} RunByPositionSucceeds(tool: ToolCheck, exec: Exec, k: nat)
    requires k <= |tool.commands|
    ensures RunByPosition(tool, exec, k).outcome.Success? <==>
      exists j :: k <= j < |tool.commands| && exec(tool.commands[j]).Completed?
    decreases |tool.commands| - k
  {
    var cmds := tool.commands;
    if k < |cmds| {
      if exec(cmds[k]).Completed? {
        assert k <= k < |cmds| && exec(cmds[k]).Completed?;
      } else if k < |cmds| - 1 {
        RunByPositionSucceeds(tool, exec, k + 1);
        if exists j :: k <= j < |cmds| && exec(cmds[j]).Completed? {
          var j :| k <= j < |cmds| && exec(cmds[j]).Completed?;
          assert k + 1 <= j;
        }
      }
    }
  }

  /**
   * With distinct commands, as in the shipped table, a tool is reported
   * installed exactly when one of its commands completes.
   */
  lemma ProbeResultInstalled(tool: ToolCheck, exec: Exec)
    requires Distinct(tool.commands)
    ensures ProbeResult(tool, exec).installed <==> exists c :: c in tool.commands && exec(c).Completed?
  {
    DistinctCommandsRunByPosition(tool, exec, 0);
    RunByPositionSucceeds(tool, exec, 0);
    if exists c :: c in tool.commands && exec(c).Completed? {
      var c :| c in tool.commands && exec(c).Completed?;
      var j :| 0 <= j < |tool.commands| && tool.commands[j] == c;
    }
  }

  /**
   * With a repeated command the two readings part: a failing first copy of
   * the last command ends the chain before a later command that succeeds.
   */
  lemma RepeatedLastCommandStopsEarly()
    ensures var tool := ToolCheck("t", "T", ["a", "b", "a"]);
      var exec: Exec := c => if c == "b" then Completed("1.0.0", "") else Failed("missing", None);
      && RunFrom(tool, exec, 0) == Run(LastFailure("missing", None), ["a"])
      && RunByPosition(tool, exec, 0).outcome == Success("1.0.0", "")
  {
    var tool := ToolCheck("t", "T", ["a", "b", "a"]);
    var exec: Exec := c => if c == "b" then Completed("1.0.0", "") else Failed("missing", None);
    assert IsLastCommand(tool, "a");
    assert exec("a").Failed? && exec("b").Completed?;
  }

  // ---------------------------------------------------------------------
  // GET: every tool of the table, in declared order, and the host summary.
  // ---------------------------------------------------------------------

  /** The host summary of the diagnostics report. */
  datatype SystemSummary = SystemSummary(
    hostname: string,
    platform: string,
    release: string,
    arch: string,
    cpuModel: Option<string>,
    cpuCores: nat,
    totalMemBytes: nat,
    freeMemBytes: nat,
    uptimeSeconds: nat,
    loadAverage: seq<real>)

  /** `getSystemInfo`: the snapshot's values, with the first CPU's model and the CPU count. */
  function SummarizeHost(os: OsSnapshot): (info: SystemSummary)
    ensures info.cpuCores == |os.cpus|
    ensures info.cpuModel.None? <==> os.cpus == []
    ensures info.cpuModel.Some? ==> info.cpuModel.value == os.cpus[0].model
    ensures info.hostname == os.hostname && info.platform == os.platform
    ensures info.release == os.release && info.arch == os.arch
    ensures info.totalMemBytes == os.totalMem && info.freeMemBytes == os.freeMem
    ensures info.uptimeSeconds == os.uptime && info.loadAverage == os.loadAverage
  {
    SystemSummary(os.hostname, os.platform, os.release, os.arch, PrimaryCpuModel(os.cpus),
      |os.cpus|, os.totalMem, os.freeMem, os.uptime, os.loadAverage)
  }

  /** `tools.map(runToolCheck)`: one result per tool, in the tools' order. */
  method CheckTools(tools: seq<ToolCheck>, exec: Exec) returns (results: seq<ToolResult>)
    ensures |results| == |tools|
    ensures forall i :: 0 <= i < |tools| ==> results[i] == ProbeResult(tools[i], exec)
    ensures forall i :: 0 <= i < |tools| ==> CopiesTool(results[i], tools[i])
  {
    results := [];
    for i := 0 to |tools|
      invariant |results| == i
      invariant forall j :: 0 <= j < i ==> results[j] == ProbeResult(tools[j], exec)
    {
      var r, _ := RunToolCheck(tools[i], exec);
      results := results + [r];
    }
  }

  datatype CheckReport = CheckReport(results: seq<ToolResult>, system: SystemSummary)

  /**
   * `GET`: the seven results in the table's order and the host summary.
   * When no command of any tool succeeds, every tool is reported missing.
   */
  method Get(os: OsSnapshot, exec: Exec) returns (report: CheckReport)
    ensures |report.results| == |ToolChecks| == 7
    ensures forall i :: 0 <= i < 7 ==>
      && report.results[i] == ProbeResult(ToolChecks[i], exec)
      && CopiesTool(report.results[i], ToolChecks[i])
    ensures (forall c :: exec(c).Failed?) ==>
      forall i :: 0 <= i < 7 ==> !report.results[i].installed && report.results[i].error.Some?
    ensures report.system == SummarizeHost(os)
  {
    ToolChecksWellFormed();
    var results := CheckTools(ToolChecks, exec);
    if forall c :: exec(c).Failed? {
      forall i | 0 <= i < 7
        ensures !results[i].installed && results[i].error.Some?
      {
        assert ToolChecks[i] in ToolChecks;
        ProbeResultAllFailing(ToolChecks[i], exec);
      }
    }
    report := CheckReport(results, SummarizeHost(os));
  }
}
