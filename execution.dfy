/** Running and querying a step through its script (runner.py run_step and
    query_step_status). The shell (os.system, subprocess.call) is a Host
    object that records every command it is given and reports the exit status
    the environment chooses; the optional log file is a LogFile object whose
    lines are appended to. */
module Execution {
  import opened Registry

  /** The operating system as the runner sees it. */
  class Host {
    /** The exit status the host reports for its n-th command. */
    const reply: (nat, string) -> int
    /** Every command handed to the shell so far, in order. */
    var invoked: seq<string>

    constructor (reply: (nat, string) -> int)
      ensures this.reply == reply && invoked == []
    {
      this.reply := reply;
      invoked := [];
    }

    /** os.system(cmd) / subprocess.call(cmd, shell=True) */
    method System(cmd: string) returns (status: int)
      modifies this
      ensures invoked == old(invoked) + [cmd]
      ensures status == reply(|old(invoked)|, cmd)
    {
      status := reply(|invoked|, cmd);
      invoked := invoked + [cmd];
    }
  }

  /** A log file opened for appending. */
  class LogFile {
    var lines: seq<string>

    constructor (existing: seq<string>)
      ensures lines == existing
    {
      lines := existing;
    }

    /** log.write(line + "\n") */
    method Write(line: string)
      modifies this
      ensures lines == old(lines) + [line]
    {
      lines := lines + [line];
    }
  }

  /** The word passed to the script for the target state. */
  function Action(enable: bool): string {
    if enable then "enable" else "disable"
  }

  /** `bash -c 'source {script}; {body}'` */
  function ShellCommand(script: string, body: string): string {
    "bash -c 'source " + script + "; " + body + "'"
  }

  /** The command run_step builds. */
  function RunCommand(script: string, action: string, param: string): string {
    ShellCommand(script, action + " " + param)
  }

  /** The command query_step_status builds. */
  function QueryCommand(script: string): string {
    ShellCommand(script, "query")
  }

  /** The line run_step logs for a command. */
  function LogLine(cmd: string, dryRun: bool): string {
    if dryRun then "[DRY-RUN] " + cmd else cmd
  }

  /** The commands that reach the shell: none in a dry run. */
  function Executed(dryRun: bool, cmds: seq<string>): seq<string> {
    if dryRun then [] else cmds
  }

  /** A zero exit status is success; any other is failure. */
  predicate Succeeded(status: int) {
    status == 0
  }

  /** A run command names its action and parameter unambiguously: two
      commands for the same script are equal only if both the enable/disable
      choice and the parameter are. */
  lemma RunCommandDeterminesRequest(script: string, e1: bool, p1: string, e2: bool, p2: string)
    requires RunCommand(script, Action(e1), p1) == RunCommand(script, Action(e2), p2)
    ensures e1 == e2 && p1 == p2
  {
    var pre := "bash -c 'source " + script + "; ";
    var c1 := RunCommand(script, Action(e1), p1);
    var c2 := RunCommand(script, Action(e2), p2);
    assert c1 == pre + (Action(e1) + " " + p1 + "'");
    assert c2 == pre + (Action(e2) + " " + p2 + "'");
    assert c1[|pre|] == Action(e1)[0];
    assert c2[|pre|] == Action(e2)[0];
    assert e1 == e2;
    assert c1[|pre| + |Action(e1)| + 1..|c1| - 1] == p1;
    assert c2[|pre| + |Action(e2)| + 1..|c2| - 1] == p2;
  }

  /** A logged run line carries the dry-run marker exactly when the run was a
      dry run. */
  lemma DryRunMarkerIff(script: string, action: string, param: string, dryRun: bool)
    ensures "[DRY-RUN] " <= LogLine(RunCommand(script, action, param), dryRun) <==> dryRun
  {
    var line := LogLine(RunCommand(script, action, param), dryRun);
    if !dryRun {
      assert line[0] == 'b';
    }
  }

  /** run_step(step, enable, param, dry_run, log). Looking the step up comes
      first, so an unknown id raises KeyError before anything is logged or run.
      Otherwise the line is logged, a dry run reports success without
      touching the host, and a real run reports whether the command exited
      with status 0. */
  method RunStep(table: Table, step: string, enable: bool, param: string, dryRun: bool, log: LogFile?, host: Host)
    returns (r: Result<bool>)
    modifies log, host
    ensures !Known(table, step) ==>
      && r == KeyError(step)
      && host.invoked == old(host.invoked)
      && (log != null ==> log.lines == old(log.lines))
    ensures Known(table, step) ==>
      var cmd := RunCommand(ScriptOf(table, step), Action(enable), param);
      && (log != null ==> log.lines == old(log.lines) + [LogLine(cmd, dryRun)])
      && host.invoked == old(host.invoked) + (if dryRun then [] else [cmd])
      && r == Ok(dryRun || Succeeded(host.reply(|old(host.invoked)|, cmd)))
  {
    var found := IndexOf(table, step);
    if found.None? {
      return KeyError(step);
    }
    var script := table[found.value].script;
    var action := Action(enable);
    var cmd := RunCommand(script, action, param);
    var logLine := LogLine(cmd, dryRun);
    if log != null {
      log.Write(logLine);
    }
    if dryRun {
      return Ok(true);
    }
    var ret := host.System(cmd);
    if ret != 0 {
      return Ok(false);
    }
    return Ok(true);
  }

  /** query_step_status(step): whether the script's query action exits with
      status 0. */
  method QueryStepStatus(table: Table, step: string, host: Host) returns (r: Result<bool>)
    modifies host
    ensures !Known(table, step) ==> r == KeyError(step) && host.invoked == old(host.invoked)
    ensures Known(table, step) ==>
      var cmd := QueryCommand(ScriptOf(table, step));
      && host.invoked == old(host.invoked) + [cmd]
      && r == Ok(Succeeded(host.reply(|old(host.invoked)|, cmd)))
  {
    var found := IndexOf(table, step);
    if found.None? {
      return KeyError(step);
    }
    var script := table[found.value].script;
    var status := host.System(QueryCommand(script));
    return Ok(status == 0);
  }
}
