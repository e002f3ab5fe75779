/** The runner's main flow without its printing and prompting: probe every
    step, read one answer per step, read the confirmation, resolve the order
    over every answered step and run each one, enabling it when its answer
    was yes and disabling it otherwise. Answers and the confirmation are
    given strings; the shell and the log file are the objects of module
    Execution. */
module Driver {
  import opened Registry
  import opened Ordering
  import opened Answers
  import opened Execution
  import Resolver

  /** `[k for k in keys if k in STEPS]` */
  function KnownOnly(t: Table, keys: seq<string>): (r: seq<string>)
    ensures forall x :: x in r <==> x in keys && Known(t, x)
    ensures |r| <= |keys|
    ensures (forall x :: x in keys ==> Known(t, x)) ==> r == keys
  {
    if keys == [] then []
    else
      var r := KnownOnly(t, keys[..|keys| - 1]);
      assert keys == keys[..|keys| - 1] + [keys[|keys| - 1]];
      if Known(t, keys[|keys| - 1]) then r + [keys[|keys| - 1]] else r
  }

  /** The filter keeps order and repeats: filtering a concatenation is
      filtering each part and concatenating the results. With the contract of
      KnownOnly, which fixes the result for a single key, this determines the
      filter completely. */
  lemma {:induction false} KnownOnlyAppend(t: Table, a: seq<string>, b: seq<string>)
    ensures KnownOnly(t, a + b) == KnownOnly(t, a) + KnownOnly(t, b)
    decreases |b|
  {
    if b != [] {
      var b' := b[..|b| - 1];
      KnownOnlyAppend(t, a, b');
      assert (a + b)[..|a + b| - 1] == a + b';
    } else {
      assert a + b == a;
    }
  }

  /** The query command of every step, in declaration order. */
  function QueryCommands(t: Table): seq<string> {
    seq(|t|, i requires 0 <= i < |t| => QueryCommand(t[i].script))
  }

  /** The commands of the first n steps of a plan, each step run with its
      desired action and an empty parameter. */
  function PlanCommands(t: Table, plan: seq<string>, n: nat, desired: map<string, bool>): seq<string>
    requires n <= |plan|
    requires forall s :: s in plan ==> Known(t, s) && s in desired
  {
    if n == 0 then []
    else PlanCommands(t, plan, n - 1, desired) + [RunCommand(ScriptOf(t, plan[n - 1]), Action(desired[plan[n - 1]]), "")]
  }

  /** The log lines of the first n steps of a plan. */
  function PlanLines(t: Table, plan: seq<string>, n: nat, desired: map<string, bool>, dryRun: bool): seq<string>
    requires n <= |plan|
    requires forall s :: s in plan ==> Known(t, s) && s in desired
  {
    if n == 0 then []
    else PlanLines(t, plan, n - 1, desired, dryRun) + [LogLine(RunCommand(ScriptOf(t, plan[n - 1]), Action(desired[plan[n - 1]]), ""), dryRun)]
  }

  /** Step j of the plan contributes the j-th command: each step runs once,
      in plan order, with its desired action. */
  lemma {:induction false} PlanCommandsAt(t: Table, plan: seq<string>, n: nat, desired: map<string, bool>)
    requires n <= |plan|
    requires forall s :: s in plan ==> Known(t, s) && s in desired
    ensures |PlanCommands(t, plan, n, desired)| == n
    ensures forall j :: 0 <= j < n ==>
      PlanCommands(t, plan, n, desired)[j] == RunCommand(ScriptOf(t, plan[j]), Action(desired[plan[j]]), "")
    decreases n
  {
    PlanCommandsLength(t, plan, n, desired);
    forall j | 0 <= j < n
      ensures PlanCommands(t, plan, n, desired)[j] == RunCommand(ScriptOf(t, plan[j]), Action(desired[plan[j]]), "")
    {
      PlanCommandAt(t, plan, n, desired, j);
    }
  }

  lemma {:induction false} PlanCommandsLength(t: Table, plan: seq<string>, n: nat, desired: map<string, bool>)
    requires n <= |plan|
    requires forall s :: s in plan ==> Known(t, s) && s in desired
    ensures |PlanCommands(t, plan, n, desired)| == n
    decreases n
  {
    if n > 0 {
      PlanCommandsLength(t, plan, n - 1, desired);
    }
  }

  lemma {:induction false} PlanCommandAt(t: Table, plan: seq<string>, n: nat, desired: map<string, bool>, j: nat)
    requires j < n <= |plan|
    requires forall s :: s in plan ==> Known(t, s) && s in desired
    ensures |PlanCommands(t, plan, n, desired)| == n
    ensures PlanCommands(t, plan, n, desired)[j] == RunCommand(ScriptOf(t, plan[j]), Action(desired[plan[j]]), "")
    decreases n
  {
    PlanCommandsLength(t, plan, n - 1, desired);
    if j < n - 1 {
      PlanCommandAt(t, plan, n - 1, desired, j);
    }
  }

  /** Step j of the plan contributes the j-th log line: its command, marked
      in dry-run mode. */
  lemma {:induction false} PlanLinesAt(t: Table, plan: seq<string>, n: nat, desired: map<string, bool>, dryRun: bool)
    requires n <= |plan|
    requires forall s :: s in plan ==> Known(t, s) && s in desired
    ensures |PlanLines(t, plan, n, desired, dryRun)| == n
    ensures forall j :: 0 <= j < n ==>
      PlanLines(t, plan, n, desired, dryRun)[j] == LogLine(RunCommand(ScriptOf(t, plan[j]), Action(desired[plan[j]]), ""), dryRun)
    decreases n
  {
    PlanLinesLength(t, plan, n, desired, dryRun);
    forall j | 0 <= j < n
      ensures PlanLines(t, plan, n, desired, dryRun)[j] == LogLine(RunCommand(ScriptOf(t, plan[j]), Action(desired[plan[j]]), ""), dryRun)
    {
      PlanLineAt(t, plan, n, desired, dryRun, j);
    }
  }

  lemma {:induction false} PlanLinesLength(t: Table, plan: seq<string>, n: nat, desired: map<string, bool>, dryRun: bool)
    requires n <= |plan|
    requires forall s :: s in plan ==> Known(t, s) && s in desired
    ensures |PlanLines(t, plan, n, desired, dryRun)| == n
    decreases n
  {
    if n > 0 {
      PlanLinesLength(t, plan, n - 1, desired, dryRun);
    }
  }

  lemma {:induction false} PlanLineAt(t: Table, plan: seq<string>, n: nat, desired: map<string, bool>, dryRun: bool, j: nat)
    requires j < n <= |plan|
    requires forall s :: s in plan ==> Known(t, s) && s in desired
    ensures |PlanLines(t, plan, n, desired, dryRun)| == n
    ensures PlanLines(t, plan, n, desired, dryRun)[j] == LogLine(RunCommand(ScriptOf(t, plan[j]), Action(desired[plan[j]]), ""), dryRun)
    decreases n
  {
    PlanLinesLength(t, plan, n - 1, desired, dryRun);
    if j < n - 1 {
      PlanLineAt(t, plan, n - 1, desired, dryRun, j);
    }
  }

  lemma PrefixGrows<T>(s: seq<T>, i: nat)
    requires i < |s|
    ensures s[..i + 1] == s[..i] + [s[i]]
  {
  }

  lemma WholePrefix<T>(s: seq<T>)
    ensures s[..|s|] == s
  {
  }

  /** Every known id is one of the table's ids, and conversely. */
  lemma IdsAreKnown(t: Table)
    requires UniqueIds(t)
    ensures forall k :: k in Ids(t) <==> Known(t, k)
  {
    forall k ensures k in Ids(t) <==> Known(t, k) {
      if Known(t, k) {
        assert Ids(t)[IndexOf(t, k).value] == k;
      }
      if k in Ids(t) {
        var j :| 0 <= j < |t| && Ids(t)[j] == k;
        LookupEntry(t, j);
      }
    }
  }

  /** After probing the first n steps: `current` has exactly their ids as
      keys, and each holds whether its query, the host's command number
      `base + j` for the j-th step, exited with status 0. */
  ghost predicate ProbedUpTo(t: Table, reply: (nat, string) -> int, base: nat, current: map<string, bool>, n: nat)
    requires n <= |t|
  {
    && (forall k :: k in current <==> k in Ids(t)[..n])
    && (forall j :: 0 <= j < n ==>
          t[j].id in current && current[t[j].id] == Succeeded(reply(base + j, QueryCommand(t[j].script))))
  }

  /** `{k: query_step_status(k) for k in STEPS}`: one query per step, in
      declaration order. */
  method ProbeAll(table: Table, host: Host) returns (current: map<string, bool>)
    requires UniqueIds(table)
    modifies host
    ensures forall k :: k in current <==> k in Ids(table)
    ensures forall i :: 0 <= i < |table| ==>
      table[i].id in current && current[table[i].id] == Succeeded(host.reply(|old(host.invoked)| + i, QueryCommand(table[i].script)))
    ensures host.invoked == old(host.invoked) + QueryCommands(table)
  {
    ghost var sent := host.invoked;
    current := map[];
    var i := 0;
    while i < |table|
      invariant i <= |table|
      invariant host.invoked == sent + QueryCommands(table)[..i]
      invariant ProbedUpTo(table, host.reply, |sent|, current, i)
    {
      current := ProbeStep(table, i, host, current, sent);
      i := i + 1;
    }
    WholePrefix(QueryCommands(table));
    WholePrefix(Ids(table));
  }

  /** One pass of the comprehension: query the i-th step and record its
      status. */
  method ProbeStep(table: Table, i: nat, host: Host, current: map<string, bool>, ghost sent: seq<string>)
    returns (next: map<string, bool>)
    requires UniqueIds(table) && i < |table|
    requires host.invoked == sent + QueryCommands(table)[..i]
    requires ProbedUpTo(table, host.reply, |sent|, current, i)
    modifies host
    ensures host.invoked == sent + QueryCommands(table)[..i + 1]
    ensures ProbedUpTo(table, host.reply, |sent|, next, i + 1)
  {
    var id := table[i].id;
    LookupEntry(table, i);
    var status := QueryStepStatus(table, id, host);
    next := current[id := status.value];
    ProbedGrows(table, host.reply, |sent|, current, i);
    PrefixGrows(QueryCommands(table), i);
  }

  /** Recording the status of the i-th step extends what has been probed by
      that step, and leaves the statuses of the earlier ones alone. */
  lemma ProbedGrows(t: Table, reply: (nat, string) -> int, base: nat, current: map<string, bool>, i: nat)
    requires UniqueIds(t) && i < |t|
    requires ProbedUpTo(t, reply, base, current, i)
    ensures ProbedUpTo(t, reply, base, current[t[i].id := Succeeded(reply(base + i, QueryCommand(t[i].script)))], i + 1)
  {
    var next := current[t[i].id := Succeeded(reply(base + i, QueryCommand(t[i].script)))];
    forall j | 0 <= j < i
      ensures next[t[j].id] == current[t[j].id]
    {
      assert t[j].id != t[i].id;
    }
    PrefixGrows(Ids(t), i);
  }

  /** The prompt loop: `desired[key] = answer.strip().lower().startswith("y")`
      for each step in declaration order. `keys` is the dictionary's insertion
      order. The status shown in the prompt and the default computed from it
      play no part in the result. */
  method CollectAnswers(table: Table, answers: seq<string>) returns (desired: map<string, bool>, keys: seq<string>)
    requires UniqueIds(table)
    requires |answers| == |table|
    ensures keys == Ids(table)
    ensures forall k :: k in desired <==> k in Ids(table)
    ensures forall i :: 0 <= i < |table| ==> table[i].id in desired && desired[table[i].id] == IsYes(answers[i])
  {
    desired := map[];
    keys := [];
    var i := 0;
    while i < |table|
      invariant 0 <= i <= |table|
      invariant keys == Ids(table)[..i]
      invariant forall k :: k in desired <==> k in keys
      invariant forall j :: 0 <= j < i ==> table[j].id in desired && desired[table[j].id] == IsYes(answers[j])
    {
      var key := table[i].id;
      ghost var before := desired;
      desired := desired[key := IsYes(answers[i])];
      forall j | 0 <= j <= i
        ensures table[j].id in desired && desired[table[j].id] == IsYes(answers[j])
      {
        if j < i {
          assert table[j].id != key;
          assert desired[table[j].id] == before[table[j].id];
        }
      }
      keys := keys + [key];
      PrefixGrows(Ids(table), i);
      i := i + 1;
    }
    WholePrefix(Ids(table));
  }

  /** The execution loop: run_step for every step of the plan, enabling it
      when it is desired and disabling it otherwise. The result of each call
      is ignored, so a failing step never stops the ones after it. */
  method ExecutePlan(table: Table, plan: seq<string>, desired: map<string, bool>, dryRun: bool, log: LogFile?, host: Host)
    requires forall s :: s in plan ==> Known(table, s) && s in desired
    modifies log, host
    ensures host.invoked == old(host.invoked) + Executed(dryRun, PlanCommands(table, plan, |plan|, desired))
    ensures log != null ==> log.lines == old(log.lines) + PlanLines(table, plan, |plan|, desired, dryRun)
  {
    ghost var sent := host.invoked;
    ghost var logged := if log != null then log.lines else [];
    var i := 0;
    while i < |plan|
      invariant i <= |plan|
      invariant host.invoked == sent + Executed(dryRun, PlanCommands(table, plan, i, desired))
      invariant log != null ==> log.lines == logged + PlanLines(table, plan, i, desired, dryRun)
    {
      RunPlanStep(table, plan, i, desired, dryRun, log, host, sent, logged);
      i := i + 1;
    }
  }

  /** One pass of the execution loop: run_step for the i-th step of the plan,
      with an empty parameter. It extends what the shell and the log have
      received by that step's command and line. */
  method RunPlanStep(table: Table, plan: seq<string>, i: nat, desired: map<string, bool>, dryRun: bool, log: LogFile?, host: Host,
                     ghost sent: seq<string>, ghost logged: seq<string>)
    requires i < |plan|
    requires forall s :: s in plan ==> Known(table, s) && s in desired
    requires host.invoked == sent + Executed(dryRun, PlanCommands(table, plan, i, desired))
    requires log != null ==> log.lines == logged + PlanLines(table, plan, i, desired, dryRun)
    modifies log, host
    ensures host.invoked == sent + Executed(dryRun, PlanCommands(table, plan, i + 1, desired))
    ensures log != null ==> log.lines == logged + PlanLines(table, plan, i + 1, desired, dryRun)
  {
    var s := plan[i];
    var param := "";
    var ignored := RunStep(table, s, desired[s], param, dryRun, log, host);
  }

  /** main(). The current status of every step is probed (and shown, which
      is not modelled); `desired` maps each step to whether its answer is
      yes; unless the confirmation is yes the run stops before any step is
      run; otherwise every step is run once, in resolved order, whatever the
      earlier steps returned. */
  method RunSession(table: Table, answers: seq<string>, confirm: string, dryRun: bool, log: LogFile?, host: Host)
    returns (current: map<string, bool>, desired: map<string, bool>, plan: seq<string>, aborted: bool)
    requires WellFormed(table)
    requires |answers| == |table|
    modifies log, host
    ensures forall k :: k in current <==> k in Ids(table)
    ensures forall i :: 0 <= i < |table| ==>
      table[i].id in current && current[table[i].id] == Succeeded(host.reply(|old(host.invoked)| + i, QueryCommand(table[i].script)))
    ensures forall k :: k in desired <==> k in Ids(table)
    ensures forall i :: 0 <= i < |table| ==> table[i].id in desired && desired[table[i].id] == IsYes(answers[i])
    ensures aborted <==> !IsYes(confirm)
    ensures aborted ==>
      && plan == []
      && host.invoked == old(host.invoked) + QueryCommands(table)
      && (log != null ==> log.lines == old(log.lines))
    ensures !aborted ==>
      && Resolve(table, Ids(table)) == Ok(plan)
      && plan == Ids(table)
      && host.invoked == old(host.invoked) + QueryCommands(table) + Executed(dryRun, PlanCommands(table, plan, |plan|, desired))
      && (log != null ==> log.lines == old(log.lines) + PlanLines(table, plan, |plan|, desired, dryRun))
  {
    // Step 1: query every step.
    current := ProbeAll(table, host);

    // Steps 2-3: one answer per step.
    var keys;
    desired, keys := CollectAnswers(table, answers);

    if !IsYes(confirm) {
      return current, desired, [], true;
    }
    aborted := false;

    IdsAreKnown(table);
    var resolved := Resolver.ResolveOrder(table, KnownOnly(table, keys));
    plan := resolved.value;
    DeclarationOrderIsResolved(table);

    // Step 4: run every step of the plan.
    ExecutePlan(table, plan, desired, dryRun, log, host);
  }
}
