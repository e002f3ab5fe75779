# Proxmox idempotent setup runner — a Dafny model

`runner.py` is an interactive runner for a homelab Proxmox install. It keeps
a registry of setup steps (`STEPS`). Each step has a description, a list of
the steps it depends on, and a shell script with `query`, `enable` and
`disable` actions. A session goes like this:

1. It queries the current status of every step.
2. It asks one yes/no question per step.
3. It asks for a confirmation.
4. It orders the steps so that dependencies come first (`resolve_order`).
5. It runs each step's `enable` or `disable` action through the shell
   (`run_step`), optionally in dry-run mode and optionally writing a log.

This project models that core and proves what it guarantees.

- `registry.dfy` (module `Registry`): the step table as an ordered sequence
  of `StepDef` entries, dictionary lookup (`IndexOf`), the shipped table
  `Steps`, and the well-formedness conditions.
  - `UniqueIds`: every id occurs once.
  - `DepsDeclaredEarlier`: every dependency names an earlier entry. This
    rules out cycles.
- `ordering.dfy` (module `Ordering`): `resolve_order` as functions over an
  explicit walk state, with its properties.
  - No duplicates.
  - Exactly the selection, and nothing pulled in from outside it.
  - Dependencies first.
  - KeyError exactly when a selected id is unknown.
  - Ordered input comes back unchanged.
  - Concrete results on the shipped table.
- `resolver.dfy` (module `Resolver`): `resolve_order` as the runner executes
  it.
  - The closure becomes the class `Walker`, whose fields are `visited` and
    `order`. Its recursive method `Visit` is proved to follow
    `Ordering.Visit`.
  - `ResolveOrder` drives the walker over the selection and is proved equal
    to `Ordering.Resolve`.
- `answers.dfy` (module `Answers`): the yes/no test
  `answer.strip().lower().startswith("y")`. It includes Python's whitespace
  set and the characterisation "the first non-space character is `y` or
  `Y`".
- `execution.dfy` (module `Execution`): `run_step` and `query_step_status`.
  - The shell is a `Host` object. It records every command it is handed and
    reports, for its n-th command, the exit status its `reply` function
    chooses.
  - The log is a `LogFile` object whose `lines` are appended to.
- `driver.dfy` (module `Driver`): `main` without printing and prompting.
  - It probes every step, then collects the answers.
  - It stops unless the confirmation is yes.
  - It resolves the order over every answered step.
  - It runs each step, enabling or disabling it according to its answer.

## Model

| member | source | states |
|---|---|---|
| Registry.IndexOf | runner.py:55-59 | the dictionary lookup `STEPS[id]`: a found position holds `id` and no earlier one does; no position is found exactly when no entry has that id |
| Registry.Steps | runner.py:19-51 | definition of the shipped `STEPS` table: its six entries, with their ids, descriptions, dependencies and scripts, in declaration order; its properties are those of StepsWellFormed and the Shipped lemmas of Ordering |
| Registry.Known | runner.py:132 | definition of `k in STEPS`: the lookup finds the id; `STEPS[k]` (runner.py:55, 59, 80) raises KeyError exactly when it does not hold; characterised by IndexOf's contract and IdsAreKnown |
| Registry.Ids | runner.py:111 | definition of iterating over `STEPS` (also runner.py:118): the ids in declaration order; characterised by IdsAreKnown |
| Registry.StepsWellFormed | runner.py:20-51 | the shipped registry has distinct ids, and every dependency is declared before the step that needs it, so the registry has no cycles |
| Registry.DependencyRank | runner.py:80-81 | a dependency of a well-formed table is a known step that ranks strictly below the step depending on it, which is why the depth-first walk terminates |
| Registry.LookupEntry | runner.py:55-59 | with unique ids, looking up an entry's own id finds that entry, its dependency list and its script |
| Ordering.Visit | runner.py:77-83 | reference definition of `visit`: an already visited or unselected step is skipped, an unknown selected step raises KeyError, otherwise the dependencies are visited in declared order and then the step is marked visited and appended; its properties are those of VisitSound |
| Ordering.VisitDeps | runner.py:80-81 | reference definition of the `for dep in STEPS[step]["depends"]` loop, stopping at the first KeyError; its properties are those of VisitDepsSound |
| Ordering.ResolveFrom | runner.py:84-85 | reference definition of the `for s in selected_steps` loop, stopping at the first KeyError; its properties are those of ResolveFromSound |
| Ordering.Resolve | runner.py:74-86 | reference definition of resolve_order, starting from an empty `visited` and `order`; its properties are those of ResolveSound and the lemmas after it, and Resolver.ResolveOrder is proved equal to it |
| Ordering.VisitSound | runner.py:77-83 | one visit keeps the walk invariant: `visited` and `order` hold the same ids, `order` has no duplicates, holds only selected known ids, and lists every selected dependency before its dependant; `order` only grows; a visited selected step ends up in `visited`; a KeyError names a selected unknown id |
| Ordering.VisitDepsSound | runner.py:80-81 | the loop over a step's dependencies keeps the same invariant and only adds steps of lower rank |
| Ordering.ResolveFromSound | runner.py:84-85 | the loop over the selection keeps the invariant and, when it completes, has visited every selected id |
| Ordering.ResolveSound | runner.py:74-86 | resolve_order raises KeyError exactly when some selected id is not in the registry, and the key it raises is such an id (runner.py:80); otherwise its result is duplicate-free, equals the selection as a set and lists selected dependencies first |
| Ordering.ResolveExactlyOnce | runner.py:75-85 | every selected id appears in the result exactly once: duplicates in the selection collapse, and dependencies outside the selection are never added |
| Ordering.DependencyPrecedes | runner.py:80-83 | when a step and one of its dependencies are both selected, the dependency comes strictly before the step |
| Ordering.VisitDepsSkipsDone | runner.py:78-81 | a dependency loop whose remaining dependencies are all visited or unselected changes nothing |
| Ordering.OrderedFrom | runner.py:84-85 | resuming the outer loop over a duplicate-free, known, dependencies-first selection whose prefix has been visited appends exactly the rest of the selection |
| Ordering.OrderedSelectionUnchanged | runner.py:74-86 | a duplicate-free selection of known ids that already lists dependencies first comes back unchanged |
| Ordering.DeclarationOrderIsResolved | runner.py:74-86 | for a well-formed registry, resolving all ids in declaration order returns declaration order |
| Ordering.ResolveEmpty | runner.py:84-86 | resolving the empty selection returns the empty order |
| Ordering.ShippedFullPlan | runner.py:20-51 | the shipped registry resolves, in declaration order, to all six steps with `iommu` before `vfio_modules` before `pci_passthrough` |
| Ordering.ShippedVfioAlone | runner.py:78 | selecting `vfio_modules` alone returns just `vfio_modules`: its unselected dependency `iommu` is not pulled in |
| Ordering.ShippedDuplicateCollapses | runner.py:78-85 | a selection naming `iommu` twice resolves to a single `iommu` |
| Ordering.DependsRanksLower | runner.py:80 | a declared dependency and its dependant are both known, and the dependency ranks lower |
| Ordering.ChainResolvesInOrder | runner.py:80-85 | when b depends on a and c depends on b, any selection of exactly {a, b, c}, in any order and with repeats, resolves to [a, b, c] |
| Ordering.ShippedPassthroughChain | runner.py:41-51 | selecting `pci_passthrough`, `iommu`, `vfio_modules` in that order resolves to `iommu`, `vfio_modules`, `pci_passthrough` |
| Resolver.Walker.Visit | runner.py:77-83 | the in-place visit leaves `visited` and `order` as the reference walk does, and raises the same KeyError |
| Resolver.ResolveOrder | runner.py:74-86 | the imperative resolve_order returns what the reference does: KeyError exactly on an unknown selected id, otherwise a duplicate-free order of exactly the selection with dependencies first |
| Answers.StripLeading | runner.py:121 | definition of the leading half of `str.strip()`: drops whitespace characters from the front; its properties are those of StripLeadingKeepsSuffix |
| Answers.StripTrailing | runner.py:121 | definition of the trailing half of `str.strip()`: drops whitespace characters from the back; its properties are those of StripTrailingKeepsPrefix |
| Answers.Strip | runner.py:121 | definition of `str.strip()` as both halves; its properties are those of StripKeepsMiddle and StripStartsAtFirstNonSpace |
| Answers.Lower | runner.py:121 | definition of `str.lower()` character by character, lowering ASCII letters only; used through IsYesFirstChar |
| Answers.StartsWith | runner.py:122 | definition of `str.startswith(prefix)` (also for the confirmation, runner.py:127): the prefix is an initial segment of the string; used through IsYesFirstChar |
| Answers.IsYes | runner.py:121-122 | definition of the yes test `answer.strip().lower().startswith("y")`, used for every answer and for the confirmation; characterised by IsYesIff |
| Answers.StripLeadingKeepsSuffix | runner.py:121 | the leading half of `strip()` keeps the suffix that starts at the first non-space character and drops only whitespace |
| Answers.StripTrailingKeepsPrefix | runner.py:121 | the trailing half of `strip()` keeps the prefix that ends at the last non-space character and drops only whitespace |
| Answers.StripKeepsMiddle | runner.py:121 | `strip()` returns a contiguous middle of its argument, with only whitespace dropped on each side, and what it keeps starts and ends with a non-space character |
| Answers.StripStartsAtFirstNonSpace | runner.py:121 | `strip()` is empty exactly when its leading half is, and otherwise starts with the first character the leading half keeps, which is the first non-space character |
| Answers.IsYesFirstChar | runner.py:121-122 | `strip().lower().startswith("y")` holds exactly when the stripped answer starts with `y` or `Y` |
| Answers.IsYesIff | runner.py:121-122 | an answer is yes exactly when its first non-space character is `y` or `Y`; anything after it is ignored |
| Answers.BlankIsNo | runner.py:120-122 | an empty or all-blank answer is no, whatever the step's current status, because the computed default is never used |
| Execution.Action | runner.py:60 | definition of the action word: `enable` when enabling, `disable` otherwise; RunCommandDeterminesRequest shows the command keeps the choice recoverable |
| Execution.RunCommand | runner.py:61 | definition of the command run_step builds, `bash -c 'source {script}; {action} {param}'`; RunCommandDeterminesRequest shows it determines action and parameter |
| Execution.QueryCommand | runner.py:56 | definition of the command query_step_status builds, `bash -c 'source {script}; query'`; used by QueryStepStatus |
| Execution.LogLine | runner.py:62 | definition of the logged line, the command with a `[DRY-RUN] ` prefix in dry-run mode; characterised by DryRunMarkerIff |
| Execution.LogFile.Write | runner.py:64 | `log.write(line)` appends exactly that line to the log and nothing else |
| Execution.Host.System | runner.py:68 | the shell records the command and returns the exit status the environment chooses for it |
| Execution.Succeeded | runner.py:68-72 | definition of success as exit status 0 (`== 0` in the query, `ret != 0` as failure in run_step); used in the contracts of RunStep and QueryStepStatus |
| Execution.RunCommandDeterminesRequest | runner.py:60-61 | the command string of run_step determines both the enable/disable choice and the parameter |
| Execution.DryRunMarkerIff | runner.py:62 | a logged line carries the `[DRY-RUN] ` marker exactly in dry-run mode |
| Execution.RunStep | runner.py:58-72 | an unknown step raises KeyError before logging or running anything; otherwise exactly one line is logged (the command, marked in dry-run mode), the command goes to the shell only outside dry-run, a dry run returns True, and a real run returns True exactly when the exit status is 0 |
| Execution.QueryStepStatus | runner.py:54-56 | an unknown step raises KeyError without running anything; otherwise the query command runs once, and the status is True exactly when it exits with 0 |
| Driver.PlanCommands | runner.py:135-137 | definition of the commands the first n plan steps hand to the shell; characterised by PlanCommandsAt |
| Driver.PlanLines | runner.py:135-137 | definition of the log lines of the first n plan steps; characterised by PlanLinesAt |
| Driver.PlanCommandsAt | runner.py:135-137 | the first n plan steps give exactly n commands, the j-th being step j's run command with its desired action and an empty parameter: each step once, in plan order |
| Driver.PlanCommandAt | runner.py:135-137 | the j-th of the first n plan commands is step j's run command with its desired action |
| Driver.PlanCommandsLength | runner.py:135-137 | the first n plan steps give exactly n commands |
| Driver.PlanLinesAt | runner.py:135-137 | the first n plan steps give exactly n log lines, the j-th being step j's run command, marked in dry-run mode |
| Driver.PlanLineAt | runner.py:135-137 | the j-th of the first n log lines is step j's run command, marked in dry-run mode |
| Driver.PlanLinesLength | runner.py:135-137 | the first n plan steps give exactly n log lines |
| Driver.KnownOnly | runner.py:132 | the filter keeps exactly the keys that are in the registry, and returns the keys unchanged when all of them are; with KnownOnlyAppend this fixes order and repeats |
| Driver.KnownOnlyAppend | runner.py:132 | the filter keeps order and repeats: filtering a concatenation filters each part and concatenates the results, so together with KnownOnly's contract for a single key the result is determined for every list |
| Driver.IdsAreKnown | runner.py:111 | with unique ids, the ids in declaration order are exactly the ids the registry knows |
| Driver.ProbeAll | runner.py:111 | every step is queried once, in declaration order, and its current status is whether its query exited with 0 |
| Driver.ProbeStep | runner.py:111 | one pass of the comprehension: queries the next step, extending the commands sent by its query and the statuses by its result |
| Driver.ProbedGrows | runner.py:111 | with unique ids, recording the next step's status extends the probed keys by its id and keeps every earlier status |
| Driver.CollectAnswers | runner.py:114-122 | `desired` has one entry per step, true exactly when that step's answer is yes, and its keys are in declaration order |
| Driver.RunPlanStep | runner.py:135-137 | one pass of the execution loop: the next step's command reaches the shell unless in dry-run mode, and its line reaches the log, whatever run_step returns |
| Driver.ExecutePlan | runner.py:135-137 | every step of the plan runs once, in plan order, enabled when it is desired and disabled otherwise, whatever the earlier steps returned; the log gets one line per step |
| Driver.RunSession | runner.py:99-140 | a session probes every step and collects one answer per step; without a yes confirmation it runs no step and logs nothing; with one, the plan is the resolved order of all steps (declaration order) and each step runs once with its desired action |

## Left out

- Printing, terminal colours, emoji and `show_summary_table` (runner.py:8-17, 88-96) are presentation only.
- Command-line parsing is not modelled, including the `--plan-file` option, which is declared but never used. Dry-run mode and the log are parameters.
- Opening and closing the log file (runner.py:106, 129, 139) is not modelled. The log is an object whose lines are appended to, and `None` is a null log.
- The trailing newline written after each log line is not modelled.
- `input()` prompting is not modelled. The answers and the confirmation are given strings, one answer per step, so end of input is not modelled.
- Running a process is not modelled. The exit status of the n-th shell command is whatever the host's `reply` function returns, and the command's own effects on the machine are not modelled.
- `sys.exit(0)` on abort is modelled as `RunSession` returning with `aborted` set.
- Answers.IsSpace follows Python's `str.isspace` by code point.
- Answers.Lower: lowers ASCII letters only, so `Lower("Ä")` stays `"Ä"` where Python gives `"ä"`. Python lowers every cased character, but no non-ASCII character lowers to `y`, so IsYes, the only use of the lowered answer, is unaffected.
- Tables that break the precondition `DepsDeclaredEarlier` are not modelled. It excludes cycles, on which the runner recurses until CPython raises RecursionError at its recursion limit. It also excludes a dependency declared after the step that needs it, and a dependency name missing from the table, which the runner tolerates as long as that name is not selected (runner.py:78). The shipped `Steps` meets the precondition (StepsWellFormed), so no table the runner actually uses is lost.
- Resolver.Walker.Visit: after a KeyError the walker's state is left unspecified, because the runner abandons the closure once the exception propagates.
- Three behaviours of the code differ from what a reader of the runner might expect. The model follows the code in each case:
  - `main` resolves the order over every key of `desired`, not only the steps answered yes. Every step is therefore run, enabled or disabled according to its answer.
  - `resolve_order` visits the selection in list order, not in registry order.
  - The status queries run before the confirmation, so an abort still runs every `query` command. Only `enable` and `disable` commands are skipped.
