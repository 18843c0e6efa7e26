/**
  The top-level program: argument validation with `int.TryParse` and a catch
  block for IndexOutOfRangeException only, ending in `Environment.Exit(1)`,
  the static monitoring loop, and the validate-then-execute sequence.
*/
module Program {
  import opened Wrappers
  import opened Int32Parsing
  import opened MonitorCore

  /**
    The try block of ValidateInputs: the name, then each number when it
    parses (a token that does not parse leaves its local at 0). Only indexing
    past the end of `args` raises.
  */
  function ProgramTry(args: seq<string>): (t: TryState)
    ensures t.fault.Some? <==> |args| < 3
    ensures t.fault.Some? ==> t.fault == Some(IndexOutOfRangeException) && t.span == 0
    ensures |args| > 0 ==> t.name == args[0]
  {
    if |args| < 1 then TryState("", 0, 0, Some(IndexOutOfRangeException))
    else
      var lifetime := if |args| >= 2 then TryParseInt32(args[1]).GetOr(0) else 0;
      if |args| < 3 then TryState(args[0], lifetime, 0, Some(IndexOutOfRangeException))
      else TryState(args[0], lifetime, TryParseInt32(args[2]).GetOr(0), None)
  }

  /** `Environment.Exit(code)` and the guard whose log line precedes it */
  datatype Exit = Exit(code: int, at: Check)

  /**
    The static `ValidateInputs(args, logger)` with the flag `useDefaults`:
    with three or more tokens it always returns, each number being its
    parsed value or 0; with fewer it defaults or exits with status 1.
  */
  function ProgramValidate(args: seq<string>, useDefaults: bool): (r: Result<Params, Exit>)
    // three tokens: nothing is raised, a token that does not parse gives 0, the name is not checked
    ensures |args| >= 3 ==>
      r == Success(Params(args[0], TryParseInt32(args[1]).GetOr(0), TryParseInt32(args[2]).GetOr(0)))
    // the only failure is an exit with status 1, and only with fewer than three tokens
    ensures r.Failure? ==> r.error.code == 1 && |args| < 3
    ensures |args| == 0 ==> r == Failure(Exit(1, NameCheck))
    ensures 0 < |args| < 3 ==> (r.Success? <==> useDefaults && args[0] != "")
    // a lifetime that parsed is still replaced by the default
    ensures |args| < 3 && r.Success? ==> r.value == Params(args[0], DefaultLifetime, DefaultInterval)
    // the exit comes from the name guard for an empty name; for a non-empty name from the
    // lifetime guard while the lifetime is still 0, else from the interval guard
    ensures r.Failure? && |args| > 0 && args[0] == "" ==> r.error.at == NameCheck
    ensures r.Failure? && |args| > 0 && args[0] != "" ==>
      r.error.at == (if |args| == 2 && TryParseInt32(args[1]).GetOr(0) != 0 then IntervalCheck else LifetimeCheck)
  {
    var t := ProgramTry(args);
    match t.fault
    case None => Success(Params(t.name, t.lifetime, t.span))
    case Some(_) =>
      match CatchBlock(t.name, t.lifetime, t.span, useDefaults)
      case Success(p) => Success(p)
      case Failure(check) => Failure(Exit(1, check))
  }

  /**
    The static `Execute(tuple, logger)`: the do-while loop over the ticks of
    `ticks`, one lookup and decision and then one `ReadLine` per tick,
    stopping after the first tick that reads the quit key.
  */
  method Execute(p: Params, ticks: seq<Tick>) returns (actions: seq<Action>, quit: bool)
    ensures Outcome(actions, quit) == Watch(p.maxLifetime, ticks)
  {
    var i := 0;
    actions, quit := [], false;
    while i < |ticks| && !quit
      invariant 0 <= i <= |ticks| && |actions| == i
      invariant forall j :: 0 <= j < i ==> actions[j] == Decide(p.maxLifetime, ticks[j].process)
      invariant forall j :: 0 <= j < i ==> (ReadLine(ticks[j].wait) <==> quit && j == i - 1)
      invariant quit ==> i > 0
    {
      match ticks[i].process {
        case None =>
          // `continue` in a do-while goes on to the condition, which calls ReadLine
          actions := actions + [NoProcess];
        case Some(runtime) =>
          if runtime >= p.maxLifetime {
            actions := actions + [Killed(runtime)];
          } else {
            actions := actions + [Alive(p.maxLifetime - runtime)];
          }
      }
      quit := ReadLine(ticks[i].wait);
      i := i + 1;
    }
    WatchDeterminedByTicks(p.maxLifetime, ticks, Outcome(actions, quit));
  }

  /** How a run of the program ends, with the actions of the ticks it ran */
  datatype RunOutcome = Exited(code: int, actions: seq<Action>) | Running(actions: seq<Action>)

  /**
    The top-level statements: validate once with the flag from the
    "UseDefaults" setting, then run the loop; a validation failure exits with
    status 1 before any tick, a quit returns from Main (status 0).
  */
  method Run(args: seq<string>, setting: Option<bool>, ticks: seq<Tick>) returns (r: RunOutcome)
    ensures var v := ProgramValidate(args, DefaultingFlag(setting));
      && (v.Failure? ==> r == Exited(1, []))
      && (v.Success? ==> r.actions == Watch(v.value.maxLifetime, ticks).actions)
      && (v.Success? ==> (r.Exited? <==> Watch(v.value.maxLifetime, ticks).quit))
      && (r.Exited? ==> r.code == (if v.Success? then 0 else 1))
  {
    match ProgramValidate(args, DefaultingFlag(setting)) {
      case Failure(exit) =>
        r := Exited(exit.code, []);
      case Success(p) =>
        var actions, quit := Execute(p, ticks);
        r := if quit then Exited(0, actions) else Running(actions);
    }
  }

  /** End to end: {"proc", "1", "1"} validates to ("proc", 1, 1 min) whatever the setting */
  lemma WellFormedArguments(setting: Option<bool>)
    ensures ProgramValidate(["proc", "1", "1"], DefaultingFlag(setting)) == Success(Params("proc", 1, 1))
  { }

  /** End to end: {"proc"} with the defaults enabled validates to ("proc", 5, 1 min) */
  lemma DefaultedArguments()
    ensures ProgramValidate(["proc"], DefaultingFlag(None)) == Success(Params("proc", 5, 1))
  { }
}
