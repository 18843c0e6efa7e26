/**
  The ProcessMonitorWorker class: argument validation with `int.Parse` and a
  catch block for every exception, the defaulting flag set by either
  constructor, the quit test and the monitoring loop.
*/
module Worker {
  import opened Wrappers
  import opened Int32Parsing
  import opened MonitorCore

  /** The try block of ValidateInputs, which assigns the name, the lifetime and the span in turn */
  function WorkerTry(args: seq<string>): (t: TryState)
    ensures t.fault.None? <==> FullyParsed(args)
    // the span is assigned last, so an exception always leaves it at 0
    ensures t.fault.Some? ==> t.span == 0
    ensures |args| > 0 ==> t.name == args[0]
  {
    if |args| < 1 then TryState("", 0, 0, Some(IndexOutOfRangeException))
    else if |args| < 2 then TryState(args[0], 0, 0, Some(IndexOutOfRangeException))
    else match ParseInt32(args[1])
      case Failure(e) => TryState(args[0], 0, 0, Some(e))
      case Success(lifetime) =>
        if |args| < 3 then TryState(args[0], lifetime, 0, Some(IndexOutOfRangeException))
        else match ParseInt32(args[2])
          case Failure(e) => TryState(args[0], lifetime, 0, Some(e))
          case Success(span) => TryState(args[0], lifetime, span, None)
  }

  /** The exception `throw;` rethrows and the guard whose log line precedes it */
  datatype Rethrown = Rethrown(exception: Exception, at: Check)

  /** Both the lifetime and the interval token are present and parse */
  predicate FullyParsed(args: seq<string>) {
    |args| >= 3 && ParseInt32(args[1]).Success? && ParseInt32(args[2]).Success?
  }

  /**
    `ValidateInputs(args)` of the worker whose defaulting flag is `useDefaults`:
    the parsed triple when both numbers parse; otherwise the default triple,
    or the exception that stopped the try block, rethrown unchanged.
  */
  function WorkerValidate(args: seq<string>, useDefaults: bool): (r: Result<Params, Rethrown>)
    // the parsed path: no check on the name or the sign of the numbers, extra tokens ignored
    ensures FullyParsed(args) ==> r == Success(Params(args[0], ParseInt32(args[1]).value, ParseInt32(args[2]).value))
    // no arguments: the IndexOutOfRangeException of args[0], whatever the flag
    ensures |args| == 0 ==> r == Failure(Rethrown(IndexOutOfRangeException, NameCheck))
    // a failure after the name: defaults exactly when the flag is set and the name is not empty
    ensures |args| > 0 && !FullyParsed(args) ==> (r.Success? <==> useDefaults && args[0] != "")
    ensures !FullyParsed(args) && r.Success? ==> r.value == Params(args[0], DefaultLifetime, DefaultInterval)
    // parsed and default values are never mixed
    ensures r.Success? ==>
      || r.value == Params(args[0], DefaultLifetime, DefaultInterval)
      || (FullyParsed(args) && r.value == Params(args[0], ParseInt32(args[1]).value, ParseInt32(args[2]).value))
    // the original exception is what propagates
    ensures r.Failure? ==> !FullyParsed(args)
    ensures r.Failure? && |args| < 2 ==> r.error.exception == IndexOutOfRangeException
    ensures r.Failure? && |args| >= 2 && ParseInt32(args[1]).Failure? ==> r.error.exception == ParseInt32(args[1]).error
    ensures r.Failure? && |args| == 2 && ParseInt32(args[1]).Success? ==> r.error.exception == IndexOutOfRangeException
    ensures r.Failure? && |args| >= 3 && ParseInt32(args[1]).Success? && ParseInt32(args[2]).Failure?
      ==> r.error.exception == ParseInt32(args[2]).error
    // which guard rethrows: the name guard for an empty name; for a non-empty name the lifetime
    // guard while the lifetime is still 0, else the interval guard
    ensures r.Failure? && |args| > 0 && args[0] == "" ==> r.error.at == NameCheck
    ensures r.Failure? && |args| > 0 && args[0] != "" ==>
      r.error.at == (if |args| >= 2 && ParseInt32(args[1]).Success? && ParseInt32(args[1]).value != 0
                     then IntervalCheck else LifetimeCheck)
  {
    var t := WorkerTry(args);
    match t.fault
    case None => Success(Params(t.name, t.lifetime, t.span))
    case Some(e) =>
      match CatchBlock(t.name, t.lifetime, t.span, useDefaults)
      case Success(p) => Success(p)
      case Failure(check) => Failure(Rethrown(e, check))
  }

  class ProcessMonitorWorker {
    /** Whether validation falls back to the defaults */
    var useDefaults: bool
    /** The last line the input thread read; null (None) until it reads one */
    var input: Option<string>

    /** `ProcessMonitorWorker()`: the flag comes from the "UseDefaults" setting */
    constructor FromConfiguration(setting: Option<bool>)
      ensures useDefaults == DefaultingFlag(setting)
      ensures !useDefaults <==> setting == Some(false)
      ensures input == None
    {
      useDefaults := DefaultingFlag(setting);
      input := None;
    }

    /** `ProcessMonitorWorker(bool Defaults)`: the flag is taken as given */
    constructor WithDefaults(defaults: bool)
      ensures useDefaults == defaults
      ensures input == None
    {
      useDefaults := defaults;
      input := None;
    }

    /** `ValidateInputs(args)` with this worker's flag */
    method ValidateInputs(args: seq<string>) returns (r: Result<Params, Rethrown>)
      ensures r == WorkerValidate(args, useDefaults)
    {
      r := WorkerValidate(args, useDefaults);
    }

    /**
      `ReadLine`: request a line and wait for it. When the wait delivers a
      line, the input thread has stored it in `input` first.
    */
    method ReadLine(wait: Option<string>) returns (quit: bool)
      modifies this`input
      ensures input == (if wait.Some? then wait else old(input))
      ensures quit == MonitorCore.ReadLine(wait)
    {
      if wait.Some? {
        input := wait;
      }
      quit := wait.Some? && EqualsIgnoreCase(input.value, QuitKey);
    }

    /**
      `Execute`: the do-while loop over the ticks of `ticks`, one lookup and
      decision and then one `ReadLine` per tick, stopping after the first
      tick that reads the quit key.
    */
    method Execute(p: Params, ticks: seq<Tick>) returns (actions: seq<Action>, quit: bool)
      modifies this`input
      ensures Outcome(actions, quit) == Watch(p.maxLifetime, ticks)
      ensures input == LastInput(old(input), ticks[..|actions|])
    {
      var i := 0;
      actions, quit := [], false;
      while i < |ticks| && !quit
        invariant 0 <= i <= |ticks| && |actions| == i
        invariant forall j :: 0 <= j < i ==> actions[j] == Decide(p.maxLifetime, ticks[j].process)
        invariant forall j :: 0 <= j < i ==> (MonitorCore.ReadLine(ticks[j].wait) <==> quit && j == i - 1)
        invariant quit ==> i > 0
        invariant input == LastInput(old(input), ticks[..i])
      {
        LastInputStep(old(input), ticks, i);
        assert forall j :: 0 <= j < i ==> !MonitorCore.ReadLine(ticks[j].wait);
        match ticks[i].process {
          case None =>
            // `continue` in a do-while goes on to the condition, which calls ReadLine
            actions := actions + [NoProcess];
          case Some(runtime) =>
            if runtime >= p.maxLifetime {
              actions := actions + [Killed(runtime)];
            } else {
              actions := actions + [Alive(p.maxLifetime - runtime)];
            }
        }
        quit := ReadLine(ticks[i].wait);
        i := i + 1;
      }
      WatchDeterminedByTicks(p.maxLifetime, ticks, Outcome(actions, quit));
    }
  }

  /** ArgsValidation_Sucess: {"process", "1", "1"} gives ("process", 1, 1 min) */
  lemma ArgsValidationSuccess(useDefaults: bool)
    ensures WorkerValidate(["process", "1", "1"], useDefaults) == Success(Params("process", 1, 1))
  { }

  /** ArgsValidation_ThrowsIndexOutOfRange_InvalidFormat: {"process", "abc"} throws FormatException */
  lemma ArgsValidationInvalidFormat()
    ensures WorkerValidate(["process", "abc"], false) == Failure(Rethrown(FormatException, LifetimeCheck))
  { }

  /** ArgsValidation_ThrowsIndexOutOfRange_InvalidIndex: {"process"} throws IndexOutOfRangeException */
  lemma ArgsValidationInvalidIndex()
    ensures WorkerValidate(["process"], false) == Failure(Rethrown(IndexOutOfRangeException, LifetimeCheck))
  { }

  /** ArgsValidation_ThrowsIndexOutOfRange_SuccessDefaults: {"process"} with defaults gives ("process", 5, 1 min) */
  lemma ArgsValidationSuccessDefaults()
    ensures WorkerValidate(["process"], true) == Success(Params("process", 5, 1))
  { }
}
