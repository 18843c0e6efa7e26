/**
  The two copies of ValidateInputs side by side: where they agree and where
  catching every exception (the worker) and catching only
  IndexOutOfRangeException (the program) part ways.
*/
module Copies {
  import opened Wrappers
  import opened Int32Parsing
  import opened MonitorCore
  import Worker
  import Program

  /** A worker result with the exception dropped, keeping the guard that rethrew it */
  function WorkerGuard(r: Result<Params, Worker.Rethrown>): Result<Params, Check> {
    match r
    case Success(p) => Success(p)
    case Failure(e) => Failure(e.at)
  }

  /** A program result with the exit status dropped, keeping the guard that exited */
  function ProgramGuard(r: Result<Params, Program.Exit>): Result<Params, Check> {
    match r
    case Success(p) => Success(p)
    case Failure(e) => Failure(e.at)
  }

  /** When both numbers parse, both copies return the same parsed triple */
  lemma AgreeOnParsedArguments(args: seq<string>, useDefaults: bool)
    requires Worker.FullyParsed(args)
    ensures Worker.WorkerValidate(args, useDefaults).Success?
    ensures WorkerGuard(Worker.WorkerValidate(args, useDefaults)) == ProgramGuard(Program.ProgramValidate(args, useDefaults))
  { }

  /**
    With fewer than three tokens both copies reach their catch block with
    the same locals: the same triple, or a failure at the same guard.
  */
  lemma AgreeOnShortArguments(args: seq<string>, useDefaults: bool)
    requires |args| < 3
    ensures WorkerGuard(Worker.WorkerValidate(args, useDefaults)) == ProgramGuard(Program.ProgramValidate(args, useDefaults))
  { }

  /**
    With three tokens of which a number does not parse, the program returns
    a triple holding a 0 with no check at all, while the worker defaults or
    rethrows: the two copies never give the same answer.
  */
  lemma DisagreeOnUnparsedNumbers(args: seq<string>, useDefaults: bool)
    requires |args| >= 3 && !Worker.FullyParsed(args)
    ensures var p := Program.ProgramValidate(args, useDefaults);
      p.Success? && (p.value.maxLifetime == 0 || p.value.interval == 0)
    ensures Worker.WorkerValidate(args, useDefaults).Success? <==> useDefaults && args[0] != ""
    ensures WorkerGuard(Worker.WorkerValidate(args, useDefaults)) != ProgramGuard(Program.ProgramValidate(args, useDefaults))
  { }
}
