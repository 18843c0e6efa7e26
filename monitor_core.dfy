/**
  The pieces that the two copies of the monitor (the ProcessMonitorWorker
  class and the top-level Program) share: the validated parameters, the
  catch block that applies or refuses the defaults, the defaulting flag, and
  one tick of the monitoring loop with the quit test.
*/
module MonitorCore {
  import opened Wrappers
  import opened Int32Parsing

  /**
    The validated tuple (ProcessName, ProcessMaxLifetime, MonitoringSpan),
    lifetime and polling interval in whole minutes.
  */
  datatype Params = Params(name: string, maxLifetime: int, interval: int)

  /** The guard of the catch block that stopped validation */
  datatype Check = NameCheck | LifetimeCheck | IntervalCheck

  const DefaultLifetime: int := 5
  const DefaultInterval: int := 1

  /** The three locals of ValidateInputs when the try block ends, and the exception that ended it, if any */
  datatype TryState = TryState(name: string, lifetime: int, span: int, fault: Option<Exception>)

  /**
    The catch block both copies run after the try block was left by an
    exception, given the three locals as the try block left them.
  */
  function CatchBlock(name: string, lifetime: int, span: int, useDefaults: bool): (r: Result<Params, Check>)
    ensures r.Success? <==> name != "" && (useDefaults || (lifetime != 0 && span != 0))
    ensures r.Success? ==> r.value.name == name
    ensures r.Success? && useDefaults ==> r.value == Params(name, DefaultLifetime, DefaultInterval)
    ensures r.Success? && !useDefaults ==> r.value == Params(name, lifetime, span)
    ensures r.Failure? ==> (r.error == NameCheck <==> name == "")
    ensures r.Failure? && name != "" ==> (r.error == LifetimeCheck <==> lifetime == 0)
  {
    if name == "" then Failure(NameCheck)
    else if lifetime == 0 && !useDefaults then Failure(LifetimeCheck)
    else
      var lifetime' := if useDefaults then DefaultLifetime else lifetime;
      if span == 0 && !useDefaults then Failure(IntervalCheck)
      else Success(Params(name, lifetime', if useDefaults then DefaultInterval else span))
  }

  /**
    The "UseDefaults" setting read with `bool.TryParse`: `setting` is None
    when the setting is absent or not a boolean.
  */
  function DefaultingFlag(setting: Option<bool>): (useDefaults: bool)
    ensures !useDefaults <==> setting == Some(false)
  {
    setting.GetOr(true)
  }

  /**
    One tick as the environment presents it: the age in minutes of the first
    process with the monitored name (None when there is none), and what the
    timed wait for console input returned (None when it timed out).
  */
  datatype Tick = Tick(process: Option<int>, wait: Option<string>)

  /** What one tick did about the monitored process */
  datatype Action = NoProcess | Killed(runtime: int) | Alive(remaining: int)

  /** The decision of one tick, before the wait */
  function Decide(maxLifetime: int, process: Option<int>): (a: Action)
    ensures a.NoProcess? <==> process.None?
    ensures a.Killed? <==> process.Some? && process.value >= maxLifetime
    ensures a.Killed? ==> a.runtime == process.value
    ensures a.Alive? ==> a.remaining > 0 && process == Some(maxLifetime - a.remaining)
  {
    match process
    case None => NoProcess
    case Some(runtime) =>
      if runtime >= maxLifetime then Killed(runtime) else Alive(maxLifetime - runtime)
  }

  /** `ToUpperInvariant` on the characters that have an ASCII upper case */
  function ToUpper(c: char): char {
    if 'a' <= c <= 'z' then (c as int - 32) as char else c
  }

  predicate EqualsIgnoreCase(a: string, b: string) {
    |a| == |b| && forall i :: 0 <= i < |a| ==> ToUpper(a[i]) == ToUpper(b[i])
  }

  /** `ConsoleKey.Q.ToString()` */
  const QuitKey: string := "Q"

  /** The only lines equal to the quit key ignoring case are "q" and "Q" */
  lemma QuitLines(line: string)
    ensures EqualsIgnoreCase(line, QuitKey) <==> line == "q" || line == "Q"
  { }

  /**
    `ReadLine`: true exactly when the wait delivered a line and that line is
    the quit key, ignoring case.
  */
  function ReadLine(wait: Option<string>): (quit: bool)
    ensures quit <==> wait == Some("q") || wait == Some("Q")
  {
    if wait.Some? then QuitLines(wait.value); EqualsIgnoreCase(wait.value, QuitKey) else false
  }

  /** The trace of a run of the loop and whether it ended on a quit */
  datatype Outcome = Outcome(actions: seq<Action>, quit: bool)

  /**
    The do-while loop of `Execute` over a finite script of ticks: every tick
    decides, then waits; the loop ends after the first tick whose wait reads
    the quit key, or when the script runs out.
  */
  function Watch(maxLifetime: int, ticks: seq<Tick>): (o: Outcome)
    ensures |o.actions| <= |ticks|
  {
    if ticks == [] then Outcome([], false)
    else
      var a := Decide(maxLifetime, ticks[0].process);
      if ReadLine(ticks[0].wait) then Outcome([a], true)
      else
        var rest := Watch(maxLifetime, ticks[1..]);
        Outcome([a] + rest.actions, rest.quit)
  }

  /**
    `Watch` is the only outcome that decides every tick it ran on that
    tick's observation and stops exactly after the first quit.
  */
  lemma {:induction false} WatchDeterminedByTicks(maxLifetime: int, ticks: seq<Tick>, o: Outcome)
    requires |o.actions| <= |ticks|
    requires forall j :: 0 <= j < |o.actions| ==> o.actions[j] == Decide(maxLifetime, ticks[j].process)
    requires forall j :: 0 <= j < |o.actions| ==> (ReadLine(ticks[j].wait) <==> o.quit && j == |o.actions| - 1)
    requires !o.quit ==> |o.actions| == |ticks|
    requires o.quit ==> |o.actions| > 0
    ensures Watch(maxLifetime, ticks) == o
  {
    if ticks != [] {
      if ReadLine(ticks[0].wait) {
        assert o.actions == [o.actions[0]];
      } else {
        var rest := Outcome(o.actions[1..], o.quit);
        forall j | 0 <= j < |rest.actions|
          ensures rest.actions[j] == Decide(maxLifetime, ticks[1..][j].process)
          ensures ReadLine(ticks[1..][j].wait) <==> rest.quit && j == |rest.actions| - 1
        {
          assert ticks[1..][j] == ticks[j + 1];
          assert rest.actions[j] == o.actions[j + 1];
        }
        WatchDeterminedByTicks(maxLifetime, ticks[1..], rest);
        assert o.actions == [o.actions[0]] + rest.actions;
      }
    }
  }

  /**
    The loop stops exactly at the first tick whose wait reads the quit key:
    every tick before it ran and none after it, whatever the process lookup
    found on that tick.
  */
  lemma {:induction false} WatchStopsAtFirstQuit(maxLifetime: int, ticks: seq<Tick>)
    ensures var o := Watch(maxLifetime, ticks);
      && (o.quit <==> exists i :: 0 <= i < |ticks| && ReadLine(ticks[i].wait))
      && (forall j :: 0 <= j < |o.actions| ==> (ReadLine(ticks[j].wait) <==> o.quit && j == |o.actions| - 1))
      && (!o.quit ==> |o.actions| == |ticks|)
      && (o.quit ==> |o.actions| > 0)
  {
    if ticks != [] && !ReadLine(ticks[0].wait) {
      WatchStopsAtFirstQuit(maxLifetime, ticks[1..]);
      var o := Watch(maxLifetime, ticks);
      if o.quit {
        var i :| 0 <= i < |ticks[1..]| && ReadLine(ticks[1..][i].wait);
        assert ReadLine(ticks[i + 1].wait);
      }
      forall j | 0 <= j < |o.actions|
        ensures ReadLine(ticks[j].wait) <==> o.quit && j == |o.actions| - 1
      {
        if j > 0 {
          assert ticks[j] == ticks[1..][j - 1];
        }
      }
    } else if ticks != [] {
      assert ReadLine(ticks[0].wait);
    }
  }

  /**
    Every tick that ran is decided on its own observation: the process is
    killed on exactly the ticks that found it at or past its lifetime, and
    otherwise reported alive with a positive remaining lifetime.
  */
  lemma {:induction false} WatchDecidesEachTick(maxLifetime: int, ticks: seq<Tick>)
    ensures var o := Watch(maxLifetime, ticks);
      forall i :: 0 <= i < |o.actions| ==> o.actions[i] == Decide(maxLifetime, ticks[i].process)
  {
    if ticks != [] && !ReadLine(ticks[0].wait) {
      WatchDecidesEachTick(maxLifetime, ticks[1..]);
      var o := Watch(maxLifetime, ticks);
      forall i | 0 <= i < |o.actions|
        ensures o.actions[i] == Decide(maxLifetime, ticks[i].process)
      {
        if i > 0 {
          assert ticks[i] == ticks[1..][i - 1];
        }
      }
    }
  }

  /**
    Ticks carry no state from one to the next: running a script whose first
    part has no quit is running the first part, then the rest.
  */
  lemma {:induction false} WatchAppend(maxLifetime: int, first: seq<Tick>, rest: seq<Tick>)
    requires forall i :: 0 <= i < |first| ==> !ReadLine(first[i].wait)
    ensures Watch(maxLifetime, first + rest)
         == Outcome(Watch(maxLifetime, first).actions + Watch(maxLifetime, rest).actions, Watch(maxLifetime, rest).quit)
  {
    if first == [] {
      assert first + rest == rest;
    } else {
      assert (first + rest)[0] == first[0];
      assert (first + rest)[1..] == first[1..] + rest;
      WatchAppend(maxLifetime, first[1..], rest);
    }
  }

  /** The last line a wait delivered in `ticks`, or `prev` when none did */
  function LastInput(prev: Option<string>, ticks: seq<Tick>): (line: Option<string>)
    ensures line == prev || exists i :: 0 <= i < |ticks| && line == ticks[i].wait
  {
    if ticks == [] then prev
    else
      match ticks[|ticks| - 1].wait
      case Some(l) => Some(l)
      case None => LastInput(prev, ticks[..|ticks| - 1])
  }

  /** One more tick: its delivered line replaces the stored input, and a timeout keeps it */
  lemma LastInputStep(prev: Option<string>, ticks: seq<Tick>, i: nat)
    requires i < |ticks|
    ensures LastInput(prev, ticks[..i + 1]) ==
      if ticks[i].wait.Some? then ticks[i].wait else LastInput(prev, ticks[..i])
  {
    assert ticks[..i + 1][..i] == ticks[..i];
  }

  /** Tick k's wait delivered a line and every later wait timed out */
  predicate IsLastDelivered(ticks: seq<Tick>, k: int)
  {
    0 <= k < |ticks| && ticks[k].wait.Some? && forall j :: k < j < |ticks| ==> ticks[j].wait.None?
  }

  /** When every wait timed out, the stored input is the previous value */
  lemma {:induction false} LastInputAllTimeouts(prev: Option<string>, ticks: seq<Tick>)
    requires forall j :: 0 <= j < |ticks| ==> ticks[j].wait.None?
    ensures LastInput(prev, ticks) == prev
  {
    if ticks != [] {
      var front := ticks[..|ticks| - 1];
      assert forall j :: 0 <= j < |front| ==> front[j] == ticks[j];
      LastInputAllTimeouts(prev, front);
    }
  }

  /** Otherwise it is the line of the last wait that delivered one */
  lemma {:induction false} LastInputLastDelivered(prev: Option<string>, ticks: seq<Tick>, k: int)
    requires IsLastDelivered(ticks, k)
    ensures LastInput(prev, ticks) == ticks[k].wait
  {
    var n := |ticks| - 1;
    if k < n {
      var front := ticks[..n];
      assert forall j :: 0 <= j < n ==> front[j] == ticks[j];
      LastInputLastDelivered(prev, front, k);
    }
  }
}
