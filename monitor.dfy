/**
 * PrinterMonitor as the object Klipper_server.py defines: two fields that its
 * methods update in place, plus the log of messages handed to the sender.
 * Every method is proved to do what MonitorSpec says one step does, and
 * Start models main in Klipper_monitor.py.
 */
module Monitor {
  import opened Wrappers
  import opened Formatting
  import opened MonitorSpec

  class PrinterMonitor {
    var lastState: Option<string>
    var currentPrintInfo: Option<PrintInfo>
    /** Every message handed to the sender so far, in order. */
    var sent: seq<Notification>
    /** Seconds slept between polls (the configured check_interval). */
    const checkInterval: int

    function State(): MonitorState
      reads this
    {
      MonitorState(lastState, currentPrintInfo)
    }

    constructor (checkInterval: int)
      ensures State() == Initial && sent == []
      ensures this.checkInterval == checkInterval
    {
      lastState := None;
      currentPrintInfo := None;
      sent := [];
      this.checkInterval := checkInterval;
    }

    /** check_state_change: always stores the polled state, and reports a change only from a stored one. */
    method CheckStateChange(currentState: string) returns (changed: bool, oldState: Option<string>, newState: Option<string>)
      modifies this`lastState
      ensures Change(changed, oldState, newState) == StateChange(old(lastState), currentState)
      ensures changed <==> old(lastState).Some? && old(lastState) != Some(currentState)
      ensures lastState == Some(currentState)
    {
      if lastState != Some(currentState) {
        var previous := lastState;
        lastState := Some(currentState);
        if previous.Some? {
          return true, previous, Some(currentState);
        }
      }
      return false, None, None;
    }

    method HandlePrintStart(stats: PrintStats, now: string)
      modifies this`currentPrintInfo, this`sent
      ensures currentPrintInfo == JobAfter(PrintStart, stats, Env(now, None))
      ensures sent == old(sent) + [Notify(PrintStart, stats, Env(now, None))]
    {
      var filename := stats.filename.GetOr(UnknownFile);
      sent := sent + [Notification(Broadcast, StartMessage(filename, now), None)];
      currentPrintInfo := Some(PrintInfo(filename, now, stats.filamentUsed.GetOr(0)));
    }

    method HandlePrintComplete(stats: PrintStats, now: string, image: Option<Image>)
      modifies this`currentPrintInfo, this`sent
      ensures currentPrintInfo == None
      ensures sent == old(sent) + [Notify(PrintComplete, stats, Env(now, image))]
    {
      var filename := stats.filename.GetOr(UnknownFile);
      var elapsed := Split(stats.printDuration.GetOr(0));
      var filament := stats.filamentUsed.GetOr(0);
      sent := sent + [Notification(Broadcast, CompleteMessage(filename, elapsed, filament, now), image)];
      currentPrintInfo := None;
    }

    method HandlePrintCancelled(stats: PrintStats, now: string)
      modifies this`currentPrintInfo, this`sent
      ensures currentPrintInfo == None
      ensures sent == old(sent) + [Notify(PrintCancelled, stats, Env(now, None))]
    {
      var filename := stats.filename.GetOr(UnknownFile);
      var elapsed := Split(stats.printDuration.GetOr(0));
      var filament := stats.filamentUsed.GetOr(0);
      sent := sent + [Notification(Broadcast, CancelledMessage(filename, elapsed, filament, now), None)];
      currentPrintInfo := None;
    }

    method HandlePrintError(stats: PrintStats, now: string, image: Option<Image>)
      modifies this`currentPrintInfo, this`sent
      ensures currentPrintInfo == None
      ensures sent == old(sent) + [Notify(PrintError, stats, Env(now, image))]
    {
      var filename := stats.filename.GetOr(UnknownFile);
      var errorText := stats.message.GetOr(UnknownError);
      sent := sent + [Notification(Broadcast, ErrorMessage(filename, errorText, now), image)];
      currentPrintInfo := None;
    }

    /** One iteration of monitor_loop's body, with the poll's result and the world's answers as parameters. */
    method MonitorOnce(poll: Option<Status>, env: Env)
      modifies this`lastState, this`currentPrintInfo, this`sent
      ensures State() == Step(old(State()), poll, env).state
      ensures sent == old(sent) + Step(old(State()), poll, env).outbox
    {
      if poll.None? {
        return;
      }
      var status := poll.value;
      if status.printStats.None? || status.printStats.value.state.None? {
        // the KeyError raised before last_state is touched, caught by the loop
        return;
      }
      var stats := status.printStats.value;
      var changed, oldState, newState := CheckStateChange(stats.state.value);
      if changed {
        if newState == Some(Printing) && oldState != Some(Printing) {
          HandlePrintStart(stats, env.now);
        } else if newState == Some("complete") && oldState == Some(Printing) {
          HandlePrintComplete(stats, env.now, env.image);
        } else if newState == Some("cancelled") && oldState == Some(Printing) {
          HandlePrintCancelled(stats, env.now);
        } else if newState == Some("error") && oldState == Some(Printing) {
          HandlePrintError(stats, env.now, env.image);
        }
      }
    }

    /** monitor_loop over a finite run of polls. */
    method MonitorLoop(polls: seq<Poll>)
      modifies this`lastState, this`currentPrintInfo, this`sent
      ensures State() == Run(old(State()), polls).state
      ensures sent == old(sent) + Run(old(State()), polls).outbox
    {
      var i := 0;
      while i < |polls|
        invariant 0 <= i <= |polls|
        invariant State() == Run(old(State()), polls[..i]).state
        invariant sent == old(sent) + Run(old(State()), polls[..i]).outbox
      {
        RunSnoc(old(State()), polls[..i], polls[i]);
        assert polls[..i + 1] == polls[..i] + [polls[i]];
        MonitorOnce(polls[i].status, polls[i].env);
        i := i + 1;
      }
      assert polls[..|polls|] == polls;
    }
  }

  /**
   * main: build the monitor, fetch the status once and, when that fetch
   * succeeded, store its state before the loop starts. None when main stops
   * on a status that has no print_stats state.
   */
  method Start(checkInterval: int, initial: Option<Status>) returns (r: Option<PrinterMonitor>)
    ensures r.Some? <==> Seed(initial).Success?
    ensures r.Some? ==> fresh(r.value) && r.value.State() == Seed(initial).value && r.value.sent == []
  {
    var monitor := new PrinterMonitor(checkInterval);
    if initial.Some? {
      var status := initial.value;
      if status.printStats.None? || status.printStats.value.state.None? {
        return None;
      }
      monitor.lastState := status.printStats.value.state;
    }
    return Some(monitor);
  }
}
