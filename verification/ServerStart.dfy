/**
 The start of the device server: push, tunnel, execute, then attempts to connect, with one restart.  The object's
 handlers are called by whatever events come; the invariant bounds the attempts of a whole run and says how RUNNING is
 reached.
 */
module ServerStart {

  datatype StartStep = NoStep | Push | TunnelReverse | TunnelForward | Execute | Running

  datatype AdbResult = SuccessStart | SuccessExec | ErrorStart | ErrorExec | ErrorMissingBinary

  /** How one attempt ends: information read, nothing read yet, or no connection at all. */
  datatype Attempt = Connected | NothingRead | NotConnected

  datatype Event =
    | WorkResult(result: AdbResult, canListen: bool)
    | ServerResult(result: AdbResult)
    | ConnectTick(attempt: Attempt)
    | AcceptTick
    | NewVideo(ok: bool)
    | NewControl(ok: bool)
    | StopAsked

  const MAX_CONNECT_COUNT := 30
  const MAX_RESTART_COUNT := 1
  const CYCLE := MAX_CONNECT_COUNT + 1
  const ALL_ATTEMPTS := CYCLE * (MAX_RESTART_COUNT + 1)

  /** Which step may follow which; a failed reverse tunnel falls back to the forward one. */
  predicate Follows(a: StartStep, b: StartStep) {
    match a
    case Push => b.TunnelReverse? || b.TunnelForward?
    case TunnelReverse => b.TunnelForward? || b.Execute?
    case TunnelForward => b.Execute?
    case Execute => b.Running?
    case _ => false
  }

  /** The steps of one start so far: push, then a tunnel, then execute, then running, none left out. */
  predicate Path(steps: seq<StartStep>) {
    steps != [] && steps[0] == Push && forall i :: 0 < i < |steps| ==> Follows(steps[i - 1], steps[i])
  }

  function One(b: bool): nat { if b then 1 else 0 }

  function Sum(s: seq<nat>): nat {
    if s == [] then 0 else Sum(s[..|s| - 1]) + s[|s| - 1]
  }

  class Server {
    const useReverse: bool
    var step: StartStep
    var tunnelForward: bool
    var tunnelEnabled: bool
    var listening: bool
    var hasVideo: bool
    var hasControl: bool
    var acceptTimer: bool
    var connectTimer: bool
    var connectCount: nat
    var restartCount: nat
    var reports: seq<bool>          // `serverStarted`
    ghost var path: seq<StartStep>  // steps since the last push
    ghost var attempts: nat         // connection attempts since the server was made
    ghost var cycles: seq<nat>      // the same, for each time the connect timer was started

    /** Attempts that may still come. */
    ghost function Budget(): nat
      reads this
      requires restartCount <= MAX_RESTART_COUNT && connectCount <= MAX_CONNECT_COUNT
    {
      if connectTimer then CYCLE - connectCount + CYCLE * (MAX_RESTART_COUNT - restartCount)
      else if step.NoStep? || step.Running? then 0
      else CYCLE * (MAX_RESTART_COUNT + 1 - restartCount)
    }

    ghost predicate Inv()
      reads this
    {
      && restartCount <= MAX_RESTART_COUNT && connectCount <= MAX_CONNECT_COUNT
      && attempts + Budget() <= ALL_ATTEMPTS
      && (connectTimer ==> step.NoStep? || step.Running?)
      && (!step.NoStep? ==> path != [] && Path(path) && path[|path| - 1] == step)
      && (!step.NoStep? && !step.Running? ==> !tunnelEnabled)
      && (step.Push? || step.TunnelReverse? ==> !tunnelForward)
      && (step.TunnelForward? ==> tunnelForward)
      && (step.Execute? ==> |path| > 1 && tunnelForward == path[|path| - 2].TunnelForward?)
      && (connectTimer && tunnelForward ==> tunnelEnabled)
      && (listening ==> !tunnelForward && !step.Push? && !step.TunnelReverse?)
      && CyclesInv()
    }

    /** No cycle has more than its attempts, and there are no more cycles than starts. */
    ghost predicate CyclesInv()
      reads this
    {
      && attempts == Sum(cycles) && |cycles| <= MAX_RESTART_COUNT + 1
      && (forall i :: 0 <= i < |cycles| ==> cycles[i] <= CYCLE)
      && (connectTimer ==> 0 < |cycles| <= restartCount + 1 && cycles[|cycles| - 1] <= connectCount)
      && (!step.NoStep? && !step.Running? ==> |cycles| <= restartCount)
    }

    constructor (useReverse: bool)
      ensures Fresh() && this.useReverse == useReverse
      ensures !hasVideo && !hasControl && !acceptTimer && reports == []
    {
      this.useReverse := useReverse;
      step, tunnelForward, tunnelEnabled, listening, hasVideo, hasControl := NoStep, false, false, false, false, false;
      acceptTimer, connectTimer, connectCount, restartCount, reports := false, false, 0, 0, [];
      path, attempts, cycles := [], 0, [];
    }

    ghost predicate Fresh()
      reads this
    {
      step.NoStep? && !tunnelForward && !tunnelEnabled && !listening && !connectTimer && connectCount == restartCount == attempts == 0
      && cycles == []
    }

    method Report(success: bool)
      modifies this`reports
      ensures reports == old(reports) + [success]
    {
      reports := reports + [success];
    }

    method Enter(next: StartStep)
      requires path != [] && Path(path) && Follows(path[|path| - 1], next)
      modifies this`step, this`path
      ensures step == next && path == old(path) + [next] && Path(path)
    {
      step, path := next, path + [next];
    }

    /** `start`: the first step, pushing the server. */
    method Start()
      modifies this`step, this`path
      ensures step == Push && path == [Push] && Path(path)
    {
      step, path := Push, [Push];
    }

    method StopConnectTimer()
      modifies this`connectTimer, this`connectCount
      ensures !connectTimer && connectCount == 0
    {
      connectTimer, connectCount := false, 0;
    }

    /** `stop`: only the timer of the tunnel in use is stopped, so the forward timer goes on beside a reverse tunnel. */
    method Stop()
      modifies this`connectTimer, this`connectCount, this`acceptTimer, this`hasControl, this`tunnelForward, this`tunnelEnabled, this`listening
      ensures tunnelForward == (old(tunnelForward) && !old(tunnelEnabled)) && !tunnelEnabled && !listening && !hasControl
      ensures if old(tunnelForward) then !connectTimer && connectCount == 0 && acceptTimer == old(acceptTimer)
              else !acceptTimer && connectTimer == old(connectTimer) && connectCount == old(connectCount)
      ensures connectTimer <==> old(connectTimer && !tunnelForward)
    {
      if tunnelForward { StopConnectTimer(); } else { acceptTimer := false; }
      hasControl := false;
      if tunnelEnabled { tunnelForward, tunnelEnabled := false, false; }
      listening := false;
    }

    /** The cycle has failed: everything is stopped, then started once more or given up. */
    method EndCycle()
      requires connectTimer && restartCount <= MAX_RESTART_COUNT && (tunnelForward ==> tunnelEnabled)
      modifies this`step, this`path, this`restartCount, this`reports, this`connectTimer, this`connectCount
      modifies this`acceptTimer, this`hasControl, this`tunnelForward, this`tunnelEnabled, this`listening
      ensures !connectTimer && connectCount == 0 && !tunnelForward && !tunnelEnabled && !listening && !hasControl
      ensures if old(restartCount) < MAX_RESTART_COUNT
              then restartCount == old(restartCount) + 1 && step == Push && path == [Push] && Path(path) && reports == old(reports)
              else restartCount == 0 && step == old(step) && path == old(path) && reports == old(reports) + [false]
    {
      StopConnectTimer();
      Stop();
      if MAX_RESTART_COUNT > restartCount {
        restartCount := restartCount + 1;
        Start();
      } else {
        restartCount := 0;
        Report(false);
      }
    }

    ghost method CountAttempt()
      requires cycles != [] && attempts == Sum(cycles)
      modifies this`attempts, this`cycles
      ensures attempts == old(attempts) + 1 == Sum(cycles)
      ensures cycles == old(cycles[|cycles| - 1 := cycles[|cycles| - 1] + 1])
    {
      ghost var last := |cycles| - 1;
      attempts, cycles := attempts + 1, cycles[last := cycles[last] + 1];
      assert cycles[..last] == old(cycles[..last]);
    }

    /** An attempt that connected: both sockets are there and the tunnel is not needed any more. */
    method ConnectSucceeded()
      modifies this`connectTimer, this`connectCount, this`hasVideo, this`hasControl, this`tunnelEnabled
      modifies this`restartCount, this`reports
      ensures hasVideo && hasControl && !tunnelEnabled && !connectTimer && connectCount == restartCount == 0
      ensures reports == old(reports) + [true]
    {
      StopConnectTimer();
      hasVideo, hasControl := true, true;
      tunnelEnabled := false;
      restartCount := 0;
      Report(true);
    }

    /** One attempt of the connect timer: success, another try, or the end of the cycle and perhaps a restart. */
    method OnConnectTimer(attempt: Attempt)
      requires Inv()
      modifies this
      ensures Inv() && attempts == old(attempts) + One(old(connectTimer))
      ensures old(connectTimer) ==> Budget() < old(Budget())
      ensures old(connectTimer) ==> cycles == old(cycles[|cycles| - 1 := cycles[|cycles| - 1] + 1])
      ensures step.Running? ==> old(step).Running?
      ensures !old(connectTimer) ==> unchanged(this)
      ensures old(connectTimer) && attempt.Connected? ==>
        && reports == old(reports) + [true] && !connectTimer && connectCount == restartCount == 0
        && hasVideo && hasControl && !tunnelEnabled
        && unchanged(this`step, this`path, this`tunnelForward, this`listening, this`acceptTimer)
      ensures old(connectTimer) && !attempt.Connected? && (attempt.NotConnected? || old(connectCount) == MAX_CONNECT_COUNT) ==>
        && !connectTimer && connectCount == 0 && !tunnelForward && !tunnelEnabled && !listening && !hasControl
        && if old(restartCount) < MAX_RESTART_COUNT
           then restartCount == old(restartCount) + 1 && step == Push && path == [Push] && reports == old(reports)
           else restartCount == 0 && step == old(step) && reports == old(reports) + [false]
      ensures old(connectTimer) && attempt.NothingRead? && old(connectCount) < MAX_CONNECT_COUNT ==>
        && connectTimer && connectCount == old(connectCount) + 1
        && unchanged(this`step, this`path, this`tunnelForward, this`tunnelEnabled, this`listening, this`hasVideo)
        && unchanged(this`hasControl, this`acceptTimer, this`restartCount, this`reports)
    {
      hide Path, Sum;
      if !connectTimer { return; }
      CountAttempt();
      if attempt.Connected? {
        ConnectSucceeded();
        return;
      }
      if attempt.NotConnected? { connectCount := MAX_CONNECT_COUNT; }
      if MAX_CONNECT_COUNT <= connectCount {
        EndCycle();
      } else {
        connectCount := connectCount + 1;
      }
    }

    /** The adb commands of the first steps: the whole new state, given which step follows. */
    method OnWorkResult(result: AdbResult, canListen: bool)
      requires Inv()
      modifies this`step, this`path, this`tunnelForward, this`listening, this`reports
      ensures Inv() && Budget() <= old(Budget())
      ensures result.SuccessStart? || old(step).NoStep? || old(step).Execute? || old(step).Running? ==> unchanged(this)
      ensures old(step).Push? && result.SuccessExec? ==> step == if useReverse then TunnelReverse else TunnelForward
      ensures old(step).TunnelReverse? && result.SuccessExec? ==> step == if canListen then Execute else NoStep
      ensures old(step).TunnelForward? && result.SuccessExec? ==> step == Execute
      ensures !result.SuccessExec? && !result.SuccessStart? ==>
        && (old(step).TunnelReverse? ==> step == TunnelForward)
        && (old(step).Push? || old(step).TunnelForward? ==> step == NoStep)
      ensures path == if step == old(step) || step.NoStep? then old(path) else old(path) + [step]
      ensures tunnelForward == (old(tunnelForward) || step.TunnelForward?)
      ensures listening == (old(listening) || (old(step).TunnelReverse? && step.Execute?))
      ensures reports == old(reports) + if step.NoStep? && !old(step).NoStep? then [false] else []
    {
      hide Path, Sum;
      if result.SuccessStart? { return; }
      match step {
        case Push =>
          if result.SuccessExec? {
            if useReverse { Enter(TunnelReverse); } else { tunnelForward := true; Enter(TunnelForward); }
          } else {
            step := NoStep;
            Report(false);
          }
        case TunnelReverse =>
          if result.SuccessExec? {
            if canListen {
              listening := true;
              Enter(Execute);
            } else {
              step := NoStep;
              Report(false);
            }
          } else {
            tunnelForward := true;
            Enter(TunnelForward);
          }
        case TunnelForward =>
          if result.SuccessExec? { Enter(Execute); } else { step := NoStep; Report(false); }
        case _ =>
      }
    }

    /**
     The server process: its start leads to RUNNING and to connecting, a start that fails closes the socket again and is
     reported, and any later notice of a running process leaves RUNNING.
     */
    method OnServerResult(result: AdbResult)
      requires Inv()
      modifies this`step, this`path, this`tunnelEnabled, this`listening, this`reports
      modifies this`acceptTimer, this`connectTimer, this`connectCount, this`cycles
      ensures Inv() && Budget() <= old(Budget())
      ensures old(step).Execute? && result.SuccessStart? ==>
        && step.Running? && path == old(path) + [Running] && tunnelEnabled
        && connectTimer == (tunnelForward || hasVideo) && acceptTimer == (old(acceptTimer) || !connectTimer)
        && (connectTimer ==> connectCount == 0 && cycles == old(cycles) + [0])
        && listening == old(listening) && reports == old(reports)
      ensures old(step).Execute? && result.ErrorStart? ==>
        && step.NoStep? && !listening && reports == old(reports) + [false]
        && unchanged(this`path, this`tunnelEnabled, this`acceptTimer, this`connectTimer, this`connectCount, this`cycles)
      ensures old(step).Running? ==>
        && step.NoStep? && unchanged(this`path, this`tunnelEnabled, this`listening, this`reports)
        && unchanged(this`acceptTimer, this`connectTimer, this`connectCount, this`cycles)
      ensures !old(step).Running? && !(old(step).Execute? && (result.SuccessStart? || result.ErrorStart?)) ==> unchanged(this)
    {
      hide Path, Sum;
      if step.Execute? {
        if result.SuccessStart? {
          Enter(Running);
          tunnelEnabled := true;
          ConnectTo();
        } else if result.ErrorStart? {
          if !tunnelForward { listening := false; }
          step := NoStep;
          Report(false);
        }
      } else if step.Running? {
        step := NoStep;
      }
    }

    method ConnectTo()
      requires step.Running?
      modifies this`acceptTimer, this`connectTimer, this`connectCount, this`cycles
      ensures if !tunnelForward && !hasVideo
              then acceptTimer && unchanged(this`connectTimer, this`connectCount, this`cycles)
              else connectTimer && connectCount == 0 && acceptTimer == old(acceptTimer) && cycles == old(cycles) + [0]
      ensures Sum(cycles) == Sum(old(cycles))
    {
      if !tunnelForward && !hasVideo {
        acceptTimer := true;
        return;
      }
      StopConnectTimer();
      connectTimer, cycles := true, cycles + [0];
      assert cycles[..|cycles| - 1] == old(cycles);
    }

    /** A connection from the device to the listening socket: first the video socket, then the control socket. */
    method OnNewConnection(video: bool, ok: bool)
      requires Inv() && listening
      modifies this`hasVideo, this`hasControl, this`tunnelEnabled, this`tunnelForward, this`listening, this`reports
      modifies this`acceptTimer, this`connectTimer, this`connectCount
      ensures Inv() && Budget() <= old(Budget())
      ensures hasVideo == (old(hasVideo) || video) && unchanged(this`tunnelForward, this`connectTimer, this`connectCount)
      ensures video && ok ==> unchanged(this`hasControl, this`tunnelEnabled, this`listening, this`acceptTimer, this`reports)
      ensures !video && ok ==> hasControl && !tunnelEnabled && !listening && !acceptTimer && reports == old(reports) + [true]
      ensures !ok ==> !hasControl && !tunnelEnabled && !listening && !acceptTimer && reports == old(reports) + [false]
    {
      hide Path, Sum;
      if video {
        hasVideo := true;
        if !ok { Stop(); Report(false); }
      } else {
        hasControl := true;
        if ok {
          listening := false;
          tunnelEnabled := false;
          Report(true);
        } else {
          Stop();
          Report(false);
        }
        acceptTimer := false;
      }
    }

    /** The accept timer has run out: nobody connected over the reverse tunnel. */
    method OnAcceptTimer()
      requires Inv()
      modifies this`acceptTimer, this`reports
      ensures Inv() && !acceptTimer && reports == old(reports) + if old(acceptTimer) then [false] else []
    {
      hide Path, Sum;
      if acceptTimer {
        acceptTimer := false;
        Report(false);
      }
    }

    /** One event; ticks of timers that are off, and connections while nothing listens, do not come. */
    method Handle(e: Event)
      requires Inv()
      modifies this
      ensures Inv()
      ensures step.Running? && !old(step).Running? ==> old(step).Execute? && e.ServerResult? && e.result.SuccessStart?
      ensures attempts == old(attempts) + One(e.ConnectTick? && old(connectTimer))
      ensures listening && !old(listening) ==> e.WorkResult? && e.result.SuccessExec? && e.canListen && old(step).TunnelReverse?
      ensures connectTimer && !old(connectTimer) ==> e.ServerResult? && (tunnelForward || hasVideo)
      ensures e.AcceptTick? ==> reports == old(reports) + if old(acceptTimer) then [false] else []
      ensures e.NewVideo? && old(listening) ==> hasVideo && reports == old(reports) + if e.ok then [] else [false]
      ensures e.NewControl? && old(listening) ==> hasControl == e.ok && !listening && reports == old(reports) + [e.ok]
      ensures (e.NewVideo? || e.NewControl?) && !old(listening) ==> unchanged(this)
      ensures e.StopAsked? ==> !listening && !hasControl && !tunnelEnabled && reports == old(reports) && step == old(step)
    {
      hide Path, Sum;
      match e {
        case WorkResult(result, canListen) => OnWorkResult(result, canListen);
        case ServerResult(result) => OnServerResult(result);
        case ConnectTick(attempt) => OnConnectTimer(attempt);
        case AcceptTick => OnAcceptTimer();
        case NewVideo(ok) => if listening { OnNewConnection(true, ok); }
        case NewControl(ok) => if listening { OnNewConnection(false, ok); }
        case StopAsked => Stop();
      }
    }

    /** A whole run of one start: at most two cycles, at most 31 attempts in each and so 62 in all, whatever happens. */
    method Run(events: seq<Event>)
      requires Fresh()
      modifies this
      ensures Inv() && attempts == Sum(cycles) <= 62 && connectCount <= 30 && restartCount <= 1
      ensures |cycles| <= 2 && forall i :: 0 <= i < |cycles| ==> cycles[i] <= 31
    {
      Start();
      var i := 0;
      while i < |events|
        invariant 0 <= i <= |events| && Inv()
      {
        Handle(events[i]);
        i := i + 1;
      }
    }
  }

  /**
   The forward timer beside a reverse tunnel: the socket listens before the process is executed, so a connection may be
   accepted before the process reports its start.  The timer then started outlives `stop`.
   */
  method TimerOutlivesStop() returns (server: Server)
    ensures server.connectTimer && !server.tunnelForward && !server.listening && !server.tunnelEnabled
    ensures server.step.Running? && server.reports == []
  {
    hide Path;
    server := new Server(true);
    server.Start();
    server.OnWorkResult(SuccessExec, true);
    assert server.step.TunnelReverse?;
    server.OnWorkResult(SuccessExec, true);
    assert server.step.Execute? && server.listening && !server.tunnelForward && server.reports == [];
    server.OnNewConnection(true, true);
    assert server.step.Execute? && server.hasVideo && !server.tunnelForward && server.reports == [];
    server.OnServerResult(SuccessStart);
    assert server.step.Running? && server.connectTimer && !server.tunnelForward && server.reports == [];
    server.Stop();
  }

  /** RUNNING is reached through a push, a tunnel and the execution of the server, in that order. */
  lemma RunningPaths(steps: seq<StartStep>)
    requires Path(steps) && steps[|steps| - 1] == Running
    ensures steps == [Push, TunnelReverse, Execute, Running]
         || steps == [Push, TunnelForward, Execute, Running]
         || steps == [Push, TunnelReverse, TunnelForward, Execute, Running]
  {
    var n := |steps|;
    assert n > 1 && Follows(steps[0], steps[1]);
    assert n > 2 && Follows(steps[1], steps[2]);
    assert n > 3 && Follows(steps[2], steps[3]);
    if n > 4 { assert Follows(steps[3], steps[4]); }
    assert n > 5 ==> Follows(steps[4], steps[5]);
  }
}
