/** The runner's own process (main.go): how stdin reaches the child, how commands are sent
    to the server (through `rcon-cli` or its console), how a stop is requested, and the
    signal/exit event loop that drives it. Each timer callback and the child's exit are
    events taken one at a time, in the order they reach the loop. */
module Runner {
  import opened Wrappers
  import opened Environment
  import Text

  /** The flags of `Args` that the stop logic and the stdin wiring read. Durations are
      Go `time.Duration` values in nanoseconds. */
  datatype Args = Args(
    stopCommand: string,
    stopDuration: int,
    stopServerAnnounceDelay: int,
    detachStdin: bool,
    remoteConsole: bool,
    namedPipe: string)

  /** Everything outside the loop that decides what it does: the flags, the environment,
      whether `rcon-cli` is on the PATH, whether running it succeeds, and the announcement
      text `announceStop` formats from the delay. */
  datatype Setup = Setup(args: Args, env: Env, rconOnPath: bool, rconSucceeds: bool, announcement: string)

  /** `hasRconCli`: RCON is enabled (in any letter case) and `rcon-cli` can be found. */
  function HasRconCli(env: Env, rconOnPath: bool): (has: bool)
    ensures has <==> Text.ToUpper(Getenv(env, "ENABLE_RCON")) == "TRUE" && rconOnPath
  {
    if Text.ToUpper(Getenv(env, "ENABLE_RCON")) == "TRUE" then rconOnPath else false
  }

  /** Any letter case of "true" enables RCON, and nothing else does. */
  lemma EnableRconCaseInsensitive(env: Env)
    ensures HasRconCli(env, true) <==>
              var v := Getenv(env, "ENABLE_RCON");
              |v| == 4 && v[0] in "tT" && v[1] in "rR" && v[2] in "uU" && v[3] in "eE"
  {
    var v := Getenv(env, "ENABLE_RCON");
    var u := Text.ToUpper(v);
    if u == "TRUE" {
      assert u[0] == 'T' && u[1] == 'R' && u[2] == 'U' && u[3] == 'E';
    }
    if |v| == 4 && v[0] in "tT" && v[1] in "rR" && v[2] in "uU" && v[3] in "eE" {
      assert u == "TRUE";
    }
  }

  /** `sendRconCommand`'s arguments to `rcon-cli`: the configuration file when one is set,
      otherwise the port and password with their defaults; then the command words. */
  function RconArgs(env: Env, cmd: seq<string>): (args: seq<string>)
    ensures Getenv(env, "RCON_CONFIG_FILE") != "" ==>
              args == ["--config", env["RCON_CONFIG_FILE"]] + cmd
    ensures Getenv(env, "RCON_CONFIG_FILE") == "" ==>
              args == ["--port", GetenvOr(env, "RCON_PORT", "25575"),
                       "--password", GetenvOr(env, "RCON_PASSWORD", "minecraft")] + cmd
    ensures args[|args| - |cmd|..] == cmd
  {
    var rconConfigFile := Getenv(env, "RCON_CONFIG_FILE");
    if rconConfigFile == "" then
      ["--port", GetenvOr(env, "RCON_PORT", "25575"), "--password", GetenvOr(env, "RCON_PASSWORD", "minecraft")] + cmd
    else
      ["--config", rconConfigFile] + cmd
  }

  /** An observable action of the runner. */
  datatype Effect =
    | StdinWrite(data: string)          // one write to the child's stdin
    | RconRun(args: seq<string>)        // one run of `rcon-cli` with these arguments
    | DelayTimerArmed(after: int)       // `time.AfterFunc` that will call `terminate`
    | KillTimerArmed(after: int)        // `time.AfterFunc` that will kill the child

  function HasRcon(s: Setup): bool
  {
    HasRconCli(s.env, s.rconOnPath)
  }

  /** `sendCommand`: through `rcon-cli` when it is available, otherwise the words joined by
      single spaces written to stdin as they are (no newline is added). */
  function SendCommandEffects(s: Setup, cmd: seq<string>): (r: seq<Effect>)
    ensures |r| == 1
    ensures HasRcon(s) <==> r[0].RconRun?
    ensures r[0].RconRun? ==> r[0].args == RconArgs(s.env, cmd)
    ensures r[0].StdinWrite? ==> r[0].data == Text.Join(cmd, " ")
  {
    if HasRcon(s) then [RconRun(RconArgs(s.env, cmd))] else [StdinWrite(Text.Join(cmd, " "))]
  }

  /** The command `terminate` sends: the configured one, or "stop" when that is empty. */
  function StopCommand(s: Setup): (c: string)
    ensures c != ""
  {
    if s.args.stopCommand == "" then "stop" else s.args.stopCommand
  }

  /** `terminate`: ask the server to stop (through `rcon-cli`, falling back to the console
      when that fails; otherwise through the console: the command and "\n"), then arm
      the kill timer unless the stop duration is zero. */
  function TerminateEffects(s: Setup): (r: seq<Effect>)
    ensures |r| >= 1
    ensures (StdinWrite(StopCommand(s) + "\n") in r) <==> !(HasRcon(s) && s.rconSucceeds)
    ensures (KillTimerArmed(s.args.stopDuration) in r) <==> s.args.stopDuration != 0
    ensures HasRcon(s) <==> r[0] == RconRun(RconArgs(s.env, [StopCommand(s)]))
    ensures forall k :: 0 <= k < |r| ==> !r[k].DelayTimerArmed?
  {
    StopRequest(s) + KillTimer(s)
  }

  function StopRequest(s: Setup): seq<Effect>
  {
    var stop := StopCommand(s);
    if HasRcon(s) then
      [RconRun(RconArgs(s.env, [stop]))] + (if s.rconSucceeds then [] else [StdinWrite(stop + "\n")])
    else [StdinWrite(stop + "\n")]
  }

  function KillTimer(s: Setup): seq<Effect>
  {
    if s.args.stopDuration != 0 then [KillTimerArmed(s.args.stopDuration)] else []
  }

  /** How `cmd.Wait` ended. */
  datatype WaitResult = Exited | ExitError(code: int) | OtherError(msg: string)

  /** The child-waiting goroutine: a clean exit sends 0, an exit-status error its code,
      and any other error sends nothing. */
  function ExitCodeFor(w: WaitResult): (code: Option<int>)
    ensures w.OtherError? <==> code.None?
    ensures w.ExitError? ==> code == Some(w.code)
    ensures w.Exited? ==> code == Some(0)
  {
    match w
    case Exited => Some(0)
    case ExitError(c) => Some(c)
    case OtherError(_) => None
  }

  /** What reaches the loop's `select`. `DelayElapsed` is the current delay timer firing;
      `OrphanElapsed` is one that a later SIGTERM replaced in the `timer` variable, but
      which still fires. */
  datatype Event =
    | SigTerm
    | SigUsr1
    | DelayElapsed
    | OrphanElapsed
    | NamedPipeError(msg: string)
    | ChildWaited(result: WaitResult)

  /** The `timer` variable: nil, a timer that `Stop` can still cancel, or one that has
      fired or been stopped. */
  datatype Timer = NoTimer | Armed | Spent

  /** The loop's state and what it has done so far. */
  datatype Loop = Loop(timer: Timer, orphans: nat, terminations: nat, effects: seq<Effect>, exit: Option<int>)

  const Initial := Loop(NoTimer, 0, 0, [], None)

  function Terminated(s: Setup, l: Loop): Loop
  {
    l.(effects := l.effects + TerminateEffects(s), terminations := l.terminations + 1)
  }

  /** One pass of the `select` loop. */
  function Step(s: Setup, l: Loop, e: Event): Loop
  {
    match e
    case SigTerm =>
      if s.args.stopServerAnnounceDelay > 0 then
        l.(effects := l.effects + SendCommandEffects(s, ["say", s.announcement])
                      + [DelayTimerArmed(s.args.stopServerAnnounceDelay)],
           timer := Armed,
           orphans := if l.timer == Armed then l.orphans + 1 else l.orphans)
      else Terminated(s, l)
    case SigUsr1 =>
      if l.timer == Armed then Terminated(s, l).(timer := Spent)
      else if l.timer == NoTimer then Terminated(s, l)
      else l
    case DelayElapsed =>
      if l.timer == Armed then Terminated(s, l).(timer := Spent) else l
    case OrphanElapsed =>
      if l.orphans > 0 then Terminated(s, l).(orphans := l.orphans - 1) else l
    case NamedPipeError(_) => l
    case ChildWaited(w) =>
      if ExitCodeFor(w).Some? then l.(exit := ExitCodeFor(w)) else l
  }

  /** The loop over a run of events; once an exit code arrives the process exits and no
      further event is handled. */
  function RunSpec(s: Setup, l: Loop, events: seq<Event>): Loop
    decreases |events|
  {
    if |events| == 0 || l.exit.Some? then l
    else RunSpec(s, Step(s, l, events[0]), events[1..])
  }

  /** Timers that will still call `terminate`. */
  function Pending(l: Loop): nat
  {
    (if l.timer == Armed then 1 else 0) + l.orphans
  }

  function Signals(events: seq<Event>): nat
  {
    if |events| == 0 then 0
    else (if events[0] == SigTerm || events[0] == SigUsr1 then 1 else 0) + Signals(events[1..])
  }

  /** Every `terminate` call, made or still pending on a timer, is owed to a distinct
      SIGTERM or SIGUSR1: the loop never stops the server more often than it is asked. */
  lemma {:induction false} TerminationsBounded(s: Setup, l: Loop, events: seq<Event>)
    ensures RunSpec(s, l, events).terminations + Pending(RunSpec(s, l, events))
              <= l.terminations + Pending(l) + Signals(events)
    decreases |events|
  {
    if |events| > 0 && l.exit.None? {
      var l' := Step(s, l, events[0]);
      assert l'.terminations + Pending(l')
               <= l.terminations + Pending(l) + (if events[0] == SigTerm || events[0] == SigUsr1 then 1 else 0);
      TerminationsBounded(s, l', events[1..]);
    }
  }

  /** `n` copies of `t`, one after another. */
  function Repeat(t: seq<Effect>, n: nat): seq<Effect>
  {
    if n == 0 then [] else t + Repeat(t, n - 1)
  }

  function SigTerms(n: nat): seq<Event>
  {
    seq(n, _ => SigTerm)
  }

  /** An effect of `t` occurs at least `n` times in `n` copies of it. */
  lemma {:induction false} RepeatCount(t: seq<Effect>, n: nat, x: Effect)
    requires x in t
    ensures multiset(Repeat(t, n))[x] >= n
  {
    if n > 0 {
      RepeatCount(t, n - 1, x);
      assert multiset(Repeat(t, n)) == multiset(t) + multiset(Repeat(t, n - 1));
    }
  }

  /** Without an announce delay, every SIGTERM runs `terminate` again, in full. */
  lemma {:induction false} SigTermsTerminateEach(s: Setup, l: Loop, n: nat)
    requires s.args.stopServerAnnounceDelay <= 0 && l.exit.None?
    ensures var r := RunSpec(s, l, SigTerms(n));
            && r.terminations == l.terminations + n
            && r.effects == l.effects + Repeat(TerminateEffects(s), n)
    decreases n
  {
    var t := TerminateEffects(s);
    if n == 0 {
      assert l.effects + Repeat(t, 0) == l.effects;
    } else {
      var l' := SigTermWithoutDelay(s, l);
      assert SigTerms(n)[1..] == SigTerms(n - 1);
      SigTermsTerminateEach(s, l', n - 1);
      assert l.effects + t + Repeat(t, n - 1) == l.effects + Repeat(t, n);
    }
  }

  /** So the loop stops the server as often as it is asked: with no announce delay and a
      non-zero stop duration, `n` SIGTERMs run `terminate` `n` times and arm (at least)
      `n` kill timers; nothing ensures the child is killed only once. */
  lemma RepeatedSigTermArmsRepeatedKills(s: Setup, n: nat)
    requires s.args.stopServerAnnounceDelay <= 0 && s.args.stopDuration != 0
    ensures var r := RunSpec(s, Initial, SigTerms(n));
            && r.terminations == n
            && multiset(r.effects)[KillTimerArmed(s.args.stopDuration)] >= n
  {
    var t := TerminateEffects(s);
    var x := KillTimerArmed(s.args.stopDuration);
    SigTermsTerminateEach(s, Initial, n);
    RepeatCount(t, n, x);
    assert [] + Repeat(t, n) == Repeat(t, n);
  }

  /** Without an announce delay, a SIGTERM is one `terminate`. */
  lemma SigTermWithoutDelay(s: Setup, l: Loop) returns (l': Loop)
    requires s.args.stopServerAnnounceDelay <= 0
    ensures l' == Step(s, l, SigTerm)
    ensures l'.effects == l.effects + TerminateEffects(s) && l'.terminations == l.terminations + 1
    ensures l'.exit == l.exit
  {
    l' := Step(s, l, SigTerm);
  }

  /** A SIGUSR1 while the delay timer is running stops it and terminates at once; a second
      SIGUSR1 then finds the timer already spent and does nothing. */
  lemma SigUsr1BypassesOnce(s: Setup, l: Loop)
    requires l.timer == Armed && l.exit.None?
    ensures var r := RunSpec(s, l, [SigUsr1, SigUsr1, DelayElapsed]);
            r.terminations == l.terminations + 1 && r.timer == Spent && r.orphans == l.orphans
  {
    var e := [SigUsr1, SigUsr1, DelayElapsed];
    assert e[1..] == [SigUsr1, DelayElapsed] && e[1..][1..] == [DelayElapsed] && e[1..][1..][1..] == [];
  }

  /** A second SIGTERM during the announce delay replaces the timer in `timer`, but the
      first one still fires: a SIGUSR1 then stops only the second, and the server is
      told to stop twice. */
  lemma SecondSigTermOrphansTimer(s: Setup)
    requires s.args.stopServerAnnounceDelay > 0
    ensures var r := RunSpec(s, Initial, [SigTerm, SigTerm, SigUsr1, OrphanElapsed]);
            r.terminations == 2 && r.orphans == 0 && r.timer == Spent
  {
    var e := [SigTerm, SigTerm, SigUsr1, OrphanElapsed];
    assert e[1..] == [SigTerm, SigUsr1, OrphanElapsed];
    assert e[1..][1..] == [SigUsr1, OrphanElapsed];
    assert e[1..][1..][1..] == [OrphanElapsed];
    assert e[1..][1..][1..][1..] == [];
  }

  /** An exit code ends the loop: the process exits with it and later events change
      nothing. */
  lemma {:induction false} ExitEndsLoop(s: Setup, l: Loop, w: WaitResult, rest: seq<Event>)
    requires l.exit.None? && ExitCodeFor(w).Some?
    ensures RunSpec(s, l, [ChildWaited(w)] + rest) == l.(exit := ExitCodeFor(w))
  {
    assert ([ChildWaited(w)] + rest)[1..] == rest;
    var l' := Step(s, l, ChildWaited(w));
    assert l' == l.(exit := ExitCodeFor(w));
    if |rest| > 0 {
      assert RunSpec(s, l', rest) == l';
    }
  }

  /** The text the child's stdin receives, all writes run together. */
  function StdinText(effects: seq<Effect>): string
  {
    if |effects| == 0 then ""
    else (if effects[0].StdinWrite? then effects[0].data else "") + StdinText(effects[1..])
  }

  lemma {:induction false} StdinTextAppend(a: seq<Effect>, b: seq<Effect>)
    ensures StdinText(a + b) == StdinText(a) + StdinText(b)
  {
    if |a| > 0 {
      assert (a + b)[0] == a[0];
      assert (a + b)[1..] == a[1..] + b;
      StdinTextAppend(a[1..], b);
    } else {
      assert a + b == b;
    }
  }

  /** Without RCON, the announcement goes to the console with no newline after it, so
      when the delay elapses the stop command is appended to the same line: the server
      reads one line "say <announcement><stop command>". */
  lemma AnnouncementRunsIntoStop(s: Setup)
    requires !HasRcon(s) && s.args.stopServerAnnounceDelay > 0
    ensures StdinText(RunSpec(s, Initial, [SigTerm, DelayElapsed]).effects)
              == "say " + s.announcement + StopCommand(s) + "\n"
  {
    AnnounceThenElapse(s);
    var say := SendCommandEffects(s, ["say", s.announcement]);
    var armed := [DelayTimerArmed(s.args.stopServerAnnounceDelay)];
    SayText(s);
    StdinTextOne(armed[0]);
    StopText(s);
    StdinTextAppend(say, armed);
    StdinTextAppend(say + armed, TerminateEffects(s));
  }

  lemma StdinTextOne(e: Effect)
    ensures StdinText([e]) == if e.StdinWrite? then e.data else ""
  {
    assert [e][1..] == [];
  }

  lemma SayText(s: Setup)
    requires !HasRcon(s)
    ensures StdinText(SendCommandEffects(s, ["say", s.announcement])) == "say " + s.announcement
  {
    assert ["say", s.announcement][1..] == [s.announcement];
    assert Text.Join([s.announcement], " ") == s.announcement;
    assert Text.Join(["say", s.announcement], " ") == "say" + " " + s.announcement;
    var say := SendCommandEffects(s, ["say", s.announcement]);
    assert say == [say[0]];
    StdinTextOne(say[0]);
  }

  lemma StopText(s: Setup)
    requires !HasRcon(s)
    ensures StdinText(TerminateEffects(s)) == StopCommand(s) + "\n"
  {
    var stop := [StdinWrite(StopCommand(s) + "\n")];
    assert StopRequest(s) == stop;
    StdinTextOne(stop[0]);
    if s.args.stopDuration != 0 {
      StdinTextOne(KillTimer(s)[0]);
    }
    StdinTextAppend(stop, KillTimer(s));
  }

  lemma AnnounceThenElapse(s: Setup)
    requires s.args.stopServerAnnounceDelay > 0
    ensures RunSpec(s, Initial, [SigTerm, DelayElapsed]).effects
              == SendCommandEffects(s, ["say", s.announcement])
                 + [DelayTimerArmed(s.args.stopServerAnnounceDelay)] + TerminateEffects(s)
  {
    var e := [SigTerm, DelayElapsed];
    assert e[1..] == [DelayElapsed] && e[1..][1..] == [];
    assert [] + SendCommandEffects(s, ["say", s.announcement]) == SendCommandEffects(s, ["say", s.announcement]);
  }

  /** Where the runner's own stdin goes. */
  datatype StdinWiring =
    | ConsoleInRelay   // `consoleInRoutine` copies it line by line through the console
    | Unread           // detached: nothing reads it
    | DirectToChild    // the child inherits it; the runner's "stdin" writer becomes its own stdin
    | CopyRelay        // `relayStdin` copies it byte for byte into the child's stdin pipe

  /** The stdin decision: with the remote console, relay unless detached; without it,
      hand it straight to the child when RCON is available and no named pipe is used,
      and copy it otherwise (detaching then makes no difference). */
  function WireStdin(args: Args, env: Env, rconOnPath: bool): (w: StdinWiring)
    ensures args.remoteConsole ==> (w == ConsoleInRelay <==> !args.detachStdin) && w != DirectToChild && w != CopyRelay
    ensures !args.remoteConsole ==>
              (w == DirectToChild <==> HasRconCli(env, rconOnPath) && args.namedPipe == "")
              && w != ConsoleInRelay && w != Unread
  {
    if args.remoteConsole then
      if !args.detachStdin then ConsoleInRelay else Unread
    else if HasRconCli(env, rconOnPath) && args.namedPipe == "" then DirectToChild
    else CopyRelay
  }

  /** The main goroutine's loop, with its `timer` variable and the effects it has had. */
  class EventLoop {
    const setup: Setup
    var timer: Timer
    var orphans: nat
    var terminations: nat
    var effects: seq<Effect>
    var exit: Option<int>

    function State(): Loop
      reads this
    {
      Loop(timer, orphans, terminations, effects, exit)
    }

    constructor (setup: Setup)
      ensures this.setup == setup && State() == Initial
    {
      this.setup := setup;
      timer := NoTimer;
      orphans := 0;
      terminations := 0;
      effects := [];
      exit := None;
    }

    /** `sendCommand`. */
    method SendCommand(cmd: seq<string>) returns (err: Outcome)
      modifies this`effects
      ensures effects == old(effects) + SendCommandEffects(setup, cmd)
      ensures err.Fail? <==> HasRcon(setup) && !setup.rconSucceeds
    {
      if HasRconCli(setup.env, setup.rconOnPath) {
        effects := effects + [RconRun(RconArgs(setup.env, cmd))];
        err := if setup.rconSucceeds then Pass else Fail("exit status 1");
      } else {
        effects := effects + [StdinWrite(Text.Join(cmd, " "))];
        err := Pass;
      }
    }

    /** `stopViaConsole`: the stop command and a newline, written to stdin. */
    method StopViaConsole(stopCommand: string)
      modifies this`effects
      ensures effects == old(effects) + [StdinWrite(stopCommand + "\n")]
    {
      effects := effects + [StdinWrite(stopCommand + "\n")];
    }

    /** `terminate`. */
    method Terminate()
      modifies this`effects, this`terminations
      ensures effects == old(effects) + TerminateEffects(setup)
      ensures terminations == old(terminations) + 1
    {
      var stopCommand := setup.args.stopCommand;
      if stopCommand == "" {
        stopCommand := "stop";
      }
      ghost var before := effects;
      if HasRconCli(setup.env, setup.rconOnPath) {
        effects := effects + [RconRun(RconArgs(setup.env, [stopCommand]))];
        if !setup.rconSucceeds {
          StopViaConsole(stopCommand);
        }
      } else {
        StopViaConsole(stopCommand);
      }
      assert effects == before + StopRequest(setup);
      if setup.args.stopDuration != 0 {
        effects := effects + [KillTimerArmed(setup.args.stopDuration)];
      }
      assert effects == before + (StopRequest(setup) + KillTimer(setup));
      terminations := terminations + 1;
    }

    /** One case of the `select`. */
    method Handle(e: Event)
      requires exit.None?
      modifies this
      ensures State() == Step(setup, old(State()), e)
    {
      match e {
        case SigTerm =>
          if setup.args.stopServerAnnounceDelay > 0 {
            var _ := SendCommand(["say", setup.announcement]);
            effects := effects + [DelayTimerArmed(setup.args.stopServerAnnounceDelay)];
            if timer == Armed {
              orphans := orphans + 1;
            }
            timer := Armed;
          } else {
            Terminate();
          }
        case SigUsr1 =>
          if timer == Armed {
            timer := Spent;
            Terminate();
          } else if timer == NoTimer {
            Terminate();
          }
        case DelayElapsed =>
          if timer == Armed {
            timer := Spent;
            Terminate();
          }
        case OrphanElapsed =>
          if orphans > 0 {
            orphans := orphans - 1;
            Terminate();
          }
        case NamedPipeError(_) =>
        case ChildWaited(w) =>
          var code := ExitCodeFor(w);
          if code.Some? {
            exit := code;
          }
      }
    }

    /** The `for { select { ... } }` loop over `events`, ending at `os.Exit`. */
    method Run(events: seq<Event>) returns (code: Option<int>)
      requires exit.None?
      modifies this
      ensures State() == RunSpec(setup, old(State()), events)
      ensures code == exit
    {
      var i := 0;
      while i < |events| && exit.None?
        invariant i <= |events|
        invariant RunSpec(setup, old(State()), events) == RunSpec(setup, State(), events[i..])
      {
        assert events[i..][1..] == events[i + 1..];
        Handle(events[i]);
        i := i + 1;
      }
      code := exit;
    }
  }
}
