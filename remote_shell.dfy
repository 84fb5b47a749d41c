/** The SSH remote console (remote_shell_service.go): a registry of connected sessions,
    the password check, and the line relays between the sessions, the local terminal
    and the child process's standard streams. */
module RemoteShell {
  import opened Environment
  import Text

  /** The `uuid.UUID` a session is registered under. */
  type SessionId = nat

  /** An accepted `ssh.Session`, identified by what the log lines print about it. */
  datatype Session = Session(user: string, remoteAddr: string)

  /** `ConsoleTarget` values. */
  const StdOutTarget: int := 0
  const StdErrTarget: int := 1

  /** A standard stream: of the child process (what `OutputPipe` picks) or of an SSH
      session (`session.Write` versus `session.Stderr().Write`). */
  datatype Stream = Stdout | Stderr

  /** `OutputPipe`: only the stderr target reads the child's stderr; stdout and every
      unknown target read its stdout. */
  function OutputPipe(target: int): (p: Stream)
    ensures p == Stderr <==> target == StdErrTarget
  {
    if target == StdOutTarget then Stdout
    else if target == StdErrTarget then Stderr
    else Stdout
  }

  /** `values` lists the registry's sessions, one per registered id: `ids[i]` is the id
      `values[i]` was read under, and every id is visited exactly once. */
  ghost predicate Listing(registry: map<SessionId, Session>, values: seq<Session>, ids: seq<SessionId>)
  {
    && |ids| == |values|
    && (forall i, j :: 0 <= i < j < |ids| ==> ids[i] != ids[j])
    && (forall id :: id in registry <==> id in ids)
    && (forall i :: 0 <= i < |ids| ==> values[i] == registry[ids[i]])
  }

  /** A listing has one entry per registered session, and every registered session is in it. */
  lemma {:induction false} ListingComplete(registry: map<SessionId, Session>, values: seq<Session>, ids: seq<SessionId>)
    requires Listing(registry, values, ids)
    ensures |values| == |registry|
    ensures forall id :: id in registry ==> registry[id] in values
  {
    forall id | id in registry ensures registry[id] in values {
      var i :| 0 <= i < |ids| && ids[i] == id;
      assert values[i] == registry[id];
    }
    DistinctCount(ids, registry.Keys);
  }

  lemma {:induction false} DistinctCount(ids: seq<SessionId>, keys: set<SessionId>)
    requires forall i, j :: 0 <= i < j < |ids| ==> ids[i] != ids[j]
    requires forall id :: id in keys <==> id in ids
    ensures |ids| == |keys|
  {
    if |ids| > 0 {
      var last := ids[|ids| - 1];
      var front := ids[..|ids| - 1];
      forall id ensures id in keys - {last} <==> id in front {
        if id in ids && id != last {
          var i :| 0 <= i < |ids| && ids[i] == id;
          assert i < |ids| - 1;
          assert front[i] == id;
        }
      }
      DistinctCount(front, keys - {last});
    } else {
      assert forall id :: id !in keys;
      assert keys == {};
    }
  }

  /** Each line as the relays write it: the scanned text followed by "\n". */
  function Framed(lines: seq<string>): seq<string>
  {
    seq(|lines|, i requires 0 <= i < |lines| => lines[i] + "\n")
  }

  lemma FramedStep(lines: seq<string>, i: nat)
    requires i < |lines|
    ensures Framed(lines[..i + 1]) == Framed(lines[..i]) + [lines[i] + "\n"]
  {
  }

  lemma ConcatFramed(lines: seq<string>)
    requires |lines| > 0
    ensures Text.Concat(Framed(lines)) == lines[0] + ['\n'] + Text.Concat(Framed(lines[1..]))
  {
    assert Framed(lines)[1..] == Framed(lines[1..]);
  }

  /** Framing loses nothing: the bytes written, split at "\n", give back the lines (a
      scanned line never holds "\n"), followed by the empty text after the last newline. */
  lemma {:induction false} FramedLinesRoundTrip(lines: seq<string>)
    requires forall i :: 0 <= i < |lines| ==> '\n' !in lines[i]
    ensures Text.Split(Text.Concat(Framed(lines)), '\n') == lines + [""]
  {
    if |lines| > 0 {
      var line, tail := lines[0], lines[1..];
      var rest := Text.Concat(Framed(tail));
      ConcatFramed(lines);
      assert '\n' !in line;
      Text.SplitAfterPart(line, rest, '\n');
      assert forall i :: 0 <= i < |tail| ==> '\n' !in tail[i] by {
        forall i | 0 <= i < |tail| ensures '\n' !in tail[i] {
          assert tail[i] == lines[i + 1];
        }
      }
      FramedLinesRoundTrip(tail);
      assert [line] + (tail + [""]) == lines + [""];
    }
  }

  /** The Go `subtle.ConstantTimeCompare` accumulator: whether any position differs,
      looked at without stopping at the first difference. */
  function AnyDiffers(a: string, b: string): (d: bool)
    requires |a| == |b|
    ensures !d <==> a == b
  {
    if |a| == 0 then false
    else
      var rest := AnyDiffers(a[1..], b[1..]);
      assert a == [a[0]] + a[1..] && b == [b[0]] + b[1..];
      (a[0] != b[0]) || rest
  }

  /** `subtle.ConstantTimeCompare`: 1 exactly when both have the same length and contents. */
  function ConstantTimeCompare(a: string, b: string): (r: int)
    ensures r == 0 || r == 1
    ensures r == 1 <==> a == b
  {
    if |a| != |b| then 0
    else if AnyDiffers(a, b) then 0 else 1
  }

  /** `int32(n)`: the length truncated to 32 bits, read as two's complement. */
  function Int32(n: nat): (r: int)
    ensures -0x8000_0000 <= r < 0x8000_0000
    ensures (n - r) % 0x1_0000_0000 == 0
  {
    var low := n % 0x1_0000_0000;
    if low < 0x8000_0000 then low else low - 0x1_0000_0000
  }

  /** `subtle.ConstantTimeEq`. */
  function ConstantTimeEq(x: int, y: int): int
  {
    if x == y then 1 else 0
  }

  /** The password a remote console login must present. */
  function ConsolePassword(env: Env): string
  {
    GetenvOr(env, "RCON_PASSWORD", "minecraft")
  }

  /** `passwordHandler`: the truncated lengths must agree and the contents must agree;
      together that is plain equality with the expected password. */
  function PasswordHandler(env: Env, password: string): (accepted: bool)
    ensures accepted <==> password == ConsolePassword(env)
    ensures accepted ==> password != ""
  {
    var expected := ConsolePassword(env);
    var lengthComp := ConstantTimeEq(Int32(|password|), Int32(|expected|));
    var contentComp := ConstantTimeCompare(password, expected);
    lengthComp == 1 && contentComp == 1
  }

  /** What one scanned output line produces: the local copy, then (for the two known
      targets) one write per session of the snapshot, on the stream matching the target. */
  datatype Delivery = LocalOutput(data: string) | ToSession(session: Session, stream: Stream, data: string)

  function Fanout(data: string, sessions: seq<Session>, target: int): (r: seq<Delivery>)
  {
    if target == StdOutTarget || target == StdErrTarget then
      seq(|sessions|, i requires 0 <= i < |sessions| => ToSession(sessions[i], OutputPipe(target), data))
    else []
  }

  lemma FanoutStep(data: string, sessions: seq<Session>, target: int, k: nat)
    requires k < |sessions|
    ensures Fanout(data, sessions[..k + 1], target)
              == Fanout(data, sessions[..k], target)
                 + (if target == StdOutTarget || target == StdErrTarget
                    then [ToSession(sessions[k], OutputPipe(target), data)] else [])
  {
  }

  function LineDeliveries(line: string, sessions: seq<Session>, target: int): seq<Delivery>
  {
    [LocalOutput(line + "\n")] + Fanout(line + "\n", sessions, target)
  }

  /** Everything `consoleOutRoutine` writes for `lines`, the `j`-th line going to the
      sessions of the `j`-th snapshot. */
  function OutLog(lines: seq<string>, snapshots: seq<seq<Session>>, target: int): seq<Delivery>
    requires |lines| == |snapshots|
  {
    if |lines| == 0 then []
    else
      var k := |lines| - 1;
      OutLog(lines[..k], snapshots[..k], target) + LineDeliveries(lines[k], snapshots[k], target)
  }

  /** One line's fan-out: every registered session gets the line plus "\n" on the stream
      matching the target, and the local copy comes first; an unknown target reaches no
      session, only the local output. */
  lemma FanoutReachesEveryone(registry: map<SessionId, Session>, values: seq<Session>, ids: seq<SessionId>,
                              line: string, target: int)
    requires Listing(registry, values, ids)
    ensures LineDeliveries(line, values, target)[0] == LocalOutput(line + "\n")
    ensures target == StdOutTarget || target == StdErrTarget ==>
              |LineDeliveries(line, values, target)| == 1 + |registry|
              && forall id :: id in registry ==>
                   ToSession(registry[id], OutputPipe(target), line + "\n") in LineDeliveries(line, values, target)
    ensures !(target == StdOutTarget || target == StdErrTarget) ==>
              LineDeliveries(line, values, target) == [LocalOutput(line + "\n")]
  {
    ListingComplete(registry, values, ids);
    var ds := LineDeliveries(line, values, target);
    if target == StdOutTarget || target == StdErrTarget {
      forall id | id in registry
        ensures ToSession(registry[id], OutputPipe(target), line + "\n") in ds
      {
        var i :| 0 <= i < |values| && values[i] == registry[id];
        assert ds[i + 1] == ToSession(values[i], OutputPipe(target), line + "\n");
      }
    }
  }

  class Console {
    /** `remoteSessions`: the sessions currently receiving output. */
    var remoteSessions: map<SessionId, Session>
    /** Every write made to the child's stdin through `WriteToStdIn`, in order. */
    var stdinWrites: seq<string>

    /** `makeConsole`: no session registered, nothing written yet. */
    constructor ()
      ensures remoteSessions == map[] && stdinWrites == []
    {
      remoteSessions := map[];
      stdinWrites := [];
    }

    /** `WriteToStdIn`: one write, whole, to the child's stdin. */
    method WriteToStdIn(p: string) returns (n: nat)
      modifies this`stdinWrites
      ensures stdinWrites == old(stdinWrites) + [p]
      ensures n == |p|
    {
      stdinWrites := stdinWrites + [p];
      n := |p|;
    }

    /** `RegisterSession`: `id` now maps to `session`; every other entry is kept. */
    method RegisterSession(id: SessionId, session: Session)
      modifies this`remoteSessions
      ensures remoteSessions == old(remoteSessions)[id := session]
    {
      remoteSessions := remoteSessions[id := session];
    }

    /** `UnregisterSession`: `id` is gone, every other entry is kept; an unknown id changes
        nothing. */
    method UnregisterSession(id: SessionId)
      modifies this`remoteSessions
      ensures remoteSessions == old(remoteSessions) - {id}
      ensures id !in old(remoteSessions) ==> remoteSessions == old(remoteSessions)
    {
      remoteSessions := remoteSessions - {id};
    }

    /** `CurrentSessions`: a snapshot of the registered sessions, one per id, in the map's
        (unspecified) iteration order; the registry is left as it was. */
    method CurrentSessions() returns (values: seq<Session>, ghost ids: seq<SessionId>)
      ensures Listing(remoteSessions, values, ids)
      ensures |values| == |remoteSessions|
    {
      values := [];
      ids := [];
      var rest := remoteSessions.Keys;
      while rest != {}
        invariant rest <= remoteSessions.Keys
        invariant |ids| == |values|
        invariant forall i, j :: 0 <= i < j < |ids| ==> ids[i] != ids[j]
        invariant forall id :: id in remoteSessions ==> (id in rest <==> id !in ids)
        invariant forall i :: 0 <= i < |ids| ==> ids[i] in remoteSessions && values[i] == remoteSessions[ids[i]]
        decreases rest
      {
        var id :| id in rest;
        values := values + [remoteSessions[id]];
        ids := ids + [id];
        rest := rest - {id};
      }
      ListingComplete(remoteSessions, values, ids);
    }
  }

  /** `handleSession`: register the session, relay every line its terminal yields (until
      end of input, a read error or the session's cancellation) to the child's stdin as
      line plus "\n", then unregister it. */
  method HandleSession(console: Console, sessionId: SessionId, session: Session, lines: seq<string>)
    modifies console
    ensures console.stdinWrites == old(console.stdinWrites) + Framed(lines)
    ensures console.remoteSessions == old(console.remoteSessions) - {sessionId}
  {
    console.RegisterSession(sessionId, session);
    var i := 0;
    while i < |lines|
      invariant i <= |lines|
      invariant console.stdinWrites == old(console.stdinWrites) + Framed(lines[..i])
      invariant console.remoteSessions == old(console.remoteSessions)[sessionId := session]
    {
      FramedStep(lines, i);
      var _ := console.WriteToStdIn(lines[i] + "\n");
      i := i + 1;
    }
    assert lines[..i] == lines;
    console.UnregisterSession(sessionId);
  }

  /** `consoleInRoutine`: each line of the local stdin reaches the child's stdin as line
      plus "\n", in order. */
  method ConsoleInRoutine(console: Console, lines: seq<string>)
    modifies console`stdinWrites
    ensures console.stdinWrites == old(console.stdinWrites) + Framed(lines)
  {
    var i := 0;
    while i < |lines|
      invariant i <= |lines|
      invariant console.stdinWrites == old(console.stdinWrites) + Framed(lines[..i])
    {
      FramedStep(lines, i);
      var _ := console.WriteToStdIn(lines[i] + "\n");
      i := i + 1;
    }
    assert lines[..i] == lines;
  }

  /** One pass of `consoleOutRoutine`'s loop body: the local copy of the line, then a
      snapshot of the registry and one write per session in it. */
  method DeliverLine(console: Console, target: int, line: string)
    returns (ds: seq<Delivery>, ghost sessions: seq<Session>, ghost ids: seq<SessionId>)
    ensures Listing(console.remoteSessions, sessions, ids)
    ensures ds == LineDeliveries(line, sessions, target)
  {
    var out := line + "\n";
    ds := [LocalOutput(out)];
    var snapshot;
    snapshot, ids := console.CurrentSessions();
    sessions := snapshot;
    var k := 0;
    while k < |snapshot|
      invariant k <= |snapshot|
      invariant ds == [LocalOutput(out)] + Fanout(out, snapshot[..k], target)
    {
      FanoutStep(out, snapshot, target, k);
      if target == StdOutTarget {
        ds := ds + [ToSession(snapshot[k], Stdout, out)];
      } else if target == StdErrTarget {
        ds := ds + [ToSession(snapshot[k], Stderr, out)];
      }
      k := k + 1;
    }
    assert snapshot[..k] == snapshot;
  }

  lemma OutLogStep(lines: seq<string>, snapshots: seq<seq<Session>>, target: int, j: nat, sessions: seq<Session>)
    requires j < |lines| && |snapshots| == j
    ensures OutLog(lines[..j + 1], snapshots + [sessions], target)
              == OutLog(lines[..j], snapshots, target) + LineDeliveries(lines[j], sessions, target)
  {
    assert lines[..j + 1][..j] == lines[..j];
    assert (snapshots + [sessions])[..j] == snapshots;
  }

  /** `consoleOutRoutine` over the lines scanned from `OutputPipe(target)`: for each line,
      the local copy, then the line to every session of a fresh snapshot of the registry. */
  method ConsoleOutRoutine(console: Console, target: int, lines: seq<string>)
    returns (deliveries: seq<Delivery>, ghost snapshots: seq<seq<Session>>, ghost snapshotIds: seq<seq<SessionId>>)
    ensures |snapshots| == |lines| == |snapshotIds|
    ensures forall j :: 0 <= j < |lines| ==> Listing(console.remoteSessions, snapshots[j], snapshotIds[j])
    ensures deliveries == OutLog(lines, snapshots, target)
  {
    deliveries := [];
    snapshots := [];
    snapshotIds := [];
    var j := 0;
    while j < |lines|
      invariant j <= |lines|
      invariant |snapshots| == j == |snapshotIds|
      invariant forall k :: 0 <= k < j ==> Listing(console.remoteSessions, snapshots[k], snapshotIds[k])
      invariant deliveries == OutLog(lines[..j], snapshots, target)
    {
      var ds, sessions, ids := DeliverLine(console, target, lines[j]);
      OutLogStep(lines, snapshots, target, j, sessions);
      snapshots := snapshots + [sessions];
      snapshotIds := snapshotIds + [ids];
      deliveries := deliveries + ds;
      j := j + 1;
    }
    assert lines[..j] == lines;
  }
}
