/** The collaborators of the process monitor, as a reactor that records what it is asked
    to do: a clock, delayed calls that can be cancelled or fired, spawned processes and
    delivered signals. */
module Reactor {
  import opened Wrappers

  /** A spawned process, identified by the position of its spawn in the reactor's record. */
  type Pid = nat

  datatype Signal = TERM | KILL

  /** What a delayed call runs: the monitor's startProcess for a name, or its
      _forceStopProcess for a process. */
  datatype Action = StartProcessCall(name: string) | ForceStopCall(proc: Pid)

  datatype CallState = Pending | Called | Cancelled

  datatype DelayedCall = DelayedCall(time: int, action: Action, state: CallState) {
    /** `active()`: neither called nor cancelled yet. */
    predicate Active() {
      state == Pending
    }
  }

  /** One spawnProcess request: the protocol (by the name it serves), the executable and
      argv, the ids, the environment and the working directory. */
  datatype Spawn = Spawn(
    proto: string,
    executable: string,
    args: seq<string>,
    uid: Option<int>,
    gid: Option<int>,
    env: map<string, string>,
    path: Option<string>)

  datatype SignalSent = SignalSent(proc: Pid, signal: Signal)

  /** The delayed calls with every active one among `handles` cancelled. */
  function CancelActive(calls: seq<DelayedCall>, handles: set<nat>): (r: seq<DelayedCall>)
    ensures |r| == |calls|
    ensures forall h :: 0 <= h < |r| ==>
      r[h].time == calls[h].time && r[h].action == calls[h].action
      && (r[h].Active() <==> calls[h].Active() && h !in handles)
    ensures forall h | 0 <= h < |r| && (h !in handles || !calls[h].Active()) :: r[h] == calls[h]
  {
    seq(|calls|, h requires 0 <= h < |calls| =>
      if h in handles && calls[h].Active() then calls[h].(state := Cancelled) else calls[h])
  }

  /** Cancelling one more handle after a set of them is cancelling the larger set. */
  lemma CancelActiveTwice(calls: seq<DelayedCall>, handles: set<nat>, h: nat)
    ensures CancelActive(CancelActive(calls, handles), {h}) == CancelActive(calls, handles + {h})
  {
  }

  class MemoryReactor {
    /** `seconds()`. */
    var now: int
    var calls: seq<DelayedCall>
    var spawns: seq<Spawn>
    var signals: seq<SignalSent>

    constructor (start: int)
      ensures now == start && calls == [] && spawns == [] && signals == []
    {
      now := start;
      calls := [];
      spawns := [];
      signals := [];
    }

    method Advance(seconds: nat)
      modifies this
      ensures now == old(now) + seconds
      ensures calls == old(calls) && spawns == old(spawns) && signals == old(signals)
    {
      now := now + seconds;
    }

    /** `callLater(delay, action)`: the handle of the new call is its position. */
    method CallLater(delay: int, action: Action) returns (h: nat)
      modifies this
      ensures h == old(|calls|)
      ensures calls == old(calls) + [DelayedCall(now + delay, action, Pending)]
      ensures now == old(now) && spawns == old(spawns) && signals == old(signals)
    {
      h := |calls|;
      calls := calls + [DelayedCall(now + delay, action, Pending)];
    }

    /** `cancel()`, which the monitor only calls on an active call. */
    method Cancel(h: nat)
      requires h < |calls| && calls[h].Active()
      modifies this
      ensures calls == old(calls)[h := old(calls[h]).(state := Cancelled)]
      ensures now == old(now) && spawns == old(spawns) && signals == old(signals)
    {
      calls := calls[h := calls[h].(state := Cancelled)];
    }

    /** `if call.active(): call.cancel()`. */
    method CancelIfActive(h: nat)
      requires h < |calls|
      modifies this
      ensures calls == CancelActive(old(calls), {h})
      ensures now == old(now) && spawns == old(spawns) && signals == old(signals)
    {
      if calls[h].Active() {
        Cancel(h);
      }
      assert calls == CancelActive(old(calls), {h});
    }

    /** The reactor's turn to run a call that is due: it is marked called before it runs. */
    method Fire(h: nat) returns (action: Action)
      requires h < |calls| && calls[h].Active() && calls[h].time <= now
      modifies this
      ensures action == old(calls[h].action)
      ensures calls == old(calls)[h := old(calls[h]).(state := Called)]
      ensures now == old(now) && spawns == old(spawns) && signals == old(signals)
    {
      action := calls[h].action;
      calls := calls[h := calls[h].(state := Called)];
    }

    /** `spawnProcess`: the new process is the one at the end of the record. */
    method SpawnProcess(proto: string, executable: string, args: seq<string>, uid: Option<int>,
                        gid: Option<int>, env: map<string, string>, path: Option<string>)
      returns (proc: Pid)
      modifies this
      ensures proc == old(|spawns|)
      ensures spawns == old(spawns) + [Spawn(proto, executable, args, uid, gid, env, path)]
      ensures now == old(now) && calls == old(calls) && signals == old(signals)
    {
      proc := |spawns|;
      spawns := spawns + [Spawn(proto, executable, args, uid, gid, env, path)];
    }

    /** `signalProcess`: `delivered` is false when the process had already exited, in which
        case nothing is sent and ProcessExitedAlready is reported. */
    method SignalProcess(proc: Pid, signal: Signal, delivered: bool) returns (exitedAlready: bool)
      modifies this
      ensures exitedAlready == !delivered
      ensures signals == old(signals) + (if delivered then [SignalSent(proc, signal)] else [])
      ensures now == old(now) && calls == old(calls) && spawns == old(spawns)
    {
      exitedAlready := !delivered;
      if delivered {
        signals := signals + [SignalSent(proc, signal)];
      }
    }
  }
}
