/** ProcessMonitor, which runs named processes, restarts them with backoff when they exit
    and stops them on request, and the LoggingProtocol attached to every process it spawns. */
module Procmon {
  import opened Wrappers
  import opened LineLogging
  import opened ProcessSpec
  import opened Reactor
  import Backoff

  type Name = string

  /** Normal return, or the KeyError the monitor raises for a duplicate or unknown name. */
  datatype Outcome = Ok | KeyError

  /** The spawnProcess request that starting a registered process makes: executable args[0],
      argv args, and the uid, gid, environment and working directory of the record. */
  function Launch(name: Name, p: Process): Spawn
  {
    Spawn(name, p.args[0], p.args, p.uid, p.gid, p.env, p.cwd)
  }

  /** The spawn requests for the registered names among `names`, in their order. */
  function Launches(names: seq<Name>, processes: map<Name, Process>): seq<Spawn> {
    if names == [] then []
    else
      var last := names[|names| - 1];
      Launches(names[..|names| - 1], processes) + (if last in processes then [Launch(last, processes[last])] else [])
  }

  lemma LaunchesSnoc(names: seq<Name>, name: Name, processes: map<Name, Process>)
    ensures Launches(names + [name], processes)
         == Launches(names, processes) + (if name in processes then [Launch(name, processes[name])] else [])
  {
    assert (names + [name])[..|names|] == names;
  }

  /** Each launch is of a registered name among `names`, with that name's own record. */
  lemma {:induction false} LaunchesAreOwnRecords(names: seq<Name>, processes: map<Name, Process>)
    ensures var spawns := Launches(names, processes);
            forall i | 0 <= i < |spawns| ::
              spawns[i].proto in names && spawns[i].proto in processes
              && spawns[i] == Launch(spawns[i].proto, processes[spawns[i].proto])
  {
    if names != [] {
      var init, last := names[..|names| - 1], names[|names| - 1];
      assert names == init + [last];
      LaunchesOncePrefix(init, last, processes);
      LaunchesAreOwnRecords(init, processes);
    }
  }

  /** Every registered name among `names` is launched. */
  lemma {:induction false} LaunchesCover(names: seq<Name>, processes: map<Name, Process>)
    ensures var spawns := Launches(names, processes);
            forall n | n in names && n in processes :: exists i :: 0 <= i < |spawns| && spawns[i].proto == n
  {
    if names != [] {
      var init, last := names[..|names| - 1], names[|names| - 1];
      assert names == init + [last];
      LaunchesOncePrefix(init, last, processes);
      LaunchesCover(init, processes);
      var before := Launches(init, processes);
      var spawns := Launches(names, processes);
      forall n | n in names && n in processes
        ensures exists i :: 0 <= i < |spawns| && spawns[i].proto == n
      {
        if n in init {
          var i :| 0 <= i < |before| && before[i].proto == n;
          assert spawns[i] == before[i];
        } else {
          assert spawns[|before|].proto == n;
        }
      }
    }
  }

  /** Distinct names give distinct launches: no name is spawned twice. */
  lemma {:induction false} LaunchesDistinct(names: seq<Name>, processes: map<Name, Process>)
    requires NoDuplicates(names)
    ensures var spawns := Launches(names, processes);
            forall i, j | 0 <= i < j < |spawns| :: spawns[i].proto != spawns[j].proto
  {
    if names != [] {
      var init, last := names[..|names| - 1], names[|names| - 1];
      assert names == init + [last];
      assert NoDuplicates(init) && last !in init;
      LaunchesOncePrefix(init, last, processes);
      LaunchesDistinct(init, processes);
      LaunchesAreOwnRecords(init, processes);
    }
  }

  /** Launching one more name keeps the earlier launches and adds at most that name's. */
  lemma LaunchesOncePrefix(init: seq<Name>, last: Name, processes: map<Name, Process>)
    ensures var before, spawns := Launches(init, processes), Launches(init + [last], processes);
            && |before| <= |spawns| <= |before| + 1
            && (forall i | 0 <= i < |before| :: spawns[i] == before[i])
            && (|spawns| == |before| + 1 <==> last in processes)
            && (last in processes ==> spawns[|before|] == Launch(last, processes[last]))
  {
    LaunchesSnoc(init, last, processes);
  }

  /** The process each protocol is connected to. */
  function TransportsOf(protocols: map<Name, LoggingProtocol>): map<Name, Pid> {
    map n | n in protocols :: protocols[n].transport
  }

  lemma TransportsOfUpdate(protocols: map<Name, LoggingProtocol>, name: Name, p: LoggingProtocol)
    ensures TransportsOf(protocols[name := p]) == TransportsOf(protocols)[name := p.transport]
  {
  }

  /** The state startProcess touches, with each live protocol given by the process it is
      connected to: the live transports, the start times and the spawns. */
  datatype Started = Started(transports: map<Name, Pid>, timeStarted: map<Name, int>, spawns: seq<Spawn>)

  /** startProcess for a registered name: nothing when it is live, otherwise a spawn whose
      process becomes its transport, started `now`. */
  function StartStep(s: Started, name: Name, processes: map<Name, Process>, now: int): Started
  {
    if name in s.transports || name !in processes then s
    else Started(s.transports[name := |s.spawns|], s.timeStarted[name := now],
                 s.spawns + [Launch(name, processes[name])])
  }

  function StartAll(s: Started, names: seq<Name>, processes: map<Name, Process>, now: int): Started
  {
    if names == [] then s
    else
      var last := names[|names| - 1];
      StartStep(StartAll(s, names[..|names| - 1], processes, now), last, processes, now)
  }

  lemma StartAllPrefix(s: Started, names: seq<Name>, i: nat, processes: map<Name, Process>, now: int)
    requires i < |names|
    ensures StartAll(s, names[..i + 1], processes, now)
         == StartStep(StartAll(s, names[..i], processes, now), names[i], processes, now)
  {
    assert names[..i + 1][..i] == names[..i];
  }

  /** Starting names only adds: live names keep their transports, only the started names
      gain an entry, only those not live get a new start time, and spawns are appended. */
  lemma {:induction false} StartAllKeeps(s: Started, names: seq<Name>, processes: map<Name, Process>, now: int)
    requires s.transports.Keys <= s.timeStarted.Keys
    ensures var r := StartAll(s, names, processes, now);
            && (forall n :: n in r.transports <==> n in s.transports || (n in names && n in processes))
            && (forall n | n in s.transports :: r.transports[n] == s.transports[n])
            && (forall n :: n in r.timeStarted <==> n in s.timeStarted || (n in names && n in processes))
            && (forall n | n in r.timeStarted && (n !in names || n in s.transports) ::
                  r.timeStarted[n] == s.timeStarted[n])
            && |s.spawns| <= |r.spawns| && r.spawns[..|s.spawns|] == s.spawns
  {
    if names != [] {
      var init, last := names[..|names| - 1], names[|names| - 1];
      assert forall n :: n in names <==> n in init || n == last;
      StartAllKeeps(s, init, processes, now);
      var p := StartAll(s, init, processes, now);
      if last !in p.transports && last in processes {
        assert (p.spawns + [Launch(last, processes[last])])[..|s.spawns|] == p.spawns[..|s.spawns|];
      }
    }
  }

  /** A name outside `names` is live after starting them exactly when it was before. */
  lemma {:induction false} StartAllLive(s: Started, names: seq<Name>, processes: map<Name, Process>, now: int, n: Name)
    requires n !in names
    ensures n in StartAll(s, names, processes, now).transports <==> n in s.transports
  {
    if names != [] {
      StartAllLive(s, names[..|names| - 1], processes, now, n);
    }
  }

  /** Every started name that was not live is started `now`, its transport is a new process,
      and that process was spawned with the name's own record. */
  lemma {:induction false} StartAllStarts(s: Started, names: seq<Name>, processes: map<Name, Process>, now: int)
    requires s.transports.Keys <= s.timeStarted.Keys
    ensures var r := StartAll(s, names, processes, now);
            forall n | n in names && n in processes && n !in s.transports ::
              && n in r.timeStarted && n in r.transports
              && r.timeStarted[n] == now
              && |s.spawns| <= r.transports[n] < |r.spawns|
              && r.spawns[r.transports[n]] == Launch(n, processes[n])
  {
    if names != [] {
      var init, last := names[..|names| - 1], names[|names| - 1];
      assert forall n :: n in names <==> n in init || n == last;
      StartAllStarts(s, init, processes, now);
      StartAllKeeps(s, init, processes, now);
    }
  }

  /** Starting distinct names launches, in their order, exactly the registered ones that
      were not live. */
  lemma {:induction false} StartAllSpawns(s: Started, names: seq<Name>, processes: map<Name, Process>, now: int)
    requires NoDuplicates(names) && s.transports.Keys <= s.timeStarted.Keys
    ensures StartAll(s, names, processes, now).spawns
         == s.spawns + Launches(Filter(names, s.transports.Keys), processes)
  {
    if names != [] {
      var init, last := names[..|names| - 1], names[|names| - 1];
      assert names == init + [last];
      assert NoDuplicates(init) && last !in init;
      StartAllSpawns(s, init, processes, now);
      StartAllLive(s, init, processes, now, last);
      var p := StartAll(s, init, processes, now);
      var live := s.transports.Keys;
      var before := Filter(init, live);
      FilterSnoc(init, last, live);
      LaunchesSnoc(before, last, processes);
      if last in live {
        assert before + [] == before;
      } else if last in processes {
        AppendAssoc(s.spawns, Launches(before, processes), [Launch(last, processes[last])]);
      } else {
        assert Launches(before, processes) + [] == Launches(before, processes);
      }
    }
  }

  // ---------------------------------------------------------------------------------
  // The `empty` flag of LoggingProtocol and what processEnded flushes with it.

  /** `empty` after an output chunk, as intended: the chunk ended with b'\n'. */
  function EmptyAfter(data: seq<Byte>): bool
    requires |data| > 0
  {
    data[|data| - 1] == NL
  }

  /** `empty` after an output chunk as line 69 is written: under Python 3 `data[-1]` is an
      int, which never equals the bytes object b'\n'. */
  function EmptyAfterAsWritten(data: seq<Byte>): bool
    requires |data| > 0
  {
    false
  }

  /** What processEnded feeds the line logger before reporting the exit. */
  function ExitFlush(empty: bool): seq<Byte> {
    if empty then [] else [NL]
  }

  /** With the intended flag, the exit flush makes the logger deliver every line of the
      output, a trailing partial line included, and nothing more; nothing stays buffered. */
  lemma ExitFlushLogsCompleteLines(earlier: seq<Byte>, last: seq<Byte>)
    requires |last| > 0
    ensures var received := earlier + last;
            && SplitLines(received + ExitFlush(EmptyAfter(last))).0 == CompleteLines(received)
            && SplitLines(received + ExitFlush(EmptyAfter(last))).1 == []
  {
    var received := earlier + last;
    assert received[|received| - 1] == last[|last| - 1];
    FlushAtExit(received, EmptyAfter(last));
  }

  /** Flushing with the flag that tracks the stream's end completes its lines. */
  lemma FlushAtExit(received: seq<Byte>, empty: bool)
    requires empty == AtLineBoundary(received)
    ensures SplitLines(received + ExitFlush(empty)).0 == CompleteLines(received)
    ensures SplitLines(received + ExitFlush(empty)).1 == []
  {
    var lines, rest := SplitLines(received).0, SplitLines(received).1;
    BufferEmptyAtBoundary(received);
    if empty {
      assert received + ExitFlush(empty) == received;
    } else {
      SplitAppend(received, [NL]);
      SplitLinesSound(received);
      assert rest + [NL] == JoinLines([rest]) + [];
      SplitOf(rest + [NL], [rest], []);
    }
  }

  /** With the flag as written, output that ends with b'\n' gets one extra, empty line
      logged at exit. */
  lemma AsWrittenExitLogsEmptyLine(earlier: seq<Byte>, last: seq<Byte>)
    requires |last| > 0 && last[|last| - 1] == NL
    ensures var received := earlier + last;
            SplitLines(received + ExitFlush(EmptyAfterAsWritten(last))).0 == CompleteLines(received) + [[]]
  {
    var received := earlier + last;
    assert received[|received| - 1] == NL;
    BufferEmptyAtBoundary(received);
    SplitAppend(received, [NL]);
    assert [NL] == JoinLines([[]]) + [];
    SplitOf([NL], [[]], []);
  }

  /** The output b"a\n": as written the exit delivers the line "a" and then an empty line,
      which is logged as "[tag] " followed by nothing; the intended flag delivers "a" alone. */
  lemma AsWrittenExample()
    ensures var out: seq<Byte> := [97, NL];
            && SplitLines(out + ExitFlush(EmptyAfterAsWritten(out))).0 == [[97], []]
            && SplitLines(out + ExitFlush(EmptyAfter(out))).0 == [[97]]
  {
    var out: seq<Byte> := [97, NL];
    assert out == JoinLines([[97]]) + [];
    SplitOf(out, [[97]], []);
    assert out + ExitFlush(EmptyAfter(out)) == out;
    var flushed := out + ExitFlush(EmptyAfterAsWritten(out));
    assert flushed == JoinLines([[97], []]) + [];
    SplitOf(flushed, [[97], []], []);
  }

  // ---------------------------------------------------------------------------------
  // Stopping a sequence of names, as stopService and restartAll do.

  /** The state stopProcess touches: the murder table, the delayed calls and the signals. */
  datatype StopEffects = StopEffects(murder: map<Name, nat>, calls: seq<DelayedCall>, signals: seq<SignalSent>)

  /** stopProcess for one registered name whose live transports are `live`: TERM, and when
      it was delivered, a KILL for the same process armed `killTime` seconds later. */
  function StopStep(e: StopEffects, name: Name, live: map<Name, Pid>, delivered: bool, now: int, killTime: nat)
    : StopEffects
  {
    if name in live && delivered then
      StopEffects(
        e.murder[name := |e.calls|],
        e.calls + [DelayedCall(now + killTime, ForceStopCall(live[name]), Pending)],
        e.signals + [SignalSent(live[name], TERM)])
    else e
  }

  function StopAll(e: StopEffects, names: seq<Name>, live: map<Name, Pid>, delivered: Name -> bool,
                   now: int, killTime: nat): StopEffects
  {
    if names == [] then e
    else
      var last := names[|names| - 1];
      StopStep(StopAll(e, names[..|names| - 1], live, delivered, now, killTime), last, live, delivered(last), now, killTime)
  }

  lemma StopAllPrefix(e: StopEffects, names: seq<Name>, i: nat, live: map<Name, Pid>, delivered: Name -> bool,
                      now: int, killTime: nat)
    requires i < |names|
    ensures StopAll(e, names[..i + 1], live, delivered, now, killTime)
         == StopStep(StopAll(e, names[..i], live, delivered, now, killTime), names[i], live, delivered(names[i]), now, killTime)
  {
    assert names[..i + 1][..i] == names[..i];
  }

  predicate Armed(n: Name, names: seq<Name>, live: map<Name, Pid>, delivered: Name -> bool) {
    n in names && n in live && delivered(n)
  }

  /** Stopping arms a KILL timer for exactly the live names whose TERM was delivered, each
      for that name's own process, and leaves every other murder entry as it was. */
  lemma {:induction false} StopAllArmsKillTimers(e: StopEffects, names: seq<Name>, live: map<Name, Pid>,
                                                delivered: Name -> bool, now: int, killTime: nat)
    ensures var r := StopAll(e, names, live, delivered, now, killTime);
            && (forall n :: n in r.murder <==> n in e.murder || Armed(n, names, live, delivered))
            && (forall n | n in r.murder && !Armed(n, names, live, delivered) :: r.murder[n] == e.murder[n])
            && |e.calls| <= |r.calls| && r.calls[..|e.calls|] == e.calls
            && (forall n | Armed(n, names, live, delivered) ::
                  |e.calls| <= r.murder[n] < |r.calls|
                  && r.calls[r.murder[n]] == DelayedCall(now + killTime, ForceStopCall(live[n]), Pending))
  {
    if names != [] {
      var init, last := names[..|names| - 1], names[|names| - 1];
      StopAllArmsKillTimers(e, init, live, delivered, now, killTime);
      assert forall n :: n in names <==> n in init || n == last;
      var p := StopAll(e, init, live, delivered, now, killTime);
      if last in live && delivered(last) {
        assert (p.calls + [DelayedCall(now + killTime, ForceStopCall(live[last]), Pending)])[..|e.calls|]
            == p.calls[..|e.calls|];
      }
    }
  }

  /** Stopping only appends signals, and every one of them is a TERM to a live process. */
  lemma {:induction false} StopAllSignals(e: StopEffects, names: seq<Name>, live: map<Name, Pid>,
                                         delivered: Name -> bool, now: int, killTime: nat)
    ensures var r := StopAll(e, names, live, delivered, now, killTime);
            && |e.signals| <= |r.signals| && r.signals[..|e.signals|] == e.signals
            && (forall i | |e.signals| <= i < |r.signals| ::
                  r.signals[i].signal == TERM && r.signals[i].proc in live.Values)
            && (forall n | Armed(n, names, live, delivered) :: SignalSent(live[n], TERM) in r.signals[|e.signals|..])
            && |r.signals| - |e.signals| == |r.calls| - |e.calls|
  {
    if names != [] {
      var init, last := names[..|names| - 1], names[|names| - 1];
      StopAllSignals(e, init, live, delivered, now, killTime);
      assert forall n :: n in names <==> n in init || n == last;
      var p := StopAll(e, init, live, delivered, now, killTime);
      if last in live && delivered(last) {
        var sent := SignalSent(live[last], TERM);
        assert (p.signals + [sent])[..|e.signals|] == p.signals[..|e.signals|];
        assert (p.signals + [sent])[|e.signals|..] == p.signals[|e.signals|..] + [sent];
      }
    }
  }

  // ---------------------------------------------------------------------------------

  class LoggingProtocol {
    const service: ProcessMonitor
    const name: Name
    /** The process this protocol is connected to. */
    const transport: Pid
    const output: LineLogger
    var empty: bool
    /** Every byte of output received so far, stdout and stderr interleaved. */
    ghost var received: seq<Byte>

    ghost predicate Valid()
      reads this, output
    {
      && output.tag == name
      && output.buffer == SplitLines(received).1
      && output.logged == Messages(name, output.codec, SplitLines(received).0)
      && empty == AtLineBoundary(received)
    }

    /** The protocol as startProcess creates it and spawnProcess connects it: its
        connectionMade gives it a line logger tagged with the process name. */
    constructor (service: ProcessMonitor, name: Name, transport: Pid, codec: Codec)
      ensures this.service == service && this.name == name && this.transport == transport
      ensures fresh(output) && output.codec == codec
      ensures Valid() && received == []
    {
      this.service := service;
      this.name := name;
      this.transport := transport;
      output := new LineLogger(name, codec);
      empty := true;
      received := [];
    }

    /** outReceived: feed the chunk to the line logger, then note whether it ended a line. */
    method OutReceived(data: seq<Byte>)
      requires Valid() && |data| > 0
      modifies this, output
      ensures Valid() && received == old(received) + data
      ensures empty == EmptyAfter(data)
      ensures output.logged
           == old(output.logged) + Messages(name, output.codec, SplitLines(old(output.buffer) + data).0)
    {
      output.DataReceived(data);
      empty := EmptyAfter(data);
      SplitAppend(received, data);
      MessagesAppend(name, output.codec, SplitLines(received).0, SplitLines(SplitLines(received).1 + data).0);
      received := received + data;
    }

    /** errReceived is outReceived: both streams go to the same logger. */
    method ErrReceived(data: seq<Byte>)
      requires Valid() && |data| > 0
      modifies this, output
      ensures Valid() && received == old(received) + data
      ensures empty == EmptyAfter(data)
      ensures output.logged
           == old(output.logged) + Messages(name, output.codec, SplitLines(old(output.buffer) + data).0)
    {
      OutReceived(data);
    }

    /** processEnded: flush a trailing partial line, then report the exit to the monitor. */
    method ProcessEnded()
      requires Valid() && service.Valid() && name in service.protocols
      modifies output, service, service.reactor
      ensures output.logged == Messages(name, output.codec, CompleteLines(received))
      ensures output.buffer == []
      ensures service.Valid()
      ensures service.protocols == old(service.protocols) - {name}
      ensures service.murder == old(service.murder) - {name}
      ensures old(|service.reactor.calls|) <= |service.reactor.calls|
      ensures name in old(service.murder) ==> !service.reactor.calls[old(service.murder[name])].Active()
      ensures var d := Backoff.OnExit(old(service.reactor.now) - old(service.timeStarted[name]),
                                      old(service.delay[name]), service.threshold,
                                      service.minRestartDelay, service.maxRestartDelay);
              var calls := if name in old(service.murder)
                           then CancelActive(old(service.reactor.calls), {old(service.murder[name])})
                           else old(service.reactor.calls);
              && service.delay == old(service.delay)[name := d.delay]
              && if old(service.running) && name in service.processes then
                   && service.restart == old(service.restart)[name := |calls|]
                   && service.reactor.calls
                      == calls + [DelayedCall(service.reactor.now + d.nextDelay, StartProcessCall(name), Pending)]
                 else
                   service.restart == old(service.restart) && service.reactor.calls == calls
      ensures service.processes == old(service.processes) && service.order == old(service.order)
      ensures service.timeStarted == old(service.timeStarted) && service.running == old(service.running)
      ensures service.reactor.now == old(service.reactor.now)
      ensures service.reactor.spawns == old(service.reactor.spawns)
      ensures service.reactor.signals == old(service.reactor.signals)
    {
      FlushPartialLine();
      service.ConnectionLost(name);
    }

    /** The first half of processEnded: feed b'\n' unless the output ended a line. */
    method FlushPartialLine()
      requires Valid()
      modifies output
      ensures output.logged == Messages(name, output.codec, CompleteLines(received))
      ensures output.buffer == []
    {
      FlushAtExit(received, empty);
      if !empty {
        output.DataReceived([NL]);
        SplitAppend(received, [NL]);
        MessagesAppend(name, output.codec, SplitLines(received).0, SplitLines(SplitLines(received).1 + [NL]).0);
      } else {
        assert received + ExitFlush(empty) == received;
      }
    }
  }

  class ProcessMonitor {
    const reactor: MemoryReactor
    const codec: Codec
    /** How long a process must live for its death not to count as instant. */
    const threshold: nat
    /** How long a process being stopped gets before it is killed. */
    const killTime: nat
    const minRestartDelay: nat
    const maxRestartDelay: nat

    var running: bool
    /** `_processes`, with `order` holding its keys in insertion order. */
    var processes: map<Name, Process>
    var order: seq<Name>
    var protocols: map<Name, LoggingProtocol>
    var delay: map<Name, nat>
    var timeStarted: map<Name, int>
    /** The pending KILL timer of a process being stopped. */
    var murder: map<Name, nat>
    /** The last restart timer scheduled for a name. */
    var restart: map<Name, nat>

    ghost predicate Valid()
      reads this, reactor
    {
      && (forall n :: n in processes <==> n in order)
      && NoDuplicates(order)
      && processes.Keys <= delay.Keys
      && protocols.Keys <= delay.Keys
      && protocols.Keys <= timeStarted.Keys
      && murder.Keys <= protocols.Keys
      && (forall n | n in protocols :: protocols[n].name == n && protocols[n].service == this)
      && (forall n | n in murder :: murder[n] < |reactor.calls|)
      && (forall n | n in restart :: restart[n] < |reactor.calls|)
      && (minRestartDelay <= maxRestartDelay ==>
            forall n | n in delay :: minRestartDelay <= delay[n] <= maxRestartDelay)
    }

    /** The process each live protocol is connected to. */
    ghost function Transports(): map<Name, Pid>
      reads this
    {
      TransportsOf(protocols)
    }

    ghost function StartedState(): Started
      reads this, reactor
    {
      Started(Transports(), timeStarted, reactor.spawns)
    }

    ghost function Effects(): StopEffects
      reads this, reactor
    {
      StopEffects(murder, reactor.calls, reactor.signals)
    }

    /** The handles of the restart timers, the values of `restart`. */
    function RestartHandles(): set<nat>
      reads this
    {
      set n | n in restart :: restart[n]
    }

    constructor (reactor: MemoryReactor, codec: Codec, threshold: nat := 1, killTime: nat := 5,
                 minRestartDelay: nat := 1, maxRestartDelay: nat := 3600)
      ensures Valid()
      ensures this.reactor == reactor && this.codec == codec && this.threshold == threshold
      ensures this.killTime == killTime && this.minRestartDelay == minRestartDelay
      ensures this.maxRestartDelay == maxRestartDelay
      ensures !running && processes == map[] && order == [] && protocols == map[]
      ensures delay == map[] && timeStarted == map[] && murder == map[] && restart == map[]
    {
      this.reactor := reactor;
      this.codec := codec;
      this.threshold := threshold;
      this.killTime := killTime;
      this.minRestartDelay := minRestartDelay;
      this.maxRestartDelay := maxRestartDelay;
      running := false;
      processes := map[];
      order := [];
      protocols := map[];
      delay := map[];
      timeStarted := map[];
      murder := map[];
      restart := map[];
    }

    /** addProcess: register a new name and start it at once if the service runs. */
    method AddProcess(name: Name, args: Argv, uid: Option<int> := None, gid: Option<int> := None,
                      env: map<string, string> := map[], cwd: Option<string> := None)
      returns (r: Outcome)
      requires Valid()
      modifies this, reactor
      ensures Valid()
      ensures r == KeyError <==> name in old(processes)
      ensures r == KeyError ==> unchanged(this) && unchanged(reactor)
      ensures r == Ok ==>
        && processes == old(processes)[name := Process(args, uid, gid, env, cwd)]
        && order == old(order) + [name]
        && delay == old(delay)[name := minRestartDelay]
      ensures r == Ok && old(running) && name !in old(protocols) ==>
        && name in protocols && fresh(protocols[name])
        && protocols == old(protocols)[name := protocols[name]]
        && protocols[name].transport == old(|reactor.spawns|)
        && fresh(protocols[name].output) && protocols[name].Valid() && protocols[name].received == []
        && timeStarted == old(timeStarted)[name := reactor.now]
        && reactor.spawns == old(reactor.spawns) + [Launch(name, processes[name])]
      ensures r == Ok && (!old(running) || name in old(protocols)) ==>
        && protocols == old(protocols) && timeStarted == old(timeStarted)
        && reactor.spawns == old(reactor.spawns)
      ensures running == old(running) && murder == old(murder) && restart == old(restart)
      ensures reactor.now == old(reactor.now) && reactor.calls == old(reactor.calls)
      ensures reactor.signals == old(reactor.signals)
    {
      if name in processes {
        return KeyError;
      }
      Register(name, Process(args, uid, gid, env, cwd));
      r := Ok;
      if running {
        var _ := StartProcess(name);
      }
    }

    /** removeProcess: stop the process, then forget its record. Its delay, its start time
        and any restart timer already scheduled for it are kept. */
    method RemoveProcess(name: Name, termDelivered: bool) returns (r: Outcome)
      requires Valid()
      modifies this, reactor
      ensures Valid()
      ensures r == KeyError <==> name !in old(processes)
      ensures r == KeyError ==> unchanged(this) && unchanged(reactor)
      ensures r == Ok ==>
        && processes == old(processes) - {name}
        && order == Filter(old(order), {name})
        && Effects() == StopStep(old(Effects()), name, old(Transports()), termDelivered, reactor.now, killTime)
      ensures protocols == old(protocols) && delay == old(delay) && timeStarted == old(timeStarted)
      ensures restart == old(restart) && running == old(running)
      ensures reactor.now == old(reactor.now) && reactor.spawns == old(reactor.spawns)
    {
      r := StopProcess(name, termDelivered);
      if r == Ok {
        Unregister(name);
      }
    }

    /** Record a new name: its process, its place at the end of the order, and the
        initial restart delay. */
    method Register(name: Name, process: Process)
      requires Valid() && name !in processes
      modifies this
      ensures Valid()
      ensures processes == old(processes)[name := process] && order == old(order) + [name]
      ensures delay == old(delay)[name := minRestartDelay]
      ensures protocols == old(protocols) && timeStarted == old(timeStarted)
      ensures murder == old(murder) && restart == old(restart) && running == old(running)
    {
      processes := processes[name := process];
      order := order + [name];
      delay := delay[name := minRestartDelay];
    }

    /** `del self._processes[name]`: the record goes, and the name leaves the iteration order. */
    method Unregister(name: Name)
      requires Valid() && name in processes
      modifies this
      ensures Valid()
      ensures processes == old(processes) - {name} && order == Filter(old(order), {name})
      ensures protocols == old(protocols) && delay == old(delay) && timeStarted == old(timeStarted)
      ensures murder == old(murder) && restart == old(restart) && running == old(running)
    {
      FilterNoDuplicates(order, {name});
      processes := processes - {name};
      order := Filter(order, {name});
    }

    /** startService: mark the service running and start every registered name, in
        registration order. */
    method StartService()
      requires Valid()
      modifies this, reactor
      ensures Valid() && running
      ensures StartedState() == StartAll(old(StartedState()), order, processes, reactor.now)
      ensures forall n | n in old(protocols) :: n in protocols && protocols[n] == old(protocols[n])
      ensures forall n | n in protocols && n !in old(protocols) ::
        fresh(protocols[n]) && fresh(protocols[n].output)
        && protocols[n].Valid() && protocols[n].received == []
      ensures processes == old(processes) && order == old(order) && delay == old(delay)
      ensures murder == old(murder) && restart == old(restart)
      ensures reactor.now == old(reactor.now) && reactor.calls == old(reactor.calls)
      ensures reactor.signals == old(reactor.signals)
    {
      running := true;
      ghost var added: map<Name, LoggingProtocol> := map[];
      assert protocols == old(protocols) + added;
      var i := 0;
      while i < |order|
        invariant i <= |order|
        invariant Valid() && running
        invariant StartedState() == StartAll(old(StartedState()), order[..i], processes, reactor.now)
        invariant added.Keys !! old(protocols).Keys && protocols == old(protocols) + added
        invariant forall n | n in added ::
          fresh(added[n]) && fresh(added[n].output) && added[n].Valid() && added[n].received == []
        invariant processes == old(processes) && order == old(order) && delay == old(delay)
        invariant murder == old(murder) && restart == old(restart)
        invariant reactor.now == old(reactor.now) && reactor.calls == old(reactor.calls)
        invariant reactor.signals == old(reactor.signals)
      {
        StartAllPrefix(old(StartedState()), order, i, processes, reactor.now);
        added := StartNext(order[i], old(protocols), added);
        i := i + 1;
      }
      assert order[..i] == order;
    }

    /** One step of startService's loop: startProcess for `name`, with the protocols it
        adds on top of `base` tracked in `added`. */
    method StartNext(name: Name, ghost base: map<Name, LoggingProtocol>, ghost added: map<Name, LoggingProtocol>)
      returns (ghost added': map<Name, LoggingProtocol>)
      requires Valid()
      requires added.Keys !! base.Keys && protocols == base + added
      requires forall n | n in added :: added[n].Valid() && added[n].received == []
      modifies this, reactor
      ensures Valid()
      ensures added'.Keys !! base.Keys && protocols == base + added'
      ensures forall n | n in added' ::
        && (n in added ==> added'[n] == added[n])
        && (n !in added ==> fresh(added'[n]) && fresh(added'[n].output))
        && added'[n].Valid() && added'[n].received == []
      ensures StartedState() == StartStep(old(StartedState()), name, processes, reactor.now)
      ensures processes == old(processes) && order == old(order) && delay == old(delay)
      ensures murder == old(murder) && restart == old(restart) && running == old(running)
      ensures reactor.now == old(reactor.now) && reactor.calls == old(reactor.calls)
      ensures reactor.signals == old(reactor.signals)
    {
      ghost var before := protocols;
      var _ := StartProcess(name);
      added' := added;
      if name !in before && name in processes {
        MapUnionUpdate(base, added, name, protocols[name]);
        added' := added[name := protocols[name]];
      }
    }

    /** stopService: mark the service stopped, cancel every restart timer still active, then
        stop every registered name, in registration order. */
    method StopService(delivered: Name -> bool)
      requires Valid()
      modifies this, reactor
      ensures Valid() && !running
      ensures Effects()
           == StopAll(StopEffects(old(murder), CancelActive(old(reactor.calls), old(RestartHandles())), old(reactor.signals)),
                      order, Transports(), delivered, reactor.now, killTime)
      ensures forall n | n in restart :: !reactor.calls[restart[n]].Active()
      ensures processes == old(processes) && order == old(order) && protocols == old(protocols)
      ensures delay == old(delay) && timeStarted == old(timeStarted) && restart == old(restart)
      ensures reactor.now == old(reactor.now) && reactor.spawns == old(reactor.spawns)
    {
      running := false;
      CancelRestarts();
      ghost var cancelled := Effects();
      StopEach(delivered);
      StopAllArmsKillTimers(cancelled, order, Transports(), delivered, reactor.now, killTime);
    }

    /** The loop of stopService over the restart timers: cancel each one still active. */
    method CancelRestarts()
      requires Valid()
      modifies reactor
      ensures Valid()
      ensures reactor.calls == CancelActive(old(reactor.calls), RestartHandles())
      ensures reactor.now == old(reactor.now) && reactor.spawns == old(reactor.spawns)
      ensures reactor.signals == old(reactor.signals)
    {
      var pending := RestartHandles();
      assert CancelActive(reactor.calls, {}) == reactor.calls;
      while pending != {}
        invariant pending <= RestartHandles()
        invariant reactor.calls == CancelActive(old(reactor.calls), RestartHandles() - pending)
        invariant reactor.now == old(reactor.now) && reactor.spawns == old(reactor.spawns)
        invariant reactor.signals == old(reactor.signals)
        decreases pending
      {
        var h :| h in pending;
        CancelActiveTwice(old(reactor.calls), RestartHandles() - pending, h);
        reactor.CancelIfActive(h);
        pending := pending - {h};
        assert RestartHandles() - pending == (RestartHandles() - (pending + {h})) + {h};
      }
    }

    /** restartAll: stop every registered name; the exits then restart them. */
    method RestartAll(delivered: Name -> bool)
      requires Valid()
      modifies this, reactor
      ensures Valid()
      ensures Effects() == StopAll(old(Effects()), order, Transports(), delivered, reactor.now, killTime)
      ensures processes == old(processes) && order == old(order) && protocols == old(protocols)
      ensures delay == old(delay) && timeStarted == old(timeStarted) && restart == old(restart)
      ensures running == old(running)
      ensures reactor.now == old(reactor.now) && reactor.spawns == old(reactor.spawns)
    {
      StopEach(delivered);
    }

    /** stopProcess for every registered name, in registration order; `delivered` says for
        each name whether its TERM reached a running process. */
    method StopEach(delivered: Name -> bool)
      requires Valid()
      modifies this, reactor
      ensures Valid()
      ensures Effects() == StopAll(old(Effects()), order, Transports(), delivered, reactor.now, killTime)
      ensures processes == old(processes) && order == old(order) && protocols == old(protocols)
      ensures delay == old(delay) && timeStarted == old(timeStarted) && restart == old(restart)
      ensures running == old(running)
      ensures reactor.now == old(reactor.now) && reactor.spawns == old(reactor.spawns)
    {
      ghost var live := Transports();
      var i := 0;
      while i < |order|
        invariant 0 <= i <= |order|
        invariant Valid()
        invariant processes == old(processes) && order == old(order) && protocols == old(protocols)
        invariant delay == old(delay) && timeStarted == old(timeStarted) && restart == old(restart)
        invariant running == old(running)
        invariant Transports() == live
        invariant reactor.now == old(reactor.now) && reactor.spawns == old(reactor.spawns)
        invariant Effects() == StopAll(old(Effects()), order[..i], live, delivered, reactor.now, killTime)
      {
        var name := order[i];
        StopAllPrefix(old(Effects()), order, i, live, delivered, reactor.now, killTime);
        var _ := StopProcess(name, delivered(name));
        i := i + 1;
      }
      assert order[..i] == order;
    }

    /** connectionLost: a monitored process exited. Cancel its KILL timer, forget its
        protocol, apply the backoff rule, and schedule a restart if the service runs and the
        name is still registered. */
    method ConnectionLost(name: Name)
      requires Valid() && name in protocols
      modifies this, reactor
      ensures Valid()
      ensures protocols == old(protocols) - {name}
      ensures murder == old(murder) - {name}
      ensures old(|reactor.calls|) <= |reactor.calls|
      ensures name in old(murder) ==> !reactor.calls[old(murder[name])].Active()
      ensures var d := Backoff.OnExit(old(reactor.now) - old(timeStarted[name]), old(delay[name]),
                                      threshold, minRestartDelay, maxRestartDelay);
              var calls := if name in old(murder) then CancelActive(old(reactor.calls), {old(murder[name])})
                           else old(reactor.calls);
              && delay == old(delay)[name := d.delay]
              && if old(running) && name in processes then
                   && restart == old(restart)[name := |calls|]
                   && reactor.calls == calls + [DelayedCall(reactor.now + d.nextDelay, StartProcessCall(name), Pending)]
                 else
                   restart == old(restart) && reactor.calls == calls
      ensures processes == old(processes) && order == old(order) && timeStarted == old(timeStarted)
      ensures running == old(running)
      ensures reactor.now == old(reactor.now) && reactor.spawns == old(reactor.spawns)
      ensures reactor.signals == old(reactor.signals)
    {
      ForgetProtocol(name);
      ApplyBackoff(name);
    }

    /** The first half of connectionLost: cancel and drop the KILL timer of `name`, if any,
        and drop its protocol. */
    method ForgetProtocol(name: Name)
      requires Valid() && name in protocols
      modifies this, reactor
      ensures Valid()
      ensures protocols == old(protocols) - {name}
      ensures murder == old(murder) - {name}
      ensures reactor.calls == if name in old(murder) then CancelActive(old(reactor.calls), {old(murder[name])})
                               else old(reactor.calls)
      ensures processes == old(processes) && order == old(order) && delay == old(delay)
      ensures timeStarted == old(timeStarted) && restart == old(restart) && running == old(running)
      ensures reactor.now == old(reactor.now) && reactor.spawns == old(reactor.spawns)
      ensures reactor.signals == old(reactor.signals)
    {
      if name in murder {
        reactor.CancelIfActive(murder[name]);
        murder := murder - {name};
      }
      protocols := protocols - {name};
    }

    /** The second half of connectionLost: the backoff rule and the restart it schedules. */
    method ApplyBackoff(name: Name)
      requires Valid() && name in delay && name in timeStarted
      modifies this, reactor
      ensures Valid()
      ensures var d := Backoff.OnExit(old(reactor.now) - old(timeStarted[name]), old(delay[name]),
                                      threshold, minRestartDelay, maxRestartDelay);
              && delay == old(delay)[name := d.delay]
              && if old(running) && name in processes then
                   && restart == old(restart)[name := old(|reactor.calls|)]
                   && reactor.calls == old(reactor.calls) + [DelayedCall(reactor.now + d.nextDelay, StartProcessCall(name), Pending)]
                 else
                   restart == old(restart) && reactor.calls == old(reactor.calls)
      ensures processes == old(processes) && order == old(order) && protocols == old(protocols)
      ensures timeStarted == old(timeStarted) && murder == old(murder) && running == old(running)
      ensures reactor.now == old(reactor.now) && reactor.spawns == old(reactor.spawns)
      ensures reactor.signals == old(reactor.signals)
    {
      var d := Backoff.OnExit(reactor.now - timeStarted[name], delay[name],
                              threshold, minRestartDelay, maxRestartDelay);
      delay := delay[name := d.delay];
      if running && name in processes {
        var h := reactor.CallLater(d.nextDelay, StartProcessCall(name));
        restart := restart[name := h];
      }
    }

    /** startProcess: spawn the named process unless a protocol for it is live already.
        An unregistered name raises KeyError before anything changes. */
    method StartProcess(name: Name) returns (r: Outcome)
      requires Valid()
      modifies this, reactor
      ensures Valid()
      ensures r == KeyError <==> name !in old(protocols) && name !in processes
      ensures name in old(protocols) || name !in processes ==>
        && protocols == old(protocols) && timeStarted == old(timeStarted)
        && reactor.spawns == old(reactor.spawns)
      ensures name !in old(protocols) && name in processes ==>
        && name in protocols && fresh(protocols[name])
        && protocols == old(protocols)[name := protocols[name]]
        && protocols[name].transport == old(|reactor.spawns|)
        && fresh(protocols[name].output) && protocols[name].Valid() && protocols[name].received == []
        && timeStarted == old(timeStarted)[name := reactor.now]
        && reactor.spawns == old(reactor.spawns) + [Launch(name, processes[name])]
      ensures StartedState() == StartStep(old(StartedState()), name, processes, reactor.now)
      ensures forall n | n in old(protocols) && old(protocols[n].Valid()) ::
        protocols[n].Valid() && protocols[n].received == old(protocols[n].received)
      ensures processes == old(processes) && order == old(order) && delay == old(delay)
      ensures murder == old(murder) && restart == old(restart) && running == old(running)
      ensures reactor.now == old(reactor.now) && reactor.calls == old(reactor.calls)
      ensures reactor.signals == old(reactor.signals)
    {
      if name in protocols {
        return Ok;
      }
      if name !in processes {
        return KeyError;
      }
      var process := processes[name];
      var proc := reactor.SpawnProcess(name, process.args[0], process.args, process.uid, process.gid,
                                       process.env, process.cwd);
      var proto := new LoggingProtocol(this, name, proc, codec);
      TransportsOfUpdate(protocols, name, proto);
      protocols := protocols[name := proto];
      timeStarted := timeStarted[name := reactor.now];
      r := Ok;
    }

    /** _forceStopProcess: KILL the process; one that has already exited is ignored. */
    method ForceStopProcess(proc: Pid, delivered: bool)
      modifies reactor
      ensures reactor.signals == old(reactor.signals) + (if delivered then [SignalSent(proc, KILL)] else [])
      ensures reactor.now == old(reactor.now) && reactor.calls == old(reactor.calls)
      ensures reactor.spawns == old(reactor.spawns)
    {
      var _ := reactor.SignalProcess(proc, KILL, delivered);
    }

    /** stopProcess: TERM the live process of a registered name and arm its KILL timer; an
        unknown name raises KeyError, and a process that has already exited is ignored. */
    method StopProcess(name: Name, termDelivered: bool) returns (r: Outcome)
      requires Valid()
      modifies this, reactor
      ensures Valid()
      ensures r == KeyError <==> name !in processes
      ensures r == KeyError ==> unchanged(this) && unchanged(reactor)
      ensures name in processes && name in protocols && termDelivered ==>
        var proc := protocols[name].transport;
        && murder == old(murder)[name := old(|reactor.calls|)]
        && reactor.calls == old(reactor.calls) + [DelayedCall(reactor.now + killTime, ForceStopCall(proc), Pending)]
        && reactor.signals == old(reactor.signals) + [SignalSent(proc, TERM)]
      ensures !(name in processes && name in protocols && termDelivered) ==>
        && murder == old(murder) && reactor.calls == old(reactor.calls)
        && reactor.signals == old(reactor.signals)
      ensures name in processes ==>
        Effects() == StopStep(old(Effects()), name, Transports(), termDelivered, reactor.now, killTime)
      ensures processes == old(processes) && order == old(order) && protocols == old(protocols)
      ensures delay == old(delay) && timeStarted == old(timeStarted) && restart == old(restart)
      ensures running == old(running)
      ensures reactor.now == old(reactor.now) && reactor.spawns == old(reactor.spawns)
    {
      if name !in processes {
        return KeyError;
      }
      r := Ok;
      if name in protocols {
        var proc := protocols[name].transport;
        var exitedAlready := reactor.SignalProcess(proc, TERM, termDelivered);
        if !exitedAlready {
          var h := reactor.CallLater(killTime, ForceStopCall(proc));
          murder := murder[name := h];
        }
      }
    }

    /** The reactor runs a delayed call that is due: a restart (startProcess) or a KILL
        (_forceStopProcess). An exception the call raises is caught by the reactor. */
    method RunDelayedCall(h: nat, killDelivered: bool) returns (r: Outcome)
      requires Valid() && h < |reactor.calls| && reactor.calls[h].Active() && reactor.calls[h].time <= reactor.now
      modifies this, reactor
      ensures Valid()
      ensures reactor.calls == old(reactor.calls)[h := old(reactor.calls[h]).(state := Called)]
      ensures processes == old(processes) && order == old(order) && delay == old(delay)
      ensures running == old(running) && reactor.now == old(reactor.now)
      ensures old(reactor.calls[h].action).ForceStopCall? ==>
        var proc := old(reactor.calls[h].action.proc);
        && r == Ok && unchanged(this) && reactor.spawns == old(reactor.spawns)
        && reactor.signals == old(reactor.signals) + (if killDelivered then [SignalSent(proc, KILL)] else [])
      ensures old(reactor.calls[h].action).StartProcessCall? ==>
        var name := old(reactor.calls[h].action.name);
        && (r == KeyError <==> name !in old(protocols) && name !in processes)
        && processes == old(processes) && murder == old(murder) && restart == old(restart)
        && reactor.signals == old(reactor.signals)
        && (name in old(protocols) || name !in processes ==>
              && protocols == old(protocols) && timeStarted == old(timeStarted)
              && reactor.spawns == old(reactor.spawns))
        && (name !in old(protocols) && name in processes ==>
              && name in protocols && fresh(protocols[name])
              && protocols == old(protocols)[name := protocols[name]]
              && protocols[name].transport == old(|reactor.spawns|)
              && fresh(protocols[name].output) && protocols[name].Valid() && protocols[name].received == []
              && timeStarted == old(timeStarted)[name := reactor.now]
              && reactor.spawns == old(reactor.spawns) + [Launch(name, processes[name])])
    {
      var action := reactor.Fire(h);
      match action
      case StartProcessCall(name) =>
        r := StartProcess(name);
      case ForceStopCall(proc) =>
        ForceStopProcess(proc, killDelivered);
        r := Ok;
    }
  }
}
