/** flink-daemon.sh and flink-console.sh: a file of pids used as a stack, one undisturbed script at a time. */
module PidFile {

  import opened Lists
  import opened Options

  /** The pid file: absent, or one pid a line. */
  type File = Option<seq<nat>>

  function Lines(file: File): seq<nat> {
    if file.Some? then file.value else []
  }

  function Push(file: File, pid: nat): File {
    Some(Lines(file) + [pid])
  }

  function PushAll(file: File, pids: seq<nat>): File
    decreases |pids|
  {
    if pids == [] then file else PushAll(Push(file, pids[0]), pids[1..])
  }

  /** Lines 153-164 of flink-daemon.sh; a file left without lines is removed. */
  function PopFile(file: File): File {
    if |Lines(file)| <= 1 then None else Some(file.value[..|file.value| - 1])
  }

  function Running(pids: seq<nat>, live: set<nat>): seq<nat> {
    if pids == [] then []
    else if pids[0] in live then [pids[0]] + Running(pids[1..], live)
    else Running(pids[1..], live)
  }

  function Reverse(s: seq<nat>): seq<nat> {
    if s == [] then [] else Reverse(s[1..]) + [s[0]]
  }

  /** The processes of the machine and the signals sent, oldest first. `stubborn` processes outlive
      guaranteed_kill, which happens only where the timeout command is missing. */
  datatype Processes = Processes(live: set<nat>, signals: seq<nat>, stubborn: set<nat>) {

    /** kill -0, then guaranteed_kill if that succeeds. */
    function KillIfRunning(pid: nat): Processes {
      if pid in live then
        this.(signals := signals + [pid], live := if pid in stubborn then live else live - {pid})
      else this
    }

    function KillAll(pids: seq<nat>): Processes
      decreases |pids|
    {
      if pids == [] then this else KillIfRunning(pids[0]).KillAll(pids[1..])
    }
  }

  datatype Host = Host(file: File, processes: Processes)

  function AfterStop(h: Host): Host {
    var lines := Lines(h.file);
    Host(PopFile(h.file),
         if lines == [] then h.processes else h.processes.KillIfRunning(lines[|lines| - 1]))
  }

  function AfterStopAll(h: Host): Host {
    Host(None, h.processes.KillAll(Lines(h.file)))
  }

  function StopTimes(h: Host, n: nat): Host
    decreases n
  {
    if n == 0 then h else StopTimes(AfterStop(h), n - 1)
  }

  /** `stop` again and again until there is no pid file. */
  function StopUntilGone(h: Host): Host
    decreases h.file.Some?, |Lines(h.file)|
  {
    if h.file.None? then h else StopUntilGone(AfterStop(h))
  }

  /** Lines 92-100 of flink-console.sh. */
  function Prune(file: File, live: set<nat>): File {
    if Running(Lines(file), live) == [] then None else file
  }

  // ---------- the scripts ----------

  class Machine {
    var processes: Processes

    constructor (processes: Processes)
      ensures this.processes == processes
    {
      this.processes := processes;
    }
  }

  /** One kind of daemon: its pid file, on a machine it shares with the other kinds. */
  class Daemon {
    const machine: Machine
    var pidFile: File

    constructor (machine: Machine, pidFile: File)
      ensures this.machine == machine && this.pidFile == pidFile
    {
      this.machine := machine;
      this.pidFile := pidFile;
    }

    function View(): Host
      reads this, machine
    {
      Host(pidFile, machine.processes)
    }

    /** `myPid` is the process launched, `up` tells whether it is still there at line 144. */
    method Start(myPid: nat, up: bool) returns (id: nat, count: nat, ok: bool)
      modifies this`pidFile, machine
      ensures id == |Lines(old(pidFile))|
      ensures count == |Running(Lines(old(pidFile)), old(machine.processes.live))|
      ensures ok == up
      ensures pidFile == if up then Push(old(pidFile), myPid) else old(pidFile)
      ensures var before := old(machine.processes);
              machine.processes == if up then before.(live := before.live + {myPid}) else before
    {
      id := |Lines(pidFile)|;
      var lines, active, n := Lines(pidFile), [], 0;
      while n < |lines|
        invariant n <= |lines|
        invariant active + Running(lines[n..], machine.processes.live) == Running(lines, machine.processes.live)
      {
        assert lines[n..][1..] == lines[n + 1..];
        if lines[n] in machine.processes.live {
          active := active + [lines[n]];
        }
        n := n + 1;
      }
      count := |active|;
      ok := up;
      if up {
        machine.processes := machine.processes.(live := machine.processes.live + {myPid});
        pidFile := Push(pidFile, myPid);
      }
    }

    method Stop()
      modifies this`pidFile, machine
      ensures View() == AfterStop(old(View()))
    {
      if pidFile.Some? {
        var lines := pidFile.value;
        if lines == [] {
          pidFile := None;
        } else {
          var toStop, rest := lines[|lines| - 1], lines[..|lines| - 1];
          pidFile := if |rest| == 0 then None else Some(rest);
          machine.processes := machine.processes.KillIfRunning(toStop);
        }
      }
    }

    method StopAll()
      modifies this`pidFile, machine
      ensures View() == AfterStopAll(old(View()))
    {
      if pidFile.Some? {
        var moved := pidFile.value;
        pidFile := None;
        var n := 0;
        while n < |moved|
          invariant n <= |moved| && pidFile == None
          invariant machine.processes.KillAll(moved[n..]) == old(machine.processes).KillAll(moved)
        {
          assert moved[n..][1..] == moved[n + 1..];
          machine.processes := machine.processes.KillIfRunning(moved[n]);
          n := n + 1;
        }
        assert moved[n..] == [];
      }
    }

    /** `self` is the script's own pid, which java keeps; `appended` tells whether line 111 could write. */
    method ConsoleStart(self: nat, appended: bool) returns (id: nat)
      modifies this`pidFile
      ensures var pruned := Prune(old(pidFile), machine.processes.live);
              && id == |Lines(pruned)|
              && pidFile == if appended then Push(pruned, self) else pruned
    {
      if pidFile.Some? {
        var allDead, lines, n := true, pidFile.value, 0;
        while n < |lines|
          invariant n <= |lines|
          invariant Running(lines, machine.processes.live) == []
                <==> allDead && Running(lines[n..], machine.processes.live) == []
        {
          assert lines[n..][1..] == lines[n + 1..];
          if lines[n] in machine.processes.live {
            allDead := false;
          }
          n := n + 1;
        }
        if allDead {
          pidFile := None;
        }
      }
      id := |Lines(pidFile)|;
      if appended {
        pidFile := Push(pidFile, self);
      }
    }
  }

  // ---------- killing a list of processes ----------

  lemma {:induction false} KillAllConcat(p: Processes, a: seq<nat>, b: seq<nat>)
    ensures p.KillAll(a + b) == p.KillAll(a).KillAll(b)
    decreases |a|
  {
    if a == [] {
      assert a + b == b;
    } else {
      KillAllConcat(p.KillIfRunning(a[0]), a[1..], b);
      assert (a + b)[1..] == a[1..] + b;
    }
  }

  /** All of them die that can; the signals go to exactly the running ones. */
  lemma {:induction false} KillAllEffect(p: Processes, pids: seq<nat>)
    ensures var q := p.KillAll(pids);
            && q.stubborn == p.stubborn
            && q.live == p.live - (Elems(pids) - p.stubborn)
            && p.signals <= q.signals
            && Elems(q.signals[|p.signals|..]) == Elems(pids) * p.live
    decreases |pids|
  {
    if pids != [] {
      var next := p.KillIfRunning(pids[0]);
      KillAllEffect(next, pids[1..]);
      var q := p.KillAll(pids);
      assert pids == [pids[0]] + pids[1..];
      assert Elems(pids) == {pids[0]} + Elems(pids[1..]);
      if pids[0] in p.live {
        assert q.signals[|p.signals|..] == [pids[0]] + q.signals[|next.signals|..] by {
          assert q.signals[|p.signals|] == next.signals[|p.signals|];
        }
        var rest := q.signals[|next.signals|..];
        assert Elems([pids[0]] + rest) == {pids[0]} + Elems(rest);
      }
    }
  }

  lemma {:induction false} KillAllInOrder(p: Processes, pids: seq<nat>)
    requires Distinct(pids)
    ensures p.KillAll(pids).signals == p.signals + Running(pids, p.live)
    decreases |pids|
  {
    if pids != [] {
      var next := p.KillIfRunning(pids[0]);
      KillAllInOrder(next, pids[1..]);
      forall x | x in pids[1..]
        ensures x in next.live <==> x in p.live
      {
        var k :| 0 <= k < |pids[1..]| && pids[1..][k] == x;
        assert pids[k + 1] == x;
      }
      RunningAgrees(pids[1..], next.live, p.live);
    }
  }

  lemma {:induction false} RunningAgrees(pids: seq<nat>, a: set<nat>, b: set<nat>)
    requires forall x | x in pids :: x in a <==> x in b
    ensures Running(pids, a) == Running(pids, b)
  {
    if pids != [] {
      assert pids[0] in pids;
      RunningAgrees(pids[1..], a, b);
    }
  }

  lemma {:induction false} RunningConcat(a: seq<nat>, b: seq<nat>, live: set<nat>)
    ensures Running(a + b, live) == Running(a, live) + Running(b, live)
  {
    if a == [] {
      assert a + b == b;
    } else {
      RunningConcat(a[1..], b, live);
      assert (a + b)[1..] == a[1..] + b;
    }
  }

  lemma {:induction false} ReverseConcat(a: seq<nat>, b: seq<nat>)
    ensures Reverse(a + b) == Reverse(b) + Reverse(a)
  {
    if a == [] {
      assert a + b == b;
    } else {
      ReverseConcat(a[1..], b);
      assert (a + b)[1..] == a[1..] + b;
    }
  }

  lemma {:induction false} ReverseMembers(s: seq<nat>)
    ensures |Reverse(s)| == |s|
    ensures forall k | 0 <= k < |s| :: Reverse(s)[k] == s[|s| - 1 - k]
    ensures Elems(Reverse(s)) == Elems(s)
    ensures Distinct(s) ==> Distinct(Reverse(s))
  {
    if s != [] {
      ReverseMembers(s[1..]);
      assert s == [s[0]] + s[1..];
      assert Elems(s) == {s[0]} + Elems(s[1..]);
      assert Elems(Reverse(s[1..]) + [s[0]]) == Elems(Reverse(s[1..])) + {s[0]};
    }
  }

  lemma {:induction false} RunningReverse(s: seq<nat>, live: set<nat>)
    ensures Running(Reverse(s), live) == Reverse(Running(s, live))
  {
    if s != [] {
      RunningReverse(s[1..], live);
      RunningConcat(Reverse(s[1..]), [s[0]], live);
      if s[0] in live {
        assert Running(s, live)[1..] == Running(s[1..], live);
      }
    }
  }

  lemma {:induction false} RunningIsFilter(pids: seq<nat>, live: set<nat>)
    ensures Running(pids, live) == Filter(pids, InSet(live))
  {
    if pids != [] {
      RunningIsFilter(pids[1..], live);
    }
  }

  function InSet(live: set<nat>): nat -> bool {
    (p: nat) => p in live
  }

  /** A console start drops the file exactly when none of its processes runs. */
  lemma PruneMeaning(file: File, live: set<nat>)
    ensures Prune(file, live) == if forall p | p in Lines(file) :: p !in live then None else file
  {
    RunningIsFilter(Lines(file), live);
    var at := FilterKeeps(Lines(file), InSet(live));
    if Running(Lines(file), live) != [] {
      assert Lines(file)[at[0]] in Lines(file) && at[0] in at;
    }
  }

  // ---------- stop-all against stop, stop, stop ... ----------

  lemma LastFirst(lines: seq<nat>, keep: nat)
    requires keep < |lines|
    ensures var last, init := lines[|lines| - 1], lines[..|lines| - 1];
            var reversed := Reverse(lines[keep..]);
            reversed != [] && reversed[0] == last && reversed[1..] == Reverse(init[keep..])
  {
    var last, init := lines[|lines| - 1], lines[..|lines| - 1];
    assert lines[keep..] == init[keep..] + [last];
    ReverseConcat(init[keep..], [last]);
    assert Reverse([last]) == [last];
    assert ([last] + Reverse(init[keep..]))[1..] == Reverse(init[keep..]);
  }

  /** n stops kill the last n lines, last one first. */
  lemma {:induction false} StopTimesKills(h: Host, n: nat)
    ensures var lines := Lines(h.file);
            var keep := if n <= |lines| then |lines| - n else 0;
            StopTimes(h, n) == Host(if n == 0 then h.file else if keep == 0 then None else Some(lines[..keep]),
                                    h.processes.KillAll(Reverse(lines[keep..])))
    decreases n
  {
    var lines := Lines(h.file);
    if n == 0 {
      assert lines[|lines|..] == [];
    } else {
      StopTimesKills(AfterStop(h), n - 1);
      if lines == [] {
      } else {
        var last, init := lines[|lines| - 1], lines[..|lines| - 1];
        var keep := if n <= |lines| then |lines| - n else 0;
        assert Lines(PopFile(h.file)) == init;
        LastFirst(lines, keep);
        assert init[..keep] == lines[..keep];
      }
    }
  }

  lemma {:induction false} StopUntilGoneIsStopTimes(h: Host)
    requires h.file.Some?
    ensures StopUntilGone(h) == StopTimes(h, if |h.file.value| == 0 then 1 else |h.file.value|)
    decreases |Lines(h.file)|
  {
    if |h.file.value| > 1 {
      StopUntilGoneIsStopTimes(AfterStop(h));
    }
  }

  /** stop-all leaves what stopping until the pid file is gone leaves: no file, the same processes, the same
      ones signalled; if no pid is listed twice the signals come in exactly the opposite order. */
  lemma StopAllIsRepeatedStop(h: Host)
    ensures var all, each := AfterStopAll(h), StopUntilGone(h);
            var before := |h.processes.signals|;
            && all.file == each.file == None
            && all.processes.live == each.processes.live
            && h.processes.signals <= all.processes.signals && h.processes.signals <= each.processes.signals
            && Elems(all.processes.signals[before..]) == Elems(each.processes.signals[before..])
                 == Elems(Lines(h.file)) * h.processes.live
            && (Distinct(Lines(h.file)) ==>
                  each.processes.signals[before..] == Reverse(all.processes.signals[before..]))
  {
    var lines := Lines(h.file);
    KillAllEffect(h.processes, lines);
    KillAllEffect(h.processes, Reverse(lines));
    ReverseMembers(lines);
    if h.file.Some? {
      StopUntilGoneIsStopTimes(h);
      StopTimesKills(h, if |lines| == 0 then 1 else |lines|);
      assert lines[0..] == lines;
      assert StopUntilGone(h) == Host(None, h.processes.KillAll(Reverse(lines)));
    }
    if Distinct(lines) {
      KillAllInOrder(h.processes, lines);
      KillAllInOrder(h.processes, Reverse(lines));
      RunningReverse(lines, h.processes.live);
    }
  }

  // ---------- starts followed by as many stops ----------

  lemma {:induction false} PushAllLines(file: File, pids: seq<nat>)
    ensures Lines(PushAll(file, pids)) == Lines(file) + pids
    ensures pids != [] ==> PushAll(file, pids).Some?
    decreases |pids|
  {
    if pids != [] {
      PushAllLines(Push(file, pids[0]), pids[1..]);
      assert Lines(file) + pids == Lines(file) + [pids[0]] + pids[1..];
    }
  }

  /** Starts of which the processes `up` came up, then n stops, whatever has happened to the processes in
      between: the file is as before exactly when as many were pushed as popped and the file was not an empty
      one, or there was no file and no fewer were popped; then exactly the started ones are killed. */
  lemma StartsThenStops(file: File, up: seq<nat>, n: nat, processes: Processes)
    ensures var end := StopTimes(Host(PushAll(file, up), processes), n);
            && (end.file == file
                <==> (|up| == n && (n == 0 || file != Some([]))) || (file == None && |up| <= n))
            && (end.file == file || |up| == n ==> end.processes == processes.KillAll(Reverse(up)))
  {
    PushAllLines(file, up);
    var lines := Lines(file) + up;
    StopTimesKills(Host(PushAll(file, up), processes), n);
    var keep := if n <= |lines| then |lines| - n else 0;
    if |up| == n {
      assert lines[keep..] == up && lines[..keep] == Lines(file);
    } else if file == None && |up| < n {
      assert lines == up && lines[0..] == up;
    } else if |up| > n {
      assert |Lines(StopTimes(Host(PushAll(file, up), processes), n).file)| > |Lines(file)|;
    }
  }
}
