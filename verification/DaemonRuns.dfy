/** All interleavings of daemon starts, stops, stop-alls, console starts and process exits on one pid file.
    The lock on the pid directory lets one script at a time past its acquisition; processes exit at any
    moment, and the pid of one that is gone may be given to any new process. */
module DaemonRuns {

  import opened Lists
  import opened Options
  import opened PidFile

  /** Where the script that holds the lock is. */
  datatype Phase =
    | Free
    | Starting(id: nat)                     // log id read, lines 88-138
    | Launched(id: nat, pid: nat)           // before the check of line 144
    | Stopping                              // before lines 153-164
    | Popped(target: nat)                   // pid file rewritten, before line 166
    | StoppingAll                           // before line 180
    | Draining(left: seq<nat>)              // pid file moved away
    | Pruning(self: nat, left: seq<nat>, allDead: bool)
    | Pruned(self: nat)                     // before line 101 of flink-console.sh
    | Naming(self: nat, id: nat)            // before line 111

  /** `ids` are the log ids of the processes recorded on the lines. Of the running pids, `recorded` are those
      written to the file since the process was born and `signalled` those sent a signal since; `logId` is
      the id a pid was last recorded with. */
  datatype State = State(file: File, ids: seq<nat>, processes: Processes, logId: map<nat, nat>,
                         recorded: set<nat>, signalled: set<nat>, phase: Phase)

  datatype Event =
    | Start                        // flink-daemon.sh start gets the lock and reads the id
    | Launch(pid: nat)
    | Append                       // line 144-149: record it if the pid is still there; unlock
    | Stop
    | Pop
    | KillPopped                   // lines 166-171; unlock
    | StopAll
    | Move
    | KillNext
    | StopAllEnd                   // line 190; unlock
    | Console(self: nat)           // flink-console.sh, running as self, gets the lock
    | Look                         // one round of lines 94-98
    | RemoveIfDead                 // line 99
    | Name                         // line 101
    | AppendSelf(written: bool)    // lines 111-114; unlock
    | Born(pid: nat)               // an unrelated process begins
    | Exit(pid: nat)               // a process, possibly the console script itself, is gone

  function Init(stubborn: set<nat>): State {
    State(None, [], Processes({}, [], stubborn), map[], {}, {}, Free)
  }

  function Record(s: State, pid: nat, id: nat): State {
    s.(file := Push(s.file, pid), ids := s.ids + [id], recorded := s.recorded + {pid}, logId := s.logId[pid := id],
       phase := Free)
  }

  /** A new process runs under a pid that nobody has. */
  function Begin(s: State, pid: nat): State {
    s.(processes := s.processes.(live := s.processes.live + {pid}),
       recorded := s.recorded - {pid}, signalled := s.signalled - {pid})
  }

  function Signal(s: State, pid: nat): set<nat> {
    if pid in s.processes.live then s.signalled + {pid} else s.signalled
  }

  function Kill(s: State, pid: nat, phase: Phase): State {
    s.(processes := s.processes.KillIfRunning(pid), signalled := Signal(s, pid), phase := phase)
  }

  predicate IsConsole(phase: Phase, pid: nat) {
    (phase.Pruning? || phase.Pruned? || phase.Naming?) && phase.self == pid
  }

  /** An event that is not enabled changes nothing. */
  function Apply(s: State, e: Event): State {
    var live := s.processes.live;
    match e
    case Start => if s.phase.Free? then s.(phase := Starting(|Lines(s.file)|)) else s
    case Launch(pid) =>
      if s.phase.Starting? && pid !in live then Begin(s, pid).(phase := Launched(s.phase.id, pid)) else s
    case Append =>
      if s.phase.Launched? then
        if s.phase.pid in live then Record(s, s.phase.pid, s.phase.id) else s.(phase := Free)
      else s
    case Stop => if s.phase.Free? then s.(phase := Stopping) else s
    case Pop =>
      if s.phase.Stopping? then
        var lines := Lines(s.file);
        if lines == [] then s.(file := None, phase := Free)
        else s.(file := PopFile(s.file), ids := if s.ids == [] then [] else s.ids[..|s.ids| - 1],
                phase := Popped(lines[|lines| - 1]))
      else s
    case KillPopped => if s.phase.Popped? then Kill(s, s.phase.target, Free) else s
    case StopAll => if s.phase.Free? then s.(phase := StoppingAll) else s
    case Move => if s.phase.StoppingAll? then s.(file := None, ids := [], phase := Draining(Lines(s.file))) else s
    case KillNext =>
      if s.phase.Draining? && s.phase.left != [] then Kill(s, s.phase.left[0], Draining(s.phase.left[1..])) else s
    case StopAllEnd => if s.phase.Draining? && s.phase.left == [] then s.(phase := Free) else s
    case Console(self) =>
      if s.phase.Free? && self !in live then Begin(s, self).(phase := Pruning(self, Lines(s.file), true)) else s
    case Look =>
      if s.phase.Pruning? && s.phase.left != [] then
        s.(phase := s.phase.(left := s.phase.left[1..], allDead := s.phase.allDead && s.phase.left[0] !in live))
      else s
    case RemoveIfDead =>
      if s.phase.Pruning? && s.phase.left == [] then
        if s.phase.allDead then s.(file := None, ids := [], phase := Pruned(s.phase.self))
        else s.(phase := Pruned(s.phase.self))
      else s
    case Name => if s.phase.Pruned? then s.(phase := Naming(s.phase.self, |Lines(s.file)|)) else s
    case AppendSelf(written) =>
      if s.phase.Naming? then
        if written then Record(s, s.phase.self, s.phase.id) else s.(phase := Free)
      else s
    case Born(pid) => if pid in live then s else Begin(s, pid)
    case Exit(pid) =>
      s.(processes := s.processes.(live := live - {pid}), phase := if IsConsole(s.phase, pid) then Free else s.phase)
  }

  function Exec(s: State, es: seq<Event>): State
    decreases |es|
  {
    if es == [] then s else Exec(Apply(s, es[0]), es[1..])
  }

  // ---------- log ids ----------

  /** The process recorded on line k was given log id k. */
  ghost predicate Numbered(s: State) {
    |s.ids| == |Lines(s.file)| && forall k | 0 <= k < |s.ids| :: s.ids[k] == k
  }

  ghost predicate NumberInv(s: State) {
    && Numbered(s)
    && (s.file.Some? ==> s.file.value != [])
    && (s.phase.Starting? || s.phase.Launched? || s.phase.Naming? ==> s.phase.id == |Lines(s.file)|)
  }

  lemma RecordKeepsNumbers(s: State, pid: nat)
    requires NumberInv(s)
    ensures NumberInv(Record(s, pid, |Lines(s.file)|))
  {
  }

  lemma OtherKeepsNumbers(s: State, e: Event)
    requires NumberInv(s) && !e.Append? && !e.AppendSelf?
    ensures NumberInv(Apply(s, e))
  {
  }

  lemma ApplyKeepsNumbers(s: State, e: Event)
    requires NumberInv(s)
    ensures NumberInv(Apply(s, e))
  {
    match e
    case Append =>
      if s.phase.Launched? {
        RecordKeepsNumbers(s, s.phase.pid);
      }
    case AppendSelf(_) =>
      if s.phase.Naming? {
        RecordKeepsNumbers(s, s.phase.self);
      }
    case _ => OtherKeepsNumbers(s, e);
  }

  // ---------- nothing that runs is forgotten ----------

  predicate Unsignalled(s: State, p: nat) {
    p in s.recorded && p in s.processes.live && p !in s.signalled
  }

  /** The process of this pid is on the line that its log id names. */
  predicate OnItsLine(s: State, p: nat) {
    p in s.logId && s.logId[p] < |Lines(s.file)| && Lines(s.file)[s.logId[p]] == p
  }

  /** On its line, or about to be dealt with by the lock holder. */
  predicate Known(s: State, p: nat) {
    || OnItsLine(s, p)
    || (s.phase.Popped? && p == s.phase.target)
    || (s.phase.Draining? && p in s.phase.left)
  }

  /** What is left to look at contains every recorded line that runs, unless one has been found already. */
  ghost predicate LooksOn(s: State) {
    s.phase.Pruning? && s.phase.allDead ==>
      forall p | p in Lines(s.file) && p in s.recorded && p in s.processes.live :: p in s.phase.left
  }

  ghost predicate KnownInv(s: State) {
    (forall p | Unsignalled(s, p) :: Known(s, p)) && LooksOn(s)
  }

  lemma LinesAfterPop(s: State)
    requires s.phase.Stopping? && Lines(s.file) != []
    ensures Lines(Apply(s, Pop).file) == Lines(s.file)[..|Lines(s.file)| - 1]
  {
  }

  /** Taking the head off a list of pids. */
  lemma HeadOrTail(pids: seq<nat>, p: nat)
    requires p in pids
    ensures p == pids[0] || p in pids[1..]
  {
  }

  lemma RecordedIsKnown(s: State, e: Event, p: nat)
    requires NumberInv(s) && (e.Append? || e.AppendSelf?)
    requires Unsignalled(Apply(s, e), p) && (Unsignalled(s, p) ==> Known(s, p))
    ensures Known(Apply(s, e), p)
  {
  }

  lemma StaysKnown(s: State, e: Event, p: nat)
    requires NumberInv(s) && LooksOn(s) && !e.Append? && !e.AppendSelf?
    requires Unsignalled(Apply(s, e), p) && (Unsignalled(s, p) ==> Known(s, p))
    ensures Known(Apply(s, e), p)
  {
    if OnItsLine(s, p) {
      assert p in Lines(s.file);
    }
    if e.Pop? && s.phase.Stopping? && Lines(s.file) != [] {
      LinesAfterPop(s);
    }
    if s.phase.Draining? && p in s.phase.left {
      HeadOrTail(s.phase.left, p);
    }
  }

  lemma StillLooksOn(s: State, e: Event)
    requires LooksOn(s)
    ensures LooksOn(Apply(s, e))
  {
    var t := Apply(s, e);
    if t.phase.Pruning? && t.phase.allDead && s.phase.Pruning? {
      forall p | p in Lines(t.file) && p in t.recorded && p in t.processes.live
        ensures p in t.phase.left
      {
        HeadOrTail(s.phase.left, p);
      }
    }
  }

  lemma ApplyKeepsKnown(s: State, e: Event)
    requires KnownInv(s) && NumberInv(s)
    ensures KnownInv(Apply(s, e))
  {
    StillLooksOn(s, e);
    forall p | Unsignalled(Apply(s, e), p)
      ensures Known(Apply(s, e), p)
    {
      if e.Append? || e.AppendSelf? {
        RecordedIsKnown(s, e, p);
      } else {
        StaysKnown(s, e, p);
      }
    }
  }

  lemma {:induction false} ExecKeepsInv(s: State, es: seq<Event>)
    requires NumberInv(s) && KnownInv(s)
    ensures NumberInv(Exec(s, es)) && KnownInv(Exec(s, es))
    decreases |es|
  {
    if es != [] {
      ApplyKeepsNumbers(s, es[0]);
      ApplyKeepsKnown(s, es[0]);
      ExecKeepsInv(Apply(s, es[0]), es[1..]);
    }
  }

  // ---------- main results ----------

  /** In every run the process recorded on line k has log id k, so no two lines share a log file, though
      they may show the same pid. */
  lemma LineNumbersAreLogIds(stubborn: set<nat>, es: seq<Event>)
    ensures var s := Exec(Init(stubborn), es);
            Numbered(s) && Distinct(s.ids)
  {
    ExecKeepsInv(Init(stubborn), es);
  }

  /** Whenever no script is inside its critical section, every process that was started, still runs and was
      not signalled is in the pid file, on the line that its log id names; any two write different logs. */
  lemma NoOrphans(stubborn: set<nat>, es: seq<Event>)
    ensures var s := Exec(Init(stubborn), es);
            s.phase.Free? ==>
              && (forall p | Unsignalled(s, p) :: OnItsLine(s, p) && p in Lines(s.file))
              && (forall p, q | Unsignalled(s, p) && Unsignalled(s, q) && p != q ::
                    p in s.logId && q in s.logId && s.logId[p] != s.logId[q])
  {
    ExecKeepsInv(Init(stubborn), es);
    var s := Exec(Init(stubborn), es);
    if s.phase.Free? {
      forall p | Unsignalled(s, p)
        ensures OnItsLine(s, p) && p in Lines(s.file)
      {
      }
    }
  }

  /** Pruning by a console start never drops a process from the file that was recorded there and runs. */
  lemma PruningKeepsTheLiving(stubborn: set<nat>, es: seq<Event>)
    ensures var s := Exec(Init(stubborn), es);
            var t := Apply(s, RemoveIfDead);
            forall p | p in Lines(s.file) && p in s.recorded && p in s.processes.live :: p in Lines(t.file)
  {
    ExecKeepsInv(Init(stubborn), es);
  }

  // ---------- without reuse of pids ----------

  /** The pids given out, in order. */
  function Pids(es: seq<Event>): seq<nat> {
    if es == [] then [] else PidOf(es[0]) + Pids(es[1..])
  }

  function PidOf(e: Event): seq<nat> {
    match e
    case Launch(pid) => [pid]
    case Console(self) => [self]
    case Born(pid) => [pid]
    case _ => []
  }

  /** The pid of the process the script is about to record. */
  predicate Pending(phase: Phase, pid: nat) {
    (phase.Launched? && phase.pid == pid) || IsConsole(phase, pid)
  }

  ghost predicate Singular(s: State) {
    && Distinct(Lines(s.file))
    && (forall k | 0 <= k < |Lines(s.file)| ::
          var p := Lines(s.file)[k]; p in s.logId && s.logId[p] == k && p in s.recorded)
    && (forall p | Pending(s.phase, p) :: p !in Lines(s.file))
    && s.signalled <= s.recorded
    && (s.phase.Popped? ==> s.phase.target in s.recorded)
    && (s.phase.Draining? ==> forall p | p in s.phase.left :: p in s.recorded)
  }

  ghost predicate Unused(s: State, pids: seq<nat>) {
    forall p | p in pids :: p !in s.recorded && !Pending(s.phase, p)
  }

  lemma RecordStaysSingular(s: State, pid: nat)
    requires Singular(s) && pid !in Lines(s.file)
    ensures Singular(Record(s, pid, |Lines(s.file)|))
  {
    var lines := Lines(s.file);
    assert Lines(Record(s, pid, |lines|).file) == lines + [pid];
    assert forall k | 0 <= k < |lines| :: lines[k] in lines && lines[k] != pid;
  }

  lemma PopStaysSingular(s: State)
    requires Singular(s) && s.phase.Stopping? && Lines(s.file) != []
    ensures Singular(Apply(s, Pop))
  {
    LinesAfterPop(s);
  }

  lemma KillStaysSingular(s: State, pid: nat, phase: Phase)
    requires Singular(s) && pid in s.recorded && !phase.Popped?
    requires phase.Draining? ==> forall p | p in phase.left :: p in s.recorded
    requires forall p | Pending(phase, p) :: p !in Lines(s.file)
    ensures Singular(Kill(s, pid, phase))
  {
  }

  lemma OtherStaysSingular(s: State, e: Event)
    requires Singular(s) && Unused(s, PidOf(e))
    requires !e.Append? && !e.AppendSelf? && !e.Pop? && !e.KillPopped? && !e.KillNext?
    ensures Singular(Apply(s, e))
  {
    assert PidOf(e) != [] ==> PidOf(e)[0] in PidOf(e);
    assert Lines(Apply(s, e).file) == Lines(s.file) || Lines(Apply(s, e).file) == [];
  }

  lemma SingularStep(s: State, e: Event)
    requires NumberInv(s) && Singular(s) && Unused(s, PidOf(e))
    ensures Singular(Apply(s, e))
  {
    match e
    case Append =>
      if s.phase.Launched? {
        assert Pending(s.phase, s.phase.pid);
        RecordStaysSingular(s, s.phase.pid);
      }
    case AppendSelf(_) =>
      if s.phase.Naming? {
        assert Pending(s.phase, s.phase.self);
        RecordStaysSingular(s, s.phase.self);
      }
    case Pop =>
      if s.phase.Stopping? && Lines(s.file) != [] {
        PopStaysSingular(s);
      }
    case KillPopped =>
      if s.phase.Popped? {
        KillStaysSingular(s, s.phase.target, Free);
      }
    case KillNext =>
      if s.phase.Draining? && s.phase.left != [] {
        KillStaysSingular(s, s.phase.left[0], Draining(s.phase.left[1..]));
      }
    case _ => OtherStaysSingular(s, e);
  }

  lemma UnusedStep(s: State, e: Event, rest: seq<nat>)
    requires Unused(s, rest) && forall p | p in PidOf(e) :: p !in rest
    ensures Unused(Apply(s, e), rest)
  {
  }

  lemma DistinctParts(a: seq<nat>, b: seq<nat>)
    requires Distinct(a + b)
    ensures Distinct(b) && forall p | p in a :: p !in b && p in a + b
    ensures forall p | p in b :: p in a + b
  {
    forall j, k | 0 <= j < k < |b|
      ensures b[j] != b[k]
    {
      assert (a + b)[|a| + j] == b[j] && (a + b)[|a| + k] == b[k];
    }
    forall j, k | 0 <= j < |a| && 0 <= k < |b|
      ensures a[j] != b[k]
    {
      assert (a + b)[j] == a[j] && (a + b)[|a| + k] == b[k];
    }
  }

  lemma {:induction false} ExecStaysSingular(s: State, es: seq<Event>)
    requires NumberInv(s) && Singular(s)
    requires Distinct(Pids(es)) && Unused(s, Pids(es))
    ensures Singular(Exec(s, es))
    decreases |es|
  {
    if es != [] {
      DistinctParts(PidOf(es[0]), Pids(es[1..]));
      ApplyKeepsNumbers(s, es[0]);
      SingularStep(s, es[0]);
      UnusedStep(s, es[0], Pids(es[1..]));
      ExecStaysSingular(Apply(s, es[0]), es[1..]);
    }
  }

  /** As long as no pid is given out twice, no process is on two lines, the line of a process is its log id,
      pruning never drops a running pid, and only recorded processes are signalled. */
  lemma WithoutReuse(stubborn: set<nat>, es: seq<Event>)
    requires Distinct(Pids(es))
    ensures var s := Exec(Init(stubborn), es);
            && Distinct(Lines(s.file))
            && (forall k | 0 <= k < |Lines(s.file)| :: Lines(s.file)[k] in s.logId && s.logId[Lines(s.file)[k]] == k)
            && (forall p | p in Lines(s.file) && p in s.processes.live :: p in Lines(Apply(s, RemoveIfDead).file))
            && s.signalled <= s.recorded
  {
    ExecStaysSingular(Init(stubborn), es);
    PruningKeepsTheLiving(stubborn, es);
  }

  // ---------- what reuse of pids does, exactly ----------

  /** Some event of the run is a bad one in the state it meets. */
  predicate Ever(bad: (State, Event) -> bool, s: State, es: seq<Event>)
    decreases |es|
  {
    es != [] && (bad(s, es[0]) || Ever(bad, Apply(s, es[0]), es[1..]))
  }

  /** If the bad events are those that spoil what was good, all states of a run are good exactly when none of
      its events is bad. */
  lemma {:induction false} GoodThroughoutIff(good: State -> bool, bad: (State, Event) -> bool, s: State, es: seq<Event>)
    requires good(s)
    requires forall t, e | good(t) :: good(Apply(t, e)) <==> !bad(t, e)
    ensures (forall n | 0 <= n <= |es| :: good(Exec(s, es[..n]))) <==> !Ever(bad, s, es)
    decreases |es|
  {
    if es != [] {
      var t, rest := Apply(s, es[0]), es[1..];
      forall n | 0 < n <= |es|
        ensures Exec(s, es[..n]) == Exec(t, rest[..n - 1])
      {
        assert es[..n][1..] == rest[..n - 1];
      }
      assert Exec(t, rest[..0]) == t;
      assert forall n | 0 <= n <= |rest| :: Exec(t, rest[..n]) == Exec(s, es[..n + 1]);
      if good(t) {
        GoodThroughoutIff(good, bad, t, rest);
      } else {
        assert !good(Exec(s, es[..1]));
      }
    }
  }

  predicate ListedOnce(s: State) {
    Distinct(Lines(s.file))
  }

  /** A pid is appended that is on a line already. */
  predicate Relists(s: State, e: Event) {
    || (e.Append? && s.phase.Launched? && s.phase.pid in s.processes.live && s.phase.pid in Lines(s.file))
    || (e == AppendSelf(true) && s.phase.Naming? && s.phase.self in Lines(s.file))
  }

  lemma RecordListsOnceIff(s: State, pid: nat, id: nat)
    requires ListedOnce(s)
    ensures ListedOnce(Record(s, pid, id)) <==> pid !in Lines(s.file)
  {
    var lines, longer := Lines(s.file), Lines(Record(s, pid, id).file);
    assert longer == lines + [pid] && longer[|lines|] == pid;
    if pid in lines {
      var k :| 0 <= k < |lines| && lines[k] == pid;
      assert longer[k] == longer[|lines|];
    }
  }

  lemma ListedOnceStep(s: State, e: Event)
    requires ListedOnce(s)
    ensures ListedOnce(Apply(s, e)) <==> !Relists(s, e)
  {
    match e
    case Append =>
      if s.phase.Launched? {
        RecordListsOnceIff(s, s.phase.pid, s.phase.id);
      }
    case AppendSelf(_) =>
      if s.phase.Naming? {
        RecordListsOnceIff(s, s.phase.self, s.phase.id);
      }
    case Pop =>
      if s.phase.Stopping? && Lines(s.file) != [] {
        LinesAfterPop(s);
      }
    case _ =>
  }

  /** No pid is ever on two lines exactly when no script appends one that is on a line already. */
  lemma ListedOnceIff(stubborn: set<nat>, es: seq<Event>)
    ensures (forall n | 0 <= n <= |es| :: ListedOnce(Exec(Init(stubborn), es[..n])))
       <==> !Ever(Relists, Init(stubborn), es)
  {
    forall s, e | ListedOnce(s)
      ensures ListedOnce(Apply(s, e)) <==> !Relists(s, e)
    {
      ListedOnceStep(s, e);
    }
    GoodThroughoutIff(ListedOnce, Relists, Init(stubborn), es);
  }

  predicate OnlyRecordedSignalled(s: State) {
    s.signalled <= s.recorded
  }

  /** The pid taken from the file belongs by now to a running process that is not recorded. */
  predicate SignalsStranger(s: State, e: Event) {
    || (e.KillPopped? && s.phase.Popped? && s.phase.target in s.processes.live - s.recorded)
    || (e.KillNext? && s.phase.Draining? && s.phase.left != [] && s.phase.left[0] in s.processes.live - s.recorded)
  }

  lemma OnlyRecordedStep(s: State, e: Event)
    requires OnlyRecordedSignalled(s)
    ensures OnlyRecordedSignalled(Apply(s, e)) <==> !SignalsStranger(s, e)
  {
  }

  /** The scripts signal no process but recorded ones exactly when no stop or stop-all meets a line whose pid
      has gone over to another process. */
  lemma OnlyRecordedSignalledIff(stubborn: set<nat>, es: seq<Event>)
    ensures (forall n | 0 <= n <= |es| :: OnlyRecordedSignalled(Exec(Init(stubborn), es[..n])))
       <==> !Ever(SignalsStranger, Init(stubborn), es)
  {
    forall s, e | OnlyRecordedSignalled(s)
      ensures OnlyRecordedSignalled(Apply(s, e)) <==> !SignalsStranger(s, e)
    {
      OnlyRecordedStep(s, e);
    }
    GoodThroughoutIff(OnlyRecordedSignalled, SignalsStranger, Init(stubborn), es);
  }

  // ---------- the lock ----------

  /** Steps of the script that holds the lock. */
  predicate IsOwnStep(e: Event) {
    match e
    case Launch(_) => true
    case Append => true
    case Pop => true
    case KillPopped => true
    case Move => true
    case KillNext => true
    case StopAllEnd => true
    case Look => true
    case RemoveIfDead => true
    case Name => true
    case AppendSelf(_) => true
    case _ => false
  }

  /** While a script holds the lock no other gets in, and neither the file nor the script moves, unless it is a
      console script that dies. */
  lemma LockIsExclusive(s: State, e: Event)
    requires !s.phase.Free? && !IsOwnStep(e)
    ensures Apply(s, e).file == s.file && Apply(s, e).ids == s.ids
    ensures Apply(s, e).phase == if e.Exit? && IsConsole(s.phase, e.pid) then Free else s.phase
  {
  }

  /** How many steps the lock holder still has to take, at most. */
  function StepsLeft(s: State): nat {
    match s.phase
    case Free => 0
    case Starting(_) => 2
    case Launched(_, _) => 1
    case Stopping => 2
    case Popped(_) => 1
    case StoppingAll => |Lines(s.file)| + 2
    case Draining(left) => |left| + 1
    case Pruning(_, left, _) => |left| + 3
    case Pruned(_) => 2
    case Naming(_, _) => 1
  }

  function NextStep(s: State, unused: nat): Event
    requires !s.phase.Free?
  {
    match s.phase
    case Starting(_) => Launch(unused)
    case Launched(_, _) => Append
    case Stopping => Pop
    case Popped(_) => KillPopped
    case StoppingAll => Move
    case Draining(left) => if left == [] then StopAllEnd else KillNext
    case Pruning(_, left, _) => if left == [] then RemoveIfDead else Look
    case Pruned(_) => Name
    case Naming(_, _) => AppendSelf(true)
  }

  lemma {:induction false} UnusedPid(live: set<nat>) returns (pid: nat)
    ensures forall p | p in live :: p < pid
    decreases |live|
  {
    if live == {} {
      pid := 0;
    } else {
      var p :| p in live;
      var q := UnusedPid(live - {p});
      pid := if p < q then q else p + 1;
      assert forall x | x in live :: x == p || x in live - {p};
    }
  }

  /** Whatever has happened, the script that holds the lock gets to its end by its own steps and frees it. */
  lemma {:induction false} LockIsFreed(s: State) returns (es: seq<Event>)
    ensures forall e | e in es :: IsOwnStep(e)
    ensures |es| <= StepsLeft(s) && Exec(s, es).phase.Free?
    decreases StepsLeft(s)
  {
    if s.phase.Free? {
      es := [];
    } else {
      var unused := UnusedPid(s.processes.live);
      var e := NextStep(s, unused);
      var rest := LockIsFreed(Apply(s, e));
      es := [e] + rest;
      assert es[1..] == rest;
    }
  }

  /** The processes that run: nobody else comes or goes by a step than those it starts, kills or lets exit. */
  lemma WhoLives(s: State, e: Event, p: nat)
    ensures p in Apply(s, e).processes.live
       <==> (e == Born(p) || (e == Launch(p) && s.phase.Starting?) || (e == Console(p) && s.phase.Free?)
             || (p in s.processes.live && e != Exit(p) && !Kills(s, e, p)))
  {
  }

  predicate Kills(s: State, e: Event, p: nat) {
    && p !in s.processes.stubborn
    && ((e.KillPopped? && s.phase == Popped(p))
        || (e.KillNext? && s.phase.Draining? && s.phase.left != [] && s.phase.left[0] == p))
  }

  // ---------- undisturbed, the steps are the scripts of PidFile ----------

  lemma {:induction false} ExecConcat(s: State, a: seq<Event>, b: seq<Event>)
    ensures Exec(s, a + b) == Exec(Exec(s, a), b)
    decreases |a|
  {
    if a == [] {
      assert a + b == b;
    } else {
      ExecConcat(Apply(s, a[0]), a[1..], b);
      assert (a + b)[1..] == a[1..] + b;
    }
  }

  lemma ExecThree(s: State, a: Event, b: Event, c: Event)
    ensures Exec(s, [a, b, c]) == Apply(Apply(Apply(s, a), b), c)
  {
    var es := [a, b, c];
    assert es[1..] == [b, c] && [b, c][1..] == [c];
    assert Exec(s, es) == Exec(Apply(s, a), [b, c]);
    assert Exec(Apply(s, a), [b, c]) == Exec(Apply(Apply(s, a), b), [c]);
    ExecOne(Apply(Apply(s, a), b), c);
  }

  lemma ExecOne(s: State, e: Event)
    ensures Exec(s, [e]) == Apply(s, e)
  {
  }

  /** The part of the state the scripts of PidFile work on. */
  function View(s: State): Host {
    Host(s.file, s.processes)
  }

  lemma UndisturbedStart(s: State, pid: nat)
    requires s.phase.Free? && pid !in s.processes.live
    ensures Exec(s, [Start, Launch(pid), Append]) == Record(Begin(s, pid), pid, |Lines(s.file)|)
  {
    ExecThree(s, Start, Launch(pid), Append);
  }

  /** A launched process that is gone by line 144 is not recorded, and the lock is free again. */
  lemma FailedStart(s: State, pid: nat)
    requires s.phase.Free? && pid !in s.processes.live
    ensures var t := Exec(s, [Start, Launch(pid)] + [Exit(pid), Append]);
            View(t) == View(s) && t.ids == s.ids && t.phase.Free?
  {
    ExecConcat(s, [Start, Launch(pid)], [Exit(pid), Append]);
    ExecTwo(s, Start, Launch(pid));
    ExecTwo(Exec(s, [Start, Launch(pid)]), Exit(pid), Append);
    assert s.processes.live + {pid} - {pid} == s.processes.live;
  }

  lemma ExecTwo(s: State, a: Event, b: Event)
    ensures Exec(s, [a, b]) == Apply(Apply(s, a), b)
  {
    assert [a, b][1..] == [b];
    ExecOne(Apply(s, a), b);
  }

  lemma UndisturbedStop(s: State)
    requires s.phase.Free?
    ensures var t := Exec(s, [Stop, Pop, KillPopped]);
            var lines := Lines(s.file);
            && View(t) == AfterStop(View(s)) && t.phase.Free?
            && t.signalled == if lines == [] then s.signalled else Signal(s, lines[|lines| - 1])
  {
    ExecThree(s, Stop, Pop, KillPopped);
    var lines, stopping := Lines(s.file), s.(phase := Stopping);
    assert Apply(s, Stop) == stopping;
    var popped := Apply(stopping, Pop);
    if lines == [] {
      assert popped == s.(file := None) && Apply(popped, KillPopped) == popped;
    } else {
      assert popped.phase == Popped(lines[|lines| - 1]);
      assert Apply(popped, KillPopped) == Kill(popped, lines[|lines| - 1], Free);
    }
  }

  function Repeat(e: Event, n: nat): seq<Event> {
    seq(n, _ => e)
  }

  lemma {:induction false} DrainKills(s: State, n: nat)
    requires s.phase.Draining? && |s.phase.left| == n
    ensures Exec(s, Repeat(KillNext, n))
         == s.(processes := s.processes.KillAll(s.phase.left),
               signalled := s.signalled + Elems(s.phase.left) * s.processes.live, phase := Draining([]))
    decreases n
  {
    if n == 0 {
      assert s.signalled + Elems(s.phase.left) * s.processes.live == s.signalled;
    } else {
      assert Repeat(KillNext, n)[1..] == Repeat(KillNext, n - 1);
      DrainKills(Apply(s, KillNext), n - 1);
      SignalFirst(s, s.phase.left);
    }
  }

  lemma SignalFirst(s: State, pids: seq<nat>)
    requires pids != []
    ensures Signal(s, pids[0]) + Elems(pids[1..]) * s.processes.KillIfRunning(pids[0]).live
         == s.signalled + Elems(pids) * s.processes.live
  {
    assert pids == [pids[0]] + pids[1..];
    assert Elems(pids) == {pids[0]} + Elems(pids[1..]);
  }

  lemma MoveAway(s: State)
    requires s.phase.Free?
    ensures Exec(s, [StopAll, Move]) == s.(file := None, ids := [], phase := Draining(Lines(s.file)))
  {
    assert [StopAll, Move][1..] == [Move];
  }

  lemma UndisturbedStopAll(s: State)
    requires s.phase.Free?
    ensures var t := Exec(s, [StopAll, Move] + Repeat(KillNext, |Lines(s.file)|) + [StopAllEnd]);
            && View(t) == AfterStopAll(View(s)) && t.phase.Free?
            && t.signalled == s.signalled + Elems(Lines(s.file)) * s.processes.live
  {
    var first, middle := [StopAll, Move], Repeat(KillNext, |Lines(s.file)|);
    ExecConcat(s, first + middle, [StopAllEnd]);
    ExecConcat(s, first, middle);
    MoveAway(s);
    DrainKills(s.(file := None, ids := [], phase := Draining(Lines(s.file))), |Lines(s.file)|);
    ExecOne(Exec(s, first + middle), StopAllEnd);
  }

  lemma {:induction false} LookFindsTheLiving(s: State, n: nat)
    requires s.phase.Pruning? && |s.phase.left| == n
    ensures Exec(s, Repeat(Look, n))
         == s.(phase := Pruning(s.phase.self, [], s.phase.allDead && Running(s.phase.left, s.processes.live) == []))
    decreases n
  {
    if n > 0 {
      assert Repeat(Look, n)[1..] == Repeat(Look, n - 1);
      LookFindsTheLiving(Apply(s, Look), n - 1);
    }
  }

  lemma PruneLines(s: State, self: nat)
    requires s.phase.Free? && self !in s.processes.live
    ensures Exec(s, [Console(self)] + Repeat(Look, |Lines(s.file)|))
         == Begin(s, self).(phase := Pruning(self, [], Running(Lines(s.file), s.processes.live + {self}) == []))
  {
    var looks := Repeat(Look, |Lines(s.file)|);
    ExecConcat(s, [Console(self)], looks);
    ExecOne(s, Console(self));
    LookFindsTheLiving(Apply(s, Console(self)), |Lines(s.file)|);
  }

  lemma NameAndAppend(s: State, written: bool)
    requires s.phase.Pruning? && s.phase.left == []
    ensures var pruned := if s.phase.allDead then None else s.file;
            var self := s.phase.self;
            var t := Exec(s, [RemoveIfDead, Name, AppendSelf(written)]);
            && View(t) == Host(if written then Push(pruned, self) else pruned, s.processes) && t.phase.Free?
            && (written ==> self in t.logId && t.logId[self] == |Lines(pruned)|)
  {
    ExecThree(s, RemoveIfDead, Name, AppendSelf(written));
    var self := s.phase.self;
    var removed := if s.phase.allDead then s.(file := None, ids := [], phase := Pruned(self))
                   else s.(phase := Pruned(self));
    var named := removed.(phase := Naming(self, |Lines(removed.file)|));
    assert Apply(s, RemoveIfDead) == removed && Apply(removed, Name) == named;
    assert Apply(named, AppendSelf(written))
        == if written then Record(named, self, |Lines(removed.file)|) else named.(phase := Free);
  }

  /** The script looks at the pids after its own process exists, which may have the pid of a listed one. */
  lemma UndisturbedConsole(s: State, self: nat, written: bool)
    requires s.phase.Free? && self !in s.processes.live
    ensures var looks := Repeat(Look, |Lines(s.file)|);
            var t := Exec(s, [Console(self)] + looks + [RemoveIfDead, Name, AppendSelf(written)]);
            var after := s.processes.(live := s.processes.live + {self});
            var pruned := Prune(s.file, after.live);
            && View(t) == Host(if written then Push(pruned, self) else pruned, after) && t.phase.Free?
            && (written ==> self in t.logId && t.logId[self] == |Lines(pruned)|)
  {
    var first := [Console(self)] + Repeat(Look, |Lines(s.file)|);
    ExecConcat(s, first, [RemoveIfDead, Name, AppendSelf(written)]);
    PruneLines(s, self);
    NameAndAppend(Exec(s, first), written);
  }

  /** A pid that is reused can be on two lines, with two log ids. */
  lemma ReusedPid(stubborn: set<nat>, pid: nat)
    ensures var start := [Start, Launch(pid), Append];
            var s := Exec(Init(stubborn), start + [Exit(pid)] + start);
            s.file == Some([pid, pid]) && s.ids == [0, 1]
  {
    var start := [Start, Launch(pid), Append];
    ExecConcat(Init(stubborn), start + [Exit(pid)], start);
    ExecConcat(Init(stubborn), start, [Exit(pid)]);
    UndisturbedStart(Init(stubborn), pid);
    var once := Exec(Init(stubborn), start);
    ExecOne(once, Exit(pid));
    assert once.file == Some([pid]) && once.ids == [0] by {
      assert [] + [pid] == [pid];
    }
    var gone := Apply(once, Exit(pid));
    assert gone.file == once.file && gone.ids == once.ids && gone.phase.Free?;
    UndisturbedStart(gone, pid);
    assert [pid] + [pid] == [pid, pid] && [0] + [1] == [0, 1];
  }

  /** A process that got the pid of a recorded one is killed in its place by a stop. */
  lemma StopMeetsStranger(s: State, pid: nat)
    requires s.phase.Free? && s.file == Some([pid]) && pid in s.processes.live && pid !in s.recorded
    ensures var t := Exec(s, [Stop, Pop, KillPopped]);
            && pid in t.signalled && pid !in t.recorded
            && t.processes.signals == s.processes.signals + [pid]
  {
    ExecThree(s, Stop, Pop, KillPopped);
    var popped := Apply(Apply(s, Stop), Pop);
    assert popped.phase == Popped(pid) && popped.processes == s.processes && popped.recorded == s.recorded;
    assert Apply(popped, KillPopped) == Kill(popped, pid, Free);
  }

  lemma PidGoesOver(s: State, pid: nat)
    requires s.phase.Free? && pid in s.processes.live
    ensures var t := Exec(s, [Exit(pid), Born(pid)]);
            && t.file == s.file && t.phase.Free? && t.processes.signals == s.processes.signals
            && pid in t.processes.live && pid !in t.recorded
  {
    assert [Exit(pid), Born(pid)] == [Exit(pid)] + [Born(pid)];
    ExecConcat(s, [Exit(pid)], [Born(pid)]);
    ExecOne(s, Exit(pid));
    ExecOne(Apply(s, Exit(pid)), Born(pid));
  }

  lemma StrangerIsKilled(stubborn: set<nat>, pid: nat)
    ensures var es := [Start, Launch(pid), Append] + [Exit(pid), Born(pid)] + [Stop, Pop, KillPopped];
            var s := Exec(Init(stubborn), es);
            pid in s.signalled && pid !in s.recorded && s.processes.signals == [pid]
  {
    var start, swap := [Start, Launch(pid), Append], [Exit(pid), Born(pid)];
    ExecConcat(Init(stubborn), start + swap, [Stop, Pop, KillPopped]);
    ExecConcat(Init(stubborn), start, swap);
    UndisturbedStart(Init(stubborn), pid);
    var once := Exec(Init(stubborn), start);
    assert once.file == Some([pid]) by {
      assert [] + [pid] == [pid];
    }
    PidGoesOver(once, pid);
    StopMeetsStranger(Exec(once, swap), pid);
    assert [] + [pid] == [pid];
  }
}
