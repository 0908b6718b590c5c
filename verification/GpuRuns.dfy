/** All runs of the GPU allocator: parents come and go, pids are reused, and one locked section at a
    time works on the coordination file. A section is not atomic: processes exit and appear between its
    steps. Only the lock keeps a second section out. */
module GpuRuns {

  import opened GpuCoordination
  import opened Lists
  import opened Options

  /** What the holder of the lock has computed so far. */
  datatype Section =
    | Free
    | Held(parent: nat, amount: int, taken: seq<Index>, todo: seq<Index>)

  /** `grants` are the indexes handed to parents that still live. */
  datatype State = State(file: seq<Record>, live: set<nat>, grants: set<(nat, Index)>, section: Section)

  datatype Event =
    | Enter(parent: nat, amount: int)  // lock, then the first loop, which only reads the file
    | Check                            // one round of the second loop
    | Finish                           // refuse, or append and report; unlock
    | Exit(pid: nat)
    | Spawn(pid: nat)                  // may reuse the pid of a process that has exited

  const INIT := State([], {}, {}, Free)

  /** An event that is not enabled changes nothing. */
  function Apply(pool: seq<Index>, s: State, e: Event): State {
    match e
    case Enter(parent, amount) =>
      if s.section.Free? then
        var scanned := Scan(s.file, pool, amount, Scanned([], []));
        s.(section := Held(parent, amount, scanned.taken, scanned.recorded))
      else s
    case Check =>
      if s.section.Held? && s.section.todo != [] && |s.section.taken| != s.section.amount then
        var r := ReclaimOne(Reclaimed(s.file, s.section.taken), s.section.todo[0], s.live);
        s.(file := r.file, section := s.section.(taken := r.taken, todo := s.section.todo[1..]))
      else s
    case Finish =>
      if s.section.Held? && (s.section.todo == [] || |s.section.taken| == s.section.amount) then
        var parent := s.section.parent;
        var done := Commit(Reclaimed(s.file, s.section.taken), s.section.amount, parent);
        s.(file := done.file,
           grants := s.grants + NewGrants(done.granted, parent, s.live),
           section := Free)
      else s
    case Exit(pid) => s.(live := s.live - {pid}, grants := set g | g in s.grants && g.0 != pid)
    case Spawn(pid) => s.(live := s.live + {pid})
  }

  function NewGrants(granted: Option<seq<Index>>, parent: nat, live: set<nat>): set<(nat, Index)> {
    if granted.Some? && parent in live then GrantedTo(parent, granted.value) else {}
  }

  function GrantedTo(parent: nat, taken: seq<Index>): set<(nat, Index)> {
    set i | i in taken :: (parent, i)
  }

  function Exec(pool: seq<Index>, s: State, es: seq<Event>): State
    decreases |es|
  {
    if es == [] then s else Exec(pool, Apply(pool, s, es[0]), es[1..])
  }

  lemma {:induction false} ExecConcat(pool: seq<Index>, s: State, a: seq<Event>, b: seq<Event>)
    ensures Exec(pool, s, a + b) == Exec(pool, Exec(pool, s, a), b)
    decreases |a|
  {
    if a == [] {
      assert a + b == b;
    } else {
      ExecConcat(pool, Apply(pool, s, a[0]), a[1..], b);
      assert (a + b)[1..] == a[1..] + b;
    }
  }

  /** No index is held by two live parents. */
  ghost predicate NoDoubleGrant(grants: set<(nat, Index)>) {
    forall g, h | g in grants && h in grants && g.1 == h.1 :: g.0 == h.0
  }

  ghost predicate AlwaysSafe(pool: seq<Index>) {
    forall es: seq<Event> :: NoDoubleGrant(Exec(pool, INIT, es).grants)
  }

  ghost predicate SuffixFree(pool: seq<Index>) {
    forall i, j | i in pool && j in pool && EndsWith(j, i) :: i == j
  }

  // ---------- a suffix-free pool is enough ----------

  ghost predicate OneOwner(file: seq<Record>) {
    forall r, q | r in file && q in file && r.index == q.index :: r.owner == q.owner
  }

  ghost predicate Inv(pool: seq<Index>, s: State) {
    && (forall g | g in s.grants :: g.0 in s.live && Record(g.1, g.0) in s.file)
    && OneOwner(s.file)
    && (forall r | r in s.file :: r.index in pool)
    && (s.section.Held? ==>
          && (forall i | i in s.section.taken :: i in pool && forall r | r in s.file :: r.index != i)
          && (forall i | i in s.section.todo :: i in pool))
  }

  lemma {:induction false} ScanMembers(file: seq<Record>, pool: seq<Index>, amount: int, acc: Scanned)
    ensures var s := Scan(file, pool, amount, acc);
            && (forall i | i in s.taken :: i in acc.taken || (i in pool && !Recorded(file, i)))
            && (forall i | i in s.recorded :: i in acc.recorded || i in pool)
    decreases |pool|
  {
    if pool != [] && |acc.taken| != amount {
      if Recorded(file, pool[0]) {
        ScanMembers(file, pool[1..], amount, acc.(recorded := acc.recorded + [pool[0]]));
      } else {
        ScanMembers(file, pool[1..], amount, acc.(taken := acc.taken + [pool[0]]));
      }
    }
  }

  lemma EnterKeepsInv(pool: seq<Index>, s: State, parent: nat, amount: int)
    requires Inv(pool, s)
    ensures Inv(pool, Apply(pool, s, Enter(parent, amount)))
  {
    ScanMembers(s.file, pool, amount, Scanned([], []));
    forall i | i in pool && !Recorded(s.file, i)
      ensures forall r | r in s.file :: r.index != i
    {
      RecordedMeaning(s.file, i);
    }
  }

  lemma CheckKeepsInv(pool: seq<Index>, s: State)
    requires SuffixFree(pool) && Inv(pool, s)
    ensures Inv(pool, Apply(pool, s, Check))
  {
    if s.section.Held? && s.section.todo != [] && |s.section.taken| != s.section.amount {
      var i := s.section.todo[0];
      assert i in s.section.todo;
      assert forall x | x in s.section.todo[1..] :: x in s.section.todo;
      if Reclaimable(s.file, i, s.live) {
        SedDeleteMembers(s.file, i);
        MatchingMembers(s.file, i);
        var owner := Matching(s.file, i)[0];
        assert owner in Matching(s.file, i);
        assert OneOwner(SedDelete(s.file, i));
        forall r | r in SedDelete(s.file, i)
          ensures r.index != i
        {
          assert r.index == i ==> EndsWith(r.index, i);
        }
      }
    }
  }

  lemma FinishKeepsInv(pool: seq<Index>, s: State)
    requires Inv(pool, s)
    ensures Inv(pool, Apply(pool, s, Finish))
  {
    if s.section.Held? && (s.section.todo == [] || |s.section.taken| == s.section.amount)
       && s.section.amount <= |s.section.taken| {
      var tagged := Tag(s.section.taken, s.section.parent);
      TagMembers(s.section.taken, s.section.parent);
      assert OneOwner(s.file + tagged);
    }
  }

  lemma ApplyKeepsInv(pool: seq<Index>, s: State, e: Event)
    requires SuffixFree(pool) && Inv(pool, s)
    ensures Inv(pool, Apply(pool, s, e))
  {
    match e
    case Enter(parent, amount) => EnterKeepsInv(pool, s, parent, amount);
    case Check => CheckKeepsInv(pool, s);
    case Finish => FinishKeepsInv(pool, s);
    case Exit(_) =>
    case Spawn(_) =>
  }

  lemma {:induction false} ExecKeepsInv(pool: seq<Index>, s: State, es: seq<Event>)
    requires SuffixFree(pool) && Inv(pool, s)
    ensures Inv(pool, Exec(pool, s, es))
    decreases |es|
  {
    if es != [] {
      ApplyKeepsInv(pool, s, es[0]);
      ExecKeepsInv(pool, Apply(pool, s, es[0]), es[1..]);
    }
  }

  /** Every live holder's record is in the file, and no index is held twice, in every run. */
  lemma SuffixFreePoolIsSafe(pool: seq<Index>, es: seq<Event>)
    requires SuffixFree(pool)
    ensures var s := Exec(pool, INIT, es);
            && NoDoubleGrant(s.grants)
            && forall g | g in s.grants :: g.0 in s.live && Record(g.1, g.0) in s.file
  {
    ExecKeepsInv(pool, INIT, es);
    var s := Exec(pool, INIT, es);
    forall g, h | g in s.grants && h in s.grants && g.1 == h.1
      ensures g.0 == h.0
    {
      assert Record(g.1, g.0) in s.file && Record(h.1, h.0) in s.file;
    }
  }

  /** So each call made in a run finds a file on which it behaves as specified. */
  lemma FileStaysClean(pool: seq<Index>, es: seq<Event>)
    requires SuffixFree(pool)
    ensures Clean(Exec(pool, INIT, es).file, pool)
  {
    ExecKeepsInv(pool, INIT, es);
  }

  // ---------- at most one record per index, for a pool without repetitions ----------

  ghost predicate OneRecord(file: seq<Record>) {
    forall k, n | 0 <= k < n < |file| :: file[k].index != file[n].index
  }

  ghost predicate UniqueInv(s: State) {
    && OneRecord(s.file)
    && (s.section.Held? ==>
          && Distinct(s.section.taken) && Distinct(s.section.todo)
          && (forall i | i in s.section.taken :: i !in s.section.todo && forall r | r in s.file :: r.index != i))
  }

  lemma {:induction false} ScanDistinct(file: seq<Record>, pool: seq<Index>, amount: int, acc: Scanned)
    requires Distinct(acc.taken) && Distinct(acc.recorded) && Distinct(pool)
    requires forall i | i in acc.taken :: i !in acc.recorded && i !in pool && !Recorded(file, i)
    requires forall i | i in acc.recorded :: i !in pool && Recorded(file, i)
    ensures var s := Scan(file, pool, amount, acc);
            && Distinct(s.taken) && Distinct(s.recorded)
            && (forall i | i in s.taken :: i !in s.recorded && !Recorded(file, i))
    decreases |pool|
  {
    if pool != [] && |acc.taken| != amount {
      assert pool[0] in pool && pool[0] !in pool[1..];
      assert forall x | x in pool[1..] :: x in pool;
      if Recorded(file, pool[0]) {
        ScanDistinct(file, pool[1..], amount, acc.(recorded := acc.recorded + [pool[0]]));
      } else {
        ScanDistinct(file, pool[1..], amount, acc.(taken := acc.taken + [pool[0]]));
      }
    }
  }

  lemma {:induction false} SedDeleteKeepsOneRecord(file: seq<Record>, i: Index)
    requires OneRecord(file)
    ensures OneRecord(SedDelete(file, i))
  {
    if file != [] {
      SedDeleteKeepsOneRecord(file[1..], i);
      SedDeleteMembers(file[1..], i);
      forall r | r in SedDelete(file[1..], i)
        ensures r.index != file[0].index
      {
        assert r in file[1..];
        var k :| 0 <= k < |file[1..]| && file[1..][k] == r;
        assert file[k + 1] == r;
      }
    }
  }

  lemma AppendKeepsOneRecord(file: seq<Record>, taken: seq<Index>, parent: nat)
    requires OneRecord(file) && Distinct(taken)
    requires forall i | i in taken :: forall r | r in file :: r.index != i
    ensures OneRecord(file + Tag(taken, parent))
  {
    var all := file + Tag(taken, parent);
    forall k, n | 0 <= k < n < |all|
      ensures all[k].index != all[n].index
    {
      if |file| <= n {
        assert all[n].index == taken[n - |file|];
        assert taken[n - |file|] in taken;
        assert k < |file| ==> all[k] in file;
      }
    }
  }

  lemma ApplyKeepsUnique(pool: seq<Index>, s: State, e: Event)
    requires Distinct(pool) && UniqueInv(s)
    ensures UniqueInv(Apply(pool, s, e))
  {
    match e
    case Enter(parent, amount) =>
      ScanDistinct(s.file, pool, amount, Scanned([], []));
      forall i | i in pool && !Recorded(s.file, i)
        ensures forall r | r in s.file :: r.index != i
      {
        RecordedMeaning(s.file, i);
      }
      ScanMembers(s.file, pool, amount, Scanned([], []));
    case Check =>
      if s.section.Held? && s.section.todo != [] && |s.section.taken| != s.section.amount {
        var i := s.section.todo[0];
        assert i in s.section.todo && i !in s.section.todo[1..];
        assert forall x | x in s.section.todo[1..] :: x in s.section.todo;
        SedDeleteKeepsOneRecord(s.file, i);
        SedDeleteMembers(s.file, i);
        forall r | r in SedDelete(s.file, i)
          ensures r.index != i
        {
          assert r.index == i ==> EndsWith(r.index, i);
        }
      }
    case Finish =>
      if s.section.Held? {
        AppendKeepsOneRecord(s.file, s.section.taken, s.section.parent);
      }
    case Exit(_) =>
    case Spawn(_) =>
  }

  lemma {:induction false} ExecKeepsUnique(pool: seq<Index>, s: State, es: seq<Event>)
    requires Distinct(pool) && UniqueInv(s)
    ensures UniqueInv(Exec(pool, s, es))
    decreases |es|
  {
    if es != [] {
      ApplyKeepsUnique(pool, s, es[0]);
      ExecKeepsUnique(pool, Apply(pool, s, es[0]), es[1..]);
    }
  }

  /** The file never holds two records of one index, whatever the suffixes. */
  lemma OneRecordPerIndex(pool: seq<Index>, es: seq<Event>)
    requires Distinct(pool)
    ensures OneRecord(Exec(pool, INIT, es).file)
  {
    ExecKeepsUnique(pool, INIT, es);
  }

  // ---------- one undisturbed section is one call of coordination_allocate ----------

  function Checks(n: nat): seq<Event> {
    seq(n, _ => Check)
  }

  function Call(parent: nat, amount: int, rounds: nat): seq<Event> {
    [Enter(parent, amount)] + Checks(rounds) + [Finish]
  }

  lemma {:induction false} ChecksAreReclaim(pool: seq<Index>, s: State, n: nat)
    requires s.section.Held? && |s.section.todo| <= n
    ensures var end := Reclaim(Reclaimed(s.file, s.section.taken), s.section.todo, s.section.amount, s.live);
            var t := Exec(pool, s, Checks(n));
            && t.file == end.file && t.live == s.live && t.grants == s.grants && t.section.Held?
            && t.section.taken == end.taken
            && t.section.parent == s.section.parent && t.section.amount == s.section.amount
            && (t.section.todo == [] || |t.section.taken| == t.section.amount)
    decreases n
  {
    if n > 0 {
      assert Checks(n)[1..] == Checks(n - 1);
      var next := Apply(pool, s, Check);
      if s.section.todo == [] || |s.section.taken| == s.section.amount {
        assert next == s;
        IdleChecks(pool, s, n);
      } else {
        ChecksAreReclaim(pool, next, n - 1);
      }
    }
  }

  lemma {:induction false} IdleChecks(pool: seq<Index>, s: State, n: nat)
    requires Apply(pool, s, Check) == s
    ensures Exec(pool, s, Checks(n)) == s
    decreases n
  {
    if n > 0 {
      assert Checks(n)[1..] == Checks(n - 1);
      IdleChecks(pool, s, n - 1);
    }
  }

  function AfterCall(pool: seq<Index>, s: State, parent: nat, amount: int): State {
    var done := Coordinate(s.file, pool, amount, parent, s.live);
    s.(file := done.file,
       grants := s.grants + NewGrants(done.granted, parent, s.live))
  }

  lemma {:induction false} ScanLength(file: seq<Record>, pool: seq<Index>, amount: int, acc: Scanned)
    ensures |Scan(file, pool, amount, acc).recorded| <= |acc.recorded| + |pool|
    decreases |pool|
  {
    if pool != [] && |acc.taken| != amount {
      if Recorded(file, pool[0]) {
        ScanLength(file, pool[1..], amount, acc.(recorded := acc.recorded + [pool[0]]));
      } else {
        ScanLength(file, pool[1..], amount, acc.(taken := acc.taken + [pool[0]]));
      }
    }
  }

  /** From wherever a section is, and whatever has happened meanwhile, what is left of it is the rest of the call. */
  lemma RestOfSection(pool: seq<Index>, s: State, rounds: nat)
    requires s.section.Held? && |s.section.todo| <= rounds
    ensures var parent, amount := s.section.parent, s.section.amount;
            var end := Reclaim(Reclaimed(s.file, s.section.taken), s.section.todo, amount, s.live);
            var done := Commit(end, amount, parent);
            Exec(pool, s, Checks(rounds) + [Finish])
            == s.(file := done.file, grants := s.grants + NewGrants(done.granted, parent, s.live), section := Free)
  {
    ExecConcat(pool, s, Checks(rounds), [Finish]);
    ChecksAreReclaim(pool, s, rounds);
    var checked := Exec(pool, s, Checks(rounds));
    assert Exec(pool, checked, [Finish]) == Apply(pool, checked, Finish);
  }

  lemma CallIsCoordinate(pool: seq<Index>, s: State, parent: nat, amount: int)
    requires s.section.Free?
    ensures Exec(pool, s, Call(parent, amount, |pool|)) == AfterCall(pool, s, parent, amount)
  {
    assert Call(parent, amount, |pool|) == [Enter(parent, amount)] + (Checks(|pool|) + [Finish]);
    ExecConcat(pool, s, [Enter(parent, amount)], Checks(|pool|) + [Finish]);
    var entered := Apply(pool, s, Enter(parent, amount));
    assert Exec(pool, s, [Enter(parent, amount)]) == entered;
    ScanLength(s.file, pool, amount, Scanned([], []));
    RestOfSection(pool, entered, |pool|);
  }

  /** A section ends exactly when it has been through the recorded indexes or has enough. */
  lemma SectionEndsIff(pool: seq<Index>, s: State, e: Event)
    requires s.section.Held?
    ensures Apply(pool, s, e).section.Free?
       <==> e.Finish? && (s.section.todo == [] || |s.section.taken| == s.section.amount)
  {
  }

  /** Nobody else moves a section that holds the lock, or touches the file meanwhile. */
  lemma SectionIsExclusive(pool: seq<Index>, s: State, e: Event)
    requires s.section.Held? && !e.Check? && !e.Finish?
    ensures Apply(pool, s, e).section == s.section && Apply(pool, s, e).file == s.file
  {
  }

  // ---------- who lives and who holds what, from the events alone ----------

  lemma ExecOneMore(pool: seq<Index>, es: seq<Event>, n: nat)
    requires n < |es|
    ensures Exec(pool, INIT, es[..n + 1]) == Apply(pool, Exec(pool, INIT, es[..n]), es[n])
  {
    assert es[..n + 1] == es[..n] + [es[n]];
    ExecConcat(pool, INIT, es[..n], [es[n]]);
  }

  /** A pid is in use exactly if it has been spawned and has not exited since. */
  lemma {:induction false} LiveIsHistory(pool: seq<Index>, es: seq<Event>, n: nat, p: nat)
    requires n <= |es|
    ensures p in Exec(pool, INIT, es[..n]).live
       <==> exists k :: 0 <= k < n && es[k] == Spawn(p) && forall j | k < j < n :: es[j] != Exit(p)
  {
    if n > 0 {
      LiveIsHistory(pool, es, n - 1, p);
      ExecOneMore(pool, es, n - 1);
      if es[n - 1] != Exit(p) && p in Exec(pool, INIT, es[..n - 1]).live {
        var k :| 0 <= k < n - 1 && es[k] == Spawn(p) && forall j | k < j < n - 1 :: es[j] != Exit(p);
        assert forall j | k < j < n :: es[j] != Exit(p);
      }
    }
  }

  /** The k-th event is the end of a section that hands index i to its parent p, which runs. */
  ghost predicate Hands(pool: seq<Index>, es: seq<Event>, k: nat, p: nat, i: Index)
    requires k < |es|
  {
    var s := Exec(pool, INIT, es[..k]);
    && es[k].Finish? && s.section.Held? && s.section.parent == p && p in s.live
    && (s.section.todo == [] || |s.section.taken| == s.section.amount)
    && s.section.amount <= |s.section.taken| && i in s.section.taken
  }

  lemma HoldersStep(pool: seq<Index>, es: seq<Event>, n: nat, p: nat, i: Index)
    requires n < |es|
    ensures (p, i) in Exec(pool, INIT, es[..n + 1]).grants
       <==> Hands(pool, es, n, p, i) || ((p, i) in Exec(pool, INIT, es[..n]).grants && es[n] != Exit(p))
  {
    ExecOneMore(pool, es, n);
  }

  /** An index is held by p exactly if a section has handed it to p and p has not exited since. */
  lemma {:induction false} HoldersAreHistory(pool: seq<Index>, es: seq<Event>, n: nat, p: nat, i: Index)
    requires n <= |es|
    ensures (p, i) in Exec(pool, INIT, es[..n]).grants
       <==> exists k | 0 <= k < n :: Hands(pool, es, k, p, i) && forall j | k < j < n :: es[j] != Exit(p)
  {
    if n > 0 {
      HoldersAreHistory(pool, es, n - 1, p, i);
      HoldersStep(pool, es, n - 1, p, i);
      if es[n - 1] != Exit(p) && (p, i) in Exec(pool, INIT, es[..n - 1]).grants {
        var k :| 0 <= k < n - 1 && Hands(pool, es, k, p, i) && forall j | k < j < n - 1 :: es[j] != Exit(p);
        assert forall j | k < j < n :: es[j] != Exit(p);
      }
    }
  }

  // ---------- a pool that is not suffix-free has an unsafe run ----------

  /** The records, in pool order, after the first n indexes have been given out. */
  ghost predicate RecordsFirst(file: seq<Record>, pool: seq<Index>, n: nat) {
    && |file| == n <= |pool|
    && forall k | 0 <= k < n :: file[k].index == pool[k]
  }

  lemma {:induction false} UnrecordedTail(file: seq<Record>, pool: seq<Index>, n: nat, from: nat)
    requires Distinct(pool) && RecordsFirst(file, pool, n) && from <= |pool|
    ensures Unrecorded(file, pool[from..]) == pool[if from < n then n else from..]
    decreases |pool| - from
  {
    if from < |pool| {
      UnrecordedTail(file, pool, n, from + 1);
      assert pool[from..][1..] == pool[from + 1..];
      RecordedMeaning(file, pool[from]);
      if from < n {
        assert file[from] in file;
      }
    }
  }

  function GiveNext(pool: seq<Index>, s: State, n: nat, parent: nat, amount: nat): State
    requires n + amount <= |pool|
  {
    var taken := pool[n..n + amount];
    s.(file := s.file + Tag(taken, parent), grants := s.grants + GrantedTo(parent, taken))
  }

  lemma CoordinateGivesNext(pool: seq<Index>, file: seq<Record>, n: nat, parent: nat, amount: nat, live: set<nat>)
    requires Distinct(pool) && RecordsFirst(file, pool, n) && n + amount <= |pool|
    ensures var taken := pool[n..n + amount];
            Coordinate(file, pool, amount, parent, live) == Allocation(file + Tag(taken, parent), Some(taken))
  {
    ScanClosed(file, pool, amount, Scanned([], []));
    UnrecordedTail(file, pool, n, 0);
    assert pool[0..] == pool;
    assert Scan(file, pool, amount, Scanned([], [])).taken == pool[n..n + amount];
  }

  /** Asking for at most what is left takes the next indexes in pool order. */
  lemma CallGivesNext(pool: seq<Index>, s: State, n: nat, parent: nat, amount: nat)
    requires Distinct(pool) && s.section.Free? && RecordsFirst(s.file, pool, n) && n + amount <= |pool|
    requires parent in s.live
    ensures Exec(pool, s, Call(parent, amount, |pool|)) == GiveNext(pool, s, n, parent, amount)
  {
    CallIsCoordinate(pool, s, parent, amount);
    CoordinateGivesNext(pool, s.file, n, parent, amount, s.live);
  }

  lemma GiveNextRecords(pool: seq<Index>, s: State, n: nat, parent: nat, amount: nat)
    requires RecordsFirst(s.file, pool, n) && n + amount <= |pool|
    ensures RecordsFirst(GiveNext(pool, s, n, parent, amount).file, pool, n + amount)
  {
  }

  /** Three parents share out the whole pool; the second gets exactly pool[a]. */
  function ShareOut(pool: seq<Index>, a: nat): seq<Event>
    requires a < |pool|
  {
    [Spawn(1), Spawn(2), Spawn(3), Spawn(4), Spawn(5)]
    + Call(1, a, |pool|) + Call(2, 1, |pool|) + Call(3, |pool| - a - 1, |pool|) + [Exit(2)]
  }

  function Owner(a: nat, k: nat): nat {
    if k < a then 1 else if k == a then 2 else 3
  }

  ghost predicate SharedOut(pool: seq<Index>, a: nat, s: State) {
    && s.section.Free? && s.live == {1, 3, 4, 5}
    && |s.file| == |pool|
    && (forall k | 0 <= k < |pool| :: s.file[k] == Record(pool[k], Owner(a, k)))
    && (forall k | 0 <= k < |pool| && k != a :: (Owner(a, k), pool[k]) in s.grants)
  }

  function GiveThree(pool: seq<Index>, a: nat, s: State): State
    requires a < |pool|
  {
    GiveNext(pool, GiveNext(pool, GiveNext(pool, s, 0, 1, a), a, 2, 1), a + 1, 3, |pool| - a - 1)
  }

  lemma GiveThreeSharesOut(pool: seq<Index>, a: nat, s: State)
    requires a < |pool| && s == INIT.(live := {1, 2, 3, 4, 5})
    ensures SharedOut(pool, a, Apply(pool, GiveThree(pool, a, s), Exit(2)))
  {
    var t := Apply(pool, GiveThree(pool, a, s), Exit(2));
    forall k | 0 <= k < |pool|
      ensures t.file[k] == Record(pool[k], Owner(a, k))
      ensures k != a ==> (Owner(a, k), pool[k]) in t.grants
    {
      if k < a {
        assert pool[0..a][k] == pool[k];
      } else if k > a {
        assert pool[a + 1..a + 1 + (|pool| - a - 1)][k - a - 1] == pool[k];
      }
    }
  }

  lemma ExecParts(pool: seq<Index>, s: State, a: seq<Event>, b: seq<Event>, c: seq<Event>, d: seq<Event>, e: seq<Event>)
    ensures Exec(pool, s, a + b + c + d + e)
         == Exec(pool, Exec(pool, Exec(pool, Exec(pool, Exec(pool, s, a), b), c), d), e)
  {
    ExecConcat(pool, s, a + b + c + d, e);
    ExecConcat(pool, s, a + b + c, d);
    ExecConcat(pool, s, a + b, c);
    ExecConcat(pool, s, a, b);
  }

  lemma CallsGiveThree(pool: seq<Index>, a: nat, s: State)
    requires Distinct(pool) && a < |pool| && s == INIT.(live := {1, 2, 3, 4, 5})
    ensures var one := Exec(pool, s, Call(1, a, |pool|));
            var two := Exec(pool, one, Call(2, 1, |pool|));
            Exec(pool, two, Call(3, |pool| - a - 1, |pool|)) == GiveThree(pool, a, s)
  {
    CallGivesNext(pool, s, 0, 1, a);
    GiveNextRecords(pool, s, 0, 1, a);
    var s1 := GiveNext(pool, s, 0, 1, a);
    CallGivesNext(pool, s1, a, 2, 1);
    GiveNextRecords(pool, s1, a, 2, 1);
    var s2 := GiveNext(pool, s1, a, 2, 1);
    CallGivesNext(pool, s2, a + 1, 3, |pool| - a - 1);
  }

  lemma ShareOutWorks(pool: seq<Index>, a: nat)
    requires Distinct(pool) && a < |pool|
    ensures SharedOut(pool, a, Exec(pool, INIT, ShareOut(pool, a)))
  {
    var s := INIT.(live := {1, 2, 3, 4, 5});
    SpawnAll(pool);
    CallsGiveThree(pool, a, s);
    GiveThreeSharesOut(pool, a, s);
    ExecParts(pool, INIT, [Spawn(1), Spawn(2), Spawn(3), Spawn(4), Spawn(5)],
              Call(1, a, |pool|), Call(2, 1, |pool|), Call(3, |pool| - a - 1, |pool|), [Exit(2)]);
    ExecOne(pool, GiveThree(pool, a, s), Exit(2));
  }

  lemma ExecOne(pool: seq<Index>, s: State, e: Event)
    ensures Exec(pool, s, [e]) == Apply(pool, s, e)
  {
  }

  lemma SpawnAll(pool: seq<Index>)
    ensures Exec(pool, INIT, [Spawn(1), Spawn(2), Spawn(3), Spawn(4), Spawn(5)]) == INIT.(live := {1, 2, 3, 4, 5})
  {
    var es := [Spawn(1), Spawn(2), Spawn(3), Spawn(4), Spawn(5)];
    var one, two, three := INIT.(live := {1}), INIT.(live := {1, 2}), INIT.(live := {1, 2, 3});
    assert Exec(pool, INIT, es) == Exec(pool, one, es[1..]);
    assert Exec(pool, one, es[1..]) == Exec(pool, two, es[1..][1..]);
    assert es[1..][1..] == es[2..] && es[2..][1..] == es[3..] && es[3..][1..] == [Spawn(5)];
    assert Exec(pool, two, es[2..]) == Exec(pool, three, es[3..]);
    assert Exec(pool, three, es[3..]) == Exec(pool, INIT.(live := {1, 2, 3, 4}), [Spawn(5)]);
  }

  lemma {:induction false} MatchingOneRecord(file: seq<Record>, k: nat)
    requires OneRecord(file) && k < |file|
    ensures Matching(file, file[k].index) == [file[k]]
  {
    var i := file[k].index;
    AnchoredIsSameIndex(i, file[0]);
    if k == 0 {
      forall r | r in file[1..]
        ensures r.index != i
      {
        var n :| 0 <= n < |file[1..]| && file[1..][n] == r;
        assert file[n + 1] == r;
      }
      RecordedMeaning(file[1..], i);
    } else {
      MatchingOneRecord(file[1..], k - 1);
    }
  }

  /** The fourth parent's second loop walks to pool[a], the only dead index, and reclaims it. */
  lemma {:induction false} ReclaimsOnlyA(pool: seq<Index>, a: nat, s: State, from: nat)
    requires Distinct(pool) && a < |pool| && SharedOut(pool, a, s) && from <= a
    ensures Reclaim(Reclaimed(s.file, []), pool[from..], 1, s.live) == Reclaimed(SedDelete(s.file, pool[a]), [pool[a]])
    decreases a - from
  {
    MatchingOneRecord(s.file, from);
    assert pool[from..][1..] == pool[from + 1..];
    if from < a {
      ReclaimsOnlyA(pool, a, s, from + 1);
    }
  }

  lemma {:induction false} AllRecorded(file: seq<Record>, pool: seq<Index>)
    requires forall k | 0 <= k < |pool| :: Recorded(file, pool[k])
    ensures RecordedOnes(file, pool) == pool && Unrecorded(file, pool) == []
  {
    if pool != [] {
      var rest := pool[1..];
      forall k | 0 <= k < |rest|
        ensures Recorded(file, rest[k])
      {
        assert rest[k] == pool[k + 1];
      }
      AllRecorded(file, rest);
    }
  }

  lemma FourthScans(pool: seq<Index>, a: nat, s: State)
    requires a < |pool| && SharedOut(pool, a, s)
    ensures Scan(s.file, pool, 1, Scanned([], [])) == Scanned([], pool)
  {
    forall k | 0 <= k < |pool|
      ensures Recorded(s.file, pool[k])
    {
      assert s.file[k] in s.file;
      RecordedMeaning(s.file, pool[k]);
    }
    AllRecorded(s.file, pool);
    ScanClosed(s.file, pool, 1, Scanned([], []));
    assert Scan(s.file, pool, 1, Scanned([], [])).taken == [];
  }

  lemma FourthReclaims(pool: seq<Index>, a: nat, s: State)
    requires Distinct(pool) && a < |pool| && SharedOut(pool, a, s)
    ensures var t := AfterCall(pool, s, 4, 1);
            && t.section.Free? && t.live == s.live && s.grants <= t.grants
            && t.file == SedDelete(s.file, pool[a]) + [Record(pool[a], 4)]
  {
    FourthScans(pool, a, s);
    ReclaimsOnlyA(pool, a, s, 0);
    assert pool[0..] == pool;
    assert Tag([pool[a]], 4) == [Record(pool[a], 4)];
  }

  /** The unrecorded index the fifth parent is given still belongs to a live parent. */
  lemma FifthIsUnsafe(pool: seq<Index>, a: nat, b: nat, s: State, t: State)
    requires Distinct(pool) && a < |pool| && b < |pool| && a != b && EndsWith(pool[b], pool[a])
    requires SharedOut(pool, a, s)
    requires t.section.Free? && t.live == s.live && s.grants <= t.grants
    requires t.file == SedDelete(s.file, pool[a]) + [Record(pool[a], 4)]
    ensures !NoDoubleGrant(AfterCall(pool, t, 5, 1).grants)
  {
    SedDeleteMembers(s.file, pool[a]);
    RecordedMeaning(t.file, pool[b]);
    assert !Recorded(t.file, pool[b]) by {
      assert pool[a] != pool[b];
    }
    UnrecordedMembers(t.file, pool);
    var free := Unrecorded(t.file, pool);
    assert pool[b] in free;
    var x := free[0];
    assert x in free;
    RecordedMeaning(t.file, x);
    var c :| 0 <= c < |pool| && pool[c] == x;
    assert c != a by {
      assert t.file[|t.file| - 1] == Record(pool[a], 4);
    }
    assert (Owner(a, c), x) in s.grants;
    FirstFreeIsGranted(pool, t, 5);
    assert (Owner(a, c), x) in AfterCall(pool, t, 5, 1).grants;
  }

  lemma FirstFreeIsGranted(pool: seq<Index>, t: State, parent: nat)
    requires parent in t.live && Unrecorded(t.file, pool) != []
    ensures t.grants <= AfterCall(pool, t, parent, 1).grants
    ensures (parent, Unrecorded(t.file, pool)[0]) in AfterCall(pool, t, parent, 1).grants
  {
    ScanClosed(t.file, pool, 1, Scanned([], []));
    var x := Unrecorded(t.file, pool)[0];
    assert Scan(t.file, pool, 1, Scanned([], [])).taken == [x];
    assert x in [x] && (parent, x) in GrantedTo(parent, [x]);
  }

  lemma SuffixMakesUnsafe(pool: seq<Index>, a: nat, b: nat)
    requires Distinct(pool) && a < |pool| && b < |pool| && a != b && EndsWith(pool[b], pool[a])
    ensures !AlwaysSafe(pool)
  {
    var es := ShareOut(pool, a);
    var four, five := Call(4, 1, |pool|), Call(5, 1, |pool|);
    ShareOutWorks(pool, a);
    var s := Exec(pool, INIT, es);
    FourthReclaims(pool, a, s);
    CallIsCoordinate(pool, s, 4, 1);
    var t := AfterCall(pool, s, 4, 1);
    CallIsCoordinate(pool, t, 5, 1);
    ExecConcat(pool, INIT, es, four);
    ExecConcat(pool, INIT, es + four, five);
    FifthIsUnsafe(pool, a, b, s, t);
    assert !NoDoubleGrant(Exec(pool, INIT, es + four + five).grants);
  }

  /** The allocator is safe in every run exactly when no index of the pool ends in another one. */
  lemma SafeIffSuffixFree(pool: seq<Index>)
    requires Distinct(pool)
    ensures AlwaysSafe(pool) <==> SuffixFree(pool)
  {
    if SuffixFree(pool) {
      forall es: seq<Event>
        ensures NoDoubleGrant(Exec(pool, INIT, es).grants)
      {
        SuffixFreePoolIsSafe(pool, es);
      }
    } else {
      var i, j :| i in pool && j in pool && EndsWith(j, i) && i != j;
      var a :| 0 <= a < |pool| && pool[a] == i;
      var b :| 0 <= b < |pool| && pool[b] == j;
      SuffixMakesUnsafe(pool, a, b);
    }
  }
}
