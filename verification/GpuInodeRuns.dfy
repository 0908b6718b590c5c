/** The GPU allocator with its lock as it is: on the inode the file had when the section opened it. sed -i puts
    a new file in place of the old one, and whoever opens the new one does not meet the old lock. */
module GpuInodeRuns {

  import opened GpuCoordination
  import opened GpuRuns
  import opened Lists
  import opened Options

  /** A call of coordination_allocate, by the inode it has open. */
  datatype Caller =
    | Waiting(parent: nat, amount: int, inode: nat)
    | Inside(parent: nat, amount: int, inode: nat, taken: seq<Index>, todo: seq<Index>)

  /** `inode` is the one the path leads to now; grep, sed and >> go by the path. */
  datatype Shared = Shared(file: seq<Record>, inode: nat, live: set<nat>, grants: set<(nat, Index)>,
                           callers: map<nat, Caller>)

  datatype Happening =
    | Open(id: nat, parent: nat, amount: int)  // line 79
    | Lock(id: nat)                            // line 36 and the first loop
    | Round(id: nat)                           // one round of the second loop
    | Done(id: nat)                            // lines 68-78
    | Gone(pid: nat)
    | Born(pid: nat)

  const START := Shared([], 0, {}, {}, map[])

  predicate Locked(s: Shared, inode: nat) {
    exists id | id in s.callers :: s.callers[id].Inside? && s.callers[id].inode == inode
  }

  function Next(pool: seq<Index>, s: Shared, h: Happening): Shared {
    match h
    case Open(id, parent, amount) =>
      if id in s.callers then s else s.(callers := s.callers[id := Waiting(parent, amount, s.inode)])
    case Lock(id) =>
      if id in s.callers && s.callers[id].Waiting? && !Locked(s, s.callers[id].inode) then
        var c := s.callers[id];
        var scanned := Scan(s.file, pool, c.amount, Scanned([], []));
        s.(callers := s.callers[id := Inside(c.parent, c.amount, c.inode, scanned.taken, scanned.recorded)])
      else s
    case Round(id) =>
      if id in s.callers && s.callers[id].Inside? && s.callers[id].todo != []
         && |s.callers[id].taken| != s.callers[id].amount then
        var c := s.callers[id];
        var r := ReclaimOne(Reclaimed(s.file, c.taken), c.todo[0], s.live);
        s.(file := r.file,
           inode := if Reclaimable(s.file, c.todo[0], s.live) then s.inode + 1 else s.inode,
           callers := s.callers[id := c.(taken := r.taken, todo := c.todo[1..])])
      else s
    case Done(id) =>
      if id in s.callers && s.callers[id].Inside?
         && (s.callers[id].todo == [] || |s.callers[id].taken| == s.callers[id].amount) then
        var c := s.callers[id];
        var end := Commit(Reclaimed(s.file, c.taken), c.amount, c.parent);
        s.(file := end.file,
           grants := s.grants + NewGrants(end.granted, c.parent, s.live),
           callers := s.callers - {id})
      else s
    case Gone(pid) => s.(live := s.live - {pid}, grants := set g | g in s.grants && g.0 != pid)
    case Born(pid) => s.(live := s.live + {pid})
  }

  function Run(pool: seq<Index>, s: Shared, hs: seq<Happening>): Shared
    decreases |hs|
  {
    if hs == [] then s else Run(pool, Next(pool, s, hs[0]), hs[1..])
  }

  // ---------- runs without a reclaim ----------

  lemma {:induction false} InodesOnlyGrow(pool: seq<Index>, s: Shared, hs: seq<Happening>)
    ensures s.inode <= Run(pool, s, hs).inode
    decreases |hs|
  {
    if hs != [] {
      InodesOnlyGrow(pool, Next(pool, s, hs[0]), hs[1..]);
    }
  }

  /** While there has only ever been one inode, its lock keeps callers apart. */
  ghost predicate OneInside(s: Shared) {
    && (forall id | id in s.callers :: s.callers[id].inode == s.inode)
    && (forall a, b | a in s.callers && b in s.callers && s.callers[a].Inside? && s.callers[b].Inside? :: a == b)
  }

  ghost predicate Untaken(file: seq<Record>, taken: seq<Index>) {
    forall i, r | i in taken && r in file :: r.index != i
  }

  ghost predicate Sound(s: Shared) {
    && OneInside(s)
    && OneOwner(s.file)
    && (forall g | g in s.grants :: Record(g.1, g.0) in s.file)
    && (forall id | id in s.callers && s.callers[id].Inside? :: Untaken(s.file, s.callers[id].taken))
  }

  lemma LockKeepsSound(pool: seq<Index>, s: Shared, id: nat)
    requires Sound(s)
    ensures Sound(Next(pool, s, Lock(id)))
  {
    var t := Next(pool, s, Lock(id));
    if t != s {
      var c := s.callers[id];
      assert forall x | x in s.callers && s.callers[x].Inside? :: Locked(s, s.callers[x].inode);
      ScanMembers(s.file, pool, c.amount, Scanned([], []));
      forall i, r | i in t.callers[id].taken && r in s.file
        ensures r.index != i
      {
        RecordedMeaning(s.file, i);
      }
    }
  }

  lemma DoneKeepsSound(pool: seq<Index>, s: Shared, id: nat)
    requires Sound(s)
    ensures Sound(Next(pool, s, Done(id)))
  {
    var t := Next(pool, s, Done(id));
    if t != s {
      var c := s.callers[id];
      if c.amount <= |c.taken| {
        var tagged := Tag(c.taken, c.parent);
        TagMembers(c.taken, c.parent);
        assert OneOwner(s.file + tagged);
      }
    }
  }

  lemma NextKeepsSound(pool: seq<Index>, s: Shared, h: Happening)
    requires Sound(s) && Next(pool, s, h).inode == s.inode
    ensures Sound(Next(pool, s, h))
  {
    match h
    case Lock(id) => LockKeepsSound(pool, s, id);
    case Done(id) => DoneKeepsSound(pool, s, id);
    case _ =>
  }

  lemma {:induction false} RunKeepsSound(pool: seq<Index>, s: Shared, hs: seq<Happening>)
    requires Sound(s) && Run(pool, s, hs).inode == s.inode
    ensures Sound(Run(pool, s, hs))
    decreases |hs|
  {
    if hs != [] {
      InodesOnlyGrow(pool, Next(pool, s, hs[0]), hs[1..]);
      NextKeepsSound(pool, s, hs[0]);
      RunKeepsSound(pool, Next(pool, s, hs[0]), hs[1..]);
    }
  }

  /** As long as nothing has been reclaimed, no index is held twice, whatever the pool. */
  lemma SafeWithoutReclaim(pool: seq<Index>, hs: seq<Happening>)
    requires Run(pool, START, hs).inode == START.inode
    ensures NoDoubleGrant(Run(pool, START, hs).grants)
  {
    RunKeepsSound(pool, START, hs);
    var s := Run(pool, START, hs);
    forall g, h | g in s.grants && h in s.grants && g.1 == h.1
      ensures g.0 == h.0
    {
      assert Record(g.1, g.0) in s.file && Record(h.1, h.0) in s.file;
    }
  }

  // ---------- one reclaim is enough to break it ----------

  /** Parent 1 takes the whole pool and exits; parent 2 reclaims the first index; before it is done, parent 3
      opens the new file and finds that index unrecorded. */
  function Overlap(n: nat): seq<Happening> {
    [Born(1), Born(2), Born(3), Open(1, 1, n), Lock(1), Done(1), Gone(1)]
    + [Open(2, 2, 1), Lock(2), Round(2), Open(3, 3, 1), Lock(3), Done(3), Done(2)]
  }

  lemma {:induction false} RunConcat(pool: seq<Index>, s: Shared, a: seq<Happening>, b: seq<Happening>)
    ensures Run(pool, s, a + b) == Run(pool, Run(pool, s, a), b)
    decreases |a|
  {
    if a == [] {
      assert a + b == b;
    } else {
      RunConcat(pool, Next(pool, s, a[0]), a[1..], b);
      assert (a + b)[1..] == a[1..] + b;
    }
  }

  lemma RunSeven(pool: seq<Index>, s: Shared, a: Happening, b: Happening, c: Happening, d: Happening,
                 e: Happening, f: Happening, g: Happening)
    ensures Run(pool, s, [a, b, c, d, e, f, g])
         == Next(pool, Next(pool, Next(pool, Next(pool, Next(pool, Next(pool, Next(pool, s, a), b), c), d), e), f), g)
  {
    RunConcat(pool, s, [a, b], [c, d, e, f, g]);
    RunTwo(pool, s, a, b);
    var t := Next(pool, Next(pool, s, a), b);
    RunConcat(pool, t, [c, d], [e, f, g]);
    RunTwo(pool, t, c, d);
    var u := Next(pool, Next(pool, t, c), d);
    RunConcat(pool, u, [e, f], [g]);
    RunTwo(pool, u, e, f);
    RunOne(pool, Next(pool, Next(pool, u, e), f), g);
    assert [a, b] + [c, d, e, f, g] == [a, b, c, d, e, f, g];
    assert [c, d] + [e, f, g] == [c, d, e, f, g] && [e, f] + [g] == [e, f, g];
  }

  lemma RunOne(pool: seq<Index>, s: Shared, a: Happening)
    ensures Run(pool, s, [a]) == Next(pool, s, a)
  {
  }

  lemma RunTwo(pool: seq<Index>, s: Shared, a: Happening, b: Happening)
    ensures Run(pool, s, [a, b]) == Next(pool, Next(pool, s, a), b)
  {
    assert [a, b][1..] == [b];
    RunOne(pool, Next(pool, s, a), b);
  }

  /** The pool recorded for parent 1, which is gone. */
  function Left(pool: seq<Index>): Shared {
    Shared(Tag(pool, 1), 0, {2, 3}, {}, map[])
  }

  lemma ThreeBorn(pool: seq<Index>)
    ensures Next(pool, Next(pool, Next(pool, START, Born(1)), Born(2)), Born(3)) == START.(live := {1, 2, 3})
  {
  }

  lemma ScansAll(pool: seq<Index>)
    ensures Scan([], pool, |pool|, Scanned([], [])).taken == pool
  {
    ScanClosed([], pool, |pool|, Scanned([], []));
    NothingRecorded(pool);
  }

  lemma FirstEnters(pool: seq<Index>, s: Shared)
    requires s == START.(live := {1, 2, 3})
    ensures Next(pool, Next(pool, s, Open(1, 1, |pool|)), Lock(1))
         == s.(callers := map[1 := Inside(1, |pool|, 0, pool, Scan([], pool, |pool|, Scanned([], [])).recorded)])
  {
    ScansAll(pool);
    var t := s.(callers := map[1 := Waiting(1, |pool|, 0)]);
    assert Next(pool, s, Open(1, 1, |pool|)) == t;
    assert !Locked(t, 0);
  }

  lemma FirstLeaves(pool: seq<Index>, s: Shared, todo: seq<Index>)
    requires s == Shared([], 0, {1, 2, 3}, {}, map[1 := Inside(1, |pool|, 0, pool, todo)])
    ensures Next(pool, Next(pool, s, Done(1)), Gone(1)) == Left(pool)
  {
    var t := Shared(Tag(pool, 1), 0, {1, 2, 3}, GrantedTo(1, pool), map[]);
    assert s.callers - {1} == map[];
    assert [] + Tag(pool, 1) == Tag(pool, 1);
    assert Next(pool, s, Done(1)) == t;
    assert Next(pool, t, Gone(1)) == Left(pool);
  }

  lemma FirstTakesAll(pool: seq<Index>)
    ensures Run(pool, START, [Born(1), Born(2), Born(3), Open(1, 1, |pool|), Lock(1), Done(1), Gone(1)]) == Left(pool)
  {
    RunSeven(pool, START, Born(1), Born(2), Born(3), Open(1, 1, |pool|), Lock(1), Done(1), Gone(1));
    ThreeBorn(pool);
    var s := START.(live := {1, 2, 3});
    FirstEnters(pool, s);
    var todo := Scan([], pool, |pool|, Scanned([], [])).recorded;
    FirstLeaves(pool, s.(callers := map[1 := Inside(1, |pool|, 0, pool, todo)]), todo);
  }

  lemma TagHasAll(pool: seq<Index>, parent: nat)
    ensures forall k | 0 <= k < |pool| :: Recorded(Tag(pool, parent), pool[k])
    ensures Distinct(pool) ==> OneRecord(Tag(pool, parent))
  {
    var file := Tag(pool, parent);
    forall k | 0 <= k < |pool|
      ensures Recorded(file, pool[k])
    {
      assert file[k] in file;
      RecordedMeaning(file, pool[k]);
    }
  }

  /** Parent 2 has reclaimed pool[0] and not yet recorded it. */
  function Reclaiming(pool: seq<Index>): Shared
    requires pool != []
  {
    Left(pool).(file := SedDelete(Tag(pool, 1), pool[0]), inode := 1,
                callers := map[2 := Inside(2, 1, 0, [pool[0]], pool[1..])])
  }

  lemma SecondScans(pool: seq<Index>)
    requires Distinct(pool) && pool != []
    ensures Scan(Tag(pool, 1), pool, 1, Scanned([], [])) == Scanned([], pool)
    ensures Reclaimable(Tag(pool, 1), pool[0], {2, 3})
  {
    TagHasAll(pool, 1);
    AllRecorded(Tag(pool, 1), pool);
    ScanClosed(Tag(pool, 1), pool, 1, Scanned([], []));
    assert Scan(Tag(pool, 1), pool, 1, Scanned([], [])).taken == [];
    MatchingOneRecord(Tag(pool, 1), 0);
  }

  lemma SecondReclaims(pool: seq<Index>)
    requires Distinct(pool) && pool != []
    ensures Next(pool, Next(pool, Next(pool, Left(pool), Open(2, 2, 1)), Lock(2)), Round(2)) == Reclaiming(pool)
  {
    SecondScans(pool);
    var s := Left(pool);
    var t := s.(callers := map[2 := Waiting(2, 1, 0)]);
    var u := s.(callers := map[2 := Inside(2, 1, 0, [], pool)]);
    assert Next(pool, s, Open(2, 2, 1)) == t;
    assert !Locked(t, 0);
    assert Next(pool, t, Lock(2)) == u;
    assert ReclaimOne(Reclaimed(s.file, []), pool[0], s.live) == Reclaimed(SedDelete(s.file, pool[0]), [pool[0]]);
    assert Next(pool, u, Round(2)) == Reclaiming(pool);
  }

  lemma ThirdFinds(pool: seq<Index>)
    requires pool != []
    ensures Scan(Reclaiming(pool).file, pool, 1, Scanned([], [])) == Scanned([pool[0]], [])
  {
    var file := Reclaiming(pool).file;
    SedDeleteMembers(Tag(pool, 1), pool[0]);
    RecordedMeaning(file, pool[0]);
    assert !Recorded(file, pool[0]) by {
      assert EndsWith(pool[0], pool[0]);
    }
    FirstFree(file, pool);
  }

  /** The third caller is in with the first index in hand. */
  function BothInside(pool: seq<Index>): Shared
    requires pool != []
  {
    var s := Reclaiming(pool);
    s.(callers := s.callers[3 := Inside(3, 1, 1, [pool[0]], [])])
  }

  lemma ThirdEnters(pool: seq<Index>)
    requires pool != []
    ensures Next(pool, Next(pool, Reclaiming(pool), Open(3, 3, 1)), Lock(3)) == BothInside(pool)
  {
    var s := Reclaiming(pool);
    var t := s.(callers := s.callers[3 := Waiting(3, 1, 1)]);
    assert Next(pool, s, Open(3, 3, 1)) == t;
    ThirdFinds(pool);
    assert !Locked(t, 1);
    assert t.callers[3 := Inside(3, 1, 1, [pool[0]], [])] == BothInside(pool).callers;
  }

  lemma ThirdTakesIt(pool: seq<Index>)
    requires pool != []
    ensures var s := Reclaiming(pool);
            var file := s.file + [Record(pool[0], 3)];
            Next(pool, Next(pool, Next(pool, s, Open(3, 3, 1)), Lock(3)), Done(3))
            == s.(file := file, grants := {(3, pool[0])})
  {
    ThirdEnters(pool);
    assert Tag([pool[0]], 3) == [Record(pool[0], 3)];
    assert GrantedTo(3, [pool[0]]) == {(3, pool[0])};
    assert BothInside(pool).callers - {3} == Reclaiming(pool).callers;
  }

  lemma FirstFree(file: seq<Record>, pool: seq<Index>)
    requires pool != [] && !Recorded(file, pool[0])
    ensures Scan(file, pool, 1, Scanned([], [])) == Scanned([pool[0]], [])
  {
    assert Scan(file, pool, 1, Scanned([], [])) == Scan(file, pool[1..], 1, Scanned([pool[0]], []));
  }

  /** Parent 3 has it; parent 2 is about to record it as well. */
  function Doubled(pool: seq<Index>): Shared
    requires pool != []
  {
    var s := Reclaiming(pool);
    s.(file := s.file + [Record(pool[0], 3)], grants := {(3, pool[0])})
  }

  lemma SecondTakesItToo(pool: seq<Index>)
    requires pool != []
    ensures var s := Next(pool, Doubled(pool), Done(2));
            (2, pool[0]) in s.grants && (3, pool[0]) in s.grants
  {
    assert pool[0] in [pool[0]];
    assert Commit(Reclaimed(Doubled(pool).file, [pool[0]]), 1, 2).granted == Some([pool[0]]);
  }

  /** Every pool that has an index has a run in which two live parents hold it. */
  lemma OverlapIsUnsafe(pool: seq<Index>)
    requires Distinct(pool) && pool != []
    ensures var s := Run(pool, START, Overlap(|pool|));
            (2, pool[0]) in s.grants && (3, pool[0]) in s.grants && !NoDoubleGrant(s.grants)
  {
    FirstTakesAll(pool);
    SecondReclaims(pool);
    ThirdTakesIt(pool);
    SecondTakesItToo(pool);
    RunSeven(pool, Left(pool), Open(2, 2, 1), Lock(2), Round(2), Open(3, 3, 1), Lock(3), Done(3), Done(2));
    RunConcat(pool, START, [Born(1), Born(2), Born(3), Open(1, 1, |pool|), Lock(1), Done(1), Gone(1)],
              [Open(2, 2, 1), Lock(2), Round(2), Open(3, 3, 1), Lock(3), Done(3), Done(2)]);
  }

  ghost predicate SafeInAllRuns(pool: seq<Index>) {
    forall hs: seq<Happening> :: NoDoubleGrant(Run(pool, START, hs).grants)
  }

  lemma NothingToScan(file: seq<Record>, amount: int)
    ensures Scan(file, [], amount, Scanned([], [])) == Scanned([], [])
  {
  }

  lemma {:induction false} EmptyPoolGrantsNothing(s: Shared, hs: seq<Happening>)
    requires s.grants == {}
    requires forall id | id in s.callers && s.callers[id].Inside? ::
               s.callers[id].taken == [] && s.callers[id].todo == []
    ensures Run([], s, hs).grants == {}
    decreases |hs|
  {
    if hs != [] {
      var t := Next([], s, hs[0]);
      if hs[0].Lock? && hs[0].id in s.callers {
        NothingToScan(s.file, s.callers[hs[0].id].amount);
      }
      EmptyPoolGrantsNothing(t, hs[1..]);
    }
  }

  /** With the lock tied to the inode, the allocator is safe in every run only if there is nothing to allocate. */
  lemma SafeIffNothingToGive(pool: seq<Index>)
    requires Distinct(pool)
    ensures SafeInAllRuns(pool) <==> pool == []
  {
    if pool == [] {
      forall hs: seq<Happening>
        ensures NoDoubleGrant(Run(pool, START, hs).grants)
      {
        EmptyPoolGrantsNothing(START, hs);
      }
    } else {
      OverlapIsUnsafe(pool);
    }
  }

  // ---------- what one caller does, and who lives and holds what ----------

  function Rounds(id: nat, n: nat): seq<Happening> {
    seq(n, _ => Round(id))
  }

  lemma {:induction false} IdleRounds(pool: seq<Index>, s: Shared, id: nat, n: nat)
    requires Next(pool, s, Round(id)) == s
    ensures Run(pool, s, Rounds(id, n)) == s
    decreases n
  {
    if n > 0 {
      assert Rounds(id, n)[1..] == Rounds(id, n - 1);
      IdleRounds(pool, s, id, n - 1);
    }
  }

  /** Where the rounds of a caller that is inside lead. */
  function AfterRounds(s: Shared, c: Caller): Reclaimed
    requires c.Inside?
  {
    Reclaim(Reclaimed(s.file, c.taken), c.todo, c.amount, s.live)
  }

  lemma {:induction false} ReclaimTakesMore(acc: Reclaimed, todo: seq<Index>, amount: int, live: set<nat>)
    ensures |Reclaim(acc, todo, amount, live).taken| >= |acc.taken|
    decreases |todo|
  {
    if todo != [] && |acc.taken| != amount {
      ReclaimTakesMore(ReclaimOne(acc, todo[0], live), todo[1..], amount, live);
    }
  }

  /** How many indexes these rounds reclaim. */
  function ReclaimsOf(s: Shared, c: Caller): nat
    requires c.Inside?
  {
    ReclaimTakesMore(Reclaimed(s.file, c.taken), c.todo, c.amount, s.live);
    |AfterRounds(s, c).taken| - |c.taken|
  }

  lemma {:induction false} RoundsAreReclaim(pool: seq<Index>, s: Shared, id: nat, n: nat)
    requires id in s.callers && s.callers[id].Inside? && |s.callers[id].todo| <= n
    ensures var c := s.callers[id];
            var end := AfterRounds(s, c);
            var t := Run(pool, s, Rounds(id, n));
            && t.file == end.file && t.live == s.live && t.grants == s.grants
            && t.inode == s.inode + ReclaimsOf(s, c)
            && id in t.callers && t.callers == s.callers[id := t.callers[id]] && t.callers[id].Inside?
            && t.callers[id] == c.(taken := end.taken, todo := t.callers[id].todo)
            && (t.callers[id].todo == [] || |end.taken| == c.amount)
    decreases n
  {
    var c := s.callers[id];
    if c.todo == [] || |c.taken| == c.amount {
      assert Next(pool, s, Round(id)) == s;
      IdleRounds(pool, s, id, n);
      assert s.callers[id := c] == s.callers;
    } else {
      assert Rounds(id, n)[1..] == Rounds(id, n - 1);
      RoundsAreReclaim(pool, Next(pool, s, Round(id)), id, n - 1);
    }
  }

  /** From wherever a caller is inside, and whatever the others have done, what is left of it is the rest of the
      call; every reclaim replaces the inode. */
  lemma RestOfCaller(pool: seq<Index>, s: Shared, id: nat, n: nat)
    requires id in s.callers && s.callers[id].Inside? && |s.callers[id].todo| <= n
    ensures var c := s.callers[id];
            var end := AfterRounds(s, c);
            var done := Commit(end, c.amount, c.parent);
            Run(pool, s, Rounds(id, n) + [Done(id)])
            == s.(file := done.file, inode := s.inode + ReclaimsOf(s, c),
                  grants := s.grants + NewGrants(done.granted, c.parent, s.live), callers := s.callers - {id})
  {
    RunConcat(pool, s, Rounds(id, n), [Done(id)]);
    RoundsAreReclaim(pool, s, id, n);
    var t := Run(pool, s, Rounds(id, n));
    RunOne(pool, t, Done(id));
    assert t.callers - {id} == s.callers - {id};
  }

  lemma Entering(pool: seq<Index>, s: Shared, id: nat, parent: nat, amount: int)
    requires id !in s.callers && !Locked(s, s.inode)
    ensures var scanned := Scan(s.file, pool, amount, Scanned([], []));
            Run(pool, s, [Open(id, parent, amount), Lock(id)])
            == s.(callers := s.callers[id := Inside(parent, amount, s.inode, scanned.taken, scanned.recorded)])
  {
    RunTwo(pool, s, Open(id, parent, amount), Lock(id));
    var scanned := Scan(s.file, pool, amount, Scanned([], []));
    var waiting := s.(callers := s.callers[id := Waiting(parent, amount, s.inode)]);
    assert Next(pool, s, Open(id, parent, amount)) == waiting;
    assert forall x | x in waiting.callers && waiting.callers[x].Inside? :: s.callers[x] == waiting.callers[x];
    assert !Locked(waiting, s.inode);
    assert waiting.callers[id := Inside(parent, amount, s.inode, scanned.taken, scanned.recorded)]
        == s.callers[id := Inside(parent, amount, s.inode, scanned.taken, scanned.recorded)];
  }

  lemma EnteredCaller(pool: seq<Index>, s: Shared, id: nat, c: Caller, n: nat)
    requires id !in s.callers && c.Inside? && |c.todo| <= n
    ensures var done := Commit(AfterRounds(s, c), c.amount, c.parent);
            Run(pool, s.(callers := s.callers[id := c]), Rounds(id, n) + [Done(id)])
            == s.(file := done.file, inode := s.inode + ReclaimsOf(s, c),
                  grants := s.grants + NewGrants(done.granted, c.parent, s.live))
  {
    var entered := s.(callers := s.callers[id := c]);
    RestOfCaller(pool, entered, id, n);
    assert AfterRounds(entered, c) == AfterRounds(s, c);
    assert entered.callers - {id} == s.callers;
  }

  /** The caller as it is right after the first loop. */
  function Entered(pool: seq<Index>, s: Shared, parent: nat, amount: int): (c: Caller)
    ensures c.Inside?
  {
    var scanned := Scan(s.file, pool, amount, Scanned([], []));
    Inside(parent, amount, s.inode, scanned.taken, scanned.recorded)
  }

  lemma EnteredIsCoordinate(pool: seq<Index>, s: Shared, parent: nat, amount: int)
    ensures Commit(AfterRounds(s, Entered(pool, s, parent, amount)), amount, parent)
         == Coordinate(s.file, pool, amount, parent, s.live)
  {
  }

  /** A caller that meets no lock and that nobody interferes with does what one call does. */
  lemma CallerIsCoordinate(pool: seq<Index>, s: Shared, id: nat, parent: nat, amount: int)
    requires id !in s.callers && !Locked(s, s.inode)
    ensures var done := Coordinate(s.file, pool, amount, parent, s.live);
            Run(pool, s, [Open(id, parent, amount), Lock(id)] + (Rounds(id, |pool|) + [Done(id)]))
            == s.(file := done.file, inode := s.inode + ReclaimsOf(s, Entered(pool, s, parent, amount)),
                  grants := s.grants + NewGrants(done.granted, parent, s.live))
  {
    RunConcat(pool, s, [Open(id, parent, amount), Lock(id)], Rounds(id, |pool|) + [Done(id)]);
    Entering(pool, s, id, parent, amount);
    ScanLength(s.file, pool, amount, Scanned([], []));
    EnteredCaller(pool, s, id, Entered(pool, s, parent, amount), |pool|);
    EnteredIsCoordinate(pool, s, parent, amount);
  }

  /** A caller gets in exactly when nobody is inside on the inode that it has open. */
  lemma LockIsPerInode(pool: seq<Index>, s: Shared, id: nat)
    requires id in s.callers && s.callers[id].Waiting?
    ensures Next(pool, s, Lock(id)).callers[id].Inside?
       <==> forall x | x in s.callers && s.callers[x].Inside? :: s.callers[x].inode != s.callers[id].inode
    ensures Next(pool, s, Lock(id)).callers[id].inode == s.callers[id].inode
    ensures Next(pool, s, Lock(id)).callers[id].Waiting? ==> Next(pool, s, Lock(id)) == s
  {
  }

  /** A caller is through exactly when it has been through the recorded indexes or has enough. */
  lemma CallerEndsIff(pool: seq<Index>, s: Shared, id: nat, h: Happening)
    requires id in s.callers
    ensures id !in Next(pool, s, h).callers
       <==> h == Done(id) && s.callers[id].Inside?
            && (s.callers[id].todo == [] || |s.callers[id].taken| == s.callers[id].amount)
  {
  }

  /** Nobody else's steps move a caller. */
  lemma CallerIsLeftAlone(pool: seq<Index>, s: Shared, id: nat, h: Happening)
    requires id in s.callers && h != Lock(id) && h != Round(id) && h != Done(id)
    ensures id in Next(pool, s, h).callers && Next(pool, s, h).callers[id] == s.callers[id]
  {
  }

  lemma RunOneMore(pool: seq<Index>, hs: seq<Happening>, n: nat)
    requires n < |hs|
    ensures Run(pool, START, hs[..n + 1]) == Next(pool, Run(pool, START, hs[..n]), hs[n])
  {
    assert hs[..n + 1] == hs[..n] + [hs[n]];
    RunConcat(pool, START, hs[..n], [hs[n]]);
  }

  /** A pid is in use exactly if a process with it was born and has not gone since. */
  lemma {:induction false} LiveIsHistory(pool: seq<Index>, hs: seq<Happening>, n: nat, p: nat)
    requires n <= |hs|
    ensures p in Run(pool, START, hs[..n]).live
       <==> exists k :: 0 <= k < n && hs[k] == Born(p) && forall j | k < j < n :: hs[j] != Gone(p)
  {
    if n > 0 {
      LiveIsHistory(pool, hs, n - 1, p);
      RunOneMore(pool, hs, n - 1);
      if hs[n - 1] != Gone(p) && p in Run(pool, START, hs[..n - 1]).live {
        var k :| 0 <= k < n - 1 && hs[k] == Born(p) && forall j | k < j < n - 1 :: hs[j] != Gone(p);
        assert forall j | k < j < n :: hs[j] != Gone(p);
      }
    }
  }

  /** The k-th happening is the end of a call that hands index i to its parent p, which runs. */
  ghost predicate Hands(pool: seq<Index>, hs: seq<Happening>, k: nat, p: nat, i: Index)
    requires k < |hs|
  {
    var s := Run(pool, START, hs[..k]);
    hs[k].Done? && hs[k].id in s.callers && HandsOver(s, s.callers[hs[k].id], p, i)
  }

  predicate HandsOver(s: Shared, c: Caller, p: nat, i: Index) {
    && c.Inside? && c.parent == p && p in s.live && (c.todo == [] || |c.taken| == c.amount)
    && c.amount <= |c.taken| && i in c.taken
  }

  lemma HoldersStep(pool: seq<Index>, hs: seq<Happening>, n: nat, p: nat, i: Index)
    requires n < |hs|
    ensures (p, i) in Run(pool, START, hs[..n + 1]).grants
       <==> Hands(pool, hs, n, p, i) || ((p, i) in Run(pool, START, hs[..n]).grants && hs[n] != Gone(p))
  {
    RunOneMore(pool, hs, n);
  }

  /** An index is held by p exactly if a call has handed it to p and p has not gone since. */
  lemma {:induction false} HoldersAreHistory(pool: seq<Index>, hs: seq<Happening>, n: nat, p: nat, i: Index)
    requires n <= |hs|
    ensures (p, i) in Run(pool, START, hs[..n]).grants
       <==> exists k | 0 <= k < n :: Hands(pool, hs, k, p, i) && forall j | k < j < n :: hs[j] != Gone(p)
  {
    if n > 0 {
      HoldersAreHistory(pool, hs, n - 1, p, i);
      HoldersStep(pool, hs, n - 1, p, i);
      if hs[n - 1] != Gone(p) && (p, i) in Run(pool, START, hs[..n - 1]).grants {
        var k :| 0 <= k < n - 1 && Hands(pool, hs, k, p, i) && forall j | k < j < n - 1 :: hs[j] != Gone(p);
        assert forall j | k < j < n :: hs[j] != Gone(p);
      }
    }
  }
}
