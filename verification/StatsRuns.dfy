/** All interleavings of StatsWebSocketHandler. addAndBroadcast is synchronized, so one update runs at a
    time; connecting is not, so a new session's list insertion, its four field reads and its reply slip
    between the steps of an update. */
module StatsRuns {

  import opened JavaInt
  import opened Lists
  import opened StatsHandler

  datatype Update =
    | Idle
    | Adding(batch: Stats, added: nat)              // fields incremented so far
    | Sending(stats: Stats, pending: seq<Session>)  // JSON built, snapshot of the list taken

  datatype Connect =
    | Reading(seen: Stats, done: nat)  // currentStatsJson, after so many field reads
    | Replied(seen: Stats)

  datatype World = World(totals: Stats, sessions: seq<Session>, closed: set<Session>, update: Update,
                         conn: map<Session, Connect>, inbox: Inboxes)

  datatype Event =
    | Arrive(session: Session)  // line 29
    | Read(session: Session)    // one of lines 82-85
    | Reply(session: Session)   // line 32
    | Drop(session: Session)    // the transport closes
    | Leave(session: Session)   // line 40
    | Begin(batch: Stats)       // the monitor is entered
    | AddNext                   // one of lines 49-52
    | TakeList                  // lines 53-60 and the iterator of line 67
    | Send                      // one round of lines 67-75
    | End                       // the monitor is left

  const INIT := World(ZERO, [], {}, Idle, map[], map[])

  function Remove(list: seq<Session>, s: Session): seq<Session> {
    if list == [] then []
    else if list[0] == s then Remove(list[1..], s)
    else [list[0]] + Remove(list[1..], s)
  }

  function Inbox(w: World, s: Session): seq<Message> {
    if s in w.inbox then w.inbox[s] else []
  }

  /** An event that is not enabled changes nothing. */
  function Apply(w: World, e: Event): World {
    match e
    case Arrive(s) =>
      if s in w.conn then w
      else w.(sessions := if s in w.sessions then w.sessions else w.sessions + [s],
              conn := w.conn[s := Reading(ZERO, 0)])
    case Read(s) =>
      if s in w.conn && w.conn[s].Reading? && w.conn[s].done < 4 then
        var f := FIELDS[w.conn[s].done];
        w.(conn := w.conn[s := Reading(w.conn[s].seen.Put(f, w.totals.Get(f)), w.conn[s].done + 1)])
      else w
    case Reply(s) =>
      if s in w.conn && w.conn[s].Reading? && w.conn[s].done >= 4 then
        var seen := w.conn[s].seen;
        w.(conn := w.conn[s := Replied(seen)],
           inbox := if s in w.closed then w.inbox else Deliver(w.inbox, s, Message(seen, false)))
      else w
    case Drop(s) => if s in w.conn then w.(closed := w.closed + {s}) else w
    case Leave(s) => if s in w.closed then w.(sessions := Remove(w.sessions, s)) else w
    case Begin(batch) => if w.update.Idle? then w.(update := Adding(batch, 0)) else w
    case AddNext =>
      if w.update.Adding? && w.update.added < 4 then
        var f := FIELDS[w.update.added];
        w.(totals := w.totals.Put(f, Wrap32(w.totals.Get(f) + w.update.batch.Get(f))),
           update := w.update.(added := w.update.added + 1))
      else w
    case TakeList =>
      if w.update.Adding? && w.update.added >= 4 then w.(update := Sending(w.totals, w.sessions)) else w
    case Send =>
      if w.update.Sending? && w.update.pending != [] then
        var s := w.update.pending[0];
        w.(inbox := if s in w.closed then w.inbox else Deliver(w.inbox, s, Message(w.update.stats, true)),
           update := w.update.(pending := w.update.pending[1..]))
      else w
    case End => if w.update.Sending? && w.update.pending == [] then w.(update := Idle) else w
  }

  function Exec(w: World, es: seq<Event>): World
    decreases |es|
  {
    if es == [] then w else Exec(Apply(w, es[0]), es[1..])
  }

  lemma {:induction false} ExecConcat(w: World, a: seq<Event>, b: seq<Event>)
    ensures Exec(w, a + b) == Exec(Exec(w, a), b)
    decreases |a|
  {
    if a == [] {
      assert a + b == b;
    } else {
      ExecConcat(Apply(w, a[0]), a[1..], b);
      assert (a + b)[1..] == a[1..] + b;
    }
  }

  // ---------- reaching the totals, for any batches and with wrap-around ----------

  function Rank(f: Field): (k: nat)
    ensures k < 4 && FIELDS[k] == f
  {
    match f
    case UserJoin => 0
    case Like => 1
    case Comment => 2
    case Gift => 3
  }

  predicate HasRead(w: World, s: Session, f: Field) {
    s in w.conn && (w.conn[s].Replied? || Rank(f) < w.conn[s].done)
  }

  predicate AnyBroadcast(box: seq<Message>) {
    exists m | m in box :: m.broadcast
  }

  function LastBroadcast(box: seq<Message>): Stats
    requires AnyBroadcast(box)
  {
    if box[|box| - 1].broadcast then box[|box| - 1].stats
    else
      assert forall m | m in box :: m in box[..|box| - 1] || m == box[|box| - 1];
      LastBroadcast(box[..|box| - 1])
  }

  /** A broadcast to the session is certain to come. */
  predicate Awaiting(w: World, s: Session) {
    w.update.Adding? || (w.update.Sending? && s in w.update.pending)
  }

  ghost predicate Settled(w: World, s: Session)
    requires s in w.conn
  {
    if AnyBroadcast(Inbox(w, s)) then LastBroadcast(Inbox(w, s)) == w.totals
    else forall f | HasRead(w, s, f) :: w.conn[s].seen.Get(f) == w.totals.Get(f)
  }

  ghost predicate SessionInv(w: World, s: Session)
    requires s in w.conn
  {
    && s in w.sessions
    && (Awaiting(w, s) || Settled(w, s))
    && (w.conn[s].Replied? ==> Message(w.conn[s].seen, false) in Inbox(w, s))
  }

  ghost predicate Inv(w: World) {
    && (forall s | s in w.conn && s !in w.closed :: SessionInv(w, s))
    && (forall s, m | m in Inbox(w, s) && !m.broadcast :: s in w.conn && w.conn[s] == Replied(m.stats))
    && (forall s | s !in w.conn :: s !in w.sessions && s !in w.closed && Inbox(w, s) == [])
    && (w.update.Sending? ==>
          && w.update.stats == w.totals
          && (forall s | s in w.update.pending :: s in w.conn))
  }

  lemma {:induction false} RemoveMembers(list: seq<Session>, s: Session)
    ensures forall x :: x in Remove(list, s) <==> x in list && x != s
  {
    if list != [] {
      RemoveMembers(list[1..], s);
      assert list == [list[0]] + list[1..];
    }
  }

  lemma AppendedMessage(box: seq<Message>, m: Message)
    ensures AnyBroadcast(box + [m]) <==> AnyBroadcast(box) || m.broadcast
    ensures AnyBroadcast(box + [m]) ==>
              LastBroadcast(box + [m]) == if m.broadcast then m.stats else LastBroadcast(box)
    ensures forall x :: x in box + [m] <==> x in box || x == m
  {
    assert (box + [m])[..|box|] == box;
    if AnyBroadcast(box) {
      var x :| x in box && x.broadcast;
      assert x in box + [m];
    }
  }

  lemma ReadKeepsInv(w: World, s: Session)
    requires Inv(w)
    ensures Inv(Apply(w, Read(s)))
  {
    var v := Apply(w, Read(s));
    forall x | x in v.conn && x !in v.closed
      ensures SessionInv(v, x)
    {
      assert SessionInv(w, x);
      assert Inbox(v, x) == Inbox(w, x);
    }
  }

  lemma ReplyKeepsInv(w: World, s: Session)
    requires Inv(w)
    ensures Inv(Apply(w, Reply(s)))
  {
    var v := Apply(w, Reply(s));
    if v != w {
      AppendedMessage(Inbox(w, s), Message(w.conn[s].seen, false));
      forall x | x in v.conn && x !in v.closed
        ensures SessionInv(v, x)
      {
        assert SessionInv(w, x);
        assert x != s ==> Inbox(v, x) == Inbox(w, x);
        assert x == s && !AnyBroadcast(Inbox(w, x)) ==> forall f :: HasRead(v, x, f) ==> HasRead(w, x, f);
      }
    }
  }

  lemma SendKeepsInv(w: World)
    requires Inv(w)
    ensures Inv(Apply(w, Send))
  {
    var v := Apply(w, Send);
    if v != w {
      var s := w.update.pending[0];
      AppendedMessage(Inbox(w, s), Message(w.totals, true));
      assert s in w.conn;
      forall x | x in v.conn && x !in v.closed
        ensures SessionInv(v, x)
      {
        assert SessionInv(w, x);
        assert x != s ==> Inbox(v, x) == Inbox(w, x);
        assert x != s && x in w.update.pending ==> x in v.update.pending;
      }
    }
  }

  lemma ListKeepsInv(w: World, e: Event)
    requires Inv(w) && (e.Arrive? || e.Drop? || e.Leave?)
    ensures Inv(Apply(w, e))
  {
    var v := Apply(w, e);
    if e.Leave? {
      RemoveMembers(w.sessions, e.session);
    }
    forall x | x in v.conn && x !in v.closed
      ensures SessionInv(v, x)
    {
      assert Inbox(v, x) == Inbox(w, x);
      if x in w.conn {
        assert SessionInv(w, x);
      }
    }
  }

  lemma UpdateKeepsInv(w: World, e: Event)
    requires Inv(w) && (e.Begin? || e.AddNext? || e.TakeList? || e.End?)
    ensures Inv(Apply(w, e))
  {
    var v := Apply(w, e);
    forall x | x in v.conn && x !in v.closed
      ensures SessionInv(v, x)
    {
      assert Inbox(v, x) == Inbox(w, x);
      assert SessionInv(w, x);
    }
  }

  lemma ApplyKeepsInv(w: World, e: Event)
    requires Inv(w)
    ensures Inv(Apply(w, e))
  {
    match e
    case Read(s) => ReadKeepsInv(w, s);
    case Reply(s) => ReplyKeepsInv(w, s);
    case Send => SendKeepsInv(w);
    case Arrive(_) => ListKeepsInv(w, e);
    case Drop(_) => ListKeepsInv(w, e);
    case Leave(_) => ListKeepsInv(w, e);
    case _ => UpdateKeepsInv(w, e);
  }

  lemma {:induction false} ExecKeepsInv(w: World, es: seq<Event>)
    requires Inv(w)
    ensures Inv(Exec(w, es))
    decreases |es|
  {
    if es != [] {
      ApplyKeepsInv(w, es[0]);
      ExecKeepsInv(Apply(w, es[0]), es[1..]);
    }
  }

  /** No update is running and this session has had its reply. */
  predicate QuietFor(w: World, s: Session) {
    w.update.Idle? && s in w.conn && w.conn[s].Replied? && s !in w.closed
  }

  lemma QuietHasTotals(w: World, s: Session)
    requires Inv(w) && QuietFor(w, s)
    ensures exists m :: m in Inbox(w, s) && m.stats == w.totals
  {
    var box := Inbox(w, s);
    assert SessionInv(w, s);
    if AnyBroadcast(box) {
      LastBroadcastIsIn(box);
    } else {
      SameFields(w.conn[s].seen, w.totals);
      assert Message(w.totals, false) in box;
    }
  }

  /** The last message is a broadcast of the totals or the snapshot. */
  lemma QuietLastMessage(w: World, s: Session)
    requires Inv(w) && QuietFor(w, s)
    ensures var box := Inbox(w, s);
            && box != []
            && box[|box| - 1].stats == if box[|box| - 1].broadcast then w.totals else w.conn[s].seen
  {
    var box := Inbox(w, s);
    assert SessionInv(w, s);
    assert box[|box| - 1] in box;
  }

  /** However connects and updates interleave, a quiet open session has received the exact totals in one
      message; and if the last message is a broadcast, that is the one. No assumption on the batches. */
  lemma TotalsAreDelivered(es: seq<Event>, s: Session)
    requires QuietFor(Exec(INIT, es), s)
    ensures var w := Exec(INIT, es);
            var box := Inbox(w, s);
            && (exists m :: m in box && m.stats == w.totals)
            && (box[|box| - 1].broadcast ==> box[|box| - 1].stats == w.totals)
  {
    ExecKeepsInv(INIT, es);
    QuietHasTotals(Exec(INIT, es), s);
    QuietLastMessage(Exec(INIT, es), s);
  }

  lemma {:induction false} LastBroadcastIsIn(box: seq<Message>)
    requires AnyBroadcast(box)
    ensures Message(LastBroadcast(box), true) in box
  {
    if !box[|box| - 1].broadcast {
      assert forall m | m in box :: m in box[..|box| - 1] || m == box[|box| - 1];
      LastBroadcastIsIn(box[..|box| - 1]);
    }
  }

  // ---------- non-negative batches that never overflow ----------

  ghost predicate Leq(a: Stats, b: Stats) {
    forall f: Field :: a.Get(f) <= b.Get(f)
  }

  function SumOf(es: seq<Event>, f: Field): int {
    if es == [] then 0 else (if es[0].Begin? then es[0].batch.Get(f) else 0) + SumOf(es[1..], f)
  }

  /** What the running update still has to add to a field. */
  function ToAdd(u: Update, f: Field): int {
    if u.Adding? && u.added <= Rank(f) then u.batch.Get(f) else 0
  }

  ghost predicate Gentle(es: seq<Event>) {
    forall e | e in es && e.Begin? :: Leq(ZERO, e.batch)
  }

  /** Counts only ever go up and all of them together fit an int. */
  ghost predicate Room(w: World, es: seq<Event>) {
    && Gentle(es)
    && (w.update.Adding? ==> Leq(ZERO, w.update.batch))
    && forall f: Field :: 0 <= w.totals.Get(f) && w.totals.Get(f) + ToAdd(w.update, f) + SumOf(es, f) <= MAX_VALUE
  }

  lemma {:induction false} SumNonNegative(es: seq<Event>, f: Field)
    requires Gentle(es)
    ensures 0 <= SumOf(es, f)
  {
    if es != [] {
      assert es[0] in es;
      assert forall e | e in es[1..] :: e in es;
      SumNonNegative(es[1..], f);
      if es[0].Begin? {
        assert ZERO.Get(f) <= es[0].batch.Get(f);
      }
    }
  }

  /** What is still to come for a field stays within bounds, and the field does not shrink. */
  lemma RoomStepField(w: World, e: Event, f: Field, rest: int)
    requires 0 <= w.totals.Get(f) && 0 <= rest
    requires w.update.Adding? ==> 0 <= w.update.batch.Get(f)
    requires e.Begin? ==> 0 <= e.batch.Get(f)
    requires w.totals.Get(f) + ToAdd(w.update, f) + (if e.Begin? then e.batch.Get(f) else 0) + rest <= MAX_VALUE
    ensures var v := Apply(w, e);
            w.totals.Get(f) <= v.totals.Get(f) && v.totals.Get(f) + ToAdd(v.update, f) + rest <= MAX_VALUE
  {
  }

  lemma RoomStep(w: World, es: seq<Event>)
    requires es != [] && Room(w, es)
    ensures Room(Apply(w, es[0]), es[1..]) && Leq(w.totals, Apply(w, es[0]).totals)
  {
    var v := Apply(w, es[0]);
    assert es[0] in es;
    assert forall e | e in es[1..] :: e in es;
    forall f: Field
      ensures w.totals.Get(f) <= v.totals.Get(f)
      ensures v.totals.Get(f) + ToAdd(v.update, f) + SumOf(es[1..], f) <= MAX_VALUE
    {
      SumNonNegative(es[1..], f);
      assert es[0].Begin? ==> ZERO.Get(f) <= es[0].batch.Get(f);
      assert w.update.Adding? ==> ZERO.Get(f) <= w.update.batch.Get(f);
      RoomStepField(w, es[0], f, SumOf(es[1..], f));
    }
  }

  /** Nothing shown exceeds the totals, and a broadcast is never below an earlier message. */
  ghost predicate Ordered(w: World) {
    && (forall s, m | m in Inbox(w, s) :: Leq(m.stats, w.totals))
    && (forall s, f | HasRead(w, s, f) :: w.conn[s].seen.Get(f) <= w.totals.Get(f))
    && (forall s: Session, j, k | 0 <= j < k < |Inbox(w, s)| && Inbox(w, s)[k].broadcast ::
          Leq(Inbox(w, s)[j].stats, Inbox(w, s)[k].stats))
  }

  lemma DeliverKeepsOrder(w: World, v: World, s: Session, m: Message)
    requires Ordered(w) && v.totals == w.totals
    requires v.inbox == Deliver(w.inbox, s, m)
    requires Leq(m.stats, w.totals) && (m.broadcast ==> m.stats == w.totals)
    requires forall x, f | HasRead(v, x, f) :: v.conn[x].seen.Get(f) <= v.totals.Get(f)
    ensures Ordered(v)
  {
    forall x: Session
      ensures x != s ==> Inbox(v, x) == Inbox(w, x)
      ensures x == s ==> Inbox(v, x) == Inbox(w, x) + [m]
    {
    }
    forall x, y | y in Inbox(v, x)
      ensures Leq(y.stats, v.totals)
    {
      assert y in Inbox(w, x) || y == m;
    }
    forall x: Session, j, k | 0 <= j < k < |Inbox(v, x)| && Inbox(v, x)[k].broadcast
      ensures Leq(Inbox(v, x)[j].stats, Inbox(v, x)[k].stats)
    {
      assert Inbox(v, x)[j] == Inbox(w, x)[j];
      assert Inbox(w, x)[j] in Inbox(w, x);
    }
  }

  lemma QuietStepKeepsOrder(w: World, v: World)
    requires Ordered(w) && v.inbox == w.inbox && Leq(w.totals, v.totals)
    requires forall x, f | HasRead(v, x, f) :: v.conn[x].seen.Get(f) <= v.totals.Get(f)
    ensures Ordered(v)
  {
    assert forall x: Session :: Inbox(v, x) == Inbox(w, x);
    forall x, y | y in Inbox(v, x)
      ensures Leq(y.stats, v.totals)
    {
      assert y in Inbox(w, x);
    }
  }

  lemma ReadsStayBelow(w: World, e: Event)
    requires Ordered(w) && Leq(w.totals, Apply(w, e).totals)
    ensures var v := Apply(w, e);
            forall x, f | HasRead(v, x, f) :: v.conn[x].seen.Get(f) <= v.totals.Get(f)
  {
    var v := Apply(w, e);
    forall x, f | HasRead(v, x, f)
      ensures v.conn[x].seen.Get(f) <= v.totals.Get(f)
    {
      assert w.totals.Get(f) <= v.totals.Get(f);
      if x in w.conn && HasRead(w, x, f) {
        assert v.conn[x].seen.Get(f) == w.conn[x].seen.Get(f);
      }
    }
  }

  lemma ApplyKeepsOrder(w: World, e: Event)
    requires Inv(w) && Ordered(w) && Leq(w.totals, Apply(w, e).totals)
    ensures Ordered(Apply(w, e))
  {
    var v := Apply(w, e);
    ReadsStayBelow(w, e);
    if v.inbox == w.inbox {
      QuietStepKeepsOrder(w, v);
    } else if e.Reply? {
      var seen := w.conn[e.session].seen;
      forall f: Field
        ensures seen.Get(f) <= w.totals.Get(f)
      {
        assert HasRead(w, e.session, f);
      }
      DeliverKeepsOrder(w, v, e.session, Message(seen, false));
    } else {
      DeliverKeepsOrder(w, v, w.update.pending[0], Message(w.totals, true));
    }
  }

  lemma {:induction false} ExecKeepsOrder(w: World, es: seq<Event>)
    requires Inv(w) && Ordered(w) && Room(w, es)
    ensures Ordered(Exec(w, es))
    decreases |es|
  {
    if es != [] {
      RoomStep(w, es);
      ApplyKeepsInv(w, es[0]);
      ApplyKeepsOrder(w, es[0]);
      ExecKeepsOrder(Apply(w, es[0]), es[1..]);
    }
  }

  /** Only the snapshot sent on connecting can be below an earlier message, and when all is quiet the
      largest value received in each field is the current total. */
  lemma OnlySnapshotsGoBack(es: seq<Event>, s: Session)
    requires Room(INIT, es)
    ensures var w := Exec(INIT, es);
            var box := Inbox(w, s);
            && (forall j, k | 0 <= j < k < |box| && !Leq(box[j].stats, box[k].stats) :: !box[k].broadcast)
            && (forall m | m in box :: Leq(m.stats, w.totals))
            && (QuietFor(w, s) ==> exists m :: m in box && m.stats == w.totals)
  {
    ExecKeepsOrder(INIT, es);
    if QuietFor(Exec(INIT, es), s) {
      TotalsAreDelivered(es, s);
    }
  }

  // ---------- when does the client show the totals? ----------

  /** The page shows the last message. Some field was incremented after the session had read it. */
  predicate Late(w: World, es: seq<Event>, s: Session, f: Field)
    decreases |es|
  {
    es != [] &&
    var v := Apply(w, es[0]);
    (HasRead(w, s, f) && v.totals.Get(f) != w.totals.Get(f)) || Late(v, es[1..], s, f)
  }

  ghost predicate NeverLate(es: seq<Event>, s: Session) {
    forall f: Field :: !Late(INIT, es, s, f)
  }

  /** `missed` says that the field has already moved on since it was read. */
  ghost predicate Tracks(w: World, s: Session, f: Field, missed: bool) {
    if HasRead(w, s, f) then
      && w.conn[s].seen.Get(f) <= w.totals.Get(f)
      && (missed <==> w.conn[s].seen.Get(f) != w.totals.Get(f))
    else !missed
  }

  lemma TrackStep(w: World, e: Event, s: Session, f: Field, missed: bool)
    requires Tracks(w, s, f, missed) && Leq(w.totals, Apply(w, e).totals)
    ensures var v := Apply(w, e);
            Tracks(v, s, f, missed || (HasRead(w, s, f) && v.totals.Get(f) != w.totals.Get(f)))
  {
    var v := Apply(w, e);
    assert w.totals.Get(f) <= v.totals.Get(f);
    if HasRead(w, s, f) {
      assert HasRead(v, s, f) && v.conn[s].seen.Get(f) == w.conn[s].seen.Get(f);
    } else if HasRead(v, s, f) {
      assert v.conn[s].seen.Get(f) == v.totals.Get(f);
    }
  }

  lemma {:induction false} TrackRun(w: World, es: seq<Event>, s: Session, f: Field, missed: bool)
    requires Tracks(w, s, f, missed) && Room(w, es)
    ensures Tracks(Exec(w, es), s, f, missed || Late(w, es, s, f))
    decreases |es|
  {
    if es != [] {
      RoomStep(w, es);
      TrackStep(w, es[0], s, f, missed);
      var v := Apply(w, es[0]);
      TrackRun(v, es[1..], s, f, missed || (HasRead(w, s, f) && v.totals.Get(f) != w.totals.Get(f)));
    }
  }

  /** A broadcast is delivered to the session after its reply. */
  predicate SentAfterReply(w: World, es: seq<Event>, s: Session)
    decreases |es|
  {
    es != [] && (SendsToReplied(w, es[0], s) || SentAfterReply(Apply(w, es[0]), es[1..], s))
  }

  predicate SendsToReplied(w: World, e: Event, s: Session) {
    && e.Send? && w.update.Sending? && w.update.pending != [] && w.update.pending[0] == s
    && s in w.conn && w.conn[s].Replied? && s !in w.closed
  }

  /** `sent` says whether a broadcast has been delivered since the reply. */
  ghost predicate TracksLast(w: World, s: Session, sent: bool) {
    s in w.closed ||
    if s in w.conn && w.conn[s].Replied? then
      Inbox(w, s) != [] && (Inbox(w, s)[|Inbox(w, s)| - 1].broadcast <==> sent)
    else !sent
  }

  lemma TrackLastStep(w: World, e: Event, s: Session, sent: bool)
    requires TracksLast(w, s, sent)
    ensures TracksLast(Apply(w, e), s, sent || SendsToReplied(w, e, s))
  {
    var v := Apply(w, e);
    if v.inbox == w.inbox {
      assert Inbox(v, s) == Inbox(w, s);
    }
  }

  lemma {:induction false} TrackLastRun(w: World, es: seq<Event>, s: Session, sent: bool)
    requires TracksLast(w, s, sent)
    ensures TracksLast(Exec(w, es), s, sent || SentAfterReply(w, es, s))
    decreases |es|
  {
    if es != [] {
      TrackLastStep(w, es[0], s, sent);
      TrackLastRun(Apply(w, es[0]), es[1..], s, sent || SendsToReplied(w, es[0], s));
    }
  }

  /** What this step adds to a field that the session has already read. */
  function AddedLate(w: World, e: Event, s: Session, f: Field): int {
    if e.AddNext? && w.update.Adding? && w.update.added == Rank(f) && HasRead(w, s, f) then w.update.batch.Get(f)
    else 0
  }

  /** What has been added to the field since the session read it. */
  function Drift(w: World, es: seq<Event>, s: Session, f: Field): int
    decreases |es|
  {
    if es == [] then 0 else AddedLate(w, es[0], s, f) + Drift(Apply(w, es[0]), es[1..], s, f)
  }

  ghost predicate Drifted(w: World, s: Session, f: Field, drift: int) {
    && IsInt(w.totals.Get(f))
    && if HasRead(w, s, f) then
         IsInt(w.conn[s].seen.Get(f)) && w.totals.Get(f) == Wrap32(w.conn[s].seen.Get(f) + drift)
       else drift == 0
  }

  lemma TotalsStep(w: World, e: Event, s: Session, f: Field)
    requires IsInt(w.totals.Get(f))
    ensures IsInt(Apply(w, e).totals.Get(f))
    ensures HasRead(w, s, f) ==> Apply(w, e).totals.Get(f) == Wrap32(w.totals.Get(f) + AddedLate(w, e, s, f))
  {
  }

  lemma SeenStep(w: World, e: Event, s: Session, f: Field)
    ensures var v := Apply(w, e);
            && (HasRead(w, s, f) ==> HasRead(v, s, f) && v.conn[s].seen.Get(f) == w.conn[s].seen.Get(f))
            && (HasRead(v, s, f) && !HasRead(w, s, f) ==> v.conn[s].seen.Get(f) == v.totals.Get(f))
  {
  }

  lemma DriftStep(w: World, e: Event, s: Session, f: Field, drift: int)
    requires Drifted(w, s, f, drift)
    ensures Drifted(Apply(w, e), s, f, drift + AddedLate(w, e, s, f))
  {
    TotalsStep(w, e, s, f);
    SeenStep(w, e, s, f);
    if HasRead(w, s, f) {
      WrapSum(w.conn[s].seen.Get(f) + drift, AddedLate(w, e, s, f));
    }
  }

  lemma {:induction false} DriftRun(w: World, es: seq<Event>, s: Session, f: Field, drift: int)
    requires Drifted(w, s, f, drift)
    ensures Drifted(Exec(w, es), s, f, drift + Drift(w, es, s, f))
    decreases |es|
  {
    if es != [] {
      DriftStep(w, es[0], s, f, drift);
      DriftRun(Apply(w, es[0]), es[1..], s, f, drift + AddedLate(w, es[0], s, f));
    }
  }

  /** Every field came back to what the session had read: what was added to it since is a multiple of 2^32. */
  ghost predicate NoDrift(es: seq<Event>, s: Session) {
    forall f: Field :: Drift(INIT, es, s, f) % 0x1_0000_0000 == 0
  }

  lemma SnapshotIsCurrentIff(es: seq<Event>, s: Session)
    requires var w := Exec(INIT, es); s in w.conn && w.conn[s].Replied?
    ensures var w := Exec(INIT, es);
            w.conn[s].seen == w.totals <==> NoDrift(es, s)
  {
    var w := Exec(INIT, es);
    forall f: Field
      ensures w.conn[s].seen.Get(f) == w.totals.Get(f) <==> Drift(INIT, es, s, f) % 0x1_0000_0000 == 0
    {
      DriftRun(INIT, es, s, f, 0);
      assert HasRead(w, s, f);
      WrapUnchanged(w.conn[s].seen.Get(f), Drift(INIT, es, s, f));
    }
    if NoDrift(es, s) {
      SameFields(w.conn[s].seen, w.totals);
    }
  }

  /** Whatever the batches: a quiet session shows the current totals exactly when a broadcast was sent to it after
      its reply, or what was added to each field after it was read for the snapshot is nothing, modulo 2^32. */
  lemma ShowsTotalsIff(es: seq<Event>, s: Session)
    requires QuietFor(Exec(INIT, es), s)
    ensures var w := Exec(INIT, es);
            var box := Inbox(w, s);
            && box != []
            && (box[|box| - 1].broadcast <==> SentAfterReply(INIT, es, s))
            && (box[|box| - 1].stats == w.totals <==> SentAfterReply(INIT, es, s) || NoDrift(es, s))
  {
    ExecKeepsInv(INIT, es);
    QuietLastMessage(Exec(INIT, es), s);
    TrackLastRun(INIT, es, s, false);
    SnapshotIsCurrentIff(es, s);
  }

  /** With counts that only go up and fit an int, that is: no field was incremented after it was read. */
  lemma ShowsTotalsIffNeverLate(es: seq<Event>, s: Session)
    requires Room(INIT, es) && QuietFor(Exec(INIT, es), s)
    ensures NoDrift(es, s) <==> NeverLate(es, s)
    ensures var w := Exec(INIT, es);
            var box := Inbox(w, s);
            && box != []
            && (box[|box| - 1].stats == w.totals <==> SentAfterReply(INIT, es, s) || NeverLate(es, s))
  {
    ShowsTotalsIff(es, s);
    SnapshotIsCurrentIff(es, s);
    var w := Exec(INIT, es);
    forall f: Field
      ensures w.conn[s].seen.Get(f) == w.totals.Get(f) <==> !Late(INIT, es, s, f)
    {
      TrackRun(INIT, es, s, f, false);
      assert HasRead(w, s, f);
    }
    if NeverLate(es, s) {
      SameFields(w.conn[s].seen, w.totals);
    }
  }

  // ---------- undisturbed, the steps are the handler's methods ----------

  function Sends(n: nat): seq<Event> {
    seq(n, _ => Send)
  }

  function Additions(n: nat): seq<Event> {
    seq(n, _ => AddNext)
  }

  function Reads(s: Session, n: nat): seq<Event> {
    seq(n, _ => Read(s))
  }

  function Uninterrupted(batch: Stats, sends: nat): seq<Event> {
    [Begin(batch)] + Additions(4) + ([TakeList] + Sends(sends) + [End])
  }

  function UninterruptedArrival(s: Session): seq<Event> {
    [Arrive(s)] + Reads(s, 4) + [Reply(s)]
  }

  /** The first k fields of one, the others of the other. */
  function Mixed(first: Stats, k: nat, other: Stats): Stats {
    Stats(if 0 < k then first.userJoin else other.userJoin, if 1 < k then first.like else other.like,
          if 2 < k then first.comment else other.comment, if 3 < k then first.gift else other.gift)
  }

  lemma AddOne(w: World, batch: Stats, before: Stats, k: nat)
    requires k < 4 && w.update == Adding(batch, k) && w.totals == Mixed(before.Add(batch), k, before)
    ensures Apply(w, AddNext)
         == w.(totals := Mixed(before.Add(batch), k + 1, before), update := Adding(batch, k + 1))
  {
    var f := FIELDS[k];
    assert w.totals.Get(f) == before.Get(f);
    assert w.totals.Put(f, Wrap32(before.Get(f) + batch.Get(f))) == Mixed(before.Add(batch), k + 1, before);
  }

  lemma {:induction false} AddRest(w: World, batch: Stats, before: Stats, k: nat)
    requires k <= 4 && w.update == Adding(batch, k) && w.totals == Mixed(before.Add(batch), k, before)
    ensures Exec(w, Additions(4 - k)) == w.(totals := before.Add(batch), update := Adding(batch, 4))
    decreases 4 - k
  {
    if k < 4 {
      assert Additions(4 - k)[1..] == Additions(3 - k);
      AddOne(w, batch, before, k);
      AddRest(Apply(w, AddNext), batch, before, k + 1);
    }
  }

  lemma ReadOne(w: World, s: Session, k: nat)
    requires k < 4 && s in w.conn && w.conn[s] == Reading(Mixed(w.totals, k, ZERO), k)
    ensures Apply(w, Read(s)) == w.(conn := w.conn[s := Reading(Mixed(w.totals, k + 1, ZERO), k + 1)])
  {
    var f := FIELDS[k];
    assert Mixed(w.totals, k, ZERO).Put(f, w.totals.Get(f)) == Mixed(w.totals, k + 1, ZERO);
  }

  lemma {:induction false} ReadRest(w: World, s: Session, k: nat)
    requires k <= 4 && s in w.conn && w.conn[s] == Reading(Mixed(w.totals, k, ZERO), k)
    ensures Exec(w, Reads(s, 4 - k)) == w.(conn := w.conn[s := Reading(w.totals, 4)])
    decreases 4 - k
  {
    if k < 4 {
      assert Reads(s, 4 - k)[1..] == Reads(s, 3 - k);
      ReadOne(w, s, k);
      var v := Apply(w, Read(s));
      ReadRest(v, s, k + 1);
      assert v.conn[s := Reading(w.totals, 4)] == w.conn[s := Reading(w.totals, 4)];
    } else {
      assert w.conn[s := Reading(w.totals, 4)] == w.conn;
    }
  }

  lemma ExecOne(w: World, e: Event)
    ensures Exec(w, [e]) == Apply(w, e)
  {
  }

  lemma {:induction false} SendsDeliverAll(w: World, n: nat)
    requires w.update.Sending? && |w.update.pending| == n
    ensures var m := Message(w.update.stats, true);
            Exec(w, Sends(n)) == w.(inbox := DeliverAll(w.inbox, w.update.pending, w.closed, m),
                                    update := w.update.(pending := []))
    decreases n
  {
    if n > 0 {
      assert Sends(n)[1..] == Sends(n - 1);
      SendsDeliverAll(Apply(w, Send), n - 1);
    }
  }

  lemma BeginAndAdd(w: World, batch: Stats)
    requires w.update.Idle?
    ensures Exec(w, [Begin(batch)] + Additions(4)) == w.(totals := w.totals.Add(batch), update := Adding(batch, 4))
  {
    ExecConcat(w, [Begin(batch)], Additions(4));
    ExecOne(w, Begin(batch));
    AddRest(w.(update := Adding(batch, 0)), batch, w.totals, 0);
  }

  /** An update nobody interrupts is one call of addAndBroadcast. */
  lemma UninterruptedUpdate(w: World, batch: Stats)
    requires w.update.Idle?
    ensures var totals := w.totals.Add(batch);
            Exec(w, Uninterrupted(batch, |w.sessions|))
            == w.(totals := totals, inbox := DeliverAll(w.inbox, w.sessions, w.closed, Message(totals, true)))
  {
    ExecConcat(w, [Begin(batch)] + Additions(4), [TakeList] + Sends(|w.sessions|) + [End]);
    BeginAndAdd(w, batch);
    SendToList(w.(totals := w.totals.Add(batch), update := Adding(batch, 4)));
  }

  lemma SendToList(w: World)
    requires w.update.Adding? && w.update.added == 4
    ensures Exec(w, [TakeList] + Sends(|w.sessions|) + [End])
         == w.(update := Idle, inbox := DeliverAll(w.inbox, w.sessions, w.closed, Message(w.totals, true)))
  {
    var n := |w.sessions|;
    ExecConcat(w, [TakeList] + Sends(n), [End]);
    ExecConcat(w, [TakeList], Sends(n));
    ExecOne(w, TakeList);
    var taken := w.(update := Sending(w.totals, w.sessions));
    SendsDeliverAll(taken, n);
    ExecOne(Exec(taken, Sends(n)), End);
  }

  /** A connect nobody interrupts is one call of afterConnectionEstablished. */
  lemma UninterruptedConnect(w: World, s: Session)
    requires s !in w.conn && s !in w.closed && s !in w.sessions
    ensures Exec(w, UninterruptedArrival(s))
         == w.(sessions := w.sessions + [s], conn := w.conn[s := Replied(w.totals)],
               inbox := Deliver(w.inbox, s, Message(w.totals, false)))
  {
    ExecConcat(w, [Arrive(s)] + Reads(s, 4), [Reply(s)]);
    ExecConcat(w, [Arrive(s)], Reads(s, 4));
    ExecOne(w, Arrive(s));
    var arrived := Apply(w, Arrive(s));
    assert Mixed(w.totals, 0, ZERO) == ZERO;
    ReadRest(arrived, s, 0);
    var read := Exec(arrived, Reads(s, 4));
    ExecOne(read, Reply(s));
    assert read.conn[s := Replied(w.totals)] == w.conn[s := Replied(w.totals)];
  }

  // ---------- sessions that come and go ----------

  lemma {:induction false} RemoveIsFilter(list: seq<Session>, s: Session)
    ensures Remove(list, s) == Filter(list, OtherThan(s))
  {
    if list != [] {
      RemoveIsFilter(list[1..], s);
    }
  }

  /** A disconnect is one call of afterConnectionClosed, for a session that is closed from then on. */
  lemma UninterruptedDisconnect(w: World, s: Session)
    requires s in w.conn
    ensures Exec(w, [Drop(s), Leave(s)])
         == w.(closed := w.closed + {s}, sessions := Filter(w.sessions, OtherThan(s)))
  {
    ExecConcat(w, [Drop(s)], [Leave(s)]);
    assert [Drop(s)] + [Leave(s)] == [Drop(s), Leave(s)];
    ExecOne(w, Drop(s));
    ExecOne(Apply(w, Drop(s)), Leave(s));
    RemoveIsFilter(w.sessions, s);
  }

  /** A closed session stays closed and receives nothing more. */
  lemma {:induction false} ClosedHearNothing(w: World, es: seq<Event>, s: Session)
    requires s in w.closed
    ensures s in Exec(w, es).closed && Inbox(Exec(w, es), s) == Inbox(w, s)
    decreases |es|
  {
    if es != [] {
      ClosedHearNothing(Apply(w, es[0]), es[1..], s);
    }
  }

  predicate Arrived(es: seq<Event>, n: nat, s: Session)
    requires n <= |es|
  {
    exists a :: 0 <= a < n && es[a] == Arrive(s)
  }

  predicate Dropped(es: seq<Event>, n: nat, s: Session)
    requires n <= |es|
  {
    exists b :: 0 <= b < n && es[b] == Drop(s) && Arrived(es, b, s)
  }

  predicate HasLeft(es: seq<Event>, n: nat, s: Session)
    requires n <= |es|
  {
    exists c :: 0 <= c < n && es[c] == Leave(s) && Dropped(es, c, s)
  }

  lemma ExecOneMore(es: seq<Event>, n: nat)
    requires n < |es|
    ensures Exec(INIT, es[..n + 1]) == Apply(Exec(INIT, es[..n]), es[n])
  {
    assert es[..n + 1] == es[..n] + [es[n]];
    ExecConcat(INIT, es[..n], [es[n]]);
  }

  lemma ListedStep(w: World, e: Event, s: Session)
    ensures var v := Apply(w, e);
            && (s in v.conn <==> s in w.conn || e == Arrive(s))
            && (s in v.closed <==> s in w.closed || (e == Drop(s) && s in w.conn))
            && (s in v.sessions
                <==> (s in w.sessions && !(e == Leave(s) && s in w.closed)) || (e == Arrive(s) && s !in w.conn))
  {
    if e.Leave? {
      RemoveMembers(w.sessions, e.session);
    }
  }

  /** A session is listed exactly if it has arrived and not, after dropping, left. */
  lemma {:induction false} ListedIsHistory(es: seq<Event>, n: nat, s: Session)
    requires n <= |es|
    ensures var w := Exec(INIT, es[..n]);
            && (s in w.conn <==> Arrived(es, n, s))
            && (s in w.closed <==> Dropped(es, n, s))
            && (s in w.sessions <==> Arrived(es, n, s) && !HasLeft(es, n, s))
  {
    if n > 0 {
      ListedIsHistory(es, n - 1, s);
      ExecOneMore(es, n - 1);
      ListedStep(Exec(INIT, es[..n - 1]), es[n - 1], s);
      ArrivedStep(es, n - 1, s);
    }
  }

  lemma ArrivedStep(es: seq<Event>, n: nat, s: Session)
    requires n < |es|
    ensures Arrived(es, n + 1, s) <==> Arrived(es, n, s) || es[n] == Arrive(s)
    ensures Dropped(es, n + 1, s) <==> Dropped(es, n, s) || (es[n] == Drop(s) && Arrived(es, n, s))
    ensures HasLeft(es, n + 1, s) <==> HasLeft(es, n, s) || (es[n] == Leave(s) && Dropped(es, n, s))
    ensures HasLeft(es, n, s) ==> Arrived(es, n, s)
  {
  }

  // ---------- the totals are what was added ----------

  /** The sum of a field over the batches whose update was let in. */
  function LetIn(w: World, es: seq<Event>, f: Field): int
    decreases |es|
  {
    if es == [] then 0
    else LetInNow(w, es[0], f) + LetIn(Apply(w, es[0]), es[1..], f)
  }

  /** A total together with what the running update has still to add. */
  function Owed(w: World, f: Field): int {
    w.totals.Get(f) + ToAdd(w.update, f)
  }

  function LetInNow(w: World, e: Event, f: Field): int {
    if e.Begin? && w.update.Idle? then e.batch.Get(f) else 0
  }

  lemma OwedStep(w: World, e: Event, f: Field)
    ensures Wrap32(Owed(Apply(w, e), f)) == Wrap32(Owed(w, f) + LetInNow(w, e, f))
  {
    if e.AddNext? && w.update.Adding? && w.update.added == Rank(f) {
      WrapSum(w.totals.Get(f) + w.update.batch.Get(f), 0);
    }
  }

  lemma AddOnBoth(x: int, y: int, z: int)
    requires Wrap32(x) == Wrap32(y)
    ensures Wrap32(x + z) == Wrap32(y + z)
  {
    WrapSum(x, z);
    WrapSum(y, z);
  }

  lemma {:induction false} OwedRun(w: World, es: seq<Event>, f: Field)
    ensures Wrap32(Owed(Exec(w, es), f)) == Wrap32(Owed(w, f) + LetIn(w, es, f))
    decreases |es|
  {
    if es != [] {
      var v := Apply(w, es[0]);
      OwedRun(v, es[1..], f);
      OwedStep(w, es[0], f);
      AddOnBoth(Owed(v, f), Owed(w, f) + LetInNow(w, es[0], f), LetIn(v, es[1..], f));
    }
  }

  lemma {:induction false} TotalsStayInts(w: World, es: seq<Event>, f: Field)
    requires IsInt(w.totals.Get(f))
    ensures IsInt(Exec(w, es).totals.Get(f))
    decreases |es|
  {
    if es != [] {
      TotalsStep(w, es[0], 0, f);
      TotalsStayInts(Apply(w, es[0]), es[1..], f);
    }
  }

  /** In every interleaving, when no update runs each total is the sum of all batches let in, as a 32-bit int. */
  lemma TotalsAreBatches(es: seq<Event>, f: Field)
    requires Exec(INIT, es).update.Idle?
    ensures Exec(INIT, es).totals.Get(f) == Wrap32(LetIn(INIT, es, f))
  {
    OwedRun(INIT, es, f);
    TotalsStayInts(INIT, es, f);
  }

  /** It ends only once the list has been gone through. */
  lemma UpdateEndsLast(w: World, e: Event)
    requires !w.update.Idle? && Apply(w, e).update.Idle?
    ensures e.End? && w.update.Sending? && w.update.pending == []
  {
  }

  /** While an update runs nobody else gets in or moves it. */
  lemma UpdateIsExclusive(w: World, e: Event)
    requires !w.update.Idle? && !e.AddNext? && !e.TakeList? && !e.Send? && !e.End?
    ensures Apply(w, e).update == w.update && Apply(w, e).totals == w.totals
  {
  }

  // ---------- the race is real ----------

  const ONE_JOIN := Stats(1, 0, 0, 0)

  /** The only viewer is still connecting while one join is added and broadcast. */
  function StaleRun(): seq<Event> {
    [Arrive(0), Read(0)] + Uninterrupted(ONE_JOIN, 1) + [Read(0), Read(0), Read(0), Reply(0)]
  }

  const BEFORE_UPDATE := World(ZERO, [0], {}, Idle, map[0 := Reading(ZERO, 1)], map[])

  const AFTER_UPDATE := BEFORE_UPDATE.(totals := ONE_JOIN, inbox := map[0 := [Message(ONE_JOIN, true)]])

  lemma StaleStart()
    ensures Exec(INIT, [Arrive(0), Read(0)]) == BEFORE_UPDATE
  {
    var w := Apply(INIT, Arrive(0));
    assert w == World(ZERO, [0], {}, Idle, map[0 := Reading(ZERO, 0)], map[]);
    assert ZERO.Put(UserJoin, ZERO.Get(UserJoin)) == ZERO;
    assert Apply(w, Read(0)) == BEFORE_UPDATE by {
      assert w.conn[0 := Reading(ZERO, 1)] == BEFORE_UPDATE.conn;
    }
    assert Exec(INIT, [Arrive(0), Read(0)]) == Exec(w, [Read(0)]);
  }

  lemma StaleUpdate()
    ensures Exec(BEFORE_UPDATE, Uninterrupted(ONE_JOIN, 1)) == AFTER_UPDATE
  {
    UninterruptedUpdate(BEFORE_UPDATE, ONE_JOIN);
    assert ZERO.Add(ONE_JOIN) == ONE_JOIN;
    var m := Message(ONE_JOIN, true);
    assert DeliverAll(map[], [0], {}, m) == DeliverAll(Deliver(map[], 0, m), [0][1..], {}, m);
    assert Deliver(map[], 0, m) == AFTER_UPDATE.inbox by {
      assert [] + [m] == [m];
    }
  }

  lemma StaleReply()
    ensures var es := [Read(0), Read(0), Read(0), Reply(0)];
            Exec(AFTER_UPDATE, es) == AFTER_UPDATE.(conn := map[0 := Replied(ZERO)],
                                                    inbox := map[0 := [Message(ONE_JOIN, true), Message(ZERO, false)]])
  {
    var es := [Read(0), Read(0), Read(0), Reply(0)];
    var w2, w3, w4 := AFTER_UPDATE.(conn := map[0 := Reading(ZERO, 2)]),
                      AFTER_UPDATE.(conn := map[0 := Reading(ZERO, 3)]),
                      AFTER_UPDATE.(conn := map[0 := Reading(ZERO, 4)]);
    assert Apply(AFTER_UPDATE, Read(0)) == w2 by {
      assert AFTER_UPDATE.conn[0 := Reading(ZERO, 2)] == w2.conn;
    }
    assert Apply(w2, Read(0)) == w3 by {
      assert w2.conn[0 := Reading(ZERO, 3)] == w3.conn;
    }
    assert Apply(w3, Read(0)) == w4 by {
      assert w3.conn[0 := Reading(ZERO, 4)] == w4.conn;
    }
    assert es[1..][1..] == es[2..] && es[2..][1..] == [Reply(0)];
    assert Exec(AFTER_UPDATE, es) == Exec(w2, es[1..]);
    assert Exec(w2, es[1..]) == Exec(w3, es[2..]);
    assert Exec(w3, es[2..]) == Exec(w4, [Reply(0)]);
    var box := [Message(ONE_JOIN, true), Message(ZERO, false)];
    assert Deliver(w4.inbox, 0, Message(ZERO, false)) == map[0 := box] by {
      assert w4.inbox[0] + [Message(ZERO, false)] == box;
    }
    assert w4.conn[0 := Replied(ZERO)] == map[0 := Replied(ZERO)];
  }

  lemma {:induction false} SumConcat(a: seq<Event>, b: seq<Event>, f: Field)
    ensures SumOf(a + b, f) == SumOf(a, f) + SumOf(b, f)
  {
    if a == [] {
      assert a + b == b;
    } else {
      SumConcat(a[1..], b, f);
      assert (a + b)[1..] == a[1..] + b;
    }
  }

  lemma {:induction false} NoBatches(es: seq<Event>, f: Field)
    requires forall e | e in es :: !e.Begin?
    ensures SumOf(es, f) == 0
  {
    if es != [] {
      assert es[0] in es;
      NoBatches(es[1..], f);
    }
  }

  lemma StaleSum(f: Field)
    ensures SumOf(StaleRun(), f) == ONE_JOIN.Get(f)
  {
    var first, last := [Arrive(0), Read(0)], [Read(0), Read(0), Read(0), Reply(0)];
    var rest := Additions(4) + ([TakeList] + Sends(1) + [End]);
    assert Uninterrupted(ONE_JOIN, 1) == [Begin(ONE_JOIN)] + rest;
    NoBatches(first, f);
    NoBatches(rest, f);
    NoBatches(last, f);
    SumConcat([Begin(ONE_JOIN)], rest, f);
    SumConcat(first, Uninterrupted(ONE_JOIN, 1), f);
    SumConcat(first + Uninterrupted(ONE_JOIN, 1), last, f);
  }

  lemma StaleRoom()
    ensures Room(INIT, StaleRun())
  {
    forall f: Field
      ensures SumOf(StaleRun(), f) <= 1
    {
      StaleSum(f);
    }
    forall e | e in StaleRun() && e.Begin?
      ensures Leq(ZERO, e.batch)
    {
      assert e == Begin(ONE_JOIN);
    }
  }

  /** The viewer ends up shown zero joins although the total, already broadcast to it, is one. */
  lemma StaleSnapshot()
    ensures Room(INIT, StaleRun()) && QuietFor(Exec(INIT, StaleRun()), 0)
    ensures var w := Exec(INIT, StaleRun());
            && w.totals == ONE_JOIN
            && Inbox(w, 0) == [Message(ONE_JOIN, true), Message(ZERO, false)]
  {
    var first, middle, last := [Arrive(0), Read(0)], Uninterrupted(ONE_JOIN, 1), [Read(0), Read(0), Read(0), Reply(0)];
    ExecConcat(INIT, first + middle, last);
    ExecConcat(INIT, first, middle);
    StaleStart();
    StaleUpdate();
    StaleReply();
    StaleRoom();
  }
}
