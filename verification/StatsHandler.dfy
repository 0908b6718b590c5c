/** StatsWebSocketHandler.java: running totals pushed to every open WebSocket session. */
module StatsHandler {

  import opened JavaInt
  import opened Lists

  /** The four counters, in the order the Java code touches them. */
  datatype Field = UserJoin | Like | Comment | Gift

  const FIELDS := [UserJoin, Like, Comment, Gift]

  /** StatsDto, and equally a batch of increments. */
  datatype Stats = Stats(userJoin: int, like: int, comment: int, gift: int) {
    function Get(f: Field): int {
      match f
      case UserJoin => userJoin
      case Like => like
      case Comment => comment
      case Gift => gift
    }

    function Put(f: Field, v: int): Stats {
      match f
      case UserJoin => this.(userJoin := v)
      case Like => this.(like := v)
      case Comment => this.(comment := v)
      case Gift => this.(gift := v)
    }

    function Add(batch: Stats): Stats {
      Stats(Wrap32(userJoin + batch.userJoin), Wrap32(like + batch.like),
            Wrap32(comment + batch.comment), Wrap32(gift + batch.gift))
    }
  }

  lemma SameFields(a: Stats, b: Stats)
    requires forall f: Field :: a.Get(f) == b.Get(f)
    ensures a == b
  {
    assert a.Get(UserJoin) == b.Get(UserJoin) && a.Get(Like) == b.Get(Like);
    assert a.Get(Comment) == b.Get(Comment) && a.Get(Gift) == b.Get(Gift);
  }

  lemma AddField(totals: Stats, batch: Stats, f: Field)
    ensures totals.Add(batch).Get(f) == Wrap32(totals.Get(f) + batch.Get(f))
  {
  }

  const ZERO := Stats(0, 0, 0, 0)

  type Session = nat

  /** One delivered text message; `broadcast` tells a broadcast from the snapshot sent on connecting. */
  datatype Message = Message(stats: Stats, broadcast: bool)

  type Inboxes = map<Session, seq<Message>>

  function Deliver(inbox: Inboxes, session: Session, m: Message): Inboxes {
    inbox[session := (if session in inbox then inbox[session] else []) + [m]]
  }

  /** Lines 67-75: every session of the list that is open gets the message. */
  function DeliverAll(inbox: Inboxes, pending: seq<Session>, closed: set<Session>, m: Message): Inboxes
    decreases |pending|
  {
    if pending == [] then inbox
    else DeliverAll(if pending[0] in closed then inbox else Deliver(inbox, pending[0], m), pending[1..], closed, m)
  }

  /** Each open listed session's inbox grows by the message once per listing, nobody else's changes. */
  lemma {:induction false} DeliverAllReaches(inbox: Inboxes, pending: seq<Session>, closed: set<Session>, m: Message)
    requires forall j, k | 0 <= j < k < |pending| :: pending[j] != pending[k]
    ensures var after := DeliverAll(inbox, pending, closed, m);
            && (forall s | s in pending && s !in closed ::
                  s in after && after[s] == (if s in inbox then inbox[s] else []) + [m])
            && (forall s | s !in pending || s in closed ::
                  (s in after <==> s in inbox) && (s in inbox ==> after[s] == inbox[s]))
    decreases |pending|
  {
    if pending != [] {
      var next := if pending[0] in closed then inbox else Deliver(inbox, pending[0], m);
      DeliverAllReaches(next, pending[1..], closed, m);
      assert pending == [pending[0]] + pending[1..];
      assert pending[0] !in pending[1..];
    }
  }

  function OtherThan(session: Session): Session -> bool {
    (s: Session) => s != session
  }

  lemma OneLess(list: seq<Session>, n: nat)
    requires n < |list| && Distinct(list)
    ensures var rest := list[..n] + list[n + 1..];
            && Distinct(rest) && list[n] !in rest
            && (forall s | s != list[n] :: s in rest <==> s in list)
            && rest == Filter(list, OtherThan(list[n]))
  {
    var before, behind := list[..n], list[n + 1..];
    assert list == before + [list[n]] + behind;
    assert list[n] !in before && list[n] !in behind;
    FilterOut(before, list[n], behind, OtherThan(list[n]));
  }

  class StatsWebSocketHandler {
    var userJoinTotal: int
    var likeTotal: int
    var commentTotal: int
    var giftTotal: int
    var sessions: seq<Session>  // CopyOnWriteArraySet: insertion order, no repetitions
    var closed: set<Session>    // sessions whose isOpen() is false
    var inbox: Inboxes          // what the clients have received

    constructor ()
      ensures Valid() && Totals() == ZERO && sessions == [] && closed == {} && inbox == map[]
    {
      userJoinTotal, likeTotal, commentTotal, giftTotal := 0, 0, 0, 0;
      sessions, closed, inbox := [], {}, map[];
    }

    ghost predicate Valid()
      reads this
    {
      && (forall j, k | 0 <= j < k < |sessions| :: sessions[j] != sessions[k])
      && IsInt(userJoinTotal) && IsInt(likeTotal) && IsInt(commentTotal) && IsInt(giftTotal)
    }

    function Totals(): Stats
      reads this
    {
      Stats(userJoinTotal, likeTotal, commentTotal, giftTotal)
    }

    method AfterConnectionEstablished(session: Session)
      requires Valid()
      modifies this`sessions, this`inbox
      ensures Valid() && session in sessions
      ensures sessions == if session in old(sessions) then old(sessions) else old(sessions) + [session]
      ensures inbox == if session in closed then old(inbox) else Deliver(old(inbox), session, Message(Totals(), false))
    {
      if session !in sessions {
        sessions := sessions + [session];
      }
      if session !in closed {
        inbox := Deliver(inbox, session, Message(Totals(), false));
      }
    }

    method AfterConnectionClosed(session: Session)
      requires Valid()
      modifies this`sessions
      ensures Valid() && session !in sessions
      ensures forall s | s != session :: s in sessions <==> s in old(sessions)
      ensures session !in old(sessions) ==> sessions == old(sessions)
      ensures sessions == Filter(old(sessions), OtherThan(session))
    {
      var n := 0;
      while n < |sessions| && sessions[n] != session
        invariant n <= |sessions| && session !in sessions[..n]
      {
        n := n + 1;
      }
      if n < |sessions| {
        OneLess(sessions, n);
        sessions := sessions[..n] + sessions[n + 1..];
      } else {
        assert sessions[..n] == sessions;
        FilterAll(sessions, OtherThan(session));
      }
    }

    method AddAndBroadcast(userJoin: int, like: int, comment: int, sendGift: int)
      requires Valid()
      modifies this
      ensures Valid() && sessions == old(sessions) && closed == old(closed)
      ensures Totals() == old(Totals()).Add(Stats(userJoin, like, comment, sendGift))
      ensures inbox == DeliverAll(old(inbox), sessions, closed, Message(Totals(), true))
      ensures forall s | s in sessions && s !in closed ::
                s in inbox && inbox[s] == (if s in old(inbox) then old(inbox)[s] else []) + [Message(Totals(), true)]
      ensures forall s | s !in sessions || s in closed ::
                (s in inbox <==> s in old(inbox)) && (s in inbox ==> inbox[s] == old(inbox)[s])
    {
      userJoinTotal := Wrap32(userJoinTotal + userJoin);
      likeTotal := Wrap32(likeTotal + like);
      commentTotal := Wrap32(commentTotal + comment);
      giftTotal := Wrap32(giftTotal + sendGift);
      DeliverAllReaches(inbox, sessions, closed, Message(Totals(), true));
      Broadcast(Totals());
    }

    method Broadcast(stats: Stats)
      requires Valid()
      modifies this`inbox
      ensures inbox == DeliverAll(old(inbox), sessions, closed, Message(stats, true))
    {
      var pending := sessions;
      var n := 0;
      while n < |pending|
        invariant n <= |pending|
        invariant DeliverAll(inbox, pending[n..], closed, Message(stats, true))
               == DeliverAll(old(inbox), pending, closed, Message(stats, true))
      {
        assert pending[n..][1..] == pending[n + 1..];
        if pending[n] !in closed {
          inbox := Deliver(inbox, pending[n], Message(stats, true));
        }
        n := n + 1;
      }
    }
  }
}
