/** The way of a live event to the totals: LiveEventProcessor.map, the one-second window of
    FlinkEventTypeAggregator, and the poll loop of KafkaAggConsumer. */
module LivePipeline {

  import opened JavaInt
  import opened Lists
  import opened Options
  import opened StatsHandler

  // ---------- LiveEventProcessor ----------

  datatype Json = JNull | JScalar(text: string) | JArray(items: seq<Json>) | JObject(fields: map<string, Json>)

  /** A record of the live-events topic: none at all, white space, or text that parses or does not. */
  datatype Raw = Absent | Blank | Text(parsed: Option<Json>)

  function AsText(node: Json): string
    requires !node.JNull?
  {
    if node.JScalar? then node.text else ""
  }

  /** has("eventType") ? get("eventType") : get("event_type"); a field holding null counts as present. */
  function TypeNode(root: Json): Option<Json> {
    if !root.JObject? then None
    else if "eventType" in root.fields then Some(root.fields["eventType"])
    else if "event_type" in root.fields then Some(root.fields["event_type"])
    else None
  }

  type Element = (string, Int)

  function MapEvent(parsed: Option<Json>): Option<Element> {
    if parsed.None? then None
    else
      var node := TypeNode(parsed.value);
      if node.None? || node.value.JNull? then None else Some((AsText(node.value), 1))
  }

  /** The event type an input record counts for, if any. */
  function Key(raw: Raw): Option<string> {
    if raw.Text? && MapEvent(raw.parsed).Some? then Some(MapEvent(raw.parsed).value.0) else None
  }

  /** The filters before and after the map. */
  function AggStream(raws: seq<Raw>): seq<Element> {
    if raws == [] then []
    else if Key(raws[0]).Some? then [(Key(raws[0]).value, 1)] + AggStream(raws[1..])
    else AggStream(raws[1..])
  }

  function CountKey(raws: seq<Raw>, key: string): nat {
    if raws == [] then 0
    else (if Key(raws[0]) == Some(key) then 1 else 0) + CountKey(raws[1..], key)
  }

  // ---------- what a record counts for ----------

  /** A record that is an object with an eventType counts for the text of that field, whatever event_type holds,
      and for nothing if it is null; without eventType the same goes for event_type; every other record counts for
      nothing. Arrays and objects have the empty text. */
  lemma KeyMeaning(raw: Raw)
    ensures raw.Absent? || raw.Blank? || (raw.Text? && raw.parsed.None?) ==> Key(raw) == None
    ensures raw.Text? && raw.parsed.Some? && !raw.parsed.value.JObject? ==> Key(raw) == None
    ensures raw.Text? && raw.parsed.Some? && raw.parsed.value.JObject? ==>
              var m := raw.parsed.value.fields;
              && ("eventType" in m ==> Key(raw) == TextOf(m["eventType"]))
              && ("eventType" !in m && "event_type" in m ==> Key(raw) == TextOf(m["event_type"]))
              && ("eventType" !in m && "event_type" !in m ==> Key(raw) == None)
    ensures TextOf(JNull) == None
    ensures forall text :: TextOf(JScalar(text)) == Some(text)
    ensures forall items :: TextOf(JArray(items)) == Some("")
    ensures forall fields :: TextOf(JObject(fields)) == Some("")
  {
  }

  function TextOf(node: Json): Option<string> {
    if node.JNull? then None else Some(AsText(node))
  }

  /** The record is an object whose eventType, or event_type if it has no eventType, says `key`. */
  predicate Says(raw: Raw, key: string) {
    && raw.Text? && raw.parsed.Some? && raw.parsed.value.JObject?
    && var m := raw.parsed.value.fields;
       if "eventType" in m then NodeSays(m["eventType"], key)
       else "event_type" in m && NodeSays(m["event_type"], key)
  }

  predicate NodeSays(node: Json, key: string) {
    match node
    case JNull => false
    case JScalar(text) => text == key
    case JArray(_) => key == ""
    case JObject(_) => key == ""
  }

  lemma KeyIsWhatItSays(raw: Raw, key: string)
    ensures Key(raw) == Some(key) <==> Says(raw, key)
  {
  }

  /** The positions of the records that say `key`. */
  function SayingAt(raws: seq<Raw>, key: string): set<nat> {
    set j: nat | j < |raws| && Says(raws[j], key)
  }

  /** The count of a key is the number of records that say it. */
  lemma {:induction false} CountKeyIsPositions(raws: seq<Raw>, key: string)
    ensures CountKey(raws, key) == |SayingAt(raws, key)|
  {
    if raws != [] {
      CountKeyIsPositions(raws[1..], key);
      KeyIsWhatItSays(raws[0], key);
      OnePositionMore(SayingAt(raws[1..], key), SayingAt(raws, key));
    }
  }

  // ---------- FlinkEventTypeAggregator ----------

  function Name(f: Field): string {
    match f
    case UserJoin => "user_join"
    case Like => "like"
    case Comment => "comment"
    case Gift => "send_gift"
  }

  function Names(): set<string> {
    set f: Field | true :: Name(f)
  }

  function SumFor(elements: seq<Element>, key: string): int {
    if elements == [] then 0
    else (if elements[0].0 == key then elements[0].1 else 0) + SumFor(elements[1..], key)
  }

  function KeysOf(elements: seq<Element>): set<string> {
    set e | e in elements :: e.0
  }

  function CountsOver(known: set<string>, elements: seq<Element>): map<string, int> {
    map key | key in known + KeysOf(elements) :: Wrap32(SumFor(elements, key))
  }

  /** A window's counts: the four known types always, any other that occurs, each wrapped to an int. */
  function WindowCounts(elements: seq<Element>): map<string, int> {
    CountsOver(Names(), elements)
  }

  lemma SumForOne(e: Element, key: string)
    ensures SumFor([], key) == 0 && SumFor([e], key) == if e.0 == key then e.1 else 0
  {
    assert [e][1..] == [];
  }

  lemma {:induction false} SumForOneMore(elements: seq<Element>, e: Element, key: string)
    ensures SumFor(elements + [e], key) == SumFor(elements, key) + if e.0 == key then e.1 else 0
  {
    if elements == [] {
      assert [e][1..] == [];
    } else {
      SumForOneMore(elements[1..], e, key);
      assert (elements + [e])[1..] == elements[1..] + [e];
    }
  }

  /** A key that does not occur has sum 0. */
  lemma {:induction false} SumForAbsent(elements: seq<Element>, key: string)
    requires key !in KeysOf(elements)
    ensures SumFor(elements, key) == 0
  {
    if elements != [] {
      assert elements[0] in elements;
      assert forall e | e in elements[1..] :: e in elements;
      SumForAbsent(elements[1..], key);
    }
  }

  lemma {:induction false} KeysOneMore(elements: seq<Element>, e: Element)
    ensures KeysOf(elements + [e]) == KeysOf(elements) + {e.0}
  {
    assert e in elements + [e];
    assert forall x | x in elements :: x in elements + [e];
  }

  /** One round of the loop on one entry of the map. */
  lemma CountAtKey(elements: seq<Element>, e: Element, key: string)
    ensures Wrap32(SumFor(elements + [e], key))
         == if key == e.0 then Wrap32(Wrap32(SumFor(elements, key)) + e.1) else Wrap32(SumFor(elements, key))
    ensures key !in KeysOf(elements) ==> Wrap32(SumFor(elements, key)) == 0
  {
    SumForOneMore(elements, e, key);
    WrapSum(SumFor(elements, key), e.1);
    if key !in KeysOf(elements) {
      SumForAbsent(elements, key);
    }
  }

  lemma CountOneMore(known: set<string>, elements: seq<Element>, e: Element)
    ensures var before := CountsOver(known, elements);
            CountsOver(known, elements + [e]) == TallyOne(before, e)
  {
    var before, after := CountsOver(known, elements), CountsOver(known, elements + [e]);
    var next := before[e.0 := if e.0 in before then Wrap32(before[e.0] + e.1) else e.1];
    KeysOneMore(elements, e);
    assert after.Keys == next.Keys;
    forall key | key in after
      ensures after[key] == next[key]
    {
      CountAtKey(elements, e, key);
    }
  }

  lemma EmptyCounts()
    ensures WindowCounts([]) == map["like" := 0, "comment" := 0, "user_join" := 0, "send_gift" := 0]
  {
    NamesAreFour();
  }

  lemma NamesAreFour()
    ensures Names() == {"like", "comment", "user_join", "send_gift"}
  {
    assert Name(UserJoin) in Names() && Name(Like) in Names() && Name(Comment) in Names() && Name(Gift) in Names();
  }

  function Present(elements: seq<Option<Element>>): seq<Element> {
    if elements == [] then []
    else if elements[0].Some? then [elements[0].value] + Present(elements[1..])
    else Present(elements[1..])
  }

  /** Line 71. */
  function TallyOne(stats: map<string, int>, e: Element): map<string, int> {
    stats[e.0 := if e.0 in stats then Wrap32(stats[e.0] + e.1) else e.1]
  }

  function Tally(stats: map<string, int>, elements: seq<Option<Element>>): map<string, int>
    decreases |elements|
  {
    if elements == [] then stats
    else Tally(if elements[0].Some? then TallyOne(stats, elements[0].value) else stats, elements[1..])
  }

  /** Nulls are skipped, everything else is kept in order. */
  lemma {:induction false} PresentMeaning(a: seq<Option<Element>>, b: seq<Option<Element>>, e: Element)
    ensures Present(a + b) == Present(a) + Present(b)
    ensures Present([None]) == [] && Present([Some(e)]) == [e]
  {
    assert Present([None]) == Present([None][1..]) && Present([Some(e)]) == [e] + Present([Some(e)][1..]);
    if a == [] {
      assert a + b == b;
    } else {
      PresentMeaning(a[1..], b, e);
      assert (a + b)[1..] == a[1..] + b;
    }
  }

  lemma PresentFirst(done: seq<Element>, elements: seq<Option<Element>>)
    requires elements != [] && elements[0].Some?
    ensures done + [elements[0].value] + Present(elements[1..]) == done + Present(elements)
  {
  }

  lemma {:induction false} TallyCounts(known: set<string>, done: seq<Element>, elements: seq<Option<Element>>)
    ensures Tally(CountsOver(known, done), elements) == CountsOver(known, done + Present(elements))
    decreases |elements|
  {
    if elements == [] {
      assert done + [] == done;
    } else if elements[0].Some? {
      var e := elements[0].value;
      CountOneMore(known, done, e);
      TallyCounts(known, done + [e], elements[1..]);
      PresentFirst(done, elements);
    } else {
      TallyCounts(known, done, elements[1..]);
    }
  }

  /** Lines 63-73. `elements` may hold nulls, which the loop skips. */
  method ProcessWindow(elements: seq<Option<Element>>) returns (stats: map<string, int>)
    ensures stats == WindowCounts(Present(elements))
  {
    stats := map["like" := 0, "comment" := 0, "user_join" := 0, "send_gift" := 0];
    ghost var start := stats;
    var n := 0;
    while n < |elements|
      invariant n <= |elements|
      invariant Tally(stats, elements[n..]) == Tally(start, elements)
    {
      assert elements[n..][1..] == elements[n + 1..];
      if elements[n].Some? {
        stats := TallyOne(stats, elements[n].value);
      }
      n := n + 1;
    }
    EmptyCounts();
    TallyCounts(Names(), [], elements);
    assert [] + Present(elements) == Present(elements);
  }

  // ---------- KafkaAggConsumer ----------

  /** A record of the live-events-agg topic: text that does not parse, or counts by event type. */
  datatype Record = Malformed | Counts(fields: map<string, Int>)

  /** node.path(name).asInt(0) */
  function AsInt(r: Record, name: string): Int
    requires r.Counts?
  {
    if name in r.fields then r.fields[name] else 0
  }

  function Batch(r: Record): Stats
    requires r.Counts?
  {
    Stats(AsInt(r, "user_join"), AsInt(r, "like"), AsInt(r, "comment"), AsInt(r, "send_gift"))
  }

  /** Each field of the batch is what the record holds under its name, and 0 if it holds nothing. */
  lemma BatchMeaning(r: Record, f: Field)
    requires r.Counts?
    ensures Batch(r).Get(f) == if Name(f) in r.fields then r.fields[Name(f)] else 0
    ensures Name(UserJoin) == "user_join" && Name(Like) == "like"
    ensures Name(Comment) == "comment" && Name(Gift) == "send_gift"
  {
  }

  /** The exception thrown by a malformed record ends the loop over its poll; the next poll goes on behind it. */
  function Accepted(poll: seq<Record>): seq<Record>
    ensures forall r | r in Accepted(poll) :: r.Counts?
  {
    if poll == [] || poll[0].Malformed? then [] else [poll[0]] + Accepted(poll[1..])
  }

  function AcceptedAll(polls: seq<seq<Record>>): (rs: seq<Record>)
    ensures forall r | r in rs :: r.Counts?
  {
    if polls == [] then [] else Accepted(polls[0]) + AcceptedAll(polls[1..])
  }

  /** What is accepted of a poll goes up to its first malformed record, or its end. */
  lemma {:induction false} AcceptedIsPrefix(poll: seq<Record>) returns (n: nat)
    ensures n <= |poll| && Accepted(poll) == poll[..n]
    ensures n < |poll| ==> poll[n].Malformed?
    ensures forall k | 0 <= k < n :: poll[k].Counts?
  {
    if poll == [] || poll[0].Malformed? {
      n := 0;
    } else {
      var m := AcceptedIsPrefix(poll[1..]);
      n := m + 1;
      assert poll[..n] == [poll[0]] + poll[1..][..m];
      assert forall k | 1 <= k < n :: poll[k] == poll[1..][k - 1];
    }
  }

  lemma {:induction false} AcceptedAllConcat(a: seq<seq<Record>>, b: seq<seq<Record>>)
    ensures AcceptedAll(a + b) == AcceptedAll(a) + AcceptedAll(b)
  {
    if a == [] {
      assert a + b == b;
    } else {
      AcceptedAllConcat(a[1..], b);
      assert (a + b)[0] == a[0] && (a + b)[1..] == a[1..] + b;
      InnerFirst(Accepted(a[0]), AcceptedAll(a[1..]), AcceptedAll(b));
    }
  }

  lemma InnerFirst(x: seq<Record>, y: seq<Record>, z: seq<Record>)
    ensures x + (y + z) == x + y + z
  {
  }

  /** A malformed record in one poll takes nothing from the others. */
  lemma AcceptedAllAt(before: seq<seq<Record>>, poll: seq<Record>, behind: seq<seq<Record>>)
    ensures AcceptedAll(before + [poll] + behind) == AcceptedAll(before) + Accepted(poll) + AcceptedAll(behind)
  {
    AcceptedAllConcat(before + [poll], behind);
    AcceptedAllConcat(before, [poll]);
    assert AcceptedAll([poll]) == Accepted(poll) + AcceptedAll([poll][1..]) == Accepted(poll);
  }

  function SumField(rs: seq<Record>, f: Field): int
    requires forall r | r in rs :: r.Counts?
  {
    if rs == [] then 0
    else
      assert forall r | r in rs[1..] :: r in rs;
      Batch(rs[0]).Get(f) + SumField(rs[1..], f)
  }

  /** The totals after taking in the records, one addAndBroadcast each. */
  function AddAll(totals: Stats, rs: seq<Record>): Stats
    requires forall r | r in rs :: r.Counts?
    decreases |rs|
  {
    if rs == [] then totals
    else
      assert forall r | r in rs[1..] :: r in rs;
      AddAll(totals.Add(Batch(rs[0])), rs[1..])
  }

  lemma AddThenSum(total: int, first: int, rest: int, next: int)
    requires next == Wrap32(total + first)
    ensures Wrap32(next + rest) == Wrap32(total + (first + rest))
  {
    WrapSum(total + first, rest);
  }

  /** The totals are the plain sums, wrapped once at the end. */
  lemma {:induction false} AddAllIsSum(totals: Stats, rs: seq<Record>, f: Field)
    requires forall r | r in rs :: r.Counts?
    requires IsInt(totals.Get(f))
    ensures AddAll(totals, rs).Get(f) == Wrap32(totals.Get(f) + SumField(rs, f))
    decreases |rs|
  {
    if rs != [] {
      assert forall r | r in rs[1..] :: r in rs;
      var next := totals.Add(Batch(rs[0]));
      AddField(totals, Batch(rs[0]), f);
      AddAllIsSum(next, rs[1..], f);
      AddThenSum(totals.Get(f), Batch(rs[0]).Get(f), SumField(rs[1..], f), next.Get(f));
    }
  }

  lemma {:induction false} AddAllConcat(totals: Stats, a: seq<Record>, b: seq<Record>)
    requires forall r | r in a + b :: r.Counts?
    requires forall r | r in a :: r.Counts?
    requires forall r | r in b :: r.Counts?
    ensures AddAll(totals, a + b) == AddAll(AddAll(totals, a), b)
    decreases |a|
  {
    if a == [] {
      assert a + b == b;
    } else {
      assert forall r | r in a[1..] :: r in a;
      assert (a + b)[1..] == a[1..] + b;
      assert forall r | r in a[1..] + b :: r in a + b;
      AddAllConcat(totals.Add(Batch(a[0])), a[1..], b);
    }
  }

  lemma EachFieldIsSum(totals: Stats, rs: seq<Record>)
    requires forall r | r in rs :: r.Counts?
    requires forall f: Field :: IsInt(totals.Get(f))
    ensures forall f: Field :: AddAll(totals, rs).Get(f) == Wrap32(totals.Get(f) + SumField(rs, f))
  {
    forall f: Field
      ensures AddAll(totals, rs).Get(f) == Wrap32(totals.Get(f) + SumField(rs, f))
    {
      AddAllIsSum(totals, rs, f);
    }
  }

  /** One poll: records before the first malformed one are added, the rest of the poll is lost. */
  method ConsumePoll(handler: StatsWebSocketHandler, poll: seq<Record>)
    requires handler.Valid()
    modifies handler
    ensures handler.Valid() && handler.sessions == old(handler.sessions)
    ensures handler.Totals() == AddAll(old(handler.Totals()), Accepted(poll))
  {
    var n := 0;
    while n < |poll|
      invariant n <= |poll| && handler.Valid() && handler.sessions == old(handler.sessions)
      invariant AddAll(handler.Totals(), Accepted(poll[n..])) == AddAll(old(handler.Totals()), Accepted(poll))
    {
      assert poll[n..][1..] == poll[n + 1..];
      var r := poll[n];
      if r.Malformed? {
        break;
      }
      assert Accepted(poll[n..]) == [r] + Accepted(poll[n + 1..]);
      assert Accepted(poll[n..])[1..] == Accepted(poll[n + 1..]);
      handler.AddAndBroadcast(AsInt(r, "user_join"), AsInt(r, "like"), AsInt(r, "comment"), AsInt(r, "send_gift"));
      n := n + 1;
    }
  }

  /** As many rounds of the endless loop as there are polls. */
  method ConsumeLoop(handler: StatsWebSocketHandler, polls: seq<seq<Record>>)
    requires handler.Valid()
    modifies handler
    ensures handler.Valid()
    ensures forall f: Field :: handler.Totals().Get(f)
              == Wrap32(old(handler.Totals()).Get(f) + SumField(AcceptedAll(polls), f))
  {
    var n := 0;
    while n < |polls|
      invariant n <= |polls| && handler.Valid()
      invariant AddAll(handler.Totals(), AcceptedAll(polls[n..])) == AddAll(old(handler.Totals()), AcceptedAll(polls))
    {
      assert polls[n..][1..] == polls[n + 1..];
      AddAllConcat(handler.Totals(), Accepted(polls[n]), AcceptedAll(polls[n + 1..]));
      ConsumePoll(handler, polls[n]);
      n := n + 1;
    }
    assert old(handler.Valid());
    EachFieldIsSum(old(handler.Totals()), AcceptedAll(polls));
  }

  // ---------- end to end ----------

  function Flatten<T>(parts: seq<seq<T>>): seq<T> {
    if parts == [] then [] else parts[0] + Flatten(parts[1..])
  }

  /** The record each window emits. */
  function Emit(windows: seq<seq<Element>>): seq<Record> {
    if windows == [] then [] else [Counts(WindowCounts(windows[0]))] + Emit(windows[1..])
  }

  /** What reaches the windows under a key is one count for each record that says it. */
  lemma {:induction false} CountsOfStream(raws: seq<Raw>, key: string)
    ensures SumFor(AggStream(raws), key) == CountKey(raws, key) == |SayingAt(raws, key)|
  {
    CountKeyIsPositions(raws, key);
    if raws != [] {
      CountsOfStream(raws[1..], key);
      CountKeyIsPositions(raws[1..], key);
    }
  }

  lemma {:induction false} SumForConcat(a: seq<Element>, b: seq<Element>, key: string)
    ensures SumFor(a + b, key) == SumFor(a, key) + SumFor(b, key)
  {
    if a == [] {
      assert a + b == b;
    } else {
      SumForConcat(a[1..], b, key);
      assert (a + b)[1..] == a[1..] + b;
    }
  }

  lemma {:induction false} AcceptedBehind(good: seq<Record>, rest: seq<Record>)
    requires forall r | r in good :: r.Counts?
    ensures Accepted(good + rest) == good + Accepted(rest)
  {
    if good == [] {
      assert good + rest == rest;
    } else {
      assert good[0] in good;
      assert forall r | r in good[1..] :: r in good;
      AcceptedBehind(good[1..], rest);
      assert (good + rest)[1..] == good[1..] + rest;
    }
  }

  lemma AcceptedWhole(poll: seq<Record>)
    requires forall r | r in poll :: r.Counts?
    ensures Accepted(poll) == poll
  {
    AcceptedBehind(poll, []);
    assert poll + [] == poll;
  }

  lemma {:induction false} AcceptedAllWhole(polls: seq<seq<Record>>)
    requires forall r | r in Flatten(polls) :: r.Counts?
    ensures AcceptedAll(polls) == Flatten(polls)
  {
    if polls != [] {
      assert forall r | r in polls[0] :: r in Flatten(polls);
      assert forall r | r in Flatten(polls[1..]) :: r in Flatten(polls);
      AcceptedWhole(polls[0]);
      AcceptedAllWhole(polls[1..]);
    }
  }

  lemma {:induction false} EmittedAreCounts(windows: seq<seq<Element>>)
    ensures forall r | r in Emit(windows) :: r.Counts?
  {
    if windows != [] {
      EmittedAreCounts(windows[1..]);
    }
  }

  lemma EmittedField(elements: seq<Element>, f: Field)
    ensures Batch(Counts(WindowCounts(elements))).Get(f) == Wrap32(SumFor(elements, Name(f)))
  {
    assert Name(f) in Names();
  }

  lemma SumFieldCons(r: Record, rs: seq<Record>, f: Field)
    requires r.Counts? && forall x | x in rs :: x.Counts?
    ensures forall x | x in [r] + rs :: x.Counts?
    ensures SumField([r] + rs, f) == Batch(r).Get(f) + SumField(rs, f)
  {
    assert ([r] + rs)[1..] == rs;
  }

  /** The sum over the emitted records of one field. */
  function EmittedTotal(windows: seq<seq<Element>>, f: Field): int {
    EmittedAreCounts(windows);
    SumField(Emit(windows), f)
  }

  /** The windows' sums for one key, each wrapped before it is added. */
  function WrappedTotal(windows: seq<seq<Element>>, key: string): int {
    if windows == [] then 0 else Wrap32(SumFor(windows[0], key)) + WrappedTotal(windows[1..], key)
  }

  lemma {:induction false} EmittedTotalIs(windows: seq<seq<Element>>, f: Field)
    ensures EmittedTotal(windows, f) == WrappedTotal(windows, Name(f))
  {
    if windows != [] {
      EmittedTotalIs(windows[1..], f);
      EmittedAreCounts(windows[1..]);
      SumFieldCons(Counts(WindowCounts(windows[0])), Emit(windows[1..]), f);
      EmittedField(windows[0], f);
    }
  }

  lemma {:induction false} WrappingWindowsIsHarmless(windows: seq<seq<Element>>, key: string)
    ensures Wrap32(WrappedTotal(windows, key)) == Wrap32(SumFor(Flatten(windows), key))
  {
    if windows != [] {
      WrappingWindowsIsHarmless(windows[1..], key);
      SumForConcat(windows[0], Flatten(windows[1..]), key);
      WrapBoth(SumFor(windows[0], key), WrappedTotal(windows[1..], key), SumFor(Flatten(windows[1..]), key));
    }
  }

  /** Whatever the windows and whatever the polls, once every emitted record has been consumed each total is the
      number of input records whose eventType, or else event_type, says its name, as a 32-bit int. */
  lemma TotalsCountEvents(raws: seq<Raw>, windows: seq<seq<Element>>, polls: seq<seq<Record>>, f: Field)
    requires Flatten(windows) == AggStream(raws)
    requires Flatten(polls) == Emit(windows)
    ensures AddAll(ZERO, AcceptedAll(polls)).Get(f) == Wrap32(|SayingAt(raws, Name(f))|)
  {
    EmittedAreCounts(windows);
    AcceptedAllWhole(polls);
    AddAllIsSum(ZERO, AcceptedAll(polls), f);
    EmittedTotalIs(windows, f);
    WrappingWindowsIsHarmless(windows, Name(f));
    CountsOfStream(raws, Name(f));
  }

  lemma {:induction false} CountKeyConcat(a: seq<Raw>, b: seq<Raw>, key: string)
    ensures CountKey(a + b, key) == CountKey(a, key) + CountKey(b, key)
  {
    if a == [] {
      assert a + b == b;
    } else {
      CountKeyConcat(a[1..], b, key);
      assert (a + b)[1..] == a[1..] + b;
    }
  }

  lemma TakeOut(raws: seq<Raw>, k: nat, key: string)
    requires k < |raws|
    ensures CountKey(raws, key) == CountKey([raws[k]], key) + CountKey(raws[..k] + raws[k + 1..], key)
  {
    var before, after := raws[..k], raws[k + 1..];
    assert raws == before + ([raws[k]] + after);
    CountKeyConcat(before, [raws[k]] + after, key);
    CountKeyConcat([raws[k]], after, key);
    CountKeyConcat(before, after, key);
  }

  /** The totals depend only on which events there are, not on their order. */
  lemma {:induction false} OrderIsIrrelevant(a: seq<Raw>, b: seq<Raw>, key: string)
    requires multiset(a) == multiset(b)
    ensures CountKey(a, key) == CountKey(b, key)
    decreases |a|
  {
    if a == [] {
      SameLength(a, b);
    } else {
      var k := Pick(a, b);
      TakeOut(b, k, key);
      TakeOut(a, 0, key);
      assert a[..0] + a[1..] == a[1..];
      OrderIsIrrelevant(a[1..], b[..k] + b[k + 1..], key);
    }
  }

  /** Two deployments that see the same events in any order, windows and polls agree. */
  lemma PipelinesAgree(raws: seq<Raw>, windows: seq<seq<Element>>, polls: seq<seq<Record>>,
                       raws': seq<Raw>, windows': seq<seq<Element>>, polls': seq<seq<Record>>)
    requires Flatten(windows) == AggStream(raws) && Flatten(polls) == Emit(windows)
    requires Flatten(windows') == AggStream(raws') && Flatten(polls') == Emit(windows')
    requires multiset(raws) == multiset(raws')
    ensures AddAll(ZERO, AcceptedAll(polls)) == AddAll(ZERO, AcceptedAll(polls'))
  {
    var a, b := AddAll(ZERO, AcceptedAll(polls)), AddAll(ZERO, AcceptedAll(polls'));
    forall f: Field
      ensures a.Get(f) == b.Get(f)
    {
      TotalsCountEvents(raws, windows, polls, f);
      TotalsCountEvents(raws', windows', polls', f);
      OrderIsIrrelevant(raws, raws', Name(f));
      CountKeyIsPositions(raws, Name(f));
      CountKeyIsPositions(raws', Name(f));
    }
    SameFields(a, b);
  }

  // ---------- what a malformed record costs ----------

  lemma AcceptedStops(good: seq<Record>, rest: seq<Record>)
    requires forall r | r in good :: r.Counts?
    ensures Accepted(good + [Malformed] + rest) == good
  {
    AcceptedBehind(good, [Malformed] + rest);
    assert good + [Malformed] + rest == good + ([Malformed] + rest);
  }

  lemma SameTotalIff(totals: Stats, tail: seq<Record>, f: Field)
    requires IsInt(totals.Get(f)) && forall r | r in tail :: r.Counts?
    ensures AddAll(totals, tail).Get(f) == totals.Get(f) <==> SumField(tail, f) % 0x1_0000_0000 == 0
  {
    AddAllIsSum(totals, tail, f);
    WrapUnchanged(totals.Get(f), SumField(tail, f));
  }

  lemma AddAllStaysInt(totals: Stats, rs: seq<Record>, f: Field)
    requires IsInt(totals.Get(f)) && forall r | r in rs :: r.Counts?
    ensures IsInt(AddAll(totals, rs).Get(f))
  {
    AddAllIsSum(totals, rs, f);
  }

  /** A malformed record costs its poll everything behind it, good records included: the outcome is that of
      the poll cut short there, and it is that of the poll without this one record if and only if every field of
      what would then have been taken in adds up to nothing (modulo 2^32). */
  lemma MalformedCutsPoll(totals: Stats, good: seq<Record>, rest: seq<Record>, f: Field)
    requires IsInt(totals.Get(f))
    requires forall r | r in good :: r.Counts?
    ensures Accepted(good + [Malformed] + rest) == good
    ensures AddAll(totals, Accepted(good + [Malformed] + rest)).Get(f) == AddAll(totals, Accepted(good + rest)).Get(f)
       <==> SumField(Accepted(rest), f) % 0x1_0000_0000 == 0
  {
    AcceptedStops(good, rest);
    AcceptedBehind(good, rest);
    AddAllConcat(totals, good, Accepted(rest));
    AddAllStaysInt(totals, good, f);
    SameTotalIff(AddAll(totals, good), Accepted(rest), f);
  }
}
