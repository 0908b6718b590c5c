/** basic_operations.py: the count/sum aggregate and the two-largest aggregate. */
module StreamAggregates {

  import opened Lists
  import opened Options

  // ---------- CountAndSumAggregateFunction ----------

  /** The accumulator Row(cnt, sum). Rows carry `tel` as text; None stands for a text int() rejects. */
  class CountSum {
    var cnt: int
    var sum: int

    constructor ()
      ensures cnt == 0 && sum == 0
    {
      cnt, sum := 0, 0;
    }

    /** A rejected text raises between the two assignments. */
    method Accumulate(tel: Option<int>) returns (ok: bool)
      modifies this
      ensures ok == tel.Some? && cnt == old(cnt) + 1
      ensures sum == old(sum) + if tel.Some? then tel.value else 0
    {
      cnt := cnt + 1;
      if tel.None? {
        return false;
      }
      sum := sum + tel.value;
      ok := true;
    }

    method Retract(tel: Option<int>) returns (ok: bool)
      modifies this
      ensures ok == tel.Some? && cnt == old(cnt) - 1
      ensures sum == old(sum) - if tel.Some? then tel.value else 0
    {
      cnt := cnt - 1;
      if tel.None? {
        return false;
      }
      sum := sum - tel.value;
      ok := true;
    }

    /** What the others add; None stands for the accumulator itself. */
    function Addends(others: seq<CountSum>): (parts: seq<Option<Acc>>)
      reads others
      ensures |parts| == |others|
      ensures forall k | 0 <= k < |others| ::
                parts[k] == if others[k] == this then None else Some((others[k].cnt, others[k].sum))
    {
      seq(|others|, k requires 0 <= k < |others| reads others =>
            if others[k] == this then None else Some((others[k].cnt, others[k].sum)))
    }

    method Merge(others: seq<CountSum>)
      modifies this
      ensures (cnt, sum) == MergeIn((old(cnt), old(sum)), old(Addends(others)))
    {
      ghost var parts := Addends(others);
      var n := 0;
      while n < |others|
        invariant n <= |others|
        invariant parts == Addends(others)
        invariant MergeIn((cnt, sum), parts[n..]) == MergeIn((old(cnt), old(sum)), parts)
      {
        assert parts[n..][1..] == parts[n + 1..];
        cnt := cnt + others[n].cnt;
        sum := sum + others[n].sum;
        n := n + 1;
      }
    }
  }

  type Acc = (int, int)

  function AddAll(acc: Acc, parts: seq<Acc>): Acc
    decreases |parts|
  {
    if parts == [] then acc else AddAll((acc.0 + parts[0].0, acc.1 + parts[0].1), parts[1..])
  }

  /** Adding in turn, where None adds the sum reached so far to itself. */
  function MergeIn(acc: Acc, parts: seq<Option<Acc>>): Acc
    decreases |parts|
  {
    if parts == [] then acc
    else
      var part := if parts[0].Some? then parts[0].value else acc;
      MergeIn((acc.0 + part.0, acc.1 + part.1), parts[1..])
  }

  function AllSome(parts: seq<Acc>): seq<Option<Acc>> {
    if parts == [] then [] else [Some(parts[0])] + AllSome(parts[1..])
  }

  /** Merging others is plain addition. */
  lemma {:induction false} MergeOthersIsAddAll(acc: Acc, parts: seq<Acc>)
    ensures MergeIn(acc, AllSome(parts)) == AddAll(acc, parts)
    decreases |parts|
  {
    if parts != [] {
      MergeOthersIsAddAll((acc.0 + parts[0].0, acc.1 + parts[0].1), parts[1..]);
      assert AllSome(parts)[1..] == AllSome(parts[1..]);
    }
  }

  function Doublings(parts: seq<Option<Acc>>): (factor: nat)
    ensures factor >= 1
  {
    if parts == [] then 1 else if parts[0].None? then 2 * Doublings(parts[1..]) else Doublings(parts[1..])
  }

  lemma TwiceTimes(a: int, n: int)
    ensures (a + a) * n == a * (2 * n)
  {
  }

  lemma SumTimes(a: int, b: int, n: int)
    ensures (a + b) * n == a * n + b * n
  {
  }

  /** Merging itself in doubles what it had, so from then on the rows reached before count twice. */
  lemma {:induction false} SelfMergeDoubles(acc: Acc, parts: seq<Option<Acc>>)
    ensures MergeIn(acc, parts).0 == acc.0 * Doublings(parts) + MergeIn((0, 0), parts).0
    ensures MergeIn(acc, parts).1 == acc.1 * Doublings(parts) + MergeIn((0, 0), parts).1
    decreases |parts|
  {
    if parts != [] {
      var rest, n := parts[1..], Doublings(parts[1..]);
      if parts[0].None? {
        SelfMergeDoubles((acc.0 + acc.0, acc.1 + acc.1), rest);
        TwiceTimes(acc.0, n);
        TwiceTimes(acc.1, n);
      } else {
        var part := parts[0].value;
        SelfMergeDoubles((acc.0 + part.0, acc.1 + part.1), rest);
        SelfMergeDoubles((0 + part.0, 0 + part.1), rest);
        SumTimes(acc.0, part.0, n);
        SumTimes(acc.1, part.1, n);
      }
    }
  }

  /** Any way of building an accumulator from the four operations. */
  datatype Plan =
    | Create
    | Accumulate(plan: Plan, tel: int)
    | Retract(plan: Plan, tel: int)
    | Merge(plan: Plan, others: seq<Plan>)

  function Run(p: Plan): Acc
    decreases p, 1
  {
    match p
    case Create => (0, 0)
    case Accumulate(q, tel) => (Run(q).0 + 1, Run(q).1 + tel)
    case Retract(q, tel) => (Run(q).0 - 1, Run(q).1 - tel)
    case Merge(q, others) => AddAll(Run(q), RunAll(others))
  }

  function RunAll(ps: seq<Plan>): seq<Acc>
    decreases ps, 0
  {
    if ps == [] then [] else [Run(ps[0])] + RunAll(ps[1..])
  }

  /** The plan carried out on accumulator objects. */
  method Execute(p: Plan) returns (acc: CountSum)
    ensures fresh(acc)
    ensures (acc.cnt, acc.sum) == Run(p)
    decreases p, 1
  {
    match p
    case Create =>
      acc := new CountSum();
    case Accumulate(q, tel) =>
      acc := Execute(q);
      var _ := acc.Accumulate(Some(tel));
    case Retract(q, tel) =>
      acc := Execute(q);
      var _ := acc.Retract(Some(tel));
    case Merge(q, others) =>
      acc := Execute(q);
      var accs := ExecuteAll(others);
      assert acc.Addends(accs) == AllSome(RunAll(others)) by {
        AllSomeAt(RunAll(others));
      }
      MergeOthersIsAddAll(Run(q), RunAll(others));
      acc.Merge(accs);
  }

  method ExecuteAll(ps: seq<Plan>) returns (accs: seq<CountSum>)
    ensures |accs| == |ps| == |RunAll(ps)|
    ensures forall k | 0 <= k < |accs| :: fresh(accs[k]) && (accs[k].cnt, accs[k].sum) == RunAll(ps)[k]
    decreases ps, 0
  {
    if ps == [] {
      return [];
    }
    var first := Execute(ps[0]);
    var rest := ExecuteAll(ps[1..]);
    accs := [first] + rest;
  }

  lemma {:induction false} AllSomeAt(parts: seq<Acc>)
    ensures |AllSome(parts)| == |parts|
    ensures forall k | 0 <= k < |parts| :: AllSome(parts)[k] == Some(parts[k])
  {
    if parts != [] {
      AllSomeAt(parts[1..]);
    }
  }

  /** The rows a plan accumulates and those it retracts. */
  datatype Net = Net(plus: seq<int>, minus: seq<int>) {
    function Join(other: Net): Net {
      Net(plus + other.plus, minus + other.minus)
    }

    function Value(): Acc {
      (|plus| - |minus|, Total(plus) - Total(minus))
    }
  }

  function Contributions(p: Plan): Net
    decreases p, 1
  {
    match p
    case Create => Net([], [])
    case Accumulate(q, tel) => Contributions(q).Join(Net([tel], []))
    case Retract(q, tel) => Contributions(q).Join(Net([], [tel]))
    case Merge(q, others) => Contributions(q).Join(AllContributions(others))
  }

  function AllContributions(ps: seq<Plan>): Net
    decreases ps, 0
  {
    if ps == [] then Net([], []) else Contributions(ps[0]).Join(AllContributions(ps[1..]))
  }

  function Total(xs: seq<int>): int {
    if xs == [] then 0 else xs[0] + Total(xs[1..])
  }

  lemma {:induction false} TotalConcat(a: seq<int>, b: seq<int>)
    ensures Total(a + b) == Total(a) + Total(b)
  {
    if a == [] {
      assert a + b == b;
    } else {
      TotalConcat(a[1..], b);
      assert (a + b)[1..] == a[1..] + b;
    }
  }

  lemma {:induction false} TotalIgnoresOrder(a: seq<int>, b: seq<int>)
    requires multiset(a) == multiset(b)
    ensures Total(a) == Total(b) && |a| == |b|
    decreases |a|
  {
    SameLength(a, b);
    if a != [] {
      var k := Pick(a, b);
      TotalIgnoresOrder(a[1..], b[..k] + b[k + 1..]);
      TotalConcat(b[..k], b[k + 1..]);
      TotalConcat(b[..k], b[k..]);
      assert b == b[..k] + b[k..] && b[k..][1..] == b[k + 1..];
    }
  }

  lemma JoinAddsCounts(a: Net, b: Net)
    ensures a.Join(b).Value().0 == a.Value().0 + b.Value().0
  {
  }

  lemma JoinAddsTotals(a: Net, b: Net)
    ensures a.Join(b).Value().1 == a.Value().1 + b.Value().1
  {
    TotalConcat(a.plus, b.plus);
    TotalConcat(a.minus, b.minus);
  }

  lemma JoinAddsValues(a: Net, b: Net)
    ensures a.Join(b).Value() == (a.Value().0 + b.Value().0, a.Value().1 + b.Value().1)
  {
    JoinAddsCounts(a, b);
    JoinAddsTotals(a, b);
  }

  lemma {:induction false} AddAllSplits(acc: Acc, part: Acc, parts: seq<Acc>)
    ensures AddAll((acc.0 + part.0, acc.1 + part.1), parts)
         == (acc.0 + AddAll(part, parts).0, acc.1 + AddAll(part, parts).1)
    decreases |parts|
  {
    if parts != [] {
      AddAllSplits(acc, (part.0 + parts[0].0, part.1 + parts[0].1), parts[1..]);
      assert (acc.0 + part.0 + parts[0].0, acc.1 + part.1 + parts[0].1)
          == (acc.0 + (part.0 + parts[0].0), acc.1 + (part.1 + parts[0].1));
    }
  }

  lemma RunOfAccumulate(q: Plan, tel: int)
    requires Run(q) == Contributions(q).Value()
    ensures Run(Accumulate(q, tel)) == Contributions(Accumulate(q, tel)).Value()
  {
    assert Contributions(Accumulate(q, tel)) == Contributions(q).Join(Net([tel], []));
    AddRow(Contributions(q), tel);
  }

  lemma RunOfRetract(q: Plan, tel: int)
    requires Run(q) == Contributions(q).Value()
    ensures Run(Retract(q, tel)) == Contributions(Retract(q, tel)).Value()
  {
    assert Contributions(Retract(q, tel)) == Contributions(q).Join(Net([], [tel]));
    SubtractRow(Contributions(q), tel);
  }

  lemma JoinAdds(a: Net, b: Net, acc: Acc, parts: seq<Acc>)
    requires acc == a.Value() && AddAll((0, 0), parts) == b.Value()
    ensures AddAll(acc, parts) == a.Join(b).Value()
  {
    JoinAddsValues(a, b);
    AddAllFrom(acc, parts);
  }

  lemma RunOfMerge(q: Plan, others: seq<Plan>)
    requires Run(q) == Contributions(q).Value()
    requires AddAll((0, 0), RunAll(others)) == AllContributions(others).Value()
    ensures Run(Merge(q, others)) == Contributions(Merge(q, others)).Value()
  {
    JoinAdds(Contributions(q), AllContributions(others), Run(q), RunAll(others));
  }

  /** The accumulator is the signed count and the signed sum of the net contributions, however they were
      accumulated, retracted, sharded and merged. */
  lemma {:induction false} RunIsNetValue(p: Plan)
    ensures Run(p) == Contributions(p).Value()
    decreases p, 1
  {
    match p
    case Create =>
    case Accumulate(q, tel) =>
      RunIsNetValue(q);
      RunOfAccumulate(q, tel);
    case Retract(q, tel) =>
      RunIsNetValue(q);
      RunOfRetract(q, tel);
    case Merge(q, others) =>
      RunIsNetValue(q);
      RunAllIsNetValue(others);
      RunOfMerge(q, others);
  }

  lemma TotalOfOne(x: int)
    ensures Total([x]) == x
  {
    assert [x][1..] == [];
  }

  lemma AddRow(net: Net, tel: int)
    ensures net.Join(Net([tel], [])).Value() == (net.Value().0 + 1, net.Value().1 + tel)
  {
    JoinAddsValues(net, Net([tel], []));
    TotalOfOne(tel);
  }

  lemma SubtractRow(net: Net, tel: int)
    ensures net.Join(Net([], [tel])).Value() == (net.Value().0 - 1, net.Value().1 - tel)
  {
    JoinAddsValues(net, Net([], [tel]));
    TotalOfOne(tel);
  }

  lemma AddAllFrom(acc: Acc, parts: seq<Acc>)
    ensures AddAll(acc, parts) == (acc.0 + AddAll((0, 0), parts).0, acc.1 + AddAll((0, 0), parts).1)
  {
    AddAllSplits(acc, (0, 0), parts);
    assert (acc.0 + 0, acc.1 + 0) == acc;
  }

  lemma AddAllFirst(first: Acc, rest: seq<Acc>)
    ensures AddAll((0, 0), [first] + rest) == AddAll(first, rest)
  {
    assert ([first] + rest)[1..] == rest;
    assert (0 + first.0, 0 + first.1) == first;
  }

  lemma {:induction false} RunAllIsNetValue(ps: seq<Plan>)
    ensures AddAll((0, 0), RunAll(ps)) == AllContributions(ps).Value()
    decreases ps, 0
  {
    if ps != [] {
      RunIsNetValue(ps[0]);
      RunAllIsNetValue(ps[1..]);
      JoinAdds(Contributions(ps[0]), AllContributions(ps[1..]), Run(ps[0]), RunAll(ps[1..]));
      AddAllFirst(Run(ps[0]), RunAll(ps[1..]));
    }
  }

  /** Two plans whose rows agree once what each retracts is moved to the other side end with the same
      accumulator: sharding and merge order do not matter, and a retraction undoes an accumulation. */
  lemma SameNetSameResult(p: Plan, q: Plan)
    requires multiset(Contributions(p).plus + Contributions(q).minus)
          == multiset(Contributions(q).plus + Contributions(p).minus)
    ensures Run(p) == Run(q)
  {
    RunIsNetValue(p);
    RunIsNetValue(q);
    SameNetSameValue(Contributions(p), Contributions(q));
  }

  lemma SameNetSameValue(a: Net, b: Net)
    requires multiset(a.plus + b.minus) == multiset(b.plus + a.minus)
    ensures a.Value() == b.Value()
  {
    TotalIgnoresOrder(a.plus + b.minus, b.plus + a.minus);
    TotalConcat(a.plus, b.minus);
    TotalConcat(b.plus, a.minus);
  }

  // ---------- Top2 ----------

  datatype Pair = Pair(first: Option<int>, second: Option<int>)

  function Step(acc: Pair, tel: int): Pair {
    if acc.first.None? || tel > acc.first.value then Pair(Some(tel), acc.first)
    else if acc.second.None? || tel > acc.second.value then acc.(second := Some(tel))
    else acc
  }

  class Top2 {
    var first: Option<int>
    var second: Option<int>
    /** The numbers fed so far. */
    ghost var history: seq<int>

    constructor ()
      ensures Valid() && history == []
      ensures View() == Pair(None, None)
    {
      first, second := None, None;
      history := [];
    }

    function View(): Pair
      reads this
    {
      Pair(first, second)
    }

    ghost predicate Valid()
      reads this
    {
      View() == FirstTwo(Sort(history))
    }

    /** int() comes first, so a rejected text changes nothing. */
    method Accumulate(tel: Option<int>) returns (ok: bool)
      requires Valid()
      modifies this
      ensures Valid()
      ensures history == if tel.Some? then old(history) + [tel.value] else old(history)
      ensures ok == tel.Some?
      ensures View() == if tel.Some? then Step(old(View()), tel.value) else old(View())
    {
      if tel.None? {
        return false;
      }
      SortDescends(history);
      StepIsInsert(Sort(history), tel.value);
      SortOneMore(history, tel.value);
      if first.None? || tel.value > first.value {
        second := first;
        first := tel;
      } else if second.None? || tel.value > second.value {
        second := tel;
      }
      history := history + [tel.value];
      ok := true;
    }

    /** `if v:` is false for None and for 0. */
    method EmitValue() returns (rows: seq<int>)
      requires Valid()
      ensures rows == Emitted(View())
      ensures rows == NonZero(UpToTwo(Sort(history)))
    {
      EmittedFirstTwo(Sort(history));
      rows := [];
      if first.Some? && first.value != 0 {
        rows := rows + [first.value];
      }
      if second.Some? && second.value != 0 {
        rows := rows + [second.value];
      }
    }
  }

  function Shown(v: Option<int>): seq<int> {
    if v.Some? && v.value != 0 then [v.value] else []
  }

  function Emitted(acc: Pair): seq<int> {
    Shown(acc.first) + Shown(acc.second)
  }

  function Feed(tels: seq<int>): Pair {
    if tels == [] then Pair(None, None) else Step(Feed(tels[..|tels| - 1]), tels[|tels| - 1])
  }

  predicate Descending(s: seq<int>) {
    |s| <= 1 || (s[0] >= s[1] && Descending(s[1..]))
  }

  lemma {:induction false} DescendingMeaning(s: seq<int>)
    ensures Descending(s) <==> forall j, k | 0 <= j < k < |s| :: s[j] >= s[k]
  {
    if |s| > 1 {
      DescendingMeaning(s[1..]);
      if Descending(s) {
        forall j, k | 0 <= j < k < |s|
          ensures s[j] >= s[k]
        {
          assert s[k] == s[1..][k - 1];
          assert j > 0 ==> s[j] == s[1..][j - 1];
        }
      } else if s[0] >= s[1] {
        var j, k :| 0 <= j < k < |s[1..]| && s[1..][j] < s[1..][k];
        assert s[j + 1] < s[k + 1];
      }
    }
  }

  function FirstTwo(s: seq<int>): Pair {
    Pair(if |s| > 0 then Some(s[0]) else None, if |s| > 1 then Some(s[1]) else None)
  }

  function Insert(s: seq<int>, x: int): seq<int> {
    if s == [] || x >= s[0] then [x] + s else [s[0]] + Insert(s[1..], x)
  }

  function Sort(s: seq<int>): seq<int> {
    if s == [] then [] else Insert(Sort(s[..|s| - 1]), s[|s| - 1])
  }

  lemma {:induction false} InsertSorted(s: seq<int>, x: int)
    requires Descending(s)
    ensures Descending(Insert(s, x))
    ensures |Insert(s, x)| == |s| + 1
    ensures Insert(s, x)[0] == if s == [] || x >= s[0] then x else s[0]
  {
    if s == [] || x >= s[0] {
      assert ([x] + s)[1..] == s;
    } else {
      InsertSorted(s[1..], x);
      assert Insert(s, x)[1..] == Insert(s[1..], x);
    }
  }

  lemma {:induction false} InsertAdds(s: seq<int>, x: int)
    ensures multiset(Insert(s, x)) == multiset(s) + multiset{x}
  {
    if s != [] && x < s[0] {
      InsertAdds(s[1..], x);
      assert s == [s[0]] + s[1..];
    }
  }

  lemma SortOneMore(s: seq<int>, x: int)
    ensures Sort(s + [x]) == Insert(Sort(s), x)
  {
    assert (s + [x])[..|s|] == s;
  }

  lemma {:induction false} SortDescends(s: seq<int>)
    ensures Descending(Sort(s))
  {
    if s != [] {
      SortDescends(s[..|s| - 1]);
      InsertSorted(Sort(s[..|s| - 1]), s[|s| - 1]);
    }
  }

  lemma {:induction false} SortRearranges(s: seq<int>)
    ensures multiset(Sort(s)) == multiset(s)
  {
    if s != [] {
      var init, last := s[..|s| - 1], s[|s| - 1];
      SortRearranges(init);
      InsertAdds(Sort(init), last);
      assert s == init + [last];
    }
  }

  /** There is only one way to sort. */
  lemma {:induction false} SortedIsUnique(a: seq<int>, b: seq<int>)
    requires Descending(a) && Descending(b) && multiset(a) == multiset(b)
    ensures a == b
    decreases |a|
  {
    SameLength(a, b);
    if a != [] {
      HeadIsLargest(a, b);
      HeadIsLargest(b, a);
      DropHeads(a, b);
      SortedIsUnique(a[1..], b[1..]);
      assert a == [a[0]] + a[1..] && b == [b[0]] + b[1..];
    }
  }

  lemma HeadIsLargest(a: seq<int>, b: seq<int>)
    requires a != [] && b != [] && Descending(a) && multiset(a) == multiset(b)
    ensures b[0] <= a[0]
  {
    assert b[0] in multiset(a);
    DescendingMeaning(a);
  }

  /** Top2 keeps step with an insertion sort: it holds the first two of the sorted inputs. */
  lemma StepIsInsert(s: seq<int>, x: int)
    requires Descending(s)
    ensures Step(FirstTwo(s), x) == FirstTwo(Insert(s, x))
  {
    if |s| > 1 && x < s[0] {
      InsertSorted(s[1..], x);
    }
  }

  lemma {:induction false} FeedIsSortedPrefix(tels: seq<int>)
    ensures Feed(tels) == FirstTwo(Sort(tels))
  {
    if tels != [] {
      var init := tels[..|tels| - 1];
      FeedIsSortedPrefix(init);
      SortDescends(init);
      StepIsInsert(Sort(init), tels[|tels| - 1]);
    }
  }

  /** After any inputs Top2 holds the first two of them in descending order, repeated values included,
      whichever way they were sorted and in whichever order they came. */
  lemma Top2IsSortedPrefix(tels: seq<int>, sorted: seq<int>)
    requires (forall j, k | 0 <= j < k < |sorted| :: sorted[j] >= sorted[k]) && multiset(sorted) == multiset(tels)
    ensures Feed(tels) == FirstTwo(sorted)
  {
    FeedIsSortedPrefix(tels);
    SortDescends(tels);
    SortRearranges(tels);
    DescendingMeaning(sorted);
    SortedIsUnique(sorted, Sort(tels));
  }

  lemma Top2IgnoresOrder(a: seq<int>, b: seq<int>)
    requires multiset(a) == multiset(b)
    ensures Feed(a) == Feed(b)
  {
    SortDescends(a);
    SortRearranges(a);
    DescendingMeaning(Sort(a));
    Top2IsSortedPrefix(a, Sort(a));
    Top2IsSortedPrefix(b, Sort(a));
  }

  function UpToTwo(s: seq<int>): seq<int> {
    if |s| <= 2 then s else s[..2]
  }

  function NonZero(s: seq<int>): seq<int> {
    if s == [] then [] else if s[0] == 0 then NonZero(s[1..]) else [s[0]] + NonZero(s[1..])
  }

  /** emit_value gives the two largest inputs without the zeros among them, repetitions kept, largest first; so it
      gives the two largest exactly when neither of them is zero. */
  lemma EmitsTopTwoIff(tels: seq<int>)
    ensures var top := UpToTwo(Sort(tels));
            && Emitted(Feed(tels)) == NonZero(top)
            && (Emitted(Feed(tels)) == top <==> 0 !in top)
            && (forall x :: x in Emitted(Feed(tels)) <==> x != 0 && x in top)
  {
    FeedIsSortedPrefix(tels);
    EmittedFirstTwo(Sort(tels));
  }

  lemma EmittedFirstTwo(s: seq<int>)
    ensures var top := UpToTwo(s);
            && Emitted(FirstTwo(s)) == NonZero(top)
            && (Emitted(FirstTwo(s)) == top <==> 0 !in top)
            && (forall x :: x in Emitted(FirstTwo(s)) <==> x != 0 && x in top)
  {
    if |s| == 1 {
      assert UpToTwo(s) == [s[0]];
    } else if |s| > 1 {
      assert UpToTwo(s) == [s[0], s[1]] && [s[0], s[1]][1..] == [s[1]];
      assert NonZero([s[1]]) == Shown(Some(s[1]));
    }
  }

  /** The largest of -1 and 0 is not emitted. */
  lemma ZeroIsLeftOut()
    ensures Sort([-1, 0]) == [0, -1] && Emitted(Feed([-1, 0])) == [-1]
  {
    assert [-1, 0][..1] == [-1] && [-1][..0] == [];
    assert Sort([-1]) == [-1] && Feed([-1]) == Pair(Some(-1), None);
  }
}
