/** Sequences as lists of things: repetitions, elements, rearrangements. */
module Lists {

  predicate Distinct<T(==)>(s: seq<T>) {
    forall j, k | 0 <= j < k < |s| :: s[j] != s[k]
  }

  function Elems<T(==)>(s: seq<T>): set<T> {
    set x | x in s
  }

  /** Take an element out of both of two rearrangements of each other. */
  lemma Pick<T>(a: seq<T>, b: seq<T>) returns (k: nat)
    requires a != [] && multiset(a) == multiset(b)
    ensures k < |b| && b[k] == a[0]
    ensures multiset(a[1..]) == multiset(b[..k] + b[k + 1..])
  {
    assert a[0] in multiset(b);
    k :| 0 <= k < |b| && b[k] == a[0];
    assert a == [a[0]] + a[1..];
    assert b == b[..k] + ([b[k]] + b[k + 1..]);
    assert multiset(a) - multiset{a[0]} == multiset(a[1..]);
    assert multiset(b) - multiset{b[k]} == multiset(b[..k] + b[k + 1..]);
  }

  lemma SameLength<T>(a: seq<T>, b: seq<T>)
    requires multiset(a) == multiset(b)
    ensures |a| == |b|
  {
    assert |multiset(a)| == |multiset(b)|;
  }

  lemma DropHeads<T>(a: seq<T>, b: seq<T>)
    requires a != [] && b != [] && a[0] == b[0] && multiset(a) == multiset(b)
    ensures multiset(a[1..]) == multiset(b[1..])
  {
    assert a == [a[0]] + a[1..] && b == [b[0]] + b[1..];
    assert multiset(a) - multiset{a[0]} == multiset(a[1..]);
    assert multiset(b) - multiset{b[0]} == multiset(b[1..]);
  }

  /** The elements that pass, in order. */
  function Filter<T>(s: seq<T>, keep: T -> bool): seq<T> {
    if s == [] then [] else if keep(s[0]) then [s[0]] + Filter(s[1..], keep) else Filter(s[1..], keep)
  }

  /** r is s at the positions `at`, which ascend. */
  ghost predicate KeptAt<T>(s: seq<T>, r: seq<T>, at: seq<nat>) {
    && |at| == |r|
    && (forall j, k | 0 <= j < k < |at| :: at[j] < at[k])
    && (forall k | 0 <= k < |at| :: at[k] < |s| && r[k] == s[at[k]])
  }

  function OneLater(at: seq<nat>): (later: seq<nat>)
    ensures |later| == |at| && forall k | 0 <= k < |at| :: later[k] == at[k] + 1
  {
    seq(|at|, k requires 0 <= k < |at| => at[k] + 1)
  }

  lemma KeptLater<T>(s: seq<T>, r: seq<T>, at: seq<nat>)
    requires s != [] && KeptAt(s[1..], r, at)
    ensures KeptAt(s, r, OneLater(at)) && KeptAt(s, [s[0]] + r, [0] + OneLater(at))
    ensures forall j: nat :: j in OneLater(at) <==> j > 0 && j - 1 in at
  {
    var later := OneLater(at);
    forall j: nat
      ensures j in later <==> j > 0 && j - 1 in at
    {
      if j > 0 && j - 1 in at {
        var k :| 0 <= k < |at| && at[k] == j - 1;
        assert later[k] == j;
      }
    }
  }

  /** Exactly the positions whose elements pass are kept. */
  lemma {:induction false} FilterKeeps<T>(s: seq<T>, keep: T -> bool) returns (at: seq<nat>)
    ensures KeptAt(s, Filter(s, keep), at)
    ensures forall j | 0 <= j < |s| :: j in at <==> keep(s[j])
  {
    if s == [] {
      at := [];
    } else {
      var rest := FilterKeeps(s[1..], keep);
      KeptLater(s, Filter(s[1..], keep), rest);
      at := if keep(s[0]) then [0] + OneLater(rest) else OneLater(rest);
      forall j | 0 <= j < |s|
        ensures j in at <==> keep(s[j])
      {
        if j > 0 {
          assert s[j] == s[1..][j - 1];
        }
      }
    }
  }

  lemma {:induction false} FilterAll<T>(s: seq<T>, keep: T -> bool)
    requires forall x | x in s :: keep(x)
    ensures Filter(s, keep) == s
  {
    if s != [] {
      assert s[0] in s;
      FilterAll(s[1..], keep);
    }
  }

  lemma {:induction false} FilterOut<T>(before: seq<T>, x: T, behind: seq<T>, keep: T -> bool)
    requires !keep(x) && (forall y | y in before :: keep(y)) && (forall y | y in behind :: keep(y))
    ensures Filter(before + [x] + behind, keep) == before + behind
  {
    var all := before + [x] + behind;
    if before == [] {
      FilterAll(behind, keep);
      assert all == [x] + behind && all[1..] == behind;
    } else {
      assert before[0] in before && forall y | y in before[1..] :: y in before;
      FilterOut(before[1..], x, behind, keep);
      assert all[1..] == before[1..] + [x] + behind;
    }
  }

  /** And these positions leave no choice. */
  lemma KeptIsUnique<T>(s: seq<T>, r: seq<T>, at: seq<nat>, q: seq<T>, bt: seq<nat>)
    requires KeptAt(s, r, at) && KeptAt(s, q, bt)
    requires forall j :: j in at <==> j in bt
    ensures r == q
  {
    AscendingIsUnique(at, bt);
  }

  lemma {:induction false} AscendingIsUnique(a: seq<nat>, b: seq<nat>)
    requires forall j, k | 0 <= j < k < |a| :: a[j] < a[k]
    requires forall j, k | 0 <= j < k < |b| :: b[j] < b[k]
    requires forall j :: j in a <==> j in b
    ensures a == b
  {
    assert b != [] ==> b[0] in b;
    if a != [] {
      assert a[0] in b && b[0] in a;
      assert a[0] == b[0];
      forall j
        ensures j in a[1..] <==> j in b[1..]
      {
        assert j in a <==> j == a[0] || j in a[1..];
        assert j in b <==> j == b[0] || j in b[1..];
      }
      AscendingIsUnique(a[1..], b[1..]);
      assert a == [a[0]] + a[1..] && b == [b[0]] + b[1..];
    }
  }

  // ---------- counting positions ----------

  function Later(at: set<nat>): (later: set<nat>)
    ensures forall x: nat :: x in later <==> x > 0 && x - 1 in at
  {
    var later := set j: nat | j in at :: j + 1;
    assert forall j: nat | j in at :: j + 1 in later;
    assert forall x: nat | x > 0 && x - 1 in at :: x - 1 in at && x in later;
    later
  }

  lemma {:induction false} AsManyLater(at: set<nat>)
    ensures |Later(at)| == |at|
    decreases |at|
  {
    if at != {} {
      var k :| k in at;
      AsManyLater(at - {k});
      assert Later(at) == Later(at - {k}) + {k + 1};
    }
  }

  /** Positions in a sequence, from those in its tail. */
  lemma OnePositionMore(tail: set<nat>, all: set<nat>)
    requires forall j: nat | j > 0 :: j in all <==> j - 1 in tail
    ensures |all| == |tail| + if 0 in all then 1 else 0
  {
    AsManyLater(tail);
    assert all == (if 0 in all then {0} else {}) + Later(tail);
  }
}
