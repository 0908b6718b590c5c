/** gpu-discovery-common.sh: handing out GPU indexes through a shared file of "index pid" lines. */
module GpuCoordination {

  import opened Lists
  import opened Options

  /** A GPU index as nvidia-smi prints it. */
  type Index = s: string | 0 < |s| && forall k | 0 <= k < |s| :: '0' <= s[k] <= '9' witness "0"

  datatype Record = Record(index: Index, owner: nat)

  // ---------- the text of a line, and the two patterns matched against it ----------

  function Decimal(n: nat): (s: string)
    ensures 0 < |s| && forall k | 0 <= k < |s| :: '0' <= s[k] <= '9'
  {
    var digit := [('0' as int + n % 10) as char];
    if n < 10 then digit else Decimal(n / 10) + digit
  }

  function Line(r: Record): string {
    r.index + " " + Decimal(r.owner)
  }

  /** grep "^$i " */
  predicate Anchored(i: Index, r: Record) {
    i + " " <= Line(r)
  }

  predicate OccursAt(text: string, k: nat, pattern: string) {
    k + |pattern| <= |text| && text[k..k + |pattern|] == pattern
  }

  /** sed "/$i /d": the pattern may match anywhere in the line. */
  predicate Unanchored(i: Index, r: Record) {
    exists k | 0 <= k <= |Line(r)| :: OccursAt(Line(r), k, i + " ")
  }

  predicate EndsWith(s: string, suffix: string) {
    |suffix| <= |s| && s[|s| - |suffix|..] == suffix
  }

  lemma BlankPosition(r: Record, k: nat)
    requires k < |Line(r)|
    ensures Line(r)[k] == ' ' <==> k == |r.index|
  {
    assert Line(r) == r.index + [' '] + Decimal(r.owner);
    if k < |r.index| {
      assert Line(r)[k] == r.index[k];
    } else if k > |r.index| {
      assert Line(r)[k] == Decimal(r.owner)[k - |r.index| - 1];
    }
  }

  /** The anchored pattern finds exactly the records of that index. */
  lemma AnchoredIsSameIndex(i: Index, r: Record)
    ensures Anchored(i, r) <==> r.index == i
  {
    if Anchored(i, r) {
      assert Line(r)[|i|] == (i + " ")[|i|];
      BlankPosition(r, |i|);
      assert r.index == Line(r)[..|i|] == (i + " ")[..|i|] == i;
    }
  }

  /** The unanchored pattern also finds every record whose index merely ends in that index. */
  lemma UnanchoredIsSuffix(i: Index, r: Record)
    ensures Unanchored(i, r) <==> EndsWith(r.index, i)
  {
    var line := Line(r);
    if Unanchored(i, r) {
      var k :| 0 <= k <= |line| && OccursAt(line, k, i + " ");
      assert line[k + |i|] == (i + " ")[|i|];
      BlankPosition(r, k + |i|);
      assert r.index[k..] == line[k..k + |i| + 1][..|i|] == (i + " ")[..|i|] == i;
    }
    if EndsWith(r.index, i) {
      var k := |r.index| - |i|;
      assert line[k..k + |i| + 1] == r.index[k..] + [' '] == i + " ";
      assert OccursAt(line, k, i + " ");
    }
  }

  /** What a text of decimal digits says. */
  function DecimalValue(s: string): int {
    if s == "" then 0 else 10 * DecimalValue(s[..|s| - 1]) + (s[|s| - 1] as int - '0' as int)
  }

  lemma {:induction false} DecimalReads(n: nat)
    ensures DecimalValue(Decimal(n)) == n
  {
    var digit := [('0' as int + n % 10) as char];
    assert digit[..0] == "";
    if n >= 10 {
      DecimalReads(n / 10);
      assert (Decimal(n / 10) + digit)[..|Decimal(n / 10)|] == Decimal(n / 10);
    }
  }

  /** A line is the index, a blank and the decimal pid, so it says which record it is. */
  lemma LineSaysRecord(r: Record, q: Record)
    ensures Line(r) == r.index + " " + Decimal(r.owner) && DecimalValue(Decimal(r.owner)) == r.owner
    ensures Line(r) == Line(q) ==> r == q
  {
    DecimalReads(r.owner);
    DecimalReads(q.owner);
    if Line(r) == Line(q) {
      BlankPosition(r, |r.index|);
      BlankPosition(q, |r.index|);
      assert r.index == Line(r)[..|r.index|] && q.index == Line(q)[..|q.index|];
      assert Decimal(r.owner) == Line(r)[|r.index| + 1..] && Decimal(q.owner) == Line(q)[|q.index| + 1..];
    }
  }

  lemma EndsWithMeaning(s: string, suffix: string)
    ensures EndsWith(s, suffix) <==> exists front :: s == front + suffix
  {
    if EndsWith(s, suffix) {
      assert s == s[..|s| - |suffix|] + suffix;
    }
  }

  // ---------- the commands run on the file ----------

  function Matching(file: seq<Record>, i: Index): seq<Record> {
    if file == [] then []
    else if Anchored(i, file[0]) then [file[0]] + Matching(file[1..], i)
    else Matching(file[1..], i)
  }

  function SedDelete(file: seq<Record>, i: Index): seq<Record> {
    if file == [] then []
    else if Unanchored(i, file[0]) then SedDelete(file[1..], i)
    else [file[0]] + SedDelete(file[1..], i)
  }

  predicate Recorded(file: seq<Record>, i: Index) {
    Matching(file, i) != []
  }

  /** Line 60: the owner lookup yields one pid and ps does not know it. With no record the lookup is
      empty and with several it is several words; `[` then reports an error, which counts as false. */
  predicate Reclaimable(file: seq<Record>, i: Index, live: set<nat>) {
    var found := Matching(file, i);
    |found| == 1 && found[0].owner !in live
  }

  function Tag(taken: seq<Index>, parent: nat): (rs: seq<Record>)
    ensures |rs| == |taken|
    ensures forall k | 0 <= k < |rs| :: rs[k] == Record(taken[k], parent)
  {
    seq(|taken|, k requires 0 <= k < |taken| => Record(taken[k], parent))
  }

  lemma TagMembers(taken: seq<Index>, parent: nat)
    ensures forall r | r in Tag(taken, parent) :: r.owner == parent && r.index in taken
    ensures forall i | i in taken :: Record(i, parent) in Tag(taken, parent)
  {
    forall i | i in taken
      ensures Record(i, parent) in Tag(taken, parent)
    {
      var k :| 0 <= k < |taken| && taken[k] == i;
      assert Tag(taken, parent)[k] == Record(i, parent);
    }
  }

  // ---------- what the two loops and the final block compute ----------

  datatype Scanned = Scanned(taken: seq<Index>, recorded: seq<Index>)

  function Scan(file: seq<Record>, pool: seq<Index>, amount: int, acc: Scanned): Scanned
    decreases |pool|
  {
    if pool == [] || |acc.taken| == amount then acc
    else if Recorded(file, pool[0]) then
      Scan(file, pool[1..], amount, acc.(recorded := acc.recorded + [pool[0]]))
    else
      Scan(file, pool[1..], amount, acc.(taken := acc.taken + [pool[0]]))
  }

  datatype Reclaimed = Reclaimed(file: seq<Record>, taken: seq<Index>)

  function ReclaimOne(acc: Reclaimed, i: Index, live: set<nat>): Reclaimed {
    if Reclaimable(acc.file, i, live) then Reclaimed(SedDelete(acc.file, i), acc.taken + [i]) else acc
  }

  function Reclaim(acc: Reclaimed, todo: seq<Index>, amount: int, live: set<nat>): Reclaimed
    decreases |todo|
  {
    if todo == [] || |acc.taken| == amount then acc
    else Reclaim(ReclaimOne(acc, todo[0], live), todo[1..], amount, live)
  }

  datatype Allocation = Allocation(file: seq<Record>, granted: Option<seq<Index>>)

  function Commit(end: Reclaimed, amount: int, parent: nat): Allocation {
    if amount > |end.taken| then Allocation(end.file, None)
    else Allocation(end.file + Tag(end.taken, parent), Some(end.taken))
  }

  function Coordinate(file: seq<Record>, pool: seq<Index>, amount: int, parent: nat, live: set<nat>): Allocation {
    var scanned := Scan(file, pool, amount, Scanned([], []));
    Commit(Reclaim(Reclaimed(file, scanned.taken), scanned.recorded, amount, live), amount, parent)
  }

  /** non_coordination_allocate */
  function NonCoordinate(pool: seq<Index>, amount: nat): Option<seq<Index>> {
    var taken := if amount <= |pool| then pool[..amount] else pool;
    if amount > |taken| then None else Some(taken)
  }

  /** The file itself, edited in place by coordination_allocate. */
  class CoordinationFile {
    var records: seq<Record>

    constructor ()
      ensures records == []
    {
      records := [];
    }

    method CoordinationAllocate(pool: seq<Index>, amount: int, parent: nat, live: set<nat>)
      returns (granted: Option<seq<Index>>)
      modifies this
      ensures Allocation(records, granted) == Coordinate(old(records), pool, amount, parent, live)
      ensures Distinct(pool) && Clean(old(records), pool) ==>
                var available := Filter(pool, NoRecord(old(records))) + Filter(pool, DeadRecord(old(records), live));
                && (granted.Some? <==> amount <= |available|)
                && (granted.Some? ==> granted.value == if amount < 0 then available else available[..amount])
                && Filter(old(records), OwnedBy(live)) <= Filter(records, OwnedBy(live))
    {
      if Distinct(pool) && Clean(records, pool) {
        CoordinateTakes(records, pool, amount, parent, live);
        LiveRecordsSurvive(records, pool, amount, parent, live);
      }
      var toOccupy, recordedIndexes := ScanPool(pool, amount);
      toOccupy := ReclaimFrom(toOccupy, recordedIndexes, amount, live);
      if amount > |toOccupy| {
        return None;
      }
      AppendRecords(toOccupy, parent);
      granted := Some(toOccupy);
    }

    /** Lines 42-52. */
    method ScanPool(pool: seq<Index>, amount: int) returns (toOccupy: seq<Index>, recordedIndexes: seq<Index>)
      ensures Scanned(toOccupy, recordedIndexes) == Scan(records, pool, amount, Scanned([], []))
    {
      toOccupy, recordedIndexes := [], [];
      var n := 0;
      while n < |pool| && |toOccupy| != amount
        invariant n <= |pool|
        invariant Scan(records, pool[n..], amount, Scanned(toOccupy, recordedIndexes))
               == Scan(records, pool, amount, Scanned([], []))
      {
        var i := pool[n];
        assert pool[n..][1..] == pool[n + 1..];
        if Recorded(records, i) {
          recordedIndexes := recordedIndexes + [i];
        } else {
          toOccupy := toOccupy + [i];
        }
        n := n + 1;
      }
    }

    /** Lines 54-66. */
    method ReclaimFrom(taken: seq<Index>, recordedIndexes: seq<Index>, amount: int, live: set<nat>)
      returns (toOccupy: seq<Index>)
      modifies this
      ensures Reclaimed(records, toOccupy) == Reclaim(Reclaimed(old(records), taken), recordedIndexes, amount, live)
    {
      toOccupy := taken;
      var n := 0;
      while n < |recordedIndexes| && |toOccupy| != amount
        invariant n <= |recordedIndexes|
        invariant Reclaim(Reclaimed(records, toOccupy), recordedIndexes[n..], amount, live)
               == Reclaim(Reclaimed(old(records), taken), recordedIndexes, amount, live)
      {
        var i := recordedIndexes[n];
        assert recordedIndexes[n..][1..] == recordedIndexes[n + 1..];
        if Reclaimable(records, i, live) {
          records := SedDelete(records, i);
          toOccupy := toOccupy + [i];
        }
        n := n + 1;
      }
    }

    /** Lines 73-76. */
    method AppendRecords(taken: seq<Index>, parent: nat)
      modifies this
      ensures records == old(records) + Tag(taken, parent)
    {
      var n := 0;
      while n < |taken|
        invariant n <= |taken|
        invariant records == old(records) + Tag(taken, parent)[..n]
      {
        records := records + [Record(taken[n], parent)];
        n := n + 1;
      }
    }
  }

  // ---------- the one-line specification ----------

  /** No other recorded index ends in an index of the pool: then line 62 deletes only what it means to. */
  ghost predicate Clean(file: seq<Record>, pool: seq<Index>) {
    forall r, i | r in file && i in pool && EndsWith(r.index, i) :: r.index == i
  }

  function Unrecorded(file: seq<Record>, pool: seq<Index>): seq<Index> {
    if pool == [] then []
    else if Recorded(file, pool[0]) then Unrecorded(file, pool[1..])
    else [pool[0]] + Unrecorded(file, pool[1..])
  }

  function RecordedOnes(file: seq<Record>, pool: seq<Index>): seq<Index> {
    if pool == [] then []
    else if Recorded(file, pool[0]) then [pool[0]] + RecordedOnes(file, pool[1..])
    else RecordedOnes(file, pool[1..])
  }

  function Dead(file: seq<Record>, pool: seq<Index>, live: set<nat>): seq<Index> {
    if pool == [] then []
    else if Reclaimable(file, pool[0], live) then [pool[0]] + Dead(file, pool[1..], live)
    else Dead(file, pool[1..], live)
  }

  /** The first `amount` elements if there are that many, otherwise (and for a negative amount) all. */
  function UpTo<T>(s: seq<T>, amount: int): seq<T> {
    if 0 <= amount <= |s| then s[..amount] else s
  }

  function Without(file: seq<Record>, gone: set<Index>): seq<Record> {
    if file == [] then []
    else if file[0].index in gone then Without(file[1..], gone)
    else [file[0]] + Without(file[1..], gone)
  }

  function LiveOnly(file: seq<Record>, live: set<nat>): seq<Record> {
    if file == [] then []
    else if file[0].owner in live then [file[0]] + LiveOnly(file[1..], live)
    else LiveOnly(file[1..], live)
  }

  // ---------- the same, as conditions on one index or record ----------

  /** No record of the file has this index. */
  ghost function NoRecord(file: seq<Record>): Index -> bool {
    (i: Index) => forall k | 0 <= k < |file| :: file[k].index != i
  }

  /** Exactly one record of the file has this index, and its owner is not running. */
  ghost function DeadRecord(file: seq<Record>, live: set<nat>): Index -> bool {
    (i: Index) => exists k :: 0 <= k < |file| && file[k].index == i && file[k].owner !in live
                              && forall j | 0 <= j < |file| && j != k :: file[j].index != i
  }

  ghost function OwnedBy(live: set<nat>): Record -> bool {
    (r: Record) => r.owner in live
  }

  ghost function IndexNotIn(gone: set<Index>): Record -> bool {
    (r: Record) => r.index !in gone
  }

  ghost function IndexNotEndingIn(i: Index): Record -> bool {
    (r: Record) => !EndsWith(r.index, i)
  }

  lemma {:induction false} MatchingPosition(file: seq<Record>, i: Index, k: nat)
    requires k < |file| && file[k].index == i
    ensures Matching(file, i) != []
    ensures |Matching(file, i)| == 1 ==> Matching(file, i)[0] == file[k]
    ensures |Matching(file, i)| == 1 <==> forall j | 0 <= j < |file| && j != k :: file[j].index != i
  {
    AnchoredIsSameIndex(i, file[0]);
    var rest := file[1..];
    if k > 0 {
      MatchingPosition(rest, i, k - 1);
      assert file[0] == file[0] && forall j | 1 <= j < |file| :: file[j] == rest[j - 1];
      assert forall j | 0 <= j < |rest| :: rest[j] == file[j + 1];
    } else {
      MatchingMembers(rest, i);
      assert forall j | 1 <= j < |file| :: file[j] == rest[j - 1] && file[j] in rest;
      if Matching(rest, i) != [] {
        assert Matching(rest, i)[0] in rest;
        var j :| 0 <= j < |rest| && rest[j] == Matching(rest, i)[0];
        assert file[j + 1].index == i;
      }
    }
  }

  /** An index can be reclaimed exactly when one record has it, and only one, whose owner is not running. */
  lemma ReclaimableIff(file: seq<Record>, i: Index, live: set<nat>)
    ensures Reclaimable(file, i, live)
       <==> exists k :: 0 <= k < |file| && file[k].index == i && file[k].owner !in live
                        && forall j | 0 <= j < |file| && j != k :: file[j].index != i
  {
    MatchingMembers(file, i);
    if Reclaimable(file, i, live) {
      assert Matching(file, i)[0] in file;
      var k :| 0 <= k < |file| && file[k] == Matching(file, i)[0];
      MatchingPosition(file, i, k);
    }
    if k :| 0 <= k < |file| && file[k].index == i && file[k].owner !in live
            && forall j | 0 <= j < |file| && j != k :: file[j].index != i {
      MatchingPosition(file, i, k);
    }
  }

  lemma {:induction false} UnrecordedIsFilter(file: seq<Record>, pool: seq<Index>)
    ensures Unrecorded(file, pool) == Filter(pool, NoRecord(file))
  {
    if pool != [] {
      UnrecordedIsFilter(file, pool[1..]);
      RecordedMeaning(file, pool[0]);
    }
  }

  /** The dead indexes are those of the pool with a single record, of an owner that is not running, in order. */
  lemma {:induction false} DeadIsFilter(file: seq<Record>, pool: seq<Index>, live: set<nat>)
    ensures Dead(file, pool, live) == Filter(pool, DeadRecord(file, live))
  {
    if pool != [] {
      DeadIsFilter(file, pool[1..], live);
      ReclaimableIff(file, pool[0], live);
    }
  }

  lemma {:induction false} LiveOnlyIsFilter(file: seq<Record>, live: set<nat>)
    ensures LiveOnly(file, live) == Filter(file, OwnedBy(live))
  {
    if file != [] {
      LiveOnlyIsFilter(file[1..], live);
    }
  }

  lemma {:induction false} WithoutIsFilter(file: seq<Record>, gone: set<Index>)
    ensures Without(file, gone) == Filter(file, IndexNotIn(gone))
  {
    if file != [] {
      WithoutIsFilter(file[1..], gone);
    }
  }

  lemma {:induction false} SedDeleteIsFilter(file: seq<Record>, i: Index)
    ensures SedDelete(file, i) == Filter(file, IndexNotEndingIn(i))
  {
    if file != [] {
      SedDeleteIsFilter(file[1..], i);
      UnanchoredIsSuffix(i, file[0]);
    }
  }

  /** One round of the second loop, on any file: an index with a single record of a dead owner is taken, and every
      record whose index ends in it goes; otherwise nothing happens. */
  lemma RoundMeaning(acc: Reclaimed, i: Index, live: set<nat>)
    ensures ReclaimOne(acc, i, live)
         == if DeadRecord(acc.file, live)(i) then Reclaimed(Filter(acc.file, IndexNotEndingIn(i)), acc.taken + [i])
            else acc
  {
    ReclaimableIff(acc.file, i, live);
    SedDeleteIsFilter(acc.file, i);
  }

  // ---------- membership facts ----------

  lemma {:induction false} MatchingMembers(file: seq<Record>, i: Index)
    ensures forall r :: r in Matching(file, i) <==> r in file && r.index == i
  {
    if file != [] {
      MatchingMembers(file[1..], i);
      AnchoredIsSameIndex(i, file[0]);
      assert file == [file[0]] + file[1..];
    }
  }

  lemma RecordedMeaning(file: seq<Record>, i: Index)
    ensures Recorded(file, i) <==> exists r :: r in file && r.index == i
  {
    MatchingMembers(file, i);
    if Recorded(file, i) {
      assert Matching(file, i)[0] in Matching(file, i);
    }
  }

  lemma {:induction false} SedDeleteMembers(file: seq<Record>, i: Index)
    ensures forall r :: r in SedDelete(file, i) <==> r in file && !EndsWith(r.index, i)
  {
    if file != [] {
      SedDeleteMembers(file[1..], i);
      UnanchoredIsSuffix(i, file[0]);
      assert file == [file[0]] + file[1..];
    }
  }

  lemma {:induction false} WithoutMembers(file: seq<Record>, gone: set<Index>)
    ensures forall r :: r in Without(file, gone) <==> r in file && r.index !in gone
  {
    if file != [] {
      WithoutMembers(file[1..], gone);
      assert file == [file[0]] + file[1..];
    }
  }

  /** Line 62 deletes exactly the records of index i if and only if no other recorded index ends in i. */
  lemma SedDeleteExact(file: seq<Record>, i: Index)
    ensures SedDelete(file, i) == Without(file, {i})
       <==> forall r | r in file && EndsWith(r.index, i) :: r.index == i
  {
    SedDeleteMembers(file, i);
    WithoutMembers(file, {i});
    if forall r | r in file && EndsWith(r.index, i) :: r.index == i {
      SedDeleteIsWithout(file, i);
    }
  }

  lemma {:induction false} SedDeleteIsWithout(file: seq<Record>, i: Index)
    requires forall r | r in file && EndsWith(r.index, i) :: r.index == i
    ensures SedDelete(file, i) == Without(file, {i})
  {
    if file != [] {
      SedDeleteIsWithout(file[1..], i);
      UnanchoredIsSuffix(i, file[0]);
      assert file[0] in file;
    }
  }

  lemma {:induction false} MatchingAfterWithout(file: seq<Record>, gone: set<Index>, i: Index)
    ensures Matching(Without(file, gone), i) == if i in gone then [] else Matching(file, i)
  {
    if file != [] {
      MatchingAfterWithout(file[1..], gone, i);
      AnchoredIsSameIndex(i, file[0]);
      if file[0].index !in gone {
        var rest := Without(file[1..], gone);
        assert Without(file, gone)[1..] == rest;
      }
    }
  }

  lemma {:induction false} WithoutTwice(file: seq<Record>, a: set<Index>, b: set<Index>)
    ensures Without(Without(file, a), b) == Without(file, a + b)
  {
    if file != [] {
      WithoutTwice(file[1..], a, b);
      if file[0].index !in a {
        assert Without(file, a)[1..] == Without(file[1..], a);
      }
    }
  }

  lemma {:induction false} WithoutNothing(file: seq<Record>)
    ensures Without(file, {}) == file
  {
    if file != [] {
      WithoutNothing(file[1..]);
    }
  }

  // ---------- the first loop ----------

  lemma TakeNext(taken: seq<Index>, first: Index, rest: seq<Index>, amount: int)
    requires |taken| != amount
    ensures taken + UpTo([first] + rest, amount - |taken|) == taken + [first] + UpTo(rest, amount - |taken + [first]|)
  {
    UpToFirst(first, rest, amount - |taken|);
  }

  /** The unrecorded indexes are taken first, in pool order. */
  lemma {:induction false} ScanTakes(file: seq<Record>, pool: seq<Index>, amount: int, acc: Scanned)
    requires amount < 0 || |acc.taken| <= amount
    ensures Scan(file, pool, amount, acc).taken
         == acc.taken + UpTo(Unrecorded(file, pool), amount - |acc.taken|)
    decreases |pool|
  {
    if pool != [] && |acc.taken| != amount {
      if Recorded(file, pool[0]) {
        ScanTakes(file, pool[1..], amount, acc.(recorded := acc.recorded + [pool[0]]));
      } else {
        ScanTakes(file, pool[1..], amount, acc.(taken := acc.taken + [pool[0]]));
        TakeNext(acc.taken, pool[0], Unrecorded(file, pool[1..]), amount);
      }
    }
  }

  /** If that is not enough, all recorded ones have been noted. */
  lemma {:induction false} ScanRecords(file: seq<Record>, pool: seq<Index>, amount: int, acc: Scanned)
    requires |Scan(file, pool, amount, acc).taken| != amount
    ensures Scan(file, pool, amount, acc).recorded == acc.recorded + RecordedOnes(file, pool)
    decreases |pool|
  {
    if pool != [] && |acc.taken| != amount {
      if Recorded(file, pool[0]) {
        ScanRecords(file, pool[1..], amount, acc.(recorded := acc.recorded + [pool[0]]));
        assert acc.recorded + ([pool[0]] + RecordedOnes(file, pool[1..]))
            == acc.recorded + [pool[0]] + RecordedOnes(file, pool[1..]);
      } else {
        ScanRecords(file, pool[1..], amount, acc.(taken := acc.taken + [pool[0]]));
      }
    }
  }

  lemma ScanClosed(file: seq<Record>, pool: seq<Index>, amount: int, acc: Scanned)
    requires amount < 0 || |acc.taken| <= amount
    ensures var s := Scan(file, pool, amount, acc);
            && s.taken == acc.taken + UpTo(Unrecorded(file, pool), amount - |acc.taken|)
            && (|s.taken| != amount ==> s.recorded == acc.recorded + RecordedOnes(file, pool))
  {
    ScanTakes(file, pool, amount, acc);
    if |Scan(file, pool, amount, acc).taken| != amount {
      ScanRecords(file, pool, amount, acc);
    }
  }

  lemma {:induction false} RecordedOnesMembers(file: seq<Record>, pool: seq<Index>)
    ensures forall i :: i in RecordedOnes(file, pool) <==> i in pool && Recorded(file, i)
    ensures Distinct(pool) ==> Distinct(RecordedOnes(file, pool))
  {
    if pool != [] {
      RecordedOnesMembers(file, pool[1..]);
      assert pool == [pool[0]] + pool[1..];
      if Distinct(pool) {
        assert pool[0] !in pool[1..];
      }
    }
  }

  lemma {:induction false} UnrecordedMembers(file: seq<Record>, pool: seq<Index>)
    ensures forall i :: i in Unrecorded(file, pool) <==> i in pool && !Recorded(file, i)
  {
    if pool != [] {
      UnrecordedMembers(file, pool[1..]);
      assert pool == [pool[0]] + pool[1..];
    }
  }

  /** Dead indexes are recorded, so leaving out the unrecorded ones first changes nothing. */
  lemma {:induction false} DeadAmongRecorded(file: seq<Record>, pool: seq<Index>, live: set<nat>)
    ensures Dead(file, RecordedOnes(file, pool), live) == Dead(file, pool, live)
  {
    if pool != [] {
      DeadAmongRecorded(file, pool[1..], live);
      if Recorded(file, pool[0]) {
        assert RecordedOnes(file, pool)[1..] == RecordedOnes(file, pool[1..]);
      }
    }
  }

  // ---------- the second loop ----------

  lemma {:induction false} DeadAfterWithout(file: seq<Record>, gone: set<Index>, todo: seq<Index>, live: set<nat>)
    requires forall i | i in todo :: i !in gone
    ensures Dead(Without(file, gone), todo, live) == Dead(file, todo, live)
  {
    if todo != [] {
      DeadAfterWithout(file, gone, todo[1..], live);
      MatchingAfterWithout(file, gone, todo[0]);
    }
  }

  /** What the loop still does after it has reclaimed i, seen from before. */
  lemma ReclaimedFirst(file: seq<Record>, i: Index, rest: seq<Index>, live: set<nat>, later: seq<Index>)
    requires Clean(file, [i]) && i !in rest
    ensures SedDelete(file, i) == Without(file, {i})
    ensures Dead(SedDelete(file, i), rest, live) == Dead(file, rest, live)
    ensures Without(SedDelete(file, i), Elems(later)) == Without(file, Elems([i] + later))
  {
    assert i in [i];
    SedDeleteIsWithout(file, i);
    DeadAfterWithout(file, {i}, rest, live);
    WithoutTwice(file, {i}, Elems(later));
    assert {i} + Elems(later) == Elems([i] + later);
  }

  lemma CleanParts(file: seq<Record>, todo: seq<Index>)
    requires todo != [] && Clean(file, todo)
    ensures Clean(file, [todo[0]]) && Clean(file, todo[1..]) && Clean(SedDelete(file, todo[0]), todo[1..])
  {
    SedDeleteMembers(file, todo[0]);
    assert todo[0] in todo;
    assert forall x | x in todo[1..] :: x in todo;
  }

  lemma UpToFirst<T>(first: T, rest: seq<T>, amount: int)
    requires amount != 0
    ensures UpTo([first] + rest, amount) == [first] + UpTo(rest, amount - 1)
  {
  }

  lemma TakenThen<T>(taken: seq<T>, first: T, rest: seq<T>, amount: int)
    requires |taken| != amount
    ensures taken + [first] + UpTo(rest, amount - (|taken| + 1)) == taken + UpTo([first] + rest, amount - |taken|)
  {
    UpToFirst(first, rest, amount - |taken|);
  }

  lemma WithoutThen(file: seq<Record>, i: Index, rest: seq<Index>, room: int, live: set<nat>)
    requires Clean(file, [i]) && i !in rest && room != 0
    ensures var dead := Dead(file, rest, live);
            && Dead(SedDelete(file, i), rest, live) == dead
            && Without(SedDelete(file, i), Elems(UpTo(dead, room - 1))) == Without(file, Elems(UpTo([i] + dead, room)))
  {
    var dead := Dead(file, rest, live);
    ReclaimedFirst(file, i, rest, live, UpTo(dead, room - 1));
    UpToFirst(i, dead, room);
  }

  /** Where the second loop ends: as many of the dead indexes are reclaimed as are wanted. */
  function Closed(acc: Reclaimed, todo: seq<Index>, amount: int, live: set<nat>): Reclaimed {
    var got := UpTo(Dead(acc.file, todo, live), amount - |acc.taken|);
    Reclaimed(Without(acc.file, Elems(got)), acc.taken + got)
  }

  lemma ReclaimIsDone(acc: Reclaimed, todo: seq<Index>, amount: int, live: set<nat>)
    requires todo == [] || |acc.taken| == amount
    ensures Closed(acc, todo, amount, live) == acc
  {
    WithoutNothing(acc.file);
    assert UpTo(Dead(acc.file, todo, live), amount - |acc.taken|) == [];
    assert Elems<Index>([]) == {};
  }

  lemma ReclaimStep(acc: Reclaimed, todo: seq<Index>, amount: int, live: set<nat>)
    requires todo != [] && |acc.taken| != amount
    requires Distinct(todo) && Clean(acc.file, [todo[0]])
    ensures Closed(ReclaimOne(acc, todo[0], live), todo[1..], amount, live) == Closed(acc, todo, amount, live)
  {
    if Reclaimable(acc.file, todo[0], live) {
      ReclaimedStep(acc, todo[0], todo[1..], amount, live);
    }
  }

  lemma ReclaimedStep(acc: Reclaimed, i: Index, rest: seq<Index>, amount: int, live: set<nat>)
    requires |acc.taken| != amount && i !in rest && Clean(acc.file, [i])
    ensures var got := UpTo([i] + Dead(acc.file, rest, live), amount - |acc.taken|);
            Closed(Reclaimed(SedDelete(acc.file, i), acc.taken + [i]), rest, amount, live)
            == Reclaimed(Without(acc.file, Elems(got)), acc.taken + got)
  {
    var dead, room := Dead(acc.file, rest, live), amount - |acc.taken|;
    WithoutThen(acc.file, i, rest, room, live);
    TakenThen(acc.taken, i, dead, amount);
    var next := Reclaimed(SedDelete(acc.file, i), acc.taken + [i]);
    assert amount - |next.taken| == room - 1;
    assert Closed(next, rest, amount, live).taken == next.taken + UpTo(dead, room - 1);
  }

  lemma {:induction false} ReclaimClosed(acc: Reclaimed, todo: seq<Index>, amount: int, live: set<nat>)
    requires amount < 0 || |acc.taken| <= amount
    requires Distinct(todo) && Clean(acc.file, todo)
    ensures Reclaim(acc, todo, amount, live) == Closed(acc, todo, amount, live)
    decreases |todo|
  {
    if todo == [] || |acc.taken| == amount {
      ReclaimIsDone(acc, todo, amount, live);
    } else {
      CleanParts(acc.file, todo);
      ReclaimStep(acc, todo, amount, live);
      ReclaimClosed(ReclaimOne(acc, todo[0], live), todo[1..], amount, live);
    }
  }

  // ---------- main results on one call ----------

  /** Indexes the call reclaims, in order. */
  function Reclaims(file: seq<Record>, pool: seq<Index>, amount: int, live: set<nat>): seq<Index> {
    var free := Unrecorded(file, pool);
    if 0 <= amount <= |free| then [] else UpTo(Dead(file, pool, live), amount - |free|)
  }

  lemma EndOfLoops(file: seq<Record>, pool: seq<Index>, amount: int, live: set<nat>)
    requires Distinct(pool) && Clean(file, pool)
    ensures var scanned := Scan(file, pool, amount, Scanned([], []));
            var reclaims := Reclaims(file, pool, amount, live);
            Reclaim(Reclaimed(file, scanned.taken), scanned.recorded, amount, live)
            == Reclaimed(Without(file, Elems(reclaims)), UpTo(Unrecorded(file, pool), amount) + reclaims)
  {
    var scanned := Scan(file, pool, amount, Scanned([], []));
    ScanClosed(file, pool, amount, Scanned([], []));
    RecordedOnesMembers(file, pool);
    assert scanned.taken == UpTo(Unrecorded(file, pool), amount);
    if |scanned.taken| == amount {
      WithoutNothing(file);
      assert Elems<Index>([]) == {};
    } else {
      assert scanned.recorded == RecordedOnes(file, pool);
      ReclaimClosed(Reclaimed(file, scanned.taken), RecordedOnes(file, pool), amount, live);
      DeadAmongRecorded(file, pool, live);
    }
  }

  /** The two loops are "take `amount` from the unrecorded indexes followed by the dead ones". */
  lemma CoordinateRefinesTake(file: seq<Record>, pool: seq<Index>, amount: int, parent: nat, live: set<nat>)
    requires Distinct(pool) && Clean(file, pool)
    ensures var available := Unrecorded(file, pool) + Dead(file, pool, live);
            var reclaims := Reclaims(file, pool, amount, live);
            var result := Coordinate(file, pool, amount, parent, live);
            && (result.granted.Some? <==> amount <= |available|)
            && (result.granted.Some? ==> result.granted.value == UpTo(available, amount))
            && (0 <= amount <= |available| ==>
                  |reclaims| == if amount <= |Unrecorded(file, pool)| then 0 else amount - |Unrecorded(file, pool)|)
            && result.file == Without(file, Elems(reclaims))
                              + (if result.granted.Some? then Tag(result.granted.value, parent) else [])
  {
    EndOfLoops(file, pool, amount, live);
  }

  /** In terms of the records themselves: the call takes from the indexes without a record and then from those
      whose only record has a dead owner, each in pool order; it grants exactly if there are enough; it deletes
      the records of what it has taken of the latter, and adds one for each index it grants. */
  lemma CoordinateTakes(file: seq<Record>, pool: seq<Index>, amount: int, parent: nat, live: set<nat>)
    requires Distinct(pool) && Clean(file, pool)
    ensures var free, dead := Filter(pool, NoRecord(file)), Filter(pool, DeadRecord(file, live));
            var result := Coordinate(file, pool, amount, parent, live);
            var taken := if 0 <= amount <= |free + dead| then (free + dead)[..amount] else free + dead;
            && (result.granted.Some? <==> amount <= |free + dead|)
            && (result.granted.Some? ==> result.granted.value == taken)
            && result.file == Filter(file, IndexNotIn(Elems(if |free| <= |taken| then taken[|free|..] else [])))
                              + (if result.granted.Some? then Tag(taken, parent) else [])
  {
    CoordinateRefinesTake(file, pool, amount, parent, live);
    UnrecordedIsFilter(file, pool);
    DeadIsFilter(file, pool, live);
    var free, dead := Unrecorded(file, pool), Dead(file, pool, live);
    var taken := UpTo(free + dead, amount);
    assert Reclaims(file, pool, amount, live) == if |free| <= |taken| then taken[|free|..] else [];
    WithoutIsFilter(file, Elems(Reclaims(file, pool, amount, live)));
  }

  lemma {:induction false} LiveOnlyConcat(a: seq<Record>, b: seq<Record>, live: set<nat>)
    ensures LiveOnly(a + b, live) == LiveOnly(a, live) + LiveOnly(b, live)
  {
    if a == [] {
      assert a + b == b;
    } else {
      LiveOnlyConcat(a[1..], b, live);
      assert (a + b)[1..] == a[1..] + b;
    }
  }

  lemma {:induction false} LiveOnlyWithout(file: seq<Record>, gone: set<Index>, live: set<nat>)
    requires forall r | r in file && r.index in gone :: r.owner !in live
    ensures LiveOnly(Without(file, gone), live) == LiveOnly(file, live)
  {
    if file != [] {
      LiveOnlyWithout(file[1..], gone, live);
      assert file[0] in file;
      if file[0].index !in gone {
        assert Without(file, gone)[1..] == Without(file[1..], gone);
      }
    }
  }

  lemma {:induction false} DeadOwnersAreDead(file: seq<Record>, pool: seq<Index>, live: set<nat>)
    ensures forall r | r in file && r.index in Dead(file, pool, live) :: r.owner !in live
  {
    if pool != [] {
      DeadOwnersAreDead(file, pool[1..], live);
      MatchingMembers(file, pool[0]);
    }
  }

  /** Granted or refused, the records of live owners stay, in order; only the new ones are added. */
  lemma LiveRecordsSurvive(file: seq<Record>, pool: seq<Index>, amount: int, parent: nat, live: set<nat>)
    requires Distinct(pool) && Clean(file, pool)
    ensures var result := Coordinate(file, pool, amount, parent, live);
            Filter(result.file, OwnedBy(live)) == Filter(file, OwnedBy(live))
              + (if result.granted.Some? && parent in live then Tag(result.granted.value, parent) else [])
  {
    LiveOnlyIsFilter(file, live);
    LiveOnlyIsFilter(Coordinate(file, pool, amount, parent, live).file, live);
    CoordinateRefinesTake(file, pool, amount, parent, live);
    var reclaims := Reclaims(file, pool, amount, live);
    var result := Coordinate(file, pool, amount, parent, live);
    DeadOwnersAreDead(file, pool, live);
    LiveOnlyWithout(file, Elems(reclaims), live);
    var added := if result.granted.Some? then Tag(result.granted.value, parent) else [];
    LiveOnlyConcat(Without(file, Elems(reclaims)), added, live);
    LiveOnlyTagged(added, parent, live);
  }

  lemma {:induction false} LiveOnlyTagged(rs: seq<Record>, parent: nat, live: set<nat>)
    requires forall r | r in rs :: r.owner == parent
    ensures LiveOnly(rs, live) == if parent in live then rs else []
  {
    if rs != [] {
      LiveOnlyTagged(rs[1..], parent, live);
      assert rs[0] in rs && rs == [rs[0]] + rs[1..];
    }
  }

  lemma {:induction false} NothingRecorded(pool: seq<Index>)
    ensures Unrecorded([], pool) == pool
  {
    if pool != [] {
      NothingRecorded(pool[1..]);
    }
  }

  lemma {:induction false} NothingToReclaim(pool: seq<Index>)
    ensures RecordedOnes([], pool) == []
  {
    if pool != [] {
      NothingToReclaim(pool[1..]);
    }
  }

  /** With an empty file the coordinating form grants, and refuses, exactly as the plain one. */
  lemma EmptyFileAgrees(pool: seq<Index>, amount: nat, parent: nat, live: set<nat>)
    ensures Coordinate([], pool, amount, parent, live).granted == NonCoordinate(pool, amount)
  {
    ScanClosed([], pool, amount, Scanned([], []));
    NothingRecorded(pool);
    NothingToReclaim(pool);
    assert Scan([], pool, amount, Scanned([], [])).taken == UpTo(pool, amount);
  }
}
