/** config.sh: building the class path and looking up a configuration value. */
module ClassPath {

  import opened Lists
  import opened Text

  /** [[ $jar =~ .*\/flink-dist[^\/]*.jar$ ]]; the dot before jar stands for any character. */
  predicate IsDist(jar: string) {
    exists k | 0 <= k <= |jar| :: DistFrom(jar, k)
  }

  predicate DistFrom(jar: string, k: nat)
    requires k <= |jar|
  {
    var tail := jar[k..];
    && 15 <= |tail| && tail[..11] == "/flink-dist"
    && tail[|tail| - 3..] == "jar"
    && '/' !in tail[11..|tail| - 4]
  }

  function DistJars(jars: seq<string>): seq<string> {
    if jars == [] then []
    else if IsDist(jars[0]) then [jars[0]] + DistJars(jars[1..])
    else DistJars(jars[1..])
  }

  function OtherJars(jars: seq<string>): seq<string> {
    if jars == [] then []
    else if IsDist(jars[0]) then OtherJars(jars[1..])
    else [jars[0]] + OtherJars(jars[1..])
  }

  /** Line 26 for each jar: a colon in front of every one. */
  function AppendDist(dist: string, jar: string): string {
    dist + ":" + jar
  }

  /** Lines 27-31: a colon between them. */
  function AppendOther(path: string, jar: string): string {
    if path == "" then jar else path + ":" + jar
  }

  /** The non-empty parts between colons: tr ':' '\n' and grep -v '^$', or a class path read by Java. */
  function Parts(s: string): seq<string>
    decreases |s|
  {
    if s == "" then []
    else if s[0] == ':' then Parts(s[1..])
    else
      SomethingBefore(s, ':');
      [Before(s, ':')] + Parts(s[|Before(s, ':')|..])
  }

  datatype Result = ClassPath(path: string) | NoDist | ManyDist

  function Constructed(jars: seq<string>): Result {
    if DistJars(jars) == [] then NoDist
    else if |Parts(Dists("", DistJars(jars)))| > 1 then ManyDist
    else ClassPath(Others("", OtherJars(jars)) + Dists("", DistJars(jars)))
  }

  method ConstructFlinkClassPath(jars: seq<string>) returns (r: Result)
    ensures r == Constructed(jars)
    ensures r.NoDist? <==> forall k | 0 <= k < |jars| :: !IsDist(jars[k])
    ensures r.ManyDist? <==> |DistJars(jars)| > 1 || (|DistJars(jars)| == 1 && InnerColon(DistJars(jars)[0]))
    ensures (forall k | 0 <= k < |jars| :: Plain(jars[k])) ==>
              && (r.NoDist? <==> |DistJars(jars)| == 0)
              && (r.ManyDist? <==> |DistJars(jars)| > 1)
              && (r.ClassPath? ==> Parts(r.path) == OtherJars(jars) + DistJars(jars))
  {
    RejectedIff(jars);
    if forall k | 0 <= k < |jars| :: Plain(jars[k]) {
      ClassPathSplitsBack(jars);
    }
    var dist, path, n := "", "", 0;
    while n < |jars|
      invariant n <= |jars|
      invariant Dists(dist, DistJars(jars[n..])) == Dists("", DistJars(jars))
      invariant Others(path, OtherJars(jars[n..])) == Others("", OtherJars(jars))
    {
      var jar := jars[n];
      assert jars[n..][1..] == jars[n + 1..];
      if IsDist(jar) {
        assert DistJars(jars[n..])[1..] == DistJars(jars[n + 1..]);
        dist := AppendDist(dist, jar);
      } else {
        assert OtherJars(jars[n..])[1..] == OtherJars(jars[n + 1..]);
        path := AppendOther(path, jar);
      }
      n := n + 1;
    }
    assert jars[n..] == [];
    DistsEmptyIff(DistJars(jars));
    if dist == "" {
      return NoDist;
    }
    if |Parts(dist)| > 1 {
      return ManyDist;
    }
    return ClassPath(path + dist);
  }

  function Dists(acc: string, jars: seq<string>): string
    decreases |jars|
  {
    if jars == [] then acc else Dists(AppendDist(acc, jars[0]), jars[1..])
  }

  function Others(acc: string, jars: seq<string>): string
    decreases |jars|
  {
    if jars == [] then acc else Others(AppendOther(acc, jars[0]), jars[1..])
  }

  lemma {:induction false} DistsGrow(acc: string, jars: seq<string>)
    ensures |Dists(acc, jars)| >= |acc| + |jars|
    decreases |jars|
  {
    if jars != [] {
      DistsGrow(AppendDist(acc, jars[0]), jars[1..]);
    }
  }

  lemma DistsEmptyIff(jars: seq<string>)
    ensures Dists("", jars) == "" <==> jars == []
  {
    DistsGrow("", jars);
  }

  // ---------- which jars, and the path as a text ----------

  /** A file flink-dist*jar in a directory, where some character stands before jar. */
  ghost predicate DistParts(jar: string, dir: string, version: string, dot: string) {
    jar == dir + "/flink-dist" + version + dot + "jar" && |dot| == 1 && '/' !in version
  }

  lemma DistHasParts(jar: string, k: nat) returns (version: string, dot: string)
    requires k <= |jar| && DistFrom(jar, k)
    ensures DistParts(jar, jar[..k], version, dot)
  {
    var tail := jar[k..];
    version, dot := tail[11..|tail| - 4], [tail[|tail| - 4]];
    assert tail == "/flink-dist" + version + dot + "jar";
    assert jar == jar[..k] + tail;
  }

  lemma DistFromParts(jar: string, dir: string, version: string, dot: string)
    requires DistParts(jar, dir, version, dot)
    ensures DistFrom(jar, |dir|)
  {
    var tail := jar[|dir|..];
    assert tail == "/flink-dist" + version + dot + "jar";
    assert tail[11..|tail| - 4] == version;
  }

  /** These are the dist jars. */
  lemma IsDistIff(jar: string)
    ensures IsDist(jar) <==> exists dir, version, dot :: DistParts(jar, dir, version, dot)
  {
    if k :| 0 <= k <= |jar| && DistFrom(jar, k) {
      var version, dot := DistHasParts(jar, k);
    }
    if dir, version, dot :| DistParts(jar, dir, version, dot) {
      DistFromParts(jar, dir, version, dot);
    }
  }

  lemma ShippedJarIsDist(lib: string)
    ensures IsDist(lib + "/flink-dist-1.17.1.jar")
  {
    var jar := lib + "/flink-dist-1.17.1.jar";
    assert jar == lib + "/flink-dist" + "-1.17.1" + "." + "jar";
    assert DistParts(jar, lib, "-1.17.1", ".");
    IsDistIff(jar);
  }

  ghost function Dist(): string -> bool {
    (jar: string) => exists dir, version, dot :: DistParts(jar, dir, version, dot)
  }

  ghost function NotDist(): string -> bool {
    (jar: string) => !Dist()(jar)
  }

  /** The dist jars are those, in order, and the other jars the others. */
  lemma {:induction false} JarsAreFiltered(jars: seq<string>)
    ensures DistJars(jars) == Filter(jars, Dist()) && OtherJars(jars) == Filter(jars, NotDist())
  {
    if jars != [] {
      JarsAreFiltered(jars[1..]);
      IsDistIff(jars[0]);
    }
  }

  /** The texts with a colon between each two. */
  function Joined(jars: seq<string>): string {
    if jars == [] then "" else if |jars| == 1 then jars[0] else jars[0] + ":" + Joined(jars[1..])
  }

  lemma {:induction false} DistsJoined(acc: string, jars: seq<string>)
    ensures Dists(acc, jars) == if jars == [] then acc else acc + ":" + Joined(jars)
    decreases |jars|
  {
    if jars != [] {
      DistsJoined(AppendDist(acc, jars[0]), jars[1..]);
      if |jars| > 1 {
        assert acc + ":" + jars[0] + ":" + Joined(jars[1..]) == acc + ":" + (jars[0] + ":" + Joined(jars[1..]));
      }
    }
  }

  /** With non-empty paths the class path is the other jars with colons between them, then a colon and the dist jars
      with colons between them. */
  lemma PathIsJoined(jars: seq<string>)
    requires DistJars(jars) != [] && forall jar | jar in jars :: jar != ""
    ensures Others("", OtherJars(jars)) + Dists("", DistJars(jars))
         == Joined(OtherJars(jars)) + ":" + Joined(DistJars(jars))
  {
    DistsJoined("", DistJars(jars));
    JarsAreAmong(jars);
    if OtherJars(jars) != [] {
      var first, rest := OtherJars(jars)[0], OtherJars(jars)[1..];
      assert first in OtherJars(jars) && AppendOther("", first) == first;
      OthersIsDists(first, rest);
      DistsJoined(first, rest);
    }
  }

  lemma {:induction false} JarsAreAmong(jars: seq<string>)
    ensures forall jar | jar in OtherJars(jars) :: jar in jars
  {
    if jars != [] {
      JarsAreAmong(jars[1..]);
    }
  }

  // ---------- splitting undoes joining ----------

  /** A usable path: not empty, no colon in it. */
  predicate Plain(jar: string) {
    jar != "" && ':' !in jar
  }

  lemma PartsOfPlain(w: string, rest: string)
    requires Plain(w) && (rest == "" || rest[0] == ':')
    ensures Parts(w + rest) == [w] + Parts(rest)
  {
    CutAt(w, ':', rest);
    assert (w + rest)[|w|..] == rest;
    assert (w + rest)[0] == w[0] && w[0] in w;
  }

  /** Splitting at a colon. */
  lemma {:induction false} PartsConcat(a: string, b: string)
    requires b == "" || b[0] == ':'
    ensures Parts(a + b) == Parts(a) + Parts(b)
    decreases |a|
  {
    if a == "" {
      assert a + b == b;
    } else if a[0] == ':' {
      PartsConcat(a[1..], b);
      assert (a + b)[1..] == a[1..] + b;
    } else {
      CutBeforeRest(a, ':', b);
      var n := |Before(a, ':')|;
      PartsConcat(a[n..], b);
      assert (a + b)[n..] == a[n..] + b;
    }
  }

  lemma PartsOfColonPlain(jar: string)
    requires Plain(jar)
    ensures Parts(":" + jar) == [jar]
  {
    PartsOfPlain(jar, "");
    assert (":" + jar)[1..] == jar && jar + "" == jar;
  }

  lemma {:induction false} PartsOfDists(acc: string, jars: seq<string>)
    requires forall k | 0 <= k < |jars| :: Plain(jars[k])
    ensures Parts(Dists(acc, jars)) == Parts(acc) + jars
    decreases |jars|
  {
    if jars != [] {
      PartsOfDists(AppendDist(acc, jars[0]), jars[1..]);
      assert AppendDist(acc, jars[0]) == acc + (":" + jars[0]);
      PartsConcat(acc, ":" + jars[0]);
      PartsOfColonPlain(jars[0]);
      assert jars == [jars[0]] + jars[1..];
    }
  }

  /** Once the path is not empty, both appends do the same. */
  lemma {:induction false} OthersIsDists(acc: string, jars: seq<string>)
    requires acc != ""
    ensures Others(acc, jars) == Dists(acc, jars)
    decreases |jars|
  {
    if jars != [] {
      OthersIsDists(AppendDist(acc, jars[0]), jars[1..]);
    }
  }

  lemma PartsOfOthers(jars: seq<string>)
    requires forall k | 0 <= k < |jars| :: Plain(jars[k])
    ensures Parts(Others("", jars)) == jars
  {
    if jars != [] {
      var first, rest := jars[0], jars[1..];
      OthersIsDists(first, rest);
      PartsOfDists(first, rest);
      PartsOfPlain(first, "");
      assert first + "" == first;
      assert jars == [first] + rest;
    }
  }

  lemma {:induction false} JarsArePlain(jars: seq<string>)
    requires forall k | 0 <= k < |jars| :: Plain(jars[k])
    ensures forall k | 0 <= k < |DistJars(jars)| :: Plain(DistJars(jars)[k])
    ensures forall k | 0 <= k < |OtherJars(jars)| :: Plain(OtherJars(jars)[k])
    ensures |DistJars(jars)| + |OtherJars(jars)| == |jars|
  {
    if jars != [] {
      JarsArePlain(jars[1..]);
    }
  }

  lemma {:induction false} DistsStart(acc: string, jars: seq<string>)
    requires acc == "" || acc[0] == ':'
    ensures Dists(acc, jars) == "" || Dists(acc, jars)[0] == ':'
    decreases |jars|
  {
    if jars != [] {
      DistsStart(AppendDist(acc, jars[0]), jars[1..]);
    }
  }

  /** With plain paths the class path, split again, is the other jars in their order and then the dist jar; and
      the count taken by splitting is the number of dist jars the loop met. */
  lemma ClassPathSplitsBack(jars: seq<string>)
    requires forall k | 0 <= k < |jars| :: Plain(jars[k])
    ensures Parts(Others("", OtherJars(jars)) + Dists("", DistJars(jars))) == OtherJars(jars) + DistJars(jars)
    ensures |Parts(Dists("", DistJars(jars)))| == |DistJars(jars)|
  {
    JarsArePlain(jars);
    PartsOfDists("", DistJars(jars));
    PartsOfOthers(OtherJars(jars));
    DistsStart("", DistJars(jars));
    PartsConcat(Others("", OtherJars(jars)), Dists("", DistJars(jars)));
    assert Parts("") + DistJars(jars) == DistJars(jars);
  }

  lemma {:induction false} PartsArePlain(s: string)
    ensures forall k | 0 <= k < |Parts(s)| :: Plain(Parts(s)[k])
    decreases |s|
  {
    if s != "" {
      if s[0] == ':' {
        PartsArePlain(s[1..]);
      } else {
        SomethingBefore(s, ':');
        NoneBefore(s, ':');
        PartsArePlain(s[|Before(s, ':')|..]);
      }
    }
  }

  /** Every jar is on one side of the class path. */
  lemma {:induction false} SomewhereInPath(jars: seq<string>, k: nat)
    requires k < |jars|
    ensures jars[k] in OtherJars(jars) || jars[k] in DistJars(jars)
  {
    if k > 0 {
      SomewhereInPath(jars[1..], k - 1);
    }
  }

  /** And only with plain paths does it split back. */
  lemma SplitsBackIffPlain(jars: seq<string>)
    ensures Parts(Others("", OtherJars(jars)) + Dists("", DistJars(jars))) == OtherJars(jars) + DistJars(jars)
       <==> forall k | 0 <= k < |jars| :: Plain(jars[k])
  {
    var parts := Parts(Others("", OtherJars(jars)) + Dists("", DistJars(jars)));
    PartsArePlain(Others("", OtherJars(jars)) + Dists("", DistJars(jars)));
    if parts == OtherJars(jars) + DistJars(jars) {
      forall k | 0 <= k < |jars|
        ensures Plain(jars[k])
      {
        SomewhereInPath(jars, k);
        assert jars[k] in parts;
      }
    } else if forall k | 0 <= k < |jars| :: Plain(jars[k]) {
      ClassPathSplitsBack(jars);
    }
  }

  // ---------- how many dist jars does it count? ----------

  /** A colon somewhere behind another character. */
  predicate InnerColon(s: string) {
    exists i, j :: 0 <= i < j < |s| && s[i] != ':' && s[j] == ':'
  }

  lemma InnerColonStep(s: string)
    requires s != ""
    ensures InnerColon(s) <==> if s[0] == ':' then InnerColon(s[1..]) else ':' in s
  {
    if s[0] != ':' && ':' in s {
      var j :| 0 <= j < |s| && s[j] == ':';
      assert 0 < j;
    }
    if i, j :| 0 <= i < j < |s| && s[i] != ':' && s[j] == ':' && s[0] == ':' {
      assert s[1..][i - 1] != ':' && s[1..][j - 1] == ':';
    }
    if i, j :| 0 <= i < j < |s[1..]| && s[1..][i] != ':' && s[1..][j] == ':' {
      assert s[i + 1] != ':' && s[j + 1] == ':';
    }
  }

  lemma {:induction false} SomeParts(s: string)
    requires s != "" && s[|s| - 1] != ':'
    ensures Parts(s) != []
  {
    if s[0] == ':' {
      SomeParts(s[1..]);
    }
  }

  /** Colons cut a text that does not end in one exactly when one of them stands behind another character. */
  lemma {:induction false} SeveralPartsIff(s: string)
    requires s != "" && s[|s| - 1] != ':'
    ensures Parts(s) != [] && (|Parts(s)| > 1 <==> InnerColon(s))
  {
    InnerColonStep(s);
    SomeParts(s);
    if s[0] == ':' {
      SeveralPartsIff(s[1..]);
    } else {
      var n := |Before(s, ':')|;
      WhereCut(s, ':');
      if ':' in s {
        SomeParts(s[n..]);
      } else {
        Untouched(s, ':');
        assert s[n..] == "";
      }
    }
  }

  lemma DistEndsInJar(jar: string)
    requires IsDist(jar)
    ensures jar != "" && jar[|jar| - 1] == 'r'
  {
    var k :| 0 <= k <= |jar| && DistFrom(jar, k);
    var tail := jar[k..];
    assert tail[|tail| - 3..][2] == 'r';
  }

  lemma {:induction false} DistJarsAreDist(jars: seq<string>)
    ensures forall k | 0 <= k < |DistJars(jars)| :: IsDist(DistJars(jars)[k])
    ensures DistJars(jars) == [] <==> forall k | 0 <= k < |jars| :: !IsDist(jars[k])
  {
    if jars != [] {
      DistJarsAreDist(jars[1..]);
      assert forall k | 1 <= k < |jars| :: jars[k] == jars[1..][k - 1];
    }
  }

  /** Each path adds the parts it has by itself. */
  lemma {:induction false} DistsCount(acc: string, jars: seq<string>)
    requires forall k | 0 <= k < |jars| :: Parts(jars[k]) != []
    ensures |Parts(Dists(acc, jars))| >= |Parts(acc)| + |jars|
    decreases |jars|
  {
    if jars != [] {
      DistsCount(AppendDist(acc, jars[0]), jars[1..]);
      PartsOfAppended(acc, jars[0]);
    }
  }

  lemma PartsOfAppended(acc: string, jar: string)
    ensures Parts(AppendDist(acc, jar)) == Parts(acc) + Parts(jar)
  {
    assert AppendDist(acc, jar) == acc + (":" + jar);
    PartsConcat(acc, ":" + jar);
    assert (":" + jar)[1..] == jar;
  }

  /** Whatever the paths: the jars are rejected as several exactly when there is more than one dist jar, or a
      single one with a colon behind some other character of its path. */
  lemma RejectedIff(jars: seq<string>)
    ensures Constructed(jars) == NoDist <==> forall k | 0 <= k < |jars| :: !IsDist(jars[k])
    ensures Constructed(jars) == ManyDist
       <==> |DistJars(jars)| > 1 || (|DistJars(jars)| == 1 && InnerColon(DistJars(jars)[0]))
  {
    var dists := DistJars(jars);
    DistJarsAreDist(jars);
    forall k | 0 <= k < |dists|
      ensures Parts(dists[k]) != [] && (|Parts(dists[k])| > 1 <==> InnerColon(dists[k]))
    {
      DistEndsInJar(dists[k]);
      SeveralPartsIff(dists[k]);
    }
    DistsCount("", dists);
    if |dists| == 1 {
      LoneDistParts(dists[0]);
      assert dists == [dists[0]];
    }
  }

  lemma LoneDistParts(jar: string)
    ensures |Parts(Dists("", [jar]))| == |Parts(jar)|
  {
    PartsOfAppended("", jar);
    assert [jar][1..] == [];
  }

  /** One dist jar, under a directory named with a colon. */
  lemma LoneDistRejected()
    ensures Constructed(["a:/flink-dist.jar"]) == ManyDist
  {
    var jar := "a:/flink-dist.jar";
    assert DistFrom(jar, 2);
    assert DistJars([jar]) == [jar];
    assert jar[0] != ':' && jar[1] == ':';
    RejectedIff([jar]);
  }

  /** The first path that is not empty starts with something else than a colon. */
  predicate LeadsWithWord(jars: seq<string>) {
    jars != [] && if jars[0] == "" then LeadsWithWord(jars[1..]) else jars[0][0] != ':'
  }

  lemma {:induction false} OthersStart(jars: seq<string>)
    ensures LeadsWithWord(jars) <==> Others("", jars) != "" && Others("", jars)[0] != ':'
  {
    if jars != [] {
      assert AppendOther("", jars[0]) == jars[0];
      if jars[0] == "" {
        OthersStart(jars[1..]);
      } else {
        OthersIsDists(jars[0], jars[1..]);
        DistsKeepsStart(jars[0], jars[1..]);
      }
    }
  }

  /** The class path starts with an empty entry exactly when there is no other jar, or the first one that has a
      path at all has one with a colon in front. */
  lemma EmptyEntryIff(jars: seq<string>)
    requires DistJars(jars) != []
    ensures var path := Others("", OtherJars(jars)) + Dists("", DistJars(jars));
            var others := OtherJars(jars);
            && path != ""
            && (path[0] == ':' <==> !LeadsWithWord(others))
            && (others == [] ==> path[0] == ':')
            && (others != [] && others[0] != "" ==> (path[0] == ':' <==> others[0][0] == ':'))
  {
    DistsEmptyIff(DistJars(jars));
    DistsStart("", DistJars(jars));
    OthersStart(OtherJars(jars));
  }

  lemma {:induction false} DistsKeepsStart(acc: string, jars: seq<string>)
    requires acc != ""
    ensures Dists(acc, jars) != "" && Dists(acc, jars)[0] == acc[0]
    decreases |jars|
  {
    if jars != [] {
      DistsKeepsStart(AppendDist(acc, jars[0]), jars[1..]);
    }
  }
}

module ConfigLookup {

  import opened Options
  import opened Text

  /** A configuration key: letters, digits and dashes, in words separated by single dots. */
  predicate KeyChar(c: char) {
    'a' <= c <= 'z' || 'A' <= c <= 'Z' || '0' <= c <= '9' || c == '-' || c == '.'
  }

  predicate IsKey(s: string) {
    && 0 < |s| && s[0] != '.' && s[|s| - 1] != '.'
    && (forall k | 0 <= k < |s| :: KeyChar(s[k]))
    && (forall k | 0 < k < |s| :: s[k] == '.' ==> s[k - 1] != '.')
  }

  type ConfigKey = s: string | IsKey(s) witness "k"

  /** sed reads the key as a pattern, in which a dot stands for any character. */
  predicate PatternFits(key: string, s: string) {
    |key| <= |s| && forall k | 0 <= k < |key| :: key[k] == '.' || key[k] == s[k]
  }

  function SkipBlanks(s: string): string {
    if s != "" && s[0] == ' ' then SkipBlanks(s[1..]) else s
  }

  function DropLastBlanks(s: string): string {
    if s != "" && s[|s| - 1] == ' ' then DropLastBlanks(s[..|s| - 1]) else s
  }

  function Trim(s: string): string {
    DropLastBlanks(SkipBlanks(s))
  }

  /** What both sed commands make of a line: nothing, or the trimmed value. */
  function Extract(key: ConfigKey, line: string): Option<string> {
    var fromKey := SkipBlanks(line);
    if !PatternFits(key, fromKey) then None
    else
      var behind := SkipBlanks(fromKey[|key|..]);
      if 2 <= |behind| && behind[0] == ':' && behind[1] == ' ' then Some(Trim(Before(behind[2..], '#'))) else None
  }

  function LastValue(key: ConfigKey, lines: seq<string>): string {
    if lines == [] then ""
    else
      var last := Extract(key, lines[|lines| - 1]);
      if last.Some? then last.value else LastValue(key, lines[..|lines| - 1])
  }

  /** The last line of readFromConfig. */
  function Given(value: string, default: string): string {
    Echo(if value == "" then default else value)
  }

  /** readFromConfig */
  function Lookup(key: ConfigKey, default: string, lines: seq<string>): string {
    Given(LastValue(key, lines), default)
  }

  lemma {:induction false} SkipIndent(indent: string, text: string)
    requires (forall c | c in indent :: c == ' ') && (text == "" || text[0] != ' ')
    ensures SkipBlanks(indent + text) == text
  {
    if indent == "" {
      assert indent + text == text;
    } else {
      assert indent[0] in indent && forall c | c in indent[1..] :: c in indent;
      SkipIndent(indent[1..], text);
      assert (indent + text)[1..] == indent[1..] + text;
    }
  }

  /** A line sets the key if, between blanks, it begins with a text that the key matches, a dot of the key standing
      for any character, and goes on with a colon and a blank. */
  lemma LineSets(key: ConfigKey, indent: string, w: string, gap: string, v: string)
    requires (forall c | c in indent + gap :: c == ' ') && |w| == |key|
    requires forall j | 0 <= j < |key| :: key[j] == '.' || key[j] == w[j]
    ensures Extract(key, indent + w + gap + ": " + v) == Some(Trim(Before(v, '#')))
  {
    var line, text := indent + w + gap + ": " + v, w + gap + ": " + v;
    assert forall c | c in indent :: c in indent + gap;
    assert forall c | c in gap :: c in indent + gap;
    assert KeyChar(key[0]) && key[0] == w[0];
    assert line == indent + text;
    SkipIndent(indent, text);
    assert forall j | 0 <= j < |key| :: text[j] == w[j];
    assert text[|key|..] == gap + (": " + v);
    SkipIndent(gap, ": " + v);
    assert (": " + v)[2..] == v;
  }

  lemma PartsOfLine(line: string, a: nat, n: nat, b: nat)
    requires a + n + b + 2 <= |line| && line[a + n + b] == ':' && line[a + n + b + 1] == ' '
    ensures line == line[..a] + line[a..a + n] + line[a + n..a + n + b] + ": " + line[a + n + b + 2..]
  {
  }

  /** Where the parts of a line that sets the key end. */
  lemma ExtractParts(key: ConfigKey, line: string) returns (a: nat, b: nat)
    requires Extract(key, line).Some?
    ensures a + |key| + b + 2 <= |line| && line[a + |key| + b] == ':' && line[a + |key| + b + 1] == ' '
    ensures forall k | 0 <= k < a :: line[k] == ' '
    ensures forall k | a + |key| <= k < a + |key| + b :: line[k] == ' '
    ensures forall j | 0 <= j < |key| :: key[j] == '.' || key[j] == line[a + j]
    ensures Extract(key, line).value == Trim(Before(line[a + |key| + b + 2..], '#'))
  {
    a := SkipBlanksMeaning(line);
    var behind := line[a..][|key|..];
    b := SkipBlanksMeaning(behind);
    assert behind == line[a + |key|..];
    assert behind[b..] == line[a + |key| + b..];
    assert behind[b..][2..] == line[a + |key| + b + 2..];
    assert forall k | a + |key| <= k < a + |key| + b :: line[k] == behind[k - a - |key|];
  }

  lemma SetParts(key: ConfigKey, line: string) returns (indent: string, w: string, gap: string, v: string)
    requires Extract(key, line).Some?
    ensures Sets(key, line, indent, w, gap, v) && Extract(key, line).value == Trim(Before(v, '#'))
  {
    var a, b := ExtractParts(key, line);
    var n := |key|;
    PartsOfLine(line, a, n, b);
    indent, w, gap, v := line[..a], line[a..a + n], line[a + n..a + n + b], line[a + n + b + 2..];
  }

  /** No other line sets it. */
  lemma ExtractIff(key: ConfigKey, line: string, x: string)
    ensures Extract(key, line) == Some(x)
       <==> exists indent, w, gap, v :: Sets(key, line, indent, w, gap, v) && x == Trim(Before(v, '#'))
  {
    if Extract(key, line) == Some(x) {
      var _, _, _, _ := SetParts(key, line);
    }
    if indent, w, gap, v :| Sets(key, line, indent, w, gap, v) && x == Trim(Before(v, '#')) {
      LineSets(key, indent, w, gap, v);
    }
  }

  ghost predicate Sets(key: ConfigKey, line: string, indent: string, w: string, gap: string, v: string) {
    && line == indent + w + gap + ": " + v && (forall c | c in indent + gap :: c == ' ')
    && |w| == |key| && (forall j | 0 <= j < |key| :: key[j] == '.' || key[j] == w[j])
  }

  /** A line that is commented out sets nothing. */
  lemma CommentSetsNothing(key: ConfigKey, indent: string, comment: string)
    requires forall c | c in indent :: c == ' '
    ensures Extract(key, indent + "#" + comment) == None
  {
    assert indent + "#" + comment == indent + ("#" + comment);
    SkipIndent(indent, "#" + comment);
    assert KeyChar(key[0]) && key[0] != '#';
  }

  /** The last line that sets the key counts. */
  lemma {:induction false} LastValueIs(key: ConfigKey, lines: seq<string>, k: nat)
    requires k < |lines| && Extract(key, lines[k]).Some?
    requires forall j | k < j < |lines| :: Extract(key, lines[j]).None?
    ensures LastValue(key, lines) == Extract(key, lines[k]).value
    decreases |lines|
  {
    if k < |lines| - 1 {
      var init := lines[..|lines| - 1];
      assert lines[|lines| - 1] == lines[|lines| - 1] && init[k] == lines[k];
      LastValueIs(key, init, k);
    }
  }

  /** Without one there is no value. */
  lemma {:induction false} NoValue(key: ConfigKey, lines: seq<string>)
    requires forall k | 0 <= k < |lines| :: Extract(key, lines[k]).None?
    ensures LastValue(key, lines) == ""
  {
    if lines != [] {
      NoValue(key, lines[..|lines| - 1]);
    }
  }

  /** What the lookup gives, from the last line that sets the key: its value without comment and blanks around it,
      or the default if that is nothing, as far as echo prints it; the default if no line sets the key. */
  lemma LookupMeaning(key: ConfigKey, default: string, lines: seq<string>, k: nat,
                      indent: string, w: string, gap: string, v: string)
    ensures k < |lines| && Sets(key, lines[k], indent, w, gap, v)
            && (forall j | k < j < |lines| :: Extract(key, lines[j]).None?) ==>
              var value := Trim(Before(v, '#'));
              Lookup(key, default, lines) == Echo(if value == "" then default else value)
    ensures (forall j | 0 <= j < |lines| :: Extract(key, lines[j]).None?) ==>
              Lookup(key, default, lines) == Echo(default)
  {
    if k < |lines| && Sets(key, lines[k], indent, w, gap, v)
       && forall j | k < j < |lines| :: Extract(key, lines[j]).None? {
      LineSets(key, indent, w, gap, v);
      LastValueIs(key, lines, k);
    }
    if forall j | 0 <= j < |lines| :: Extract(key, lines[j]).None? {
      NoValue(key, lines);
    }
  }

  /** A line "k: v" is read under `key` exactly when k fits it as a pattern of the same length. */
  lemma ExtractKeyValue(key: ConfigKey, k: ConfigKey, v: string)
    ensures Extract(key, k + ": " + v)
         == if |k| == |key| && PatternFits(key, k) then Some(Trim(Before(v, '#'))) else None
  {
    var line := k + ": " + v;
    assert KeyChar(k[0]) && line[0] == k[0];
    assert SkipBlanks(line) == line;
    if |k| == |key| {
      assert line[|key|..] == ": " + v;
      assert SkipBlanks(": " + v) == ": " + v;
      assert (": " + v)[2..] == v;
      if PatternFits(key, line) {
        forall j | 0 <= j < |key|
          ensures key[j] == '.' || key[j] == k[j]
        {
          assert line[j] == k[j];
        }
      }
      if PatternFits(key, k) {
        forall j | 0 <= j < |key|
          ensures key[j] == '.' || key[j] == line[j]
        {
          assert line[j] == k[j];
        }
      }
    } else if |k| > |key| {
      assert line[|key|..][0] == k[|key|] && KeyChar(k[|key|]);
    } else {
      LongerKeyNeverFits(key, k, line, v);
    }
  }

  /** A single dot cannot stand for both the colon and the blank behind a shorter key. */
  lemma LongerKeyNeverFits(key: ConfigKey, k: ConfigKey, line: string, v: string)
    requires |k| < |key| && line == k + ": " + v
    ensures !PatternFits(key, line)
  {
    var j := if key[|k|] == '.' then |k| + 1 else |k|;
    assert j < |key| && key[j] != '.' && KeyChar(key[j]);
    assert line[|k|] == ':' && line[|k| + 1] == ' ';
    assert key[j] != line[j];
  }

  /** Appending "key: v" makes the lookup give v, trimmed and cut at a '#', or the default if that is blank, as far
      as echo prints it; appending a line the pattern does not match changes nothing. */
  lemma LastLineWins(key: ConfigKey, default: string, lines: seq<string>, line: string, v: string)
    ensures Lookup(key, default, lines + [key + ": " + v]) == Given(Trim(Before(v, '#')), default)
    ensures Extract(key, line).None? ==> Lookup(key, default, lines + [line]) == Lookup(key, default, lines)
  {
    ExtractKeyValue(key, key, v);
    var all := lines + [key + ": " + v];
    assert all[|all| - 1] == key + ": " + v;
    assert (lines + [line])[..|lines|] == lines;
  }

  /** What the last line sets, or the default, is really given exactly when echo does not take it for an option. */
  lemma ValueIsGivenIff(key: ConfigKey, default: string, lines: seq<string>, v: string)
    ensures var value := Trim(Before(v, '#'));
            var chosen := if value == "" then default else value;
            Lookup(key, default, lines + [key + ": " + v]) == chosen <==> !EchoOption(chosen)
  {
    LastLineWins(key, default, lines, "", v);
  }

  /** A value of "-n" is looked up as nothing. */
  lemma OptionIsSwallowed()
    ensures Lookup("a", "none", ["a: -n"]) == ""
  {
    var key: ConfigKey := "a";
    assert key + ": " + "-n" == "a: -n" && [] + ["a: -n"] == ["a: -n"];
    Untouched("-n", '#');
    assert Trim("-n") == "-n";
    LastLineWins(key, "none", [], "", "-n");
  }

  /** A line set under another key counts for this one exactly when the two differ only where this one has
      dots; the dot in the pattern is not escaped. A blank value then brings the default back. */
  lemma OtherKeyShadows(key: ConfigKey, k: ConfigKey, default: string, lines: seq<string>, v: string)
    ensures Lookup(key, default, lines + [k + ": " + v])
         == if |k| == |key| && PatternFits(key, k) then Given(Trim(Before(v, '#')), default)
            else Lookup(key, default, lines)
  {
    ExtractKeyValue(key, k, v);
    var all := lines + [k + ": " + v];
    assert all[|all| - 1] == k + ": " + v && all[..|all| - 1] == lines;
  }

  /** So such a line changes what the lookup gives exactly when its key fits and what it sets differs. */
  lemma OtherKeyShadowsIff(key: ConfigKey, k: ConfigKey, default: string, lines: seq<string>, v: string)
    ensures var now := Given(Trim(Before(v, '#')), default);
            && (Lookup(key, default, lines + [k + ": " + v]) != Lookup(key, default, lines)
                <==> |k| == |key| && PatternFits(key, k) && now != Lookup(key, default, lines))
            && (now != Lookup(key, default, lines) ==>
                  (Lookup(key, default, lines + [k + ": " + v]) == now <==> |k| == |key| && PatternFits(key, k)))
  {
    OtherKeyShadows(key, k, default, lines, v);
  }

  /** A line for a-b answers for a.b. */
  lemma DashReadAsDot()
    ensures Lookup("a.b", "none", ["a-b: x"]) == "x"
  {
    var key: ConfigKey, k: ConfigKey := "a.b", "a-b";
    assert k + ": " + "x" == "a-b: x";
    assert [] + ["a-b: x"] == ["a-b: x"];
    assert PatternFits(key, k);
    OtherKeyShadows(key, k, "none", [], "x");
  }

  /** Trimming takes blanks off both ends and nothing else. */
  lemma TrimMeaning(s: string)
    ensures exists a: nat, b: nat :: Surrounds(s, a, b) && Trim(s) == s[a..|s| - b]
    ensures Trim(s) != "" ==> Trim(s)[0] != ' ' && Trim(s)[|Trim(s)| - 1] != ' '
  {
    var a := SkipBlanksMeaning(s);
    var b := DropLastBlanksMeaning(SkipBlanks(s));
    assert Trim(s) == s[a..|s| - b];
    assert Surrounds(s, a, b) by {
      forall k | |s| - b <= k < |s|
        ensures s[k] == ' '
      {
        assert s[k] == s[a..][k - a];
      }
    }
  }

  ghost predicate Surrounds(s: string, a: nat, b: nat) {
    && a + b <= |s|
    && (forall k | 0 <= k < a :: s[k] == ' ')
    && (forall k | |s| - b <= k < |s| :: s[k] == ' ')
  }

  lemma {:induction false} SkipBlanksMeaning(s: string) returns (a: nat)
    ensures a <= |s| && SkipBlanks(s) == s[a..] && forall k | 0 <= k < a :: s[k] == ' '
    ensures SkipBlanks(s) != "" ==> SkipBlanks(s)[0] != ' '
  {
    if s != "" && s[0] == ' ' {
      var b := SkipBlanksMeaning(s[1..]);
      a := b + 1;
      forall k | 0 <= k < a
        ensures s[k] == ' '
      {
        assert k > 0 ==> s[k] == s[1..][k - 1];
      }
    } else {
      a := 0;
    }
  }

  lemma {:induction false} DropLastBlanksMeaning(s: string) returns (b: nat)
    ensures b <= |s| && DropLastBlanks(s) == s[..|s| - b] && forall k | |s| - b <= k < |s| :: s[k] == ' '
    ensures DropLastBlanks(s) != "" ==>
              DropLastBlanks(s)[|DropLastBlanks(s)| - 1] != ' ' && DropLastBlanks(s)[0] == s[0]
  {
    if s != "" && s[|s| - 1] == ' ' {
      var init := s[..|s| - 1];
      var c := DropLastBlanksMeaning(init);
      b := c + 1;
      assert s[..|s| - b] == init[..|init| - c];
    } else {
      b := 0;
    }
  }
}
