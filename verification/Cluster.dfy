/** config.sh (readMasters, readWorkers), start-cluster.sh and stop-cluster.sh. */
module ClusterConfig {

  import opened Lists
  import opened Text

  // ---------- one line of conf/masters or conf/workers ----------

  predicate Blank(c: char) {
    c == ' ' || c == '\t'
  }

  /** The line is passed on unquoted, so only its first word arrives. */
  function FirstWord(line: string): string {
    if line == "" then ""
    else if Blank(line[0]) then FirstWord(line[1..])
    else UntilBlank(line)
  }

  function UntilBlank(line: string): string {
    if line == "" || Blank(line[0]) then "" else [line[0]] + UntilBlank(line[1..])
  }

  predicate HostChar(c: char) {
    '0' <= c <= '9' || 'a' <= c <= 'z' || 'A' <= c <= 'Z' || c == '.' || c == '-'
  }

  predicate HostName(s: string) {
    s != "" && forall c | c in s :: HostChar(c)
  }

  /** The part behind the last '/', if there is a '/'. */
  function AfterLastSlash(s: string): string {
    if '/' in s then AfterLastSlash(s[|Before(s, '/')| + 1..]) else s
  }

  function ExtractHostName(line: string): string {
    var worker := Before(Echo(FirstWord(line)), '#');
    var tail := AfterLastSlash(worker);
    Echo(if '/' in worker && HostName(tail) then tail else worker)
  }

  function Host(entry: string): string {
    Before(entry, ':')
  }

  /** cut -s -f2 -d: with "0" for an empty result */
  function WebUiPort(entry: string): string {
    var host := Before(entry, ':');
    var port := if |host| < |entry| then Before(entry[|host| + 1..], ':') else "";
    if port == "" then "0" else port
  }

  predicate LocalName(host: string) {
    host == "localhost" || host == "127.0.0.1"
  }

  // ---------- whole files ----------

  /** The non-empty results of extractHostName, in order. */
  function Entries(lines: seq<string>): seq<string> {
    if lines == [] then []
    else if ExtractHostName(lines[0]) == "" then Entries(lines[1..])
    else [ExtractHostName(lines[0])] + Entries(lines[1..])
  }

  function Masters(entries: seq<string>): seq<string> {
    if entries == [] then []
    else if |Host(entries[0])| == 0 then Masters(entries[1..])
    else [Host(entries[0])] + Masters(entries[1..])
  }

  function Ports(entries: seq<string>): seq<string> {
    if entries == [] then [] else [WebUiPort(entries[0])] + Ports(entries[1..])
  }

  lemma {:induction false} PortsInOrder(entries: seq<string>)
    ensures |Ports(entries)| == |entries|
    ensures forall k | 0 <= k < |entries| :: Ports(entries)[k] == WebUiPort(entries[k])
  {
    if entries != [] {
      PortsInOrder(entries[1..]);
    }
  }

  predicate LocalMasters(entries: seq<string>) {
    entries == [] || (LocalName(Host(entries[0])) && LocalMasters(entries[1..]))
  }

  lemma {:induction false} LocalMastersMeaning(entries: seq<string>)
    ensures LocalMasters(entries) <==> forall k | 0 <= k < |entries| :: LocalName(Host(entries[k]))
  {
    if entries != [] {
      LocalMastersMeaning(entries[1..]);
      if LocalMasters(entries) {
        assert forall k | 1 <= k < |entries| :: entries[k] == entries[1..][k - 1];
      } else if LocalName(Host(entries[0])) {
        var k :| 0 <= k < |entries[1..]| && !LocalName(Host(entries[1..][k]));
        assert entries[k + 1] == entries[1..][k];
      }
    }
  }

  datatype MasterList = MasterList(hosts: seq<string>, ports: seq<string>, allLocal: bool)

  /** Lines 461-473, for one entry. */
  function AddMaster(acc: MasterList, entry: string): MasterList {
    var host := Host(entry);
    MasterList(if |host| > 0 then acc.hosts + [host] else acc.hosts,
               acc.ports + [WebUiPort(entry)],
               acc.allLocal && LocalName(host))
  }

  function AddMasters(acc: MasterList, entries: seq<string>): MasterList
    decreases |entries|
  {
    if entries == [] then acc else AddMasters(AddMaster(acc, entries[0]), entries[1..])
  }

  lemma HostsFirst(hosts: seq<string>, entries: seq<string>)
    requires entries != []
    ensures var host := Host(entries[0]);
            hosts + Masters(entries) == (if |host| > 0 then hosts + [host] else hosts) + Masters(entries[1..])
  {
  }

  lemma PortsFirst(ports: seq<string>, entries: seq<string>)
    requires entries != []
    ensures ports + Ports(entries) == ports + [WebUiPort(entries[0])] + Ports(entries[1..])
  {
  }

  lemma {:induction false} AddMastersAppends(acc: MasterList, entries: seq<string>)
    ensures AddMasters(acc, entries) == MasterList(acc.hosts + Masters(entries), acc.ports + Ports(entries),
                                                   acc.allLocal && LocalMasters(entries))
    decreases |entries|
  {
    if entries != [] {
      AddMastersAppends(AddMaster(acc, entries[0]), entries[1..]);
      HostsFirst(acc.hosts, entries);
      PortsFirst(acc.ports, entries);
    }
  }

  method ReadMasters(lines: seq<string>) returns (masters: seq<string>, ports: seq<string>, allLocal: bool)
    ensures masters == Masters(Entries(lines)) && ports == Ports(Entries(lines))
    ensures allLocal <==> LocalMasters(Entries(lines))
  {
    var acc, n := MasterList([], [], true), 0;
    while n < |lines|
      invariant n <= |lines|
      invariant AddMasters(acc, Entries(lines[n..])) == AddMasters(MasterList([], [], true), Entries(lines))
    {
      var entry := ExtractHostName(lines[n]);
      assert lines[n..][1..] == lines[n + 1..];
      if |entry| > 0 {
        assert Entries(lines[n..]) == [entry] + Entries(lines[n + 1..]);
        assert Entries(lines[n..])[1..] == Entries(lines[n + 1..]);
        acc := AddMaster(acc, entry);
      }
      n := n + 1;
    }
    AddMastersAppends(MasterList([], [], true), Entries(lines));
    masters, ports, allLocal := acc.hosts, acc.ports, acc.allLocal;
  }

  lemma EntriesFirst(done: seq<string>, lines: seq<string>)
    requires lines != [] && |ExtractHostName(lines[0])| > 0
    ensures done + Entries(lines) == done + [ExtractHostName(lines[0])] + Entries(lines[1..])
  {
  }

  predicate AllLocal(hosts: seq<string>) {
    forall host | host in hosts :: LocalName(host)
  }

  lemma OneMoreLocal(hosts: seq<string>, host: string)
    ensures AllLocal(hosts + [host]) <==> AllLocal(hosts) && LocalName(host)
  {
    assert forall h | h in hosts :: h in hosts + [host];
    assert host in hosts + [host];
  }

  method ReadWorkers(lines: seq<string>) returns (workers: seq<string>, allLocal: bool)
    ensures workers == Entries(lines)
    ensures allLocal <==> AllLocal(Entries(lines))
  {
    workers, allLocal := [], true;
    var n := 0;
    while n < |lines|
      invariant n <= |lines|
      invariant workers + Entries(lines[n..]) == Entries(lines)
      invariant allLocal <==> AllLocal(workers)
    {
      assert lines[n..][1..] == lines[n + 1..];
      var host := ExtractHostName(lines[n]);
      if |host| > 0 {
        EntriesFirst(workers, lines[n..]);
        OneMoreLocal(workers, host);
        workers := workers + [host];
        if !LocalName(host) {
          allLocal := false;
        }
      }
      n := n + 1;
    }
  }

  // ---------- what a line says ----------

  predicate AllBlank(s: string) {
    forall c | c in s :: Blank(c)
  }

  lemma {:induction false} UntilBlankStops(word: string, rest: string)
    requires (forall c | c in word :: !Blank(c)) && (rest == "" || Blank(rest[0]))
    ensures UntilBlank(word + rest) == word
  {
    if word == "" {
      assert word + rest == rest;
    } else {
      assert word[0] in word && forall c | c in word[1..] :: c in word;
      UntilBlankStops(word[1..], rest);
      assert (word + rest)[1..] == word[1..] + rest;
    }
  }

  lemma {:induction false} FirstWordIs(indent: string, word: string, rest: string)
    requires AllBlank(indent) && (forall c | c in word :: !Blank(c)) && (rest == "" || Blank(rest[0]))
    requires word == "" ==> rest == ""
    ensures FirstWord(indent + word + rest) == word
  {
    var line := indent + word + rest;
    if indent != "" {
      assert indent[0] in indent && forall c | c in indent[1..] :: c in indent;
      FirstWordIs(indent[1..], word, rest);
      assert line[1..] == indent[1..] + word + rest;
    } else if word != "" {
      assert line == word + rest && line[0] == word[0] && word[0] in word;
      UntilBlankStops(word, rest);
    } else {
      assert line == "";
    }
  }

  lemma FirstSlash(s: string) returns (front: string, rest: string)
    requires '/' in s
    ensures s == front + "/" + rest && AfterLastSlash(s) == AfterLastSlash(rest)
  {
    WhereCut(s, '/');
    front, rest := Before(s, '/'), s[|Before(s, '/')| + 1..];
    assert s == s[..|front|] + [s[|front|]] + rest;
  }

  lemma {:induction false} LastSlash(s: string) returns (path: string)
    requires '/' in s
    ensures s == path + "/" + AfterLastSlash(s)
    decreases |s|
  {
    var front, rest := FirstSlash(s);
    if '/' in rest {
      var inner := LastSlash(rest);
      path := front + "/" + inner;
      assert front + "/" + (inner + "/" + AfterLastSlash(rest)) == path + "/" + AfterLastSlash(rest);
    } else {
      path := front;
    }
  }

  lemma {:induction false} BehindLastSlash(path: string, host: string)
    requires '/' !in host
    ensures AfterLastSlash(path + "/" + host) == host
    decreases |path|
  {
    var s := path + "/" + host;
    assert s[|path|] == '/';
    if '/' in path {
      WhereCut(path, '/');
      var n := |Before(path, '/')|;
      assert path == path[..n] + ("/" + path[n + 1..]);
      assert s == path[..n] + ("/" + path[n + 1..] + "/" + host);
      NoneBefore(path, '/');
      CutAt(path[..n], '/', "/" + path[n + 1..] + "/" + host);
      assert s[n + 1..] == path[n + 1..] + "/" + host;
      BehindLastSlash(path[n + 1..], host);
    } else {
      assert s == path + ("/" + host);
      CutAt(path, '/', "/" + host);
      assert s[|path| + 1..] == host;
    }
  }

  /** The entry of a line comes from its first word: what stands before a '#' in it and, if that ends in a '/' and
      a host name, the host name alone. A word, or a result, that echo takes for an option is lost. */
  lemma HostOfLine(indent: string, kept: string, comment: string, rest: string)
    requires forall c | c in indent :: c == ' ' || c == '\t'
    requires forall c | c in kept + comment :: c != ' ' && c != '\t'
    requires rest == "" || (kept + comment != "" && (rest[0] == ' ' || rest[0] == '\t'))
    requires '#' !in kept && (comment == "" || comment[0] == '#')
    ensures var host := ExtractHostName(indent + (kept + comment) + rest);
            && (forall path, name | kept == path + "/" + name && HostName(name) :: host == Echo(name))
            && ((forall path, name | kept == path + "/" + name :: !HostName(name)) ==> host == Echo(kept))
    ensures forall name :: HostName(name)
                      <==> name != "" && forall c | c in name ::
                             '0' <= c <= '9' || 'a' <= c <= 'z' || 'A' <= c <= 'Z' || c == '.' || c == '-'
  {
    var line := indent + (kept + comment) + rest;
    FirstWordIs(indent, kept + comment, rest);
    var word := Echo(FirstWord(line));
    if EchoOption(kept + comment) {
      assert '#' !in kept + comment && '/' !in kept + comment;
      assert kept + comment == kept;
      assert forall path, name | kept == path + "/" + name :: '/' in kept;
    } else {
      CutAt(kept, '#', comment);
      assert Before(word, '#') == kept;
      forall path, name | kept == path + "/" + name && HostName(name)
        ensures ExtractHostName(line) == Echo(name)
      {
        assert '/' !in name;
        BehindLastSlash(path, name);
        assert kept[|path|] == '/';
      }
      if '/' in kept {
        var path := LastSlash(kept);
        assert kept == path + "/" + AfterLastSlash(kept);
      }
    }
  }

  function HostNames(lines: seq<string>): (names: seq<string>)
    ensures |names| == |lines| && forall k | 0 <= k < |lines| :: names[k] == ExtractHostName(lines[k])
  {
    seq(|lines|, k requires 0 <= k < |lines| => ExtractHostName(lines[k]))
  }

  function NotEmpty(): string -> bool {
    (s: string) => |s| > 0
  }

  /** The entries of a file are those of its lines that give one, in order. */
  lemma {:induction false} EntriesAreFilter(lines: seq<string>)
    ensures Entries(lines) == Filter(HostNames(lines), NotEmpty())
  {
    if lines != [] {
      EntriesAreFilter(lines[1..]);
      assert HostNames(lines)[1..] == HostNames(lines[1..]);
    }
  }

  // ---------- do master and port number i belong together? ----------

  predicate NoHost(entry: string) {
    entry != "" && entry[0] == ':'
  }

  lemma HostIsEmptyIff(entry: string)
    requires entry != ""
    ensures Host(entry) == "" <==> NoHost(entry)
  {
  }

  lemma {:induction false} EntriesAreWords(lines: seq<string>)
    ensures forall k | 0 <= k < |Entries(lines)| :: |Entries(lines)[k]| > 0
  {
    if lines != [] {
      EntriesAreWords(lines[1..]);
    }
  }

  lemma {:induction false} MastersAreHosts(entries: seq<string>)
    requires forall k | 0 <= k < |entries| :: |entries[k]| > 0
    ensures |Masters(entries)| <= |entries|
    ensures |Masters(entries)| == |entries| <==> forall e | e in entries :: !NoHost(e)
  {
    if entries != [] {
      assert entries[0] in entries && entries == [entries[0]] + entries[1..];
      MastersAreHosts(entries[1..]);
      HostIsEmptyIff(entries[0]);
    }
  }

  /** The numbers of the entries that put a host into MASTERS, the first entry being number `from`. */
  function HostLines(entries: seq<string>, from: nat): seq<nat> {
    if entries == [] then []
    else if |Host(entries[0])| == 0 then HostLines(entries[1..], from + 1)
    else [from] + HostLines(entries[1..], from + 1)
  }

  /** The entry of that number names that host. */
  predicate HostAt(entries: seq<string>, from: nat, line: nat, host: string) {
    from <= line < from + |entries| && Host(entries[line - from]) == host
  }

  lemma {:induction false} HostLinesMeaning(entries: seq<string>, from: nat)
    ensures |HostLines(entries, from)| == |Masters(entries)|
    ensures forall i | 0 <= i < |Masters(entries)| ::
              HostAt(entries, from, HostLines(entries, from)[i], Masters(entries)[i])
  {
    if entries != [] {
      HostLinesMeaning(entries[1..], from + 1);
      var h, m := HostLines(entries[1..], from + 1), Masters(entries[1..]);
      forall i | 0 <= i < |m|
        ensures HostAt(entries, from, h[i], m[i])
      {
        assert HostAt(entries[1..], from + 1, h[i], m[i]);
      }
      if |Host(entries[0])| > 0 {
        assert HostAt(entries, from, from, Host(entries[0]));
      }
    }
  }

  lemma {:induction false} LaterLines(entries: seq<string>, from: nat)
    ensures forall i | 0 <= i < |HostLines(entries, from)| :: from <= HostLines(entries, from)[i]
  {
    if entries != [] {
      LaterLines(entries[1..], from + 1);
    }
  }

  /** Every entry with a host counts, in order. */
  lemma {:induction false} HostLinesAreAll(entries: seq<string>, from: nat)
    ensures var h := HostLines(entries, from);
            && (forall i, j | 0 <= i < j < |h| :: h[i] < h[j])
            && (forall k | 0 <= k < |entries| :: from + k in h <==> |Host(entries[k])| > 0)
  {
    if entries != [] {
      var rest := HostLines(entries[1..], from + 1);
      HostLinesAreAll(entries[1..], from + 1);
      LaterLines(entries[1..], from + 1);
      forall k | 0 <= k < |entries|
        ensures from + k in HostLines(entries, from) <==> |Host(entries[k])| > 0
      {
        if k > 0 {
          assert entries[k] == entries[1..][k - 1] && from + k == from + 1 + (k - 1);
        }
      }
    }
  }

  /** No entry without a host stands before one with a host. */
  predicate HostsComeFirst(entries: seq<string>) {
    forall j, k | 0 <= j < k < |entries| && NoHost(entries[j]) :: NoHost(entries[k])
  }

  lemma {:induction false} NoHostLines(entries: seq<string>, from: nat)
    requires forall k | 0 <= k < |entries| :: |entries[k]| > 0
    ensures HostLines(entries, from) == [] <==> forall k | 0 <= k < |entries| :: NoHost(entries[k])
  {
    if entries != [] {
      NoHostLines(entries[1..], from + 1);
      HostIsEmptyIff(entries[0]);
      assert forall k | 1 <= k < |entries| :: entries[k] == entries[1..][k - 1];
    }
  }

  /** The i-th host is on line from + i, for every i. */
  predicate InPlace(h: seq<nat>, from: nat) {
    forall i | 0 <= i < |h| :: h[i] == from + i
  }

  lemma InPlaceStep(h: seq<nat>, from: nat)
    ensures InPlace([from] + h, from) <==> InPlace(h, from + 1)
  {
    var all := [from] + h;
    assert forall i | 0 <= i < |h| :: all[i + 1] == h[i];
    assert forall i | 1 <= i < |all| :: all[i] == h[i - 1];
  }

  lemma HostsComeFirstStep(entries: seq<string>)
    requires entries != []
    ensures HostsComeFirst(entries)
       <==> if NoHost(entries[0]) then forall k | 0 <= k < |entries| :: NoHost(entries[k])
            else HostsComeFirst(entries[1..])
  {
    var rest := entries[1..];
    assert forall k | 1 <= k < |entries| :: entries[k] == rest[k - 1];
    assert forall k | 0 <= k < |rest| :: rest[k] == entries[k + 1];
  }

  lemma {:induction false} HostsComeFirstIff(entries: seq<string>, from: nat)
    requires forall k | 0 <= k < |entries| :: |entries[k]| > 0
    ensures HostsComeFirst(entries) <==> InPlace(HostLines(entries, from), from)
  {
    if entries != [] {
      HostIsEmptyIff(entries[0]);
      HostsComeFirstStep(entries);
      if NoHost(entries[0]) {
        NoHostLines(entries, from);
        LaterLines(entries[1..], from + 1);
        var h := HostLines(entries, from);
        assert h != [] ==> h[0] != from + 0;
      } else {
        HostsComeFirstIff(entries[1..], from + 1);
        InPlaceStep(HostLines(entries[1..], from + 1), from);
      }
    }
  }

  lemma LocalsHaveHosts(entries: seq<string>)
    requires forall k | 0 <= k < |entries| :: |entries[k]| > 0
    requires LocalMasters(entries)
    ensures forall e | e in entries :: !NoHost(e)
  {
    LocalMastersMeaning(entries);
    forall k | 0 <= k < |entries|
      ensures !NoHost(entries[k])
    {
      HostIsEmptyIff(entries[k]);
    }
  }

  /** MASTERS[i] is the host of line HostLines[i], and WEBUIPORTS[i] the port of line i. */
  lemma WhereTheyComeFrom(lines: seq<string>)
    ensures var es := Entries(lines);
            var from := HostLines(es, 0);
            && |from| == |Masters(es)| <= |Ports(es)| == |es|
            && (forall i | 0 <= i < |from| :: HostAt(es, 0, from[i], Masters(es)[i]))
            && (forall i, j | 0 <= i < j < |from| :: from[i] < from[j])
            && (forall k | 0 <= k < |es| :: k in from <==> |Host(es[k])| > 0)
            && (forall i | 0 <= i < |es| :: Ports(es)[i] == WebUiPort(es[i]))
  {
    HostLinesAreAll(Entries(lines), 0);
    EntriesAreWords(lines);
    MastersAreHosts(Entries(lines));
    HostLinesMeaning(Entries(lines), 0);
    PortsInOrder(Entries(lines));
  }

  /** start-cluster.sh hands master i port i. Both come from line i, for every master, exactly when no host-less
      line stands before a line with a host. The arrays keep the same length exactly when no line at all
      starts with a colon; when all masters are local that is always so. */
  lemma MastersAlignedIff(lines: seq<string>)
    ensures |HostLines(Entries(lines), 0)| == |Masters(Entries(lines))|
    ensures HostsComeFirst(Entries(lines)) <==> InPlace(HostLines(Entries(lines), 0), 0)
    ensures |Masters(Entries(lines))| == |Ports(Entries(lines))| <==> forall e | e in Entries(lines) :: !NoHost(e)
    ensures LocalMasters(Entries(lines)) ==> |Masters(Entries(lines))| == |Ports(Entries(lines))|
  {
    var es := Entries(lines);
    EntriesAreWords(lines);
    WhereTheyComeFrom(lines);
    MastersAreHosts(es);
    HostsComeFirstIff(es, 0);
    if LocalMasters(es) {
      LocalsHaveHosts(es);
    }
  }

  lemma {:induction false} HostAndPort(entry: string, host: string, port: string)
    requires entry == host + ":" + port && ':' !in host && ':' !in port && |port| > 0
    ensures Host(entry) == host && WebUiPort(entry) == port
  {
    if |host| > 0 {
      assert entry[1..] == host[1..] + ":" + port;
      assert host == [host[0]] + host[1..];
      HostAndPort(entry[1..], host[1..], port);
    }
    assert entry[|host| + 1..] == port;
    Untouched(port, ':');
  }

  /** The port of an entry is what stands between its first and second colon, or "0" if nothing does. */
  lemma PortOfEntry(host: string, port: string, more: string)
    requires ':' !in host && ':' !in port && (more == "" || more[0] == ':')
    ensures Host(host) == host && WebUiPort(host) == "0"
    ensures var entry := host + ":" + port + more;
            Host(entry) == host && WebUiPort(entry) == if port == "" then "0" else port
  {
    Untouched(host, ':');
    var entry := host + ":" + port + more;
    assert entry == host + (":" + port + more);
    CutAt(host, ':', ":" + port + more);
    assert entry[|host| + 1..] == port + more;
    CutAt(port, ':', more);
  }

  lemma HostlessFirst(entries: seq<string>, host: string, p: string, q: string)
    requires entries == [":" + p, host + ":" + q] && |host| > 0 && |p| > 0 && |q| > 0
    requires ':' !in host && ':' !in p && ':' !in q
    ensures Masters(entries) == [host] && Ports(entries) == [p, q]
    ensures HostLines(entries, 0) == [1]
  {
    assert entries[0] == "" + ":" + p;
    HostAndPort(entries[0], "", p);
    HostAndPort(entries[1], host, q);
    assert entries[1..] == [entries[1]] && [entries[1]][1..] == [];
    assert Masters([entries[1]]) == [host] && HostLines([entries[1]], 1) == [1];
    PortsInOrder(entries);
  }

  lemma HostlessLast(entries: seq<string>, host: string, p: string, q: string)
    requires entries == [host + ":" + q, ":" + p] && |host| > 0 && |p| > 0 && |q| > 0
    requires ':' !in host && ':' !in p && ':' !in q
    ensures Masters(entries) == [host] && Ports(entries) == [q, p]
    ensures HostLines(entries, 0) == [0]
  {
    assert entries[1] == "" + ":" + p;
    HostAndPort(entries[1], "", p);
    HostAndPort(entries[0], host, q);
    assert entries[1..] == [entries[1]] && [entries[1]][1..] == [];
    assert Masters([entries[1]]) == [] && HostLines([entries[1]], 1) == [];
    PortsInOrder(entries);
  }

  /** A host-less line before "host:q" makes the host take its port; behind it, it does no harm. */
  lemma MisalignedPorts(host: string, p: string, q: string)
    requires forall c | c in host + p + q :: HostChar(c)
    requires |host| > 0 && |p| > 0 && |q| > 0
    ensures var before := Entries([":" + p, host + ":" + q]);
            Masters(before) == [host] && Ports(before) == [p, q] && HostLines(before, 0) == [1]
    ensures var behind := Entries([host + ":" + q, ":" + p]);
            Masters(behind) == [host] && Ports(behind) == [q, p] && HostLines(behind, 0) == [0]
  {
    forall c | c in host || c in p || c in q
      ensures HostChar(c)
    {
      assert c in host + p + q;
    }
    var hostless, full := ":" + p, host + ":" + q;
    PlainEntry(hostless);
    PlainEntry(full);
    NoOptionWithColon(hostless, 0);
    NoOptionWithColon(full, |host|);
    TwoEntries([hostless, full]);
    TwoEntries([full, hostless]);
    HostlessFirst([hostless, full], host, p, q);
    HostlessLast([full, hostless], host, p, q);
  }

  lemma TwoEntries(lines: seq<string>)
    requires |lines| == 2 && |lines[0]| > 0 && |lines[1]| > 0
    requires ExtractHostName(lines[0]) == lines[0] && ExtractHostName(lines[1]) == lines[1]
    ensures Entries(lines) == lines
  {
    assert lines[1..] == [lines[1]] && [lines[1]][1..] == [];
    assert Entries([lines[1]]) == [lines[1]];
  }

  /** A word without blanks, '#' and '/' is its own entry, unless echo takes it for an option: then it is none. */
  lemma PlainEntry(s: string)
    requires forall c | c in s :: !Blank(c) && c != '#' && c != '/'
    ensures ExtractHostName(s) == if EchoOption(s) then "" else s
  {
    NoBlank(s);
    Untouched(s, '#');
    assert '/' !in s;
  }

  lemma NoOptionWithColon(s: string, k: nat)
    requires k < |s| && s[k] == ':'
    ensures !EchoOption(s)
  {
  }

  lemma {:induction false} NoBlank(s: string)
    requires forall c | c in s :: !Blank(c)
    ensures UntilBlank(s) == s && FirstWord(s) == s
  {
    if s != "" {
      assert s[0] in s;
      NoBlank(s[1..]);
    }
  }
}

module Cluster {

  import opened ClusterConfig
  import opened Lists
  import opened Options
  import opened PidFile

  /** The i-th process a script launches: its pid, and whether it is still there when checked. */
  datatype Launches = Launches(pid: nat -> nat, up: nat -> bool)

  /** Those of the first n that came up. */
  function Up(launches: Launches, n: nat): (pids: seq<nat>)
    ensures |pids| <= n
    ensures (forall k: nat | k < n :: launches.up(k)) ==> |pids| == n
  {
    if n == 0 then []
    else if launches.up(n - 1) then Up(launches, n - 1) + [launches.pid(n - 1)]
    else Up(launches, n - 1)
  }

  lemma {:induction false} PushAllOneMore(file: File, pids: seq<nat>, pid: nat)
    ensures PushAll(file, pids + [pid]) == Push(PushAll(file, pids), pid)
    decreases |pids|
  {
    if pids != [] {
      PushAllOneMore(Push(file, pids[0]), pids[1..], pid);
      assert (pids + [pid])[1..] == pids[1..] + [pid];
    }
  }

  lemma {:induction false} StopOneMore(h: PidFile.Host, n: nat)
    ensures StopTimes(h, n + 1) == AfterStop(StopTimes(h, n))
    decreases n
  {
    if n > 0 {
      StopOneMore(AfterStop(h), n - 1);
    }
  }

  /** jobmanager.sh or taskmanager.sh start, n times. */
  method StartMany(daemon: Daemon, n: nat, launches: Launches)
    modifies daemon`pidFile, daemon.machine
    ensures daemon.pidFile == PushAll(old(daemon.pidFile), Up(launches, n))
    ensures daemon.machine.processes
         == old(daemon.machine.processes).(live := old(daemon.machine.processes.live) + Elems(Up(launches, n)))
  {
    var i := 0;
    while i < n
      invariant i <= n
      invariant daemon.pidFile == PushAll(old(daemon.pidFile), Up(launches, i))
      invariant daemon.machine.processes
             == old(daemon.machine.processes).(live := old(daemon.machine.processes.live) + Elems(Up(launches, i)))
    {
      PushAllOneMore(old(daemon.pidFile), Up(launches, i), launches.pid(i));
      var _, _, _ := daemon.Start(launches.pid(i), launches.up(i));
      i := i + 1;
    }
  }

  lemma StopTimesLines(h: PidFile.Host, n: nat)
    ensures |Lines(StopTimes(h, n).file)| == if n <= |Lines(h.file)| then |Lines(h.file)| - n else 0
  {
    StopTimesKills(h, n);
  }

  method StopMany(daemon: Daemon, n: nat)
    modifies daemon`pidFile, daemon.machine
    ensures daemon.View() == StopTimes(old(daemon.View()), n)
  {
    var i := 0;
    while i < n
      invariant i <= n
      invariant daemon.View() == StopTimes(old(daemon.View()), i)
    {
      StopOneMore(old(daemon.View()), i);
      daemon.Stop();
      i := i + 1;
    }
  }

  /** high-availability set to zookeeper, the lines of conf/masters and conf/workers, if there, and the names
      by which ssh reaches this machine. */
  datatype Config = Config(ha: bool, masters: Option<seq<string>>, workers: Option<seq<string>>, names: set<string>)

  /** Without the file it needs a script stops where it is. */
  predicate MastersMissing(c: Config) {
    c.ha && c.masters.None?
  }

  /** Those of the listed hosts that are this machine. */
  function Here(hosts: seq<string>, names: set<string>): (here: seq<string>)
    ensures |here| <= |hosts|
  {
    if hosts == [] then []
    else if hosts[0] in names then [hosts[0]] + Here(hosts[1..], names)
    else Here(hosts[1..], names)
  }

  /** How many of the listed daemons run on this machine: in an all-local list all, otherwise those for which
      ssh leads back here. */
  function CountHere(hosts: seq<string>, allLocal: bool, names: set<string>): nat {
    if allLocal then |hosts| else |Here(hosts, names)|
  }

  /** JobManagers on this machine: one, or with high availability one per master listed here. */
  function JobManagers(c: Config): nat {
    if !c.ha then 1
    else if c.masters.None? then 0
    else var es := Entries(c.masters.value); CountHere(Masters(es), LocalMasters(es), c.names)
  }

  function TaskManagers(c: Config): nat {
    if c.workers.None? then 0
    else var es := Entries(c.workers.value); CountHere(es, AllLocal(es), c.names)
  }

  lemma {:induction false} HerePositions(hosts: seq<string>, names: set<string>)
    ensures |Here(hosts, names)| == |set k: nat | k < |hosts| && hosts[k] in names|
  {
    var at := set k: nat | k < |hosts| && hosts[k] in names;
    if hosts == [] {
      assert at == {};
    } else {
      HerePositions(hosts[1..], names);
      var tail := set k: nat | k < |hosts[1..]| && hosts[1..][k] in names;
      OnePositionMore(tail, at);
    }
  }

  /** Without high availability there is one JobManager; with it, if every master is localhost or 127.0.0.1, one
      for each that is listed, and otherwise one for each position at which this machine is listed. */
  lemma JobManagersMeaning(c: Config)
    ensures !c.ha ==> JobManagers(c) == 1
    ensures c.ha && c.masters.None? ==> JobManagers(c) == 0
    ensures c.ha && c.masters.Some? ==>
              var es := Entries(c.masters.value);
              var hosts := Masters(es);
              JobManagers(c) == if forall e | e in es :: ClusterConfig.Host(e) in ["localhost", "127.0.0.1"]
                                then |hosts| else |set k: nat | k < |hosts| && hosts[k] in c.names|
  {
    if c.ha && c.masters.Some? {
      var es := Entries(c.masters.value);
      LocalMastersMeaning(es);
      HerePositions(Masters(es), c.names);
    }
  }

  /** The same for the TaskManagers and the workers. */
  lemma TaskManagersMeaning(c: Config)
    ensures c.workers.None? ==> TaskManagers(c) == 0
    ensures c.workers.Some? ==>
              var hosts := Entries(c.workers.value);
              TaskManagers(c) == if forall h | h in hosts :: h in ["localhost", "127.0.0.1"]
                                 then |hosts| else |set k: nat | k < |hosts| && hosts[k] in c.names|
  {
    if c.workers.Some? {
      HerePositions(Entries(c.workers.value), c.names);
    }
  }

  /** Of the first n launches, one pid each of those that came up. */
  lemma {:induction false} UpMeaning(launches: Launches, n: nat)
    ensures |Up(launches, n)| == |set k: nat | k < n && launches.up(k)|
    ensures forall p :: p in Up(launches, n) <==> exists k: nat :: k < n && launches.up(k) && launches.pid(k) == p
  {
    var at := set k: nat | k < n && launches.up(k);
    if n == 0 {
      assert at == {};
    } else {
      UpMeaning(launches, n - 1);
      var before := set k: nat | k < n - 1 && launches.up(k);
      assert at == before + if launches.up(n - 1) then {n - 1} else {};
    }
  }

  /** start-cluster.sh looks for the masters first, stop-cluster.sh for the workers. */
  function StartedCounts(c: Config): (nat, nat) {
    (JobManagers(c), if MastersMissing(c) then 0 else TaskManagers(c))
  }

  function StoppedCounts(c: Config): (nat, nat) {
    (if c.workers.None? then 0 else JobManagers(c), TaskManagers(c))
  }

  /** The loop over a host list, seen from this machine. */
  method DaemonsHere(hosts: seq<string>, allLocal: bool, names: set<string>) returns (n: nat)
    ensures n == CountHere(hosts, allLocal, names)
  {
    n := 0;
    var i := 0;
    while i < |hosts|
      invariant i <= |hosts|
      invariant n + CountHere(hosts[i..], allLocal, names) == CountHere(hosts, allLocal, names)
    {
      assert hosts[i..][1..] == hosts[i + 1..];
      if allLocal || hosts[i] in names {
        n := n + 1;
      }
      i := i + 1;
    }
  }

  /** TMWorkers, seen from this machine; fails if there is no workers file. */
  method LocalTaskManagers(c: Config) returns (ok: bool, n: nat)
    ensures ok == c.workers.Some? && n == TaskManagers(c)
  {
    if c.workers.None? {
      return false, 0;
    }
    var hosts, allLocal := ReadWorkers(c.workers.value);
    ok := true;
    n := DaemonsHere(hosts, allLocal, c.names);
  }

  method LocalJobManagers(c: Config) returns (ok: bool, n: nat)
    ensures ok == !MastersMissing(c) && n == JobManagers(c)
  {
    if !c.ha {
      return true, 1;
    }
    if c.masters.None? {
      return false, 0;
    }
    var hosts, _, allLocal := ReadMasters(c.masters.value);
    ok := true;
    n := DaemonsHere(hosts, allLocal, c.names);
  }

  method StartCluster(jm: Daemon, tm: Daemon, c: Config, jmLaunches: Launches, tmLaunches: Launches)
    requires jm != tm && jm.machine == tm.machine
    modifies jm`pidFile, tm`pidFile, jm.machine
    ensures var (m, w) := StartedCounts(c);
            var before := old(jm.machine.processes);
            && jm.pidFile == PushAll(old(jm.pidFile), Up(jmLaunches, m))
            && tm.pidFile == PushAll(old(tm.pidFile), Up(tmLaunches, w))
            && jm.machine.processes
               == before.(live := before.live + Elems(Up(jmLaunches, m)) + Elems(Up(tmLaunches, w)))
    ensures (forall k: nat :: jmLaunches.up(k)) ==>
              |Lines(jm.pidFile)| == |Lines(old(jm.pidFile))| + JobManagers(c)
    ensures (forall k: nat :: tmLaunches.up(k)) ==>
              |Lines(tm.pidFile)| == |Lines(old(tm.pidFile))| + if c.ha && c.masters.None? then 0 else TaskManagers(c)
  {
    PushAllLines(jm.pidFile, Up(jmLaunches, StartedCounts(c).0));
    PushAllLines(tm.pidFile, Up(tmLaunches, StartedCounts(c).1));
    var ok, m := LocalJobManagers(c);
    StartMany(jm, m, jmLaunches);
    if ok {
      var _, w := LocalTaskManagers(c);
      StartMany(tm, w, tmLaunches);
    }
  }

  method StopCluster(jm: Daemon, tm: Daemon, c: Config)
    requires jm != tm && jm.machine == tm.machine
    modifies jm`pidFile, tm`pidFile, jm.machine
    ensures var (m, w) := StoppedCounts(c);
            var tmEnd := StopTimes(old(tm.View()), w);
            var jmEnd := StopTimes(PidFile.Host(old(jm.pidFile), tmEnd.processes), m);
            && tm.pidFile == tmEnd.file && jm.pidFile == jmEnd.file
            && jm.machine.processes == jmEnd.processes
    ensures var m := if c.workers.None? then 0 else JobManagers(c);
            |Lines(jm.pidFile)| == if m <= |Lines(old(jm.pidFile))| then |Lines(old(jm.pidFile))| - m else 0
    ensures var w := TaskManagers(c);
            |Lines(tm.pidFile)| == if w <= |Lines(old(tm.pidFile))| then |Lines(old(tm.pidFile))| - w else 0
  {
    StopTimesLines(tm.View(), StoppedCounts(c).1);
    StopTimesLines(PidFile.Host(jm.pidFile, StopTimes(tm.View(), StoppedCounts(c).1).processes), StoppedCounts(c).0);
    var ok, w := LocalTaskManagers(c);
    StopMany(tm, w);
    if ok {
      var _, m := LocalJobManagers(c);
      StopMany(jm, m);
    }
  }

  /** What stop-cluster leaves of the two pid files and of the processes after start-cluster, when by then the
      processes are `p`. */
  function StopAfterStart(c: Config, jmFile: File, tmFile: File, jm: Launches, tm: Launches, p: Processes)
    : (PidFile.Host, PidFile.Host)
  {
    var (started, stopped) := (StartedCounts(c), StoppedCounts(c));
    var tmEnd := StopTimes(PidFile.Host(PushAll(tmFile, Up(tm, started.1)), p), stopped.1);
    (StopTimes(PidFile.Host(PushAll(jmFile, Up(jm, started.0)), tmEnd.processes), stopped.0), tmEnd)
  }

  /** The pid file comes back after pushing `pushed` and popping n: as many, and it was not an empty file, or
      there was none and no fewer were popped. */
  predicate Restored(file: File, pushed: nat, n: nat) {
    (pushed == n && (n == 0 || file != Some([]))) || (file == None && pushed <= n)
  }

  /** For any configuration, missing files included, and with starts that fail: exactly when each pid file comes
      back to what it was. */
  lemma StopRestoresIff(c: Config, jmFile: File, tmFile: File, jm: Launches, tm: Launches, p: Processes)
    ensures var (jmEnd, tmEnd) := StopAfterStart(c, jmFile, tmFile, jm, tm, p);
            && (jmEnd.file == jmFile <==> Restored(jmFile, |Up(jm, StartedCounts(c).0)|, StoppedCounts(c).0))
            && (tmEnd.file == tmFile <==> Restored(tmFile, |Up(tm, StartedCounts(c).1)|, StoppedCounts(c).1))
  {
    var (jmEnd, tmEnd) := StopAfterStart(c, jmFile, tmFile, jm, tm, p);
    StartsThenStops(tmFile, Up(tm, StartedCounts(c).1), StoppedCounts(c).1, p);
    StartsThenStops(jmFile, Up(jm, StartedCounts(c).0), StoppedCounts(c).0, tmEnd.processes);
  }

  /** If every start succeeds it depends on the configuration alone: a JobManager file comes back unless the
      workers file is missing, a TaskManager file unless the masters file is missing and there was one already. */
  lemma RestoredByConfigIff(c: Config, jmFile: File, tmFile: File, jm: Launches, tm: Launches, p: Processes)
    requires forall k: nat :: jm.up(k) && tm.up(k)
    ensures var (jmEnd, tmEnd) := StopAfterStart(c, jmFile, tmFile, jm, tm, p);
            && (jmEnd.file == jmFile <==> JobManagers(c) == 0 || (c.workers.Some? && jmFile != Some([])))
            && (tmEnd.file == tmFile
                <==> (TaskManagers(c) == 0 || (if MastersMissing(c) then tmFile == None else tmFile != Some([]))))
  {
    StopRestoresIff(c, jmFile, tmFile, jm, tm, p);
  }

  /** Whenever both pid files come back, exactly the started processes that still run have been signalled, and
      they go; with distinct pids, in the opposite order of starting. */
  lemma RestoredMeansStopped(c: Config, jmFile: File, tmFile: File, jm: Launches, tm: Launches, p: Processes)
    ensures var (jmEnd, tmEnd) := StopAfterStart(c, jmFile, tmFile, jm, tm, p);
            jmEnd.file == jmFile && tmEnd.file == tmFile ==>
              var started := Up(jm, StartedCounts(c).0) + Up(tm, StartedCounts(c).1);
              StoppedExactly(p, started, jmEnd.processes)
  {
    var jmUp, tmUp := Up(jm, StartedCounts(c).0), Up(tm, StartedCounts(c).1);
    var (jmEnd, tmEnd) := StopAfterStart(c, jmFile, tmFile, jm, tm, p);
    StartsThenStops(tmFile, tmUp, StoppedCounts(c).1, p);
    StartsThenStops(jmFile, jmUp, StoppedCounts(c).0, tmEnd.processes);
    KillAllConcat(p, Reverse(tmUp), Reverse(jmUp));
    ReverseConcat(jmUp, tmUp);
    KilledInReverse(p, jmUp + tmUp);
  }

  /** From p to q exactly the running ones of `started` were signalled, and those that can be killed are gone. */
  predicate StoppedExactly(p: Processes, started: seq<nat>, q: Processes) {
    && q.live == p.live - (Elems(started) - p.stubborn)
    && p.signals <= q.signals
    && Elems(q.signals[|p.signals|..]) == Elems(started) * p.live
    && (Distinct(started) ==> q.signals == p.signals + Running(Reverse(started), p.live))
  }

  lemma KilledInReverse(p: Processes, started: seq<nat>)
    ensures StoppedExactly(p, started, p.KillAll(Reverse(started)))
  {
    ReverseMembers(started);
    KillAllEffect(p, Reverse(started));
    if Distinct(started) {
      KillAllInOrder(p, Reverse(started));
    }
  }

  /** For either pid file: no process was to be started, or as many are stopped as started and it was not an empty
      file; without a masters file, no TaskManager is started and there must have been none to stop. */
  predicate Undoable(c: Config, jmFile: File, tmFile: File) {
    && (JobManagers(c) == 0 || (c.workers.Some? && jmFile != Some([])))
    && (TaskManagers(c) == 0 || (if MastersMissing(c) then tmFile == None else tmFile != Some([])))
  }

  /** With an unchanged configuration and every start successful, both pid files come back to what they were exactly
      when the files that the scripts need are there (or the one missing matters to nobody) and neither pid file
      was an empty one; and then exactly the started processes that still run are signalled and go, with distinct
      pids in the opposite order of starting. */
  lemma StopUndoesStart(c: Config, jmFile: File, tmFile: File, jm: Launches, tm: Launches, p: Processes)
    requires forall k: nat :: jm.up(k) && tm.up(k)
    ensures var (jmEnd, tmEnd) := StopAfterStart(c, jmFile, tmFile, jm, tm, p);
            var started := Up(jm, StartedCounts(c).0) + Up(tm, StartedCounts(c).1);
            && (jmEnd.file == jmFile && tmEnd.file == tmFile <==> Undoable(c, jmFile, tmFile))
            && (Undoable(c, jmFile, tmFile) ==> StoppedExactly(p, started, jmEnd.processes))
  {
    RestoredByConfigIff(c, jmFile, tmFile, jm, tm, p);
    RestoredMeansStopped(c, jmFile, tmFile, jm, tm, p);
  }

  /** What StopRestoresIff and RestoredMeansStopped say of the state after both scripts. */
  predicate UndoneWhereRestored(c: Config, jmFile: File, tmFile: File, jm: Launches, tm: Launches, p: Processes,
                                jmEnd: File, tmEnd: File, q: Processes)
  {
    var jmUp, tmUp := Up(jm, StartedCounts(c).0), Up(tm, StartedCounts(c).1);
    && (jmEnd == jmFile <==> Restored(jmFile, |jmUp|, StoppedCounts(c).0))
    && (tmEnd == tmFile <==> Restored(tmFile, |tmUp|, StoppedCounts(c).1))
    && (jmEnd == jmFile && tmEnd == tmFile ==> StoppedExactly(p, jmUp + tmUp, q))
  }

  lemma UndoneAfterBoth(c: Config, jmFile: File, tmFile: File, jm: Launches, tm: Launches, p: Processes)
    ensures var (jmEnd, tmEnd) := StopAfterStart(c, jmFile, tmFile, jm, tm, p);
            UndoneWhereRestored(c, jmFile, tmFile, jm, tm, p, jmEnd.file, tmEnd.file, jmEnd.processes)
  {
    StopRestoresIff(c, jmFile, tmFile, jm, tm, p);
    RestoredMeansStopped(c, jmFile, tmFile, jm, tm, p);
  }

  /** The processes once start-cluster.sh is through and those of `exited` have exited. */
  function Between(c: Config, jm: Launches, tm: Launches, p: Processes, exited: set<nat>): Processes {
    p.(live := p.live + Elems(Up(jm, StartedCounts(c).0)) + Elems(Up(tm, StartedCounts(c).1)) - exited)
  }

  method RunBoth(jm: Daemon, tm: Daemon, c: Config, jmLaunches: Launches, tmLaunches: Launches, exited: set<nat>)
    requires jm != tm && jm.machine == tm.machine
    modifies jm`pidFile, tm`pidFile, jm.machine
    ensures var p := Between(c, jmLaunches, tmLaunches, old(jm.machine.processes), exited);
            var (jmEnd, tmEnd) := StopAfterStart(c, old(jm.pidFile), old(tm.pidFile), jmLaunches, tmLaunches, p);
            jm.View() == jmEnd && tm.pidFile == tmEnd.file
  {
    StartCluster(jm, tm, c, jmLaunches, tmLaunches);
    jm.machine.processes := jm.machine.processes.(live := jm.machine.processes.live - exited);
    StopCluster(jm, tm, c);
  }

  /** start-cluster.sh, then any processes exit, then stop-cluster.sh. */
  method StartThenStop(jm: Daemon, tm: Daemon, c: Config, jmLaunches: Launches, tmLaunches: Launches,
                       exited: set<nat>)
    requires jm != tm && jm.machine == tm.machine
    modifies jm`pidFile, tm`pidFile, jm.machine
    ensures UndoneWhereRestored(c, old(jm.pidFile), old(tm.pidFile), jmLaunches, tmLaunches,
                                Between(c, jmLaunches, tmLaunches, old(jm.machine.processes), exited),
                                jm.pidFile, tm.pidFile, jm.machine.processes)
  {
    ghost var p := Between(c, jmLaunches, tmLaunches, jm.machine.processes, exited);
    UndoneAfterBoth(c, jm.pidFile, tm.pidFile, jmLaunches, tmLaunches, p);
    RunBoth(jm, tm, c, jmLaunches, tmLaunches, exited);
  }

  /** Without a workers file a JobManager is started, but no script stops it. */
  lemma JobManagerIsLeft(c: Config, jmFile: File, tmFile: File, jm: Launches, tm: Launches, p: Processes)
    requires !c.ha && c.workers == None && jm.up(0)
    ensures var (jmEnd, tmEnd) := StopAfterStart(c, jmFile, tmFile, jm, tm, p);
            jmEnd.file == Push(jmFile, jm.pid(0)) && jmEnd.processes == p && tmEnd.file == tmFile
  {
    assert Up(jm, 1) == [] + [jm.pid(0)] == [jm.pid(0)];
    assert PushAll(jmFile, [jm.pid(0)]) == Push(jmFile, jm.pid(0));
  }

  /** Without a masters file no TaskManager is started, but the one of an earlier start is stopped. */
  lemma EarlierTaskManagerIsStopped(c: Config, earlier: nat, jmFile: File, jm: Launches, tm: Launches, p: Processes)
    requires MastersMissing(c) && TaskManagers(c) == 1 && earlier in p.live
    ensures var (jmEnd, tmEnd) := StopAfterStart(c, jmFile, Some([earlier]), jm, tm, p);
            tmEnd.file == None && tmEnd.processes.signals == p.signals + [earlier]
  {
    assert StopTimes(PidFile.Host(Some([earlier]), p), 1) == AfterStop(PidFile.Host(Some([earlier]), p));
  }

  /** If the start of the only TaskManager fails, stopping pops the one started before it. */
  lemma FailedStartPopsEarlier(c: Config, earlier: nat, jmFile: File, jm: Launches, tm: Launches, p: Processes)
    requires !MastersMissing(c) && TaskManagers(c) == 1 && !tm.up(0) && earlier in p.live
    ensures var (jmEnd, tmEnd) := StopAfterStart(c, jmFile, Some([earlier]), jm, tm, p);
            tmEnd.file == None && tmEnd.processes.signals == p.signals + [earlier]
  {
    assert Up(tm, 1) == [];
    assert StopTimes(PidFile.Host(Some([earlier]), p), 1) == AfterStop(PidFile.Host(Some([earlier]), p));
  }
}
