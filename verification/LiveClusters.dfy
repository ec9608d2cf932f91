/** The parser of a worker's `/clusters` text in `GetLiveClusters`, and the proof that it
    undoes the printing of any cluster list. */
module LiveClusters {
  import opened Text

  datatype Endpoint = Endpoint(address: string, priority: int, health: string, requestsSuccess: nat, requestsTotal: nat)
  datatype Cluster = Cluster(name: string, endpoints: seq<Endpoint>)

  function NewEndpoint(address: string): Endpoint {
    Endpoint(address, 0, "", 0, 0)
  }

  predicate SkippedName(name: string) {
    name == "xds_cluster" || name == "log_cluster"
  }

  predicate SkippedAddress(address: string) {
    address == "default_priority" || address == "high_priority" || address == "added_via_api"
  }

  predicate KnownStat(stat: string) {
    stat == "priority" || stat == "health_flags" || stat == "rq_total" || stat == "rq_success"
  }

  function SetStat(ep: Endpoint, stat: string, value: string): Endpoint {
    if stat == "priority" then ep.(priority := Atoi(value))
    else if stat == "health_flags" then ep.(health := value)
    else if stat == "rq_total" then ep.(requestsTotal := ParseUint(value, MAX_UINT32))
    else if stat == "rq_success" then ep.(requestsSuccess := ParseUint(value, MAX_UINT32))
    else ep
  }

  // ---- The fold over lines ----

  /** The cluster list with the row's cluster and endpoint as its last ones. */
  function OpenRow(clusters: seq<Cluster>, name: string, address: string): (r: seq<Cluster>)
    ensures |r| > 0 && |r[|r| - 1].endpoints| > 0
  {
    var named := if clusters == [] || clusters[|clusters| - 1].name != name then clusters + [Cluster(name, [])] else clusters;
    var last := named[|named| - 1];
    var eps := last.endpoints;
    if eps == [] || eps[|eps| - 1].address != address
    then named[|named| - 1 := last.(endpoints := eps + [NewEndpoint(address)])]
    else named
  }

  function PatchLast(clusters: seq<Cluster>, stat: string, value: string): seq<Cluster>
    requires |clusters| > 0 && |clusters[|clusters| - 1].endpoints| > 0
  {
    var last := clusters[|clusters| - 1];
    var e := |last.endpoints| - 1;
    clusters[|clusters| - 1 := last.(endpoints := last.endpoints[e := SetStat(last.endpoints[e], stat, value)])]
  }

  /** One turn of the loop; a line with too few fields indexes out of range. */
  function ParseLine(clusters: seq<Cluster>, line: string): Outcome<seq<Cluster>> {
    var fields := Split(line, "::");
    if SkippedName(fields[0]) then Done(clusters)
    else if |fields| < 2 then Panic
    else if SkippedAddress(fields[1]) then Done(clusters)
    else if |fields| < 3 || (KnownStat(fields[2]) && |fields| < 4) then Panic
    else Done(PatchLast(OpenRow(clusters, fields[0], fields[1]), fields[2], if |fields| < 4 then "" else fields[3]))
  }

  function ParseLines(clusters: seq<Cluster>, lines: seq<string>): Outcome<seq<Cluster>>
    decreases |lines|
  {
    if lines == [] then Done(clusters)
    else
      var next := ParseLine(clusters, lines[0]);
      if next.Panic? then Panic else ParseLines(next.value, lines[1..])
  }

  /** A line that is not skipped and ends before a column that is read. */
  predicate Short(line: string) {
    var fields := Split(line, "::");
    && !SkippedName(fields[0])
    && (|fields| < 2 || (!SkippedAddress(fields[1]) && (|fields| < 3 || (|fields| < 4 && KnownStat(fields[2])))))
  }

  /** A text panics the parser exactly if one of its lines is short, whatever comes before it. */
  lemma {:induction false} ShortLinesPanic(clusters: seq<Cluster>, lines: seq<string>)
    ensures ParseLines(clusters, lines).Panic? <==> exists line :: line in lines && Short(line)
    decreases |lines|
  {
    if lines != [] {
      var next := ParseLine(clusters, lines[0]);
      assert next.Panic? <==> Short(lines[0]);
      if next.Done? {
        ShortLinesPanic(next.value, lines[1..]);
        assert lines == [lines[0]] + lines[1..];
      }
    }
  }

  /** The newline-terminated lines of a text; what follows the last newline is not read. */
  function CompleteLines(text: string): seq<string> {
    var pieces := Split(text, "\n");
    pieces[..|pieces| - 1]
  }

  lemma NextLine(text: string)
    requires Find(text, "\n").Some?
    ensures CompleteLines(text) ==
      [text[..Find(text, "\n").value]] + CompleteLines(text[Find(text, "\n").value + 1..])
  {
    var cut := Find(text, "\n").value;
    assert Split(text, "\n") == [text[..cut]] + Split(text[cut + 1..], "\n");
  }

  /** The body of the loop: the last cluster and its last endpoint are patched in place. */
  method TakeLine(before: seq<Cluster>, line: string) returns (result: Outcome<seq<Cluster>>)
    ensures result == ParseLine(before, line)
  {
    var clusters := before;
    var fields := Split(line, "::");
    if SkippedName(fields[0]) {
      return Done(clusters);
    }
    if |fields| < 2 {
      return Panic;
    }
    if SkippedAddress(fields[1]) {
      return Done(clusters);
    }
    if |fields| < 3 || (KnownStat(fields[2]) && |fields| < 4) {
      return Panic;
    }
    if clusters == [] || clusters[|clusters| - 1].name != fields[0] {
      clusters := clusters + [Cluster(fields[0], [])];
    }
    var c := |clusters| - 1;
    var eps := clusters[c].endpoints;
    if eps == [] || eps[|eps| - 1].address != fields[1] {
      clusters := clusters[c := clusters[c].(endpoints := eps + [NewEndpoint(fields[1])])];
    }
    assert clusters == OpenRow(before, fields[0], fields[1]);
    var e := |clusters[c].endpoints| - 1;
    var patched := SetStat(clusters[c].endpoints[e], fields[2], if |fields| < 4 then "" else fields[3]);
    return Done(clusters[c := clusters[c].(endpoints := clusters[c].endpoints[e := patched])]);
  }

  /** `GetLiveClusters` from the opened response body on. */
  method GetLiveClusters(body: string) returns (result: Outcome<seq<Cluster>>)
    ensures result == ParseLines([], CompleteLines(body))
    ensures result.Panic? <==> exists line :: line in CompleteLines(body) && Short(line)
  {
    ShortLinesPanic([], CompleteLines(body));
    result := Done([]);
    var rest := body;
    while true
      invariant result.Done? && ParseLines(result.value, CompleteLines(rest)) == ParseLines([], CompleteLines(body))
      decreases |rest|
    {
      var cut := Find(rest, "\n");
      if cut.None? {
        return;
      }
      NextLine(rest);
      result := TakeLine(result.value, rest[..cut.value]);
      if result.Panic? {
        return;
      }
      rest := rest[cut.value + 1..];
    }
  }

  // ---- Printing ----

  datatype Row = Row(name: string, address: string, stat: string, value: string) {
    function Columns(): seq<string> {
      [name, address, stat, value]
    }
  }

  /** A printed line: a row of some endpoint, or one of the lines that the parser skips. */
  datatype Line = Stat(row: Row) | Other(text: string) {
    function Text(): string {
      match this
      case Stat(row) => Join(row.Columns(), "::")
      case Other(text) => text
    }
  }

  /** The rows of one endpoint, in any order, with any other statistics among them. */
  datatype EndpointRows = EndpointRows(endpoint: Endpoint, stats: seq<(string, string)>)
  datatype ClusterRows = ClusterRows(name: string, endpoints: seq<EndpointRows>)

  function Print(lines: seq<Line>): string {
    if lines == [] then "" else lines[0].Text() + "\n" + Print(lines[1..])
  }

  function StatRows(lines: seq<Line>): seq<Row> {
    if lines == [] then []
    else (if lines[0].Stat? then [lines[0].row] else []) + StatRows(lines[1..])
  }

  function RowsOfEndpoint(name: string, address: string, stats: seq<(string, string)>): seq<Row> {
    seq(|stats|, i requires 0 <= i < |stats| => Row(name, address, stats[i].0, stats[i].1))
  }

  function RowsOfEndpoints(name: string, eps: seq<EndpointRows>): seq<Row> {
    if eps == [] then []
    else RowsOfEndpoint(name, eps[0].endpoint.address, eps[0].stats) + RowsOfEndpoints(name, eps[1..])
  }

  function RowsOfClusters(clusters: seq<ClusterRows>): seq<Row> {
    if clusters == [] then []
    else RowsOfEndpoints(clusters[0].name, clusters[0].endpoints) + RowsOfClusters(clusters[1..])
  }

  /** What comes back of an endpoint: numbers clamped to the widths they are parsed for. */
  function Clamped(ep: Endpoint): Endpoint {
    ep.(priority := if ep.priority < 0 then ep.priority else Min(ep.priority, MAX_INT64),
        requestsSuccess := Min(ep.requestsSuccess, MAX_UINT32),
        requestsTotal := Min(ep.requestsTotal, MAX_UINT32))
  }

  /** A known statistic is printed with the endpoint's value, any other with any value. */
  predicate ShowsValue(ep: Endpoint, stat: string, value: string) {
    if stat == "priority" then ep.priority >= 0 && value == Decimal(ep.priority)
    else if stat == "health_flags" then value == ep.health
    else if stat == "rq_total" then value == Decimal(ep.requestsTotal)
    else if stat == "rq_success" then value == Decimal(ep.requestsSuccess)
    else true
  }

  predicate Mentions(stats: seq<(string, string)>, stat: string) {
    exists i :: 0 <= i < |stats| && stats[i].0 == stat
  }

  /** At least one row, every known statistic in it or still at its default. */
  predicate Describes(rows: EndpointRows) {
    var ep := rows.endpoint;
    && ep.priority >= 0 && rows.stats != []
    && (forall i :: 0 <= i < |rows.stats| ==> ShowsValue(ep, rows.stats[i].0, rows.stats[i].1))
    && (Mentions(rows.stats, "priority") || ep.priority == 0)
    && (Mentions(rows.stats, "health_flags") || ep.health == "")
    && (Mentions(rows.stats, "rq_total") || ep.requestsTotal == 0)
    && (Mentions(rows.stats, "rq_success") || ep.requestsSuccess == 0)
  }

  /** Clusters with at least one endpoint; neighbouring endpoints have different addresses. */
  predicate WellLaidOutCluster(c: ClusterRows) {
    && c.endpoints != []
    && (forall i :: 0 <= i < |c.endpoints| ==> Describes(c.endpoints[i]))
    && (forall i :: 0 < i < |c.endpoints| ==> c.endpoints[i - 1].endpoint.address != c.endpoints[i].endpoint.address)
  }

  /** Neighbouring clusters have different names. */
  predicate WellLaidOut(clusters: seq<ClusterRows>) {
    && (forall i :: 0 <= i < |clusters| ==> WellLaidOutCluster(clusters[i]))
    && (forall i :: 0 < i < |clusters| ==> clusters[i - 1].name != clusters[i].name)
  }

  /** A row whose columns survive the line format and that the parser does not skip. */
  predicate Printable(row: Row) {
    && Separable(row.Columns(), "::") && '\n' !in Join(row.Columns(), "::")
    && !SkippedName(row.name) && !SkippedAddress(row.address)
  }

  predicate Skipped(line: string) {
    var fields := Split(line, "::");
    SkippedName(fields[0]) || (|fields| >= 2 && SkippedAddress(fields[1]))
  }

  predicate GoodLine(line: Line) {
    match line
    case Stat(row) => Printable(row)
    case Other(text) => Skipped(text) && '\n' !in text
  }

  function ParsedEndpoints(eps: seq<EndpointRows>): seq<Endpoint> {
    seq(|eps|, i requires 0 <= i < |eps| => Clamped(eps[i].endpoint))
  }

  function Parsed(clusters: seq<ClusterRows>): seq<Cluster> {
    seq(|clusters|, i requires 0 <= i < |clusters| => Cluster(clusters[i].name, ParsedEndpoints(clusters[i].endpoints)))
  }

  // ---- From text to rows ----

  function AddRow(clusters: seq<Cluster>, row: Row): seq<Cluster> {
    PatchLast(OpenRow(clusters, row.name, row.address), row.stat, row.value)
  }

  function AddRows(clusters: seq<Cluster>, rows: seq<Row>): seq<Cluster>
    decreases |rows|
  {
    if rows == [] then clusters else AddRows(AddRow(clusters, rows[0]), rows[1..])
  }

  /** No colon is followed by a colon, nor stands at the end. */
  predicate NoOpenColon(column: string) {
    forall i :: 0 <= i < |column| && column[i] == ':' ==> i + 1 < |column| && column[i + 1] != ':'
  }

  predicate NoDoubleColon(column: string) {
    forall i :: 0 <= i < |column| - 1 && column[i] == ':' ==> column[i + 1] != ':'
  }

  lemma ColonsAt(s: string, j: nat)
    ensures OccursAt(s, "::", j) <==> j + 2 <= |s| && s[j] == ':' && s[j + 1] == ':'
  {
    if j + 2 <= |s| {
      var t := s[j..j + 2];
      assert t[0] == s[j] && t[1] == s[j + 1];
    }
  }

  lemma CleanBeforeColons(column: string)
    ensures CleanBefore(column, "::") <==> NoOpenColon(column)
  {
    var t := column + "::";
    ColonsAt(t, |column|);
    forall j: nat | j < |column|
      ensures OccursAt(t, "::", j) <==> column[j] == ':' && (j + 1 < |column| ==> column[j + 1] == ':')
    {
      ColonsAt(t, j);
    }
    if CleanBefore(column, "::") {
      forall i | 0 <= i < |column| && column[i] == ':'
        ensures i + 1 < |column| && column[i + 1] != ':'
      {
        assert !OccursAt(t, "::", i);
      }
    }
  }

  lemma NoColonsFound(column: string)
    ensures Find(column, "::").None? <==> NoDoubleColon(column)
  {
    forall j: nat
      ensures OccursAt(column, "::", j) <==> j + 1 < |column| && column[j] == ':' && column[j + 1] == ':'
    {
      ColonsAt(column, j);
    }
    if Find(column, "::").None? {
      forall i | 0 <= i < |column| - 1 && column[i] == ':'
        ensures column[i + 1] != ':'
      {
        assert !OccursAt(column, "::", i);
      }
    } else {
      var cut := Find(column, "::").value;
      assert 0 <= cut < |column| - 1 && column[cut] == ':' == column[cut + 1];
    }
  }

  /** The line format gives a row's columns back exactly when no colon in the first three is
      followed by a colon or stands last, and no two colons meet in the value. */
  lemma LineFormatIsExact(row: Row)
    ensures Split(Join(row.Columns(), "::"), "::") == row.Columns() <==>
      NoOpenColon(row.name) && NoOpenColon(row.address) && NoOpenColon(row.stat) && NoDoubleColon(row.value)
  {
    SplitUndoesJoin(row.Columns(), "::");
    SeparableColumns(row);
  }

  lemma SeparableColumns(row: Row)
    ensures Separable(row.Columns(), "::") <==>
      NoOpenColon(row.name) && NoOpenColon(row.address) && NoOpenColon(row.stat) && NoDoubleColon(row.value)
  {
    var columns := row.Columns();
    CleanBeforeColons(row.name);
    CleanBeforeColons(row.address);
    CleanBeforeColons(row.stat);
    NoColonsFound(row.value);
    assert columns[0] == row.name && columns[1] == row.address && columns[2] == row.stat && columns[3] == row.value;
  }

  lemma HeadIsSplitOff(head: string, rest: string)
    requires NoOpenColon(head)
    ensures Split(head + "::" + rest, "::") == [head] + Split(rest, "::")
  {
    CleanBeforeColons(head);
    FindInExtension(head, "::", rest);
    assert (head + "::" + rest)[..|head|] == head && (head + "::" + rest)[|head| + 2..] == rest;
  }

  /** A row of an address with "::" in it, such as an abbreviated IPv6 address. */
  function CutRow(name: string, front: string, back: string, stat: string, value: string): Row {
    Row(name, front + "::" + back, stat, value)
  }

  lemma CutRowText(name: string, front: string, back: string, stat: string, value: string)
    ensures Stat(CutRow(name, front, back, stat, value)).Text() ==
      name + "::" + (front + "::" + (back + "::" + (stat + "::" + value)))
  {
    var columns := [name, front + "::" + back, stat, value];
    assert columns[1..] == [front + "::" + back, stat, value] && columns[1..][1..] == [stat, value];
    assert [stat, value][1..] == [value];
    assert Join([stat, value], "::") == stat + "::" + value;
    assert Join(columns[1..], "::") == (front + "::" + back) + "::" + (stat + "::" + value);
    assert (front + "::" + back) + "::" + (stat + "::" + value) == front + "::" + (back + "::" + (stat + "::" + value));
  }

  lemma CutFields(name: string, front: string, rest: string)
    requires NoOpenColon(name) && NoOpenColon(front) && Find(rest, "::").Some?
    ensures var fields, pieces := Split(name + "::" + (front + "::" + rest), "::"), Split(rest, "::");
      && |pieces| >= 2 && |fields| == |pieces| + 2
      && fields[0] == name && fields[1] == front && fields[2] == pieces[0] && fields[3] == pieces[1]
  {
    HeadIsSplitOff(name, front + "::" + rest);
    HeadIsSplitOff(front, rest);
    var cut := Find(rest, "::").value;
    assert |Split(rest[cut + 2..], "::")| > 0;
  }

  lemma SeparatorIsFound(back: string, rest: string)
    ensures Find(back + "::" + rest, "::").Some?
  {
    var t := back + "::" + rest;
    assert t[|back|..|back| + 2] == "::";
    assert OccursAt(t, "::", |back|);
  }

  /** Every row of such an address is read as one of the part in front of its first "::": what
      follows that stands where the statistic and its value should. */
  lemma CutAddressIsMisread(clusters: seq<Cluster>, name: string, front: string, back: string, stat: string, value: string)
    requires NoOpenColon(name) && NoOpenColon(front) && !SkippedName(name) && !SkippedAddress(front)
    ensures var pieces := Split(back + "::" + (stat + "::" + value), "::");
      && |pieces| >= 2
      && ParseLine(clusters, Stat(CutRow(name, front, back, stat, value)).Text()) ==
         Done(AddRow(clusters, Row(name, front, pieces[0], pieces[1])))
  {
    var rest := back + "::" + (stat + "::" + value);
    CutRowText(name, front, back, stat, value);
    SeparatorIsFound(back, stat + "::" + value);
    CutFields(name, front, rest);
  }

  /** Where the rest of the address names no statistic, the row's statistic is lost. */
  lemma CutStatisticIsLost(clusters: seq<Cluster>, name: string, front: string, back: string, stat: string, value: string)
    requires NoOpenColon(name) && NoOpenColon(front) && !SkippedName(name) && !SkippedAddress(front)
    requires NoOpenColon(back) && !KnownStat(back)
    ensures ParseLine(clusters, Stat(CutRow(name, front, back, stat, value)).Text()) == Done(OpenRow(clusters, name, front))
  {
    CutAddressIsMisread(clusters, name, front, back, stat, value);
    HeadIsSplitOff(back, stat + "::" + value);
    PatchingNothing(OpenRow(clusters, name, front), back, Split(back + "::" + (stat + "::" + value), "::")[1]);
  }

  lemma PatchingNothing(clusters: seq<Cluster>, stat: string, value: string)
    requires |clusters| > 0 && |clusters[|clusters| - 1].endpoints| > 0 && !KnownStat(stat)
    ensures PatchLast(clusters, stat, value) == clusters
  {
    var last := clusters[|clusters| - 1];
    assert last.endpoints[|last.endpoints| - 1 := last.endpoints[|last.endpoints| - 1]] == last.endpoints;
  }

  const FRONT := "[2001:db8"
  const BACK := "1]:80"

  lemma AddressInTwo()
    ensures NoOpenColon(FRONT) && NoOpenColon(BACK) && "[2001:db8::1]:80" == FRONT + "::" + BACK
  {
  }

  lemma NothingSkipped()
    ensures NoOpenColon("web") && !SkippedName("web") && !SkippedAddress(FRONT) && !KnownStat(BACK)
    ensures OpenRow([], "web", FRONT) == [Cluster("web", [NewEndpoint(FRONT)])]
  {
    FirstOpened("web", FRONT);
  }

  lemma FirstOpened(name: string, address: string)
    ensures OpenRow([], name, address) == [Cluster(name, [NewEndpoint(address)])]
  {
    assert [] + [Cluster(name, [])] == [Cluster(name, [])];
    assert [] + [NewEndpoint(address)] == [NewEndpoint(address)];
  }

  /** An endpoint at [2001:db8::1]:80 comes out at "[2001:db8", and its seven requests are lost. */
  lemma AbbreviatedAddressIsCut()
    ensures ParseLine([], Stat(Row("web", "[2001:db8::1]:80", "rq_total", "7")).Text()) ==
      Done([Cluster("web", [NewEndpoint("[2001:db8")])])
  {
    AddressInTwo();
    NothingSkipped();
    CutStatisticIsLost([], "web", FRONT, BACK, "rq_total", "7");
  }

  /** Of rows whose columns survive, exactly those of the two management clusters and of the
      three cluster-wide settings leave the list alone; any other adds to it. */
  lemma OnlyTheseAreSkipped(row: Row)
    requires Separable(row.Columns(), "::")
    ensures ParseLine([], Join(row.Columns(), "::")) == Done([]) <==>
      || row.name == "xds_cluster" || row.name == "log_cluster"
      || row.address == "default_priority" || row.address == "high_priority" || row.address == "added_via_api"
  {
    SplitUndoesJoin(row.Columns(), "::");
    assert ParseLine([], Join(row.Columns(), "::")).Done?;
  }

  /** One or two columns panic, unless they are skipped. */
  lemma FewColumnsPanic(clusters: seq<Cluster>, name: string, address: string)
    ensures NoDoubleColon(name) ==>
      (ParseLine(clusters, name).Panic? <==> name != "xds_cluster" && name != "log_cluster")
    ensures Separable([name, address], "::") && !SkippedName(name) ==>
      (ParseLine(clusters, Join([name, address], "::")).Panic? <==>
        address != "default_priority" && address != "high_priority" && address != "added_via_api")
  {
    NoColonsFound(name);
    SplitUndoesJoin([name, address], "::");
  }

  /** A row that ends before its value panics exactly for the four statistics that are read. */
  lemma OnlyTheseNeedValues(clusters: seq<Cluster>, name: string, address: string, stat: string)
    requires Separable([name, address, stat], "::") && !SkippedName(name) && !SkippedAddress(address)
    ensures ParseLine(clusters, Join([name, address, stat], "::")).Panic? <==>
      stat == "priority" || stat == "health_flags" || stat == "rq_total" || stat == "rq_success"
  {
    SplitUndoesJoin([name, address, stat], "::");
  }

  lemma GoodLineParses(clusters: seq<Cluster>, line: Line)
    requires GoodLine(line)
    ensures ParseLine(clusters, line.Text()) == Done(if line.Stat? then AddRow(clusters, line.row) else clusters)
  {
    if line.Stat? {
      SplitUndoesJoin(line.row.Columns(), "::");
    }
  }

  lemma FirstLine(head: string, rest: string)
    requires '\n' !in head
    ensures CompleteLines(head + "\n" + rest) == [head] + CompleteLines(rest)
  {
    var text := head + "\n" + rest;
    CleanBeforeChar(head, '\n');
    FindInExtension(head, "\n", rest);
    assert text[..|head|] == head && text[|head| + 1..] == rest;
    assert Split(text, "\n") == [head] + Split(rest, "\n");
  }

  /** Lines, each with its newline. */
  function Terminated(lines: seq<string>): string {
    if lines == [] then "" else lines[0] + "\n" + Terminated(lines[1..])
  }

  /** Exactly the terminated lines are read, whatever follows the last newline. */
  lemma {:induction false} TailIsNotRead(lines: seq<string>, tail: string)
    requires '\n' !in tail && forall line :: line in lines ==> '\n' !in line
    ensures CompleteLines(Terminated(lines) + tail) == lines
  {
    if lines == [] {
      CleanBeforeChar(tail, '\n');
      assert "" + tail == tail;
    } else {
      assert lines[0] in lines;
      assert Terminated(lines) + tail == lines[0] + "\n" + (Terminated(lines[1..]) + tail);
      FirstLine(lines[0], Terminated(lines[1..]) + tail);
      TailIsNotRead(lines[1..], tail);
    }
  }

  lemma {:induction false} PrintedLines(lines: seq<Line>)
    requires forall i :: 0 <= i < |lines| ==> GoodLine(lines[i])
    ensures |CompleteLines(Print(lines))| == |lines|
    ensures forall i :: 0 <= i < |lines| ==> CompleteLines(Print(lines))[i] == lines[i].Text()
  {
    if lines == [] {
      assert Find("", "\n").None?;
    } else {
      assert '\n' !in lines[0].Text();
      FirstLine(lines[0].Text(), Print(lines[1..]));
      PrintedLines(lines[1..]);
    }
  }

  lemma {:induction false} ParseGoodLines(clusters: seq<Cluster>, texts: seq<string>, lines: seq<Line>)
    requires |texts| == |lines|
    requires forall i :: 0 <= i < |lines| ==> GoodLine(lines[i]) && texts[i] == lines[i].Text()
    ensures ParseLines(clusters, texts) == Done(AddRows(clusters, StatRows(lines)))
    decreases |lines|
  {
    if lines != [] {
      GoodLineParses(clusters, lines[0]);
      var next := if lines[0].Stat? then AddRow(clusters, lines[0].row) else clusters;
      ParseGoodLines(next, texts[1..], lines[1..]);
      if lines[0].Stat? {
        assert ([lines[0].row] + StatRows(lines[1..]))[1..] == StatRows(lines[1..]);
      } else {
        assert [] + StatRows(lines[1..]) == StatRows(lines[1..]);
      }
    }
  }

  // ---- From rows to clusters ----

  lemma {:induction false} AddRowsConcat(clusters: seq<Cluster>, a: seq<Row>, b: seq<Row>)
    ensures AddRows(clusters, a + b) == AddRows(AddRows(clusters, a), b)
    decreases |a|
  {
    if a == [] {
      assert a + b == b;
    } else {
      assert (a + b)[1..] == a[1..] + b;
      AddRowsConcat(AddRow(clusters, a[0]), a[1..], b);
    }
  }

  /** The list while the last endpoint of its last cluster is being filled in. */
  function Open(closed: seq<Cluster>, name: string, eps: seq<Endpoint>, ep: Endpoint): seq<Cluster> {
    closed + [Cluster(name, eps + [ep])]
  }

  function SetStats(ep: Endpoint, stats: seq<(string, string)>): Endpoint
    decreases |stats|
  {
    if stats == [] then ep else SetStats(SetStat(ep, stats[0].0, stats[0].1), stats[1..])
  }

  lemma AddRowSame(closed: seq<Cluster>, name: string, eps: seq<Endpoint>, ep: Endpoint, stat: string, value: string)
    ensures AddRow(Open(closed, name, eps, ep), Row(name, ep.address, stat, value)) ==
      Open(closed, name, eps, SetStat(ep, stat, value))
  {
    assert (eps + [ep])[|eps| := SetStat(ep, stat, value)] == eps + [SetStat(ep, stat, value)];
  }

  lemma {:induction false} FillEndpoint(closed: seq<Cluster>, name: string, eps: seq<Endpoint>, ep: Endpoint,
                                        stats: seq<(string, string)>)
    ensures AddRows(Open(closed, name, eps, ep), RowsOfEndpoint(name, ep.address, stats)) ==
      Open(closed, name, eps, SetStats(ep, stats))
    decreases |stats|
  {
    if stats != [] {
      var rows := RowsOfEndpoint(name, ep.address, stats);
      AddRowSame(closed, name, eps, ep, stats[0].0, stats[0].1);
      assert rows[1..] == RowsOfEndpoint(name, ep.address, stats[1..]);
      FillEndpoint(closed, name, eps, SetStat(ep, stats[0].0, stats[0].1), stats[1..]);
    }
  }

  /** A priority is read with its sign, within 64 bits; the counters within 32 bits, unsigned. */
  lemma NumbersAreRead(ep: Endpoint, n: nat)
    ensures SetStat(ep, "priority", "-" + Decimal(n)) == ep.(priority := 0 - Min(n, 0x8000_0000_0000_0000))
    ensures SetStat(ep, "priority", Decimal(n)) == ep.(priority := Min(n, 0x7FFF_FFFF_FFFF_FFFF))
    ensures SetStat(ep, "rq_total", Decimal(n)) == ep.(requestsTotal := Min(n, 0xFFFF_FFFF))
    ensures SetStat(ep, "rq_success", Decimal(n)) == ep.(requestsSuccess := Min(n, 0xFFFF_FFFF))
  {
    AtoiOfSigned(n);
    AtoiOfDecimal(n);
    ParseUintOfDecimal(n, MAX_UINT32);
  }

  lemma {:induction false} SetStatsKeepsOrSets(ep: Endpoint, shown: Endpoint, stats: seq<(string, string)>)
    requires shown.priority >= 0
    requires forall i :: 0 <= i < |stats| ==> ShowsValue(shown, stats[i].0, stats[i].1)
    ensures var r, c := SetStats(ep, stats), Clamped(shown);
      && r.address == ep.address
      && r.priority == (if Mentions(stats, "priority") then c.priority else ep.priority)
      && r.health == (if Mentions(stats, "health_flags") then c.health else ep.health)
      && r.requestsTotal == (if Mentions(stats, "rq_total") then c.requestsTotal else ep.requestsTotal)
      && r.requestsSuccess == (if Mentions(stats, "rq_success") then c.requestsSuccess else ep.requestsSuccess)
    decreases |stats|
  {
    if stats != [] {
      SetStatsKeepsOrSets(SetStat(ep, stats[0].0, stats[0].1), shown, stats[1..]);
      AtoiOfDecimal(shown.priority);
      ParseUintOfDecimal(shown.requestsTotal, MAX_UINT32);
      ParseUintOfDecimal(shown.requestsSuccess, MAX_UINT32);
      forall stat
        ensures Mentions(stats, stat) <==> stats[0].0 == stat || Mentions(stats[1..], stat)
      {
        MentionsFirst(stats, stat);
      }
    }
  }

  lemma MentionsFirst(stats: seq<(string, string)>, stat: string)
    requires stats != []
    ensures Mentions(stats, stat) <==> stats[0].0 == stat || Mentions(stats[1..], stat)
  {
    if Mentions(stats[1..], stat) {
      var i :| 0 <= i < |stats| - 1 && stats[1..][i].0 == stat;
      assert stats[i + 1].0 == stat;
    }
    assert forall i :: 0 < i < |stats| ==> stats[i] == stats[1..][i - 1];
  }

  lemma DescribedComesBack(rows: EndpointRows)
    requires Describes(rows)
    ensures SetStats(NewEndpoint(rows.endpoint.address), rows.stats) == Clamped(rows.endpoint)
  {
    SetStatsKeepsOrSets(NewEndpoint(rows.endpoint.address), rows.endpoint, rows.stats);
  }

  /** `before` ends with the endpoints `eps` of a cluster, or just before that cluster. */
  predicate EndsWith(before: seq<Cluster>, closed: seq<Cluster>, name: string, eps: seq<Endpoint>) {
    if eps == [] then before == closed && (closed == [] || closed[|closed| - 1].name != name)
    else before == closed + [Cluster(name, eps)]
  }

  /** A row with an address that the last endpoint does not have opens a new endpoint. */
  lemma RowOpens(before: seq<Cluster>, closed: seq<Cluster>, name: string, eps: seq<Endpoint>, row: Row)
    requires EndsWith(before, closed, name, eps) && row.name == name
    requires eps == [] || eps[|eps| - 1].address != row.address
    ensures AddRow(before, row) == Open(closed, name, eps, SetStat(NewEndpoint(row.address), row.stat, row.value))
  {
    var ep := NewEndpoint(row.address);
    var patched := SetStat(ep, row.stat, row.value);
    assert OpenRow(before, name, row.address) == closed + [Cluster(name, eps + [ep])];
    assert (eps + [ep])[|eps| := patched] == eps + [patched];
    assert (closed + [Cluster(name, eps + [ep])])[|closed| := Cluster(name, eps + [patched])] == closed + [Cluster(name, eps + [patched])];
  }

  lemma FirstRow(before: seq<Cluster>, name: string, address: string, stats: seq<(string, string)>)
    requires stats != []
    ensures AddRows(before, RowsOfEndpoint(name, address, stats)) ==
      AddRows(AddRow(before, Row(name, address, stats[0].0, stats[0].1)), RowsOfEndpoint(name, address, stats[1..]))
  {
    assert RowsOfEndpoint(name, address, stats)[1..] == RowsOfEndpoint(name, address, stats[1..]);
  }

  lemma {:induction false} FillBegun(begun: seq<Cluster>, closed: seq<Cluster>, name: string, eps: seq<Endpoint>,
                                     address: string, stats: seq<(string, string)>)
    requires stats != []
    requires begun == Open(closed, name, eps, SetStat(NewEndpoint(address), stats[0].0, stats[0].1))
    ensures AddRows(begun, RowsOfEndpoint(name, address, stats[1..])) ==
      Open(closed, name, eps, SetStats(NewEndpoint(address), stats))
  {
    FillEndpoint(closed, name, eps, SetStat(NewEndpoint(address), stats[0].0, stats[0].1), stats[1..]);
  }

  lemma {:induction false} RowsOpenAndFill(before: seq<Cluster>, closed: seq<Cluster>, name: string, eps: seq<Endpoint>,
                                           address: string, stats: seq<(string, string)>)
    requires stats != [] && EndsWith(before, closed, name, eps)
    requires eps == [] || eps[|eps| - 1].address != address
    ensures AddRows(before, RowsOfEndpoint(name, address, stats)) ==
      Open(closed, name, eps, SetStats(NewEndpoint(address), stats))
  {
    var row := Row(name, address, stats[0].0, stats[0].1);
    FirstRow(before, name, address, stats);
    RowOpens(before, closed, name, eps, row);
    FillBegun(AddRow(before, row), closed, name, eps, address, stats);
  }

  /** The rows of an endpoint append it, clamped, to its cluster. */
  lemma {:induction false} EndpointAppends(before: seq<Cluster>, closed: seq<Cluster>, name: string, eps: seq<Endpoint>,
                                           rows: EndpointRows)
    requires Describes(rows) && EndsWith(before, closed, name, eps)
    requires eps == [] || eps[|eps| - 1].address != rows.endpoint.address
    ensures AddRows(before, RowsOfEndpoint(name, rows.endpoint.address, rows.stats)) ==
      closed + [Cluster(name, eps + [Clamped(rows.endpoint)])]
  {
    RowsOpenAndFill(before, closed, name, eps, rows.endpoint.address, rows.stats);
    DescribedComesBack(rows);
  }

  predicate Follows(eps: seq<Endpoint>, rows: seq<EndpointRows>) {
    eps == [] || rows == [] || eps[|eps| - 1].address != rows[0].endpoint.address
  }

  predicate Neighbours(rows: seq<EndpointRows>) {
    && (forall i :: 0 <= i < |rows| ==> Describes(rows[i]))
    && (forall i :: 0 < i < |rows| ==> rows[i - 1].endpoint.address != rows[i].endpoint.address)
  }

  lemma NeighboursRest(rows: seq<EndpointRows>)
    requires rows != [] && Neighbours(rows)
    ensures Describes(rows[0]) && Neighbours(rows[1..]) && Follows([Clamped(rows[0].endpoint)], rows[1..])
  {
    assert forall i :: 0 <= i < |rows| - 1 ==> rows[1..][i] == rows[i + 1];
  }

  lemma ParsedRest(eps: seq<Endpoint>, rows: seq<EndpointRows>)
    requires rows != []
    ensures eps + ParsedEndpoints(rows) == (eps + [Clamped(rows[0].endpoint)]) + ParsedEndpoints(rows[1..])
  {
  }

  lemma {:induction false} FirstEndpointAppends(before: seq<Cluster>, closed: seq<Cluster>, name: string, eps: seq<Endpoint>,
                                                rows: seq<EndpointRows>)
    requires rows != [] && Describes(rows[0]) && EndsWith(before, closed, name, eps) && Follows(eps, rows)
    ensures AddRows(before, RowsOfEndpoints(name, rows)) ==
      AddRows(closed + [Cluster(name, eps + [Clamped(rows[0].endpoint)])], RowsOfEndpoints(name, rows[1..]))
  {
    EndpointAppends(before, closed, name, eps, rows[0]);
    AddRowsConcat(before, RowsOfEndpoint(name, rows[0].endpoint.address, rows[0].stats), RowsOfEndpoints(name, rows[1..]));
  }

  lemma {:induction false} EndpointsAppend(before: seq<Cluster>, closed: seq<Cluster>, name: string, eps: seq<Endpoint>,
                                           rows: seq<EndpointRows>)
    requires Neighbours(rows) && EndsWith(before, closed, name, eps) && Follows(eps, rows)
    requires eps != [] || rows != []
    ensures AddRows(before, RowsOfEndpoints(name, rows)) == closed + [Cluster(name, eps + ParsedEndpoints(rows))]
    decreases |rows|
  {
    if rows == [] {
      assert eps + ParsedEndpoints(rows) == eps;
    } else {
      var next := eps + [Clamped(rows[0].endpoint)];
      NeighboursRest(rows);
      FirstEndpointAppends(before, closed, name, eps, rows);
      EndpointsAppend(closed + [Cluster(name, next)], closed, name, next, rows[1..]);
      ParsedRest(eps, rows);
    }
  }

  lemma {:induction false} ClusterAppends(closed: seq<Cluster>, c: ClusterRows)
    requires WellLaidOutCluster(c) && (closed == [] || closed[|closed| - 1].name != c.name)
    ensures AddRows(closed, RowsOfEndpoints(c.name, c.endpoints)) == closed + [Cluster(c.name, ParsedEndpoints(c.endpoints))]
  {
    EndpointsAppend(closed, closed, c.name, [], c.endpoints);
    assert [] + ParsedEndpoints(c.endpoints) == ParsedEndpoints(c.endpoints);
  }

  lemma WellLaidOutRest(clusters: seq<ClusterRows>)
    requires clusters != [] && WellLaidOut(clusters)
    ensures WellLaidOutCluster(clusters[0]) && WellLaidOut(clusters[1..])
    ensures |clusters| > 1 ==> clusters[0].name != clusters[1].name
  {
    assert forall i :: 0 <= i < |clusters| - 1 ==> clusters[1..][i] == clusters[i + 1];
  }

  lemma ParsedClustersRest(closed: seq<Cluster>, clusters: seq<ClusterRows>)
    requires clusters != []
    ensures closed + Parsed(clusters) ==
      (closed + [Cluster(clusters[0].name, ParsedEndpoints(clusters[0].endpoints))]) + Parsed(clusters[1..])
  {
  }

  lemma {:induction false} FirstClusterAppends(closed: seq<Cluster>, clusters: seq<ClusterRows>)
    requires clusters != [] && WellLaidOutCluster(clusters[0])
    requires closed == [] || closed[|closed| - 1].name != clusters[0].name
    ensures AddRows(closed, RowsOfClusters(clusters)) ==
      AddRows(closed + [Cluster(clusters[0].name, ParsedEndpoints(clusters[0].endpoints))], RowsOfClusters(clusters[1..]))
  {
    ClusterAppends(closed, clusters[0]);
    AddRowsConcat(closed, RowsOfEndpoints(clusters[0].name, clusters[0].endpoints), RowsOfClusters(clusters[1..]));
  }

  lemma {:induction false} ClustersAppend(closed: seq<Cluster>, clusters: seq<ClusterRows>)
    requires WellLaidOut(clusters)
    requires closed == [] || clusters == [] || closed[|closed| - 1].name != clusters[0].name
    ensures AddRows(closed, RowsOfClusters(clusters)) == closed + Parsed(clusters)
    decreases |clusters|
  {
    if clusters == [] {
      assert closed + Parsed(clusters) == closed;
    } else {
      WellLaidOutRest(clusters);
      FirstClusterAppends(closed, clusters);
      ClustersAppend(closed + [Cluster(clusters[0].name, ParsedEndpoints(clusters[0].endpoints))], clusters[1..]);
      ParsedClustersRest(closed, clusters);
    }
  }

  // ---- The shape of every parsed list ----

  predicate ShapedCluster(c: Cluster) {
    && c.endpoints != []
    && (forall i :: 0 < i < |c.endpoints| ==> c.endpoints[i - 1].address != c.endpoints[i].address)
  }

  predicate Shaped(clusters: seq<Cluster>) {
    && (forall i :: 0 <= i < |clusters| ==> ShapedCluster(clusters[i]))
    && (forall i :: 0 < i < |clusters| ==> clusters[i - 1].name != clusters[i].name)
  }

  lemma {:induction false} OpenRowKeepsShape(clusters: seq<Cluster>, name: string, address: string)
    requires Shaped(clusters)
    ensures Shaped(OpenRow(clusters, name, address))
  {
    var grown := OpenRow(clusters, name, address);
    assert ShapedCluster(grown[|grown| - 1]);
    assert forall i :: 0 <= i < |grown| - 1 ==> grown[i] == clusters[i];
  }

  lemma {:induction false} PatchKeepsShape(clusters: seq<Cluster>, stat: string, value: string)
    requires Shaped(clusters) && |clusters| > 0 && |clusters[|clusters| - 1].endpoints| > 0
    ensures Shaped(PatchLast(clusters, stat, value))
  {
    var after, c := PatchLast(clusters, stat, value), |clusters| - 1;
    assert ShapedCluster(clusters[c]);
    assert forall i :: 0 <= i < |after[c].endpoints| ==> after[c].endpoints[i].address == clusters[c].endpoints[i].address;
    assert ShapedCluster(after[c]);
  }

  lemma {:induction false} AddRowKeepsShape(clusters: seq<Cluster>, row: Row)
    requires Shaped(clusters)
    ensures Shaped(AddRow(clusters, row))
  {
    OpenRowKeepsShape(clusters, row.name, row.address);
    PatchKeepsShape(OpenRow(clusters, row.name, row.address), row.stat, row.value);
  }

  lemma {:induction false} AddRowsKeepShape(clusters: seq<Cluster>, rows: seq<Row>)
    requires Shaped(clusters)
    ensures Shaped(AddRows(clusters, rows))
    decreases |rows|
  {
    if rows != [] {
      AddRowKeepsShape(clusters, rows[0]);
      AddRowsKeepShape(AddRow(clusters, rows[0]), rows[1..]);
    }
  }

  predicate AllDescribed(clusters: seq<ClusterRows>) {
    forall i, j :: 0 <= i < |clusters| && 0 <= j < |clusters[i].endpoints| ==> Describes(clusters[i].endpoints[j])
  }

  lemma ShapedIsWellLaidOut(clusters: seq<ClusterRows>)
    requires AllDescribed(clusters) && Shaped(Parsed(clusters))
    ensures WellLaidOut(clusters)
  {
    forall i | 0 <= i < |clusters|
      ensures WellLaidOutCluster(clusters[i])
    {
      assert ShapedCluster(Parsed(clusters)[i]);
      assert |ParsedEndpoints(clusters[i].endpoints)| == |clusters[i].endpoints|;
      forall j | 0 < j < |clusters[i].endpoints|
        ensures clusters[i].endpoints[j - 1].endpoint.address != clusters[i].endpoints[j].endpoint.address
      {
        assert Parsed(clusters)[i].endpoints[j - 1].address != Parsed(clusters)[i].endpoints[j].address;
      }
    }
    forall i | 0 < i < |clusters|
      ensures clusters[i - 1].name != clusters[i].name
    {
      assert Parsed(clusters)[i - 1].name != Parsed(clusters)[i].name;
    }
  }

  /** Parsing undoes printing, whatever skipped lines, unknown statistics and row orders the
      text contains: the cluster list comes back, with numbers clamped to their widths, exactly
      when no cluster is empty, neighbouring clusters have different names and neighbouring
      endpoints of a cluster different addresses. */
  lemma ParserUndoesPrinter(lines: seq<Line>, clusters: seq<ClusterRows>)
    requires forall i :: 0 <= i < |lines| ==> GoodLine(lines[i])
    requires AllDescribed(clusters) && StatRows(lines) == RowsOfClusters(clusters)
    ensures ParseLines([], CompleteLines(Print(lines))) == Done(Parsed(clusters)) <==> WellLaidOut(clusters)
  {
    PrintedLines(lines);
    ParseGoodLines([], CompleteLines(Print(lines)), lines);
    if WellLaidOut(clusters) {
      ClustersAppend([], clusters);
      assert [] + Parsed(clusters) == Parsed(clusters);
    }
    AddRowsKeepShape([], StatRows(lines));
    if Shaped(Parsed(clusters)) {
      ShapedIsWellLaidOut(clusters);
    }
  }
}
