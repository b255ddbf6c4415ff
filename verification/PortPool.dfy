/** PortRangeRules: the textual port pools of a node, and the pool they denote. */
module PortPool {
  import opened Text

  datatype Range = Range(start: int, end: int)

  datatype ParseResult =
    | Accepted(normalized: string, ranges: seq<Range>)
    | Rejected(error: string)

  predicate InBounds(r: Range) { 1 <= r.start <= r.end <= 65535 }

  // One comma-separated part; None is "invalid port range".
  function ParsePart(part: string): Option<Range> {
    var bounds := CleanPieces(Split(part, '-'));
    if |bounds| < 1 || |bounds| > 2 then None
    else
      var start := TryParse(bounds[0], INT_MIN, INT_MAX);
      var end := if |bounds| == 2 then TryParse(bounds[1], INT_MIN, INT_MAX) else start;
      if start.None? || end.None? then None
      else if start.value < 1 || end.value > 65535 || end.value < start.value then None
      else Some(Range(start.value, end.value))
  }

  function Show(r: Range): string {
    if r.start == r.end then Numeral(r.start) else Numeral(r.start) + "-" + Numeral(r.end)
  }

  function ShowAll(ranges: seq<Range>): (shown: seq<string>)
    ensures |shown| == |ranges| && forall i :: 0 <= i < |shown| ==> shown[i] == Show(ranges[i])
  {
    seq(|ranges|, i requires 0 <= i < |ranges| => Show(ranges[i]))
  }

  // What TryParse sees: the configured text, or the two fallback numbers.
  function Source(value: string, fallbackStart: int, fallbackEnd: int): string {
    if Trim(value) == "" then Numeral(fallbackStart) + "-" + Numeral(fallbackEnd) else Trim(value)
  }

  function Parts(value: string, fallbackStart: int, fallbackEnd: int): seq<string> {
    CleanPieces(Split(Source(value, fallbackStart, fallbackEnd), ','))
  }

  // The meaning of a list of parts: all of them parse, in order, or the pool is invalid.
  function ParseParts(parts: seq<string>): Option<seq<Range>> {
    if parts == [] then Some([])
    else
      var init := ParseParts(parts[..|parts| - 1]);
      var last := ParsePart(parts[|parts| - 1]);
      if init.None? || last.None? then None else Some(init.value + [last.value])
  }

  lemma {:induction false} PartsInBounds(parts: seq<string>)
    requires ParseParts(parts).Some?
    ensures forall i :: 0 <= i < |ParseParts(parts).value| ==> InBounds(ParseParts(parts).value[i])
  {
    if parts != [] { PartsInBounds(parts[..|parts| - 1]); }
  }

  // A pool: what the text denotes when it is accepted, None when it is not.
  function Ranges(value: string, fallbackStart: int, fallbackEnd: int): Option<seq<Range>> {
    var r := ParseParts(Parts(value, fallbackStart, fallbackEnd));
    if r.None? || r.value == [] then None else r
  }

  // One turn of the loop of TryParse.
  method ParseBounds(raw: string) returns (range: Option<Range>)
    ensures range == ParsePart(raw)
    ensures range.Some? ==> InBounds(range.value)
  {
    var bounds := CleanPieces(Split(raw, '-'));
    if |bounds| < 1 || |bounds| > 2 { return None; }
    var start := TryParse(bounds[0], INT_MIN, INT_MAX);
    if start.None? { return None; }
    var end := start;
    if |bounds| == 2 { end := TryParse(bounds[1], INT_MIN, INT_MAX); }
    if end.None? { return None; }
    if start.value < 1 || end.value > 65535 || end.value < start.value { return None; }
    return Some(Range(start.value, end.value));
  }

  method ParsePool(value: string, fallbackStart: int, fallbackEnd: int) returns (result: ParseResult)
    ensures result.Accepted? <==> Ranges(value, fallbackStart, fallbackEnd).Some?
    ensures result.Accepted? ==>
              && result.ranges == Ranges(value, fallbackStart, fallbackEnd).value
              && result.normalized == Join(ShowAll(result.ranges), ',')
              && result.ranges != []
              && forall i :: 0 <= i < |result.ranges| ==> InBounds(result.ranges[i])
  {
    result := ParseList(Parts(value, fallbackStart, fallbackEnd));
    if result.Accepted? && result.ranges == [] { result := Rejected("at least one port is required"); }
  }

  // The loop of TryParse.
  method ParseList(parts: seq<string>) returns (result: ParseResult)
    ensures result.Accepted? <==> ParseParts(parts).Some?
    ensures result.Accepted? ==>
              && result.ranges == ParseParts(parts).value
              && result.normalized == Join(ShowAll(result.ranges), ',')
              && forall i :: 0 <= i < |result.ranges| ==> InBounds(result.ranges[i])
  {
    var ranges: seq<Range> := [];
    var normalizedParts: seq<string> := [];
    var n := 0;
    while n < |parts|
      invariant 0 <= n <= |parts|
      invariant ParseParts(parts[..n]) == Some(ranges)
      invariant normalizedParts == ShowAll(ranges)
    {
      var raw := parts[n];
      var range := ParseBounds(raw);
      if range.None? {
        PartRefused(parts, n);
        return Rejected("invalid port range: " + raw);
      }
      ParseNext(parts, n, ranges, range.value);
      ranges := ranges + [range.value];
      normalizedParts := normalizedParts + [Show(range.value)];
      n := n + 1;
    }
    assert parts[..n] == parts;
    PartsInBounds(parts);
    return Accepted(Join(normalizedParts, ','), ranges);
  }

  lemma ParseNext(parts: seq<string>, n: nat, init: seq<Range>, last: Range)
    requires n < |parts| && ParseParts(parts[..n]) == Some(init) && ParsePart(parts[n]) == Some(last)
    ensures ParseParts(parts[..n + 1]) == Some(init + [last])
  {
    assert parts[..n + 1][..n] == parts[..n];
  }

  lemma {:induction false} PartRefused(parts: seq<string>, n: nat)
    requires n < |parts| && ParsePart(parts[n]).None?
    ensures ParseParts(parts).None?
  {
    if n < |parts| - 1 { PartRefused(parts[..|parts| - 1], n); }
  }

  function Bounds(r: Range): seq<string>
    requires InBounds(r)
  {
    if r.start == r.end then [Decimal(r.start)] else [Decimal(r.start), Decimal(r.end)]
  }

  lemma ShowSplits(r: Range)
    requires InBounds(r)
    ensures CleanPieces(Split(Show(r), '-')) == Bounds(r)
  {
    var pieces := Bounds(r);
    DecimalVisible(r.start);
    DecimalVisible(r.end);
    assert Show(r) == Join(pieces, '-');
    SplitJoin(pieces, '-');
    CleanIdentity(pieces);
  }

  lemma ShowParses(r: Range)
    requires InBounds(r)
    ensures ParsePart(Show(r)) == Some(r)
  {
    ShowSplits(r);
    TryParseDecimal(r.start, INT_MIN, INT_MAX);
    TryParseDecimal(r.end, INT_MIN, INT_MAX);
  }

  predicate Visible(s: string) {
    s != "" && !IsSpace(s[0]) && !IsSpace(s[|s| - 1])
  }

  lemma ShowIsVisible(r: Range)
    requires InBounds(r)
    ensures Visible(Show(r)) && ',' !in Show(r) && Trim(Show(r)) == Show(r)
  {
  }

  lemma {:induction false} JoinEnds(pieces: seq<string>, sep: char)
    requires pieces != [] && forall i :: 0 <= i < |pieces| ==> Visible(pieces[i])
    ensures Visible(Join(pieces, sep))
  {
    if |pieces| > 1 { JoinEnds(pieces[1..], sep); }
  }

  lemma {:induction false} PiecesAreClean(pieces: seq<string>)
    requires forall i :: 0 <= i < |pieces| ==> Visible(pieces[i])
    ensures CleanPieces(pieces) == pieces
  {
    if pieces != [] {
      TrimIdentity(pieces[0]);
      PiecesAreClean(pieces[1..]);
      assert pieces == [pieces[0]] + pieces[1..];
    }
  }

  lemma PartsOfJoin(pieces: seq<string>, fallbackStart: int, fallbackEnd: int)
    requires pieces != []
    requires forall i :: 0 <= i < |pieces| ==> Visible(pieces[i]) && ',' !in pieces[i]
    ensures Parts(Join(pieces, ','), fallbackStart, fallbackEnd) == pieces
  {
    var text := Join(pieces, ',');
    JoinEnds(pieces, ',');
    assert Source(text, fallbackStart, fallbackEnd) == text by { TrimIdentity(text); }
    assert Split(text, ',') == pieces by { SplitJoin(pieces, ','); }
    PiecesAreClean(pieces);
  }

  lemma {:induction false} ShownPartsParse(ranges: seq<Range>)
    requires forall i :: 0 <= i < |ranges| ==> InBounds(ranges[i])
    ensures ParseParts(ShowAll(ranges)) == Some(ranges)
  {
    if ranges != [] {
      var k := |ranges| - 1;
      ShownPartsParse(ranges[..k]);
      ShowParses(ranges[k]);
      ShownPrefix(ranges, k);
      ParseNext(ShowAll(ranges), k, ranges[..k], ranges[k]);
    }
  }

  lemma ShownPrefix(ranges: seq<Range>, k: nat)
    requires k == |ranges| - 1
    ensures ShowAll(ranges)[..k] == ShowAll(ranges[..k]) && ShowAll(ranges)[..k + 1] == ShowAll(ranges)
    ensures ranges == ranges[..k] + [ranges[k]]
  {
  }

  // The normalized text of a list of in-bounds ranges denotes exactly that list,
  // whatever the fallback numbers are.
  lemma NormalizedDenotes(ranges: seq<Range>, fallbackStart: int, fallbackEnd: int)
    requires ranges != [] && forall i :: 0 <= i < |ranges| ==> InBounds(ranges[i])
    ensures Ranges(Join(ShowAll(ranges), ','), fallbackStart, fallbackEnd) == Some(ranges)
  {
    var shown := ShowAll(ranges);
    forall i | 0 <= i < |shown| ensures Visible(shown[i]) && ',' !in shown[i] { ShowIsVisible(ranges[i]); }
    PartsOfJoin(shown, fallbackStart, fallbackEnd);
    ShownPartsParse(ranges);
  }

  // Whatever text is accepted, its normalized form is accepted again with the same
  // ranges, and normalizing once more changes nothing.
  lemma NormalizationIsStable(value: string, fallbackStart: int, fallbackEnd: int, start': int, end': int)
    requires Ranges(value, fallbackStart, fallbackEnd).Some?
    ensures var ranges := Ranges(value, fallbackStart, fallbackEnd).value;
            && (forall i :: 0 <= i < |ranges| ==> InBounds(ranges[i]))
            && Ranges(Join(ShowAll(ranges), ','), start', end') == Some(ranges)
  {
    var ranges := Ranges(value, fallbackStart, fallbackEnd).value;
    var parts := Parts(value, fallbackStart, fallbackEnd);
    PartsInBounds(parts);
    NormalizedDenotes(ranges, start', end');
  }

  // TryParseOptional: blank text is an accepted empty pool.
  method ParseOptionalPool(value: string, fallbackStart: int, fallbackEnd: int) returns (result: ParseResult)
    ensures Trim(value) == "" ==> result == Accepted("", [])
    ensures Trim(value) != "" ==> (result.Accepted? <==> Ranges(value, fallbackStart, fallbackEnd).Some?)
    ensures result.Accepted? && result.ranges != [] ==> result.normalized == Join(ShowAll(result.ranges), ',')
                                                        && Ranges(result.normalized, 0, 0) == Some(result.ranges)
  {
    if Trim(value) == "" { return Accepted("", []); }
    result := ParsePool(value, fallbackStart, fallbackEnd);
    if result.Accepted? { NormalizationIsStable(value, fallbackStart, fallbackEnd, 0, 0); }
  }

  // All ports of a pool, in pool order.
  function Span(start: int, end: int): (ports: seq<int>)
    ensures |ports| == (if start <= end then end - start + 1 else 0)
    ensures forall i :: 0 <= i < |ports| ==> ports[i] == start + i
  {
    seq(if start <= end then end - start + 1 else 0, i => start + i)
  }

  function Ports(ranges: seq<Range>): seq<int> {
    if ranges == [] then []
    else Ports(ranges[..|ranges| - 1]) + Span(ranges[|ranges| - 1].start, ranges[|ranges| - 1].end)
  }

  lemma {:induction false} PortsInBounds(ranges: seq<Range>)
    requires forall i :: 0 <= i < |ranges| ==> InBounds(ranges[i])
    ensures forall i :: 0 <= i < |Ports(ranges)| ==> 1 <= Ports(ranges)[i] <= 65535
  {
    if ranges != [] { PortsInBounds(ranges[..|ranges| - 1]); }
  }

  lemma {:induction false} PortsOfPrefix(ranges: seq<Range>, k: nat)
    requires k <= |ranges|
    ensures Ports(ranges[..k]) <= Ports(ranges)
  {
    if k < |ranges| {
      PortsOfPrefix(ranges[..|ranges| - 1], k);
      assert ranges[..|ranges| - 1][..k] == ranges[..k];
    } else {
      assert ranges[..k] == ranges;
    }
  }

  // port is the first element of pool outside used.
  predicate FirstFree(pool: seq<int>, used: set<int>, port: int) {
    exists k :: 0 <= k < |pool| && pool[k] == port && port !in used && forall j :: 0 <= j < k ==> pool[j] in used
  }

  // The specification of NextPort once the used set is known.
  predicate IsNextPort(configured: string, start: int, end: int, used: set<int>, port: int) {
    var ranges := Ranges(configured, start, end);
    if ranges.None? || (forall i :: 0 <= i < |Ports(ranges.value)| ==> Ports(ranges.value)[i] in used)
    then port == 0
    else FirstFree(Ports(ranges.value), used, port)
  }

  lemma NextPortIsUnique(configured: string, start: int, end: int, used: set<int>, p: int, q: int)
    requires IsNextPort(configured, start, end, used, p) && IsNextPort(configured, start, end, used, q)
    ensures p == q
  {
  }

  // Zero is returned exactly when the pool is invalid or exhausted: no pool holds port zero.
  lemma NextPortZero(configured: string, start: int, end: int, used: set<int>, port: int)
    requires IsNextPort(configured, start, end, used, port)
    ensures port == 0 <==> Ranges(configured, start, end).None?
                           || forall i :: 0 <= i < |Ports(Ranges(configured, start, end).value)| ==> Ports(Ranges(configured, start, end).value)[i] in used
    ensures port == 0 || (1 <= port <= 65535 && port !in used)
  {
    var ranges := Ranges(configured, start, end);
    if ranges.Some? {
      NormalizationIsStable(configured, start, end, 0, 0);
      PortsInBounds(ranges.value);
    }
  }

  // The inner loop of NextPort: the first free port of one range.
  method FirstFreeInRange(range: Range, used: set<int>) returns (port: int)
    requires InBounds(range)
    ensures port == 0 ==> forall i :: 0 <= i < |Span(range.start, range.end)| ==> Span(range.start, range.end)[i] in used
    ensures port != 0 ==> FirstFree(Span(range.start, range.end), used, port)
  {
    ghost var here := Span(range.start, range.end);
    port := range.start;
    while port <= range.end
      invariant range.start <= port <= range.end + 1
      invariant forall i :: 0 <= i < port - range.start ==> here[i] in used
    {
      if port !in used {
        assert here[port - range.start] == port;
        return;
      }
      port := port + 1;
    }
    port := 0;
  }

  lemma FirstFreeExtends(before: seq<int>, here: seq<int>, pool: seq<int>, used: set<int>, port: int)
    requires before + here <= pool
    requires forall i :: 0 <= i < |before| ==> before[i] in used
    requires FirstFree(here, used, port)
    ensures FirstFree(pool, used, port)
  {
    var k :| 0 <= k < |here| && here[k] == port && port !in used && forall j :: 0 <= j < k ==> here[j] in used;
    assert pool[|before| + k] == (before + here)[|before| + k] == port;
    forall j | 0 <= j < |before| + k ensures pool[j] in used {
      assert pool[j] == (before + here)[j];
    }
  }

  // ForwardOperations.NextPort: the ranges in order, with a reserved port counted as used.
  method NextPort(configured: string, fallbackStart: int, fallbackEnd: int, usedPorts: set<int>, reserved: Option<int>) returns (port: int)
    ensures IsNextPort(configured, fallbackStart, fallbackEnd, Reserve(usedPorts, reserved), port)
  {
    var parsed := ParsePool(configured, fallbackStart, fallbackEnd);
    if parsed.Rejected? { return 0; }
    var used := usedPorts;
    if reserved.Some? && reserved.value > 0 { used := used + {reserved.value}; }
    port := FirstFreeInRanges(parsed.ranges, used);
  }

  method FirstFreeInRanges(ranges: seq<Range>, used: set<int>) returns (port: int)
    requires forall i :: 0 <= i < |ranges| ==> InBounds(ranges[i])
    ensures if forall i :: 0 <= i < |Ports(ranges)| ==> Ports(ranges)[i] in used then port == 0 else FirstFree(Ports(ranges), used, port)
  {
    var n := 0;
    while n < |ranges|
      invariant 0 <= n <= |ranges|
      invariant forall i :: 0 <= i < |Ports(ranges[..n])| ==> Ports(ranges[..n])[i] in used
    {
      assert ranges[..n + 1][..n] == ranges[..n];
      port := FirstFreeInRange(ranges[n], used);
      if port != 0 {
        PortsOfPrefix(ranges, n + 1);
        FirstFreeExtends(Ports(ranges[..n]), Span(ranges[n].start, ranges[n].end), Ports(ranges), used, port);
        return;
      }
      n := n + 1;
    }
    assert ranges[..n] == ranges;
    port := 0;
  }

  function Reserve(used: set<int>, reserved: Option<int>): set<int> {
    if reserved.Some? && reserved.value > 0 then used + {reserved.value} else used
  }
}
