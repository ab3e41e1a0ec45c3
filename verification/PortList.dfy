/** `parsePortsSetting` and the scan profiles of backend/scan/ports.js. */
module PortList {
  import opened Basics
  import opened Sorting
  import opened Text

  const MIN_PORT: int := 1
  const MAX_PORT: int := 65535

  const QUICK_PORTS: seq<nat> := [
    21, 22, 25, 53, 80, 110, 143, 443, 993, 995,
    3306, 3389, 5432, 8080, 8443
  ]
  const STANDARD_PORTS: seq<nat> := [
    20, 21, 22, 23, 25, 53, 67, 68, 69, 80,
    110, 111, 119, 123, 135, 137, 138, 139, 143, 156,
    161, 162, 179, 194, 389, 443, 445, 465, 587, 631,
    993, 995, 1433, 1521, 2049, 2375, 3000, 3306, 3389, 5060,
    5432, 5900, 6379, 8000, 8080, 8443, 8888, 9200, 27017
  ]
  const FURTHER_PORTS: seq<nat> := [
    554, 1080, 1194, 1723, 2082, 2083, 2086, 2087, 2096, 3128,
    4443, 5000, 5001, 5222, 5269, 5601, 6443, 6660, 6661, 6662,
    6663, 6664, 6665, 6666, 6667, 6668, 6669, 7443, 8009, 8081,
    8082, 8083, 8084, 8085, 8086, 8087, 8088, 8089, 8090, 8181,
    8444, 8880, 8881, 8882, 8883, 9000, 9001, 9090, 9091, 9443,
    9999, 10000, 10443, 11211, 15672, 27018, 27019, 50000
  ]

  datatype Profile = Quick | Standard | Deep

  function ProfilePorts(profile: Profile): seq<nat> {
    match profile
    case Quick => QUICK_PORTS
    case Standard => STANDARD_PORTS
    case Deep => STANDARD_PORTS + FURTHER_PORTS
  }

  lemma ProfileSizes()
    ensures |ProfilePorts(Quick)| == 15 && |ProfilePorts(Standard)| == 49 && |ProfilePorts(Deep)| == 107
  {
  }

  predicate IsDigit(c: char) { '0' <= c <= '9' }

  function DigitPrefix(s: string): string {
    if s == [] || !IsDigit(s[0]) then "" else [s[0]] + DigitPrefix(s[1..])
  }

  function DigitsValue(s: string): int {
    if s == [] then 0 else 10 * DigitsValue(s[..|s| - 1]) + (s[|s| - 1] as int - '0' as int)
  }

  /**
   parseInt in base 10, then Number.isInteger. `infinity` is the least value that reads as infinity,
   which is not an integer; rounding below it is not kept, since it starts far above every port.
   */
  function ParseInteger(s: string, infinity: int): Option<int> {
    ParseTrimmed(TrimStart(s), infinity)
  }

  function ParseTrimmed(t: string, infinity: int): Option<int> {
    var negative := t != [] && t[0] == '-';
    var digits := DigitPrefix(if t != [] && (t[0] == '+' || negative) then t[1..] else t);
    var value := DigitsValue(digits);
    if digits == "" || value >= infinity then None
    else Some(if negative then -value else value)
  }

  /** The numbers a token spells: one, or a range given by its first two dash-separated parts in either order. */
  function Span(token: string, infinity: int): Option<(int, int)> {
    SpanOfTrimmed(Trim(token), infinity)
  }

  function SpanOfTrimmed(trimmed: string, infinity: int): Option<(int, int)> {
    if trimmed == "" then None
    else if '-' in trimmed then
      var parts := Split(trimmed, '-');
      Ordered(ParseInteger(parts[0], infinity), if |parts| > 1 then ParseInteger(parts[1], infinity) else None)
    else
      var port := ParseInteger(trimmed, infinity);
      if port.None? then None else Some((port.value, port.value))
  }

  function Ordered(start: Option<int>, end: Option<int>): Option<(int, int)> {
    if start.None? || end.None? then None
    else if start.value <= end.value then Some((start.value, end.value))
    else Some((end.value, start.value))
  }

  predicate TokenCovers(token: string, port: int, infinity: int) {
    && MIN_PORT <= port <= MAX_PORT
    && Span(token, infinity).Some?
    && Span(token, infinity).value.0 <= port <= Span(token, infinity).value.1
  }

  ghost predicate Covered(tokens: seq<string>, port: int, infinity: int) {
    exists k | 0 <= k < |tokens| :: TokenCovers(tokens[k], port, infinity)
  }

  ghost predicate StrictlyIncreasing(xs: seq<int>) {
    forall i, j | 0 <= i < j < |xs| :: xs[i] < xs[j]
  }

  function Itself(x: int): int { x }

  /** Adds to an insertion-ordered set. */
  function Added(xs: seq<int>, x: int): seq<int> {
    if x in xs then xs else xs + [x]
  }

  method AddRange(ports: seq<int>, first: int, last: int) returns (grown: seq<int>)
    requires Distinct(ports)
    ensures Distinct(grown)
    ensures forall p :: p in grown <==> (p in ports || first <= p <= last)
  {
    grown := ports;
    var port := first;
    while port <= last
      invariant first <= port && (first <= last ==> port <= last + 1)
      invariant Distinct(grown)
      invariant forall p :: p in grown <==> (p in ports || (first <= p < port && p <= last))
      decreases last - port
    {
      grown := Added(grown, port);
      port := port + 1;
    }
  }

  /** Adds one token's ports. */
  method AddToken(token: string, infinity: int, ports: seq<int>) returns (grown: seq<int>)
    requires Distinct(ports)
    ensures Distinct(grown)
    ensures forall p :: p in grown <==> (p in ports || TokenCovers(token, p, infinity))
  {
    grown := ports;
    var trimmed := Trim(token);
    if trimmed == "" {
      return;
    }
    if '-' in trimmed {
      var parts := Split(trimmed, '-');
      var start := ParseInteger(parts[0], infinity);
      var end := if |parts| > 1 then ParseInteger(parts[1], infinity) else None;
      if start.None? || end.None? {
        return;
      }
      var low := if start.value <= end.value then start.value else end.value;
      var high := if start.value <= end.value then end.value else start.value;
      grown := AddRange(ports, if low < MIN_PORT then MIN_PORT else low, if high > MAX_PORT then MAX_PORT else high);
      return;
    }
    var port := ParseInteger(trimmed, infinity);
    if port.Some? && MIN_PORT <= port.value <= MAX_PORT {
      grown := Added(grown, port.value);
    }
  }

  lemma CoveredAll(tokens: seq<string>, port: int, infinity: int)
    ensures CoveredBefore(tokens, |tokens|, port, infinity) <==> Covered(tokens, port, infinity)
  {
  }

  ghost predicate CoveredBefore(tokens: seq<string>, n: nat, port: int, infinity: int)
    requires n <= |tokens|
  {
    exists k | 0 <= k < n :: TokenCovers(tokens[k], port, infinity)
  }

  lemma CoveredSnoc(tokens: seq<string>, n: nat, port: int, infinity: int)
    requires n < |tokens|
    ensures CoveredBefore(tokens, n + 1, port, infinity)
       <==> CoveredBefore(tokens, n, port, infinity) || TokenCovers(tokens[n], port, infinity)
  {
  }

  /** The ports of all tokens, in the order they are first covered. */
  method CollectPorts(tokens: seq<string>, infinity: int) returns (parsed: seq<int>)
    ensures Distinct(parsed)
    ensures forall p :: p in parsed <==> Covered(tokens, p, infinity)
  {
    parsed := [];
    for i := 0 to |tokens|
      invariant Distinct(parsed)
      invariant forall p :: p in parsed <==> CoveredBefore(tokens, i, p, infinity)
    {
      ghost var before := parsed;
      parsed := AddToken(tokens[i], infinity, parsed);
      forall p ensures p in parsed <==> CoveredBefore(tokens, i + 1, p, infinity) {
        CoveredSnoc(tokens, i, p, infinity);
        assert p in before <==> CoveredBefore(tokens, i, p, infinity);
      }
    }
    forall p ensures p in parsed <==> Covered(tokens, p, infinity) {
      assert p in parsed <==> CoveredBefore(tokens, |tokens|, p, infinity);
      CoveredAll(tokens, p, infinity);
    }
  }

  /** The strictly increasing list of exactly the wanted ports, or another list when none is wanted. */
  ghost predicate Lists(ports: seq<int>, wanted: int -> bool, otherwise: seq<int>) {
    if exists p :: wanted(p) then StrictlyIncreasing(ports) && forall p :: p in ports <==> wanted(p)
    else ports == otherwise
  }

  lemma ListsTheSame(ports: seq<int>, wanted: int -> bool, same: int -> bool, otherwise: seq<int>)
    requires Lists(ports, wanted, otherwise) && forall p :: wanted(p) <==> same(p)
    ensures Lists(ports, same, otherwise)
  {
  }

  /**
   The list scanned for a PORTS_TO_CHECK setting: exactly the ports some token covers, in strictly
   increasing order, or the standard list when no token covers any.
   */
  method ParsePortsSetting(value: string, infinity: int) returns (ports: seq<int>)
    ensures CutsInto(value, ',', Split(value, ','))
    ensures Lists(ports, p => Covered(Split(value, ','), p, infinity), STANDARD_PORTS)
  {
    SplitExact(value, ',');
    var parsed := CollectPorts(Split(value, ','), infinity);
    ports := if |parsed| > 0 then Sort(parsed, Itself) else STANDARD_PORTS;
    ghost var wanted := (p: int) => Covered(Split(value, ','), p, infinity);
    assert forall p :: p in parsed <==> wanted(p);
    ParsedIsListed(parsed, wanted, STANDARD_PORTS);
  }

  lemma SomeListed(parsed: seq<int>, sorted: seq<int>, wanted: int -> bool, otherwise: seq<int>)
    requires parsed != [] && forall p :: p in parsed <==> wanted(p)
    requires StrictlyIncreasing(sorted) && forall p :: p in sorted <==> p in parsed
    ensures Lists(sorted, wanted, otherwise)
  {
    var p := parsed[0];
    assert p in parsed <==> wanted(p);
  }

  lemma NoneListed(wanted: int -> bool, otherwise: seq<int>)
    requires forall p :: !wanted(p)
    ensures Lists(otherwise, wanted, otherwise)
  {
  }

  lemma ParsedIsListed(parsed: seq<int>, wanted: int -> bool, otherwise: seq<int>)
    requires Distinct(parsed) && forall p :: p in parsed <==> wanted(p)
    ensures Lists(if |parsed| > 0 then Sort(parsed, Itself) else otherwise, wanted, otherwise)
  {
    if |parsed| > 0 {
      SortedDistinct(parsed);
      SomeListed(parsed, Sort(parsed, Itself), wanted, otherwise);
    } else {
      assert forall p :: p in parsed <==> wanted(p);
      NoneListed(wanted, otherwise);
    }
  }

  lemma {:induction false} DistinctBag(xs: seq<int>, x: int)
    ensures Distinct(xs) ==> multiset(xs)[x] <= 1
    ensures (forall y :: multiset(xs)[y] <= 1) ==> Distinct(xs)
  {
    if xs == [] {
    } else {
      HeadAndTail(xs);
      DistinctBag(xs[1..], x);
      if Distinct(xs) {
        assert xs[0] !in xs[1..];
      }
      if forall y :: multiset(xs)[y] <= 1 {
        forall y ensures multiset(xs[1..])[y] <= 1 {
          assert multiset(xs)[y] <= 1;
        }
        assert multiset(xs)[xs[0]] <= 1;
        assert xs[0] !in multiset(xs[1..]);
      }
    }
  }

  lemma SortedDistinct(xs: seq<int>)
    requires Distinct(xs)
    ensures StrictlyIncreasing(Sort(xs, Itself))
    ensures forall p :: p in Sort(xs, Itself) <==> p in xs
  {
    var ys := Sort(xs, Itself);
    SortSorts(xs, Itself);
    forall p ensures p in ys <==> p in xs {
      assert p in multiset(ys) <==> p in multiset(xs);
    }
    forall y ensures multiset(ys)[y] <= 1 {
      DistinctBag(xs, y);
    }
    DistinctBag(ys, 0);
    forall i, j | 0 <= i < j < |ys| ensures ys[i] < ys[j] {
      assert Itself(ys[i]) <= Itself(ys[j]);
    }
  }
}
