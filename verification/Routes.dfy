/** Route entries: parsing into rules, and what a rule and an entry mean for a connection. */
module Routes {
  import opened Wrappers
  import opened Powers
  import opened Cidr

  datatype Proto = Tcp | Udp

  datatype Address = Address(width: nat, value: nat) {
    ghost predicate WellFormed() {
      value < Pow2(width)
    }
  }

  /** One comma-separated piece of a port list; `None` is a piece that is not a number. */
  datatype PortPart =
    | Empty
    | Star
    | Number(port: Option<int>)
    | Dashed(bounds: seq<Option<int>>)

  /** An entry after lexing: which of its forms the text has, with the library-parsed parts. */
  datatype Entry =
    | Host(address: Address)
    | Subnet(address: Address, length: nat)
    | MalformedSubnet
    | Range(left: Option<Address>, right: Option<Address>)
    | Transport(proto: Option<Proto>, parts: seq<PortPart>)
    | Symbolic(kind: string, text: string)
    | Malformed(code: string)
  {
    /** What address and prefix parsing guarantee. */
    ghost predicate Lexed() {
      match this
      case Host(a) => a.WellFormed()
      case Subnet(a, length) => a.WellFormed() && length <= a.width
      case Range(l, r) => (l.Some? || r.Some?) && (l.Some? ==> l.value.WellFormed())
          && (r.Some? ==> r.value.WellFormed())
      case Transport(_, parts) => parts != [] && forall d <- parts :: d.Dashed? ==> |d.bounds| >= 2
      case _ => true
    }
  }

  datatype Ports = Single(port: nat) | Span(low: nat, high: nat)

  datatype Rule =
    | IpCidr(prefix: Prefix)
    | DstPort(ports: Ports)
    | NetworkPort(proto: Proto, ports: Ports)
    | Network(proto: Proto)
    | Other(text: string)

  /** Kind and canonical text of an entry: the key that entries are deduplicated by. */
  datatype Key =
    | CidrKey(prefix: Prefix)
    | IpKey(address: Address)
    | RangeKey(width: nat, first: nat, last: nat)
    | ProtocolKey(carrier: Proto)
    | PortsKey(proto: Option<Proto>, ports: seq<Ports>)
    | SymbolicKey(kind: string, text: string)

  datatype Parsed = Parsed(key: Key, rules: seq<Rule>)

  // ----- Parsing

  function Masked(a: Address, length: nat): Prefix
    requires length <= a.width
  {
    Prefix(a.width, RoundDown(a.value, Pow2(a.width - length)), length)
  }

  function RoundDown(value: nat, block: nat): (r: nat)
    requires block > 0
    ensures r == block * (value / block)
  {
    value - value % block
  }

  function PrefixRules(ps: seq<Prefix>): (rules: seq<Rule>)
    ensures |rules| == |ps|
  {
    seq(|ps|, i requires 0 <= i < |ps| => IpCidr(ps[i]))
  }

  function ParsePort(part: PortPart): Result<Ports, string> {
    match part
    case Dashed(bounds) =>
      if |bounds| != 2 then Failure("invalid_port_range")
      else if bounds[0].None? || bounds[1].None?
              || bounds[0].value < 1 || bounds[0].value > bounds[1].value || bounds[1].value > 65535 then
        Failure("invalid_port_range")
      else Success(Span(bounds[0].value, bounds[1].value))
    case Number(port) =>
      if port.None? || port.value < 1 || port.value > 65535 then Failure("invalid_port")
      else Success(Single(port.value))
    case _ => Failure("invalid_port")
  }

  /** The distinct ports of the list in order of first mention, or the first error. */
  function ParsePorts(parts: seq<PortPart>): Result<seq<Ports>, string> {
    if parts == [] then Success([])
    else
      var front := ParsePorts(parts[..|parts| - 1]);
      if front.Failure? then front
      else
        var p := ParsePort(parts[|parts| - 1]);
        if p.Failure? then Failure(p.error)
        else if p.value in front.value then front
        else Success(front.value + [p.value])
  }

  method CollectPorts(parts: seq<PortPart>) returns (r: Result<seq<Ports>, string>)
    ensures r == ParsePorts(parts)
  {
    var normalized := [];
    for i := 0 to |parts|
      invariant ParsePorts(parts[..i]) == Success(normalized)
    {
      assert parts[..i + 1][..i] == parts[..i];
      var p := ParsePort(parts[i]);
      if p.Failure? {
        ErrorPersists(parts, i + 1, |parts|);
        assert parts[..|parts|] == parts;
        return Failure(p.error);
      }
      if p.value !in normalized {
        normalized := normalized + [p.value];
      }
    }
    assert parts[..|parts|] == parts;
    return Success(normalized);
  }

  lemma {:induction false} ErrorPersists(parts: seq<PortPart>, i: nat, j: nat)
    requires i <= j <= |parts| && ParsePorts(parts[..i]).Failure?
    ensures ParsePorts(parts[..j]) == ParsePorts(parts[..i])
    decreases j
  {
    if i < j {
      ErrorPersists(parts, i, j - 1);
      assert parts[..j][..j - 1] == parts[..j - 1];
    }
  }

  function PortRules(proto: Option<Proto>, ports: seq<Ports>): (rules: seq<Rule>)
    ensures |rules| == |ports|
  {
    seq(|ports|, i requires 0 <= i < |ports| =>
      if proto.None? then DstPort(ports[i]) else NetworkPort(proto.value, ports[i]))
  }

  function ParseTransport(proto: Option<Proto>, parts: seq<PortPart>): Result<Parsed, string> {
    if Empty in parts then Failure("invalid_port_rule")
    else if Star in parts then
      if |parts| != 1 || proto.None? then Failure("invalid_port_rule")
      else Success(Parsed(ProtocolKey(proto.value), [Network(proto.value)]))
    else
      var ports := ParsePorts(parts);
      if ports.Failure? then Failure(ports.error)
      else Success(Parsed(PortsKey(proto, ports.value), PortRules(proto, ports.value)))
  }

  /** `expand` gives the rules of a preset, geo or domain entry from its kind and canonical text. */
  ghost function ParseEntry(expand: (string, string) -> seq<Rule>, entry: Entry): Result<Parsed, string>
    requires entry.Lexed()
  {
    match entry
    case Host(a) => Success(Parsed(IpKey(a), [IpCidr(Prefix(a.width, a.value, a.width))]))
    case Subnet(a, length) => Success(Parsed(CidrKey(Masked(a, length)), [IpCidr(Masked(a, length))]))
    case MalformedSubnet => Failure("invalid_cidr")
    case Range(l, r) =>
      if l.None? || r.None? || l.value.width != r.value.width || l.value.value > r.value.value then
        Failure("invalid_ip_range")
      else
        Success(Parsed(RangeKey(l.value.width, l.value.value, r.value.value),
                       PrefixRules(Split(l.value.value, r.value.value, l.value.width))))
    case Transport(proto, parts) => ParseTransport(proto, parts)
    case Symbolic(kind, text) => Success(Parsed(SymbolicKey(kind, text), expand(kind, text)))
    case Malformed(code) => Failure(code)
  }

  method Parse(expand: (string, string) -> seq<Rule>, entry: Entry) returns (r: Result<Parsed, string>)
    requires entry.Lexed()
    ensures r == ParseEntry(expand, entry)
  {
    match entry
    case Host(a) => r := Success(Parsed(IpKey(a), [IpCidr(Prefix(a.width, a.value, a.width))]));
    case Subnet(a, length) =>
      var canonical := Masked(a, length);
      r := Success(Parsed(CidrKey(canonical), [IpCidr(canonical)]));
    case MalformedSubnet => r := Failure("invalid_cidr");
    case Range(l, h) =>
      if l.None? || h.None? || l.value.width != h.value.width || l.value.value > h.value.value {
        return Failure("invalid_ip_range");
      }
      var prefixes := SummarizeRange(l.value.value, h.value.value, l.value.width);
      var rules := [];
      for i := 0 to |prefixes|
        invariant rules == PrefixRules(prefixes[..i])
      {
        rules := rules + [IpCidr(prefixes[i])];
      }
      assert prefixes[..|prefixes|] == prefixes;
      r := Success(Parsed(RangeKey(l.value.width, l.value.value, h.value.value), rules));
    case Transport(proto, parts) =>
      if Empty in parts {
        return Failure("invalid_port_rule");
      }
      if Star in parts {
        if |parts| != 1 || proto.None? {
          return Failure("invalid_port_rule");
        }
        return Success(Parsed(ProtocolKey(proto.value), [Network(proto.value)]));
      }
      var ports := CollectPorts(parts);
      if ports.Failure? {
        return Failure(ports.error);
      }
      r := Success(Parsed(PortsKey(proto, ports.value), PortRules(proto, ports.value)));
    case Symbolic(kind, text) => r := Success(Parsed(SymbolicKey(kind, text), expand(kind, text)));
    case Malformed(code) => r := Failure(code);
  }

  // ----- Meaning

  /** A connection; `holds` answers the tests this model leaves abstract (domain, geo, preset). */
  datatype Connection = Connection(width: nat, destination: nat, proto: Proto, port: nat, holds: string -> bool)

  predicate PortIn(ports: Ports, port: nat) {
    match ports
    case Single(p) => port == p
    case Span(low, high) => low <= port <= high
  }

  predicate RuleMatches(rule: Rule, c: Connection) {
    match rule
    case IpCidr(p) => c.width == p.width && p.Contains(c.destination)
    case DstPort(ports) => PortIn(ports, c.port)
    case NetworkPort(proto, ports) => c.proto == proto && PortIn(ports, c.port)
    case Network(proto) => c.proto == proto
    case Other(text) => c.holds(text)
  }

  ghost predicate SomeRuleMatches(rules: seq<Rule>, c: Connection) {
    exists rule <- rules :: RuleMatches(rule, c)
  }

  /** What one written port piece asks of a port. */
  predicate PartAccepts(part: PortPart, port: nat) {
    match part
    case Number(n) => n == Some(port)
    case Dashed(bounds) => |bounds| == 2 && bounds[0].Some? && bounds[1].Some?
        && bounds[0].value <= port <= bounds[1].value
    case _ => false
  }

  /** What an entry means, from the entry alone: no splitting, masking or deduplication. */
  ghost predicate EntryMatches(expand: (string, string) -> seq<Rule>, entry: Entry, c: Connection)
    requires entry.Lexed()
  {
    match entry
    case Host(a) => c.width == a.width && c.destination == a.value
    case Subnet(a, length) =>
      c.width == a.width && c.destination / Pow2(a.width - length) == a.value / Pow2(a.width - length)
    case Range(l, r) =>
      l.Some? && r.Some? && c.width == l.value.width && l.value.value <= c.destination <= r.value.value
    case Transport(proto, parts) =>
      && (proto.Some? ==> c.proto == proto.value)
      && (Star in parts || exists part <- parts :: PartAccepts(part, c.port))
    case Symbolic(kind, text) => SomeRuleMatches(expand(kind, text), c)
    case _ => false
  }

  /** The rules of an entry match exactly the connections the entry means. */
  lemma {:induction false} ParsePreservesMeaning(expand: (string, string) -> seq<Rule>, entry: Entry, c: Connection)
    requires entry.Lexed()
    requires ParseEntry(expand, entry).Success?
    ensures SomeRuleMatches(ParseEntry(expand, entry).value.rules, c) <==> EntryMatches(expand, entry, c)
  {
    var rules := ParseEntry(expand, entry).value.rules;
    match entry
    case Host(a) =>
      assert RuleMatches(rules[0], c) <==> EntryMatches(expand, entry, c);
    case Subnet(a, length) =>
      SubnetMeaning(a, length, c.destination);
      assert RuleMatches(rules[0], c) <==> EntryMatches(expand, entry, c);
    case Range(l, r) => RangeMeaning(l.value, r.value, c);
    case Transport(proto, parts) =>
      if Star in parts {
        assert RuleMatches(rules[0], c) <==> EntryMatches(expand, entry, c);
      } else {
        TransportMeaning(proto, parts, c);
      }
    case Symbolic(kind, text) =>
  }

  lemma {:induction false} SubnetMeaning(a: Address, length: nat, d: nat)
    requires length <= a.width
    ensures Masked(a, length).Contains(d) <==> d / Pow2(a.width - length) == a.value / Pow2(a.width - length)
  {
    var m := Pow2(a.width - length);
    var q, q' := a.value / m, d / m;
    assert d == m * q' + d % m;
    if m * q <= d < m * q + m {
      ModUnique(d, m, q, d - m * q);
    }
  }

  lemma {:induction false} RangeMeaning(l: Address, r: Address, c: Connection)
    requires r.WellFormed() && l.width == r.width && l.value <= r.value
    ensures SomeRuleMatches(PrefixRules(Split(l.value, r.value, l.width)), c)
            <==> c.width == l.width && l.value <= c.destination <= r.value
  {
    var ps := Split(l.value, r.value, l.width);
    var rules := PrefixRules(ps);
    SplitIsExact(l.value, r.value, l.width, c.destination);
    if SomeRuleMatches(rules, c) {
      var rule :| rule in rules && RuleMatches(rule, c);
      var i :| 0 <= i < |rules| && rules[i] == rule;
      SplitTiles(l.value, r.value, l.width, i);
    }
    if c.width == l.width && Matches(ps, c.destination) {
      var p :| p in ps && p.Contains(c.destination);
      var i :| 0 <= i < |ps| && ps[i] == p;
      SplitTiles(l.value, r.value, l.width, i);
      assert rules[i] in rules && RuleMatches(rules[i], c);
    }
  }

  lemma {:induction false} PortsMeaning(parts: seq<PortPart>, port: nat)
    requires ParsePorts(parts).Success?
    ensures (exists p <- ParsePorts(parts).value :: PortIn(p, port)) <==> exists part <- parts ::
              PartAccepts(part, port)
  {
    if parts != [] {
      var front, last := parts[..|parts| - 1], parts[|parts| - 1];
      PortsMeaning(front, port);
      assert parts == front + [last];
      assert PartAccepts(last, port) <==> PortIn(ParsePort(last).value, port);
      assert forall p :: p in ParsePorts(parts).value <==> p in ParsePorts(front).value || p == ParsePort(last).value;
    }
  }

  lemma {:induction false} TransportMeaning(proto: Option<Proto>, parts: seq<PortPart>, c: Connection)
    requires ParsePorts(parts).Success?
    ensures SomeRuleMatches(PortRules(proto, ParsePorts(parts).value), c)
            <==> (proto.Some? ==> c.proto == proto.value) && exists part <- parts :: PartAccepts(part, c.port)
  {
    var ports := ParsePorts(parts).value;
    var rules := PortRules(proto, ports);
    PortsMeaning(parts, c.port);
    forall i | 0 <= i < |ports|
      ensures RuleMatches(rules[i], c) <==> (proto.Some? ==> c.proto == proto.value) && PortIn(ports[i], c.port)
    {
    }
    if SomeRuleMatches(rules, c) {
      var rule :| rule in rules && RuleMatches(rule, c);
      var i :| 0 <= i < |rules| && rules[i] == rule;
      assert ports[i] in ports;
    }
    if (proto.Some? ==> c.proto == proto.value) && exists p <- ports :: PortIn(p, c.port) {
      var p :| p in ports && PortIn(p, c.port);
      var i :| 0 <= i < |ports| && ports[i] == p;
      assert rules[i] in rules;
    }
  }

  /** Entries with the same key have the same rules, so dropping a repeated key drops nothing. */
  lemma {:induction false} KeyDeterminesRules(expand: (string, string) -> seq<Rule>, a: Entry, b: Entry)
    requires a.Lexed() && b.Lexed()
    requires ParseEntry(expand, a).Success? && ParseEntry(expand, b).Success?
    requires ParseEntry(expand, a).value.key == ParseEntry(expand, b).value.key
    ensures ParseEntry(expand, a) == ParseEntry(expand, b)
  {
  }
}
