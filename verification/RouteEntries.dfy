/** Which entries are accepted, why others are refused, and which count as the same. */
module RouteEntries {
  import opened Wrappers
  import opened Powers
  import opened Seqs
  import opened Routes

  // ----- Accepted entries

  /** A port, or two ports in order. */
  predicate ValidPart(part: PortPart) {
    match part
    case Number(port) => port.Some? && 1 <= port.value <= 65535
    case Dashed(bounds) =>
      && |bounds| == 2 && bounds[0].Some? && bounds[1].Some?
      && 1 <= bounds[0].value <= bounds[1].value <= 65535
    case _ => false
  }

  /** What makes an entry acceptable, from the entry alone. */
  ghost predicate ValidEntry(entry: Entry) {
    match entry
    case Host(_) => true
    case Subnet(_, _) => true
    case Range(l, r) => l.Some? && r.Some? && l.value.width == r.value.width && l.value.value <= r.value.value
    case Transport(proto, parts) => (parts == [Star] && proto.Some?) || forall part <- parts :: ValidPart(part)
    case Symbolic(_, _) => true
    case _ => false
  }

  /** The reason an entry is refused for. */
  ghost predicate RefusedFor(entry: Entry, code: string) {
    match entry
    case MalformedSubnet => code == "invalid_cidr"
    case Malformed(c) => code == c
    case Range(_, _) => code == "invalid_ip_range"
    case Transport(_, parts) =>
      if Empty in parts || Star in parts then code == "invalid_port_rule"
      else
        exists i :: FirstInvalid(parts, i)
                    && code == if parts[i].Dashed? then "invalid_port_range" else "invalid_port"
    case _ => false
  }

  ghost predicate FirstInvalid(parts: seq<PortPart>, i: int) {
    0 <= i < |parts| && !ValidPart(parts[i]) && forall j :: 0 <= j < i ==> ValidPart(parts[j])
  }

  lemma {:induction false} PartOutcome(part: PortPart)
    requires part.Number? || part.Dashed?
    ensures ParsePort(part).Success? <==> ValidPart(part)
    ensures ParsePort(part).Failure? ==>
              ParsePort(part).error == if part.Dashed? then "invalid_port_range" else "invalid_port"
  {
  }

  lemma {:induction false} PartsOutcome(parts: seq<PortPart>)
    requires Empty !in parts && Star !in parts
    ensures ParsePorts(parts).Success? <==> forall part <- parts :: ValidPart(part)
    ensures ParsePorts(parts).Failure? ==>
              exists i :: FirstInvalid(parts, i)
                && ParsePorts(parts).error == if parts[i].Dashed? then "invalid_port_range" else "invalid_port"
  {
    hide ParsePort, ValidPart;
    if parts != [] {
      var n := |parts| - 1;
      assert parts == parts[..n] + [parts[n]];
      PartsOutcome(parts[..n]);
      PartOutcome(parts[n]);
      if ParsePorts(parts[..n]).Failure? {
        var i :| FirstInvalid(parts[..n], i)
          && ParsePorts(parts[..n]).error == if parts[..n][i].Dashed? then "invalid_port_range" else "invalid_port";
        assert FirstInvalid(parts, i);
      } else if ParsePorts(parts).Failure? {
        assert FirstInvalid(parts, n);
      }
    }
  }

  /** An entry parses exactly if it is acceptable; otherwise the error is the reason it is refused for. */
  lemma {:induction false} EntryOutcome(expand: (string, string) -> seq<Rule>, entry: Entry)
    requires entry.Lexed()
    ensures ParseEntry(expand, entry).Success? <==> ValidEntry(entry)
    ensures ParseEntry(expand, entry).Failure? ==> RefusedFor(entry, ParseEntry(expand, entry).error)
  {
    if entry.Transport? {
      var parts := entry.parts;
      if Empty in parts || Star in parts {
        assert parts[0] in parts;
        var part :| part in parts && (part.Empty? || part.Star?);
        assert !ValidPart(part);
        if parts == [Star] {
          assert Empty !in parts;
        }
      } else {
        PartsOutcome(parts);
      }
    }
  }

  // ----- Entries that count as the same

  function Mention(part: PortPart): Ports
    requires ValidPart(part)
  {
    match part
    case Number(port) => Single(port.value)
    case Dashed(bounds) => Span(bounds[0].value, bounds[1].value)
  }

  /** The ports of a list, piece by piece. */
  function Written(parts: seq<PortPart>): seq<Ports>
    requires forall part <- parts :: ValidPart(part)
  {
    if parts == [] then []
    else
      var n := |parts| - 1;
      Written(parts[..n]) + [Mention(parts[n])]
  }

  /** A list of ports keeps each of them once, in the order of first mention. */
  lemma {:induction false} PortsAreMentions(parts: seq<PortPart>)
    requires forall part <- parts :: ValidPart(part)
    ensures ParsePorts(parts).Success? && FirstMentions(Written(parts), ParsePorts(parts).value)
  {
    hide First;
    if parts != [] {
      var n := |parts| - 1;
      assert forall part <- parts[..n] :: part in parts;
      assert parts[n] in parts;
      PortsAreMentions(parts[..n]);
      PartOutcome(parts[n]);
      MentionMore(Written(parts[..n]), ParsePorts(parts[..n]).value, ParsePort(parts[n]).value);
    }
  }

  /** The same ports in the same order of first mention. */
  ghost predicate SameMentions(s: seq<PortPart>, t: seq<PortPart>)
    requires (forall part <- s :: ValidPart(part)) && (forall part <- t :: ValidPart(part))
  {
    exists ports :: FirstMentions(Written(s), ports) && FirstMentions(Written(t), ports)
  }

  /** Two acceptable entries have one key exactly if they are the same host, subnets with the same length and leading
      bits, the same range, all of one protocol, lists with one protocol and the same ports in order of first mention,
      or the same symbol. */
  ghost predicate Same(a: Entry, b: Entry)
    requires a.Lexed() && b.Lexed() && ValidEntry(a) && ValidEntry(b)
  {
    match (a, b)
    case (Host(x), Host(y)) => x == y
    case (Subnet(x, m), Subnet(y, n)) =>
      && x.width == y.width && m == n
      && x.value / Pow2(x.width - m) == y.value / Pow2(y.width - n)
    case (Range(l, r), Range(l', r')) => l == l' && r == r'
    case (Transport(p, s), Transport(q, t)) =>
      && p == q && (Star in s <==> Star in t)
      && (Star !in s && Star !in t ==> SameMentions(s, t))
    case (Symbolic(k, x), Symbolic(l, y)) => k == l && x == y
    case _ => false
  }

  lemma {:induction false} SameKeyIff(expand: (string, string) -> seq<Rule>, a: Entry, b: Entry)
    requires a.Lexed() && b.Lexed() && ValidEntry(a) && ValidEntry(b)
    ensures ParseEntry(expand, a).Success? && ParseEntry(expand, b).Success?
    ensures ParseEntry(expand, a).value.key == ParseEntry(expand, b).value.key <==> Same(a, b)
  {
    KeyIs(expand, a);
    KeyIs(expand, b);
    hide ParseEntry, ParsePorts, SameMentions, ValidPart, Masked;
    match (a, b)
    case (Transport(p, s), Transport(q, t)) =>
      if Star !in s && Star !in t {
        AllPartsValid(a);
        AllPartsValid(b);
        SamePorts(s, t);
      }
    case (Subnet(x, m), Subnet(y, n)) => SameSubnet(x, m, y, n);
    case (Range(l, r), Range(l', r')) =>
    case _ =>
  }

  lemma {:induction false} AllPartsValid(a: Entry)
    requires ValidEntry(a) && a.Transport? && Star !in a.parts
    ensures forall part <- a.parts :: ValidPart(part)
  {
    if a.parts == [Star] {
      StarAlone(a.parts);
    }
  }

  lemma {:induction false} StarAlone(parts: seq<PortPart>)
    requires parts == [Star]
    ensures Star in parts
  {
    assert parts[0] == Star;
  }

  /** The key of an acceptable entry. */
  lemma {:induction false} KeyIs(expand: (string, string) -> seq<Rule>, a: Entry)
    requires a.Lexed() && ValidEntry(a)
    ensures ParseEntry(expand, a).Success?
    ensures var key := ParseEntry(expand, a).value.key;
            match a
            case Host(x) => key == IpKey(x)
            case Subnet(x, n) => key == CidrKey(Masked(x, n))
            case Range(l, r) => key == RangeKey(l.value.width, l.value.value, r.value.value)
            case Transport(p, parts) =>
              if Star in parts then p.Some? && key == ProtocolKey(p.value)
              else ParsePorts(parts).Success? && key == PortsKey(p, ParsePorts(parts).value)
            case Symbolic(kind, text) => key == SymbolicKey(kind, text)
            case _ => true
  {
    EntryOutcome(expand, a);
    hide ParsePorts, Masked, ValidPart;
  }

  lemma {:induction false} SameSubnet(x: Address, m: nat, y: Address, n: nat)
    requires m <= x.width && n <= y.width
    ensures Masked(x, m) == Masked(y, n) <==>
              x.width == y.width && m == n && x.value / Pow2(x.width - m) == y.value / Pow2(y.width - n)
  {
  }

  lemma {:induction false} SamePorts(s: seq<PortPart>, t: seq<PortPart>)
    requires (forall part <- s :: ValidPart(part)) && (forall part <- t :: ValidPart(part))
    ensures ParsePorts(s).Success? && ParsePorts(t).Success?
    ensures ParsePorts(s).value == ParsePorts(t).value <==> SameMentions(s, t)
  {
    PortsAreMentions(s);
    PortsAreMentions(t);
    if ports :| FirstMentions(Written(s), ports) && FirstMentions(Written(t), ports) {
      MentionsAreUnique(Written(s), ports, ParsePorts(s).value);
      MentionsAreUnique(Written(t), ports, ParsePorts(t).value);
    }
  }
}
