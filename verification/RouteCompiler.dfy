/** Compiling the three route lists into one first-match plan. */
module RouteCompiler {
  import opened Seqs
  import opened Wrappers
  import opened Routes
  import opened RouteEntries
  import Lex

  type Expansion = (string, string) -> seq<Rule>

  const MAX_ENTRIES_PER_LIST := 10_000

  datatype Item = Item(source: Entry, key: Key, rules: seq<Rule>)

  datatype Compiled = Compiled(normalized: seq<Key>, rules: seq<Rule>, items: seq<Item>, duplicates: nat, ranges: nat)

  datatype CompileError =
    | UnknownDefault
    | UnknownList(name: string)
    | MissingList(name: string)
    | ListTooLarge(name: string)
    | BadEntry(name: string, index: nat, code: string)

  // ----- One list

  /** The rules of `rules` not in `seen`, each once, in order of first mention. */
  function Fresh(rules: seq<Rule>, seen: seq<Rule>): seq<Rule> {
    if rules == [] then []
    else
      var front := Fresh(rules[..|rules| - 1], seen);
      var last := rules[|rules| - 1];
      if last in seen || last in front then front else front + [last]
  }

  function Absorb(st: Compiled, source: Entry, parsed: Parsed): Compiled {
    if parsed.key in st.normalized then st.(duplicates := st.duplicates + 1)
    else
      var emitted := Fresh(parsed.rules, st.rules);
      Compiled(st.normalized + [parsed.key], st.rules + emitted, st.items + [Item(source, parsed.key, emitted)],
               st.duplicates, st.ranges + if parsed.key.RangeKey? then 1 else 0)
  }

  ghost predicate AllLexed(entries: seq<Entry>) {
    forall e <- entries :: e.Lexed()
  }

  ghost function CompileEntries(expand: Expansion, name: string, entries: seq<Entry>): Result<Compiled, CompileError>
    requires AllLexed(entries)
  {
    if entries == [] then Success(Compiled([], [], [], 0, 0))
    else
      var n := |entries| - 1;
      assert forall e <- entries[..n] :: e in entries;
      var front := CompileEntries(expand, name, entries[..n]);
      if front.Failure? then front
      else
        var parsed := ParseEntry(expand, entries[n]);
        if parsed.Failure? then Failure(BadEntry(name, n, parsed.error))
        else Success(Absorb(front.value, entries[n], parsed.value))
  }

  lemma {:induction false} FailurePersists(expand: Expansion, name: string, entries: seq<Entry>, i: nat)
    requires AllLexed(entries) && i <= |entries|
    requires CompileEntries(expand, name, entries[..i]).Failure?
    ensures CompileEntries(expand, name, entries) == CompileEntries(expand, name, entries[..i])
  {
    if i < |entries| {
      var front := entries[..|entries| - 1];
      assert entries[..i] == front[..i];
      assert forall e <- front :: e in entries;
      FailurePersists(expand, name, front, i);
    } else {
      assert entries[..i] == entries;
    }
  }

  /** A list compiles exactly when all its entries are acceptable; otherwise the first one that is not is reported,
      with the reason. */
  lemma {:induction false} CompileEntriesOutcome(expand: Expansion, name: string, entries: seq<Entry>)
    requires AllLexed(entries)
    ensures match CompileEntries(expand, name, entries)
            case Success(_) => forall e <- entries :: ValidEntry(e)
            case Failure(error) =>
              && error.BadEntry? && error.name == name && error.index < |entries|
              && !ValidEntry(entries[error.index]) && RefusedFor(entries[error.index], error.code)
              && forall i :: 0 <= i < error.index ==> ValidEntry(entries[i])
  {
    hide ParseEntry, Absorb, ValidEntry, RefusedFor;
    if entries != [] {
      var n := |entries| - 1;
      assert entries == entries[..n] + [entries[n]];
      assert forall e <- entries[..n] :: e in entries;
      CompileEntriesOutcome(expand, name, entries[..n]);
      EntryOutcome(expand, entries[n]);
      if CompileEntries(expand, name, entries[..n]).Success? {
        forall i | 0 <= i < n
          ensures ValidEntry(entries[i])
        {
          assert entries[i] in entries[..n];
        }
      } else {
        assert forall i :: 0 <= i < n ==> entries[i] == entries[..n][i];
      }
    }
  }

  method AppendNew(rules: seq<Rule>, compiled: seq<Rule>, seen: set<Rule>)
    returns (emitted: seq<Rule>, all: seq<Rule>, nowSeen: set<Rule>)
    requires forall rule :: rule in seen <==> rule in compiled
    ensures emitted == Fresh(rules, compiled) && all == compiled + emitted
    ensures forall rule :: rule in nowSeen <==> rule in all
  {
    emitted, all, nowSeen := [], compiled, seen;
    for k := 0 to |rules|
      invariant emitted == Fresh(rules[..k], compiled) && all == compiled + emitted
      invariant forall rule :: rule in nowSeen <==> rule in all
    {
      assert rules[..k + 1][..k] == rules[..k];
      if rules[k] !in nowSeen {
        nowSeen := nowSeen + {rules[k]};
        all := all + [rules[k]];
        emitted := emitted + [rules[k]];
      }
    }
    assert rules[..|rules|] == rules;
  }

  method CompileList(expand: Expansion, name: string, entries: seq<Entry>) returns (r: Result<Compiled, CompileError>)
    requires AllLexed(entries)
    ensures r == CompileEntries(expand, name, entries)
  {
    hide Fresh, ParseEntry;
    var normalized: seq<Key>, compiled: seq<Rule>, items: seq<Item> := [], [], [];
    var seenSources: set<Key>, seenRules: set<Rule> := {}, {};
    var duplicates: nat, ranges: nat := 0, 0;
    for index := 0 to |entries|
      invariant CompileEntries(expand, name, entries[..index])
             == Success(Compiled(normalized, compiled, items, duplicates, ranges))
      invariant forall k :: k in seenSources <==> k in normalized
      invariant forall rule :: rule in seenRules <==> rule in compiled
    {
      assert entries[..index + 1][..index] == entries[..index];
      var parsed := Parse(expand, entries[index]);
      if parsed.Failure? {
        FailurePersists(expand, name, entries, index + 1);
        return Failure(BadEntry(name, index, parsed.error));
      }
      if parsed.value.key in seenSources {
        duplicates := duplicates + 1;
        continue;
      }
      seenSources := seenSources + {parsed.value.key};
      normalized := normalized + [parsed.value.key];
      if parsed.value.key.RangeKey? {
        ranges := ranges + 1;
      }
      var emitted;
      emitted, compiled, seenRules := AppendNew(parsed.value.rules, compiled, seenRules);
      items := items + [Item(entries[index], parsed.value.key, emitted)];
    }
    assert entries[..|entries|] == entries;
    return Success(Compiled(normalized, compiled, items, duplicates, ranges));
  }

  lemma {:induction false} FreshCompletes(rules: seq<Rule>, seen: seq<Rule>)
    ensures forall rule :: rule in seen + Fresh(rules, seen) <==> rule in seen || rule in rules
    ensures forall rule <- Fresh(rules, seen) :: rule !in seen
  {
    if rules != [] {
      FreshCompletes(rules[..|rules| - 1], seen);
      assert rules == rules[..|rules| - 1] + [rules[|rules| - 1]];
    }
  }

  ghost predicate SomeEntryMatches(expand: Expansion, entries: seq<Entry>, c: Connection)
    requires AllLexed(entries)
  {
    exists e <- entries :: EntryMatches(expand, e, c)
  }

  /** Every source entry is still represented: all its rules are among the compiled ones. */
  ghost predicate Represents(expand: Expansion, entries: seq<Entry>, st: Compiled)
    requires AllLexed(entries)
  {
    && (forall e <- entries :: ParseEntry(expand, e).Success?)
    && (forall e <- entries :: ParseEntry(expand, e).value.key in st.normalized)
    && (forall k <- st.normalized :: exists e <- entries :: ParseEntry(expand, e).value.key == k)
    && (forall e <- entries, rule <- ParseEntry(expand, e).value.rules :: rule in st.rules)
    && (forall rule <- st.rules :: exists e <- entries :: rule in ParseEntry(expand, e).value.rules)
  }

  lemma {:induction false} CompiledRepresents(expand: Expansion, name: string, entries: seq<Entry>)
    requires AllLexed(entries) && CompileEntries(expand, name, entries).Success?
    ensures Represents(expand, entries, CompileEntries(expand, name, entries).value)
  {
    if entries != [] {
      var n := |entries| - 1;
      var front, e := entries[..n], entries[n];
      assert entries == front + [e];
      CompiledRepresents(expand, name, front);
      var st, st' := CompileEntries(expand, name, front).value, CompileEntries(expand, name, entries).value;
      var parsed := ParseEntry(expand, e).value;
      FreshCompletes(parsed.rules, st.rules);
      if parsed.key in st.normalized {
        var twin :| twin in front && ParseEntry(expand, twin).value.key == parsed.key;
        KeyDeterminesRules(expand, twin, e);
      } else {
        AbsorbRepresents(expand, front, e, st);
      }
    }
  }

  lemma {:induction false} AbsorbRepresents(expand: Expansion, front: seq<Entry>, e: Entry, st: Compiled)
    requires AllLexed(front + [e]) && AllLexed(front) && e.Lexed() && Represents(expand, front, st)
    requires ParseEntry(expand, e).Success? && ParseEntry(expand, e).value.key !in st.normalized
    ensures Represents(expand, front + [e], Absorb(st, e, ParseEntry(expand, e).value))
  {
    var parsed := ParseEntry(expand, e).value;
    var st' := Absorb(st, e, parsed);
    var entries := front + [e];
    FreshCompletes(parsed.rules, st.rules);
    assert forall x :: x in entries <==> x in front || x == e;
    assert forall rule :: rule in st'.rules <==> rule in st.rules || rule in parsed.rules;
    forall rule | rule in st'.rules
      ensures exists x <- entries :: rule in ParseEntry(expand, x).value.rules
    {
      if rule !in parsed.rules {
        var x :| x in front && rule in ParseEntry(expand, x).value.rules;
        assert x in entries;
      } else {
        assert e in entries;
      }
    }
    forall k | k in st'.normalized
      ensures exists x <- entries :: ParseEntry(expand, x).value.key == k
    {
      if k != parsed.key {
        var x :| x in front && ParseEntry(expand, x).value.key == k;
        assert x in entries;
      } else {
        assert e in entries;
      }
    }
  }

  /** Range splitting and both deduplications change no verdict of the list. */
  lemma {:induction false} CompileListPreservesMeaning(expand: Expansion, name: string, entries: seq<Entry>,
          c: Connection)
    requires AllLexed(entries) && CompileEntries(expand, name, entries).Success?
    ensures SomeRuleMatches(CompileEntries(expand, name, entries).value.rules, c) <==>
              SomeEntryMatches(expand, entries, c)
  {
    var st := CompileEntries(expand, name, entries).value;
    CompiledRepresents(expand, name, entries);
    if SomeRuleMatches(st.rules, c) {
      var rule :| rule in st.rules && RuleMatches(rule, c);
      var e :| e in entries && rule in ParseEntry(expand, e).value.rules;
      ParsePreservesMeaning(expand, e, c);
    }
    if SomeEntryMatches(expand, entries, c) {
      var e :| e in entries && EntryMatches(expand, e, c);
      ParsePreservesMeaning(expand, e, c);
      var rule :| rule in ParseEntry(expand, e).value.rules && RuleMatches(rule, c);
      assert rule in st.rules;
    }
  }

  ghost function Flatten(items: seq<Item>): seq<Rule> {
    if items == [] then [] else Flatten(items[..|items| - 1]) + items[|items| - 1].rules
  }

  /** Source entries are the normalized ones plus the removed duplicates; nothing kept is repeated,
      and the rules listed per item are the compiled rules, in order. */
  lemma {:induction false} CompileCounts(expand: Expansion, name: string, entries: seq<Entry>)
    requires AllLexed(entries) && CompileEntries(expand, name, entries).Success?
    ensures var st := CompileEntries(expand, name, entries).value;
            && |entries| == |st.normalized| + st.duplicates
            && |st.items| == |st.normalized|
            && NoRepeats(st.normalized) && NoRepeats(st.rules)
            && Flatten(st.items) == st.rules
  {
    if entries != [] {
      var n := |entries| - 1;
      assert forall e <- entries[..n] :: e in entries;
      CompileCounts(expand, name, entries[..n]);
      var st := CompileEntries(expand, name, entries[..n]).value;
      var parsed := ParseEntry(expand, entries[n]).value;
      if parsed.key !in st.normalized {
        var st' := CompileEntries(expand, name, entries).value;
        assert st'.items[..|st'.items| - 1] == st.items;
        FreshNoRepeats(parsed.rules, st.rules);
      }
    }
  }

  // ----- What is kept, in which order

  /** The keys of the entries, one for each. */
  ghost function Keys(expand: Expansion, entries: seq<Entry>): (keys: seq<Key>)
    requires AllLexed(entries) && forall e <- entries :: ValidEntry(e)
    ensures |keys| == |entries|
  {
    if entries == [] then []
    else
      var n := |entries| - 1;
      assert forall e <- entries[..n] :: e in entries;
      EntryOutcome(expand, entries[n]);
      Keys(expand, entries[..n]) + [ParseEntry(expand, entries[n]).value.key]
  }

  /** The rules of the entries, one entry after the other. */
  ghost function AllRules(expand: Expansion, entries: seq<Entry>): seq<Rule>
    requires AllLexed(entries) && forall e <- entries :: ValidEntry(e)
  {
    if entries == [] then []
    else
      var n := |entries| - 1;
      assert forall e <- entries[..n] :: e in entries;
      EntryOutcome(expand, entries[n]);
      AllRules(expand, entries[..n]) + ParseEntry(expand, entries[n]).value.rules
  }

  lemma {:induction false} FreshMentions(rules: seq<Rule>, all: seq<Rule>, seen: seq<Rule>)
    requires FirstMentions(all, seen)
    ensures FirstMentions(all + rules, seen + Fresh(rules, seen))
  {
    hide FirstMentions;
    if rules == [] {
      assert all + rules == all && seen + Fresh(rules, seen) == seen;
    } else {
      var n := |rules| - 1;
      FreshMentions(rules[..n], all, seen);
      var more := seen + Fresh(rules[..n], seen);
      MentionMore(all + rules[..n], more, rules[n]);
      assert all + rules[..n] + [rules[n]] == all + rules;
      assert seen + (Fresh(rules[..n], seen) + [rules[n]]) == more + [rules[n]];
    }
  }

  ghost predicate KeptInOrder(keys: seq<Key>, rules: seq<Rule>, entries: seq<Entry>, st: Compiled)
    requires |keys| == |entries|
  {
    && FirstMentions(keys, st.normalized) && FirstMentions(rules, st.rules)
    && |st.items| == |st.normalized|
    && (forall k :: 0 <= k < |st.items| ==> IsItem(keys, entries, st.items[k], st.normalized[k]))
    && st.ranges == |RangePlaces(st.normalized)|
  }

  /** The item stands for the first entry that has its key. */
  ghost predicate IsItem(keys: seq<Key>, entries: seq<Entry>, item: Item, key: Key)
    requires |keys| == |entries|
  {
    item.key == key && key in keys && item.source == entries[First(keys, key)]
  }

  ghost function RangePlaces(keys: seq<Key>): set<nat> {
    set k: nat | k < |keys| && keys[k].RangeKey?
  }

  lemma {:induction false} RangePlacesStep(keys: seq<Key>, key: Key)
    ensures |RangePlaces(keys + [key])| == |RangePlaces(keys)| + if key.RangeKey? then 1 else 0
  {
    assert RangePlaces(keys + [key]) == RangePlaces(keys) + if key.RangeKey? then {|keys|} else {};
  }

  /** The compiled list has the keys and the rules of its entries, each once and in the order of first mention; an item
      stands for the first entry of its key, and the ranges are counted. */
  lemma {:induction false} CompileKeepsOrder(expand: Expansion, name: string, entries: seq<Entry>)
    requires AllLexed(entries) && CompileEntries(expand, name, entries).Success?
    ensures forall e <- entries :: ValidEntry(e)
    ensures KeptInOrder(Keys(expand, entries), AllRules(expand, entries), entries,
              CompileEntries(expand, name, entries).value)
  {
    CompileEntriesOutcome(expand, name, entries);
    if entries == [] {
      assert RangePlaces([]) == {};
    } else {
      var n := |entries| - 1;
      var front, e := entries[..n], entries[n];
      assert entries == front + [e];
      CompileKeepsOrder(expand, name, front);
      CompiledRepresents(expand, name, front);
      EntryOutcome(expand, e);
      var st, parsed := CompileEntries(expand, name, front).value, ParseEntry(expand, e).value;
      hide FirstMentions, ParseEntry, ValidEntry, RangePlaces, IsItem, Represents;
      if parsed.key in st.normalized {
        TwinRules(expand, front, e, st);
        SameInOrder(Keys(expand, front), AllRules(expand, front), front, e, parsed, st);
      } else {
        NewInOrder(Keys(expand, front), AllRules(expand, front), front, e, parsed, st);
      }
    }
  }

  /** An entry with a key that was seen brings no new rule. */
  lemma {:induction false} TwinRules(expand: Expansion, front: seq<Entry>, e: Entry, st: Compiled)
    requires AllLexed(front) && e.Lexed() && Represents(expand, front, st) && ParseEntry(expand, e).Success?
    requires ParseEntry(expand, e).value.key in st.normalized
    ensures forall rule <- ParseEntry(expand, e).value.rules :: rule in st.rules
  {
    var twin :| twin in front && ParseEntry(expand, twin).value.key == ParseEntry(expand, e).value.key;
    KeyDeterminesRules(expand, twin, e);
  }

  lemma {:induction false} SameInOrder(keys: seq<Key>, rules: seq<Rule>, front: seq<Entry>, e: Entry, parsed: Parsed,
          st: Compiled)
    requires |keys| == |front| && KeptInOrder(keys, rules, front, st)
    requires parsed.key in st.normalized && forall rule <- parsed.rules :: rule in st.rules
    ensures KeptInOrder(keys + [parsed.key], rules + parsed.rules, front + [e], Absorb(st, e, parsed))
  {
    hide FirstMentions, RangePlaces, IsItem, Fresh;
    MentionMore(keys, st.normalized, parsed.key);
    MentionAgain(rules, st.rules, parsed.rules);
    forall k | 0 <= k < |st.items|
      ensures IsItem(keys + [parsed.key], front + [e], st.items[k], st.normalized[k])
    {
      ItemStays(keys, front, parsed.key, e, st.items[k], st.normalized[k]);
    }
  }

  lemma {:induction false} NewInOrder(keys: seq<Key>, rules: seq<Rule>, front: seq<Entry>, e: Entry, parsed: Parsed,
          st: Compiled)
    requires |keys| == |front| && KeptInOrder(keys, rules, front, st) && parsed.key !in st.normalized
    ensures KeptInOrder(keys + [parsed.key], rules + parsed.rules, front + [e], Absorb(st, e, parsed))
  {
    hide FirstMentions, RangePlaces, IsItem, Fresh;
    MentionMore(keys, st.normalized, parsed.key);
    FreshMentions(parsed.rules, rules, st.rules);
    RangePlacesStep(st.normalized, parsed.key);
    NewItem(keys, st.normalized, front, parsed.key, e, Fresh(parsed.rules, st.rules));
    forall k | 0 <= k < |st.items|
      ensures IsItem(keys + [parsed.key], front + [e], st.items[k], st.normalized[k])
    {
      ItemStays(keys, front, parsed.key, e, st.items[k], st.normalized[k]);
    }
  }

  lemma {:induction false} ItemStays(keys: seq<Key>, entries: seq<Entry>, more: Key, e: Entry, item: Item, key: Key)
    requires |keys| == |entries| && IsItem(keys, entries, item, key)
    ensures IsItem(keys + [more], entries + [e], item, key)
  {
    FirstStays(keys, [more], key);
  }

  lemma {:induction false} NewItem(keys: seq<Key>, normalized: seq<Key>, entries: seq<Entry>, key: Key, e: Entry,
          rules: seq<Rule>)
    requires |keys| == |entries| && FirstMentions(keys, normalized) && key !in normalized
    ensures IsItem(keys + [key], entries + [e], Item(e, key, rules), key)
  {
    assert key !in keys;
    FirstIs(keys + [key], key, |keys|);
  }

  lemma {:induction false} FreshNoRepeats(rules: seq<Rule>, seen: seq<Rule>)
    requires NoRepeats(seen)
    ensures NoRepeats(seen + Fresh(rules, seen))
  {
    if rules != [] {
      var n := |rules| - 1;
      FreshNoRepeats(rules[..n], seen);
      var front := Fresh(rules[..n], seen);
      if rules[n] !in seen && rules[n] !in front {
        assert seen + Fresh(rules, seen) == (seen + front) + [rules[n]];
      }
    }
  }

  // ----- All lists

  const ROUTE_LISTS := ["direct", "proxy", "block"]

  /** The lists in the order in which they are compiled, up to the first failure. */
  ghost function CompileAll(expand: Expansion, lists: map<string, seq<Entry>>, names: seq<string>)
    : Result<map<string, Compiled>, CompileError>
    requires forall name <- names :: name in lists && AllLexed(lists[name])
  {
    if names == [] then Success(map[])
    else
      var n := |names| - 1;
      var front := CompileAll(expand, lists, names[..n]);
      if front.Failure? then front
      else if |lists[names[n]]| > MAX_ENTRIES_PER_LIST then Failure(ListTooLarge(names[n]))
      else
        var one := CompileEntries(expand, names[n], lists[names[n]]);
        if one.Failure? then Failure(one.error) else Success(front.value[names[n] := one.value])
  }

  /** The lists compile exactly if each has at most ten thousand entries, all acceptable; otherwise the first list that
      does not comply, in the order given, is reported, for its size before its entries. */
  lemma {:induction false} CompileAllOutcome(expand: Expansion, lists: map<string, seq<Entry>>, names: seq<string>)
    requires forall name <- names :: name in lists && AllLexed(lists[name])
    ensures match CompileAll(expand, lists, names)
            case Success(_) => Complies(lists, names)
            case Failure(error) => Reports(lists, names, error)
  {
    hide CompileEntries, AllLexed, Objects, Complies, Reports;
    if names == [] {
      NoneComply(lists, names);
    } else {
      var n := |names| - 1;
      var front := names[..n];
      assert names == front + [names[n]];
      CompileAllOutcome(expand, lists, front);
      OneMoreComplies(expand, lists, front, names[n]);
      if CompileAll(expand, lists, front).Failure? {
        ReportStays(lists, front, names[n], CompileAll(expand, lists, front).error);
      } else if CompileAll(expand, lists, names).Failure? {
        NewReport(lists, front, names[n], CompileAll(expand, lists, names).error);
      }
    }
  }

  /** The first list that does not comply, and what is wrong with it. */
  ghost predicate Reports(lists: map<string, seq<Entry>>, names: seq<string>, error: CompileError) {
    exists k :: 0 <= k < |names| && Complies(lists, names[..k]) && Objects(lists, names[k], error)
  }

  lemma {:induction false} ReportStays(lists: map<string, seq<Entry>>, front: seq<string>, name: string,
          error: CompileError)
    requires Reports(lists, front, error)
    ensures Reports(lists, front + [name], error)
  {
    hide Complies, Objects;
    var k :| 0 <= k < |front| && Complies(lists, front[..k]) && Objects(lists, front[k], error);
    assert (front + [name])[..k] == front[..k] && (front + [name])[k] == front[k];
  }

  lemma {:induction false} NewReport(lists: map<string, seq<Entry>>, front: seq<string>, name: string,
          error: CompileError)
    requires Complies(lists, front) && Objects(lists, name, error)
    ensures Reports(lists, front + [name], error)
  {
    hide Complies, Objects;
    assert (front + [name])[..|front|] == front && (front + [name])[|front|] == name;
  }

  lemma {:induction false} NoneComply(lists: map<string, seq<Entry>>, names: seq<string>)
    requires names == []
    ensures Complies(lists, names)
  {
  }

  lemma {:induction false} OneMoreComplies(expand: Expansion, lists: map<string, seq<Entry>>, front: seq<string>,
          name: string)
    requires name in lists && AllLexed(lists[name])
    ensures var one := CompileEntries(expand, name, lists[name]);
            && (Complies(lists, front) && |lists[name]| <= MAX_ENTRIES_PER_LIST && one.Success? ==>
                  Complies(lists, front + [name]))
            && (|lists[name]| > MAX_ENTRIES_PER_LIST ==> Objects(lists, name, ListTooLarge(name)))
            && (|lists[name]| <= MAX_ENTRIES_PER_LIST && one.Failure? ==> Objects(lists, name, one.error))
  {
    hide ValidEntry, RefusedFor, CompileEntries;
    CompileEntriesOutcome(expand, name, lists[name]);
  }

  /** What is wrong with a list: too many entries, or else the first one that is not acceptable. */
  ghost predicate Objects(lists: map<string, seq<Entry>>, name: string, error: CompileError) {
    && name in lists
    && if |lists[name]| > 10_000 then error == ListTooLarge(name)
       else
         && error.BadEntry? && error.name == name && error.index < |lists[name]|
         && !ValidEntry(lists[name][error.index]) && RefusedFor(lists[name][error.index], error.code)
         && forall i :: 0 <= i < error.index ==> ValidEntry(lists[name][i])
  }

  ghost predicate Complies(lists: map<string, seq<Entry>>, names: seq<string>) {
    forall name <- names :: name in lists && |lists[name]| <= 10_000 && forall e <- lists[name] :: ValidEntry(e)
  }

  /** The first name of `names` in byte order, as sorting and taking the head gives it. */
  ghost predicate IsFirstOf(name: string, names: set<string>) {
    name in names && forall other <- names :: other == name || Lex.Less(name, other)
  }

  ghost predicate CompileListsResult(expand: Expansion, lists: map<string, seq<Entry>>,
                                     r: Result<map<string, Compiled>, CompileError>)
    requires forall name <- lists :: AllLexed(lists[name])
  {
    var known := {"direct", "proxy", "block"};
    if lists.Keys - known != {} then
      r.Failure? && r.error.UnknownList? && IsFirstOf(r.error.name, lists.Keys - known)
    else if known - lists.Keys != {} then
      r.Failure? && r.error.MissingList? && IsFirstOf(r.error.name, known - lists.Keys)
    else
      lists.Keys == known && r == CompileAll(expand, lists, ROUTE_LISTS)
  }

  method SortedHead(names: set<string>) returns (head: string)
    requires names != {}
    ensures IsFirstOf(head, names)
  {
    var rest := names;
    head :| head in rest;
    rest := rest - {head};
    while rest != {}
      invariant rest <= names && head in names
      invariant forall other <- names - rest :: other == head || Lex.Less(head, other)
      decreases |rest|
    {
      var name :| name in rest;
      Lex.Total(name, head);
      if Lex.Less(name, head) {
        forall other | other in names - rest && other != head
          ensures Lex.Less(name, other)
        {
          Lex.Transitive(name, head, other);
        }
        head := name;
      }
      rest := rest - {name};
    }
  }

  method CompileLists(expand: Expansion, lists: map<string, seq<Entry>>)
      returns (r: Result<map<string, Compiled>, CompileError>)
    requires forall name <- lists :: AllLexed(lists[name])
    ensures CompileListsResult(expand, lists, r)
  {
    var unknown := set name | name in lists && name !in ROUTE_LISTS;
    assert unknown == lists.Keys - {"direct", "proxy", "block"};
    if unknown != {} {
      var name := SortedHead(unknown);
      return Failure(UnknownList(name));
    }
    var missing := set name | name in ROUTE_LISTS && name !in lists;
    assert missing == {"direct", "proxy", "block"} - lists.Keys;
    if missing != {} {
      var name := SortedHead(missing);
      return Failure(MissingList(name));
    }
    var result: map<string, Compiled> := map[];
    for i := 0 to |ROUTE_LISTS|
      invariant CompileAll(expand, lists, ROUTE_LISTS[..i]) == Success(result)
    {
      var listName := ROUTE_LISTS[i];
      assert ROUTE_LISTS[..i + 1][..i] == ROUTE_LISTS[..i];
      if |lists[listName]| > MAX_ENTRIES_PER_LIST {
        CompileAllFails(expand, lists, i + 1);
        return Failure(ListTooLarge(listName));
      }
      var one := CompileList(expand, listName, lists[listName]);
      if one.Failure? {
        CompileAllFails(expand, lists, i + 1);
        return Failure(one.error);
      }
      result := result[listName := one.value];
    }
    assert ROUTE_LISTS[..|ROUTE_LISTS|] == ROUTE_LISTS;
    return Success(result);
  }

  lemma {:induction false} CompileAllFails(expand: Expansion, lists: map<string, seq<Entry>>, i: nat)
    requires forall name <- ROUTE_LISTS :: name in lists && AllLexed(lists[name])
    requires i <= 3 && CompileAll(expand, lists, ROUTE_LISTS[..i]).Failure?
    ensures CompileAll(expand, lists, ROUTE_LISTS) == CompileAll(expand, lists, ROUTE_LISTS[..i])
    decreases 3 - i
  {
    if i < 3 {
      assert ROUTE_LISTS[..i + 1][..i] == ROUTE_LISTS[..i];
      CompileAllFails(expand, lists, i + 1);
    } else {
      assert ROUTE_LISTS[..3] == ROUTE_LISTS;
    }
  }

  // ----- The plan

  datatype Target = Active | Direct | Reject

  datatype PlanRule = Guarded(rule: Rule, target: Target) | MatchAll(target: Target)

  datatype Plan = Plan(fallback: Target, rules: seq<PlanRule>, compiled: map<string, Compiled>)

  function Action(name: string): Option<Target> {
    if name == "proxy" then Some(Active)
    else if name == "direct" then Some(Direct)
    else if name == "block" then Some(Reject)
    else None
  }

  function Guard(rules: seq<Rule>, target: Target): (guarded: seq<PlanRule>)
    ensures |guarded| == |rules|
  {
    seq(|rules|, i requires 0 <= i < |rules| => Guarded(rules[i], target))
  }

  function PlanRules(compiled: map<string, Compiled>, fallback: Target): seq<PlanRule>
    requires compiled.Keys == {"direct", "proxy", "block"}
  {
    Guard(compiled["block"].rules, Reject) + Guard(compiled["direct"].rules, Direct)
    + Guard(compiled["proxy"].rules, Active) + [MatchAll(fallback)]
  }

  lemma {:induction false} CompileAllKeys(expand: Expansion, lists: map<string, seq<Entry>>)
    requires forall name <- ROUTE_LISTS :: name in lists && AllLexed(lists[name])
    requires CompileAll(expand, lists, ROUTE_LISTS).Success?
    ensures CompileAll(expand, lists, ROUTE_LISTS).value.Keys == {"direct", "proxy", "block"}
    ensures forall name <- ROUTE_LISTS ::
              CompileEntries(expand, name, lists[name]) == Success(CompileAll(expand, lists, ROUTE_LISTS).value[name])
    ensures forall name <- ROUTE_LISTS :: |lists[name]| <= MAX_ENTRIES_PER_LIST
  {
    var three := ROUTE_LISTS;
    assert three[..2] == ["direct", "proxy"] && three[..2][..1] == ["direct"] && three[..2][..1][..0] == [];
    assert CompileAll(expand, lists, three[..2][..1]).Success?;
  }

  method AppendGuarded(before: seq<PlanRule>, list: seq<Rule>, target: Target) returns (rules: seq<PlanRule>)
    ensures rules == before + Guard(list, target)
  {
    rules := before;
    for k := 0 to |list|
      invariant rules == before + Guard(list[..k], target)
    {
      rules := rules + [Guarded(list[k], target)];
    }
    assert list[..|list|] == list;
  }

  method Compile(expand: Expansion, fallback: string, lists: map<string, seq<Entry>>)
      returns (r: Result<Plan, CompileError>)
    requires forall name <- lists :: AllLexed(lists[name])
    ensures r.Success? <==> fallback in {"proxy", "direct", "block"} && lists.Keys == {"direct", "proxy", "block"}
                            && CompileAll(expand, lists, ROUTE_LISTS).Success?
    ensures r.Success? ==> r.value.fallback == (if fallback == "block" then Reject
                                                else if fallback == "direct" then Direct else Active)
                           && Success(r.value.compiled) == CompileAll(expand, lists, ROUTE_LISTS)
                           && r.value.compiled.Keys == {"direct", "proxy", "block"}
                           && r.value.rules == PlanRules(r.value.compiled, r.value.fallback)
    ensures r.Failure? ==> if fallback !in {"proxy", "direct", "block"} then r.error.UnknownDefault?
                           else CompileListsResult(expand, lists, Failure(r.error))
  {
    hide CompileAll;
    var fallbackTarget := Action(fallback);
    if fallbackTarget.None? {
      return Failure(UnknownDefault);
    }
    var compiled := CompileLists(expand, lists);
    if compiled.Failure? {
      return Failure(compiled.error);
    }
    CompileAllKeys(expand, lists);
    var rules: seq<PlanRule> := [];
    var order, targets := ["block", "direct", "proxy"], [Reject, Direct, Active];
    for i := 0 to 3
      invariant rules == (if i > 0 then Guard(compiled.value["block"].rules, Reject) else [])
                         + (if i > 1 then Guard(compiled.value["direct"].rules, Direct) else [])
                         + (if i > 2 then Guard(compiled.value["proxy"].rules, Active) else [])
    {
      rules := AppendGuarded(rules, compiled.value[order[i]].rules, targets[i]);
    }
    rules := rules + [MatchAll(fallbackTarget.value)];
    return Success(Plan(fallbackTarget.value, rules, compiled.value));
  }

  // ----- What the plan means

  function FirstMatch(rules: seq<PlanRule>, c: Connection): Option<Target> {
    if rules == [] then None
    else if rules[0].MatchAll? || RuleMatches(rules[0].rule, c) then Some(rules[0].target)
    else FirstMatch(rules[1..], c)
  }

  /** Block over direct over proxy over the default, on the entries as written. */
  ghost function Verdict(expand: Expansion, fallback: Target, lists: map<string, seq<Entry>>, c: Connection): Target
    requires forall name <- lists :: AllLexed(lists[name])
    requires lists.Keys == {"direct", "proxy", "block"}
  {
    if SomeEntryMatches(expand, lists["block"], c) then Reject
    else if SomeEntryMatches(expand, lists["direct"], c) then Direct
    else if SomeEntryMatches(expand, lists["proxy"], c) then Active
    else fallback
  }

  lemma {:induction false} FirstMatchGuard(rules: seq<Rule>, target: Target, rest: seq<PlanRule>, c: Connection)
    ensures FirstMatch(Guard(rules, target) + rest, c) ==
            if SomeRuleMatches(rules, c) then Some(target) else FirstMatch(rest, c)
  {
    var all := Guard(rules, target) + rest;
    if rules == [] {
      assert all == rest;
    } else {
      assert all[1..] == Guard(rules[1..], target) + rest;
      assert rules == [rules[0]] + rules[1..];
      FirstMatchGuard(rules[1..], target, rest, c);
      assert SomeRuleMatches(rules, c) <==> RuleMatches(rules[0], c) || SomeRuleMatches(rules[1..], c);
    }
  }

  /** Compilation preserves meaning: the first match in the plan is the verdict on the source entries. */
  lemma {:induction false} CompilePreservesMeaning(expand: Expansion, fallback: Target, lists: map<string, seq<Entry>>,
          c: Connection)
    requires forall name <- lists :: AllLexed(lists[name])
    requires lists.Keys == {"direct", "proxy", "block"} && CompileAll(expand, lists, ROUTE_LISTS).Success?
    ensures var compiled := CompileAll(expand, lists, ROUTE_LISTS).value;
            && compiled.Keys == {"direct", "proxy", "block"}
            && FirstMatch(PlanRules(compiled, fallback), c) == Some(Verdict(expand, fallback, lists, c))
  {
    CompileAllKeys(expand, lists);
    var compiled := CompileAll(expand, lists, ROUTE_LISTS).value;
    var tail0 := [MatchAll(fallback)];
    var tail1 := Guard(compiled["proxy"].rules, Active) + tail0;
    var tail2 := Guard(compiled["direct"].rules, Direct) + tail1;
    assert PlanRules(compiled, fallback) == Guard(compiled["block"].rules, Reject) + tail2;
    FirstMatchGuard(compiled["block"].rules, Reject, tail2, c);
    FirstMatchGuard(compiled["direct"].rules, Direct, tail1, c);
    FirstMatchGuard(compiled["proxy"].rules, Active, tail0, c);
    assert ROUTE_LISTS[0] == "direct" && ROUTE_LISTS[1] == "proxy" && ROUTE_LISTS[2] == "block";
    CompileListPreservesMeaning(expand, "block", lists["block"], c);
    CompileListPreservesMeaning(expand, "direct", lists["direct"], c);
    CompileListPreservesMeaning(expand, "proxy", lists["proxy"], c);
  }
}
