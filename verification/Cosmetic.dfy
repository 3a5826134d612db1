/**
 Cosmetic filter rules: reading the lines of a list, indexing them by domain,
 and answering which selectors a host hides, against what the rules say.
 */
module Cosmetic {
  import opened Wrappers
  import opened Text
  import opened Host

  const PROCEDURAL: set<string> := {":has-text(", ":-abp-", ":matches-path(", ":upward(", ":style(", ":remove("}
  const FORBIDDEN: set<char> := {'<', '{', '}', '@', ';', '\\'}

  datatype Rule = Rule(domains: seq<string>, except: seq<string>, selector: string, unhide: bool)

  predicate Usable(selector: string) {
    selector != [] && forall i :: 0 <= i < |selector| ==> selector[i] !in FORBIDDEN
  }

  predicate Hideable(selector: string) {
    && !("+js(" <= selector)
    && (forall form :: form in PROCEDURAL ==> !Contains(selector, form))
    && Usable(selector)
  }

  // ---- One line ----

  /** What follows the separator, and whether it takes a hide back. */
  function Separated(rest: string): Option<(string, bool)> {
    if "#@#" <= rest then Some((rest[3..], true))
    else if "##" <= rest then Some((rest[2..], false))
    else None
  }

  /** The domain list of a rule: who it is for, who it is not for, and whether
      it named anybody. One unreadable exclusion spoils the rule. */
  datatype Scope = Scope(wanted: seq<string>, excluded: seq<string>, named: bool)

  function Scoped(s: Scope, entry: string): Option<Scope> {
    var name := Trim(entry);
    if name == [] then Some(s)
    else if name[0] == '~' then
      var domain :- Normalize(name[1..]);
      Some(s.(excluded := s.excluded + [domain], named := true))
    else match Normalize(name)
      case Some(domain) => Some(s.(wanted := s.wanted + [domain], named := true))
      case None => Some(s.(named := true))
  }

  function ScopeOf(entries: seq<string>, s: Scope): Option<Scope>
    decreases entries
  {
    if entries == [] then Some(s)
    else
      var next :- Scoped(s, entries[0]);
      ScopeOf(entries[1..], next)
  }

  function RuleFrom(s: Scope, selector: string, unhide: bool): Option<Rule> {
    if s.named && s.wanted == [] && s.excluded == [] then None
    else if unhide && s.wanted == [] then None
    else Some(Rule(s.wanted, s.excluded, selector, unhide))
  }

  function Parse(raw: string): Option<Rule> {
    var line := Trim(raw);
    var hash := IndexOf(line, '#');
    if line == [] || line[0] == '!' || hash == |line| then None
    else
      var separated :- Separated(line[hash..]);
      var selector := Trim(separated.0);
      if !Hideable(selector) then None
      else
        var scope :- ScopeOf(Split(line[..hash], ','), Scope([], [], false));
        RuleFrom(scope, selector, separated.1)
  }

  method ParseLine(raw: string) returns (r: Option<Rule>)
    ensures r == Parse(raw)
  {
    var line := Trim(raw);
    if line == [] || line[0] == '!' {
      return None;
    }
    var hash := IndexOf(line, '#');
    if hash == |line| {
      return None;
    }
    var separated := Separated(line[hash..]);
    if separated.None? {
      return None;
    }
    var selector := Trim(separated.value.0);
    if !Hideable(selector) {
      return None;
    }
    var entries := Split(line[..hash], ',');
    var scope := Scope([], [], false);
    var i := 0;
    while i < |entries|
      invariant 0 <= i <= |entries|
      invariant ScopeOf(entries, Scope([], [], false)) == ScopeOf(entries[i..], scope)
    {
      assert entries[i..][1..] == entries[i + 1..];
      var next := Scoped(scope, entries[i]);
      if next.None? {
        return None;
      }
      scope := next.value;
      i := i + 1;
    }
    return RuleFrom(scope, selector, separated.value.1);
  }

  // ---- What a domain list says ----

  predicate Inclusion(entry: string) {
    Trim(entry) != [] && Trim(entry)[0] != '~'
  }

  predicate Exclusion(entry: string) {
    Trim(entry) != [] && Trim(entry)[0] == '~'
  }

  /** The domain an entry names, if it can be read. */
  function DomainOf(entry: string): Option<string> {
    Normalize(if Exclusion(entry) then Trim(entry)[1..] else Trim(entry))
  }

  predicate Wants(entries: seq<string>, d: string) {
    exists i :: 0 <= i < |entries| && Inclusion(entries[i]) && DomainOf(entries[i]) == Some(d)
  }

  predicate Excludes(entries: seq<string>, d: string) {
    exists i :: 0 <= i < |entries| && Exclusion(entries[i]) && DomainOf(entries[i]) == Some(d)
  }

  predicate NamesAny(entries: seq<string>) {
    exists i :: 0 <= i < |entries| && Trim(entries[i]) != []
  }

  lemma OneEntry(s: Scope, entry: string)
    ensures match Scoped(s, entry)
            case None => Exclusion(entry) && DomainOf(entry).None?
            case Some(next) =>
              && !(Exclusion(entry) && DomainOf(entry).None?)
              && next.wanted == s.wanted + (if Inclusion(entry) && DomainOf(entry).Some? then [DomainOf(entry).value] else [])
              && next.excluded == s.excluded + (if Exclusion(entry) then [DomainOf(entry).value] else [])
              && next.named == (s.named || Trim(entry) != [])
  {
  }

  lemma EntriesFromFirst(entries: seq<string>)
    requires entries != []
    ensures forall d :: Wants(entries, d) <==> (Inclusion(entries[0]) && DomainOf(entries[0]) == Some(d)) || Wants(entries[1..], d)
    ensures forall d :: Excludes(entries, d) <==> (Exclusion(entries[0]) && DomainOf(entries[0]) == Some(d)) || Excludes(entries[1..], d)
    ensures NamesAny(entries) <==> Trim(entries[0]) != [] || NamesAny(entries[1..])
  {
    var rest := entries[1..];
    assert forall i :: 0 < i < |entries| ==> entries[i] == rest[i - 1];
    assert forall i :: 0 <= i < |rest| ==> rest[i] == entries[i + 1];
  }

  /** Reading the list in one pass gathers just the domains wanted and the
      domains excluded, and gives up on any exclusion it cannot read. */
  lemma {:induction false} ScopeMeans(entries: seq<string>, s: Scope)
    ensures match ScopeOf(entries, s)
            case None => exists i :: 0 <= i < |entries| && Exclusion(entries[i]) && DomainOf(entries[i]).None?
            case Some(r) =>
              && (forall d :: d in r.wanted <==> d in s.wanted || Wants(entries, d))
              && (forall d :: d in r.excluded <==> d in s.excluded || Excludes(entries, d))
              && (r.named <==> s.named || NamesAny(entries))
              && (forall i :: 0 <= i < |entries| && Exclusion(entries[i]) ==> DomainOf(entries[i]).Some?)
    decreases entries
  {
    if entries != [] {
      OneEntry(s, entries[0]);
      match Scoped(s, entries[0])
      case None =>
      case Some(next) =>
        ScopeMeans(entries[1..], next);
        EntriesFromFirst(entries);
        assert forall i :: 0 < i < |entries| ==> entries[i] == entries[1..][i - 1];
        if ScopeOf(entries[1..], next).None? {
          var i :| 0 <= i < |entries[1..]| && Exclusion(entries[1..][i]) && DomainOf(entries[1..][i]).None?;
          assert Exclusion(entries[i + 1]) && DomainOf(entries[i + 1]).None?;
        }
    }
  }

  /** A rule written for named domains must not come out as one for every site.
      It does exactly when none of those names can be read and some exclusion
      stands beside them: only without one is the rule dropped. */
  lemma WidenedIff(entries: seq<string>, selector: string)
    requires ScopeOf(entries, Scope([], [], false)).Some?
    requires exists i :: 0 <= i < |entries| && Inclusion(entries[i])
    ensures var rule := RuleFrom(ScopeOf(entries, Scope([], [], false)).value, selector, false);
            rule.Some? && rule.value.domains == [] <==>
            && (forall i :: 0 <= i < |entries| && Inclusion(entries[i]) ==> DomainOf(entries[i]).None?)
            && (exists i :: 0 <= i < |entries| && Exclusion(entries[i]))
  {
    NothingWantedIff(entries);
    NothingExcludedIff(entries);
    NamedByAnInclusion(entries);
  }

  lemma NothingWantedIff(entries: seq<string>)
    requires ScopeOf(entries, Scope([], [], false)).Some?
    ensures ScopeOf(entries, Scope([], [], false)).value.wanted == [] <==>
            forall i :: 0 <= i < |entries| && Inclusion(entries[i]) ==> DomainOf(entries[i]).None?
  {
    var scope := ScopeOf(entries, Scope([], [], false)).value;
    ScopeMeans(entries, Scope([], [], false));
    if scope.wanted == [] {
      forall i | 0 <= i < |entries| && Inclusion(entries[i]) ensures DomainOf(entries[i]).None? {
        assert DomainOf(entries[i]).Some? ==> Wants(entries, DomainOf(entries[i]).value);
      }
    } else {
      assert Wants(entries, scope.wanted[0]);
    }
  }

  lemma NothingExcludedIff(entries: seq<string>)
    requires ScopeOf(entries, Scope([], [], false)).Some?
    ensures ScopeOf(entries, Scope([], [], false)).value.excluded == [] <==>
            forall i :: 0 <= i < |entries| ==> !Exclusion(entries[i])
  {
    var scope := ScopeOf(entries, Scope([], [], false)).value;
    ScopeMeans(entries, Scope([], [], false));
    if scope.excluded != [] {
      assert Excludes(entries, scope.excluded[0]);
    }
    if i :| 0 <= i < |entries| && Exclusion(entries[i]) {
      assert Excludes(entries, DomainOf(entries[i]).value);
    }
  }

  lemma NamedByAnInclusion(entries: seq<string>)
    requires ScopeOf(entries, Scope([], [], false)).Some?
    requires exists i :: 0 <= i < |entries| && Inclusion(entries[i])
    ensures ScopeOf(entries, Scope([], [], false)).value.named
  {
    ScopeMeans(entries, Scope([], [], false));
  }

  /** So one name that cannot be read, beside one exclusion, hides on every
      host there is but the excluded ones, when generic rules are switched on,
      and nowhere when they are not. */
  lemma AnUnreadNameHidesEverywhere(name: string, spared: string, selector: string, host: string, generic: bool)
    requires Inclusion(name) && DomainOf(name).None?
    requires Exclusion(spared) && DomainOf(spared).Some?
    ensures var scope := ScopeOf([name, spared], Scope([], [], false));
            && scope.Some? && RuleFrom(scope.value, selector, false).Some?
            && var rule := RuleFrom(scope.value, selector, false).value;
            && (HidesOn(rule, host, generic) <==> generic)
            && (SparesOn(rule, host) <==> AtOrBelow(Canonical(host), DomainOf(spared).value))
  {
    var entries, d := [name, spared], DomainOf(spared).value;
    var first := Scoped(Scope([], [], false), name);
    assert entries[1..] == [spared] && [spared][1..] == [];
    assert first == Some(Scope([], [], true));
    OneEntry(first.value, spared);
    assert [] + [d] == [d];
    assert Scoped(first.value, spared) == Some(Scope([], [d], true));
    assert ScopeOf([spared], first.value) == Some(Scope([], [d], true));
    var rule := RuleFrom(ScopeOf(entries, Scope([], [], false)).value, selector, false).value;
    assert rule.except == [d] && rule.except[0] == d;
  }

  // ---- Exactly which lines are rules, and which ----

  /** Something a style sheet can do by itself: no scriptlet, none of the six
      forms only a filter engine knows, and no character that could leave the
      rule it is put in. */
  ghost predicate Plain(selector: string) {
    && selector != []
    && !PartAt(selector, "+js(", 0)
    && !Holds(selector, ":has-text(") && !Holds(selector, ":-abp-") && !Holds(selector, ":matches-path(")
    && !Holds(selector, ":upward(") && !Holds(selector, ":style(") && !Holds(selector, ":remove(")
    && '<' !in selector && '{' !in selector && '}' !in selector
    && '@' !in selector && ';' !in selector && '\\' !in selector
  }

  ghost predicate Holds(s: string, part: string) {
    exists at: nat :: PartAt(s, part, at)
  }

  lemma UsableIff(selector: string)
    ensures Usable(selector) <==>
            && selector != []
            && '<' !in selector && '{' !in selector && '}' !in selector
            && '@' !in selector && ';' !in selector && '\\' !in selector
  {
    assert FORBIDDEN == {'<', '{', '}', '@', ';', '\\'};
    if Usable(selector) {
      assert forall c :: c in selector ==> c !in FORBIDDEN;
    }
  }

  lemma NoFormIff(selector: string)
    ensures (forall form :: form in PROCEDURAL ==> !Contains(selector, form)) <==>
            && !Holds(selector, ":has-text(") && !Holds(selector, ":-abp-") && !Holds(selector, ":matches-path(")
            && !Holds(selector, ":upward(") && !Holds(selector, ":style(") && !Holds(selector, ":remove(")
  {
    forall form ensures Contains(selector, form) <==> Holds(selector, form) {
      ContainsIff(selector, form);
    }
    assert PROCEDURAL == {":has-text(", ":-abp-", ":matches-path(", ":upward(", ":style(", ":remove("};
  }

  lemma HideableIff(selector: string)
    ensures Hideable(selector) <==> Plain(selector)
  {
    UsableIff(selector);
    NoFormIff(selector);
    assert "+js(" <= selector <==> PartAt(selector, "+js(", 0);
  }

  function Separator(unhide: bool): string {
    if unhide then "#@#" else "##"
  }

  /** A line that is a domain list, a separator and a selector. */
  predicate IsRuleLine(raw: string, domains: string, unhide: bool, rest: string) {
    && Trim(raw) == domains + (Separator(unhide) + rest)
    && '#' !in domains && (domains != [] ==> domains[0] != '!')
  }

  /** The rule such a line writes, if it writes one: none when an exclusion
      cannot be read, when none of the names given can, or when it would take a
      selector back from every site. */
  ghost predicate Writes(rule: Option<Rule>, entries: seq<string>, unhide: bool, selector: string) {
    var unreadable := exists i :: 0 <= i < |entries| && Exclusion(entries[i]) && DomainOf(entries[i]).None?;
    var wants, excludes := exists d :: Wants(entries, d), exists d :: Excludes(entries, d);
    if !Plain(selector) || unreadable || (NamesAny(entries) && !wants && !excludes) || (unhide && !wants)
    then rule == None
    else
      && rule.Some? && rule.value.selector == selector && rule.value.unhide == unhide
      && (forall d :: d in rule.value.domains <==> Wants(entries, d))
      && (forall d :: d in rule.value.except <==> Excludes(entries, d))
  }

  lemma FirstHash(domains: string, more: string)
    requires '#' !in domains && more != [] && more[0] == '#'
    ensures IndexOf(domains + more, '#') == |domains|
  {
    assert (domains + more)[|domains|] == '#';
    assert forall k :: 0 <= k < |domains| ==> (domains + more)[k] == domains[k];
  }

  lemma SeparatedBy(unhide: bool, rest: string)
    ensures Separated(Separator(unhide) + rest) == Some((rest, unhide))
  {
    var s := Separator(unhide) + rest;
    if unhide {
      assert s[..3] == "#@#" && s[3..] == rest;
    } else {
      assert s[..2] == "##" && s[2..] == rest && s[1] == '#';
      assert "#@#"[1] == '@';
    }
  }

  lemma ScopeWrites(entries: seq<string>, unhide: bool, selector: string)
    requires Plain(selector)
    ensures Writes(match ScopeOf(entries, Scope([], [], false))
                   case None => None
                   case Some(scope) => RuleFrom(scope, selector, unhide), entries, unhide, selector)
  {
    ScopeMeans(entries, Scope([], [], false));
    var read := ScopeOf(entries, Scope([], [], false));
    if read.Some? {
      SomeOrNone(read.value.wanted, entries);
      SomeOrNoneExcluded(read.value.excluded, entries);
    }
  }

  lemma SomeOrNone(wanted: seq<string>, entries: seq<string>)
    requires forall d :: d in wanted <==> Wants(entries, d)
    ensures wanted == [] <==> !exists d :: Wants(entries, d)
  {
    if wanted != [] {
      assert wanted[0] in wanted;
    }
  }

  lemma SomeOrNoneExcluded(excluded: seq<string>, entries: seq<string>)
    requires forall d :: d in excluded <==> Excludes(entries, d)
    ensures excluded == [] <==> !exists d :: Excludes(entries, d)
  {
    if excluded != [] {
      assert excluded[0] in excluded;
    }
  }

  /** Every rule line is read as the rule it writes. */
  lemma RuleLinesAreRead(raw: string, domains: string, unhide: bool, rest: string)
    requires IsRuleLine(raw, domains, unhide, rest)
    ensures Writes(Parse(raw), Split(domains, ','), unhide, Trim(rest))
  {
    var line, tail := Trim(raw), Separator(unhide) + rest;
    FirstHash(domains, tail);
    assert line[..|domains|] == domains && line[|domains|..] == tail;
    assert line[0] != '!';
    SeparatedBy(unhide, rest);
    HideableIff(Trim(rest));
    if Plain(Trim(rest)) {
      ScopeWrites(Split(domains, ','), unhide, Trim(rest));
    }
  }

  /** And nothing else is read as a rule. */
  lemma OnlyRuleLinesAreRead(raw: string) returns (domains: string, unhide: bool, rest: string)
    requires Parse(raw).Some?
    ensures IsRuleLine(raw, domains, unhide, rest)
  {
    var line := Trim(raw);
    var hash := IndexOf(line, '#');
    domains := line[..hash];
    var separated := Separated(line[hash..]).value;
    rest, unhide := separated.0, separated.1;
    assert line == domains + line[hash..];
    if unhide {
      assert line[hash..] == "#@#" + line[hash..][3..];
    } else {
      assert line[hash..] == "##" + line[hash..][2..];
    }
  }

  // ---- What the rules mean ----

  predicate AnyAbove(domains: seq<string>, host: string) {
    exists i :: 0 <= i < |domains| && AtOrBelow(Canonical(host), domains[i])
  }

  /** The rule hides its selector on this host. */
  predicate HidesOn(r: Rule, host: string, generic: bool) {
    !r.unhide && (if r.domains == [] then generic else AnyAbove(r.domains, host))
  }

  /** The rule forbids hiding its selector on this host. */
  predicate SparesOn(r: Rule, host: string) {
    if r.unhide then AnyAbove(r.domains, host) else AnyAbove(r.except, host)
  }

  /** Some rule hides it and no rule spares it. */
  ghost predicate Hidden(rules: seq<Rule>, selector: string, host: string, generic: bool) {
    && (exists i :: 0 <= i < |rules| && rules[i].selector == selector && HidesOn(rules[i], host, generic))
    && !(exists i :: 0 <= i < |rules| && rules[i].selector == selector && SparesOn(rules[i], host))
  }

  // ---- The index ----

  type Table = map<string, set<string>>

  /** A table as a set of domain and selector pairs. */
  predicate Lists(t: Table, domain: string, selector: string) {
    domain in t && selector in t[domain]
  }

  function Recorded(t: Table, domain: string, selector: string): Table {
    t[domain := (if domain in t then t[domain] else {}) + {selector}]
  }

  ghost predicate ListsRules(t: Table, rules: seq<Rule>, spare: bool) {
    forall d, s :: Lists(t, d, s) <==> exists i :: 0 <= i < |rules| && Names(rules[i], d, s, spare)
  }

  /** The rule puts this pair in the table of hides, or of exceptions. */
  predicate Names(r: Rule, domain: string, selector: string, spare: bool) {
    r.selector == selector &&
    (if spare then domain in (if r.unhide then r.domains else r.except) else !r.unhide && domain in r.domains)
  }

  predicate IsGeneric(r: Rule, selector: string) {
    !r.unhide && r.domains == [] && r.selector == selector
  }

  ghost predicate HoldsGeneric(everywhere: set<string>, rules: seq<Rule>) {
    forall s :: s in everywhere <==> (exists i :: 0 <= i < |rules| && IsGeneric(rules[i], s))
  }

  lemma OneMoreGeneric(before: set<string>, after: set<string>, rules: seq<Rule>, rule: Rule)
    requires HoldsGeneric(before, rules)
    requires forall s :: s in after <==> (s in before || IsGeneric(rule, s))
    ensures HoldsGeneric(after, rules + [rule])
  {
    var more := rules + [rule];
    assert more[|rules|] == rule && forall i :: 0 <= i < |rules| ==> more[i] == rules[i];
    forall s ensures s in after <==> (exists i :: 0 <= i < |more| && IsGeneric(more[i], s)) {
      if s in before {
        var i :| 0 <= i < |rules| && IsGeneric(rules[i], s);
        assert IsGeneric(more[i], s);
      }
      if IsGeneric(rule, s) {
        assert IsGeneric(more[|rules|], s);
      }
    }
  }

  class Index {
    var hides: Table
    var generic: set<string>
    var spares: Table
    const genericEnabled: bool
    ghost var rules: seq<Rule>

    ghost predicate Valid()
      reads this
    {
      && ListsRules(hides, rules, false)
      && ListsRules(spares, rules, true)
      && HoldsGeneric(generic, rules)
    }

    constructor (genericEnabled: bool)
      ensures Valid() && rules == [] && this.genericEnabled == genericEnabled
    {
      hides, generic, spares, rules := map[], {}, map[], [];
      this.genericEnabled := genericEnabled;
    }

    method Insert(rule: Rule)
      requires Valid()
      modifies this
      ensures Valid() && rules == old(rules) + [rule]
    {
      ghost var hid, spared, everywhere := hides, spares, generic;
      if rule.unhide {
        spares := RecordAll(spares, rule.domains, rule.selector);
      } else {
        spares := RecordAll(spares, rule.except, rule.selector);
        if rule.domains == [] {
          generic := generic + {rule.selector};
        } else {
          hides := RecordAll(hides, rule.domains, rule.selector);
        }
      }
      OneMoreRule(hid, hides, rules, rule, false);
      OneMoreRule(spared, spares, rules, rule, true);
      OneMoreGeneric(everywhere, generic, rules, rule);
      rules := rules + [rule];
    }

    /** Every rule of a list, in the order of its lines. */
    method Add(lines: seq<string>)
      requires Valid()
      modifies this
      ensures Valid() && rules == old(rules) + RulesOf(lines)
    {
      var i := 0;
      while i < |lines|
        invariant 0 <= i <= |lines| && Valid()
        invariant old(rules) + RulesOf(lines) == rules + RulesOf(lines[i..])
      {
        RulesFrom(rules, lines, i);
        AddLine(lines[i]);
        i := i + 1;
      }
      assert rules + [] == rules;
    }

    method AddLine(line: string)
      requires Valid()
      modifies this
      ensures Valid() && rules == old(rules) + Kept(Parse(line))
    {
      var rule := ParseLine(line);
      if rule.Some? {
        Insert(rule.value);
      } else {
        assert rules + [] == rules;
      }
    }

    /** Sorted and without duplicates: the selectors some rule hides on this
        host, or on a name above it, that no rule takes back there. */
    method Selectors(host: string) returns (r: seq<string>)
      requires Valid()
      ensures StrictlySorted(r)
      ensures forall s :: s in r <==> Hidden(rules, s, host, genericEnabled)
    {
      if hides == map[] && generic == {} {
        NothingHidden(hides, generic, rules, host, genericEnabled);
        return [];
      }
      var names := Parents(Canonical(host));
      var hidden: set<string> := if genericEnabled then generic else {};
      ghost var start := hidden;
      var i := 0;
      while i < |names|
        invariant 0 <= i <= |names|
        invariant forall s :: s in hidden <==> s in start || ListedBy(hides, names[..i], s)
      {
        ListedByOneMore(hides, names, i);
        if names[i] in hides {
          hidden := hidden + hides[names[i]];
        }
        i := i + 1;
      }
      assert names[..i] == names;
      ghost var all := hidden;
      i := 0;
      while i < |names|
        invariant 0 <= i <= |names|
        invariant forall s :: s in hidden <==> s in all && !ListedBy(spares, names[..i], s)
      {
        ListedByOneMore(spares, names, i);
        if names[i] in spares {
          hidden := hidden - spares[names[i]];
        }
        i := i + 1;
      }
      assert names[..i] == names;
      forall s ensures s in hidden <==> Hidden(rules, s, host, genericEnabled) {
        HiddenIffListed(hides, generic, spares, rules, s, host, genericEnabled);
      }
      r := InOrder(hidden);
    }
  }

  function RulesOf(lines: seq<string>): seq<Rule> {
    if lines == [] then []
    else Kept(Parse(lines[0])) + RulesOf(lines[1..])
  }

  function Kept(r: Option<Rule>): seq<Rule> {
    if r.None? then [] else [r.value]
  }

  lemma RulesFrom(before: seq<Rule>, lines: seq<string>, i: nat)
    requires i < |lines|
    ensures before + RulesOf(lines[i..]) == (before + Kept(Parse(lines[i]))) + RulesOf(lines[i + 1..])
  {
    assert lines[i..][0] == lines[i] && lines[i..][1..] == lines[i + 1..];
  }

  method RecordAll(t: Table, domains: seq<string>, selector: string) returns (r: Table)
    ensures forall d, s :: Lists(r, d, s) <==> Lists(t, d, s) || (s == selector && d in domains)
  {
    r := t;
    var i := 0;
    while i < |domains|
      invariant 0 <= i <= |domains|
      invariant forall d, s :: Lists(r, d, s) <==> Lists(t, d, s) || (s == selector && d in domains[..i])
    {
      assert domains[..i + 1] == domains[..i] + [domains[i]];
      r := Recorded(r, domains[i], selector);
      i := i + 1;
    }
    assert domains[..i] == domains;
  }

  lemma OneMoreRule(before: Table, after: Table, rules: seq<Rule>, rule: Rule, spare: bool)
    requires ListsRules(before, rules, spare)
    requires forall d, s :: Lists(after, d, s) <==> Lists(before, d, s) || Names(rule, d, s, spare)
    ensures ListsRules(after, rules + [rule], spare)
  {
    var more := rules + [rule];
    assert more[|rules|] == rule && forall i :: 0 <= i < |rules| ==> more[i] == rules[i];
    forall d, s ensures Lists(after, d, s) <==> exists i :: 0 <= i < |more| && Names(more[i], d, s, spare) {
      if Lists(before, d, s) {
        var i :| 0 <= i < |rules| && Names(rules[i], d, s, spare);
        assert Names(more[i], d, s, spare);
      }
      if Names(rule, d, s, spare) {
        assert Names(more[|rules|], d, s, spare);
      }
    }
  }

  ghost predicate ListedBy(t: Table, names: seq<string>, selector: string) {
    exists i :: 0 <= i < |names| && Lists(t, names[i], selector)
  }

  lemma ListedByOneMore(t: Table, names: seq<string>, n: nat)
    requires n < |names|
    ensures forall s :: ListedBy(t, names[..n + 1], s) <==> ListedBy(t, names[..n], s) || Lists(t, names[n], s)
  {
    var more := names[..n + 1];
    assert forall i :: 0 <= i < n ==> more[i] == names[..n][i];
    assert more[n] == names[n];
    forall s ensures ListedBy(t, more, s) <==> ListedBy(t, names[..n], s) || Lists(t, names[n], s) {
      if ListedBy(t, names[..n], s) {
        var i :| 0 <= i < n && Lists(t, names[..n][i], s);
        assert Lists(t, more[i], s);
      }
      if Lists(t, names[n], s) {
        assert Lists(t, more[n], s);
      }
    }
  }

  /** The walk over a host's parents finds a pair exactly when some rule names a
      domain at or above the host. */
  lemma WalkFinds(t: Table, rules: seq<Rule>, selector: string, host: string, spare: bool)
    requires ListsRules(t, rules, spare)
    ensures ListedBy(t, Parents(Canonical(host)), selector) <==>
            exists i, d :: 0 <= i < |rules| && Names(rules[i], d, selector, spare) && AtOrBelow(Canonical(host), d)
  {
    var names := Parents(Canonical(host));
    if ListedBy(t, names, selector) {
      var k :| 0 <= k < |names| && Lists(t, names[k], selector);
      var i :| 0 <= i < |rules| && Names(rules[i], names[k], selector, spare);
      ParentsAreTheNamesAbove(Canonical(host), names[k]);
    }
    if i, d :| 0 <= i < |rules| && Names(rules[i], d, selector, spare) && AtOrBelow(Canonical(host), d) {
      ParentsAreTheNamesAbove(Canonical(host), d);
      var k :| 0 <= k < |names| && names[k] == d;
      assert Lists(t, names[k], selector);
    }
  }

  lemma SparesIffNamed(r: Rule, selector: string, host: string)
    ensures (r.selector == selector && SparesOn(r, host)) <==>
            exists d :: Names(r, d, selector, true) && AtOrBelow(Canonical(host), d)
  {
    var domains := if r.unhide then r.domains else r.except;
    if r.selector == selector && SparesOn(r, host) {
      var i :| 0 <= i < |domains| && AtOrBelow(Canonical(host), domains[i]);
      assert Names(r, domains[i], selector, true);
    }
    if d :| Names(r, d, selector, true) && AtOrBelow(Canonical(host), d) {
      var i :| 0 <= i < |domains| && domains[i] == d;
    }
  }

  lemma HidesIffNamed(r: Rule, selector: string, host: string, generic: bool)
    ensures (r.selector == selector && HidesOn(r, host, generic)) <==>
            || (generic && IsGeneric(r, selector))
            || exists d :: Names(r, d, selector, false) && AtOrBelow(Canonical(host), d)
  {
    if r.selector == selector && HidesOn(r, host, generic) && r.domains != [] {
      var i :| 0 <= i < |r.domains| && AtOrBelow(Canonical(host), r.domains[i]);
      assert Names(r, r.domains[i], selector, false);
    }
    if d :| Names(r, d, selector, false) && AtOrBelow(Canonical(host), d) {
      var i :| 0 <= i < |r.domains| && r.domains[i] == d;
    }
  }

  lemma HiddenIffListed(hides: Table, generic: set<string>, spares: Table, rules: seq<Rule>,
                        selector: string, host: string, genericEnabled: bool)
    requires ListsRules(hides, rules, false) && ListsRules(spares, rules, true)
    requires HoldsGeneric(generic, rules)
    ensures var names := Parents(Canonical(host));
            Hidden(rules, selector, host, genericEnabled) <==>
              && ((genericEnabled && selector in generic) || ListedBy(hides, names, selector))
              && !ListedBy(spares, names, selector)
  {
    WalkFinds(hides, rules, selector, host, false);
    WalkFinds(spares, rules, selector, host, true);
    forall i | 0 <= i < |rules|
      ensures (rules[i].selector == selector && HidesOn(rules[i], host, genericEnabled)) <==>
              (genericEnabled && IsGeneric(rules[i], selector)) ||
              exists d :: Names(rules[i], d, selector, false) && AtOrBelow(Canonical(host), d)
      ensures (rules[i].selector == selector && SparesOn(rules[i], host)) <==>
              exists d :: Names(rules[i], d, selector, true) && AtOrBelow(Canonical(host), d)
    {
      HidesIffNamed(rules[i], selector, host, genericEnabled);
      SparesIffNamed(rules[i], selector, host);
    }
  }

  lemma NothingHidden(hides: Table, generic: set<string>, rules: seq<Rule>, host: string, genericEnabled: bool)
    requires ListsRules(hides, rules, false) && hides == map[] && generic == {}
    requires HoldsGeneric(generic, rules)
    ensures forall s :: !Hidden(rules, s, host, genericEnabled)
  {
    forall s ensures !Hidden(rules, s, host, genericEnabled) {
      forall i | 0 <= i < |rules| ensures !(rules[i].selector == s && HidesOn(rules[i], host, genericEnabled)) {
        HidesIffNamed(rules[i], s, host, genericEnabled);
        forall d ensures !Names(rules[i], d, s, false) {
          assert !Lists(hides, d, s);
        }
        assert s !in generic;
      }
    }
  }

  /** The order of the lines never matters: two lists with the same rules hide
      the same selectors everywhere. */
  lemma LineOrderNeverMatters(a: seq<Rule>, b: seq<Rule>, selector: string, host: string, generic: bool)
    requires forall r :: r in a <==> r in b
    ensures Hidden(a, selector, host, generic) <==> Hidden(b, selector, host, generic)
  {
    SameRulesHide(a, b, selector, host, generic);
    SameRulesHide(b, a, selector, host, generic);
  }

  lemma SameRulesHide(a: seq<Rule>, b: seq<Rule>, selector: string, host: string, generic: bool)
    requires forall r :: r in a <==> r in b
    ensures Hidden(a, selector, host, generic) ==> Hidden(b, selector, host, generic)
  {
    if Hidden(a, selector, host, generic) {
      var i :| 0 <= i < |a| && a[i].selector == selector && HidesOn(a[i], host, generic);
      assert a[i] in b;
      var j :| 0 <= j < |b| && b[j] == a[i];
      forall k | 0 <= k < |b| ensures !(b[k].selector == selector && SparesOn(b[k], host)) {
        assert b[k] in a;
      }
    }
  }

  // ---- Sorted output ----

  predicate Before(a: string, b: string) {
    b != [] && (a == [] || a[0] < b[0] || (a[0] == b[0] && Before(a[1..], b[1..])))
  }

  predicate StrictlySorted(r: seq<string>) {
    forall i, j :: 0 <= i < j < |r| ==> Before(r[i], r[j])
  }

  lemma {:induction false} BeforeIsTotal(a: string, b: string)
    ensures a == b || Before(a, b) || Before(b, a)
  {
    if a != [] && b != [] && a[0] == b[0] {
      BeforeIsTotal(a[1..], b[1..]);
      assert a == [a[0]] + a[1..] && b == [b[0]] + b[1..];
    }
  }

  lemma {:induction false} BeforeIsTransitive(a: string, b: string, c: string)
    requires Before(a, b) && Before(b, c)
    ensures Before(a, c)
  {
    if a != [] && a[0] == b[0] == c[0] {
      BeforeIsTransitive(a[1..], b[1..], c[1..]);
    }
  }

  lemma {:induction false} FirstExists(s: set<string>) returns (first: string)
    requires s != {}
    ensures first in s && forall x :: x in s ==> x == first || Before(first, x)
    decreases |s|
  {
    first :| first in s;
    var rest := s - {first};
    assert s == rest + {first};
    if rest != {} {
      var other := FirstExists(rest);
      BeforeIsTotal(first, other);
      if Before(other, first) {
        first := other;
      } else {
        forall x | x in rest && x != other ensures Before(first, x) {
          BeforeIsTransitive(first, other, x);
        }
      }
    }
  }

  method InOrder(s: set<string>) returns (r: seq<string>)
    ensures StrictlySorted(r) && forall x :: x in r <==> x in s
  {
    r := [];
    var left := s;
    while left != {}
      invariant StrictlySorted(r) && left <= s
      invariant forall x :: x in s <==> x in r || x in left
      invariant forall i, x :: 0 <= i < |r| && x in left ==> Before(r[i], x)
      decreases |left|
    {
      ghost var least := FirstExists(left);
      var first :| first in left && forall x :: x in left ==> x == first || Before(first, x);
      r := r + [first];
      left := left - {first};
    }
  }
}
