/**
 The hosts never to decrypt: those written down, and those of lists fetched
 from somewhere and fetched again for as long as the proxy runs. A fetch that
 goes wrong is not to take a host off, and here is exactly when it does.
 */
module Refresh {
  import opened Wrappers
  import opened Text
  import opened Host

  const MAX_HOSTS: nat := 10_000
  const MAX_NAME: nat := 253
  const MAX_LABEL: nat := 63

  const REGISTRY_LABELS: set<string> :=
    {"ac", "co", "com", "edu", "gen", "go", "gov", "govt", "id", "in", "ltd", "mil", "ne", "net",
     "nom", "or", "org", "sch"}

  // ---- Reading a list ----

  /** A registry's own name under a country's. */
  predicate PublicSuffix(host: string) {
    var parts := Split(host, '.');
    |parts| == 2 && |parts[1]| == 2 && parts[0] in REGISTRY_LABELS
  }

  predicate FitsDns(host: string) {
    && |host| <= MAX_NAME
    && forall i :: 0 <= i < |Split(host, '.')| ==> |Split(host, '.')[i]| <= MAX_LABEL
  }

  function Entry(raw: string): Option<string> {
    var host :- Normalize(if "*." <= raw then raw[2..] else raw);
    if FitsDns(host) && !PublicSuffix(host) then Some(host) else None
  }

  /** The first place `a` stands right before `b`, or the length. */
  function IndexOfPair(s: string, a: char, b: char): (i: nat)
    ensures i <= |s|
    ensures i < |s| ==> i + 1 < |s| && s[i] == a && s[i + 1] == b
    ensures forall k :: 0 <= k < i && k + 1 < |s| ==> !(s[k] == a && s[k + 1] == b)
  {
    if |s| < 2 then |s| else if s[0] == a && s[1] == b then 0 else 1 + IndexOfPair(s[1..], a, b)
  }

  /** Where a comment is taken to start: after a space, else after a tab. */
  function CommentAt(line: string): (i: nat)
    ensures i <= |line|
  {
    var space := IndexOfPair(line, ' ', '#');
    if space < |line| then space else IndexOfPair(line, '\t', '#')
  }

  function FirstSpace(s: string): (i: nat)
    ensures i <= |s|
    ensures forall k :: 0 <= k < i ==> !IsSpace(s[k])
    ensures i < |s| ==> IsSpace(s[i])
  {
    if s == [] || IsSpace(s[0]) then 0 else 1 + FirstSpace(s[1..])
  }

  predicate Remark(line: string) {
    line == [] || line[0] == '#' || line[0] == '!'
  }

  /** Everything after an address, or the one word. */
  function PastAddress(kept: string): string {
    var at := FirstSpace(kept);
    if at < |kept| then kept[at + 1..] else kept
  }

  /** A line without its comment. */
  function Uncommented(line: string): string {
    if CommentAt(line) < |line| then Trim(line[..CommentAt(line)]) else line
  }

  /** What a line names. */
  function NamesOn(raw: string): seq<string> {
    var line := Trim(raw);
    if Remark(line) then [] else Words(PastAddress(Uncommented(line)))
  }

  function HostsOf(names: seq<string>): set<string> {
    if names == [] then {}
    else
      var rest := HostsOf(names[1..]);
      if Entry(names[0]).Some? then {Entry(names[0]).value} + rest else rest
  }

  function HostsIn(lines: seq<string>): set<string> {
    if lines == [] then {} else HostsOf(NamesOn(lines[0])) + HostsIn(lines[1..])
  }

  /** All a list names, or none of it when that is too many. */
  function Parse(text: string): set<string> {
    var hosts := HostsIn(Split(text, '\n'));
    if |hosts| > MAX_HOSTS then {} else hosts
  }

  method AddNames(known: set<string>, names: seq<string>) returns (hosts: set<string>)
    ensures hosts == known + HostsOf(names)
  {
    hosts := known;
    for k := 0 to |names|
      invariant known + HostsOf(names) == hosts + HostsOf(names[k..])
    {
      assert names[k..][1..] == names[k + 1..];
      var entry := Entry(names[k]);
      if entry.Some? {
        hosts := hosts + {entry.value};
      }
    }
  }

  method ParseList(text: string) returns (hosts: set<string>)
    ensures hosts == Parse(text)
  {
    hosts := {};
    var lines := Split(text, '\n');
    for i := 0 to |lines|
      invariant HostsIn(lines) == hosts + HostsIn(lines[i..])
    {
      MoreLines(hosts, lines, i);
      hosts := AddNames(hosts, NamesOn(lines[i]));
    }
    if |hosts| > MAX_HOSTS {
      hosts := {};
    }
  }

  lemma MoreLines(known: set<string>, lines: seq<string>, i: nat)
    requires i < |lines|
    ensures known + HostsIn(lines[i..]) == (known + HostsOf(NamesOn(lines[i]))) + HostsIn(lines[i + 1..])
  {
    assert lines[i..][0] == lines[i] && lines[i..][1..] == lines[i + 1..];
  }

  lemma {:induction false} HostsOfEach(names: seq<string>, h: string)
    ensures h in HostsOf(names) <==> exists k :: 0 <= k < |names| && Entry(names[k]) == Some(h)
  {
    if names != [] {
      HostsOfEach(names[1..], h);
      assert forall k :: 0 < k < |names| ==> names[k] == names[1..][k - 1];
      if h in HostsOf(names[1..]) {
        var k :| 0 <= k < |names[1..]| && Entry(names[1..][k]) == Some(h);
        assert Entry(names[k + 1]) == Some(h);
      }
    }
  }

  lemma {:induction false} HostsInEach(lines: seq<string>, h: string)
    ensures h in HostsIn(lines) <==> exists i :: 0 <= i < |lines| && h in HostsOf(NamesOn(lines[i]))
  {
    if lines != [] {
      HostsInEach(lines[1..], h);
      assert forall i :: 0 < i < |lines| ==> lines[i] == lines[1..][i - 1];
      if h in HostsIn(lines[1..]) {
        var i :| 0 <= i < |lines[1..]| && h in HostsOf(NamesOn(lines[1..][i]));
        assert h in HostsOf(NamesOn(lines[i + 1]));
      }
    }
  }

  /** For any text: the hosts its lines' words add, all of them or, beyond ten
      thousand, none. */
  lemma ParseMeans(text: string, h: string)
    ensures var lines := Split(text, '\n');
            var all := HostsIn(lines);
            && Parse(text) == (if |all| > 10000 then {} else all)
            && (h in all <==> exists i :: 0 <= i < |lines| && NamedOn(lines[i], h))
  {
    var lines := Split(text, '\n');
    HostsInEach(lines, h);
    forall i | 0 <= i < |lines| ensures h in HostsOf(NamesOn(lines[i])) <==> NamedOn(lines[i], h) {
      HostsOfEach(NamesOn(lines[i]), h);
    }
  }

  predicate NamedOn(line: string, h: string) {
    exists k :: 0 <= k < |NamesOn(line)| && Entry(NamesOn(line)[k]) == Some(h)
  }

  /** No line can exempt more than a site: whatever a list holds, each host it
      adds has two labels or more, is no registry's own name, and is spelled
      as it arrives, so reading it again gives it back. */
  lemma AHostIsASite(text: string, h: string)
    requires h in Parse(text)
    ensures Entry(h) == Some(h) && Canonical(h) == h
    ensures |Split(h, '.')| >= 2 && !PublicSuffix(h) && FitsDns(h) && !Housekeeping(h)
  {
    var raw := FromAName(text, h);
    EntryTwice(raw);
  }

  lemma FromAName(text: string, h: string) returns (raw: string)
    requires h in Parse(text)
    ensures Entry(raw) == Some(h)
  {
    var lines := Split(text, '\n');
    HostsInEach(lines, h);
    var i :| 0 <= i < |lines| && h in HostsOf(NamesOn(lines[i]));
    raw := FromALine(NamesOn(lines[i]), h);
  }

  lemma FromALine(names: seq<string>, h: string) returns (raw: string)
    requires h in HostsOf(names)
    ensures Entry(raw) == Some(h)
  {
    HostsOfEach(names, h);
    var k :| 0 <= k < |names| && Entry(names[k]) == Some(h);
    raw := names[k];
  }

  lemma EntryTwice(raw: string)
    requires Entry(raw).Some?
    ensures var h := Entry(raw).value;
            Entry(h) == Some(h) && Canonical(h) == h && |Split(h, '.')| >= 2 && !Housekeeping(h)
  {
    var bare := if "*." <= raw then raw[2..] else raw;
    var h := Entry(raw).value;
    NormalizeTwice(bare);
    LabelsOf(h);
    assert h[0] != '*';
    DotsSplit(h);
  }

  lemma {:induction false} DotsSplit(s: string)
    requires '.' in s
    ensures |Split(s, '.')| >= 2
  {
    if s[0] != '.' {
      DotsSplit(s[1..]);
    }
  }

  // ---- Exactly which words add which host ----

  /** A registry's name under a country's: two labels, the second of two
      characters, the first one of the eighteen registries sell under. */
  ghost predicate TooBroad(host: string) {
    exists second, country ::
      '.' !in second && '.' !in country && host == second + (['.'] + country) && |country| == 2
      && second in ["ac", "co", "com", "edu", "gen", "go", "gov", "govt", "id", "in", "ltd", "mil", "ne", "net",
                    "nom", "or", "org", "sch"]
  }

  lemma PublicSuffixIff(host: string)
    ensures PublicSuffix(host) <==> TooBroad(host)
  {
    var parts := Split(host, '.');
    SplitMeans(host, '.');
    RegistryLabelIff(parts[0]);
    if PublicSuffix(host) {
      assert Join(parts[1..], '.') == parts[1];
      assert host == parts[0] + (['.'] + parts[1]);
    }
    if TooBroad(host) {
      var second, country :|
        '.' !in second && '.' !in country && host == second + (['.'] + country) && |country| == 2
        && second in ["ac", "co", "com", "edu", "gen", "go", "gov", "govt", "id", "in", "ltd", "mil", "ne", "net",
                      "nom", "or", "org", "sch"];
      SplitJoins(second, country, '.');
      SplitPlain(second, '.');
      SplitPlain(country, '.');
    }
  }

  lemma RegistryLabelIff(part: string)
    ensures part in REGISTRY_LABELS <==>
            part in ["ac", "co", "com", "edu", "gen", "go", "gov", "govt", "id", "in", "ltd", "mil", "ne", "net",
                     "nom", "or", "org", "sch"]
  {
  }

  /** A word adds the name it is, or is a wildcard for, unless DNS has no room
      for it or it stands for a whole registry. */
  lemma EntryExactlyWhen(name: string)
    requires !("*." <= name)
    ensures Entry("*." + name) == Entry(name)
    ensures Entry(name) ==
            match Normalize(name)
            case None => None
            case Some(host) =>
              if |host| > 253 || (exists i :: 0 <= i < |Split(host, '.')| && |Split(host, '.')[i]| > 63) || TooBroad(host)
              then None else Some(host)
  {
    assert ("*." + name)[2..] == name;
    if Normalize(name).Some? {
      PublicSuffixIff(Normalize(name).value);
    }
  }

  /** A line that is blank or starts as a comment names nothing. */
  lemma RemarksNameNothing(line: string)
    requires Trim(line) == [] || Trim(line)[0] == '#' || Trim(line)[0] == '!'
    ensures NamesOn(line) == []
  {
  }

  predicate Trimmed(s: string) {
    s != [] && !IsSpace(s[0]) && !IsSpace(s[|s| - 1])
  }

  /** Behind an address stand as many names as there are words, */
  lemma NamesBehindAnAddress(address: string, names: string)
    requires Solid(address) && '#' !in address && address[0] != '!'
    requires Trimmed(names) && '#' !in names
    ensures NamesOn(address + ([' '] + names)) == Words(names)
  {
    KeptTrimmed(address, names, "x");
    NoComment(address + ([' '] + names));
    AfterTheAddress(address, names, ' ');
    NamesBare(address + ([' '] + names));
    NamesPast(address + ([' '] + names), |address|);
  }

  lemma NamesBare(line: string)
    requires Trim(line) == line && !Remark(line) && CommentAt(line) == |line|
    ensures NamesOn(line) == Words(PastAddress(line))
  {
  }

  lemma NamesPast(kept: string, space: nat)
    requires FirstSpace(kept) == space < |kept|
    ensures PastAddress(kept) == kept[space + 1..]
  {
  }

  /** up to a comment set off by a space. */
  lemma NamesUpToAComment(address: string, names: string, comment: string)
    requires Solid(address) && '#' !in address && address[0] != '!'
    requires Trimmed(names) && '#' !in names
    requires comment != [] && !IsSpace(comment[|comment| - 1])
    ensures NamesOn((address + ([' '] + names)) + ([' ', '#'] + comment)) == Words(names)
  {
    var kept := address + ([' '] + names);
    CommentAfter(kept, comment);
    AfterTheAddress(address, names, ' ');
    KeptTrimmed(address, names, comment);
    NamesBehind(kept + ([' ', '#'] + comment), kept);
    NamesPast(kept, |address|);
  }

  lemma KeptTrimmed(address: string, names: string, comment: string)
    requires Solid(address) && address[0] != '#' && address[0] != '!' && Trimmed(names)
    requires comment != [] && !IsSpace(comment[|comment| - 1])
    ensures var kept := address + ([' '] + names);
            var line := kept + ([' ', '#'] + comment);
            Trim(kept) == kept && !Remark(kept) && Trim(line) == line && !Remark(line)
  {
    var kept := address + ([' '] + names);
    NothingToTrim(kept);
    NothingToTrim(kept + ([' ', '#'] + comment));
  }

  lemma {:induction false} CommentAfter(kept: string, comment: string)
    requires '#' !in kept
    ensures var line := kept + ([' ', '#'] + comment);
            CommentAt(line) == |kept| < |line| && line[..|kept|] == kept
  {
    FirstPair(kept, comment);
  }

  lemma {:induction false} FirstPair(kept: string, comment: string)
    requires '#' !in kept
    ensures IndexOfPair(kept + ([' ', '#'] + comment), ' ', '#') == |kept|
  {
    var s := kept + ([' ', '#'] + comment);
    if kept == [] {
      assert s == [' ', '#'] + comment && s[0] == ' ' && s[1] == '#';
    } else {
      assert s[1..] == kept[1..] + ([' ', '#'] + comment);
      FirstPair(kept[1..], comment);
      assert s[1] == if |kept| > 1 then kept[1] else ' ';
    }
  }

  // ---- A list that is written is read back ----

  function Joined(lines: seq<string>): string {
    if lines == [] then [] else lines[0] + "\n" + Joined(lines[1..])
  }

  /** A host as a published list spells it. */
  datatype Spelling = Bare | Wildcard | HostsFile(address: string)

  function LineOf(h: string, s: Spelling): string {
    match s
    case Bare => h
    case Wildcard => "*." + h
    case HostsFile(address) => address + ([' '] + h)
  }

  lemma {:induction false} SplitJoined(lines: seq<string>)
    requires forall i :: 0 <= i < |lines| ==> '\n' !in lines[i]
    ensures Split(Joined(lines), '\n') == lines + [[]]
  {
    if lines != [] {
      assert forall i :: 0 <= i < |lines[1..]| ==> lines[1..][i] == lines[i + 1];
      SplitJoined(lines[1..]);
      assert lines[0] + "\n" + Joined(lines[1..]) == lines[0] + (['\n'] + Joined(lines[1..]));
      SplitPlain(lines[0], '\n');
      SplitJoins(lines[0], Joined(lines[1..]), '\n');
      assert lines == [lines[0]] + lines[1..];
    }
  }

  predicate Solid(s: string) {
    s != [] && forall i :: 0 <= i < |s| ==> !IsSpace(s[i])
  }

  lemma {:induction false} OneWord(s: string)
    requires Solid(s)
    ensures Words(s) == [s] && FirstSpace(s) == |s| && WordLength(s) == |s|
  {
    NoSpaceInside(s);
    assert s[..|s|] == s && s[|s|..] == [];
    assert Words([]) == [];
  }

  lemma {:induction false} NoSpaceInside(s: string)
    requires Solid(s)
    ensures FirstSpace(s) == |s| && WordLength(s) == |s|
  {
    if |s| > 1 {
      assert forall i :: 0 <= i < |s[1..]| ==> s[1..][i] == s[i + 1];
      NoSpaceInside(s[1..]);
    }
  }

  lemma NoComment(line: string)
    requires '#' !in line
    ensures CommentAt(line) == |line|
  {
  }

  lemma EntryIsSolid(h: string)
    requires Entry(h) == Some(h)
    ensures Solid(h) && '#' !in h && h[0] != '!'
  {
    var parts := Split(h, '.');
    NormalizeTwice(if "*." <= h then h[2..] else h);
    LabelsOf(h);
    forall i | 0 <= i < |parts| ensures NameChars(parts[i]) {
      assert PlausibleLabel(parts[i]);
    }
    LabelChars(h);
  }

  lemma WildcardMeansTheHost(h: string)
    requires Entry(h) == Some(h)
    ensures Entry("*." + h) == Some(h)
  {
    assert ("*." + h)[2..] == h;
    EntryIsSolid(h);
    NormalizeTwice(if "*." <= h then h[2..] else h);
  }

  predicate Writable(s: Spelling) {
    s.HostsFile? ==> Solid(s.address) && '#' !in s.address && s.address[0] != '!'
  }

  lemma LineNamesItsHost(h: string, s: Spelling)
    requires Entry(h) == Some(h) && Writable(s)
    ensures HostsOf(NamesOn(LineOf(h, s))) == {h}
  {
    EntryIsSolid(h);
    match s
    case Bare =>
      OneNameOnALine(h);
      OneHost(h, h);
    case Wildcard =>
      WildcardLine(h);
    case HostsFile(address) =>
      NameAfterAnAddress(address, h);
      OneHost(h, h);
  }

  lemma OneLine(h: string, s: Spelling)
    requires Solid(h) && Writable(s)
    ensures '\n' !in LineOf(h, s)
  {
    assert IsSpace('\n');
  }

  lemma WildcardLine(h: string)
    requires Entry(h) == Some(h) && Solid(h) && '#' !in h
    ensures HostsOf(NamesOn("*." + h)) == {h}
  {
    WildcardMeansTheHost(h);
    OneNameOnALine("*." + h);
    OneHost("*." + h, h);
  }

  lemma OneHost(name: string, h: string)
    requires Entry(name) == Some(h)
    ensures HostsOf([name]) == {h}
  {
    assert [name][1..] == [];
    assert HostsOf([]) == {};
  }

  lemma OneNameOnALine(name: string)
    requires Solid(name) && '#' !in name && name[0] != '!'
    ensures NamesOn(name) == [name]
  {
    NothingToTrim(name);
    NoComment(name);
    OneWord(name);
  }

  lemma NameAfterAnAddress(address: string, h: string)
    requires Solid(address) && '#' !in address && address[0] != '!'
    requires Solid(h) && '#' !in h
    ensures NamesOn(address + ([' '] + h)) == [h]
  {
    var line := address + ([' '] + h);
    NothingToTrim(line);
    NoComment(line);
    AfterTheAddress(address, h, ' ');
    OneWord(h);
  }

  lemma {:induction false} AfterTheAddress(address: string, h: string, space: char)
    requires IsSpace(space) && (Solid(address) || address == [])
    ensures var line := address + ([space] + h); FirstSpace(line) == |address| && line[|address| + 1..] == h
  {
    var line := address + ([space] + h);
    if address != [] {
      assert line[1..] == address[1..] + ([space] + h);
      AfterTheAddress(address[1..], h, space);
    }
  }

  /** Hosts written one to a line, each in any of the spellings and in any
      order, are exactly what reading the list gives; one host too many and it
      gives none. */
  lemma WrittenIsRead(hosts: seq<string>, spelt: seq<Spelling>)
    requires |spelt| == |hosts|
    requires forall i :: 0 <= i < |hosts| ==> Entry(hosts[i]) == Some(hosts[i]) && Writable(spelt[i])
    ensures var all := set i | 0 <= i < |hosts| :: hosts[i];
            Parse(Joined(Lines(hosts, spelt))) == if |all| > 10000 then {} else all
  {
    var lines := Lines(hosts, spelt);
    forall i | 0 <= i < |lines| ensures '\n' !in lines[i] && HostsOf(NamesOn(lines[i])) == {hosts[i]} {
      EntryIsSolid(hosts[i]);
      OneLine(hosts[i], spelt[i]);
      LineNamesItsHost(hosts[i], spelt[i]);
    }
    SplitJoined(lines);
    OneHostALine(lines, hosts);
  }

  lemma {:induction false} OneHostALine(lines: seq<string>, hosts: seq<string>)
    requires |lines| == |hosts|
    requires forall i :: 0 <= i < |lines| ==> HostsOf(NamesOn(lines[i])) == {hosts[i]}
    ensures HostsIn(lines + [[]]) == set i | 0 <= i < |hosts| :: hosts[i]
  {
    if lines == [] {
      NothingOnALine();
      var empty: seq<string> := [[]];
      assert lines + [[]] == empty && empty[1..] == [];
      assert HostsIn([]) == {};
    } else {
      assert (lines + [[]])[1..] == lines[1..] + [[]];
      assert forall i :: 0 <= i < |hosts[1..]| ==> lines[1..][i] == lines[i + 1] && hosts[1..][i] == hosts[i + 1];
      OneHostALine(lines[1..], hosts[1..]);
      EachOrFirst(hosts);
    }
  }

  lemma EachOrFirst(hosts: seq<string>)
    requires hosts != []
    ensures (set i | 0 <= i < |hosts| :: hosts[i]) == {hosts[0]} + set i | 0 <= i < |hosts[1..]| :: hosts[1..][i]
  {
    var all, rest := set i | 0 <= i < |hosts| :: hosts[i], set i | 0 <= i < |hosts[1..]| :: hosts[1..][i];
    forall h | h in all ensures h in {hosts[0]} + rest {
      var i :| 0 <= i < |hosts| && hosts[i] == h;
      assert i > 0 ==> hosts[1..][i - 1] == h;
    }
    forall h | h in rest ensures h in all {
      var i :| 0 <= i < |hosts[1..]| && hosts[1..][i] == h;
      assert hosts[i + 1] == h;
    }
  }

  lemma NothingOnALine()
    ensures HostsOf(NamesOn([])) == {}
  {
    assert NamesOn([]) == [];
  }

  function Lines(hosts: seq<string>, spelt: seq<Spelling>): seq<string>
    requires |spelt| == |hosts|
  {
    seq(|hosts|, i requires 0 <= i < |hosts| => LineOf(hosts[i], spelt[i]))
  }

  /** Where a comment does start: the first `#` after a space or a tab. */
  predicate CommentStarts(line: string, i: nat) {
    && i + 1 < |line| && (line[i] == ' ' || line[i] == '\t') && line[i + 1] == '#'
    && forall k :: 0 <= k < i ==> !((line[k] == ' ' || line[k] == '\t') && line[k + 1] == '#')
  }

  /** The cut is where the comment starts, unless a tab starts it and a later
      space stands before another `#`. */
  lemma CutAtTheCommentIff(line: string, i: nat)
    requires CommentStarts(line, i)
    ensures CommentAt(line) == i <==> line[i] == ' ' || IndexOfPair(line, ' ', '#') == |line|
  {
  }

  lemma {:induction false} PairAfter(head: string, x: char, y: char, tail: string)
    requires x !in head
    ensures IndexOfPair(head + ([x, y] + tail), x, y) == |head|
  {
    var s := head + ([x, y] + tail);
    if head == [] {
      assert s == [x, y] + tail && s[0] == x && s[1] == y;
    } else {
      assert head == [head[0]] + head[1..];
      assert s[1..] == head[1..] + ([x, y] + tail);
      PairAfter(head[1..], x, y, tail);
    }
  }

  /** `host`, a tab, and a comment of two words with `#` before each. */
  function Remarked(host: string, a: string, b: string): string {
    (host + (['\t'] + (['#'] + a))) + ([' ', '#'] + b)
  }

  /** Then the comment is read as names and the host before it as an address:
      a line that means its host names nothing. */
  lemma ATabbedRemarkLosesTheHost(host: string, a: string, b: string)
    requires Entry(host) == Some(host) && Solid(a) && Solid(b)
    ensures CommentStarts(Remarked(host, a, b), |host|)
    ensures HostsOf(NamesOn(host)) == {host} && HostsOf(NamesOn(Remarked(host, a, b))) == {}
  {
    EntryIsSolid(host);
    LineNamesItsHost(host, Bare);
    RemarkStarts(host, a, b);
    RemarkAddsNone(host, a, b);
  }

  lemma RemarkAddsNone(host: string, a: string, b: string)
    requires Solid(host) && '#' !in host && host[0] != '!' && Solid(a) && Solid(b)
    ensures HostsOf(NamesOn(Remarked(host, a, b))) == {}
  {
    RemarkIsAName(host, a, b);
    NoHostInTheRemark(['#'] + a);
  }

  lemma RemarkIsAName(host: string, a: string, b: string)
    requires Solid(host) && '#' !in host && host[0] != '!' && Solid(a) && Solid(b)
    ensures CommentStarts(Remarked(host, a, b), |host|)
    ensures NamesOn(Remarked(host, a, b)) == [['#'] + a]
  {
    var remark := ['#'] + a;
    var kept, line := host + (['\t'] + remark), Remarked(host, a, b);
    RemarkStarts(host, a, b);
    RemarkIsCut(host, a, b);
    NothingToTrim(line);
    NothingToTrim(kept);
    AfterTheAddress(host, remark, '\t');
    OneWord(remark);
    NamesBehind(line, kept);
    NamesPast(kept, |host|);
  }

  lemma RemarkStarts(host: string, a: string, b: string)
    requires Solid(host) && Solid(a)
    ensures CommentStarts(Remarked(host, a, b), |host|)
  {
    var line := Remarked(host, a, b);
    assert line[|host|] == '\t' && line[|host| + 1] == '#';
    assert forall k :: 0 <= k < |host| ==> line[k] == host[k];
  }

  lemma RemarkIsCut(host: string, a: string, b: string)
    requires Solid(host) && Solid(a)
    ensures var kept := host + (['\t'] + (['#'] + a));
            var line := Remarked(host, a, b);
            CommentAt(line) == |kept| < |line| && line[..|kept|] == kept
  {
    PairAfter(host + (['\t'] + (['#'] + a)), ' ', '#', b);
  }

  lemma NamesBehind(line: string, kept: string)
    requires Trim(line) == line && !Remark(line) && Trim(kept) == kept
    requires CommentAt(line) == |kept| < |line| && line[..|kept|] == kept
    ensures NamesOn(line) == Words(PastAddress(kept))
  {
  }

  lemma NoHostInTheRemark(name: string)
    requires Solid(name) && name[0] == '#'
    ensures HostsOf([name]) == {}
  {
    NothingToTrim(name);
    if Normalize(name).Some? {
      LabelsOf(Normalize(name).value);
      FirstIsKept(name);
    }
    assert [name][1..] == [];
    assert HostsOf([]) == {};
  }

  lemma {:induction false} FirstIsKept(name: string)
    requires name != [] && name[0] != '.'
    ensures TrimEndOf(name, '.') != [] && TrimEndOf(name, '.')[0] == name[0]
  {
    if name[|name| - 1] == '.' {
      FirstIsKept(name[..|name| - 1]);
    }
  }

  // ---- Refreshing ----

  /** What a fetch comes to: a body, kept on disk or not, or nothing new. */
  datatype Outcome = Body(text: string, stored: bool) | NothingNew

  /** What each URL contributes, and the last copy of each on disk. */
  datatype State = State(held: seq<set<string>>, disk: map<string, string>)

  function TextFor(url: string, disk: map<string, string>, o: Outcome): Option<string> {
    match o
    case Body(text, _) => Some(text)
    case NothingNew => if url in disk then Some(disk[url]) else None
  }

  function DiskAfter(url: string, disk: map<string, string>, o: Outcome): map<string, string> {
    if o.Body? && o.stored then disk[url := o.text] else disk
  }

  /** A text we can use: one that names a host or more. */
  function Usable(text: Option<string>): Option<set<string>> {
    if text.Some? && Parse(text.value) != {} then Some(Parse(text.value)) else None
  }

  function Updated(held: set<string>, text: Option<string>): set<string> {
    Usable(text).UnwrapOr(held)
  }

  function Copy(url: string, disk: map<string, string>): set<string> {
    if url in disk then Parse(disk[url]) else {}
  }

  function Startup(urls: seq<string>, disk: map<string, string>): State {
    State(seq(|urls|, i requires 0 <= i < |urls| => Copy(urls[i], disk)), disk)
  }

  /** The disk once the first `k` URLs of one refresh have been fetched. */
  function DiskTo(urls: seq<string>, disk: map<string, string>, round: seq<Outcome>, k: nat): map<string, string>
    requires |round| == |urls| && k <= |urls|
  {
    if k == 0 then disk else DiskAfter(urls[k - 1], DiskTo(urls, disk, round, k - 1), round[k - 1])
  }

  function TextOf(urls: seq<string>, disk: map<string, string>, round: seq<Outcome>, i: nat): Option<string>
    requires |round| == |urls| && i < |urls|
  {
    TextFor(urls[i], DiskTo(urls, disk, round, i), round[i])
  }

  /** One refresh of every list. */
  function Pass(urls: seq<string>, s: State, round: seq<Outcome>): (r: State)
    requires |s.held| == |round| == |urls|
    ensures |r.held| == |urls|
  {
    State(seq(|urls|, i requires 0 <= i < |urls| => Updated(s.held[i], TextOf(urls, s.disk, round, i))),
          DiskTo(urls, s.disk, round, |urls|))
  }

  predicate Rounds(urls: seq<string>, rounds: seq<seq<Outcome>>) {
    forall n :: 0 <= n < |rounds| ==> |rounds[n]| == |urls|
  }

  function After(urls: seq<string>, s: State, rounds: seq<seq<Outcome>>, n: nat): (r: State)
    requires |s.held| == |urls| && Rounds(urls, rounds) && n <= |rounds|
    ensures |r.held| == |urls|
  {
    if n == 0 then s else Pass(urls, After(urls, s, rounds, n - 1), rounds[n - 1])
  }

  function Union(sets: seq<set<string>>): set<string> {
    if sets == [] then {} else sets[0] + Union(sets[1..])
  }

  function Configured(lines: seq<string>): set<string> {
    if lines == [] then {}
    else
      var host := ToLower(TrimEndOf(Trim(lines[0]), '.'));
      (if host == [] || exists i :: 0 <= i < |host| && host[i] as int >= 128 then {} else {host}) + Configured(lines[1..])
  }

  /** What is written down is a name in lower case, without space or root dots
      around it; one that is empty or not ASCII is not. */
  lemma {:induction false} ConfiguredMeans(lines: seq<string>, h: string)
    ensures h in Configured(lines) <==>
            && h != [] && (forall k :: 0 <= k < |h| ==> h[k] as int < 128)
            && exists i :: 0 <= i < |lines| && h == ToLower(TrimEndOf(Trim(lines[i]), '.'))
  {
    if lines != [] {
      ConfiguredMeans(lines[1..], h);
      assert forall i :: 0 < i < |lines| ==> lines[i] == lines[1..][i - 1];
      if i :| 0 <= i < |lines[1..]| && h == ToLower(TrimEndOf(Trim(lines[1..][i]), '.')) {
        assert h == ToLower(TrimEndOf(Trim(lines[i + 1]), '.'));
      }
    }
  }

  class Passthrough {
    const hosts: set<string>
    var fetched: set<string>

    constructor (configured: seq<string>, fetched: set<string>)
      ensures hosts == Configured(configured) && this.fetched == fetched
    {
      hosts, this.fetched := Configured(configured), fetched;
    }

    predicate CoversHost(host: string)
      reads this
    {
      Covers(hosts, host) || Covers(fetched, host)
    }
  }

  class Refresher {
    const list: Passthrough
    const urls: seq<string>
    var held: seq<set<string>>
    var disk: map<string, string>

    ghost predicate Valid()
      reads this, list
    {
      |held| == |urls| && list.fetched == Union(held)
    }

    constructor (configured: seq<string>, urls: seq<string>, disk: map<string, string>)
      ensures Valid() && fresh(list)
      ensures this.urls == urls && list.hosts == Configured(configured)
      ensures State(held, this.disk) == Startup(urls, disk)
    {
      var copies := seq(|urls|, i requires 0 <= i < |urls| => Copy(urls[i], disk));
      list := new Passthrough(configured, Union(copies));
      this.urls, held, this.disk := urls, copies, disk;
    }

    method Update(i: nat, text: Option<string>)
      requires i < |held|
      modifies this`held
      ensures held == old(held)[i := Updated(old(held)[i], text)]
    {
      if text.None? {
        return;
      }
      var hosts := ParseList(text.value);
      if hosts != {} {
        held := held[i := hosts];
      }
    }

    method Refresh(round: seq<Outcome>)
      requires Valid() && |round| == |urls|
      modifies this, list
      ensures Valid()
      ensures State(held, disk) == Pass(urls, old(State(held, disk)), round)
      ensures forall host :: list.CoversHost(host) <==>
                Covers(list.hosts, host) || exists i :: 0 <= i < |urls| && Covers(held[i], host)
    {
      for i := 0 to |urls|
        invariant |held| == |urls|
        invariant disk == DiskTo(urls, old(disk), round, i)
        invariant forall j :: 0 <= j < i ==> held[j] == Updated(old(held)[j], TextOf(urls, old(disk), round, j))
        invariant forall j :: i <= j < |urls| ==> held[j] == old(held)[j]
      {
        var text := TextFor(urls[i], disk, round[i]);
        disk := DiskAfter(urls[i], disk, round[i]);
        Update(i, text);
      }
      list.fetched := Union(held);
      forall host ensures Covers(list.fetched, host) <==> exists i :: 0 <= i < |urls| && Covers(held[i], host) {
        CoveredByOne(held, host);
      }
    }
  }

  // ---- What a run keeps ----

  // One URL at a time, with what can be used of each text in place of the text.

  datatype Gift = Fetched(hosts: Option<set<string>>, stored: bool) | Nothing

  function GiftOf(outcome: Outcome): Gift {
    match outcome
    case Body(text, stored) => Fetched(Usable(Some(text)), stored)
    case NothingNew => Nothing
  }

  /** A URL's contribution, and what can be used of its copy on disk. */
  datatype Own = Own(held: set<string>, copy: Option<set<string>>)

  function OwnNext(o: Own, gift: Gift): Own {
    match gift
    case Fetched(hosts, stored) => Own(hosts.UnwrapOr(o.held), if stored then hosts else o.copy)
    case Nothing => Own(o.copy.UnwrapOr(o.held), o.copy)
  }

  function OwnAfter(o: Own, gifts: seq<Gift>): Own {
    if gifts == [] then o else OwnNext(OwnAfter(o, gifts[..|gifts| - 1]), gifts[|gifts| - 1])
  }

  function CopyText(url: string, disk: map<string, string>): Option<string> {
    if url in disk then Some(disk[url]) else None
  }

  function OwnOf(urls: seq<string>, s: State, i: nat): Own
    requires |s.held| == |urls| && i < |urls|
  {
    Own(s.held[i], Usable(CopyText(urls[i], s.disk)))
  }

  /** What the rounds gave for URL `i`. */
  function GiftsOf(rounds: seq<seq<Outcome>>, n: nat, i: nat): seq<Gift>
    requires n <= |rounds| && forall k :: 0 <= k < |rounds| ==> i < |rounds[k]|
  {
    seq(n, k requires 0 <= k < n => GiftOf(rounds[k][i]))
  }

  predicate OwnFile(urls: seq<string>, i: nat)
    requires i < |urls|
  {
    forall j :: 0 <= j < |urls| && j != i ==> urls[j] != urls[i]
  }

  lemma OwnPass(urls: seq<string>, s: State, round: seq<Outcome>, i: nat)
    requires |s.held| == |round| == |urls| && i < |urls| && OwnFile(urls, i)
    ensures OwnOf(urls, Pass(urls, s, round), i) == OwnNext(OwnOf(urls, s, i), GiftOf(round[i]))
  {
    OthersLeaveTheCopy(urls, s.disk, round, |urls|, i);
    OthersLeaveTheCopy(urls, s.disk, round, i, i);
    var text := TextOf(urls, s.disk, round, i);
    assert Pass(urls, s, round).held[i] == Updated(s.held[i], text);
    assert round[i].NothingNew? ==> text == CopyText(urls[i], s.disk);
  }

  /** Lists do not touch each other: over any run, a URL with a file of its own
      fares as if it were alone. */
  lemma {:induction false} EachOnItsOwn(urls: seq<string>, s: State, rounds: seq<seq<Outcome>>, n: nat, i: nat)
    requires |s.held| == |urls| && Rounds(urls, rounds) && n <= |rounds| && i < |urls| && OwnFile(urls, i)
    ensures OwnOf(urls, After(urls, s, rounds, n), i) == OwnAfter(OwnOf(urls, s, i), GiftsOf(rounds, n, i))
  {
    if n > 0 {
      EachOnItsOwn(urls, s, rounds, n - 1, i);
      OwnPass(urls, After(urls, s, rounds, n - 1), rounds[n - 1], i);
      var gifts := GiftsOf(rounds, n, i);
      assert gifts[..n - 1] == GiftsOf(rounds, n - 1, i);
    }
  }

  /** The hosts of a fetched body, if it can be used. */
  function FetchedHosts(gift: Gift): Option<set<string>> {
    if gift.Fetched? then gift.hosts else None
  }

  /** What is promised: the last usable body fetched, failing which what was
      there at startup. */
  function Promised(first: set<string>, gifts: seq<Gift>): set<string> {
    if gifts == [] then first
    else FetchedHosts(gifts[|gifts| - 1]).UnwrapOr(Promised(first, gifts[..|gifts| - 1]))
  }

  lemma {:induction false} PromisedIsTheLastFetched(first: set<string>, gifts: seq<Gift>)
    ensures var hosts := Promised(first, gifts);
            || (hosts == first && forall m :: 0 <= m < |gifts| ==> FetchedHosts(gifts[m]) == None)
            || (exists m :: 0 <= m < |gifts| && FetchedHosts(gifts[m]) == Some(hosts)
                            && forall j :: m < j < |gifts| ==> FetchedHosts(gifts[j]) == None)
  {
    if gifts != [] {
      var last := |gifts| - 1;
      PromisedIsTheLastFetched(first, gifts[..last]);
      assert forall j :: 0 <= j < last ==> gifts[..last][j] == gifts[j];
    }
  }

  /** A round in which nothing new came, the copy on disk could be used, it was
      not what was promised, and no usable body has come since. */
  predicate FellBackAt(o: Own, gifts: seq<Gift>, j: nat) {
    && j < |gifts| && gifts[j].Nothing?
    && OwnAfter(o, gifts[..j]).copy.Some?
    && OwnAfter(o, gifts[..j]).copy != Some(Promised(o.held, gifts[..j]))
    && forall k :: j < k < |gifts| ==> FetchedHosts(gifts[k]) == None
  }

  ghost predicate FellBack(o: Own, gifts: seq<Gift>) {
    exists j :: FellBackAt(o, gifts, j)
  }

  /** While no usable body comes, the promise stands, and the copy is the old
      one or one that cannot be used. */
  lemma {:induction false} NothingUsableSince(o: Own, gifts: seq<Gift>, j: nat)
    requires j <= |gifts|
    requires forall k :: j <= k < |gifts| ==> FetchedHosts(gifts[k]) == None
    ensures Promised(o.held, gifts) == Promised(o.held, gifts[..j])
    ensures var copy := OwnAfter(o, gifts).copy;
            copy == OwnAfter(o, gifts[..j]).copy || copy == None
    decreases |gifts|
  {
    var last := |gifts| - 1;
    if j < |gifts| {
      assert forall k :: j <= k < last ==> gifts[..last][k] == gifts[k];
      NothingUsableSince(o, gifts[..last], j);
      assert gifts[..last][..j] == gifts[..j];
      assert FetchedHosts(gifts[last]) == None;
    } else {
      assert gifts[..j] == gifts;
    }
  }

  lemma FellBackBefore(o: Own, gifts: seq<Gift>)
    requires gifts != [] && FetchedHosts(gifts[|gifts| - 1]) == None
    ensures FellBack(o, gifts) <==>
            FellBack(o, gifts[..|gifts| - 1]) || FellBackAt(o, gifts, |gifts| - 1)
  {
    var last := |gifts| - 1;
    var before := gifts[..last];
    forall j: nat | j < last ensures FellBackAt(o, gifts, j) <==> FellBackAt(o, before, j) {
      assert before[..j] == gifts[..j] && before[j] == gifts[j];
      assert forall k :: j < k < last ==> before[k] == gifts[k];
    }
    if FellBack(o, before) {
      var j :| FellBackAt(o, before, j);
      assert FellBackAt(o, gifts, j);
    }
  }

  /** The promise and when it is kept, over any run of fetches: a URL
      contributes the last usable body fetched unless, since that body, a fetch
      brought nothing new while an older copy that could be used was on disk. */
  lemma {:induction false} LastFetchedCountsIff(o: Own, gifts: seq<Gift>)
    ensures OwnAfter(o, gifts).held == Promised(o.held, gifts) <==> !FellBack(o, gifts)
    decreases |gifts|
  {
    if gifts == [] {
      assert !FellBack(o, gifts);
    } else {
      var last := |gifts| - 1;
      var before := gifts[..last];
      LastFetchedCountsIff(o, before);
      if FetchedHosts(gifts[last]).Some? {
        assert forall j :: FellBackAt(o, gifts, j) ==> j != last;
        assert !FellBack(o, gifts);
      } else {
        FellBackBefore(o, gifts);
        var copy := OwnAfter(o, before).copy;
        if gifts[last].Nothing? && copy.Some? && copy.value == Promised(o.held, before) {
          NeverFellBack(o, before);
        }
      }
    }
  }

  lemma NeverFellBack(o: Own, gifts: seq<Gift>)
    requires OwnAfter(o, gifts).copy == Some(Promised(o.held, gifts))
    ensures !FellBack(o, gifts)
  {
    if j :| FellBackAt(o, gifts, j) {
      CopyStaysFrom(o, gifts, j);
      assert false;
    }
  }

  lemma CopyStaysFrom(o: Own, gifts: seq<Gift>, j: nat)
    requires FellBackAt(o, gifts, j)
    ensures OwnAfter(o, gifts).copy != Some(Promised(o.held, gifts))
  {
    assert FetchedHosts(gifts[j]) == None;
    NothingUsableSince(o, gifts, j);
  }

  /** With every usable body put on disk the promise is kept. */
  lemma {:induction false} StoringKeepsThePromise(o: Own, gifts: seq<Gift>)
    requires o.copy == None || o.copy == Some(o.held)
    requires forall k :: 0 <= k < |gifts| && FetchedHosts(gifts[k]).Some? ==> gifts[k].stored
    ensures var after := OwnAfter(o, gifts);
            && after.held == Promised(o.held, gifts)
            && (after.copy == None || after.copy == Some(after.held))
    decreases |gifts|
  {
    if gifts != [] {
      var last := |gifts| - 1;
      assert forall k :: 0 <= k < last ==> gifts[..last][k] == gifts[k];
      StoringKeepsThePromise(o, gifts[..last]);
    }
  }

  /** The same of the whole table of lists. */
  lemma LastUsableTextCounts(urls: seq<string>, s: State, rounds: seq<seq<Outcome>>, n: nat, i: nat)
    requires |s.held| == |urls| && Rounds(urls, rounds) && n <= |rounds| && i < |urls| && OwnFile(urls, i)
    ensures After(urls, s, rounds, n).held[i] == Promised(s.held[i], GiftsOf(rounds, n, i)) <==>
            !FellBack(OwnOf(urls, s, i), GiftsOf(rounds, n, i))
  {
    EachOnItsOwn(urls, s, rounds, n, i);
    LastFetchedCountsIff(OwnOf(urls, s, i), GiftsOf(rounds, n, i));
  }

  /** A fetch that brings nothing new leaves a contribution standing exactly
      when the copy on disk names nothing or the same. */
  lemma AFailedFetchKeepsIff(urls: seq<string>, s: State, round: seq<Outcome>, i: nat)
    requires |s.held| == |round| == |urls| && i < |urls| && OwnFile(urls, i)
    requires round[i] == NothingNew
    ensures Pass(urls, s, round).held[i] == s.held[i] <==>
            Copy(urls[i], s.disk) == {} || Copy(urls[i], s.disk) == s.held[i]
  {
    OwnPass(urls, s, round, i);
  }

  /** So a fetch that fails can take a host off: fetched but not stored, then
      gone with the next fetch, for the older copy on disk is read instead. */
  lemma AFailedFetchDropsAHost(url: string, older: string, newer: string, host: string)
    requires Parse(older) != {} && Covers(Parse(newer), host) && !Covers(Parse(older), host)
    ensures var s := Startup([url], map[url := older]);
            var rounds := [[Body(newer, false)], [NothingNew]];
            && Covers(After([url], s, rounds, 1).held[0], host)
            && !Covers(After([url], s, rounds, 2).held[0], host)
  {
    var urls, s := [url], Startup([url], map[url := older]);
    var rounds := [[Body(newer, false)], [NothingNew]];
    var one := After(urls, s, rounds, 1);
    assert After(urls, s, rounds, 0) == s;
    OwnPass(urls, s, rounds[0], 0);
    OwnPass(urls, one, rounds[1], 0);
  }

  /** A host one URL's list covers is dropped only by a usable list which does
      not cover it: the body just fetched or, when nothing new came, the copy
      on disk. */
  lemma OnlyAUsableListDrops(urls: seq<string>, s: State, round: seq<Outcome>, i: nat, host: string)
    requires |s.held| == |round| == |urls| && i < |urls| && OwnFile(urls, i)
    requires Covers(s.held[i], host)
    ensures Covers(Pass(urls, s, round).held[i], host) <==>
            match round[i]
            case Body(text, _) => Parse(text) == {} || Covers(Parse(text), host)
            case NothingNew => Copy(urls[i], s.disk) == {} || Covers(Copy(urls[i], s.disk), host)
  {
    OwnPass(urls, s, round, i);
  }

  lemma {:induction false} UnionEach(sets: seq<set<string>>, h: string)
    ensures h in Union(sets) <==> exists i :: 0 <= i < |sets| && h in sets[i]
  {
    if sets != [] {
      UnionEach(sets[1..], h);
      assert forall i :: 0 < i < |sets| ==> sets[i] == sets[1..][i - 1];
      if h in Union(sets[1..]) {
        var i :| 0 <= i < |sets[1..]| && h in sets[1..][i];
        assert h in sets[i + 1];
      }
    }
  }

  /** The fetched set covers a host exactly when one URL's contribution does,
      so no list can take another's hosts off. */
  lemma CoveredByOne(sets: seq<set<string>>, host: string)
    ensures Covers(Union(sets), host) <==> exists i :: 0 <= i < |sets| && Covers(sets[i], host)
  {
    CoversIffAtOrBelow(Union(sets), host);
    if Covers(Union(sets), host) {
      var d :| d in Union(sets) && AtOrBelow(Canonical(host), d);
      UnionEach(sets, d);
      var i :| 0 <= i < |sets| && d in sets[i];
      CoversIffAtOrBelow(sets[i], host);
    }
    if i :| 0 <= i < |sets| && Covers(sets[i], host) {
      CoversIffAtOrBelow(sets[i], host);
      var d :| d in sets[i] && AtOrBelow(Canonical(host), d);
      UnionEach(sets, d);
    }
  }

  // ---- Across a restart ----

  lemma {:induction false} OthersLeaveTheCopy(urls: seq<string>, disk: map<string, string>, round: seq<Outcome>,
                                              k: nat, i: nat)
    requires |round| == |urls| && k <= |urls| && i < |urls| && OwnFile(urls, i)
    ensures var d := DiskTo(urls, disk, round, k);
            if i < k && round[i].Body? && round[i].stored then urls[i] in d && d[urls[i]] == round[i].text
            else (urls[i] in d <==> urls[i] in disk) && (urls[i] in d ==> d[urls[i]] == disk[urls[i]])
  {
    if k > 0 {
      OthersLeaveTheCopy(urls, disk, round, k - 1, i);
    }
  }

  /** Keeping a contribution does not outlast the process. After a refresh from
      any state, a restart comes back with this URL's hosts exactly when what is
      then on disk names them: never when a body we cannot use has replaced
      hosts, and after a body that was not stored only if the old copy says the
      same. */
  lemma RestartKeepsIff(urls: seq<string>, s: State, round: seq<Outcome>, i: nat)
    requires |s.held| == |round| == |urls| && i < |urls| && OwnFile(urls, i)
    ensures var after := Pass(urls, s, round);
            Startup(urls, after.disk).held[i] == after.held[i] <==>
            match round[i]
            case NothingNew => Copy(urls[i], s.disk) != {} || s.held[i] == {}
            case Body(text, stored) =>
              if stored then Parse(text) != {} || s.held[i] == {}
              else Copy(urls[i], s.disk) == if Parse(text) != {} then Parse(text) else s.held[i]
  {
    OwnPass(urls, s, round, i);
    var after := Pass(urls, s, round);
    assert Startup(urls, after.disk).held[i] == Copy(urls[i], after.disk);
  }
}
