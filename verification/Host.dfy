/** What a host name is, and when one name covers another. */
module Host {
  import opened Wrappers
  import opened Text

  const HOUSEKEEPING: set<string> := {"localhost", "localhost.localdomain", "local", "broadcasthost"}

  /** A name and every name above it, longest first: what is left after each
      first dot. */
  function Parents(name: string): seq<string>
    decreases |name|
  {
    var dot := IndexOf(name, '.');
    if dot == |name| then [name] else [name] + Parents(name[dot + 1..])
  }

  function Canonical(host: string): string {
    ToLower(TrimEndOf(host, '.'))
  }

  predicate Covers(hosts: set<string>, host: string) {
    hosts != {} && exists i :: 0 <= i < |Parents(Canonical(host))| && Parents(Canonical(host))[i] in hosts
  }

  /** The same name, or one below it at a label boundary. */
  predicate AtOrBelow(name: string, parent: string) {
    name == parent || EndsWith(name, "." + parent)
  }

  /** The walk over parents is the label-boundary test, for any strings. */
  lemma {:induction false} ParentsAreTheNamesAbove(name: string, parent: string)
    ensures parent in Parents(name) <==> AtOrBelow(name, parent)
    decreases |name|
  {
    var dot := IndexOf(name, '.');
    if dot == |name| {
      DotBeforeTheTail(name, parent);
    } else {
      var rest := name[dot + 1..];
      ParentsAreTheNamesAbove(rest, parent);
      assert parent in Parents(name) <==> parent == name || parent in Parents(rest);
      BelowTheFirstDot(name, dot, parent);
    }
  }

  lemma DotBeforeTheTail(name: string, parent: string)
    ensures EndsWith(name, "." + parent) <==>
            |parent| < |name| && name[|name| - |parent| - 1] == '.' && name[|name| - |parent|..] == parent
  {
    if |parent| < |name| {
      var at := |name| - |parent| - 1;
      assert name[at..] == [name[at]] + name[at + 1..];
      assert ("." + parent)[0] == '.' && ("." + parent)[1..] == parent;
    }
  }

  lemma BelowTheFirstDot(name: string, dot: nat, parent: string)
    requires dot < |name| && dot == IndexOf(name, '.')
    ensures EndsWith(name, "." + parent) <==> AtOrBelow(name[dot + 1..], parent)
  {
    var rest := name[dot + 1..];
    DotBeforeTheTail(name, parent);
    DotBeforeTheTail(rest, parent);
    if |parent| == |rest| {
      assert name[|name| - |parent|..] == rest;
    } else if |parent| < |rest| {
      assert name[|name| - |parent|..] == rest[|rest| - |parent|..];
      assert name[|name| - |parent| - 1] == rest[|rest| - |parent| - 1];
    }
  }

  /** A list covers a host exactly when the host is on it, or is below a name
      that is, whatever the case it is written in and however many root dots
      it ends with. */
  lemma CoversIffAtOrBelow(hosts: set<string>, host: string)
    ensures Covers(hosts, host) <==> exists d :: d in hosts && AtOrBelow(Canonical(host), d)
  {
    var names := Parents(Canonical(host));
    if d :| d in hosts && AtOrBelow(Canonical(host), d) {
      ParentsAreTheNamesAbove(Canonical(host), d);
      var i :| 0 <= i < |names| && names[i] == d;
    }
    if Covers(hosts, host) {
      var i :| 0 <= i < |names| && names[i] in hosts;
      ParentsAreTheNamesAbove(Canonical(host), names[i]);
    }
  }

  predicate Housekeeping(name: string) {
    name in HOUSEKEEPING || "ip6-" <= name
  }

  predicate NameChar(c: char) {
    'a' <= c <= 'z' || 'A' <= c <= 'Z' || '0' <= c <= '9' || c == '-' || c == '_'
  }

  predicate PlausibleLabel(part: string) {
    part != [] && forall i :: 0 <= i < |part| ==> NameChar(part[i])
  }

  function Normalize(raw: string): Option<string> {
    var name := ToLower(TrimEndOf(Trim(raw), '.'));
    if '.' !in name || Housekeeping(name) then None
    else if forall i :: 0 <= i < |Split(name, '.')| ==> PlausibleLabel(Split(name, '.')[i]) then Some(name)
    else None
  }

  predicate NameChars(part: string) {
    forall i :: 0 <= i < |part| ==> NameChar(part[i])
  }

  lemma LabelsOf(name: string)
    requires forall i :: 0 <= i < |Split(name, '.')| ==> PlausibleLabel(Split(name, '.')[i])
    ensures name != [] && NameChar(name[0]) && NameChar(name[|name| - 1])
  {
    var parts := Split(name, '.');
    assert PlausibleLabel(parts[0]) && PlausibleLabel(parts[|parts| - 1]);
    assert parts[0] != [] && name != [];
    assert name[0] != '.';
    forall i | 0 <= i < |parts| ensures NameChars(parts[i]) {
      assert PlausibleLabel(parts[i]);
    }
    LabelChars(name);
    LastLabel(name);
  }

  lemma {:induction false} LabelChars(name: string)
    requires forall k :: 0 <= k < |Split(name, '.')| ==> NameChars(Split(name, '.')[k])
    ensures forall i :: 0 <= i < |name| ==> name[i] == '.' || NameChar(name[i])
  {
    if name != [] {
      var parts, rest := Split(name, '.'), Split(name[1..], '.');
      assert NameChars(parts[0]);
      forall k | 0 <= k < |rest| ensures NameChars(rest[k]) {
        if name[0] == '.' {
          assert parts[k + 1] == rest[k];
        } else if k == 0 {
          assert rest[0] == parts[0][1..];
        } else {
          assert parts[k] == rest[k];
        }
      }
      LabelChars(name[1..]);
      if name[0] != '.' {
        assert parts[0][0] == name[0];
      }
    }
  }

  lemma {:induction false} LastLabel(name: string)
    requires name != []
    ensures var parts := Split(name, '.');
            if name[|name| - 1] == '.' then parts[|parts| - 1] == []
            else parts[|parts| - 1] != [] && name[|name| - 1] in parts[|parts| - 1]
  {
    if |name| > 1 {
      LastLabel(name[1..]);
    } else {
      assert Split(name[1..], '.') == [[]];
    }
  }

  /** What is kept of a line is in canonical form: reading it again changes
      nothing, and it matches the wire as it stands. */
  lemma NormalizeTwice(raw: string)
    requires Normalize(raw).Some?
    ensures var d := Normalize(raw).value;
            && Normalize(d) == Some(d) && Canonical(d) == d
            && '.' in d && !Housekeeping(d)
  {
    var d := Normalize(raw).value;
    LabelsOf(d);
    NothingToTrim(d);
    LowerTwice(TrimEndOf(Trim(raw), '.'));
  }

  // ---- Exactly which lines are names, and which hosts they stand for ----

  function Dots(n: nat): string {
    if n == 0 then [] else Dots(n - 1) + ['.']
  }

  predicate NoRootDot(s: string) {
    s == [] || s[|s| - 1] != '.'
  }

  lemma {:induction false} RootDotsTrimmed(stem: string, n: nat)
    requires NoRootDot(stem)
    ensures TrimEndOf(stem + Dots(n), '.') == stem
  {
    if n == 0 {
      assert stem + [] == stem;
    } else {
      var s := stem + Dots(n);
      assert s[..|s| - 1] == stem + Dots(n - 1) && s[|s| - 1] == '.';
      RootDotsTrimmed(stem, n - 1);
    }
  }

  lemma {:induction false} RootDotsOf(s: string) returns (n: nat)
    ensures NoRootDot(TrimEndOf(s, '.')) && s == TrimEndOf(s, '.') + Dots(n)
  {
    if s != [] && s[|s| - 1] == '.' {
      var m := RootDotsOf(s[..|s| - 1]);
      n := m + 1;
      assert s == s[..|s| - 1] + ['.'];
    } else {
      n := 0;
      assert s + [] == s;
    }
  }

  /** A host is looked up in lower case and without its root dots. */
  lemma CanonicalMeans(stem: string, n: nat)
    requires NoRootDot(stem)
    ensures Canonical(stem + Dots(n)) == ToLower(stem)
  {
    RootDotsTrimmed(stem, n);
  }

  const NAME_CHARS := SMALL + CAPITALS + DIGITS + "-_"

  lemma NameCharIff(c: char)
    ensures NameChar(c) <==> c in NAME_CHARS
  {
    AlphabetIff(c);
  }

  /** Names a hosts file keeps for itself. */
  predicate KeptForItself(name: string) {
    || name == "localhost" || name == "localhost.localdomain" || name == "local" || name == "broadcasthost"
    || (|name| >= 4 && name[..4] == "ip6-")
  }

  lemma HousekeepingIff(name: string)
    ensures Housekeeping(name) <==> KeptForItself(name)
  {
    assert "ip6-" <= name <==> |name| >= 4 && name[..4] == "ip6-";
  }

  predicate Label(part: string) {
    part != [] && forall i :: 0 <= i < |part| ==> part[i] in NAME_CHARS
  }

  lemma LabelIff(part: string)
    ensures PlausibleLabel(part) <==> Label(part)
    ensures PlausibleLabel(ToLower(part)) <==> PlausibleLabel(part)
  {
    forall i | 0 <= i < |part|
      ensures NameChar(part[i]) <==> part[i] in NAME_CHARS
      ensures NameChar(ToLower(part)[i]) <==> NameChar(part[i])
    {
      NameCharIff(part[i]);
    }
  }

  /** Two labels or more between dots, each of letters, digits, hyphens and
      underscores. */
  predicate Labels(labels: seq<string>) {
    |labels| >= 2 && forall i :: 0 <= i < |labels| ==> Label(labels[i])
  }

  function LowerEach(labels: seq<string>): (r: seq<string>)
    ensures |r| == |labels|
    ensures forall i :: 0 <= i < |labels| ==> r[i] == ToLower(labels[i])
  {
    seq(|labels|, i requires 0 <= i < |labels| => ToLower(labels[i]))
  }

  lemma {:induction false} SplitInLowerCase(s: string)
    ensures Split(ToLower(s), '.') == LowerEach(Split(s, '.'))
  {
    if s != [] {
      SplitInLowerCase(s[1..]);
      assert ToLower(s)[1..] == ToLower(s[1..]);
      var rest := Split(s[1..], '.');
      assert Split(s, '.') == if s[0] == '.' then [[]] + rest else [[s[0]] + rest[0]] + rest[1..];
      assert ToLower([s[0]] + rest[0]) == [LowerChar(s[0])] + ToLower(rest[0]);
    } else {
      assert ToLower(s) == [];
    }
  }

  lemma SplitAllPlausible(name: string)
    ensures (forall i :: 0 <= i < |Split(ToLower(name), '.')| ==> PlausibleLabel(Split(ToLower(name), '.')[i])) <==>
            (forall i :: 0 <= i < |Split(name, '.')| ==> Label(Split(name, '.')[i]))
  {
    SplitInLowerCase(name);
    var parts, low := Split(name, '.'), Split(ToLower(name), '.');
    forall i | 0 <= i < |parts| ensures PlausibleLabel(low[i]) <==> Label(parts[i]) {
      LabelIff(parts[i]);
    }
  }

  lemma {:induction false} JoinEnds(labels: seq<string>)
    requires labels != [] && forall i :: 0 <= i < |labels| ==> Label(labels[i])
    ensures NoRootDot(Join(labels, '.')) && Join(labels, '.') != []
    ensures |labels| >= 2 ==> '.' in Join(labels, '.')
  {
    if |labels| == 1 {
      NameCharIff('.');
      assert labels[0][|labels[0]| - 1] in NAME_CHARS;
    } else {
      JoinEnds(labels[1..]);
      var s := labels[0] + ['.'] + Join(labels[1..], '.');
      assert s[|labels[0]|] == '.';
    }
  }

  lemma {:induction false} DotMeansTwo(s: string)
    ensures '.' in s <==> |Split(s, '.')| >= 2
  {
    if s != [] {
      DotMeansTwo(s[1..]);
      assert s == [s[0]] + s[1..];
    }
  }

  lemma NormalizeFrom(raw: string, name: string)
    requires TrimEndOf(Trim(raw), '.') == name
    ensures Normalize(raw) == if Labels(Split(name, '.')) && !KeptForItself(ToLower(name)) then Some(ToLower(name)) else None
  {
    HousekeepingIff(ToLower(name));
    SplitAllPlausible(name);
    DotMeansTwo(ToLower(name));
    SplitInLowerCase(name);
  }

  lemma LabelsSplit(labels: seq<string>)
    requires Labels(labels)
    ensures Split(Join(labels, '.'), '.') == labels
  {
    NameCharIff('.');
    forall i | 0 <= i < |labels| ensures '.' !in labels[i] {
      assert Label(labels[i]);
    }
    JoinedSplits(labels, '.');
  }

  /** A line is read as a name whenever it is one: labels between dots, in any
      case, with root dots and space around it as may be, that is not kept for
      the host itself; and it is kept in lower case. */
  lemma WrittenNamesAreRead(raw: string, labels: seq<string>, dots: nat)
    requires Labels(labels) && Trim(raw) == Join(labels, '.') + Dots(dots)
    ensures var name := ToLower(Join(labels, '.'));
            Normalize(raw) == if KeptForItself(name) then None else Some(name)
  {
    var name := Join(labels, '.');
    JoinEnds(labels);
    RootDotsTrimmed(name, dots);
    LabelsSplit(labels);
    NormalizeFrom(raw, name);
  }

  /** And nothing else is. */
  lemma OnlyWrittenNamesAreRead(raw: string) returns (labels: seq<string>, dots: nat)
    requires Normalize(raw).Some?
    ensures Labels(labels) && Trim(raw) == Join(labels, '.') + Dots(dots)
    ensures !KeptForItself(ToLower(Join(labels, '.')))
  {
    var name := TrimEndOf(Trim(raw), '.');
    dots := RootDotsOf(Trim(raw));
    labels := Split(name, '.');
    SplitMeans(name, '.');
    NormalizeFrom(raw, name);
  }
}
