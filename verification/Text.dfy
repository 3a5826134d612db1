/** ASCII text as the proxy reads it: letter case, trimming, and cutting at a
    separator. */
module Text {

  function LowerChar(c: char): char {
    if 'A' <= c <= 'Z' then ((c as int) + 32) as char else c
  }

  function ToLower(s: string): (r: string)
    ensures |r| == |s|
    ensures forall i :: 0 <= i < |s| ==> r[i] == LowerChar(s[i])
  {
    seq(|s|, i requires 0 <= i < |s| => LowerChar(s[i]))
  }

  predicate EqIgnoreCase(a: string, b: string) {
    ToLower(a) == ToLower(b)
  }

  /** The same letter, in either case: capitals come 32 before small ones. */
  predicate SameLetter(a: char, b: char) {
    || a == b
    || (65 <= a as int <= 90 && b as int == a as int + 32)
    || (65 <= b as int <= 90 && a as int == b as int + 32)
  }

  predicate SpelledAlike(a: string, b: string) {
    |a| == |b| && forall i :: 0 <= i < |a| ==> SameLetter(a[i], b[i])
  }

  lemma IgnoringCase(a: string, b: string)
    ensures EqIgnoreCase(a, b) <==> SpelledAlike(a, b)
  {
    if EqIgnoreCase(a, b) {
      assert forall i :: 0 <= i < |a| ==> ToLower(a)[i] == ToLower(b)[i];
    }
  }

  predicate IsSpace(c: char) {
    c == ' ' || '\t' <= c <= '\r'
  }

  function TrimStart(s: string): string {
    if s != [] && IsSpace(s[0]) then TrimStart(s[1..]) else s
  }

  function TrimEnd(s: string): string {
    if s != [] && IsSpace(s[|s| - 1]) then TrimEnd(s[..|s| - 1]) else s
  }

  function Trim(s: string): string {
    TrimEnd(TrimStart(s))
  }

  /** Drops every trailing `c`. */
  function TrimEndOf(s: string, c: char): string {
    if s != [] && s[|s| - 1] == c then TrimEndOf(s[..|s| - 1], c) else s
  }

  /** The pieces between separators, one more than there are separators. */
  function Split(s: string, c: char): (r: seq<string>)
    ensures |r| >= 1
  {
    if s == [] then [[]]
    else if s[0] == c then [[]] + Split(s[1..], c)
    else
      var rest := Split(s[1..], c);
      [[s[0]] + rest[0]] + rest[1..]
  }

  predicate EndsWith(s: string, tail: string) {
    |tail| <= |s| && s[|s| - |tail|..] == tail
  }

  predicate Contains(s: string, part: string) {
    part <= s || (s != [] && Contains(s[1..], part))
  }

  /** The first place `c` stands, or the length. */
  function IndexOf(s: string, c: char): (i: nat)
    ensures i <= |s|
    ensures i < |s| ==> s[i] == c
    ensures forall k :: 0 <= k < i ==> s[k] != c
  {
    if s == [] || s[0] == c then 0 else 1 + IndexOf(s[1..], c)
  }

  /** Maximal runs of characters that are not space. */
  function Words(s: string): seq<string>
    decreases |s|
  {
    if s == [] then []
    else if IsSpace(s[0]) then Words(s[1..])
    else
      var n := WordLength(s);
      [s[..n]] + Words(s[n..])
  }

  function WordLength(s: string): (n: nat)
    requires s != [] && !IsSpace(s[0])
    ensures 0 < n <= |s|
    ensures forall i :: 0 <= i < n ==> !IsSpace(s[i])
    ensures n == |s| || IsSpace(s[n])
  {
    if |s| == 1 || IsSpace(s[1]) then 1 else 1 + WordLength(s[1..])
  }

  lemma LowerTwice(s: string)
    ensures ToLower(ToLower(s)) == ToLower(s)
  {
  }

  lemma {:induction false} NothingToTrim(s: string)
    requires s != [] ==> !IsSpace(s[0]) && !IsSpace(s[|s| - 1])
    ensures Trim(s) == s
  {
  }

  // ---- What these come to ----

  const SMALL := "abcdefghijklmnopqrstuvwxyz"
  const CAPITALS := "ABCDEFGHIJKLMNOPQRSTUVWXYZ"
  const DIGITS := "0123456789"

  lemma AlphabetIff(c: char)
    ensures 'a' <= c <= 'z' <==> c in SMALL
    ensures 'A' <= c <= 'Z' <==> c in CAPITALS
    ensures '0' <= c <= '9' <==> c in DIGITS
  {
  }

  /** A space, or one of the five from tab to carriage return. */
  predicate Blank(c: char) {
    c as int == 32 || 9 <= c as int <= 13
  }

  predicate AllBlank(s: string) {
    forall i :: 0 <= i < |s| ==> Blank(s[i])
  }

  /** Only `A` to `Z`, 65 to 90, change, and to the letters 32 above. */
  lemma LowerCaseIs(s: string)
    ensures |ToLower(s)| == |s|
    ensures forall i :: 0 <= i < |s| ==>
              ToLower(s)[i] as int == if 65 <= s[i] as int <= 90 then s[i] as int + 32 else s[i] as int
  {
  }

  lemma {:induction false} TrimStartMeans(s: string) returns (before: string)
    ensures AllBlank(before) && s == before + TrimStart(s)
    ensures TrimStart(s) != [] ==> !Blank(TrimStart(s)[0])
  {
    if s != [] && IsSpace(s[0]) {
      var more := TrimStartMeans(s[1..]);
      before := [s[0]] + more;
      assert s == [s[0]] + s[1..];
    } else {
      before := [];
    }
  }

  lemma {:induction false} TrimEndMeans(s: string) returns (after: string)
    ensures AllBlank(after) && s == TrimEnd(s) + after
    ensures TrimEnd(s) != [] ==> !Blank(TrimEnd(s)[|TrimEnd(s)| - 1]) && TrimEnd(s)[0] == s[0]
  {
    if s != [] && IsSpace(s[|s| - 1]) {
      var more := TrimEndMeans(s[..|s| - 1]);
      after := more + [s[|s| - 1]];
      assert s == s[..|s| - 1] + [s[|s| - 1]];
    } else {
      after := [];
    }
  }

  /** Trimming takes space off both ends, all of it, and nothing else. */
  lemma TrimMeans(s: string) returns (before: string, after: string)
    ensures AllBlank(before) && AllBlank(after) && s == before + Trim(s) + after
    ensures Trim(s) != [] ==> !Blank(Trim(s)[0]) && !Blank(Trim(s)[|Trim(s)| - 1])
  {
    before := TrimStartMeans(s);
    after := TrimEndMeans(TrimStart(s));
  }

  function Join(pieces: seq<string>, c: char): string
    requires pieces != []
  {
    if |pieces| == 1 then pieces[0] else pieces[0] + [c] + Join(pieces[1..], c)
  }

  /** Splitting cuts at every separator, and joining again gives back the
      text. */
  lemma {:induction false} SplitMeans(s: string, c: char)
    ensures Join(Split(s, c), c) == s
    ensures forall i :: 0 <= i < |Split(s, c)| ==> c !in Split(s, c)[i]
  {
    if s != [] {
      var parts, rest := Split(s, c), Split(s[1..], c);
      SplitMeans(s[1..], c);
      assert s == [s[0]] + s[1..];
      if s[0] == c {
        assert parts[1..] == rest;
      } else {
        assert parts[1..] == rest[1..];
        JoinFirst(s[0], rest, c);
        assert parts[0] == [s[0]] + rest[0] && c !in rest[0];
        assert forall i :: 0 < i < |parts| ==> parts[i] == rest[i];
      }
    }
  }

  lemma JoinFirst(x: char, pieces: seq<string>, c: char)
    requires pieces != []
    ensures Join([[x] + pieces[0]] + pieces[1..], c) == [x] + Join(pieces, c)
  {
    var more := [[x] + pieces[0]] + pieces[1..];
    assert more[1..] == pieces[1..];
    if |pieces| > 1 {
      assert ([x] + pieces[0]) + [c] + Join(pieces[1..], c) == [x] + (pieces[0] + [c] + Join(pieces[1..], c));
    }
  }

  /** Every way to write it so is how it is split. */
  lemma {:induction false} JoinedSplits(pieces: seq<string>, c: char)
    requires pieces != [] && forall i :: 0 <= i < |pieces| ==> c !in pieces[i]
    ensures Split(Join(pieces, c), c) == pieces
  {
    if |pieces| == 1 {
      SplitPlain(pieces[0], c);
    } else {
      JoinedSplits(pieces[1..], c);
      SplitPlain(pieces[0], c);
      SplitJoins(pieces[0], Join(pieces[1..], c), c);
      assert pieces[0] + [c] + Join(pieces[1..], c) == pieces[0] + ([c] + Join(pieces[1..], c));
    }
  }

  lemma {:induction false} SplitPlain(s: string, c: char)
    requires c !in s
    ensures Split(s, c) == [s]
  {
    if s != [] {
      assert s == [s[0]] + s[1..];
      SplitPlain(s[1..], c);
    }
  }

  lemma {:induction false} SplitJoins(a: string, b: string, c: char)
    ensures Split(a + ([c] + b), c) == Split(a, c) + Split(b, c)
  {
    var s := a + ([c] + b);
    if a == [] {
      assert s[1..] == b;
    } else {
      assert s[1..] == a[1..] + ([c] + b);
      SplitJoins(a[1..], b, c);
    }
  }

  predicate PartAt(s: string, part: string, at: nat) {
    at + |part| <= |s| && s[at..at + |part|] == part
  }

  lemma PartBehind(s: string, part: string, at: nat)
    requires s != []
    ensures PartAt(s[1..], part, at) <==> PartAt(s, part, at + 1)
  {
    if at + 1 + |part| <= |s| {
      assert s[1..][at..at + |part|] == s[at + 1..at + 1 + |part|];
    }
  }

  /** One text holds another when the other stands somewhere in it. */
  lemma {:induction false} ContainsIff(s: string, part: string)
    ensures Contains(s, part) <==> exists at: nat :: PartAt(s, part, at)
  {
    assert part <= s <==> PartAt(s, part, 0);
    if s != [] {
      ContainsIff(s[1..], part);
      if at: nat :| PartAt(s[1..], part, at) {
        PartBehind(s, part, at);
      }
      if at: nat :| PartAt(s, part, at) && at > 0 {
        PartBehind(s, part, at - 1);
      }
    }
  }

  /** Words are what is between spaces: this with what a single word is decides
      them for every text. */
  lemma {:induction false} WordsApart(a: string, space: char, b: string)
    requires IsSpace(space)
    ensures Words(a + ([space] + b)) == Words(a) + Words(b)
    decreases |a|
  {
    var s := a + ([space] + b);
    if a == [] {
      assert s[1..] == b;
    } else if IsSpace(a[0]) {
      assert s[1..] == a[1..] + ([space] + b);
      WordsApart(a[1..], space, b);
    } else {
      var n := WordLength(a);
      SameWord(a, [space] + b);
      assert s[..n] == a[..n];
      if n == |a| {
        assert s[n..] == [space] + b && ([space] + b)[1..] == b;
        assert a[n..] == [] && Words([]) == [];
      } else {
        assert s[n..] == a[n..] + ([space] + b);
        WordsApart(a[n..], space, b);
      }
    }
  }

  lemma {:induction false} SameWord(a: string, more: string)
    requires a != [] && !IsSpace(a[0]) && (more == [] || IsSpace(more[0]))
    ensures WordLength(a + more) == WordLength(a)
  {
    var n, m := WordLength(a), WordLength(a + more);
    assert forall i :: 0 <= i < n ==> (a + more)[i] == a[i];
    assert n < |a + more| ==> (a + more)[n] == if n < |a| then a[n] else more[0];
  }

  lemma OneWordAlone(s: string)
    requires s != [] && forall i :: 0 <= i < |s| ==> !IsSpace(s[i])
    ensures Words(s) == [s] && Words([]) == []
  {
    assert WordLength(s) == |s|;
    assert s[..|s|] == s && s[|s|..] == [];
  }
}
