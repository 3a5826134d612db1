/**
 The picker's selector for the element a user points at: by id where one is
 unique, else by tag and position up a path, joined by descendant combinators
 and, where those match too much, by child combinators.
 */
module Picker {
  import opened Wrappers
  import opened Text

  /** Elements stand in document order, so a parent and an earlier sibling
      have smaller places. */
  datatype Element = Element(parent: Option<nat>, tag: string, id: string)
  datatype Document = Document(elements: seq<Element>, body: Option<nat>)

  predicate Valid(d: Document) {
    && d.elements != []
    && d.elements[0].parent.None?
    && (forall i :: 0 < i < |d.elements| ==>
          d.elements[i].parent.Some? && d.elements[i].parent.value < i)
    && (d.body.Some? ==> IsBody(d, d.body.value) && d.elements[d.body.value].parent == Some(0))
  }

  predicate IsBody(d: Document, x: nat) {
    x < |d.elements| && d.elements[x].tag == "body"
  }

  /** No element but the document's body is tagged so. */
  predicate SingleBody(d: Document) {
    forall x: nat :: x < |d.elements| && IsBody(d, x) ==> d.body == Some(x)
  }

  predicate Ancestor(d: Document, y: nat, x: nat)
    requires Valid(d) && x < |d.elements|
    decreases x
  {
    x != 0 && (Parent(d, x) == y || Ancestor(d, y, Parent(d, x)))
  }

  function Parent(d: Document, x: nat): (p: nat)
    requires Valid(d) && 0 < x < |d.elements|
    ensures p < x
  {
    d.elements[x].parent.value
  }

  predicate AtOrAbove(d: Document, y: nat, x: nat)
    requires Valid(d) && x < |d.elements|
  {
    y < |d.elements| && (y == x || Ancestor(d, y, x))
  }

  predicate AtOrUnder(d: Document, top: Option<nat>, x: nat)
    requires Valid(d) && x < |d.elements|
  {
    top.Some? && AtOrAbove(d, top.value, x)
  }

  // ---- Selectors and what they match ----

  datatype Simple = Id(id: string) | Type(tag: string) | Nth(tag: string, n: nat)
  datatype Selector = Selector(path: seq<Simple>, child: bool)

  predicate Letter(c: char) {
    'a' <= c <= 'z' || 'A' <= c <= 'Z' || c == '_' || c as int >= 128
  }

  predicate NameChar(c: char) {
    Letter(c) || '0' <= c <= '9' || c == '-'
  }

  /** A name a style sheet can hold as it stands. */
  predicate Identifier(s: string) {
    && s != []
    && (forall i :: 0 <= i < |s| ==> NameChar(s[i]))
    && (Letter(s[0]) || (s[0] == '-' && |s| > 1 && (Letter(s[1]) || s[1] == '-')))
  }

  predicate Spelled(s: Simple) {
    Identifier(if s.Id? then s.id else s.tag)
  }

  predicate AllSpelled(path: seq<Simple>) {
    forall i :: 0 <= i < |path| ==> Spelled(path[i])
  }

  /** Elements before `k` with that parent and tag. */
  function CountBefore(d: Document, parent: Option<nat>, tag: string, k: nat): nat
    requires k <= |d.elements|
  {
    if k == 0 then 0
    else
      var last := d.elements[k - 1];
      CountBefore(d, parent, tag, k - 1) + if last.parent == parent && last.tag == tag then 1 else 0
  }

  /** The place among the siblings of one tag, from one. */
  function Position(d: Document, x: nat): nat
    requires x < |d.elements|
  {
    1 + CountBefore(d, d.elements[x].parent, d.elements[x].tag, x)
  }

  predicate SimpleMatches(d: Document, s: Simple, x: nat)
    requires x < |d.elements|
  {
    Spelled(s) &&
    match s
    case Id(id) => d.elements[x].id == id
    case Type(tag) => d.elements[x].tag == tag
    case Nth(tag, n) => d.elements[x].tag == tag && Position(d, x) == n
  }

  predicate Above(d: Document, child: bool, y: nat, x: nat)
    requires Valid(d) && x < |d.elements|
  {
    if child then x != 0 && Parent(d, x) == y else Ancestor(d, y, x)
  }

  predicate PathMatches(d: Document, path: seq<Simple>, child: bool, x: nat)
    requires Valid(d) && x < |d.elements|
    decreases |path|
  {
    && path != []
    && SimpleMatches(d, path[|path| - 1], x)
    && (|path| == 1
        || exists y: nat :: y < x && Above(d, child, y, x) && PathMatches(d, path[..|path| - 1], child, y))
  }

  predicate Matches(d: Document, s: Selector, x: nat)
    requires Valid(d) && x < |d.elements|
  {
    PathMatches(d, s.path, s.child, x)
  }

  /** The selector stands for this element and no other. */
  predicate Names(d: Document, s: Selector, x: nat)
    requires Valid(d) && x < |d.elements|
  {
    Matches(d, s, x) && forall y: nat :: y < |d.elements| && Matches(d, s, y) ==> y == x
  }

  predicate Unique(d: Document, s: Selector)
    requires Valid(d)
  {
    exists x: nat :: x < |d.elements| && Names(d, s, x)
  }

  // ---- The generator ----

  predicate PlainId(id: string) {
    && id != []
    && (Letter(id[0]) || id[0] == '-')
    && forall i :: 0 <= i < |id| ==> NameChar(id[i]) && id[i] as int < 128
  }

  function ById(d: Document, x: nat): Option<Simple>
    requires Valid(d) && x < |d.elements|
  {
    var id := d.elements[x].id;
    if PlainId(id) && Unique(d, Selector([Id(id)], false)) then Some(Id(id)) else None
  }

  function Step(d: Document, x: nat): Simple
    requires x < |d.elements|
  {
    Nth(d.elements[x].tag, Position(d, x))
  }

  /** `below` are the steps from `node` down. */
  function ShortestFrom(d: Document, node: nat, below: seq<Simple>): Option<Selector>
    requires Valid(d) && node < |d.elements|
    decreases node
  {
    if node == 0 || d.body == Some(node) then None
    else
      var anchor := ById(d, node);
      var path := [anchor.UnwrapOr(Step(d, node))] + below;
      var s := Selector(if anchor.Some? then path else [Type("body")] + path, false);
      if Unique(d, s) then Some(s)
      else if anchor.Some? then None
      else ShortestFrom(d, Parent(d, node), path)
  }

  function ExactFrom(d: Document, node: nat, below: seq<Simple>): Option<Selector>
    requires Valid(d) && node < |d.elements|
    decreases node
  {
    if node == 0 then None
    else
      var anchor := ById(d, node);
      if anchor.Some? then Some(Selector([anchor.value] + below, true))
      else if d.body == Some(node) then Some(Selector([Type("body")] + below, true))
      else ExactFrom(d, Parent(d, node), [Step(d, node)] + below)
  }

  function SelectorFor(d: Document, e: nat): Option<Selector>
    requires Valid(d) && e < |d.elements|
  {
    if ById(d, e).Some? then Some(Selector([ById(d, e).value], false))
    else if ShortestFrom(d, e, []).Some? then ShortestFrom(d, e, [])
    else ExactFrom(d, e, [])
  }

  /** The nearest earlier element with the same parent. */
  function PreviousSibling(d: Document, x: nat, k: nat): (r: Option<nat>)
    requires k <= x < |d.elements|
    ensures r.Some? ==> r.value < k && d.elements[r.value].parent == d.elements[x].parent
    ensures forall j :: (if r.Some? then r.value + 1 else 0) <= j < k ==> d.elements[j].parent != d.elements[x].parent
  {
    if k == 0 then None
    else if d.elements[k - 1].parent == d.elements[x].parent then Some(k - 1)
    else PreviousSibling(d, x, k - 1)
  }

  method StepOf(d: Document, x: nat) returns (s: Simple)
    requires x < |d.elements|
    ensures s == Step(d, x)
  {
    var tag := d.elements[x].tag;
    ghost var parent := d.elements[x].parent;
    var n := 1;
    var prior: Option<nat> := PreviousSibling(d, x, x);
    StrangersDoNotCount(d, parent, tag, if prior.Some? then prior.value + 1 else 0, x);
    while prior.Some?
      invariant prior.Some? ==> prior.value < x && d.elements[prior.value].parent == parent
      invariant n + CountBefore(d, parent, tag, if prior.Some? then prior.value + 1 else 0) == Position(d, x)
      decreases if prior.Some? then prior.value + 1 else 0
    {
      var at := prior.value;
      if d.elements[at].tag == tag {
        n := n + 1;
      }
      prior := PreviousSibling(d, at, at);
      StrangersDoNotCount(d, parent, tag, if prior.Some? then prior.value + 1 else 0, at);
    }
    s := Nth(tag, n);
  }

  method Shortest(d: Document, e: nat) returns (r: Option<Selector>)
    requires Valid(d) && e < |d.elements|
    ensures r == ShortestFrom(d, e, [])
  {
    var path: seq<Simple> := [];
    var node: nat := e;
    while node != 0 && d.body != Some(node)
      invariant node < |d.elements|
      invariant ShortestFrom(d, e, []) == ShortestFrom(d, node, path)
      decreases node
    {
      var anchor := ById(d, node);
      var step := StepOf(d, node);
      path := [anchor.UnwrapOr(step)] + path;
      var s := Selector(if anchor.Some? then path else [Type("body")] + path, false);
      if Unique(d, s) {
        return Some(s);
      }
      if anchor.Some? {
        return None;
      }
      node := Parent(d, node);
    }
    return None;
  }

  method Exact(d: Document, e: nat) returns (r: Option<Selector>)
    requires Valid(d) && e < |d.elements|
    ensures r == ExactFrom(d, e, [])
  {
    var path: seq<Simple> := [];
    var node: nat := e;
    while node != 0
      invariant node < |d.elements|
      invariant ExactFrom(d, e, []) == ExactFrom(d, node, path)
      decreases node
    {
      var anchor := ById(d, node);
      if anchor.Some? {
        return Some(Selector([anchor.value] + path, true));
      }
      if d.body == Some(node) {
        return Some(Selector([Type("body")] + path, true));
      }
      var step := StepOf(d, node);
      path := [step] + path;
      node := Parent(d, node);
    }
    return None;
  }

  method Pick(d: Document, e: nat) returns (r: Option<Selector>)
    requires Valid(d) && e < |d.elements|
    ensures r == SelectorFor(d, e)
  {
    var own := ById(d, e);
    if own.Some? {
      return Some(Selector([own.value], false));
    }
    r := Shortest(d, e);
    if r.None? {
      r := Exact(d, e);
    }
  }

  // ---- Counting siblings ----

  lemma {:induction false} StrangersDoNotCount(d: Document, parent: Option<nat>, tag: string, lo: nat, hi: nat)
    requires lo <= hi <= |d.elements|
    requires forall j :: lo <= j < hi ==> d.elements[j].parent != parent
    ensures CountBefore(d, parent, tag, hi) == CountBefore(d, parent, tag, lo)
  {
    if lo < hi {
      StrangersDoNotCount(d, parent, tag, lo, hi - 1);
    }
  }

  lemma {:induction false} CountGrows(d: Document, parent: Option<nat>, tag: string, lo: nat, hi: nat)
    requires lo <= hi <= |d.elements|
    ensures CountBefore(d, parent, tag, lo) <= CountBefore(d, parent, tag, hi)
  {
    if lo < hi {
      CountGrows(d, parent, tag, lo, hi - 1);
    }
  }

  /** One parent, one tag, one place: one element. */
  lemma SamePlaceSameElement(d: Document, x: nat, y: nat)
    requires x < |d.elements| && y < |d.elements| && d.elements[x].parent == d.elements[y].parent
    requires Step(d, x) == Step(d, y)
    ensures x == y
  {
    var parent, tag := d.elements[x].parent, d.elements[x].tag;
    if x < y {
      CountGrows(d, parent, tag, x + 1, y);
    } else if y < x {
      CountGrows(d, parent, tag, y + 1, x);
    }
  }

  // ---- Paths ----

  /** The steps from `e` up to just below `top`. */
  function Below(d: Document, e: nat, top: nat): seq<Simple>
    requires Valid(d) && e < |d.elements| && AtOrAbove(d, top, e)
    decreases e
  {
    if e == top then [] else Below(d, Parent(d, e), top) + [Step(d, e)]
  }

  lemma {:induction false} OneStepUp(d: Document, e: nat, node: nat)
    requires Valid(d) && e < |d.elements| && 0 < node && AtOrAbove(d, node, e)
    ensures node < |d.elements| && Ancestor(d, Parent(d, node), e)
    ensures Below(d, e, Parent(d, node)) == [Step(d, node)] + Below(d, e, node)
    decreases e
  {
    var up := if e == node then 0 else Parent(d, e);
    if e != node {
      OneStepUp(d, up, node);
      assert e != Parent(d, node) by { AncestorIsEarlier(d, Parent(d, node), e); }
      assert [Step(d, node)] + Below(d, e, node) == ([Step(d, node)] + Below(d, up, node)) + [Step(d, e)];
    } else {
      assert Below(d, e, e) == [] && Below(d, Parent(d, e), Parent(d, e)) == [];
    }
  }

  lemma {:induction false} AncestorIsEarlier(d: Document, y: nat, x: nat)
    requires Valid(d) && x < |d.elements| && Ancestor(d, y, x)
    ensures y < x
    decreases x
  {
    if Parent(d, x) != y {
      AncestorIsEarlier(d, y, Parent(d, x));
    }
  }

  lemma LastStep(d: Document, head: seq<Simple>, e: nat, top: nat)
    requires Valid(d) && e < |d.elements| && e != top && AtOrAbove(d, top, e)
    ensures var path := head + Below(d, e, top);
            && path != [] && path[|path| - 1] == Step(d, e) && path[..|path| - 1] == head + Below(d, Parent(d, e), top)
            && path == (head + Below(d, Parent(d, e), top)) + [Step(d, e)]
  {
    var path := head + Below(d, e, top);
    assert path == (head + Below(d, Parent(d, e), top)) + [Step(d, e)];
  }

  /** Whatever matches the top, the steps below it lead down to the element. */
  lemma {:induction false} PathFindsItsElement(d: Document, head: seq<Simple>, child: bool, e: nat, top: nat)
    requires Valid(d) && e < |d.elements| && AtOrAbove(d, top, e)
    requires PathMatches(d, head, child, top)
    requires AllSpelled(head + Below(d, e, top))
    ensures PathMatches(d, head + Below(d, e, top), child, e)
    decreases e
  {
    if e == top {
      assert head + Below(d, e, top) == head;
    } else {
      LastStep(d, head, e, top);
      SpelledParts(head + Below(d, e, top));
      PathFindsItsElement(d, head, child, Parent(d, e), top);
      OneStepDown(d, head + Below(d, Parent(d, e), top), child, e);
    }
  }

  lemma SpelledParts(path: seq<Simple>)
    requires path != [] && AllSpelled(path)
    ensures AllSpelled(path[..|path| - 1]) && Spelled(path[|path| - 1])
  {
    var front := path[..|path| - 1];
    forall i | 0 <= i < |front| ensures Spelled(front[i]) {
      assert Spelled(path[i]);
    }
  }

  lemma OneStepDown(d: Document, path: seq<Simple>, child: bool, e: nat)
    requires Valid(d) && 0 < e < |d.elements| && Spelled(Step(d, e))
    requires PathMatches(d, path, child, Parent(d, e))
    ensures PathMatches(d, path + [Step(d, e)], child, e)
  {
    var longer := path + [Step(d, e)];
    assert longer[..|longer| - 1] == path;
    assert Above(d, child, Parent(d, e), e);
  }

  /** Whatever child steps match stands at the same path below something that
      matches their head. */
  lemma {:induction false} ChildStepsLeadFrom(d: Document, head: Simple, e: nat, top: nat, x: nat) returns (t: nat)
    requires Valid(d) && e < |d.elements| && x < |d.elements| && AtOrAbove(d, top, e)
    requires PathMatches(d, [head] + Below(d, e, top), true, x)
    ensures AtOrAbove(d, t, x) && SimpleMatches(d, head, t)
    ensures Below(d, x, t) == Below(d, e, top)
    decreases e
  {
    if e == top {
      assert [head] + Below(d, e, top) == [head];
      t := x;
    } else {
      var path := [head] + Below(d, e, top);
      LastStep(d, [head], e, top);
      var y: nat :| y < x && Above(d, true, y, x) && PathMatches(d, path[..|path| - 1], true, y);
      t := ChildStepsLeadFrom(d, head, Parent(d, e), top, y);
      if t != y {
        AncestorIsEarlier(d, t, y);
      }
      assert Step(d, x) == Step(d, e);
    }
  }

  /** One path below one top leads to one element. */
  lemma {:induction false} SamePathSameElement(d: Document, top: nat, e: nat, x: nat)
    requires Valid(d) && e < |d.elements| && x < |d.elements| && AtOrAbove(d, top, e) && AtOrAbove(d, top, x)
    requires Below(d, x, top) == Below(d, e, top)
    ensures x == e
    decreases e
  {
    if e != top && x != top {
      var path := Below(d, e, top);
      var above, below := path[..|path| - 1], path[|path| - 1];
      assert above == Below(d, Parent(d, e), top) == Below(d, Parent(d, x), top);
      SamePathSameElement(d, top, Parent(d, e), Parent(d, x));
      assert below == Step(d, e) == Step(d, x);
      SamePlaceSameElement(d, e, x);
    }
  }

  /** One element has one ancestor at each distance. */
  lemma {:induction false} SamePathSameTop(d: Document, e: nat, top: nat, other: nat)
    requires Valid(d) && e < |d.elements| && AtOrAbove(d, top, e) && AtOrAbove(d, other, e)
    requires |Below(d, e, top)| == |Below(d, e, other)|
    ensures top == other
    decreases e
  {
    if e != top && e != other {
      SamePathSameTop(d, Parent(d, e), top, other);
    }
  }

  lemma {:induction false} MatchedIsSpelled(d: Document, path: seq<Simple>, child: bool, x: nat)
    requires Valid(d) && x < |d.elements| && PathMatches(d, path, child, x)
    ensures AllSpelled(path)
    decreases |path|
  {
    if |path| > 1 {
      var y: nat :| y < x && Above(d, child, y, x) && PathMatches(d, path[..|path| - 1], child, y);
      MatchedIsSpelled(d, path[..|path| - 1], child, y);
      assert forall i :: 0 <= i < |path| - 1 ==> path[i] == path[..|path| - 1][i];
    }
  }

  lemma {:induction false} HeadStandsAbove(d: Document, path: seq<Simple>, child: bool, x: nat) returns (y: nat)
    requires Valid(d) && x < |d.elements| && PathMatches(d, path, child, x)
    ensures y < |d.elements| && SimpleMatches(d, path[0], y)
    ensures if |path| == 1 then y == x else Ancestor(d, y, x)
    decreases |path|
  {
    y := x;
    if |path| > 1 {
      var z: nat :| z < x && Above(d, child, z, x) && PathMatches(d, path[..|path| - 1], child, z);
      assert Ancestor(d, z, x);
      y := HeadStandsAbove(d, path[..|path| - 1], child, z);
      if y != z {
        AncestorOfAncestor(d, y, z, x);
      }
    }
  }

  lemma {:induction false} AncestorOfAncestor(d: Document, a: nat, b: nat, x: nat)
    requires Valid(d) && x < |d.elements| && Ancestor(d, b, x)
    requires b < |d.elements| && Ancestor(d, a, b)
    ensures Ancestor(d, a, x)
    decreases x
  {
    if Parent(d, x) != b {
      AncestorOfAncestor(d, a, b, Parent(d, x));
    }
  }

  // ---- What is promised ----

  /** An id that is used names its element, with either combinator. */
  lemma AnIdNamesItsElement(d: Document, x: nat, child: bool)
    requires Valid(d) && x < |d.elements| && ById(d, x).Some?
    ensures Names(d, Selector([ById(d, x).value], child), x)
  {
    var id := ById(d, x).value;
    var s, t := Selector([id], false), Selector([id], child);
    var y: nat :| y < |d.elements| && Names(d, s, y);
    assert Matches(d, s, y);
    assert Matches(d, s, x);
    forall z: nat | z < |d.elements| && Matches(d, t, z) ensures z == x {
      assert Matches(d, s, z);
    }
  }

  /** Some other element tagged as a body has an element at the path `e` has
      below the body. */
  ghost predicate TwinElsewhere(d: Document, e: nat)
    requires Valid(d) && e < |d.elements|
  {
    AtOrUnder(d, d.body, e) &&
    exists b: nat, x: nat ::
      IsBody(d, b) && d.body != Some(b) && x < |d.elements| && AtOrAbove(d, b, x)
      && Below(d, x, b) == Below(d, e, d.body.value)
  }

  /** Child steps from an id name the element; from the body they do exactly
      when no other body has an element at the same path. Only a tag no selector
      can hold is in the way. */
  lemma {:induction false} ExactNamesOne(d: Document, e: nat, node: nat)
    requires Valid(d) && e < |d.elements| && AtOrAbove(d, node, e)
    ensures match ExactFrom(d, node, Below(d, e, node))
            case None => !AtOrUnder(d, d.body, node)
            case Some(s) =>
              && s.path != [] && s.child
              && (s.path[0].Id? || AtOrUnder(d, d.body, e))
              && (Names(d, s, e) <==> AllSpelled(s.path) && (s.path[0].Id? || !TwinElsewhere(d, e)))
    decreases node
  {
    UnderTheBody(d, e, node);
    if node != 0 {
      if ById(d, node).Some? {
        ExactFromAnId(d, e, node);
      } else if d.body == Some(node) {
        ExactFromTheBody(d, e, node);
      } else {
        OneStepUp(d, e, node);
        ExactNamesOne(d, e, Parent(d, node));
      }
    }
  }

  lemma ExactFromAnId(d: Document, e: nat, top: nat)
    requires Valid(d) && e < |d.elements| && AtOrAbove(d, top, e) && ById(d, top).Some?
    ensures var s := Selector([ById(d, top).value] + Below(d, e, top), true);
            Names(d, s, e) <==> AllSpelled(s.path)
  {
    var head := ById(d, top).value;
    var s := Selector([head] + Below(d, e, top), true);
    AnIdNamesItsElement(d, top, true);
    assert Matches(d, Selector([head], true), top);
    if AllSpelled(s.path) {
      PathFindsItsElement(d, [head], true, e, top);
      forall x: nat | x < |d.elements| && Matches(d, s, x) ensures x == e {
        var t := ChildStepsLeadFrom(d, head, e, top, x);
        assert Matches(d, Selector([head], true), t);
        SamePathSameElement(d, top, e, x);
      }
    }
    if Names(d, s, e) {
      MatchedIsSpelled(d, s.path, true, e);
    }
  }

  lemma ExactFromTheBody(d: Document, e: nat, b: nat)
    requires Valid(d) && e < |d.elements| && AtOrAbove(d, b, e) && d.body == Some(b)
    ensures var s := Selector([Type("body")] + Below(d, e, b), true);
            Names(d, s, e) <==> AllSpelled(s.path) && !TwinElsewhere(d, e)
  {
    var head := Type("body");
    var s := Selector([head] + Below(d, e, b), true);
    if AllSpelled(s.path) {
      assert Spelled(s.path[0]);
      assert PathMatches(d, [head], true, b);
      PathFindsItsElement(d, [head], true, e, b);
      if TwinElsewhere(d, e) {
        ATwinMatchesToo(d, e, b, s);
      } else {
        forall x: nat | x < |d.elements| && Matches(d, s, x) ensures x == e {
          var t := ChildStepsLeadFrom(d, head, e, b, x);
          assert IsBody(d, t);
          SamePathSameElement(d, b, e, x);
        }
      }
    }
    if Names(d, s, e) {
      MatchedIsSpelled(d, s.path, true, e);
    }
  }

  lemma ATwinMatchesToo(d: Document, e: nat, b: nat, s: Selector)
    requires Valid(d) && e < |d.elements| && AtOrAbove(d, b, e) && d.body == Some(b)
    requires s == Selector([Type("body")] + Below(d, e, b), true) && AllSpelled(s.path)
    requires TwinElsewhere(d, e)
    ensures !Names(d, s, e)
  {
    var c: nat, x: nat :|
      IsBody(d, c) && d.body != Some(c) && x < |d.elements| && AtOrAbove(d, c, x)
      && Below(d, x, c) == Below(d, e, b);
    assert Spelled(s.path[0]);
    assert PathMatches(d, [Type("body")], true, c);
    PathFindsItsElement(d, [Type("body")], true, x, c);
    assert Matches(d, s, x);
    if x == e {
      SamePathSameTop(d, e, b, c);
    }
  }

  lemma UnderTheBody(d: Document, e: nat, node: nat)
    requires Valid(d) && e < |d.elements| && AtOrAbove(d, node, e)
    ensures AtOrUnder(d, d.body, node) ==> AtOrUnder(d, d.body, e)
  {
    if e != node {
      AncestorIsEarlier(d, node, e);
      if AtOrUnder(d, d.body, node) && d.body.value != node {
        AncestorOfAncestor(d, d.body.value, node, e);
      }
    }
  }

  /** Something tagged as a body is above the element `k` levels up. */
  predicate BodyAbove(d: Document, x: nat, k: nat)
    requires Valid(d) && x < |d.elements|
    decreases k
  {
    if k == 0 then exists y: nat :: y < x && IsBody(d, y) && Ancestor(d, y, x)
    else x != 0 && BodyAbove(d, Parent(d, x), k - 1)
  }

  /** Descendant steps are kept only when they match one element. That is the
      element asked for when they start at an id, and when they start at the
      body exactly when a body is above the top of the path, as it is for
      everything under the document's own. */
  lemma {:induction false} ShortestNamesOne(d: Document, e: nat, node: nat)
    requires Valid(d) && e < |d.elements| && AtOrAbove(d, node, e)
    ensures match ShortestFrom(d, node, Below(d, e, node))
            case None => true
            case Some(s) =>
              && s.path != [] && !s.child && AllSpelled(s.path) && Unique(d, s)
              && (s.path[0].Id? || |s.path| >= 2)
              && (Names(d, s, e) <==> s.path[0].Id? || BodyAbove(d, e, |s.path| - 2))
              && (AtOrUnder(d, d.body, e) ==> Names(d, s, e))
    decreases node
  {
    if node != 0 && d.body != Some(node) {
      var anchor := ById(d, node);
      var path := [anchor.UnwrapOr(Step(d, node))] + Below(d, e, node);
      var s := Selector(if anchor.Some? then path else [Type("body")] + path, false);
      if Unique(d, s) {
        if anchor.Some? {
          FromAnId(d, e, node, s);
        } else {
          FromTheBody(d, e, node, s);
        }
      } else if anchor.None? {
        OneStepUp(d, e, node);
        ShortestNamesOne(d, e, Parent(d, node));
      }
    }
  }

  lemma UniqueIsSpelled(d: Document, s: Selector)
    requires Valid(d) && Unique(d, s)
    ensures s.path != [] && AllSpelled(s.path)
    ensures forall e: nat :: e < |d.elements| && Matches(d, s, e) ==> Names(d, s, e)
  {
    var x: nat :| x < |d.elements| && Names(d, s, x);
    assert Matches(d, s, x);
    MatchedIsSpelled(d, s.path, s.child, x);
  }

  lemma FromAnId(d: Document, e: nat, node: nat, s: Selector)
    requires Valid(d) && e < |d.elements| && AtOrAbove(d, node, e) && ById(d, node).Some?
    requires s == Selector([ById(d, node).value] + Below(d, e, node), false) && Unique(d, s)
    ensures AllSpelled(s.path) && Names(d, s, e)
  {
    UniqueIsSpelled(d, s);
    AnIdNamesItsElement(d, node, false);
    assert Matches(d, Selector([ById(d, node).value], false), node);
    PathFindsItsElement(d, [ById(d, node).value], false, e, node);
    assert Matches(d, s, e);
  }

  lemma FromTheBody(d: Document, e: nat, node: nat, s: Selector)
    requires Valid(d) && e < |d.elements| && AtOrAbove(d, node, e)
    requires node != 0 && d.body != Some(node)
    requires s == Selector([Type("body")] + ([Step(d, node)] + Below(d, e, node)), false)
    requires Unique(d, s)
    ensures AllSpelled(s.path) && |s.path| >= 2
    ensures Names(d, s, e) <==> BodyAbove(d, e, |s.path| - 2)
    ensures AtOrUnder(d, d.body, e) ==> Names(d, s, e)
  {
    UniqueIsSpelled(d, s);
    BodyAboveTheTop(d, e, node);
    assert |s.path| - 2 == |Below(d, e, node)|;
    if Names(d, s, e) {
      assert Matches(d, s, e);
      MatchedHasABodyAbove(d, s.path, e);
    }
    if BodyAbove(d, e, |s.path| - 2) {
      FoundFromTheBody(d, e, node, s);
      assert Matches(d, s, e);
    }
    if AtOrUnder(d, d.body, e) {
      BodyIsBelow(d, e, node);
      AncestorIsEarlier(d, d.body.value, node);
    }
  }

  lemma {:induction false} BodyAboveTheTop(d: Document, e: nat, top: nat)
    requires Valid(d) && e < |d.elements| && AtOrAbove(d, top, e)
    ensures BodyAbove(d, e, |Below(d, e, top)|) <==> BodyAbove(d, top, 0)
    decreases e
  {
    if e != top {
      BodyAboveTheTop(d, Parent(d, e), top);
    }
  }

  /** Lower down there is as much above. */
  lemma {:induction false} BodyAboveLower(d: Document, z: nat, x: nat, k: nat)
    requires Valid(d) && x < |d.elements| && AtOrAbove(d, z, x) && BodyAbove(d, z, k)
    ensures BodyAbove(d, x, k)
    decreases k
  {
    if z != x {
      AncestorIsEarlier(d, z, x);
      if k == 0 {
        var y: nat :| y < z && IsBody(d, y) && Ancestor(d, y, z);
        AncestorOfAncestor(d, y, z, x);
      } else {
        ParentsStayAbove(d, z, x);
        BodyAboveLower(d, Parent(d, z), Parent(d, x), k - 1);
      }
    }
  }

  lemma ParentsStayAbove(d: Document, z: nat, x: nat)
    requires Valid(d) && 0 < z < |d.elements| && x < |d.elements| && Ancestor(d, z, x)
    ensures x != 0 && AtOrAbove(d, Parent(d, z), Parent(d, x))
  {
    AncestorIsEarlier(d, z, x);
    if Parent(d, x) != z {
      assert Ancestor(d, Parent(d, z), z);
      AncestorIsEarlier(d, z, Parent(d, x));
      AncestorOfAncestor(d, Parent(d, z), z, Parent(d, x));
    }
  }

  /** Each descendant step climbs a level at least. */
  lemma {:induction false} MatchedHasABodyAbove(d: Document, path: seq<Simple>, x: nat)
    requires Valid(d) && x < |d.elements| && PathMatches(d, path, false, x)
    requires |path| >= 2 && path[0] == Type("body")
    ensures BodyAbove(d, x, |path| - 2)
    decreases |path|
  {
    var shorter := path[..|path| - 1];
    var z: nat :| z < x && Above(d, false, z, x) && PathMatches(d, shorter, false, z);
    if |path| == 2 {
      assert IsBody(d, z);
    } else {
      MatchedHasABodyAbove(d, shorter, z);
      AtOrAboveTheParent(d, z, x);
      BodyAboveLower(d, z, Parent(d, x), |path| - 3);
    }
  }

  lemma AtOrAboveTheParent(d: Document, z: nat, x: nat)
    requires Valid(d) && x < |d.elements| && Ancestor(d, z, x)
    ensures AtOrAbove(d, z, Parent(d, x))
  {
    AncestorIsEarlier(d, z, x);
  }

  lemma FoundFromTheBody(d: Document, e: nat, node: nat, s: Selector)
    requires Valid(d) && e < |d.elements| && AtOrAbove(d, node, e) && BodyAbove(d, node, 0)
    requires s.path == [Type("body")] + ([Step(d, node)] + Below(d, e, node)) && AllSpelled(s.path)
    ensures PathMatches(d, s.path, false, e)
  {
    var head := [Type("body"), Step(d, node)];
    var b: nat :| b < node && IsBody(d, b) && Ancestor(d, b, node);
    assert s.path == head + Below(d, e, node);
    assert Spelled(s.path[0]) && Spelled(s.path[1]);
    StepBelow(d, [Type("body")], b, Step(d, node), node);
    assert [Type("body")] + [Step(d, node)] == head;
    PathFindsItsElement(d, head, false, e, node);
  }

  lemma StepBelow(d: Document, path: seq<Simple>, y: nat, s: Simple, x: nat)
    requires Valid(d) && y < x < |d.elements| && Ancestor(d, y, x)
    requires PathMatches(d, path, false, y) && SimpleMatches(d, s, x)
    ensures PathMatches(d, path + [s], false, x)
  {
    var longer := path + [s];
    assert longer[..|longer| - 1] == path;
    assert Above(d, false, y, x);
  }

  lemma {:induction false} BodyIsBelow(d: Document, e: nat, node: nat)
    requires Valid(d) && e < |d.elements| && AtOrAbove(d, node, e)
    requires node != 0 && AtOrUnder(d, d.body, e)
    ensures AtOrUnder(d, d.body, node)
    decreases e
  {
    assert !Ancestor(d, node, 0);
    if e != node && d.body == Some(e) {
      assert false;
    } else if e != node {
      BodyIsBelow(d, Parent(d, e), node);
    }
  }

  /** In any document a selector is always found for the body and everything
      under it, and whatever is found names the element asked for exactly when
      a selector can hold its tags and it starts at an id, or a body is above
      the top of its descendant steps, or no other body has an element at the
      path its child steps take. */
  lemma PickedNamesOne(d: Document, e: nat)
    requires Valid(d) && e < |d.elements|
    ensures match SelectorFor(d, e)
            case None => !AtOrUnder(d, d.body, e)
            case Some(s) =>
              && s.path != []
              && (s.path[0].Id? || s.child || |s.path| >= 2)
              && (Names(d, s, e) <==>
                    AllSpelled(s.path)
                    && (s.path[0].Id? || if s.child then !TwinElsewhere(d, e) else BodyAbove(d, e, |s.path| - 2)))
              && (AtOrUnder(d, d.body, e) && !s.child ==> Names(d, s, e))
  {
    assert Below(d, e, e) == [];
    if ById(d, e).Some? {
      var s := Selector([ById(d, e).value], false);
      AnIdNamesItsElement(d, e, false);
      assert Matches(d, s, e);
      MatchedIsSpelled(d, s.path, false, e);
    } else {
      ShortestNamesOne(d, e, e);
      ExactNamesOne(d, e, e);
    }
  }

  /** With a single body: one that starts at the body names the element exactly
      when the element is under it. */
  lemma PickedInOneBody(d: Document, e: nat)
    requires Valid(d) && SingleBody(d) && e < |d.elements| && SelectorFor(d, e).Some?
    ensures var s := SelectorFor(d, e).value;
            && s.path != []
            && (Names(d, s, e) <==> AllSpelled(s.path) && (s.path[0].Id? || AtOrUnder(d, d.body, e)))
  {
    var s := SelectorFor(d, e).value;
    PickedNamesOne(d, e);
    if !s.path[0].Id? {
      if s.child {
        assert Below(d, e, e) == [];
        ShortestNamesOne(d, e, e);
        ExactNamesOne(d, e, e);
        assert !TwinElsewhere(d, e);
      } else {
        if BodyAbove(d, e, |s.path| - 2) {
          UnderTheOneBody(d, e, |s.path| - 2);
        }
        if Names(d, s, e) {
          MatchedIsSpelled(d, s.path, false, e);
        }
      }
    }
  }

  lemma {:induction false} UnderTheOneBody(d: Document, x: nat, k: nat)
    requires Valid(d) && SingleBody(d) && x < |d.elements| && BodyAbove(d, x, k)
    ensures AtOrUnder(d, d.body, x)
    decreases k
  {
    if k > 0 {
      UnderTheOneBody(d, Parent(d, x), k - 1);
    }
  }

  function FromBody(d: Document, e: nat, node: nat): Selector
    requires Valid(d) && e < |d.elements| && AtOrAbove(d, node, e)
  {
    Selector([Type("body")] + ([Step(d, node)] + Below(d, e, node)), false)
  }

  /** The descendant walk stops as early as it can: below the top it used there
      is no id to start at, and no shorter path that matches one element. */
  lemma {:induction false} StopsAtTheFirst(d: Document, e: nat, node: nat, s: Selector) returns (top: nat)
    requires Valid(d) && e < |d.elements| && AtOrAbove(d, node, e)
    requires ShortestFrom(d, node, Below(d, e, node)) == Some(s)
    ensures top < |d.elements| && (top == node || Ancestor(d, top, node)) && AtOrAbove(d, top, e)
    ensures s == if ById(d, top).Some? then Selector([ById(d, top).value] + Below(d, e, top), false)
                 else FromBody(d, e, top)
    ensures forall lower: nat ::
              lower < |d.elements| && (lower == node || Ancestor(d, lower, node)) && Ancestor(d, top, lower)
              && AtOrAbove(d, lower, e) ==>
              ById(d, lower).None? && !Unique(d, FromBody(d, e, lower))
    decreases node
  {
    if ById(d, node).Some? || Unique(d, FromBody(d, e, node)) {
      top := node;
      forall lower: nat | lower < |d.elements| && (lower == node || Ancestor(d, lower, node)) && Ancestor(d, top, lower)
        ensures false
      {
        AncestorIsEarlier(d, top, lower);
        if lower != node {
          AncestorIsEarlier(d, lower, node);
        }
      }
    } else {
      OneStepUp(d, e, node);
      top := StopsAtTheFirst(d, e, Parent(d, node), s);
    }
  }

  // ---- What the parts come to ----

  predicate WordChar(c: char) {
    c in SMALL || c in CAPITALS || c in DIGITS || c == '_' || c == '-'
  }

  /** An id that needs no escaping: letters, digits, hyphens and underscores,
      and no digit first. */
  predicate Unescaped(id: string) {
    && id != [] && id[0] !in DIGITS
    && forall i :: 0 <= i < |id| ==> WordChar(id[i])
  }

  lemma PlainIdIff(id: string)
    ensures PlainId(id) <==> Unescaped(id)
  {
    forall i | 0 <= i < |id|
      ensures (NameChar(id[i]) && id[i] as int < 128) <==> WordChar(id[i])
      ensures WordChar(id[i]) ==> (Letter(id[i]) || id[i] == '-' <==> id[i] !in DIGITS)
    {
      AlphabetIff(id[i]);
    }
  }

  /** An element is named by its id exactly when the id needs no escaping, is a
      name as a style sheet has it, and no other element has it. */
  lemma ByIdExactlyWhen(d: Document, x: nat)
    requires Valid(d) && x < |d.elements|
    ensures var id := d.elements[x].id;
            ById(d, x) ==
            if Unescaped(id) && Identifier(id)
               && forall y: nat :: y < |d.elements| && d.elements[y].id == id ==> y == x
            then Some(Id(id)) else None
  {
    var id := d.elements[x].id;
    PlainIdIff(id);
    var s := Selector([Id(id)], false);
    assert forall y: nat :: y < |d.elements| ==> (Matches(d, s, y) <==> Identifier(id) && d.elements[y].id == id);
    if Identifier(id) && forall y: nat :: y < |d.elements| && d.elements[y].id == id ==> y == x {
      assert Matches(d, s, x) && Names(d, s, x);
    }
    if Unique(d, s) {
      var y: nat :| y < |d.elements| && Names(d, s, y);
      assert Matches(d, s, y) && Matches(d, s, x);
    }
  }

  /** Its own and every earlier sibling of the same tag. */
  function Alike(d: Document, x: nat, k: nat): set<nat>
    requires x < |d.elements| && k <= |d.elements|
  {
    set y: nat | y < k && d.elements[y].parent == d.elements[x].parent && d.elements[y].tag == d.elements[x].tag
  }

  lemma {:induction false} CountIsHowMany(d: Document, x: nat, k: nat)
    requires x < |d.elements| && k <= |d.elements|
    ensures CountBefore(d, d.elements[x].parent, d.elements[x].tag, k) == |Alike(d, x, k)|
  {
    if k == 0 {
      assert Alike(d, x, 0) == {};
    } else {
      CountIsHowMany(d, x, k - 1);
      var last := d.elements[k - 1];
      if last.parent == d.elements[x].parent && last.tag == d.elements[x].tag {
        assert Alike(d, x, k) == Alike(d, x, k - 1) + {k - 1};
      } else {
        assert Alike(d, x, k) == Alike(d, x, k - 1);
      }
    }
  }

  /** The place is how many siblings of the tag there are up to and including
      the element. */
  lemma PositionCounts(d: Document, x: nat)
    requires x < |d.elements|
    ensures Position(d, x) == |Alike(d, x, x + 1)|
  {
    CountIsHowMany(d, x, x + 1);
  }

  /** `x` is climbed to from `node` without passing an id, the body or the root. */
  predicate ClimbsTo(d: Document, node: nat, x: nat)
    requires Valid(d) && node < |d.elements|
    decreases node
  {
    && node != 0 && d.body != Some(node) && ById(d, node).None?
    && (x == node || ClimbsTo(d, Parent(d, node), x))
  }

  lemma {:induction false} ClimbedIsAbove(d: Document, node: nat, x: nat)
    requires Valid(d) && node < |d.elements| && ClimbsTo(d, node, x)
    ensures AtOrAbove(d, x, node)
    decreases node
  {
    if x != node {
      ClimbedIsAbove(d, Parent(d, node), x);
    }
  }

  lemma {:induction false} NothingShorter(d: Document, e: nat, node: nat, x: nat)
    requires Valid(d) && e < |d.elements| && AtOrAbove(d, node, e)
    requires ShortestFrom(d, node, Below(d, e, node)) == None && ClimbsTo(d, node, x)
    ensures AtOrAbove(d, x, e) && !Unique(d, FromBody(d, e, x))
    decreases node
  {
    if x != node {
      OneStepUp(d, e, node);
      NothingShorter(d, e, Parent(d, node), x);
    }
  }

  /** An id of its own comes first; child steps come last, only when no path of
      descendant steps would have done. */
  lemma PicksInOrder(d: Document, e: nat)
    requires Valid(d) && e < |d.elements|
    ensures ById(d, e).Some? ==> SelectorFor(d, e) == Some(Selector([Id(d.elements[e].id)], false))
    ensures SelectorFor(d, e).Some? && SelectorFor(d, e).value.child ==>
              forall x :: ClimbsTo(d, e, x) ==> AtOrAbove(d, x, e) && !Unique(d, FromBody(d, e, x))
  {
    assert Below(d, e, e) == [];
    if SelectorFor(d, e).Some? && SelectorFor(d, e).value.child {
      ShortestNamesOne(d, e, e);
      forall x | ClimbsTo(d, e, x) ensures AtOrAbove(d, x, e) && !Unique(d, FromBody(d, e, x)) {
        NothingShorter(d, e, e, x);
      }
    }
  }

  // ---- Where it does not hold ----

  /** A style in the head, and one in the body: the first is answered with a
      selector for the second. */
  lemma OutsideTheBodyAnotherIsNamed(d: Document, e: nat)
    requires d == Document([Element(None, "html", ""), Element(Some(0), "head", ""), Element(Some(1), "style", ""),
                            Element(Some(0), "body", ""), Element(Some(3), "style", "")], Some(3))
    requires e == 2
    ensures Valid(d) && SingleBody(d)
    ensures SelectorFor(d, e).Some? && !Matches(d, SelectorFor(d, e).value, e)
    ensures Names(d, SelectorFor(d, e).value, 4)
  {
    var body, style := Type("body"), Nth("style", 1);
    var s := Selector([body, style], false);
    FirstOfItsKind(d, 2);
    FirstOfItsKind(d, 4);
    assert Spelled(body) && Spelled(style);
    StepBelow(d, [body], 3, style, 4);
    assert [body] + [style] == s.path;
    forall x: nat | x < |d.elements| && Matches(d, s, x) ensures x == 4 {
      var y := HeadStandsAbove(d, s.path, false, x);
      assert IsBody(d, y);
      AncestorIsEarlier(d, y, x);
    }
    assert [body] + ([style] + []) == s.path;
    assert Names(d, s, 4);
    assert ShortestFrom(d, e, []) == Some(s);
  }

  /** A second body, which a script can add: a path from "the" body finds an
      element in each. */
  lemma TwoBodiesTwoElements(d: Document, e: nat)
    requires d == Document([Element(None, "html", ""), Element(Some(0), "body", ""), Element(Some(1), "div", ""),
                            Element(Some(0), "body", ""), Element(Some(3), "div", "")], Some(1))
    requires e == 2
    ensures Valid(d) && AtOrUnder(d, d.body, e)
    ensures SelectorFor(d, e).Some? && Matches(d, SelectorFor(d, e).value, e) && Matches(d, SelectorFor(d, e).value, 4)
  {
    var body, div := Type("body"), Nth("div", 1);
    assert Spelled(body) && Spelled(div);
    FirstOfItsKind(d, 2);
    FirstOfItsKind(d, 4);
    assert Step(d, 2) == div;
    var s, t := Selector([body, div], false), Selector([body, div], true);
    StepBelow(d, [body], 1, div, 2);
    StepBelow(d, [body], 3, div, 4);
    assert [body] + [div] == s.path;
    assert Matches(d, s, 2) && Matches(d, s, 4);
    assert [body] + ([div] + []) == s.path;
    assert ShortestFrom(d, e, []).None?;
    assert [div] + [] == [div];
    assert t.path[..|t.path| - 1] == [body];
    assert PathMatches(d, [body], true, 1) && PathMatches(d, [body], true, 3);
    assert Above(d, true, 1, 2) && Above(d, true, 3, 4);
    assert Matches(d, t, 2) && Matches(d, t, 4);
    assert ExactFrom(d, e, []) == Some(t);
  }

  lemma FirstOfItsKind(d: Document, x: nat)
    requires x < |d.elements|
    requires forall j :: 0 <= j < x ==> d.elements[j].parent != d.elements[x].parent
    ensures Position(d, x) == 1
  {
    StrangersDoNotCount(d, d.elements[x].parent, d.elements[x].tag, 0, x);
  }
}
