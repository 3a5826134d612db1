/** Header fields in the order they were sent. */
module Headers {
  import opened Wrappers
  import opened Text

  datatype Header = Header(name: string, value: string)

  predicate Is(h: Header, name: string) {
    EqIgnoreCase(h.name, name)
  }

  /** The value of the first field of that name. */
  function First(headers: seq<Header>, name: string): Option<string> {
    if headers == [] then None
    else if Is(headers[0], name) then Some(headers[0].value)
    else First(headers[1..], name)
  }

  predicate Has(headers: seq<Header>, name: string) {
    exists i :: 0 <= i < |headers| && Is(headers[i], name)
  }

  function Without(headers: seq<Header>, name: string): seq<Header> {
    if headers == [] then []
    else if Is(headers[0], name) then Without(headers[1..], name)
    else [headers[0]] + Without(headers[1..], name)
  }

  lemma {:induction false} FirstIffHas(headers: seq<Header>, name: string)
    ensures First(headers, name).Some? <==> Has(headers, name)
  {
    if headers != [] {
      FirstIffHas(headers[1..], name);
      assert forall i :: 0 < i < |headers| ==> headers[i] == headers[1..][i - 1];
      if Has(headers[1..], name) {
        var i :| 0 <= i < |headers[1..]| && Is(headers[1..][i], name);
        assert Is(headers[i + 1], name);
      }
    }
  }

  /** The first field of a name, however it is spelled. */
  predicate FirstAt(headers: seq<Header>, name: string, i: nat) {
    && i < |headers| && SpelledAlike(headers[i].name, name)
    && forall k :: 0 <= k < i ==> !SpelledAlike(headers[k].name, name)
  }

  /** That field is the one whose value is found; nothing is, just when there is
      no such field. */
  lemma {:induction false} FirstMeans(headers: seq<Header>, name: string) returns (at: Option<nat>)
    ensures match at
            case Some(i) => FirstAt(headers, name, i) && First(headers, name) == Some(headers[i].value)
            case None => First(headers, name) == None && forall k :: 0 <= k < |headers| ==> !SpelledAlike(headers[k].name, name)
  {
    if headers == [] {
      at := None;
    } else {
      IgnoringCase(headers[0].name, name);
      if Is(headers[0], name) {
        at := Some(0);
      } else {
        var later := FirstMeans(headers[1..], name);
        assert forall k :: 0 < k < |headers| ==> headers[k] == headers[1..][k - 1];
        at := if later.Some? then Some(later.value + 1) else None;
      }
    }
  }

  lemma FirstIs(headers: seq<Header>, name: string, i: nat)
    requires FirstAt(headers, name, i)
    ensures First(headers, name) == Some(headers[i].value)
  {
    var at := FirstMeans(headers, name);
  }

  lemma HasMeans(headers: seq<Header>, name: string)
    ensures Has(headers, name) <==> exists i :: 0 <= i < |headers| && SpelledAlike(headers[i].name, name)
  {
    forall i | 0 <= i < |headers| ensures Is(headers[i], name) <==> SpelledAlike(headers[i].name, name) {
      IgnoringCase(headers[i].name, name);
    }
    if i :| 0 <= i < |headers| && SpelledAlike(headers[i].name, name) {
      assert Is(headers[i], name);
    }
  }

  /** Every other field stays, and none of the name. */
  lemma {:induction false} WithoutMeans(headers: seq<Header>, name: string)
    ensures forall h :: h in Without(headers, name) <==> h in headers && !SpelledAlike(h.name, name)
    ensures |Without(headers, name)| <= |headers|
  {
    if headers != [] {
      WithoutMeans(headers[1..], name);
      IgnoringCase(headers[0].name, name);
      assert headers == [headers[0]] + headers[1..];
    }
  }
}
