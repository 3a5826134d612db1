/**
 Content codings around an interceptor: decoded before it, put back after it,
 and one applied that the origin left off. What a response means must survive
 all of it (sections 8.4 and 12.5.3 of RFC 9110).
 */
module Encoding {
  import opened Wrappers
  import opened Text
  import opened Headers

  type byte = x: int | 0 <= x < 256

  const ACCEPT_ENCODING := "accept-encoding"
  const CONTENT_ENCODING := "content-encoding"
  const CONTENT_TYPE := "content-type"
  const VARY := "vary"
  const IDENTITY := "identity"
  const X_GZIP := "x-gzip"
  const MIN_COMPRESSIBLE: nat := 1024

  const COMPRESSIBLE_TYPES: set<string> :=
    {"application/json", "application/javascript", "application/xml", "application/xhtml+xml",
     "application/rss+xml", "application/atom+xml", "application/manifest+json", "image/svg+xml"}

  datatype Coding = Gzip | Brotli {
    function Token(): string {
      if Gzip? then "gzip" else "br"
    }
  }

  /** In the order of preference. */
  const SUPPORTED: seq<Coding> := [Brotli, Gzip]

  function ParseCoding(token: string): Option<Coding> {
    var name := ToLower(Trim(token));
    if name == "gzip" || name == X_GZIP then Some(Gzip)
    else if name == "br" then Some(Brotli)
    else None
  }

  /** The compressors themselves: `plain` is what a client makes of coded
      bytes, `decompress` the same up to a limit on the result. */
  datatype Codec = Codec(
    compress: (Coding, seq<byte>) -> Option<seq<byte>>,
    decompress: (Coding, seq<byte>, nat) -> Option<seq<byte>>,
    plain: (Coding, seq<byte>) -> Option<seq<byte>>)

  ghost predicate Lawful(k: Codec) {
    && (forall c, x :: k.compress(c, x).Some? ==> k.plain(c, k.compress(c, x).value) == Some(x))
    && (forall c, b, limit :: k.decompress(c, b, limit).Some? ==> k.plain(c, b) == k.decompress(c, b, limit))
  }

  // ---- What the client accepts ----

  datatype Offer = Offer(name: string, wanted: bool)

  /** `zero` says which quality values are numbers no greater than zero. */
  function ParseOffer(entry: string, zero: string -> bool): Option<Offer> {
    var parts := Split(entry, ';');
    var name := ToLower(Trim(parts[0]));
    if name == [] then None
    else Some(Offer(name, !exists i :: 1 <= i < |parts| && Refuses(parts[i], zero)))
  }

  /** A parameter `q` whose value is zero or less. */
  predicate Refuses(param: string, zero: string -> bool) {
    var at := IndexOf(param, '=');
    EqIgnoreCase(Trim(param[..at]), "q") && zero(Trim(if at < |param| then param[at + 1..] else []))
  }

  function Offers(entries: seq<string>, zero: string -> bool): seq<Offer> {
    if entries == [] then []
    else
      var rest := Offers(entries[1..], zero);
      match ParseOffer(entries[0], zero)
      case None => rest
      case Some(o) => [o] + rest
  }

  function FindOffer(offers: seq<Offer>, name: string): Option<bool> {
    if offers == [] then None
    else if offers[0].name == name then Some(offers[0].wanted)
    else FindOffer(offers[1..], name)
  }

  predicate Accepts(offers: seq<Offer>, coding: string) {
    match FindOffer(offers, coding)
    case Some(wanted) => wanted
    case None => FindOffer(offers, "*") == Some(true)
  }

  function Offered(request: seq<Header>, zero: string -> bool): seq<Offer> {
    match First(request, ACCEPT_ENCODING)
    case None => []
    case Some(value) => Offers(Split(value, ','), zero)
  }

  function Negotiate(request: seq<Header>, zero: string -> bool): string {
    var offers := Offered(request, zero);
    var br, gzip := Accepts(offers, "br"), Accepts(offers, "gzip");
    if br && gzip then "br, gzip" else if br then "br" else if gzip then "gzip" else IDENTITY
  }

  // What the client accepts is said by all its fields together, as one list in
  // their order (section 5.3 of RFC 9110); `Offered` reads the first alone.

  function AllOffered(request: seq<Header>, zero: string -> bool): seq<Offer> {
    if request == [] then []
    else
      var mine := if Is(request[0], ACCEPT_ENCODING) then Offers(Split(request[0].value, ','), zero) else [];
      mine + AllOffered(request[1..], zero)
  }

  /** What the fields after the first say. */
  function LaterOffered(request: seq<Header>, zero: string -> bool): seq<Offer> {
    if request == [] then []
    else if Is(request[0], ACCEPT_ENCODING) then AllOffered(request[1..], zero)
    else LaterOffered(request[1..], zero)
  }

  /** The names an entry may give a coding (section 8.4.1.3 of RFC 9110). */
  predicate Means(name: string, c: Coding) {
    name == c.Token() || (c.Gzip? && name == X_GZIP)
  }

  /** Asked for by its token and not refused, or not named so and everything
      else is welcome: what the code goes by. */
  ghost predicate WelcomeByToken(offers: seq<Offer>, c: Coding) {
    || (exists i :: 0 <= i < |offers| && offers[i] == Offer(c.Token(), true)
                    && forall k :: 0 <= k < i ==> offers[k].name != c.Token())
    || ((forall i :: 0 <= i < |offers| ==> offers[i].name != c.Token())
        && exists i :: 0 <= i < |offers| && offers[i] == Offer("*", true)
                       && forall k :: 0 <= k < i ==> offers[k].name != "*")
  }

  /** Asked for under any of its names and not refused, or not named at all and
      everything else is welcome. */
  ghost predicate WelcomeIn(offers: seq<Offer>, c: Coding) {
    || (exists i :: 0 <= i < |offers| && Means(offers[i].name, c) && offers[i].wanted
                    && forall k :: 0 <= k < i ==> !Means(offers[k].name, c))
    || ((forall i :: 0 <= i < |offers| ==> !Means(offers[i].name, c))
        && exists i :: 0 <= i < |offers| && offers[i] == Offer("*", true)
                       && forall k :: 0 <= k < i ==> offers[k].name != "*")
  }

  /** A coding the client takes. */
  ghost predicate Welcome(request: seq<Header>, c: Coding, zero: string -> bool) {
    WelcomeIn(AllOffered(request, zero), c)
  }

  /** Entry `i` is the first to name the coding and refuses it, where the code
      does not look: past the first `read` entries, or under another name. */
  predicate RefusedAt(offers: seq<Offer>, read: nat, c: Coding, i: nat) {
    && i < |offers| && Means(offers[i].name, c) && !offers[i].wanted
    && (forall k :: 0 <= k < i ==> !Means(offers[k].name, c))
    && (i >= read || offers[i].name != c.Token())
  }

  ghost predicate RefusedUnread(request: seq<Header>, c: Coding, zero: string -> bool) {
    exists i: nat :: RefusedAt(AllOffered(request, zero), |Offered(request, zero)|, c, i)
  }

  lemma {:induction false} FindsTheFirst(offers: seq<Offer>, name: string)
    ensures FindOffer(offers, name).None? <==> forall i :: 0 <= i < |offers| ==> offers[i].name != name
    ensures FindOffer(offers, name) == Some(true) <==>
            exists i :: 0 <= i < |offers| && offers[i] == Offer(name, true)
                        && forall k :: 0 <= k < i ==> offers[k].name != name
  {
    if offers != [] {
      var rest := offers[1..];
      FindsTheFirst(rest, name);
      assert forall i :: 0 < i < |offers| ==> offers[i] == rest[i - 1];
      if offers[0].name != name && FindOffer(rest, name) == Some(true) {
        var i :| 0 <= i < |rest| && rest[i] == Offer(name, true) && forall k :: 0 <= k < i ==> rest[k].name != name;
        assert offers[i + 1] == Offer(name, true) && forall k :: 0 <= k < i + 1 ==> offers[k].name != name;
      }
    }
  }

  lemma AcceptsIffWelcome(offers: seq<Offer>, c: Coding)
    ensures Accepts(offers, c.Token()) <==> WelcomeByToken(offers, c)
  {
    FindsTheFirst(offers, c.Token());
    FindsTheFirst(offers, "*");
  }

  /** The first entry that names the coding, if any does. */
  lemma {:induction false} FirstMeant(offers: seq<Offer>, c: Coding) returns (at: Option<nat>)
    ensures match at
            case None => forall i :: 0 <= i < |offers| ==> !Means(offers[i].name, c)
            case Some(i) => i < |offers| && Means(offers[i].name, c)
                            && forall k :: 0 <= k < i ==> !Means(offers[k].name, c)
  {
    if offers == [] {
      at := None;
    } else if Means(offers[0].name, c) {
      at := Some(0);
    } else {
      var later := FirstMeant(offers[1..], c);
      assert forall i :: 0 < i < |offers| ==> offers[i] == offers[1..][i - 1];
      at := if later.Some? then Some(later.value + 1) else None;
    }
  }

  lemma {:induction false} FirstThenLater(request: seq<Header>, zero: string -> bool)
    ensures AllOffered(request, zero) == Offered(request, zero) + LaterOffered(request, zero)
  {
    if request != [] && !Is(request[0], ACCEPT_ENCODING) {
      FirstThenLater(request[1..], zero);
    }
  }

  lemma {:induction false} FindInEither(a: seq<Offer>, b: seq<Offer>, name: string)
    ensures FindOffer(a + b, name) == if FindOffer(a, name).Some? then FindOffer(a, name) else FindOffer(b, name)
  {
    if a == [] {
      assert a + b == b;
    } else {
      assert (a + b)[1..] == a[1..] + b;
      FindInEither(a[1..], b, name);
    }
  }

  lemma {:induction false} OffersJoin(a: seq<string>, b: seq<string>, zero: string -> bool)
    ensures Offers(a + b, zero) == Offers(a, zero) + Offers(b, zero)
  {
    if a == [] {
      assert a + b == b;
    } else {
      assert (a + b)[1..] == a[1..] + b;
      OffersJoin(a[1..], b, zero);
    }
  }

  /** Two fields say what one with their values behind each other would. */
  lemma FieldsCombine(one: Header, other: Header, joined: Header, zero: string -> bool)
    requires Is(one, ACCEPT_ENCODING) && Is(other, ACCEPT_ENCODING) && Is(joined, ACCEPT_ENCODING)
    requires joined.value == one.value + ([','] + other.value)
    ensures AllOffered([one, other], zero) == AllOffered([joined], zero) == Offered([joined], zero)
  {
    SplitJoins(one.value, other.value, ',');
    OffersJoin(Split(one.value, ','), Split(other.value, ','), zero);
    assert [one, other][1..] == [other] && [other][1..] == [] && [joined][1..] == [];
    assert AllOffered([], zero) == [];
  }

  /** What a compression step would use: the first name of what was negotiated. */
  function Chosen(request: seq<Header>, zero: string -> bool): Option<Coding> {
    ParseCoding(Split(Negotiate(request, zero), ',')[0])
  }

  /** The first name of a list of coding names. */
  lemma FirstNamed(c: Coding)
    ensures ParseCoding(c.Token()) == Some(c)
  {
    NothingToTrim(c.Token());
    if c.Gzip? {
      assert ToLower("gzip") == "gzip";
    } else {
      assert ToLower("br") == "br";
    }
  }

  lemma NoneNamed()
    ensures ParseCoding(Split(IDENTITY, ',')[0]) == None
  {
    SplitPlain(IDENTITY, ',');
    NotACoding(IDENTITY);
  }

  lemma NotACoding(name: string)
    requires |name| == 8 && !IsSpace(name[0]) && !IsSpace(name[7])
    requires name[0] == 'i'
    ensures ParseCoding(name) == None
  {
    NothingToTrim(name);
    assert ToLower(name)[0] == 'i';
  }

  lemma NegotiatedNames()
    ensures ParseCoding(Split("br, gzip", ',')[0]) == Some(Brotli)
    ensures ParseCoding(Split("br", ',')[0]) == Some(Brotli)
    ensures ParseCoding(Split("gzip", ',')[0]) == Some(Gzip)
    ensures ParseCoding(Split(IDENTITY, ',')[0]) == None
  {
    assert Split("br, gzip", ',')[0] == "br";
    assert Split("br", ',')[0] == "br";
    assert Split("gzip", ',')[0] == "gzip";
    FirstNamed(Brotli);
    FirstNamed(Gzip);
    NoneNamed();
  }

  lemma ChosenFollowsTokens(request: seq<Header>, zero: string -> bool)
    ensures Chosen(request, zero) ==
            if Accepts(Offered(request, zero), "br") then Some(Brotli)
            else if Accepts(Offered(request, zero), "gzip") then Some(Gzip)
            else None
  {
    NegotiatedNames();
  }

  /** What is asked of the origin: every coding accepted by its token that we
      have, the preferred one first, or none. */
  lemma NegotiatesExactly(request: seq<Header>, zero: string -> bool)
    ensures var offers := Offered(request, zero);
            Negotiate(request, zero) ==
            if WelcomeByToken(offers, Brotli) && WelcomeByToken(offers, Gzip) then "br, gzip"
            else if WelcomeByToken(offers, Brotli) then "br"
            else if WelcomeByToken(offers, Gzip) then "gzip"
            else "identity"
  {
    AcceptsIffWelcome(Offered(request, zero), Brotli);
    AcceptsIffWelcome(Offered(request, zero), Gzip);
  }

  /** A coding accepted by its token in the first entries of a list is accepted
      by the whole list unless its first mention refuses it, and then that is a
      later entry or another name. */
  lemma WelcomeUnlessRefused(first: seq<Offer>, later: seq<Offer>, c: Coding)
    requires WelcomeByToken(first, c)
    ensures WelcomeIn(first + later, c) <==> !exists i: nat :: RefusedAt(first + later, |first|, c, i)
  {
    var all := first + later;
    var at := FirstMeant(all, c);
    assert forall i :: 0 <= i < |first| ==> all[i] == first[i];
    if at.None? {
      StarStays(first, later, c);
    } else if all[at.value].wanted {
      assert WelcomeIn(all, c);
    } else {
      var i := at.value;
      RefusedByAnotherName(first, c, i);
      assert RefusedAt(all, |first|, c, i);
      assert !WelcomeIn(all, c);
    }
  }

  lemma RefusedByAnotherName(first: seq<Offer>, c: Coding, i: nat)
    requires WelcomeByToken(first, c)
    requires i < |first| ==> !first[i].wanted && forall k :: 0 <= k < i ==> !Means(first[k].name, c)
    ensures i >= |first| || first[i].name != c.Token()
  {
  }

  lemma StarStays(first: seq<Offer>, later: seq<Offer>, c: Coding)
    requires WelcomeByToken(first, c)
    requires forall i :: 0 <= i < |first + later| ==> !Means((first + later)[i].name, c)
    ensures WelcomeIn(first + later, c)
  {
    var all := first + later;
    assert forall i :: 0 <= i < |first| ==> all[i] == first[i];
    var i :| 0 <= i < |first| && first[i] == Offer("*", true) && forall k :: 0 <= k < i ==> first[k].name != "*";
    assert all[i] == Offer("*", true);
  }

  /** What was negotiated follows the tokens of the first field; and the coding
      chosen is one the client takes exactly when the first entry to name it
      does not refuse it in a later field, or under another name. */
  lemma ChosenIsWelcomeIff(request: seq<Header>, zero: string -> bool)
    ensures match Chosen(request, zero)
            case Some(c) =>
              && WelcomeByToken(Offered(request, zero), c)
              && (c.Gzip? ==> !WelcomeByToken(Offered(request, zero), Brotli))
              && (Welcome(request, c, zero) <==> !RefusedUnread(request, c, zero))
            case None =>
              !WelcomeByToken(Offered(request, zero), Brotli) && !WelcomeByToken(Offered(request, zero), Gzip)
  {
    ChosenFollowsTokens(request, zero);
    var first, later := Offered(request, zero), LaterOffered(request, zero);
    AcceptsIffWelcome(first, Brotli);
    AcceptsIffWelcome(first, Gzip);
    if Chosen(request, zero).Some? {
      FirstThenLater(request, zero);
      WelcomeUnlessRefused(first, later, Chosen(request, zero).value);
    }
  }

  /** With one field, and gzip called only that, the coding chosen is the
      preferred one the client takes, and none is chosen exactly when it takes
      none we can produce. */
  lemma ChosenIsWelcome(request: seq<Header>, zero: string -> bool)
    requires LaterOffered(request, zero) == []
    requires forall i :: 0 <= i < |Offered(request, zero)| ==> Offered(request, zero)[i].name != X_GZIP
    ensures match Chosen(request, zero)
            case Some(c) => Welcome(request, c, zero) && (c.Gzip? ==> !Welcome(request, Brotli, zero))
            case None => !Welcome(request, Brotli, zero) && !Welcome(request, Gzip, zero)
  {
    ChosenIsWelcomeIff(request, zero);
    FirstThenLater(request, zero);
    assert AllOffered(request, zero) == Offered(request, zero);
    OneNameOnly(Offered(request, zero), Brotli);
    OneNameOnly(Offered(request, zero), Gzip);
  }

  lemma OneNameOnly(offers: seq<Offer>, c: Coding)
    requires forall i :: 0 <= i < |offers| ==> offers[i].name != X_GZIP
    ensures WelcomeIn(offers, c) <==> WelcomeByToken(offers, c)
  {
    assert forall i :: 0 <= i < |offers| ==> (Means(offers[i].name, c) <==> offers[i].name == c.Token());
    if WelcomeIn(offers, c) {
      if i :| 0 <= i < |offers| && Means(offers[i].name, c) && offers[i].wanted
              && forall k :: 0 <= k < i ==> !Means(offers[k].name, c) {
        assert offers[i] == Offer(c.Token(), true);
      }
    }
  }

  /** Anything in one field, and brotli refused in the next: brotli it is. */
  lemma ALaterRefusalIsMissed(zero: string -> bool)
    requires zero("0")
    ensures var request := [Header(ACCEPT_ENCODING, "*"), Header(ACCEPT_ENCODING, "br;q=0")];
            Chosen(request, zero) == Some(Brotli) && !Welcome(request, Brotli, zero)
  {
    var request := [Header(ACCEPT_ENCODING, "*"), Header(ACCEPT_ENCODING, "br;q=0")];
    AnythingOffered(zero);
    BrotliRefused(zero);
    assert request[1..] == [request[1]] && request[1..][1..] == [];
    assert AllOffered([], zero) == [];
    var first, later := Offered(request, zero), LaterOffered(request, zero);
    assert first == [Offer("*", true)];
    assert later == [Offer("br", false)] + AllOffered([], zero);
    assert later == [Offer("br", false)];
    assert FindOffer(first[1..], "br") == None;
    ChosenFollowsTokens(request, zero);
    assert Accepts(first, "br");
    FirstThenLater(request, zero);
    assert RefusedAt(first + later, 1, Brotli, 1);
    ChosenIsWelcomeIff(request, zero);
  }

  /** Brotli refused, gzip refused under its old name, anything else: gzip. */
  lemma AnAliasRefusalIsMissed(zero: string -> bool)
    requires zero("0")
    ensures var request := [Header(ACCEPT_ENCODING, "br;q=0" + ([','] + ("x-gzip;q=0" + ([','] + "*"))))];
            Chosen(request, zero) == Some(Gzip) && !Welcome(request, Gzip, zero)
  {
    ThreeOffered(zero);
    AliasUnread("br;q=0" + ([','] + ("x-gzip;q=0" + ([','] + "*"))), zero);
  }

  lemma AliasUnread(value: string, zero: string -> bool)
    requires Offers(Split(value, ','), zero) == [Offer("br", false), Offer(X_GZIP, false), Offer("*", true)]
    ensures var request := [Header(ACCEPT_ENCODING, value)];
            Chosen(request, zero) == Some(Gzip) && !Welcome(request, Gzip, zero)
  {
    var request := [Header(ACCEPT_ENCODING, value)];
    OneField(request[0], zero);
    ByTokenOnly(Offered(request, zero));
    ChosenFollowsTokens(request, zero);
    NotUnderAnyName(AllOffered(request, zero));
  }

  lemma NotUnderAnyName(offers: seq<Offer>)
    requires offers == [Offer("br", false), Offer(X_GZIP, false), Offer("*", true)]
    ensures !WelcomeIn(offers, Gzip)
  {
    assert Means(offers[1].name, Gzip) && !Means(offers[0].name, Gzip);
  }

  lemma OneField(h: Header, zero: string -> bool)
    requires Is(h, ACCEPT_ENCODING)
    ensures Offered([h], zero) == AllOffered([h], zero) == Offers(Split(h.value, ','), zero)
  {
    assert [h][1..] == [] && AllOffered([], zero) == [];
    var offers := Offers(Split(h.value, ','), zero);
    assert offers + [] == offers;
  }

  lemma ByTokenOnly(offers: seq<Offer>)
    requires offers == [Offer("br", false), Offer(X_GZIP, false), Offer("*", true)]
    ensures !Accepts(offers, "br") && Accepts(offers, "gzip")
  {
    FindsTheFirst(offers, "gzip");
    assert FindOffer(offers, "gzip") == None;
    assert offers[1..][1..] == [Offer("*", true)];
    assert FindOffer(offers[1..][1..], "*") == Some(true);
    assert FindOffer(offers[1..], "*") == Some(true);
  }

  lemma ThreeOffered(zero: string -> bool)
    requires zero("0")
    ensures Offers(Split("br;q=0" + ([','] + ("x-gzip;q=0" + ([','] + "*"))), ','), zero) ==
            [Offer("br", false), Offer(X_GZIP, false), Offer("*", true)]
  {
    BrotliRefused(zero);
    GzipRefused(zero);
    AnythingOffered(zero);
    SplitJoins("x-gzip;q=0", "*", ',');
    SplitJoins("br;q=0", "x-gzip;q=0" + ([','] + "*"), ',');
    OffersJoin(Split("x-gzip;q=0", ','), Split("*", ','), zero);
    OffersJoin(Split("br;q=0", ','), Split("x-gzip;q=0", ',') + Split("*", ','), zero);
  }

  lemma GzipRefused(zero: string -> bool)
    requires zero("0")
    ensures Offers(Split("x-gzip;q=0", ','), zero) == [Offer(X_GZIP, false)]
  {
    NothingToTrim(X_GZIP);
    assert ToLower(X_GZIP) == X_GZIP;
    ZeroRefuses(zero);
    RefusalRead(X_GZIP, "q=0", zero);
    assert "x-gzip;q=0" == X_GZIP + ([';'] + "q=0");
  }

  lemma AnythingOffered(zero: string -> bool)
    ensures Offers(Split("*", ','), zero) == [Offer("*", true)]
  {
    SplitPlain("*", ',');
    OneOffer("*", zero);
    SplitPlain("*", ';');
    NothingToTrim("*");
    assert ToLower("*") == "*";
  }

  lemma OneOffer(entry: string, zero: string -> bool)
    ensures Offers([entry], zero) == match ParseOffer(entry, zero) case None => [] case Some(o) => [o]
  {
    assert [entry][1..] == [];
    assert Offers([], zero) == [];
  }

  lemma BrotliRefused(zero: string -> bool)
    requires zero("0")
    ensures Offers(Split("br;q=0", ','), zero) == [Offer("br", false)]
  {
    NothingToTrim("br");
    assert ToLower("br") == "br";
    ZeroRefuses(zero);
    RefusalRead("br", "q=0", zero);
    assert "br;q=0" == "br" + ([';'] + "q=0");
  }

  lemma RefusalRead(name: string, param: string, zero: string -> bool)
    requires ',' !in name && ',' !in param && ';' !in name && ';' !in param
    requires name != [] && Trim(name) == name && Refuses(param, zero)
    ensures Offers(Split(name + ([';'] + param), ','), zero) == [Offer(ToLower(name), false)]
  {
    var entry := name + ([';'] + param);
    SplitPlain(entry, ',');
    OneOffer(entry, zero);
    SplitJoins(name, param, ';');
    SplitPlain(name, ';');
    SplitPlain(param, ';');
    assert Split(entry, ';')[0] == name && Split(entry, ';')[1] == param;
    assert ToLower(name) != [];
  }

  lemma ZeroRefuses(zero: string -> bool)
    requires zero("0")
    ensures Refuses("q=0", zero)
  {
    var param := "q=0";
    assert IndexOf(param, '=') == 1;
    assert param[..1] == "q" && param[2..] == "0";
    NothingToTrim("q");
    NothingToTrim("0");
  }

  // ---- What a response means ----

  /** The codings one field lists, empty elements aside. */
  function Listed(tokens: seq<string>): seq<string> {
    if tokens == [] then []
    else (if Trim(tokens[0]) == [] then [] else [tokens[0]]) + Listed(tokens[1..])
  }

  /** Every coding of a response in the order applied, over all its fields. */
  function Codings(headers: seq<Header>): seq<string> {
    if headers == [] then []
    else
      var mine := if Is(headers[0], CONTENT_ENCODING) then Listed(Split(headers[0].value, ',')) else [];
      mine + Codings(headers[1..])
  }

  /** Decoded bytes, or bytes nobody here can decode and what they are in. */
  datatype Meaning = Decoded(bytes: seq<byte>) | Coded(codings: seq<string>, body: seq<byte>)

  function Undone(codings: seq<string>, body: seq<byte>, k: Codec): Meaning {
    if codings == [] then Decoded(body)
    else
      var last := |codings| - 1;
      match ParseCoding(codings[last])
      case None => Coded(codings, body)
      case Some(c) =>
        match k.plain(c, body)
        case None => Coded(codings, body)
        case Some(inner) => Undone(codings[..last], inner, k)
  }

  function MeaningOf(headers: seq<Header>, body: seq<byte>, k: Codec): Meaning {
    Undone(Codings(headers), body, k)
  }

  // ---- The steps ----

  function Decode(headers: seq<Header>, body: seq<byte>, limit: nat, k: Codec)
    : (seq<Header>, seq<byte>, Option<Coding>)
  {
    match First(headers, CONTENT_ENCODING)
    case None => (headers, body, None)
    case Some(value) =>
      match ParseCoding(value)
      case None => (headers, body, None)
      case Some(c) =>
        match k.decompress(c, body, limit)
        case None => (headers, body, None)
        case Some(decoded) => (Without(headers, CONTENT_ENCODING), decoded, Some(c))
  }

  function Encode(headers: seq<Header>, body: seq<byte>, coding: Option<Coding>, k: Codec): (seq<Header>, seq<byte>) {
    match coding
    case None => (headers, body)
    case Some(c) =>
      match k.compress(c, body)
      case None => (headers, body)
      case Some(encoded) => (headers + [Header(CONTENT_ENCODING, c.Token())], encoded)
  }

  predicate Compressible(headers: seq<Header>) {
    match First(headers, CONTENT_TYPE)
    case None => false
    case Some(value) =>
      var media := ToLower(Trim(Split(value, ';')[0]));
      "text/" <= media || media in COMPRESSIBLE_TYPES
  }

  predicate NamesToken(value: string, token: string) {
    exists i :: 0 <= i < |Split(value, ',')| && EqIgnoreCase(Trim(Split(value, ',')[i]), token)
  }

  /** Adds to the first Vary field what it does not already name. */
  function VaryOn(headers: seq<Header>, token: string): seq<Header> {
    if headers == [] then [Header(VARY, token)]
    else if Is(headers[0], VARY) then
      if NamesToken(headers[0].value, token) then headers
      else [Header(headers[0].name, headers[0].value + ", " + token)] + headers[1..]
    else [headers[0]] + VaryOn(headers[1..], token)
  }

  /** The response is one to compress for this client. */
  predicate WorthIt(status: nat, headers: seq<Header>, body: seq<byte>, coding: Option<Coding>) {
    && coding.None? && !Has(headers, CONTENT_ENCODING)
    && |body| >= MIN_COMPRESSIBLE
    && status != 204 && status != 304
    && Compressible(headers)
  }

  function EnsureCompressed(request: seq<Header>, status: nat, headers: seq<Header>, body: seq<byte>,
                            coding: Option<Coding>, k: Codec, zero: string -> bool): (seq<Header>, seq<byte>)
  {
    if !WorthIt(status, headers, body, coding) then (headers, body)
    else match Chosen(request, zero)
      case None => (headers, body)
      case Some(c) =>
        match k.compress(c, body)
        case None => (headers, body)
        case Some(encoded) =>
          if |encoded| < |body|
          then (VaryOn(headers + [Header(CONTENT_ENCODING, c.Token())], ACCEPT_ENCODING), encoded)
          else (headers, body)
  }

  /** Around an interceptor that changes nothing. */
  function Pipeline(request: seq<Header>, status: nat, headers: seq<Header>, body: seq<byte>, limit: nat,
                    k: Codec, zero: string -> bool): (seq<Header>, seq<byte>)
  {
    var (h1, b1, coding) := Decode(headers, body, limit, k);
    var (h2, b2) := Encode(h1, b1, coding, k);
    EnsureCompressed(request, status, h2, b2, coding, k, zero)
  }

  /** The header list of a response, changed in place as it goes by. */
  class Response {
    const status: nat
    var headers: seq<Header>
    var body: seq<byte>

    constructor (status: nat, headers: seq<Header>, body: seq<byte>)
      ensures this.status == status && this.headers == headers && this.body == body
    {
      this.status, this.headers, this.body := status, headers, body;
    }

    method DecodeBody(limit: nat, k: Codec) returns (coding: Option<Coding>)
      modifies this
      ensures (headers, body, coding) == Decode(old(headers), old(body), limit, k)
    {
      var value := First(headers, CONTENT_ENCODING);
      if value.None? {
        return None;
      }
      coding := ParseCoding(value.value);
      if coding.None? {
        return None;
      }
      var decoded := k.decompress(coding.value, body, limit);
      if decoded.None? {
        return None;
      }
      headers := Without(headers, CONTENT_ENCODING);
      body := decoded.value;
    }

    method EncodeBody(coding: Option<Coding>, k: Codec)
      modifies this
      ensures (headers, body) == Encode(old(headers), old(body), coding, k)
    {
      if coding.None? {
        return;
      }
      var encoded := k.compress(coding.value, body);
      if encoded.Some? {
        headers := headers + [Header(CONTENT_ENCODING, coding.value.Token())];
        body := encoded.value;
      }
    }

    method AddVary(token: string)
      modifies this`headers
      ensures headers == VaryOn(old(headers), token)
    {
      var i := 0;
      while i < |headers| && !Is(headers[i], VARY)
        invariant 0 <= i <= |headers| && headers == old(headers)
        invariant VaryOn(old(headers), token) == headers[..i] + VaryOn(headers[i..], token)
      {
        VaryFurtherOn(headers, i, token);
        i := i + 1;
      }
      VaryHere(headers, i, token);
      if i == |headers| {
        headers := headers + [Header(VARY, token)];
      } else if !NamesToken(headers[i].value, token) {
        var field := headers[i];
        headers := headers[i := Header(field.name, field.value + ", " + token)];
      }
    }

    method Compress(request: seq<Header>, coding: Option<Coding>, k: Codec, zero: string -> bool)
      modifies this
      ensures (headers, body) ==
              EnsureCompressed(request, status, old(headers), old(body), coding, k, zero)
    {
      if !WorthIt(status, headers, body, coding) {
        return;
      }
      var chosen := Chosen(request, zero);
      if chosen.None? {
        return;
      }
      var encoded := k.compress(chosen.value, body);
      if encoded.Some? && |encoded.value| < |body| {
        headers := headers + [Header(CONTENT_ENCODING, chosen.value.Token())];
        AddVary(ACCEPT_ENCODING);
        body := encoded.value;
      }
    }
  }

  lemma VaryFurtherOn(headers: seq<Header>, i: nat, token: string)
    requires i < |headers| && !Is(headers[i], VARY)
    ensures headers[..i] + VaryOn(headers[i..], token) == headers[..i + 1] + VaryOn(headers[i + 1..], token)
  {
    assert headers[i..][0] == headers[i] && headers[i..][1..] == headers[i + 1..];
    assert headers[..i + 1] == headers[..i] + [headers[i]];
  }

  lemma VaryHere(headers: seq<Header>, i: nat, token: string)
    requires i <= |headers| && (i < |headers| ==> Is(headers[i], VARY))
    ensures headers[..i] + VaryOn(headers[i..], token) ==
            if i == |headers| then headers + [Header(VARY, token)]
            else if NamesToken(headers[i].value, token) then headers
            else headers[i := Header(headers[i].name, headers[i].value + ", " + token)]
  {
    if i == |headers| {
      assert headers[i..] == [] && headers[..i] == headers;
    } else {
      assert headers[i..][0] == headers[i] && headers[i..][1..] == headers[i + 1..];
      assert headers[..i] + headers[i..] == headers;
    }
  }

  // ---- Exactly when each step acts ----

  /** The codings by the names a field may give them. */
  predicate NamesCoding(value: string, c: Coding) {
    var name := Trim(value);
    match c
    case Gzip => SpelledAlike(name, "gzip") || SpelledAlike(name, "x-gzip")
    case Brotli => SpelledAlike(name, "br")
  }

  lemma ParseCodingIff(value: string, c: Coding)
    ensures ParseCoding(value) == Some(c) <==> NamesCoding(value, c)
  {
    IgnoringCase(Trim(value), "gzip");
    IgnoringCase(Trim(value), "x-gzip");
    IgnoringCase(Trim(value), "br");
    assert ToLower("gzip") == "gzip" && ToLower("x-gzip") == "x-gzip" && ToLower("br") == "br";
  }

  ghost predicate Decodable(headers: seq<Header>, body: seq<byte>, limit: nat, k: Codec, c: Coding) {
    && (exists i: nat :: FirstAt(headers, "content-encoding", i) && NamesCoding(headers[i].value, c))
    && k.decompress(c, body, limit).Some?
  }

  /** A body is decoded exactly when the first content-encoding field names a
      coding we know and it decompresses within the limit; then every such field
      goes and every other stays. Otherwise nothing changes. */
  lemma DecodesExactlyWhen(headers: seq<Header>, body: seq<byte>, limit: nat, k: Codec, c: Coding)
    ensures var (h, b, coding) := Decode(headers, body, limit, k);
            && (coding == Some(c) <==> Decodable(headers, body, limit, k, c))
            && (coding == Some(c) ==> Some(b) == k.decompress(c, body, limit))
            && (coding.Some? ==> forall f :: f in h <==> f in headers && !SpelledAlike(f.name, "content-encoding"))
            && (coding.None? ==> h == headers && b == body)
  {
    var at := FirstMeans(headers, "content-encoding");
    WithoutMeans(headers, "content-encoding");
    if at.Some? {
      ParseCodingIff(headers[at.value].value, c);
      OnlyOneFirst(headers, "content-encoding", at.value);
    }
  }

  lemma OnlyOneFirst(headers: seq<Header>, name: string, i: nat)
    requires FirstAt(headers, name, i)
    ensures forall k :: FirstAt(headers, name, k) ==> k == i
  {
  }

  /** What was decoded goes out in the same coding, said once, whenever the
      compressor manages. */
  lemma EncodesExactlyWhen(headers: seq<Header>, body: seq<byte>, coding: Option<Coding>, k: Codec)
    ensures Encode(headers, body, coding, k) ==
            if coding.Some? && k.compress(coding.value, body).Some?
            then (headers + [Header("content-encoding", if coding.value.Gzip? then "gzip" else "br")],
                  k.compress(coding.value, body).value)
            else (headers, body)
  {
  }

  /** A media type that gets smaller: text of any kind, or one of eight more. */
  predicate GetsSmaller(media: string) {
    || "text/" <= media
    || media in ["application/json", "application/javascript", "application/xml", "application/xhtml+xml",
                 "application/rss+xml", "application/atom+xml", "application/manifest+json", "image/svg+xml"]
  }

  /** Judged by what stands before any parameter. */
  ghost predicate SmallerByType(value: string) {
    exists n: nat :: MediaEnds(value, n) && GetsSmaller(ToLower(Trim(value[..n])))
  }

  predicate MediaEnds(value: string, n: nat) {
    n <= |value| && ';' !in value[..n] && (n < |value| ==> value[n] == ';')
  }

  lemma {:induction false} BeforeParameters(value: string) returns (n: nat)
    ensures MediaEnds(value, n) && Split(value, ';')[0] == value[..n]
    ensures forall m: nat :: MediaEnds(value, m) ==> m == n
  {
    if value == [] || value[0] == ';' {
      n := 0;
    } else {
      var later := BeforeParameters(value[1..]);
      n := later + 1;
      assert value[..n] == [value[0]] + value[1..][..later];
      forall m: nat | MediaEnds(value, m) ensures m == n {
        assert m > 0 && value[..m] == [value[0]] + value[1..][..m - 1];
        assert MediaEnds(value[1..], m - 1);
      }
    }
  }

  lemma CompressibleIff(headers: seq<Header>)
    ensures Compressible(headers) <==>
            exists i: nat :: FirstAt(headers, "content-type", i) && SmallerByType(headers[i].value)
  {
    var at := FirstMeans(headers, "content-type");
    if at.Some? {
      var n := BeforeParameters(headers[at.value].value);
      OnlyOneFirst(headers, "content-type", at.value);
    }
  }

  /** What is asked of a response before it is compressed for a client. */
  ghost predicate WantsCompressing(status: nat, headers: seq<Header>, body: seq<byte>, coding: Option<Coding>) {
    && coding == None
    && (forall i :: 0 <= i < |headers| ==> !SpelledAlike(headers[i].name, "content-encoding"))
    && |body| >= 1024 && status != 204 && status != 304
    && exists i: nat :: FirstAt(headers, "content-type", i) && SmallerByType(headers[i].value)
  }

  /** And that is all: a response is compressed exactly when it asks for it, the
      client takes a coding we have, and the body gets smaller. */
  lemma CompressesExactlyWhen(request: seq<Header>, status: nat, headers: seq<Header>, body: seq<byte>,
                              coding: Option<Coding>, k: Codec, zero: string -> bool)
    ensures var chosen := Chosen(request, zero);
            EnsureCompressed(request, status, headers, body, coding, k, zero) ==
            if WantsCompressing(status, headers, body, coding) && chosen.Some?
               && k.compress(chosen.value, body).Some? && |k.compress(chosen.value, body).value| < |body|
            then (VaryOn(headers + [Header("content-encoding", if chosen.value.Gzip? then "gzip" else "br")],
                         "accept-encoding"),
                  k.compress(chosen.value, body).value)
            else (headers, body)
  {
    CompressibleIff(headers);
    HasMeans(headers, "content-encoding");
  }

  /** The list of a Vary names the token, between commas and in any case. */
  predicate Varies(value: string, token: string) {
    exists i :: 0 <= i < |Split(value, ',')| && SpelledAlike(Trim(Split(value, ',')[i]), token)
  }

  lemma NamesTokenIff(value: string, token: string)
    ensures NamesToken(value, token) <==> Varies(value, token)
  {
    forall i | 0 <= i < |Split(value, ',')|
      ensures EqIgnoreCase(Trim(Split(value, ',')[i]), token) <==> SpelledAlike(Trim(Split(value, ',')[i]), token)
    {
      IgnoringCase(Trim(Split(value, ',')[i]), token);
    }
    if Varies(value, token) {
      var i :| 0 <= i < |Split(value, ',')| && SpelledAlike(Trim(Split(value, ',')[i]), token);
      assert EqIgnoreCase(Trim(Split(value, ',')[i]), token);
    }
  }

  /** Afterwards the response varies on the token, still on whatever it did, and
      no other field has changed. */
  lemma VaryMeans(headers: seq<Header>, token: string)
    requires ',' !in token && token != [] && !IsSpace(token[0]) && !IsSpace(token[|token| - 1])
    ensures var after := VaryOn(headers, token);
            || (after == headers && exists i: nat :: FirstAt(headers, "vary", i) && Varies(headers[i].value, token))
            || (exists i: nat :: FirstAt(headers, "vary", i) && !Varies(headers[i].value, token)
                  && after == headers[i := Header(headers[i].name, headers[i].value + ", " + token)]
                  && Varies(after[i].value, token)
                  && Split(headers[i].value, ',') <= Split(after[i].value, ','))
            || ((forall k :: 0 <= k < |headers| ==> !SpelledAlike(headers[k].name, "vary"))
                && after == headers + [Header("vary", token)])
  {
    var at := FirstMeans(headers, "vary");
    var i := if at.Some? then at.value else |headers|;
    forall k | 0 <= k < |headers| ensures Is(headers[k], "vary") <==> SpelledAlike(headers[k].name, "vary") {
      IgnoringCase(headers[k].name, "vary");
    }
    VaryWalks(headers, i, token);
    if at.Some? {
      NamesTokenIff(headers[i].value, token);
      AddedToken(headers[i].value, token);
    }
  }

  lemma {:induction false} VaryWalks(headers: seq<Header>, i: nat, token: string)
    requires i <= |headers| && (forall k :: 0 <= k < i ==> !Is(headers[k], VARY))
    requires i < |headers| ==> Is(headers[i], VARY)
    ensures VaryOn(headers, token) ==
            if i == |headers| then headers + [Header(VARY, token)]
            else if NamesToken(headers[i].value, token) then headers
            else headers[i := Header(headers[i].name, headers[i].value + ", " + token)]
  {
    VaryHere(headers, i, token);
    VaryBefore(headers, i, token);
  }

  lemma {:induction false} VaryBefore(headers: seq<Header>, i: nat, token: string)
    requires i <= |headers| && (forall k :: 0 <= k < i ==> !Is(headers[k], VARY))
    ensures VaryOn(headers, token) == headers[..i] + VaryOn(headers[i..], token)
  {
    if i == 0 {
      assert headers[0..] == headers;
    } else {
      VaryBefore(headers, i - 1, token);
      VaryFurtherOn(headers, i - 1, token);
    }
  }

  lemma AddedToken(value: string, token: string)
    requires ',' !in token && token != [] && !IsSpace(token[0]) && !IsSpace(token[|token| - 1])
    ensures Varies(value + ", " + token, token)
    ensures Split(value, ',') <= Split(value + ", " + token, ',')
  {
    AddedPart(value, token);
    SpaceTrimmed(token);
    LastVaries(value + ", " + token, Split(value, ','), [' '] + token, token);
  }

  lemma AddedPart(value: string, token: string)
    requires ',' !in token
    ensures Split(value + ", " + token, ',') == Split(value, ',') + [[' '] + token]
  {
    var spaced := [' '] + token;
    assert value + ", " + token == value + ([','] + spaced);
    SplitJoins(value, spaced, ',');
    SplitPlain(spaced, ',');
  }

  lemma LastVaries(value: string, parts: seq<string>, last: string, token: string)
    requires Split(value, ',') == parts + [last] && Trim(last) == token
    ensures Varies(value, token)
  {
    assert Split(value, ',')[|parts|] == last;
    assert SpelledAlike(token, token);
  }

  lemma SpaceTrimmed(token: string)
    requires token != [] && !IsSpace(token[0]) && !IsSpace(token[|token| - 1])
    ensures Trim([' '] + token) == token
  {
    assert ([' '] + token)[1..] == token;
    assert TrimStart([' '] + token) == TrimStart(token) == token;
  }

  // ---- How a client's list is read ----

  /** A parameter that refuses: `q`, in either case, with a value of nothing. */
  ghost predicate RefusesBy(param: string, zero: string -> bool) {
    || (exists n: nat :: KeyEnds(param, n) && n < |param|
                         && SpelledAlike(Trim(param[..n]), "q") && zero(Trim(param[n + 1..])))
    || ('=' !in param && SpelledAlike(Trim(param), "q") && zero([]))
  }

  predicate KeyEnds(param: string, n: nat) {
    n <= |param| && (forall k :: 0 <= k < n ==> param[k] != '=') && (n < |param| ==> param[n] == '=')
  }

  lemma RefusesIff(param: string, zero: string -> bool)
    ensures Refuses(param, zero) <==> RefusesBy(param, zero)
  {
    var at := IndexOf(param, '=');
    assert KeyEnds(param, at);
    assert forall n: nat :: KeyEnds(param, n) ==> n == at;
    IgnoringCase(Trim(param[..at]), "q");
    if at == |param| {
      assert param[..at] == param;
      assert Trim([]) == [];
    }
  }

  /** An entry is a name and parameters: no name, no entry; and one is wanted
      unless a parameter refuses it. */
  lemma EntryRead(name: string, params: seq<string>, zero: string -> bool)
    requires ';' !in name && forall i :: 0 <= i < |params| ==> ';' !in params[i]
    ensures ParseOffer(Join([name] + params, ';'), zero) ==
            if Trim(name) == [] then None
            else Some(Offer(ToLower(Trim(name)), forall i :: 0 <= i < |params| ==> !RefusesBy(params[i], zero)))
  {
    JoinedSplits([name] + params, ';');
    PartsRead(Join([name] + params, ';'), name, params, zero);
  }

  lemma PartsRead(entry: string, name: string, params: seq<string>, zero: string -> bool)
    requires Split(entry, ';') == [name] + params
    ensures ParseOffer(entry, zero) ==
            if Trim(name) == [] then None
            else Some(Offer(ToLower(Trim(name)), forall i :: 0 <= i < |params| ==> !RefusesBy(params[i], zero)))
  {
    AnyRefuses(Split(entry, ';'), params, zero);
    assert |ToLower(Trim(name))| == |Trim(name)|;
  }

  lemma AnyRefuses(parts: seq<string>, params: seq<string>, zero: string -> bool)
    requires |parts| == |params| + 1 && parts[1..] == params
    ensures (exists i :: 1 <= i < |parts| && Refuses(parts[i], zero)) <==>
            !forall i :: 0 <= i < |params| ==> !RefusesBy(params[i], zero)
  {
    forall i | 0 <= i < |params| ensures Refuses(parts[i + 1], zero) <==> RefusesBy(params[i], zero) {
      assert parts[i + 1] == params[i];
      RefusesIff(params[i], zero);
    }
    if i :| 0 <= i < |params| && RefusesBy(params[i], zero) {
      assert Refuses(parts[i + 1], zero);
    }
  }

  /** The list is that of the first accept-encoding field, however spelled. */
  lemma FirstFieldIsRead(request: seq<Header>, zero: string -> bool, i: nat)
    requires FirstAt(request, "accept-encoding", i)
    ensures Offered(request, zero) == Offers(Split(request[i].value, ','), zero)
  {
    FirstIs(request, "accept-encoding", i);
  }

  // ---- Meaning survives ----

  lemma {:induction false} CodingsAppend(headers: seq<Header>, h: Header)
    ensures Codings(headers + [h]) ==
            Codings(headers) + if Is(h, CONTENT_ENCODING) then Listed(Split(h.value, ',')) else []
  {
    if headers == [] {
      assert headers + [h] == [h];
    } else {
      assert (headers + [h])[1..] == headers[1..] + [h];
      CodingsAppend(headers[1..], h);
    }
  }

  lemma {:induction false} NoCodingsWithout(headers: seq<Header>)
    ensures Codings(Without(headers, CONTENT_ENCODING)) == []
    ensures !Has(headers, CONTENT_ENCODING) ==> Codings(headers) == []
  {
    if headers != [] {
      NoCodingsWithout(headers[1..]);
      assert Has(headers[1..], CONTENT_ENCODING) ==> Has(headers, CONTENT_ENCODING) by {
        if Has(headers[1..], CONTENT_ENCODING) {
          var i :| 0 <= i < |headers[1..]| && Is(headers[1..][i], CONTENT_ENCODING);
          assert Is(headers[i + 1], CONTENT_ENCODING);
        }
      }
      if Is(headers[0], CONTENT_ENCODING) {
        assert Has(headers, CONTENT_ENCODING);
      }
    }
  }

  /** A value that is one coding we know lists just that coding. */
  lemma KnownValueListsOne(value: string)
    requires ParseCoding(value).Some?
    ensures Listed(Split(value, ',')) == [value]
  {
    KnownHasNoComma(value);
    SplitPlain(value, ',');
    assert Trim(value) != [];
    assert [value][1..] == [];
  }

  lemma KnownHasNoComma(value: string)
    requires ParseCoding(value).Some?
    ensures ',' !in value && Trim(value) != []
  {
    var name := ToLower(Trim(value));
    forall i | 0 <= i < |Trim(value)| ensures Trim(value)[i] != ',' {
      assert name[i] == LowerChar(Trim(value)[i]);
    }
    TrimKeepsOthers(value, ',');
  }

  /** Trimming only takes space away. */
  lemma TrimKeepsOthers(s: string, c: char)
    requires !IsSpace(c) && c !in Trim(s)
    ensures c !in s
  {
    TrimEndKeeps(TrimStart(s), c);
    TrimStartKeeps(s, c);
  }

  lemma {:induction false} TrimStartKeeps(s: string, c: char)
    requires !IsSpace(c) && c !in TrimStart(s)
    ensures c !in s
  {
    if s != [] && IsSpace(s[0]) {
      TrimStartKeeps(s[1..], c);
      assert s == [s[0]] + s[1..];
    }
  }

  lemma {:induction false} TrimEndKeeps(s: string, c: char)
    requires !IsSpace(c) && c !in TrimEnd(s)
    ensures c !in s
  {
    if s != [] && IsSpace(s[|s| - 1]) {
      TrimEndKeeps(s[..|s| - 1], c);
      assert s == s[..|s| - 1] + [s[|s| - 1]];
    }
  }

  lemma TokensAreKnown(c: Coding)
    ensures ParseCoding(c.Token()) == Some(c)
    ensures Listed(Split(c.Token(), ',')) == [c.Token()]
  {
    FirstNamed(c);
    KnownValueListsOne(c.Token());
  }

  /** The first field's coding comes first among all of them. */
  lemma {:induction false} FirstCodingFirst(headers: seq<Header>)
    requires First(headers, CONTENT_ENCODING).Some?
    requires ParseCoding(First(headers, CONTENT_ENCODING).value).Some?
    ensures |Codings(headers)| >= 1
    ensures Codings(headers)[0] == First(headers, CONTENT_ENCODING).value
  {
    if Is(headers[0], CONTENT_ENCODING) {
      KnownValueListsOne(headers[0].value);
    } else {
      FirstCodingFirst(headers[1..]);
    }
  }

  /** No more than one coding in all the fields, or none we would undo. */
  predicate Undoable(headers: seq<Header>) {
    || First(headers, CONTENT_ENCODING).None?
    || ParseCoding(First(headers, CONTENT_ENCODING).value).None?
    || |Codings(headers)| == 1
  }

  lemma OneCodingUndone(value: string, c: Coding, body: seq<byte>, inner: seq<byte>, k: Codec)
    requires ParseCoding(value) == Some(c) && k.plain(c, body) == Some(inner)
    ensures Undone([value], body, k) == Decoded(inner)
  {
    assert [value][..0] == [];
  }

  lemma DecodeEncodeKeepsMeaning(headers: seq<Header>, body: seq<byte>, limit: nat, k: Codec)
    requires Lawful(k) && Undoable(headers)
    ensures var (h1, b1, coding) := Decode(headers, body, limit, k);
            var (h2, b2) := Encode(h1, b1, coding, k);
            && MeaningOf(h2, b2, k) == MeaningOf(headers, body, k)
            && (coding.Some? ==> MeaningOf(headers, body, k) == Decoded(b1) && !Has(h1, CONTENT_ENCODING))
            && (coding.None? ==> h2 == headers && b2 == body)
  {
    var (h1, b1, coding) := Decode(headers, body, limit, k);
    if coding.Some? {
      var c := coding.value;
      FirstCodingFirst(headers);
      var value := First(headers, CONTENT_ENCODING).value;
      assert Codings(headers) == [value];
      OneCodingUndone(value, c, body, b1, k);
      NoCodingsWithout(headers);
      NoneLeft(headers);
      match k.compress(c, b1)
      case None =>
      case Some(encoded) =>
        CodingsAppend(h1, Header(CONTENT_ENCODING, c.Token()));
        TokensAreKnown(c);
        assert Codings(h1 + [Header(CONTENT_ENCODING, c.Token())]) == [c.Token()];
        OneCodingUndone(c.Token(), c, encoded, b1, k);
    }
  }

  lemma {:induction false} NoneLeft(headers: seq<Header>)
    ensures !Has(Without(headers, CONTENT_ENCODING), CONTENT_ENCODING)
  {
    if headers != [] {
      NoneLeft(headers[1..]);
      var rest := Without(headers[1..], CONTENT_ENCODING);
      if !Is(headers[0], CONTENT_ENCODING) {
        assert forall i :: 0 < i < |[headers[0]] + rest| ==> ([headers[0]] + rest)[i] == rest[i - 1];
      }
    }
  }

  lemma VaryIsNotACoding()
    ensures !EqIgnoreCase(VARY, CONTENT_ENCODING)
  {
    assert |ToLower(VARY)| != |ToLower(CONTENT_ENCODING)|;
  }

  lemma {:induction false} VaryKeepsCodings(headers: seq<Header>, token: string)
    ensures Codings(VaryOn(headers, token)) == Codings(headers)
  {
    VaryIsNotACoding();
    if headers == [] {
      assert Codings([Header(VARY, token)]) == [] + Codings([]);
    } else if !Is(headers[0], VARY) {
      VaryKeepsCodings(headers[1..], token);
      assert ([headers[0]] + VaryOn(headers[1..], token))[1..] == VaryOn(headers[1..], token);
    } else if !NamesToken(headers[0].value, token) {
      var changed := [Header(headers[0].name, headers[0].value + ", " + token)] + headers[1..];
      assert changed[1..] == headers[1..];
      assert ToLower(headers[0].name) == ToLower(VARY);
    }
  }

  lemma CompressingKeepsMeaning(request: seq<Header>, status: nat, headers: seq<Header>, body: seq<byte>,
                                coding: Option<Coding>, k: Codec, zero: string -> bool)
    requires Lawful(k)
    ensures var (h, b) := EnsureCompressed(request, status, headers, body, coding, k, zero);
            && MeaningOf(h, b, k) == MeaningOf(headers, body, k)
            && |b| <= |body|
            && ((h, b) == (headers, body)
                || (coding.None? && Codings(headers) == []
                    && exists c: Coding :: Codings(h) == [c.Token()]
                                           && (Welcome(request, c, zero) <==> !RefusedUnread(request, c, zero))))
  {
    var (h, b) := EnsureCompressed(request, status, headers, body, coding, k, zero);
    if (h, b) != (headers, body) {
      var c := Chosen(request, zero).value;
      ChosenIsWelcomeIff(request, zero);
      NoCodingsWithout(headers);
      CodingsAppend(headers, Header(CONTENT_ENCODING, c.Token()));
      TokensAreKnown(c);
      VaryKeepsCodings(headers + [Header(CONTENT_ENCODING, c.Token())], ACCEPT_ENCODING);
      assert Codings(h) == [c.Token()];
      OneCodingUndone(c.Token(), c, b, body, k);
    }
  }

  /** Decoding, an interceptor that changes nothing, encoding and compressing
      leave what the response means unchanged, put no coding on top of another,
      and apply one the client does not take only where it refused it in a
      later field, or under another name. */
  lemma PipelineKeepsMeaning(request: seq<Header>, status: nat, headers: seq<Header>, body: seq<byte>, limit: nat,
                             k: Codec, zero: string -> bool)
    requires Lawful(k) && Undoable(headers)
    ensures var (h, b) := Pipeline(request, status, headers, body, limit, k, zero);
            && MeaningOf(h, b, k) == MeaningOf(headers, body, k)
            && (|Codings(h)| <= 1 || (h, b) == (headers, body))
            && (Codings(headers) == [] && Codings(h) != [] ==>
                  exists c: Coding :: Codings(h) == [c.Token()]
                                      && (Welcome(request, c, zero) <==> !RefusedUnread(request, c, zero)))
  {
    var (h1, b1, coding) := Decode(headers, body, limit, k);
    var (h2, b2) := Encode(h1, b1, coding, k);
    DecodeEncodeKeepsMeaning(headers, body, limit, k);
    CompressingKeepsMeaning(request, status, h2, b2, coding, k, zero);
    if coding.Some? {
      FirstCodingFirst(headers);
      NoCodingsWithout(headers);
      CodingsAppend(h1, Header(CONTENT_ENCODING, coding.value.Token()));
      TokensAreKnown(coding.value);
    }
  }

  // ---- Where it does not ----

  /** A codec whose coding is one leading byte. */
  function Toy(): Codec {
    Codec((c, x) => Some([0] + x),
          (c, b, limit) => if b == [] then None else Some(b[1..]),
          (c, b) => if b == [] then None else Some(b[1..]))
  }

  function Zeros(n: nat): seq<byte> {
    seq(n, i => 0)
  }

  lemma {:induction false} ToyUndone(codings: seq<string>, body: seq<byte>)
    requires |body| >= |codings|
    ensures match Undone(codings, body, Toy())
            case Decoded(bytes) => |bytes| == |body| - |codings|
            case Coded(rest, _) => rest != []
  {
    if codings != [] {
      var last := |codings| - 1;
      if ParseCoding(codings[last]).Some? {
        ToyUndone(codings[..last], body[1..]);
      }
    }
  }

  /** A coding we know in the first field and another behind it: undoing the
      first and forgetting the rest changes what some response means. Together
      with the theorem above, meaning is kept for every codec and body exactly
      when the fields are undoable. */
  lemma SecondCodingIsLost(headers: seq<Header>, limit: nat) returns (k: Codec, body: seq<byte>)
    requires !Undoable(headers)
    ensures Lawful(k)
    ensures var (h1, b1, coding) := Decode(headers, body, limit, k);
            var (h2, b2) := Encode(h1, b1, coding, k);
            MeaningOf(h2, b2, k) != MeaningOf(headers, body, k)
  {
    k := Toy();
    assert Lawful(k) by {
      forall x: seq<byte> ensures ([0] + x)[1..] == x {
      }
    }
    var codings := Codings(headers);
    body := Zeros(|codings|);
    FirstCodingFirst(headers);
    FirstIffHas(headers, CONTENT_ENCODING);
    var c := ParseCoding(First(headers, CONTENT_ENCODING).value).value;
    var (h1, b1, coding) := Decode(headers, body, limit, k);
    var (h2, b2) := Encode(h1, b1, coding, k);
    NoCodingsWithout(headers);
    CodingsAppend(h1, Header(CONTENT_ENCODING, c.Token()));
    TokensAreKnown(c);
    assert Codings(h2) == [c.Token()];
    assert b2[1..] == b1;
    OneCodingUndone(c.Token(), c, b2, b1, k);
    ToyUndone(codings, body);
  }
}
