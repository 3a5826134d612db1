/**
 The other side of the wire: a ClientHello as a value, how it is written down
 as a handshake message and cut into records, and the proof that reading gives
 back the name that was written, for every hello and every way of cutting it
 (sections 4.1.2 and 5.1 of RFC 8446, section 3 of RFC 6066).
 */
module HelloWriter {
  import opened Wrappers
  import opened Records
  import opened ServerName

  // The numbers as the standards give them, apart from what the parser goes by.

  const HELLO_MESSAGE: byte := 1
  const HANDSHAKE_RECORD: byte := 22
  const LONGEST_RECORD: nat := 16384
  const VERSION_AND_RANDOM: nat := 34
  const SERVER_NAME: nat := 0
  const HOST_NAME: byte := 0

  datatype Entry = Entry(kind: byte, name: seq<byte>)

  /** `listSlack` and `bodySlack` are bytes inside the extension that follow
      the entries and the list; a strictly written one has neither. */
  datatype Extension =
    | Opaque(kind: nat, body: seq<byte>)
    | ServerNames(entries: seq<Entry>, listSlack: seq<byte>, bodySlack: seq<byte>)

  datatype ClientHello = ClientHello(
    fixed: seq<byte>,
    session: seq<byte>,
    ciphers: seq<byte>,
    compression: seq<byte>,
    extensions: seq<Extension>,
    extensionsSlack: seq<byte>,
    slack: seq<byte>)

  // ---- The name a hello carries ----

  function HostEntry(entries: seq<Entry>): Option<seq<byte>> {
    if entries == [] then None
    else if entries[0].kind == HOST_NAME then Some(entries[0].name)
    else HostEntry(entries[1..])
  }

  function FirstNames(extensions: seq<Extension>): Option<seq<Entry>> {
    if extensions == [] then None
    else if extensions[0].ServerNames? then Some(extensions[0].entries)
    else FirstNames(extensions[1..])
  }

  /** The first host name of the first server_name extension, exactly as
      written: what the client is asking for. */
  function HostOf(h: ClientHello): Option<seq<byte>> {
    var entries :- FirstNames(h.extensions);
    HostEntry(entries)
  }

  predicate Ascii(host: seq<byte>) {
    forall i :: 0 <= i < |host| ==> host[i] < 128
  }

  /** `A` to `Z` are 65 to 90, `a` to `z` the 26 from 97 on. */
  function InLowerCase(host: seq<byte>): seq<byte> {
    seq(|host|, i requires 0 <= i < |host| => if 65 <= host[i] <= 90 then host[i] + 32 else host[i])
  }

  function NameOf(h: ClientHello): Option<seq<byte>> {
    var host :- HostOf(h);
    if Ascii(host) then Some(InLowerCase(host)) else None
  }

  // ---- Writing it down ----

  function Put16(n: nat): (r: seq<byte>)
    requires n < 0x1_0000
    ensures |r| == 2 && U16(r[0], r[1]) == n
  {
    [n / 256, n % 256]
  }

  function Put24(n: nat): (r: seq<byte>)
    requires n < 0x100_0000
    ensures |r| == 3 && U24(r[0], r[1], r[2]) == n
  {
    [n / 65536, n / 256 % 256, n % 256]
  }

  function PutVec8(b: seq<byte>): seq<byte>
    requires |b| < 0x100
  {
    [|b|] + b
  }

  function PutVec16(b: seq<byte>): seq<byte>
    requires |b| < 0x1_0000
  {
    Put16(|b|) + b
  }

  predicate ValidEntries(entries: seq<Entry>) {
    forall i :: 0 <= i < |entries| ==> |entries[i].name| < 0x1_0000
  }

  function PutEntries(entries: seq<Entry>): seq<byte>
    requires ValidEntries(entries)
  {
    if entries == [] then []
    else [entries[0].kind] + (PutVec16(entries[0].name) + PutEntries(entries[1..]))
  }

  predicate ValidExtension(e: Extension) {
    match e
    case Opaque(kind, body) => kind != SERVER_NAME && kind < 0x1_0000 && |body| < 0x1_0000
    case ServerNames(entries, listSlack, bodySlack) =>
      && ValidEntries(entries)
      && |PutEntries(entries) + listSlack| < 0x1_0000
      && |PutVec16(PutEntries(entries) + listSlack) + bodySlack| < 0x1_0000
  }

  function Kind(e: Extension): nat {
    if e.Opaque? then e.kind else SERVER_NAME
  }

  function Body(e: Extension): (r: seq<byte>)
    requires ValidExtension(e)
    ensures |r| < 0x1_0000
  {
    match e
    case Opaque(_, body) => body
    case ServerNames(entries, listSlack, bodySlack) => PutVec16(PutEntries(entries) + listSlack) + bodySlack
  }

  predicate ValidExtensions(extensions: seq<Extension>) {
    forall i :: 0 <= i < |extensions| ==> ValidExtension(extensions[i])
  }

  function PutExtensions(extensions: seq<Extension>): seq<byte>
    requires ValidExtensions(extensions)
  {
    if extensions == [] then []
    else Put16(Kind(extensions[0])) + (PutVec16(Body(extensions[0])) + PutExtensions(extensions[1..]))
  }

  predicate Fits(h: ClientHello) {
    && |h.fixed| == VERSION_AND_RANDOM
    && |h.session| < 0x100
    && |h.ciphers| < 0x1_0000
    && |h.compression| < 0x100
    && ValidExtensions(h.extensions)
    && |PutExtensions(h.extensions) + h.extensionsSlack| < 0x1_0000
  }

  function FromExtensions(h: ClientHello): seq<byte>
    requires Fits(h)
  {
    PutVec16(PutExtensions(h.extensions) + h.extensionsSlack) + h.slack
  }

  function FromCompression(h: ClientHello): seq<byte>
    requires Fits(h)
  {
    PutVec8(h.compression) + FromExtensions(h)
  }

  function FromCiphers(h: ClientHello): seq<byte>
    requires Fits(h)
  {
    PutVec16(h.ciphers) + FromCompression(h)
  }

  function FromSession(h: ClientHello): seq<byte>
    requires Fits(h)
  {
    PutVec8(h.session) + FromCiphers(h)
  }

  function PutHello(h: ClientHello): seq<byte>
    requires Fits(h)
  {
    h.fixed + FromSession(h)
  }

  predicate Valid(h: ClientHello) {
    Fits(h) && |PutHello(h)| < 0x100_0000
  }

  function PutMessage(h: ClientHello): seq<byte>
    requires Valid(h)
  {
    [HELLO_MESSAGE] + (Put24(|PutHello(h)|) + PutHello(h))
  }

  predicate Named(extensions: seq<Extension>) {
    FirstNames(extensions).Some? && HostEntry(FirstNames(extensions).value).Some?
  }

  predicate NoListSlack(extensions: seq<Extension>) {
    forall i :: 0 <= i < |extensions| && extensions[i].ServerNames? ==> extensions[i].listSlack == []
  }

  /** Either a host name is there, or nothing is left over for one to be read
      out of. Every hello written without slack is decided. */
  predicate Decided(h: ClientHello) {
    Named(h.extensions) || (h.extensionsSlack == [] && NoListSlack(h.extensions))
  }

  // ---- Reading back what was written ----

  lemma Assoc(a: seq<byte>, b: seq<byte>, c: seq<byte>)
    ensures (a + b) + c == a + (b + c)
  {
  }

  lemma AssocThree(a: seq<byte>, b: seq<byte>, c: seq<byte>, d: seq<byte>)
    ensures (a + (b + c)) + d == a + (b + (c + d))
  {
    Assoc(a, b + c, d);
    Assoc(b, c, d);
  }

  lemma Halves(a: seq<byte>, b: seq<byte>)
    ensures (a + b)[..|a|] == a && (a + b)[|a|..] == b
  {
  }

  lemma Vec8Written(v: seq<byte>, rest: seq<byte>)
    requires |v| < 0x100
    ensures Vec8(PutVec8(v) + rest) == Some(v)
    ensures (PutVec8(v) + rest)[1 + |v|..] == rest
  {
    assert (PutVec8(v) + rest)[1..1 + |v|] == v;
  }

  lemma Vec16Written(v: seq<byte>, rest: seq<byte>)
    requires |v| < 0x1_0000
    ensures Vec16(PutVec16(v) + rest) == Some(v)
    ensures (PutVec16(v) + rest)[2 + |v|..] == rest
  {
    var b := PutVec16(v) + rest;
    assert b[0] == Put16(|v|)[0] && b[1] == Put16(|v|)[1];
    assert b[2..2 + |v|] == v;
  }

  /** The parser's own reading of letters agrees. */
  lemma LettersAgree(host: seq<byte>)
    ensures IsAscii(host) <==> Ascii(host)
    ensures Lower(host) == InLowerCase(host)
  {
  }

  lemma EntryRead(e: Entry, rest: seq<byte>)
    requires |e.name| < 0x1_0000
    ensures NameInList([e.kind] + (PutVec16(e.name) + rest)) ==
            if e.kind == HOST_NAME then (if Ascii(e.name) then Some(InLowerCase(e.name)) else None)
            else NameInList(rest)
  {
    var b := [e.kind] + (PutVec16(e.name) + rest);
    LettersAgree(e.name);
    EntryFollows(e, rest);
    assert NameInList(b) ==
           if b[0] == HOST_NAME then (if IsAscii(e.name) then Some(Lower(e.name)) else None)
           else NameInList(b[3 + |e.name|..]);
  }

  lemma EntryFollows(e: Entry, rest: seq<byte>)
    requires |e.name| < 0x1_0000
    ensures var b := [e.kind] + (PutVec16(e.name) + rest);
            && b[0] == e.kind && Vec16(b[1..]) == Some(e.name)
            && 3 + |e.name| <= |b| && b[3 + |e.name|..] == rest
  {
    var b := [e.kind] + (PutVec16(e.name) + rest);
    Halves([e.kind], PutVec16(e.name) + rest);
    Vec16Written(e.name, rest);
    assert b[3 + |e.name|..] == b[1..][2 + |e.name|..];
  }

  lemma {:induction false} EntriesRead(entries: seq<Entry>, slack: seq<byte>)
    requires ValidEntries(entries)
    ensures NameInList(PutEntries(entries) + slack) ==
            match HostEntry(entries)
            case Some(host) => (if Ascii(host) then Some(InLowerCase(host)) else None)
            case None => NameInList(slack)
  {
    if entries == [] {
      assert PutEntries(entries) + slack == slack;
    } else {
      var e, rest := entries[0], PutEntries(entries[1..]) + slack;
      Assoc([e.kind], PutVec16(e.name) + PutEntries(entries[1..]), slack);
      Assoc(PutVec16(e.name), PutEntries(entries[1..]), slack);
      EntryRead(e, rest);
      EntriesRead(entries[1..], slack);
    }
  }

  lemma NamesRead(e: Extension)
    requires ValidExtension(e) && e.ServerNames?
    ensures FirstHostName(Body(e)) ==
            match HostEntry(e.entries)
            case Some(host) => (if Ascii(host) then Some(InLowerCase(host)) else None)
            case None => NameInList(e.listSlack)
  {
    Vec16Written(PutEntries(e.entries) + e.listSlack, e.bodySlack);
    EntriesRead(e.entries, e.listSlack);
  }

  lemma ExtensionRead(e: Extension, rest: seq<byte>)
    requires ValidExtension(e)
    ensures NameInExtensions(Put16(Kind(e)) + (PutVec16(Body(e)) + rest)) ==
            if e.ServerNames? then FirstHostName(Body(e)) else NameInExtensions(rest)
  {
    var b := Put16(Kind(e)) + (PutVec16(Body(e)) + rest);
    assert U16(b[0], b[1]) == Kind(e);
    Halves(Put16(Kind(e)), PutVec16(Body(e)) + rest);
    Vec16Written(Body(e), rest);
    assert b[4 + |Body(e)|..] == b[2..][2 + |Body(e)|..];
  }

  lemma FrontIsValid(first: Extension, more: seq<Extension>)
    requires ValidExtension(first) && ValidExtensions(more)
    ensures ValidExtensions([first] + more)
  {
  }

  lemma FrontNames(first: Extension, more: seq<Extension>)
    ensures FirstNames([first] + more) == if first.ServerNames? then Some(first.entries) else FirstNames(more)
  {
    assert ([first] + more)[0] == first && ([first] + more)[1..] == more;
  }

  lemma FrontWritten(first: Extension, more: seq<Extension>)
    requires ValidExtension(first) && ValidExtensions(more) && ValidExtensions([first] + more)
    ensures PutExtensions([first] + more) == Put16(Kind(first)) + (PutVec16(Body(first)) + PutExtensions(more))
  {
    assert ([first] + more)[0] == first && ([first] + more)[1..] == more;
  }

  lemma ExtensionsJoined(first: Extension, more: seq<Extension>, slack: seq<byte>)
    requires ValidExtension(first) && ValidExtensions(more)
    ensures ValidExtensions([first] + more)
    ensures FirstNames([first] + more) == if first.ServerNames? then Some(first.entries) else FirstNames(more)
    ensures PutExtensions([first] + more) + slack ==
            Put16(Kind(first)) + (PutVec16(Body(first)) + (PutExtensions(more) + slack))
  {
    FrontIsValid(first, more);
    FrontNames(first, more);
    FrontWritten(first, more);
    AssocThree(Put16(Kind(first)), PutVec16(Body(first)), PutExtensions(more), slack);
  }

  lemma {:induction false} ExtensionsRead(extensions: seq<Extension>, slack: seq<byte>)
    requires ValidExtensions(extensions)
    requires Named(extensions) || (slack == [] && NoListSlack(extensions))
    ensures NameInExtensions(PutExtensions(extensions) + slack) ==
            match FirstNames(extensions)
            case None => None
            case Some(entries) =>
              match HostEntry(entries)
              case None => None
              case Some(host) => if Ascii(host) then Some(InLowerCase(host)) else None
  {
    if extensions == [] {
      assert PutExtensions(extensions) + slack == [];
    } else {
      var e, more := extensions[0], extensions[1..];
      assert extensions == [e] + more;
      ExtensionsJoined(e, more, slack);
      ExtensionRead(e, PutExtensions(more) + slack);
      if e.ServerNames? {
        NamesRead(e);
      } else {
        StillDecided(extensions, slack);
        ExtensionsRead(more, slack);
      }
    }
  }

  lemma StillDecided(extensions: seq<Extension>, slack: seq<byte>)
    requires extensions != [] && extensions[0].Opaque? && ValidExtensions(extensions)
    requires Named(extensions) || (slack == [] && NoListSlack(extensions))
    ensures ValidExtensions(extensions[1..])
    ensures Named(extensions[1..]) || (slack == [] && NoListSlack(extensions[1..]))
  {
  }

  lemma CompressionRead(h: ClientHello)
    requires Valid(h) && Decided(h)
    ensures NameFromCompression(FromCompression(h)) == NameOf(h)
  {
    Vec8Written(h.compression, FromExtensions(h));
    Vec16Written(PutExtensions(h.extensions) + h.extensionsSlack, h.slack);
    ExtensionsRead(h.extensions, h.extensionsSlack);
  }

  lemma CiphersRead(h: ClientHello)
    requires Valid(h) && Decided(h)
    ensures NameFromCiphers(FromCiphers(h)) == NameOf(h)
  {
    Vec16Written(h.ciphers, FromCompression(h));
    CompressionRead(h);
  }

  lemma SessionRead(h: ClientHello)
    requires Valid(h) && Decided(h)
    ensures NameFromSession(FromSession(h)) == NameOf(h)
  {
    Vec8Written(h.session, FromCiphers(h));
    CiphersRead(h);
  }

  lemma HelloRead(h: ClientHello)
    requires Valid(h) && Decided(h)
    ensures NameInHello(PutHello(h)) == NameOf(h)
  {
    Halves(h.fixed, FromSession(h));
    SessionRead(h);
  }

  lemma MessageHeader(hello: seq<byte>, more: seq<byte>)
    requires |hello| < 0x100_0000
    ensures var p := [HELLO_MESSAGE] + (Put24(|hello|) + (hello + more));
            && p[0] == HELLO_MESSAGE && U24(p[1], p[2], p[3]) == |hello|
            && p[4..4 + |hello|] == hello && p[4 + |hello|..] == more
  {
  }

  lemma MessageSplit(h: ClientHello, more: seq<byte>)
    requires Valid(h)
    ensures PutMessage(h) + more == [HELLO_MESSAGE] + (Put24(|PutHello(h)|) + (PutHello(h) + more))
  {
    var hello := PutHello(h);
    Assoc([HELLO_MESSAGE], Put24(|hello|) + hello, more);
    Assoc(Put24(|hello|), hello, more);
  }

  lemma MessageRead(h: ClientHello, more: seq<byte>)
    requires Valid(h) && Decided(h)
    ensures NameInMessage(PutMessage(h) + more) == NameOf(h)
    ensures |PutMessage(h)| == Needed(PutMessage(h) + more)
  {
    MessageHeader(PutHello(h), more);
    MessageSplit(h, more);
    HelloRead(h);
  }

  /** What the answer is, letter by letter: the host as the hello has it, with
      capitals turned small and nothing else changed; and none just when it is
      not ASCII. */
  lemma TheHostInLowerCase(h: ClientHello, more: seq<byte>)
    requires Valid(h) && Decided(h) && HostOf(h).Some?
    ensures var host := HostOf(h).value;
            match NameInMessage(PutMessage(h) + more)
            case Some(name) =>
              && (forall i :: 0 <= i < |host| ==> host[i] < 128)
              && |name| == |host|
              && forall i :: 0 <= i < |host| ==> name[i] == if 65 <= host[i] <= 90 then host[i] + 32 else host[i]
            case None => exists i :: 0 <= i < |host| && host[i] >= 128
  {
    MessageRead(h, more);
  }

  // ---- Never inventing a name ----

  lemma {:induction false} EntriesFound(list: seq<byte>) returns (entries: seq<Entry>, slack: seq<byte>)
    requires NameInList(list).Some?
    ensures ValidEntries(entries) && HostEntry(entries).Some?
    ensures list == PutEntries(entries) + slack
    decreases |list|
  {
    var name, rest := EntryIsWritten(list);
    var first, more := Entry(list[0], name), [];
    if first.kind == HOST_NAME {
      slack := rest;
    } else {
      more, slack := EntriesFound(rest);
    }
    entries := [first] + more;
    assert [] + slack == slack;
    EntriesJoined(first, more, slack);
  }

  /** One entry is in the list before `rest`. */
  lemma EntryIsWritten(list: seq<byte>) returns (name: seq<byte>, rest: seq<byte>)
    requires list != [] && Vec16(list[1..]).Some?
    ensures Some(name) == Vec16(list[1..]) && |name| < 0x1_0000
    ensures 3 + |name| <= |list| && rest == list[3 + |name|..]
    ensures list == [list[0]] + (PutVec16(name) + rest)
  {
    name := Vec16(list[1..]).value;
    rest := list[3 + |name|..];
    VecIsWritten(list[1..]);
    assert list[1..][2 + |name|..] == rest;
    assert list == [list[0]] + list[1..];
  }

  lemma EntriesJoined(first: Entry, more: seq<Entry>, slack: seq<byte>)
    requires |first.name| < 0x1_0000 && ValidEntries(more)
    ensures ValidEntries([first] + more)
    ensures HostEntry([first] + more) == if first.kind == HOST_NAME then Some(first.name) else HostEntry(more)
    ensures PutEntries([first] + more) + slack == [first.kind] + (PutVec16(first.name) + (PutEntries(more) + slack))
  {
    var all := [first] + more;
    assert all[0] == first && all[1..] == more;
    var name, rest := PutVec16(first.name), PutEntries(more);
    assert PutEntries(all) == [first.kind] + (name + rest);
    AssocThree([first.kind], name, rest, slack);
  }

  lemma VecIsWritten(b: seq<byte>)
    requires Vec16(b).Some?
    ensures var v := Vec16(b).value; |v| < 0x1_0000 && b == PutVec16(v) + b[2 + |v|..]
  {
    var v := Vec16(b).value;
    assert Put16(|v|) == [b[0], b[1]];
  }

  lemma Vec8IsWritten(b: seq<byte>)
    requires Vec8(b).Some?
    ensures var v := Vec8(b).value; |v| < 0x100 && b == PutVec8(v) + b[1 + |v|..]
  {
  }

  lemma {:induction false} ExtensionsFound(b: seq<byte>) returns (extensions: seq<Extension>, slack: seq<byte>)
    requires NameInExtensions(b).Some?
    ensures ValidExtensions(extensions)
    ensures Named(extensions)
    ensures b == PutExtensions(extensions) + slack
    decreases |b|
  {
    NameIsFurtherOn(b);
    var kind, body, rest := ExtensionIsWritten(b);
    var first, more := Opaque(kind, body), [];
    if kind == SERVER_NAME {
      first := NamesFound(body);
      slack := rest;
      assert PutExtensions([]) + rest == rest;
    } else {
      more, slack := ExtensionsFound(rest);
    }
    extensions := [first] + more;
    ExtensionsJoined(first, more, slack);
  }

  /** Where there is a name, it is in the first extension or behind it. */
  lemma NameIsFurtherOn(b: seq<byte>)
    requires NameInExtensions(b).Some?
    ensures |b| >= 2 && Vec16(b[2..]).Some?
    ensures var body := Vec16(b[2..]).value;
            if U16(b[0], b[1]) == SERVER_NAME then FirstHostName(body).Some?
            else NameInExtensions(b[4 + |body|..]).Some?
  {
  }

  /** One extension is on the wire before `rest`. */
  lemma ExtensionIsWritten(b: seq<byte>) returns (kind: nat, body: seq<byte>, rest: seq<byte>)
    requires |b| >= 2 && Vec16(b[2..]).Some?
    ensures kind == U16(b[0], b[1]) && kind < 0x1_0000
    ensures Some(body) == Vec16(b[2..]) && |body| < 0x1_0000
    ensures rest == b[4 + |body|..]
    ensures b == Put16(kind) + (PutVec16(body) + rest)
  {
    kind, body := U16(b[0], b[1]), Vec16(b[2..]).value;
    rest := b[4 + |body|..];
    VecIsWritten(b[2..]);
    assert b[2..][2 + |body|..] == rest;
    assert Put16(kind) == [b[0], b[1]];
    assert b == Put16(kind) + b[2..];
  }

  lemma NamesFound(body: seq<byte>) returns (e: Extension)
    requires FirstHostName(body).Some? && |body| < 0x1_0000
    ensures e.ServerNames? && ValidExtension(e) && Body(e) == body
    ensures HostEntry(e.entries).Some?
  {
    var list := Vec16(body).value;
    VecIsWritten(body);
    var entries, listSlack := EntriesFound(list);
    e := ServerNames(entries, listSlack, body[2 + |list|..]);
  }

  /** Whatever name the parser answers was written, whole and in its place, in
      a ClientHello that starts the handshake bytes. */
  lemma NameIsNeverInvented(payload: seq<byte>) returns (h: ClientHello, more: seq<byte>)
    requires NameInMessage(payload).Some?
    ensures Valid(h) && payload == PutMessage(h) + more
    ensures HostOf(h).Some? && Ascii(HostOf(h).value)
    ensures NameInMessage(payload) == Some(InLowerCase(HostOf(h).value))
  {
    var hello;
    hello, more := MessageIsWritten(payload);
    h := HelloFound(hello);
    MessageSplit(h, more);
    MessageRead(h, more);
  }

  lemma MessageIsWritten(payload: seq<byte>) returns (hello: seq<byte>, more: seq<byte>)
    requires NameInMessage(payload).Some?
    ensures |hello| < 0x100_0000
    ensures payload == [HELLO_MESSAGE] + (Put24(|hello|) + (hello + more))
    ensures NameInMessage(payload) == NameInHello(hello)
  {
    hello, more := HeaderIsWritten(payload);
  }

  lemma HeaderIsWritten(payload: seq<byte>) returns (hello: seq<byte>, more: seq<byte>)
    requires |payload| >= 4 && payload[0] == HELLO_MESSAGE
    requires |payload| >= 4 + U24(payload[1], payload[2], payload[3])
    ensures hello == payload[4..4 + U24(payload[1], payload[2], payload[3])] && |hello| < 0x100_0000
    ensures payload == [HELLO_MESSAGE] + (Put24(|hello|) + (hello + more))
  {
    var length := U24(payload[1], payload[2], payload[3]);
    hello, more := payload[4..4 + length], payload[4 + length..];
    LengthIsWritten(payload[1], payload[2], payload[3]);
    FourAhead(payload, hello + more);
  }

  lemma LengthIsWritten(a: byte, b: byte, c: byte)
    ensures Put24(U24(a, b, c)) == [a, b, c]
  {
    var n := U24(a, b, c);
    assert n == 256 * (256 * a + b) + c;
    assert n / 256 == 256 * a + b;
  }

  lemma FourAhead(payload: seq<byte>, rest: seq<byte>)
    requires |payload| >= 4 && rest == payload[4..]
    ensures payload == [payload[0]] + ([payload[1], payload[2], payload[3]] + rest)
  {
  }

  lemma HelloFound(hello: seq<byte>) returns (h: ClientHello)
    requires NameInHello(hello).Some? && |hello| < 0x100_0000
    ensures Valid(h) && PutHello(h) == hello
    ensures HostOf(h).Some?
  {
    var fixed, s := hello[..VERSION_AND_RANDOM], hello[VERSION_AND_RANDOM..];
    h := SessionFound(s, fixed);
    assert hello == fixed + s;
  }

  lemma SessionFound(s: seq<byte>, fixed: seq<byte>) returns (h: ClientHello)
    requires NameFromSession(s).Some? && |fixed| == VERSION_AND_RANDOM
    ensures Fits(h) && h.fixed == fixed && FromSession(h) == s && Named(h.extensions)
  {
    Vec8IsWritten(s);
    h := CiphersFound(s[1 + |Vec8(s).value|..], fixed, Vec8(s).value);
  }

  lemma CiphersFound(c: seq<byte>, fixed: seq<byte>, session: seq<byte>) returns (h: ClientHello)
    requires NameFromCiphers(c).Some? && |fixed| == VERSION_AND_RANDOM && |session| < 0x100
    ensures Fits(h) && h.fixed == fixed && h.session == session
    ensures FromCiphers(h) == c && Named(h.extensions)
  {
    VecIsWritten(c);
    h := CompressionFound(c[2 + |Vec16(c).value|..], fixed, session, Vec16(c).value);
  }

  lemma CompressionFound(m: seq<byte>, fixed: seq<byte>, session: seq<byte>, ciphers: seq<byte>)
    returns (h: ClientHello)
    requires NameFromCompression(m).Some?
    requires |fixed| == VERSION_AND_RANDOM && |session| < 0x100 && |ciphers| < 0x1_0000
    ensures Fits(h) && h.fixed == fixed && h.session == session && h.ciphers == ciphers
    ensures FromCompression(h) == m && Named(h.extensions)
  {
    Vec8IsWritten(m);
    var e := m[1 + |Vec8(m).value|..];
    VecIsWritten(e);
    var extensions, slack := ExtensionsFound(Vec16(e).value);
    h := ClientHello(fixed, session, ciphers, Vec8(m).value, extensions, slack, e[2 + |Vec16(e).value|..]);
    assert FromExtensions(h) == e;
  }

  // ---- Cutting into records ----

  /** One handshake record: its legacy version and what it carries. */
  datatype Fragment = Fragment(major: byte, minor: byte, data: seq<byte>)

  predicate ValidFragments(fragments: seq<Fragment>) {
    forall i :: 0 <= i < |fragments| ==> |fragments[i].data| <= LONGEST_RECORD
  }

  function Frame(f: Fragment): seq<byte>
    requires |f.data| <= LONGEST_RECORD
  {
    [HANDSHAKE_RECORD, f.major, f.minor] + PutVec16(f.data)
  }

  function FrameAll(fragments: seq<Fragment>): seq<byte>
    requires ValidFragments(fragments)
  {
    if fragments == [] then [] else Frame(fragments[0]) + FrameAll(fragments[1..])
  }

  function Joined(fragments: seq<Fragment>): seq<byte> {
    if fragments == [] then [] else fragments[0].data + Joined(fragments[1..])
  }

  /** Anything but another handshake record may follow. */
  predicate NotHandshake(tail: seq<byte>) {
    tail == [] || tail[0] != HANDSHAKE_RECORD
  }

  lemma {:induction false} FramesAssemble(bytes: seq<byte>, at: nat, fragments: seq<Fragment>, tail: seq<byte>)
    requires at <= |bytes| && ValidFragments(fragments) && NotHandshake(tail)
    requires bytes[at..] == FrameAll(fragments) + tail
    ensures AssembleFrom(bytes, at) == Some(Assembled(Joined(fragments), at + |FrameAll(fragments)|, None))
    decreases fragments
  {
    if fragments == [] {
      assert bytes[at..] == tail;
      assert tail != [] ==> bytes[at] == tail[0];
    } else {
      var f, rest := fragments[0], FrameAll(fragments[1..]) + tail;
      Assoc(Frame(f), FrameAll(fragments[1..]), tail);
      var end := FrameRead(bytes, at, f, rest);
      FramesAssemble(bytes, end, fragments[1..], tail);
      assert AssembleFrom(bytes, at) == Prepend(f.data, AssembleFrom(bytes, end));
      assert |FrameAll(fragments)| == |Frame(f)| + |FrameAll(fragments[1..])|;
    }
  }

  lemma FrameRead(bytes: seq<byte>, at: nat, f: Fragment, rest: seq<byte>) returns (end: nat)
    requires at <= |bytes| && |f.data| <= LONGEST_RECORD
    requires bytes[at..] == Frame(f) + rest
    ensures HandshakeAt(bytes, at) && end == RecordEnd(bytes, at) == at + |Frame(f)| <= |bytes|
    ensures bytes[at + RECORD_HEADER..end] == f.data && bytes[end..] == rest
  {
    var b := bytes[at..];
    Assoc([HANDSHAKE_RECORD, f.major, f.minor], PutVec16(f.data), rest);
    Halves([HANDSHAKE_RECORD, f.major, f.minor], PutVec16(f.data) + rest);
    Vec16Written(f.data, rest);
    assert b[3..] == bytes[at + 3..];
    assert bytes[at] == b[0];
    assert bytes[at + 3] == b[3..][0] && bytes[at + 4] == b[3..][1];
    end := at + |Frame(f)|;
    assert bytes[at + RECORD_HEADER..end] == b[3..][2..2 + |f.data|];
    assert bytes[end..] == b[3..][2 + |f.data|..];
  }

  /** `fragments` carry the hello, perhaps with more handshake behind it. */
  ghost predicate Carries(fragments: seq<Fragment>, h: ClientHello) {
    ValidFragments(fragments) && Valid(h) && PutMessage(h) <= Joined(fragments)
  }

  lemma FramedStart(fragments: seq<Fragment>, tail: seq<byte>)
    requires ValidFragments(fragments) && fragments != []
    ensures |FrameAll(fragments)| >= RECORD_HEADER
    ensures (FrameAll(fragments) + tail)[0] == HANDSHAKE_RECORD
  {
  }

  /** Every hello, cut into handshake records in any way at all, is complete
      once the records are there, and reads back as the name it carries. */
  lemma NameSurvivesFraming(h: ClientHello, fragments: seq<Fragment>, tail: seq<byte>)
    requires Carries(fragments, h) && Decided(h) && NotHandshake(tail)
    ensures HaveHello(FrameAll(fragments) + tail) == Complete
    ensures NameIn(FrameAll(fragments) + tail) == NameOf(h)
  {
    var bytes := FrameAll(fragments) + tail;
    assert bytes[0..] == bytes;
    FramesAssemble(bytes, 0, fragments, tail);
    var more := Joined(fragments)[|PutMessage(h)|..];
    assert Joined(fragments) == PutMessage(h) + more;
    MessageRead(h, more);
    FramedStart(fragments, tail);
  }

  /** The same name whatever the framing. */
  lemma FramingDoesNotMatter(h: ClientHello, one: seq<Fragment>, other: seq<Fragment>)
    requires Carries(one, h) && Carries(other, h) && Decided(h)
    ensures NameIn(FrameAll(one)) == NameIn(FrameAll(other)) == NameOf(h)
  {
    NameSurvivesFraming(h, one, []);
    NameSurvivesFraming(h, other, []);
    assert FrameAll(one) + [] == FrameAll(one) && FrameAll(other) + [] == FrameAll(other);
  }
}
