/**
 The record layer in front of a TLS handshake: joining the bytes consecutive
 handshake records carry, and saying how much more must arrive
 (section 5.1 of RFC 8446).
 */
module Records {
  import opened Wrappers

  type byte = x: int | 0 <= x < 256

  const HANDSHAKE: byte := 0x16
  const RECORD_HEADER: nat := 5
  const HANDSHAKE_HEADER: nat := 4
  const MAX_RECORD: nat := 16384
  const PEEK_BYTES: nat := MAX_RECORD + RECORD_HEADER

  function U16(hi: byte, lo: byte): nat {
    hi * 256 + lo
  }

  function U24(hi: byte, mid: byte, lo: byte): nat {
    hi * 65536 + mid * 256 + lo
  }

  /** What consecutive whole handshake records carried, how many bytes they
      took, and where the record now arriving will end. */
  datatype Assembled = Assembled(payload: seq<byte>, consumed: nat, pending: Option<nat>)

  function Prepend(front: seq<byte>, rest: Option<Assembled>): Option<Assembled> {
    match rest
    case None => None
    case Some(r) => Some(r.(payload := front + r.payload))
  }

  /** Where the record whose header is at `at` ends. */
  function RecordEnd(bytes: seq<byte>, at: nat): nat
    requires at + RECORD_HEADER <= |bytes|
  {
    at + RECORD_HEADER + U16(bytes[at + 3], bytes[at + 4])
  }

  /** A full header of a handshake record stands at `at`. */
  predicate HandshakeAt(bytes: seq<byte>, at: nat) {
    at + RECORD_HEADER <= |bytes| && bytes[at] == HANDSHAKE
  }

  /** The handshake records from `at` on, one record per unfolding. */
  function AssembleFrom(bytes: seq<byte>, at: nat): Option<Assembled>
    requires at <= |bytes|
    decreases |bytes| - at
  {
    if !HandshakeAt(bytes, at) then Some(Assembled([], at, None))
    else
      var end := RecordEnd(bytes, at);
      if end > at + RECORD_HEADER + MAX_RECORD then None
      else if end > |bytes| then Some(Assembled([], at, Some(end)))
      else Prepend(bytes[at + RECORD_HEADER..end], AssembleFrom(bytes, end))
  }

  function Assemble(bytes: seq<byte>): Option<Assembled> {
    AssembleFrom(bytes, 0)
  }

  method AssembleRecords(bytes: seq<byte>) returns (r: Option<Assembled>)
    ensures r == Assemble(bytes)
  {
    var payload, consumed, pending := [], 0, None;
    assert forall rest :: Prepend([], rest) == rest by {
      forall rest: Option<Assembled> ensures Prepend([], rest) == rest {
        if rest.Some? {
          assert [] + rest.value.payload == rest.value.payload;
        }
      }
    }
    while |bytes| - consumed >= RECORD_HEADER
      invariant consumed <= |bytes| && pending == None
      invariant Assemble(bytes) == Prepend(payload, AssembleFrom(bytes, consumed))
      decreases |bytes| - consumed
    {
      if bytes[consumed] != HANDSHAKE {
        break;
      }
      var length := U16(bytes[consumed + 3], bytes[consumed + 4]);
      if length > MAX_RECORD {
        return None;
      }
      var end := consumed + RECORD_HEADER + length;
      if end > |bytes| {
        pending := Some(end);
        break;
      }
      ghost var was := payload;
      payload := payload + bytes[consumed + RECORD_HEADER..end];
      PrependTwice(was, bytes[consumed + RECORD_HEADER..end], AssembleFrom(bytes, end));
      consumed := end;
    }
    assert payload + [] == payload;
    return Some(Assembled(payload, consumed, pending));
  }

  lemma PrependTwice(a: seq<byte>, b: seq<byte>, rest: Option<Assembled>)
    ensures Prepend(a, Prepend(b, rest)) == Prepend(a + b, rest)
  {
    if rest.Some? {
      assert a + (b + rest.value.payload) == a + b + rest.value.payload;
    }
  }

  /** Give up, wait for that many bytes in all, or go ahead. */
  datatype Hello = NotTls | Want(bytes: nat) | Complete

  /** How long the handshake message starting `payload` is, header included. */
  function Needed(payload: seq<byte>): nat
    requires |payload| >= HANDSHAKE_HEADER
  {
    HANDSHAKE_HEADER + U24(payload[1], payload[2], payload[3])
  }

  function HaveHello(bytes: seq<byte>): Hello {
    if bytes == [] then Want(RECORD_HEADER)
    else if bytes[0] != HANDSHAKE then NotTls
    else match Assemble(bytes)
      case None => NotTls
      case Some(a) =>
        if |a.payload| < HANDSHAKE_HEADER then
          match a.pending
          case Some(end) => Want(end)
          case None => Want(a.consumed + RECORD_HEADER)
        else
          var needed := Needed(a.payload);
          if |a.payload| >= needed then Complete
          else
            var missing := needed - |a.payload|;
            match a.pending
            case Some(end) => Want(if end > a.consumed + missing then end else a.consumed + missing)
            case None => Want(a.consumed + RECORD_HEADER + missing)
  }

  /** Enough bytes to hold the record now arriving or, if none is, a header to
      read; and enough for what the hello still lacks, once its length is known,
      to come in the rest of that record or behind that header. */
  predicate Enough(bytes: seq<byte>, a: Assembled, m: nat) {
    var from := if HandshakeAt(bytes, a.consumed) then a.consumed else a.consumed + 5;
    && (if HandshakeAt(bytes, a.consumed) then
          a.consumed + 5 <= |bytes| && m >= a.consumed + 5 + U16(bytes[a.consumed + 3], bytes[a.consumed + 4])
        else m >= a.consumed + 5)
    && (|a.payload| >= 4 ==>
          m + |a.payload| >= from + 4 + U24(a.payload[1], a.payload[2], a.payload[3]))
  }

  /** `Want` asks for the least that is enough; for a header, while there is
      nothing. */
  lemma WantIsTheLeast(bytes: seq<byte>)
    requires HaveHello(bytes).Want?
    ensures bytes == [] ==> HaveHello(bytes).bytes == 5
    ensures bytes != [] ==>
              && Assemble(bytes).Some?
              && Enough(bytes, Assemble(bytes).value, HaveHello(bytes).bytes)
              && forall m :: 0 <= m < HaveHello(bytes).bytes ==> !Enough(bytes, Assemble(bytes).value, m)
  {
    if bytes != [] {
      WhyStopped(bytes, 0);
      PendingIsTheRecord(bytes, 0);
    }
  }

  lemma {:induction false} PendingIsTheRecord(bytes: seq<byte>, at: nat)
    requires at <= |bytes| && AssembleFrom(bytes, at).Some?
    ensures var a := AssembleFrom(bytes, at).value;
            && (a.pending.Some? <==> HandshakeAt(bytes, a.consumed))
            && (a.pending.Some? ==> a.pending.value == RecordEnd(bytes, a.consumed))
    decreases |bytes| - at
  {
    if HandshakeAt(bytes, at) && RecordEnd(bytes, at) <= |bytes| {
      PendingIsTheRecord(bytes, RecordEnd(bytes, at));
    }
  }

  /** Complete, just when all of the message is there. */
  lemma CompleteExactlyWhen(bytes: seq<byte>)
    ensures HaveHello(bytes) == Complete <==>
            && bytes != [] && bytes[0] == 0x16 && Assemble(bytes).Some?
            && var payload := Assemble(bytes).value.payload;
               |payload| >= 4 && |payload| >= 4 + U24(payload[1], payload[2], payload[3])
    ensures HaveHello(bytes) == NotTls <==> bytes != [] && (bytes[0] != 0x16 || Assemble(bytes).None?)
  {
  }

  // ---- Prefixes of one byte stream ----

  /** How the records held at one moment relate to those held later. */
  ghost predicate Grows(early: Assembled, held: nat, late: Assembled, total: nat) {
    && early.payload <= late.payload
    && early.consumed <= held
    && |late.payload| <= |early.payload| + (total - early.consumed)
    && (early.pending.None? ==>
          late.payload == early.payload
          || |late.payload| + RECORD_HEADER <= |early.payload| + (total - early.consumed))
    && (early.pending.Some? ==> early.pending.value > held)
    && (early.pending.Some? && total < early.pending.value ==> late == early)
    && (early.pending.None? && total < early.consumed + RECORD_HEADER ==> late.payload == early.payload)
    && (early.pending.None? && early.consumed + RECORD_HEADER <= held ==> late == early)
  }

  lemma {:induction false} PrefixGrows(bytes: seq<byte>, held: nat, at: nat)
    requires at <= held <= |bytes|
    ensures AssembleFrom(bytes[..held], at).None? ==> AssembleFrom(bytes, at).None?
    ensures AssembleFrom(bytes[..held], at).Some? && AssembleFrom(bytes, at).Some? ==>
              Grows(AssembleFrom(bytes[..held], at).value, held, AssembleFrom(bytes, at).value, |bytes|)
    decreases held - at
  {
    var b := bytes[..held];
    if HandshakeAt(b, at) {
      assert RecordEnd(b, at) == RecordEnd(bytes, at);
      var end := RecordEnd(b, at);
      if end <= at + RECORD_HEADER + MAX_RECORD {
        if end <= held {
          assert b[at + RECORD_HEADER..end] == bytes[at + RECORD_HEADER..end];
          PrefixGrows(bytes, held, end);
        } else {
          PayloadBound(bytes, at);
        }
      }
    } else {
      PayloadBound(bytes, at);
    }
  }

  /** Records never carry more than the bytes they are made of. */
  lemma {:induction false} PayloadBound(bytes: seq<byte>, at: nat)
    requires at <= |bytes|
    ensures AssembleFrom(bytes, at).Some? ==>
              && at <= AssembleFrom(bytes, at).value.consumed <= |bytes|
              && |AssembleFrom(bytes, at).value.payload| <= AssembleFrom(bytes, at).value.consumed - at
              && (AssembleFrom(bytes, at).value.payload == [] ||
                  |AssembleFrom(bytes, at).value.payload| + RECORD_HEADER <= AssembleFrom(bytes, at).value.consumed - at)
    decreases |bytes| - at
  {
    if HandshakeAt(bytes, at) {
      var end := RecordEnd(bytes, at);
      if end <= at + RECORD_HEADER + MAX_RECORD && end <= |bytes| {
        PayloadBound(bytes, end);
      }
    }
  }

  /** Once a later read shows a complete hello, an earlier one showed no
      misfit: it was complete already or asked for more. */
  lemma EarlierPrefix(bytes: seq<byte>, held: nat)
    requires 0 < held <= |bytes|
    requires Assemble(bytes).Some? && bytes[0] == HANDSHAKE
    ensures Assemble(bytes[..held]).Some?
    ensures Grows(Assemble(bytes[..held]).value, held, Assemble(bytes).value, |bytes|)
    ensures HaveHello(bytes[..held]) != NotTls
  {
    PrefixGrows(bytes, held, 0);
  }

  lemma SameLength(early: seq<byte>, late: seq<byte>)
    requires early <= late
    ensures |early| >= HANDSHAKE_HEADER ==> Needed(early) == Needed(late)
  {
    assert late[..|early|] == early;
  }

  /** `Want(n)` never over-asks: no shorter extension can be complete. */
  lemma WantNeverOverAsks(bytes: seq<byte>, held: nat)
    requires held <= |bytes|
    requires HaveHello(bytes[..held]).Want?
    requires HaveHello(bytes) == Complete
    ensures HaveHello(bytes[..held]).bytes <= |bytes|
  {
    PayloadBound(bytes, 0);
    if held > 0 {
      PrefixGrows(bytes, held, 0);
      SameLength(Assemble(bytes[..held]).value.payload, Assemble(bytes).value.payload);
    }
  }

  /** The bytes stop at a full header that is not a handshake record's. */
  predicate StoppedByOtherContent(bytes: seq<byte>) {
    match Assemble(bytes)
    case None => false
    case Some(a) => a.consumed + RECORD_HEADER <= |bytes| && bytes[a.consumed] != HANDSHAKE
  }

  lemma {:induction false} WhyStopped(bytes: seq<byte>, at: nat)
    requires at <= |bytes|
    ensures AssembleFrom(bytes, at).Some? ==>
              var a := AssembleFrom(bytes, at).value;
              && a.consumed <= |bytes|
              && (a.pending.Some? ==> a.pending.value > |bytes| && HandshakeAt(bytes, a.consumed))
              && (a.pending.None? ==> a.consumed + RECORD_HEADER > |bytes| || bytes[a.consumed] != HANDSHAKE)
    decreases |bytes| - at
  {
    if HandshakeAt(bytes, at) {
      var end := RecordEnd(bytes, at);
      if end <= at + RECORD_HEADER + MAX_RECORD && end <= |bytes| {
        WhyStopped(bytes, end);
      }
    }
  }

  /** A wait always asks for more than is held, unless records of another
      content type have cut the handshake off. */
  lemma WantAsksForMore(bytes: seq<byte>)
    requires HaveHello(bytes).Want?
    ensures HaveHello(bytes).bytes > |bytes| || StoppedByOtherContent(bytes)
  {
    WhyStopped(bytes, 0);
  }

  /** A hello cut off by other content never completes, however much follows. */
  lemma CutOffForGood(bytes: seq<byte>, held: nat)
    requires held <= |bytes|
    requires StoppedByOtherContent(bytes[..held]) && HaveHello(bytes[..held]).Want?
    ensures HaveHello(bytes) != Complete
  {
    WhyStopped(bytes[..held], 0);
    PrefixGrows(bytes, held, 0);
  }

  /** A header reached while joining records claims more than a record may hold. */
  predicate OversizedFrom(bytes: seq<byte>, at: nat)
    requires at <= |bytes|
    decreases |bytes| - at
  {
    HandshakeAt(bytes, at) &&
    (RecordEnd(bytes, at) > at + RECORD_HEADER + MAX_RECORD ||
     (RecordEnd(bytes, at) <= |bytes| && OversizedFrom(bytes, RecordEnd(bytes, at))))
  }

  lemma {:induction false} OversizedIsRefused(bytes: seq<byte>, at: nat)
    requires at <= |bytes|
    ensures AssembleFrom(bytes, at).None? <==> OversizedFrom(bytes, at)
    decreases |bytes| - at
  {
    if HandshakeAt(bytes, at) {
      var end := RecordEnd(bytes, at);
      if end <= at + RECORD_HEADER + MAX_RECORD && end <= |bytes| {
        OversizedIsRefused(bytes, end);
      }
    }
  }

  /** "Complete" is not forever: a later header claiming too long a record
      takes it back. It survives exactly when no such header is reached. */
  lemma CompleteStaysCompleteIff(bytes: seq<byte>, held: nat)
    requires held <= |bytes|
    requires HaveHello(bytes[..held]) == Complete
    ensures HaveHello(bytes) == Complete <==> !OversizedFrom(bytes, 0)
    ensures !OversizedFrom(bytes, 0) <==> HaveHello(bytes) != NotTls
  {
    PrefixGrows(bytes, held, 0);
    OversizedIsRefused(bytes, 0);
  }

  /** A four-byte handshake message, then a header that claims 65535 bytes. */
  lemma CompleteCanBeTakenBack() returns (bytes: seq<byte>, held: nat)
    ensures held <= |bytes|
    ensures HaveHello(bytes[..held]) == Complete
    ensures HaveHello(bytes) == NotTls
  {
    var first: seq<byte> := [0x16, 3, 1, 0, 4, 1, 0, 0, 0];
    var second: seq<byte> := [0x16, 3, 1, 255, 255];
    bytes, held := first + second, 9;
    assert bytes[..held] == first;
    ASmallHello(first);
    OversizedBehind(bytes, 9);
  }

  lemma ASmallHello(bytes: seq<byte>)
    requires bytes == [0x16, 3, 1, 0, 4, 1, 0, 0, 0]
    ensures HaveHello(bytes) == Complete
  {
    assert AssembleFrom(bytes, 9) == Some(Assembled([], 9, None));
    assert AssembleFrom(bytes, 0) == Prepend(bytes[5..9], AssembleFrom(bytes, 9));
  }

  lemma OversizedBehind(bytes: seq<byte>, end: nat)
    requires HandshakeAt(bytes, 0) && end == RecordEnd(bytes, 0) <= RECORD_HEADER + MAX_RECORD && end <= |bytes|
    requires HandshakeAt(bytes, end) && RecordEnd(bytes, end) > end + RECORD_HEADER + MAX_RECORD
    ensures HaveHello(bytes) == NotTls
  {
    assert AssembleFrom(bytes, end).None?;
    assert AssembleFrom(bytes, 0) == Prepend(bytes[RECORD_HEADER..end], AssembleFrom(bytes, end));
  }
}
