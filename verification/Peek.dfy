/**
 Reading the name without answering the connection: peeking at a socket again
 and again while the ClientHello arrives, and the proof that neither how TCP
 split the stream nor how the client framed its hello decides the answer.
 */
module Peek {
  import opened Wrappers
  import opened Records
  import opened ServerName
  import opened HelloWriter

  function Min(a: nat, b: nat): nat {
    if a < b then a else b
  }

  /** What one peek sees when `arrived` bytes of the stream are buffered. */
  function Seen(stream: seq<byte>, arrived: nat): seq<byte> {
    stream[..Min(Min(arrived, |stream|), PEEK_BYTES)]
  }

  /** The answer when `arrivals` says how much had arrived at each peek before
      the deadline. */
  function NameAfter(stream: seq<byte>, arrivals: seq<nat>): Option<seq<byte>> {
    if arrivals == [] then None
    else
      var seen := Seen(stream, arrivals[0]);
      if seen == [] then None
      else match HaveHello(seen)
        case Complete => NameIn(seen)
        case NotTls => None
        case Want(whole) => if whole > PEEK_BYTES then None else NameAfter(stream, arrivals[1..])
  }

  method PeekServerName(stream: seq<byte>, arrivals: seq<nat>) returns (r: Option<seq<byte>>)
    ensures r == NameAfter(stream, arrivals)
  {
    var peeks := 0;
    while peeks < |arrivals|
      invariant 0 <= peeks <= |arrivals|
      invariant NameAfter(stream, arrivals) == NameAfter(stream, arrivals[peeks..])
    {
      var buf := Seen(stream, arrivals[peeks]);
      if buf == [] {
        return None;
      }
      match HaveHello(buf) {
        case Complete =>
          r := ReadServerName(buf);
          return;
        case NotTls =>
          return None;
        case Want(whole) =>
          if whole > PEEK_BYTES {
            return None;
          }
      }
      assert arrivals[peeks..][1..] == arrivals[peeks + 1..];
      peeks := peeks + 1;
    }
    return None;
  }

  // ---- Segmentation independence ----

  lemma NameNeedsOnlyTheMessage(early: seq<byte>, late: seq<byte>)
    requires early <= late
    requires |early| >= HANDSHAKE_HEADER && |early| >= Needed(early)
    ensures NameInMessage(early) == NameInMessage(late)
  {
    SameLength(early, late);
    var length := U24(early[1], early[2], early[3]);
    assert early[4..4 + length] == late[4..4 + length];
  }

  /** Until the hello is complete there is no name to be had. */
  lemma IncompleteHasNoName(bytes: seq<byte>)
    requires HaveHello(bytes) != Complete
    ensures NameIn(bytes).None?
  {
  }

  /** Two prefixes of one stream that both hold the whole hello name the same
      host, wherever TCP cut it. */
  lemma CompletePrefixesAgree(stream: seq<byte>, held: nat)
    requires held <= |stream|
    requires HaveHello(stream[..held]) == Complete && HaveHello(stream) == Complete
    ensures NameIn(stream[..held]) == NameIn(stream)
  {
    PrefixGrows(stream, held, 0);
    NameNeedsOnlyTheMessage(Assemble(stream[..held]).value.payload, Assemble(stream).value.payload);
  }

  lemma AnyCompletePrefixesAgree(stream: seq<byte>, one: nat, other: nat)
    requires one <= |stream| && other <= |stream|
    requires HaveHello(stream[..one]) == Complete && HaveHello(stream[..other]) == Complete
    ensures NameIn(stream[..one]) == NameIn(stream[..other])
  {
    if one <= other {
      assert stream[..other][..one] == stream[..one];
      CompletePrefixesAgree(stream[..other], one);
    } else {
      assert stream[..one][..other] == stream[..other];
      CompletePrefixesAgree(stream[..one], other);
    }
  }

  /** Whatever the schedule of arrivals, the answer is none at all or the one
      name the stream carries. */
  lemma {:induction false} NoScheduleChangesTheName(stream: seq<byte>, arrivals: seq<nat>, whole: nat)
    requires whole <= |stream| && HaveHello(stream[..whole]) == Complete
    ensures NameAfter(stream, arrivals).None? || NameAfter(stream, arrivals) == NameIn(stream[..whole])
  {
    if arrivals != [] {
      var read := Min(Min(arrivals[0], |stream|), PEEK_BYTES);
      if HaveHello(stream[..read]) == Complete {
        AnyCompletePrefixesAgree(stream, read, whole);
      }
      NoScheduleChangesTheName(stream, arrivals[1..], whole);
    }
  }

  /** A stream that never holds a whole hello within the peek buffer gets none,
      whatever the schedule. */
  lemma {:induction false} NoHelloNoName(stream: seq<byte>, arrivals: seq<nat>)
    requires forall n :: 0 <= n <= |stream| && n <= PEEK_BYTES ==> HaveHello(stream[..n]) != Complete
    ensures NameAfter(stream, arrivals) == None
  {
    if arrivals != [] {
      NoHelloNoName(stream, arrivals[1..]);
    }
  }

  /** All of the stream the loop can ever see. */
  function InSight(stream: seq<byte>): seq<byte> {
    stream[..Min(|stream|, PEEK_BYTES)]
  }

  /** No shorter prefix is complete. */
  predicate FirstComplete(stream: seq<byte>, whole: nat) {
    && whole <= |stream| && HaveHello(stream[..whole]) == Complete
    && forall n :: 0 <= n < whole ==> HaveHello(stream[..n]) != Complete
  }

  predicate SomeArrived(arrivals: seq<nat>) {
    forall i :: 0 <= i < |arrivals| ==> arrivals[i] > 0
  }

  predicate Reaches(arrivals: seq<nat>, whole: nat) {
    exists i :: 0 <= i < |arrivals| && arrivals[i] >= whole
  }

  /** The first peek that sees `whole` bytes. */
  function FirstReach(arrivals: seq<nat>, whole: nat): (i: nat)
    requires Reaches(arrivals, whole)
    ensures i < |arrivals| && arrivals[i] >= whole && forall k :: 0 <= k < i ==> arrivals[k] < whole
  {
    if arrivals[0] >= whole then 0
    else
      assert forall i :: 0 < i < |arrivals| ==> arrivals[i] == arrivals[1..][i - 1];
      assert Reaches(arrivals[1..], whole);
      1 + FirstReach(arrivals[1..], whole)
  }

  lemma ShortOfTheWhole(stream: seq<byte>, read: nat, whole: nat)
    requires FirstComplete(stream, whole) && whole <= PEEK_BYTES && 0 < read < whole
    ensures HaveHello(stream[..read]).Want? && HaveHello(stream[..read]).bytes <= PEEK_BYTES
  {
    var hello := stream[..whole];
    assert hello[..read] == stream[..read];
    EarlierPrefix(hello, read);
    WantNeverOverAsks(hello, read);
  }

  lemma AtTheWhole(stream: seq<byte>, read: nat, whole: nat)
    requires whole <= read <= |stream| && HaveHello(stream[..whole]) == Complete
    ensures HaveHello(stream[..read]) == if OversizedFrom(stream[..read], 0) then NotTls else Complete
    ensures !OversizedFrom(stream[..read], 0) ==> NameIn(stream[..read]) == NameIn(stream[..whole])
  {
    assert stream[..read][..whole] == stream[..whole];
    CompleteStaysCompleteIff(stream[..read], whole);
    if !OversizedFrom(stream[..read], 0) {
      AnyCompletePrefixesAgree(stream, read, whole);
    }
  }

  /** What the loop answers to any schedule, for a hello that fits the peek
      buffer: none until a peek sees the whole hello; then its name, unless that
      peek also sees a misfit header behind it. */
  lemma {:induction false} WhatTheLoopAnswers(stream: seq<byte>, arrivals: seq<nat>, whole: nat)
    requires FirstComplete(stream, whole) && whole <= PEEK_BYTES && SomeArrived(arrivals)
    ensures NameAfter(stream, arrivals) ==
            if !Reaches(arrivals, whole) || OversizedFrom(Seen(stream, arrivals[FirstReach(arrivals, whole)]), 0)
            then None else NameIn(stream[..whole])
  {
    if arrivals != [] {
      var read := Min(Min(arrivals[0], |stream|), PEEK_BYTES);
      if whole <= read {
        AtTheWhole(stream, read, whole);
      } else {
        assert whole > 0;
        ShortOfTheWhole(stream, read, whole);
        assert forall i :: 0 < i < |arrivals| ==> arrivals[i] == arrivals[1..][i - 1];
        assert Reaches(arrivals, whole) <==> Reaches(arrivals[1..], whole) by {
          if Reaches(arrivals[1..], whole) {
            var i :| 0 <= i < |arrivals[1..]| && arrivals[1..][i] >= whole;
            assert arrivals[i + 1] >= whole;
          }
        }
        WhatTheLoopAnswers(stream, arrivals[1..], whole);
      }
    }
  }

  lemma {:induction false} AnEarliest(stream: seq<byte>, held: nat) returns (whole: nat)
    requires held <= |stream| && HaveHello(stream[..held]) == Complete
    ensures whole <= held && FirstComplete(stream, whole)
    decreases held
  {
    if n :| 0 <= n < held && HaveHello(stream[..n]) == Complete {
      whole := AnEarliest(stream, n);
    } else {
      whole := held;
    }
  }

  /** A misfit header in sight of an early read is in sight of a later one. */
  lemma OversizedStays(bytes: seq<byte>, held: nat)
    requires held <= |bytes| && OversizedFrom(bytes[..held], 0)
    ensures OversizedFrom(bytes, 0)
  {
    OversizedIsRefused(bytes[..held], 0);
    PrefixGrows(bytes, held, 0);
    OversizedIsRefused(bytes, 0);
  }

  /** If the whole hello fits the peek buffer and no misfit header is in sight,
      every schedule that gets that far answers with its name: nothing shorter
      makes the loop give up. */
  lemma EveryScheduleDelivers(stream: seq<byte>, arrivals: seq<nat>, held: nat)
    requires held <= |stream| && held <= PEEK_BYTES && HaveHello(stream[..held]) == Complete
    requires !OversizedFrom(InSight(stream), 0)
    requires SomeArrived(arrivals) && Reaches(arrivals, held)
    ensures NameAfter(stream, arrivals) == NameIn(stream[..held])
  {
    var whole := AnEarliest(stream, held);
    AnyCompletePrefixesAgree(stream, whole, held);
    var i :| 0 <= i < |arrivals| && arrivals[i] >= held;
    assert Reaches(arrivals, whole);
    WhatTheLoopAnswers(stream, arrivals, whole);
    NoMisfitSeen(stream, arrivals[FirstReach(arrivals, whole)]);
  }

  lemma NoMisfitSeen(stream: seq<byte>, arrived: nat)
    requires !OversizedFrom(InSight(stream), 0)
    ensures !OversizedFrom(Seen(stream, arrived), 0)
  {
    var seen := Seen(stream, arrived);
    assert seen == InSight(stream)[..|seen|];
    if OversizedFrom(seen, 0) {
      OversizedStays(InSight(stream), |seen|);
    }
  }

  /** A client that sends a misfit header along with its hello, all at once, is
      not named. */
  lemma AllAtOnce(stream: seq<byte>, held: nat)
    requires held <= |stream| && held <= PEEK_BYTES && HaveHello(stream[..held]) == Complete
    requires OversizedFrom(InSight(stream), 0)
    ensures SomeArrived([PEEK_BYTES]) && Reaches([PEEK_BYTES], held)
    ensures NameAfter(stream, [PEEK_BYTES]) == None
  {
    assert [PEEK_BYTES][0] >= held;
    assert Seen(stream, PEEK_BYTES) == InSight(stream);
    AtTheWhole(stream, |InSight(stream)|, held);
  }

  /** So every such schedule delivers exactly when no misfit header is in sight,
      or there is no name to deliver. */
  lemma EveryScheduleDeliversIff(stream: seq<byte>, held: nat)
    requires held <= |stream| && held <= PEEK_BYTES && HaveHello(stream[..held]) == Complete
    ensures (forall arrivals :: SomeArrived(arrivals) && Reaches(arrivals, held) ==>
               NameAfter(stream, arrivals) == NameIn(stream[..held]))
            <==> !OversizedFrom(InSight(stream), 0) || NameIn(stream[..held]).None?
  {
    if OversizedFrom(InSight(stream), 0) {
      AllAtOnce(stream, held);
    }
    forall arrivals | SomeArrived(arrivals) && Reaches(arrivals, held)
      ensures !OversizedFrom(InSight(stream), 0) || NameIn(stream[..held]).None? ==>
                NameAfter(stream, arrivals) == NameIn(stream[..held])
    {
      NoScheduleChangesTheName(stream, arrivals, held);
      if !OversizedFrom(InSight(stream), 0) {
        EveryScheduleDelivers(stream, arrivals, held);
      }
    }
  }

  /** End to end: any hello, in any framing that fits the peek buffer, followed
      by anything but more handshake, arriving in any pieces, is named. */
  lemma NameReachesTheCaller(h: ClientHello, fragments: seq<Fragment>, tail: seq<byte>, arrivals: seq<nat>)
    requires Carries(fragments, h) && Decided(h) && NotHandshake(tail)
    requires |FrameAll(fragments)| <= PEEK_BYTES
    requires SomeArrived(arrivals) && Reaches(arrivals, |FrameAll(fragments)|)
    ensures NameAfter(FrameAll(fragments) + tail, arrivals) == NameOf(h)
  {
    var stream, whole := FrameAll(fragments) + tail, |FrameAll(fragments)|;
    assert stream[..whole] == FrameAll(fragments) == FrameAll(fragments) + [];
    var near := tail[..|InSight(stream)| - whole];
    assert InSight(stream) == FrameAll(fragments) + near;
    NameSurvivesFraming(h, fragments, near);
    NameSurvivesFraming(h, fragments, []);
    OversizedIsRefused(InSight(stream), 0);
    EveryScheduleDelivers(stream, arrivals, whole);
  }

  /** A hello in one record always fits the peek buffer. */
  lemma OneRecordFits(f: Fragment)
    requires |f.data| <= LONGEST_RECORD
    ensures |FrameAll([f])| <= PEEK_BYTES == 5 + 16384
  {
    assert FrameAll([f]) == Frame(f) + FrameAll([]);
  }

  /** No moment of an arriving one-record hello asks for more than is read. */
  lemma OneRecordNeverOutgrowsThePeek(h: ClientHello, f: Fragment, held: nat)
    requires Carries([f], h) && Decided(h) && held <= |FrameAll([f])|
    ensures var now := HaveHello(FrameAll([f])[..held]);
            now == Complete || (now.Want? && now.bytes <= |FrameAll([f])| <= PEEK_BYTES)
  {
    var bytes := FrameAll([f]);
    assert bytes + [] == bytes;
    NameSurvivesFraming(h, [f], []);
    OneRecordFits(f);
    if held > 0 {
      EarlierPrefix(bytes, held);
    }
    if HaveHello(bytes[..held]).Want? {
      WantNeverOverAsks(bytes, held);
    }
  }
}
