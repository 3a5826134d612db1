/**
 Reading the server name out of a ClientHello: a cursor over length-prefixed
 vectors, and what it computes as a function of the bytes
 (section 4.1.2 of RFC 8446, section 3 of RFC 6066).
 */
module ServerName {
  import opened Wrappers
  import opened Records

  const CLIENT_HELLO: byte := 0x01
  const EXTENSION_SERVER_NAME: nat := 0x0000
  const NAME_TYPE_HOST: byte := 0x00
  /** Client version and random. */
  const FIXED_PART: nat := 2 + 32

  predicate IsAscii(name: seq<byte>) {
    forall i :: 0 <= i < |name| ==> name[i] < 128
  }

  function LowerByte(b: byte): byte {
    if 'A' as int <= b <= 'Z' as int then b + 32 else b
  }

  function Lower(name: seq<byte>): seq<byte> {
    seq(|name|, i requires 0 <= i < |name| => LowerByte(name[i]))
  }

  // ---- What the parser computes ----

  /** The body of a vector whose length is one byte. */
  function Vec8(b: seq<byte>): (r: Option<seq<byte>>)
    ensures r.Some? ==> 1 + |r.value| <= |b|
  {
    if b == [] then None
    else
      var length: int := b[0];
      if |b| < 1 + length then None else Some(b[1..1 + length])
  }

  /** The body of a vector whose length is two bytes. */
  function Vec16(b: seq<byte>): (r: Option<seq<byte>>)
    ensures r.Some? ==> 2 + |r.value| <= |b|
  {
    if |b| < 2 then None
    else
      var length := U16(b[0], b[1]);
      if |b| < 2 + length then None else Some(b[2..2 + length])
  }

  function NameInMessage(payload: seq<byte>): Option<seq<byte>> {
    if |payload| < 4 || payload[0] != CLIENT_HELLO then None
    else
      var length := U24(payload[1], payload[2], payload[3]);
      if |payload| < 4 + length then None else NameInHello(payload[4..4 + length])
  }

  function NameInHello(hello: seq<byte>): Option<seq<byte>> {
    if |hello| < FIXED_PART then None else NameFromSession(hello[FIXED_PART..])
  }

  function NameFromSession(b: seq<byte>): Option<seq<byte>> {
    var session :- Vec8(b);
    NameFromCiphers(b[1 + |session|..])
  }

  function NameFromCiphers(b: seq<byte>): Option<seq<byte>> {
    var ciphers :- Vec16(b);
    NameFromCompression(b[2 + |ciphers|..])
  }

  function NameFromCompression(b: seq<byte>): Option<seq<byte>> {
    var compression :- Vec8(b);
    var extensions :- Vec16(b[1 + |compression|..]);
    NameInExtensions(extensions)
  }

  function NameInExtensions(extensions: seq<byte>): Option<seq<byte>> {
    if |extensions| < 2 then None
    else
      var body :- Vec16(extensions[2..]);
      if U16(extensions[0], extensions[1]) == EXTENSION_SERVER_NAME then FirstHostName(body)
      else NameInExtensions(extensions[4 + |body|..])
  }

  function FirstHostName(body: seq<byte>): Option<seq<byte>> {
    var list :- Vec16(body);
    NameInList(list)
  }

  function NameInList(list: seq<byte>): Option<seq<byte>> {
    if list == [] then None
    else
      var name :- Vec16(list[1..]);
      if list[0] == NAME_TYPE_HOST then
        if IsAscii(name) then Some(Lower(name)) else None
      else NameInList(list[3 + |name|..])
  }

  /** The name in the first bytes of a connection. */
  function NameIn(bytes: seq<byte>): Option<seq<byte>> {
    match Assemble(bytes)
    case None => None
    case Some(a) => NameInMessage(a.payload)
  }

  // ---- The parser ----

  /** A cursor that answers nothing, rather than failing, past the end. */
  class Reader {
    const bytes: seq<byte>
    var at: nat

    ghost predicate Valid()
      reads this
    {
      at <= |bytes|
    }

    ghost function Rest(): seq<byte>
      reads this
      requires Valid()
    {
      bytes[at..]
    }

    constructor (bytes: seq<byte>)
      ensures Valid() && Rest() == bytes
    {
      this.bytes := bytes;
      this.at := 0;
    }

    method Take(count: nat) returns (r: Option<seq<byte>>)
      requires Valid()
      modifies this`at
      ensures Valid()
      ensures r == if count <= |old(Rest())| then Some(old(Rest())[..count]) else None
      ensures Rest() == if r.Some? then old(Rest())[count..] else old(Rest())
    {
      var end := at + count;
      if end > |bytes| {
        return None;
      }
      assert bytes[at..][..count] == bytes[at..end];
      assert bytes[at..][count..] == bytes[end..];
      r := Some(bytes[at..end]);
      at := end;
    }

    method ReadU8() returns (r: Option<byte>)
      requires Valid()
      modifies this`at
      ensures Valid()
      ensures r == if |old(Rest())| >= 1 then Some(old(Rest())[0]) else None
      ensures Rest() == if r.Some? then old(Rest())[1..] else old(Rest())
    {
      var b :- Take(1);
      return Some(b[0]);
    }

    method ReadU16() returns (r: Option<nat>)
      requires Valid()
      modifies this`at
      ensures Valid()
      ensures r == if |old(Rest())| >= 2 then Some(U16(old(Rest())[0], old(Rest())[1])) else None
      ensures Rest() == if r.Some? then old(Rest())[2..] else old(Rest())
    {
      var b :- Take(2);
      return Some(U16(b[0], b[1]));
    }

    method ReadU24() returns (r: Option<nat>)
      requires Valid()
      modifies this`at
      ensures Valid()
      ensures r == if |old(Rest())| >= 3
                   then Some(U24(old(Rest())[0], old(Rest())[1], old(Rest())[2])) else None
      ensures Rest() == if r.Some? then old(Rest())[3..] else old(Rest())
    {
      var b :- Take(3);
      return Some(U24(b[0], b[1], b[2]));
    }

    /** A length byte, then that many bytes. */
    method ReadVec8() returns (r: Option<seq<byte>>)
      requires Valid()
      modifies this`at
      ensures Valid() && |Rest()| <= |old(Rest())|
      ensures r == Vec8(old(Rest()))
      ensures r.Some? ==> Rest() == old(Rest())[1 + |r.value|..]
    {
      ghost var was := Rest();
      var length :- ReadU8();
      r := Take(length);
      assert r.Some? ==> was[1..][..length] == was[1..1 + length];
      assert r.Some? ==> was[1..][length..] == was[1 + length..];
    }

    /** A two-byte length, then that many bytes. */
    method ReadVec16() returns (r: Option<seq<byte>>)
      requires Valid()
      modifies this`at
      ensures Valid() && |Rest()| <= |old(Rest())|
      ensures r == Vec16(old(Rest()))
      ensures r.Some? ==> Rest() == old(Rest())[2 + |r.value|..]
    {
      ghost var was := Rest();
      var length :- ReadU16();
      r := Take(length);
      assert r.Some? ==> was[2..][..length] == was[2..2 + length];
      assert r.Some? ==> was[2..][length..] == was[2 + length..];
    }
  }

  /** What is left behind a field and a vector after it. */
  lemma Onward(b: seq<byte>, field: nat, length: nat)
    requires field + 2 + length <= |b|
    ensures b[field..][2 + length..] == b[field + 2 + length..]
  {
  }

  method ReadServerName(bytes: seq<byte>) returns (r: Option<seq<byte>>)
    ensures r == NameIn(bytes)
  {
    var assembled := AssembleRecords(bytes);
    var joined :- assembled;
    r := ReadMessage(joined.payload);
  }

  method ReadMessage(payload: seq<byte>) returns (r: Option<seq<byte>>)
    ensures r == NameInMessage(payload)
  {
    var handshake := new Reader(payload);
    var kind :- handshake.ReadU8();
    if kind != CLIENT_HELLO {
      return None;
    }
    assert handshake.Rest() == payload[1..];
    var length :- handshake.ReadU24();
    assert handshake.Rest() == payload[4..];
    var body :- handshake.Take(length);
    assert body == payload[4..4 + length];
    r := ReadHello(body);
  }

  method ReadHello(body: seq<byte>) returns (r: Option<seq<byte>>)
    ensures r == NameInHello(body)
  {
    var hello := new Reader(body);
    var _ :- hello.Take(FIXED_PART);
    assert NameInHello(body) == NameFromSession(hello.Rest());
    var _ :- hello.ReadVec8();
    assert NameInHello(body) == NameFromCiphers(hello.Rest());
    var _ :- hello.ReadVec16();
    assert NameInHello(body) == NameFromCompression(hello.Rest());
    r := ReadPastCiphers(hello);
  }

  method ReadPastCiphers(hello: Reader) returns (r: Option<seq<byte>>)
    requires hello.Valid()
    modifies hello`at
    ensures r == NameFromCompression(old(hello.Rest()))
  {
    var _ :- hello.ReadVec8();
    var extensions :- hello.ReadVec16();
    r := ReadExtensions(extensions);
  }

  method ReadExtensions(bytes: seq<byte>) returns (r: Option<seq<byte>>)
    ensures r == NameInExtensions(bytes)
  {
    var extensions := new Reader(bytes);
    while true
      invariant extensions.Valid()
      invariant NameInExtensions(bytes) == NameInExtensions(extensions.Rest())
      decreases |extensions.Rest()|
    {
      ghost var rest := extensions.Rest();
      var kind := extensions.ReadU16();
      if kind.None? {
        return None;
      }
      assert extensions.Rest() == rest[2..];
      var body :- extensions.ReadVec16();
      Onward(rest, 2, |body|);
      if kind.value == EXTENSION_SERVER_NAME {
        r := ReadFirstHostName(body);
        return;
      }
    }
  }

  method ReadFirstHostName(body: seq<byte>) returns (r: Option<seq<byte>>)
    ensures r == FirstHostName(body)
  {
    var list := new Reader(body);
    var entries :- list.ReadVec16();
    var names := new Reader(entries);
    while true
      invariant names.Valid()
      invariant NameInList(entries) == NameInList(names.Rest())
      decreases |names.Rest()|
    {
      ghost var rest := names.Rest();
      var kind := names.ReadU8();
      if kind.None? {
        return None;
      }
      assert names.Rest() == rest[1..];
      var name :- names.ReadVec16();
      Onward(rest, 1, |name|);
      if kind.value == NAME_TYPE_HOST {
        if !IsAscii(name) {
          return None;
        }
        return Some(Lower(name));
      }
    }
  }
}
