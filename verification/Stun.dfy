/** STUN messages (sections 6, 15, 15.4 and 15.5 of RFC 5389): printing, parsing, MESSAGE-INTEGRITY and
    FINGERPRINT, for any HMAC and any CRC. */
module Stun {
  import opened Options
  import opened Bytes

  const HEADER_SIZE := 20
  const ATTRIBUTE_HEADER_SIZE := 4
  const MAGIC_COOKIE: Uint32 := 0x2112_A442
  const TRANSACTION_ID_LENGTH := 12
  const MESSAGE_INTEGRITY_SIZE := 20
  const FINGERPRINT_SIZE := 8
  const FINGERPRINT_XOR_VALUE: Uint32 := 0x5354_554E

  const USERNAME: Uint16 := 0x0006
  const MESSAGE_INTEGRITY: Uint16 := 0x0008
  const PRIORITY: Uint16 := 0x0024
  const FINGERPRINT: Uint16 := 0x8028

  type Hmac = (seq<Byte>, seq<Byte>) -> seq<Byte>
  type Crc = seq<Byte> -> Uint32

  type AttrBytes = b: seq<Byte> | |b| < 0x1_0000

  /** A 32-bit attribute or one that is a string of bytes; address and error attributes are written as
      such strings too. */
  datatype Attr = ByteString(typ: Uint16, bytes: AttrBytes) | UInt32(typ: Uint16, bits: Uint32)

  datatype ValueType = UnknownValue | UInt32Value | ByteStringValue

  function ValueTypeOf(typ: Uint16): ValueType {
    if typ == USERNAME then ByteStringValue
    else if typ == MESSAGE_INTEGRITY then ByteStringValue
    else if typ == PRIORITY then UInt32Value
    else UnknownValue
  }

  function Padding(length: nat): nat {
    if length % 4 != 0 then 4 - length % 4 else 0
  }

  function Zeroes(n: nat): (z: seq<Byte>)
    ensures |z| == n
  {
    seq(n, _ => 0)
  }

  function Body(a: Attr): AttrBytes {
    match a
    case ByteString(_, bytes) => bytes
    case UInt32(_, bits) => Be32(bits)
  }

  function PrintAttr(a: Attr): (b: seq<Byte>)
    ensures |b| == ATTRIBUTE_HEADER_SIZE + |Body(a)| + Padding(|Body(a)|)
  {
    Be16(a.typ) + Be16(|Body(a)|) + Body(a) + Zeroes(Padding(|Body(a)|))
  }

  function PrintAttrs(attrs: seq<Attr>): seq<Byte> {
    if attrs == [] then [] else PrintAttr(attrs[0]) + PrintAttrs(attrs[1..])
  }

  datatype Message = Message(typ: Uint16, length: Uint16, transactionId: seq<Byte>, attrs: seq<Attr>)

  function Header(m: Message): (b: seq<Byte>)
    ensures |b| == 8 + |m.transactionId|
  {
    Be16(m.typ) + Be16(m.length) + Be32(MAGIC_COOKIE) + m.transactionId
  }

  function Print(m: Message): seq<Byte> {
    Header(m) + PrintAttrs(m.attrs)
  }

  /** length_ is a 16-bit field and wraps. */
  function WithAttribute(m: Message, a: Attr): Message {
    m.(length := (m.length + |Body(a)| + Padding(|Body(a)|) + ATTRIBUTE_HEADER_SIZE) % 0x1_0000,
       attrs := m.attrs + [a])
  }

  // ----- parsing

  /** The first attribute in `b`, and what follows it.  An attribute of unknown type is skipped, its
      16-bit length padded with wrap-around.  A 32-bit attribute takes four bytes whatever its length
      field says: the length the code compares with 4 is that of the object, which is always 4. */
  function ParseOne(b: seq<Byte>): (r: Option<(seq<Attr>, seq<Byte>)>)
    requires |b| >= ATTRIBUTE_HEADER_SIZE
    ensures r.Some? ==> |r.value.1| < |b|
  {
    var typ, length, rest := GetBe16(b, 0), GetBe16(b, 2), b[4..];
    match ValueTypeOf(typ)
    case UnknownValue =>
      var skip := (length + Padding(length)) % 0x1_0000;
      if skip > |rest| then None else Some(([], rest[skip..]))
    case UInt32Value =>
      if |rest| < 4 then None else Some(([UInt32(typ, GetBe32(rest, 0))], rest[4..]))
    case ByteStringValue =>
      if |rest| < length then None
      else Some(([ByteString(typ, rest[..length])], SkipPadding(rest[length..], Padding(length))))
  }

  function ParseAttrs(b: seq<Byte>): Option<seq<Attr>>
    decreases |b|
  {
    if b == [] then Some([])
    else if |b| < ATTRIBUTE_HEADER_SIZE then None
    else
      match ParseOne(b)
      case None => None
      case Some((front, rest)) => PushAll(front, ParseAttrs(rest))
  }

  /** The attributes that can be read before the parser succeeds or gives up. */
  function Readable(b: seq<Byte>): seq<Attr>
    decreases |b|
  {
    if |b| < ATTRIBUTE_HEADER_SIZE || ParseOne(b).None? then []
    else ParseOne(b).value.0 + Readable(ParseOne(b).value.1)
  }

  /** Consuming more than there is consumes nothing. */
  function SkipPadding(b: seq<Byte>, n: nat): (rest: seq<Byte>)
    ensures |rest| <= |b|
  {
    if n <= |b| then b[n..] else b
  }

  function PushAll(front: seq<Attr>, back: Option<seq<Attr>>): Option<seq<Attr>> {
    if back.None? then None else Some(front + back.value)
  }

  lemma PushTwice(a: seq<Attr>, b: seq<Attr>, back: Option<seq<Attr>>)
    ensures PushAll(a, PushAll(b, back)) == PushAll(a + b, back)
    ensures PushAll([], back) == back
  {
    if back.Some? {
      assert a + (b + back.value) == a + b + back.value && [] + back.value == back.value;
    }
  }

  lemma ParseNext(front: seq<Attr>, b: seq<Byte>, one: seq<Attr>, rest: seq<Byte>)
    requires |b| >= ATTRIBUTE_HEADER_SIZE && ParseOne(b) == Some((one, rest))
    ensures PushAll(front, ParseAttrs(b)) == PushAll(front + one, ParseAttrs(rest))
  {
    PushTwice(front, one, ParseAttrs(rest));
  }

  lemma ReadableIs(b: seq<Byte>, one: seq<Attr>, rest: seq<Byte>)
    requires |b| >= ATTRIBUTE_HEADER_SIZE && ParseOne(b) == Some((one, rest))
    ensures Readable(b) == one + Readable(rest)
  {
  }

  lemma Joined(a: seq<Attr>, b: seq<Attr>, c: seq<Attr>)
    ensures a + b + c == a + (b + c)
  {
  }

  lemma ReadableNext(front: seq<Attr>, b: seq<Byte>, one: seq<Attr>, rest: seq<Byte>)
    requires |b| >= ATTRIBUTE_HEADER_SIZE && ParseOne(b) == Some((one, rest))
    ensures front + Readable(b) == (front + one) + Readable(rest)
  {
    ReadableIs(b, one, rest);
    Joined(front, one, Readable(rest));
  }

  /** Without the magic cookie those four bytes belong to the transaction id. */
  function ParseTransactionId(b: seq<Byte>): seq<Byte>
    requires |b| >= HEADER_SIZE
  {
    if GetBe32(b, 4) != MAGIC_COOKIE then b[4..20] else b[8..20]
  }

  function Parse(b: seq<Byte>): Option<Message> {
    if |b| < HEADER_SIZE || GetBe16(b, 0) >= 0x8000 || |b| - HEADER_SIZE != GetBe16(b, 2) then None
    else
      match ParseAttrs(b[20..])
      case None => None
      case Some(attrs) => Some(Message(GetBe16(b, 0), GetBe16(b, 2), ParseTransactionId(b), attrs))
  }

  /** What reading `b` into a message leaves of it, also when the parser gives up half-way. */
  function Absorbed(m: Message, b: seq<Byte>): Message {
    if |b| < 2 then m
    else if GetBe16(b, 0) >= 0x8000 || |b| < 4 then m.(typ := GetBe16(b, 0))
    else if |b| < HEADER_SIZE then m.(typ := GetBe16(b, 0), length := GetBe16(b, 2))
    else
      Message(GetBe16(b, 0), GetBe16(b, 2), ParseTransactionId(b),
              if |b| - HEADER_SIZE != GetBe16(b, 2) then m.attrs else Readable(b[20..]))
  }

  // ----- integrity and fingerprint

  lemma {:induction false} PrintAttrsAppend(attrs: seq<Attr>, more: seq<Attr>)
    ensures PrintAttrs(attrs + more) == PrintAttrs(attrs) + PrintAttrs(more)
  {
    if attrs == [] {
      assert attrs + more == more;
    } else {
      PrintAttrsAppend(attrs[1..], more);
      assert (attrs + more)[1..] == attrs[1..] + more;
      Associative(PrintAttr(attrs[0]), PrintAttrs(attrs[1..]), PrintAttrs(more));
    }
  }

  lemma PrintOne(a: Attr)
    ensures PrintAttrs([a]) == PrintAttr(a)
  {
    assert [a][1..] == [];
    assert PrintAttr(a) + [] == PrintAttr(a);
  }

  lemma PrintNext(attrs: seq<Attr>, i: nat)
    requires i < |attrs|
    ensures PrintAttrs(attrs[..i + 1]) == PrintAttrs(attrs[..i]) + PrintAttr(attrs[i])
  {
    PrintAttrsAppend(attrs[..i], [attrs[i]]);
    PrintOne(attrs[i]);
    assert attrs[..i + 1] == attrs[..i] + [attrs[i]];
  }

  lemma PrintLast(m: Message, a: Attr)
    ensures Print(WithAttribute(m, a)) == Header(WithAttribute(m, a)) + PrintAttrs(m.attrs) + PrintAttr(a)
  {
    PrintAttrsAppend(m.attrs, [a]);
    PrintOne(a);
  }

  function Placeholder(): (b: AttrBytes)
    ensures |b| == MESSAGE_INTEGRITY_SIZE
  {
    seq(MESSAGE_INTEGRITY_SIZE, _ => 48)
  }

  /** What the HMAC covers: everything before the attribute, with the length field counting it. */
  function IntegrityInput(m: Message): seq<Byte> {
    PrintLast(m, ByteString(MESSAGE_INTEGRITY, Placeholder()));
    var b := Print(WithAttribute(m, ByteString(MESSAGE_INTEGRITY, Placeholder())));
    b[..|b| - ATTRIBUTE_HEADER_SIZE - MESSAGE_INTEGRITY_SIZE]
  }

  function WithIntegrity(m: Message, hmac: Hmac, key: seq<Byte>): Message
    requires |hmac(key, IntegrityInput(m))| == MESSAGE_INTEGRITY_SIZE
  {
    WithAttribute(m, ByteString(MESSAGE_INTEGRITY, hmac(key, IntegrityInput(m))))
  }

  function FingerprintInput(m: Message): seq<Byte> {
    PrintLast(m, UInt32(FINGERPRINT, 0));
    var b := Print(WithAttribute(m, UInt32(FINGERPRINT, 0)));
    b[..|b| - FINGERPRINT_SIZE]
  }

  function WithFingerprint(m: Message, crc: Crc): Message {
    WithAttribute(m, UInt32(FINGERPRINT, Xor32(crc(FingerprintInput(m)), FINGERPRINT_XOR_VALUE)))
  }

  predicate FingerprintValid(b: seq<Byte>, crc: Crc) {
    && |b| % 4 == 0 && |b| >= HEADER_SIZE + FINGERPRINT_SIZE
    && GetBe32(b, 4) == MAGIC_COOKIE
    && GetBe16(b, |b| - FINGERPRINT_SIZE) == FINGERPRINT
    && GetBe16(b, |b| - FINGERPRINT_SIZE + 2) == 4
    && Xor32(GetBe32(b, |b| - 4), FINGERPRINT_XOR_VALUE) == crc(b[..|b| - FINGERPRINT_SIZE])
  }

  /** Position of the first attribute of type `typ` from `pos` on. */
  function FindAttr(b: seq<Byte>, pos: nat, typ: Uint16): (at: Option<nat>)
    ensures at.Some? ==> pos <= at.value && at.value + ATTRIBUTE_HEADER_SIZE <= |b|
    decreases |b| - pos
  {
    if pos + ATTRIBUTE_HEADER_SIZE > |b| then None
    else if GetBe16(b, pos) == typ then Some(pos)
    else
      var length := GetBe16(b, pos + 2);
      FindAttr(b, pos + ATTRIBUTE_HEADER_SIZE + length + Padding(length), typ)
  }

  /** The bytes the HMAC is checked over: what precedes the attribute, the length field set back to end
      with it if more follows. */
  function CheckedInput(b: seq<Byte>, at: nat): seq<Byte>
    requires HEADER_SIZE <= at <= |b|
  {
    if |b| > at + ATTRIBUTE_HEADER_SIZE + MESSAGE_INTEGRITY_SIZE
    then b[..2] + Be16((at + ATTRIBUTE_HEADER_SIZE + MESSAGE_INTEGRITY_SIZE - HEADER_SIZE) % 0x1_0000) + b[4..at]
    else b[..at]
  }

  /** A comparison that would run past the end of the message counts as a mismatch. */
  predicate IntegrityValid(b: seq<Byte>, hmac: Hmac, key: seq<Byte>) {
    if |b| % 4 != 0 || |b| < HEADER_SIZE || GetBe16(b, 2) + HEADER_SIZE != |b| then false
    else
      match FindAttr(b, HEADER_SIZE, MESSAGE_INTEGRITY)
      case None => false
      case Some(at) =>
        var h := hmac(key, CheckedInput(b, at));
        |h| == MESSAGE_INTEGRITY_SIZE && at + 24 <= |b| && b[at + 4..at + 24] == h
  }

  datatype IntegrityStatus = NotSet | NoIntegrity | IntegrityOk | IntegrityBad

  predicate HasAttr(attrs: seq<Attr>, typ: Uint16) {
    exists i :: 0 <= i < |attrs| && attrs[i].typ == typ
  }

  class StunMessage {
    var typ: Uint16
    var length: Uint16
    var transactionId: seq<Byte>
    var attrs: seq<Attr>
    var integrity: IntegrityStatus
    var password: seq<Byte>
    var buffer: seq<Byte>

    ghost function Value(): Message
      reads this
    {
      Message(typ, length, transactionId, attrs)
    }

    constructor ()
      ensures Value() == Message(0, 0, seq(12, _ => 48), []) && integrity == NotSet
    {
      typ, length, transactionId, attrs := 0, 0, seq(12, _ => 48), [];
      integrity, password, buffer := NotSet, [], [];
    }

    method AddAttribute(a: Attr)
      modifies `length, `attrs
      ensures Value() == WithAttribute(old(Value()), a)
    {
      var attrLength := |Body(a)|;
      if attrLength % 4 != 0 {
        attrLength := attrLength + (4 - attrLength % 4);
      }
      length := (length + attrLength + ATTRIBUTE_HEADER_SIZE) % 0x1_0000;
      attrs := attrs + [a];
    }

    method Write() returns (buf: seq<Byte>)
      ensures buf == Print(Value())
    {
      buf := Be16(typ) + Be16(length) + Be32(MAGIC_COOKIE) + transactionId;
      ghost var header := buf;
      var i := 0;
      while i < |attrs|
        invariant i <= |attrs| && buf == header + PrintAttrs(attrs[..i])
      {
        PrintNext(attrs, i);
        Associative(header, PrintAttrs(attrs[..i]), PrintAttr(attrs[i]));
        buf := buf + PrintAttr(attrs[i]);
        i := i + 1;
      }
      assert attrs[..i] == attrs;
    }

    /** On failure the fields read so far stay changed. */
    method Read(b: seq<Byte>) returns (ok: bool)
      modifies this
      ensures buffer == b && integrity == old(integrity) && password == old(password)
      ensures ok <==> Parse(b).Some?
      ensures Value() == Absorbed(old(Value()), b) && (ok ==> Value() == Parse(b).value)
    {
      buffer := b;
      if |b| < 2 {
        return false;
      }
      typ := GetBe16(b, 0);
      if typ >= 0x8000 {
        return false;
      }
      if |b| < 4 {
        return false;
      }
      length := GetBe16(b, 2);
      if |b| < HEADER_SIZE {
        return false;
      }
      transactionId := b[8..20];
      if GetBe32(b, 4) != MAGIC_COOKIE {
        transactionId := b[4..8] + transactionId;
        assert transactionId == b[4..20];
      }
      if |b| - HEADER_SIZE != length {
        return false;
      }
      ok := ReadAttributes(b[20..]);
    }

    method ReadAttributes(b: seq<Byte>) returns (ok: bool)
      modifies `attrs
      ensures ok <==> ParseAttrs(b).Some?
      ensures attrs == Readable(b) && (ok ==> attrs == ParseAttrs(b).value)
    {
      attrs := [];
      var rest := b;
      PushTwice([], [], ParseAttrs(b));
      while rest != []
        invariant ParseAttrs(b) == PushAll(attrs, ParseAttrs(rest)) && Readable(b) == attrs + Readable(rest)
        decreases |rest|
      {
        if |rest| < ATTRIBUTE_HEADER_SIZE {
          return false;
        }
        ghost var front, last := attrs, rest;
        var read;
        read, rest := ReadAttribute(rest);
        if !read {
          return false;
        }
        ParseNext(front, last, ParseOne(last).value.0, rest);
        ReadableNext(front, last, ParseOne(last).value.0, rest);
      }
      return true;
    }

    /** One turn of the loop: skips an attribute of unknown type, appends one of known type. */
    method ReadAttribute(b: seq<Byte>) returns (ok: bool, rest: seq<Byte>)
      requires |b| >= ATTRIBUTE_HEADER_SIZE
      modifies `attrs
      ensures ok <==> ParseOne(b).Some?
      ensures if ok then attrs == old(attrs) + ParseOne(b).value.0 && rest == ParseOne(b).value.1
              else attrs == old(attrs)
    {
      var t, attrLength := GetBe16(b, 0), GetBe16(b, 2);
      rest := b[4..];
      match ValueTypeOf(t) {
        case UnknownValue =>
          var skip := (attrLength + Padding(attrLength)) % 0x1_0000;
          if skip > |rest| {
            return false, rest;
          }
          rest := rest[skip..];
        case UInt32Value =>
          if |rest| < 4 {
            return false, rest;
          }
          attrs := attrs + [UInt32(t, GetBe32(rest, 0))];
          rest := rest[4..];
        case ByteStringValue =>
          if |rest| < attrLength {
            return false, rest;
          }
          attrs := attrs + [ByteString(t, rest[..attrLength])];
          rest := SkipPadding(rest[attrLength..], Padding(attrLength));
      }
      return true, rest;
    }

    /** Fails, with the placeholder left in place, if the digest has the wrong size. */
    method AddMessageIntegrity(hmac: Hmac, key: seq<Byte>) returns (ok: bool)
      modifies this
      ensures buffer == old(buffer)
      ensures ok <==> |hmac(key, IntegrityInput(old(Value())))| == MESSAGE_INTEGRITY_SIZE
      ensures if ok then Value() == WithIntegrity(old(Value()), hmac, key) && password == key && integrity == IntegrityOk
              else Value() == WithAttribute(old(Value()), ByteString(MESSAGE_INTEGRITY, Placeholder())) &&
                   password == old(password) && integrity == old(integrity)
    {
      AddAttribute(ByteString(MESSAGE_INTEGRITY, Placeholder()));
      var buf := Write();
      PrintLast(old(Value()), ByteString(MESSAGE_INTEGRITY, Placeholder()));
      var hash := hmac(key, buf[..|buf| - ATTRIBUTE_HEADER_SIZE - MESSAGE_INTEGRITY_SIZE]);
      if |hash| != MESSAGE_INTEGRITY_SIZE {
        return false;
      }
      attrs := attrs[|attrs| - 1 := ByteString(MESSAGE_INTEGRITY, hash)];
      password := key;
      integrity := IntegrityOk;
      return true;
    }

    method AddFingerprint(crc: Crc) returns (ok: bool)
      modifies `length, `attrs
      ensures ok && Value() == WithFingerprint(old(Value()), crc)
    {
      AddAttribute(UInt32(FINGERPRINT, 0));
      var buf := Write();
      PrintLast(old(Value()), UInt32(FINGERPRINT, 0));
      var c := crc(buf[..|buf| - FINGERPRINT_SIZE]);
      attrs := attrs[|attrs| - 1 := UInt32(FINGERPRINT, Xor32(c, FINGERPRINT_XOR_VALUE))];
      return true;
    }

    method ValidateMessageIntegrity(hmac: Hmac, key: seq<Byte>) returns (status: IntegrityStatus)
      modifies `password, `integrity
      ensures password == key && integrity == status
      ensures status == if !HasAttr(attrs, MESSAGE_INTEGRITY) then NoIntegrity
                        else if IntegrityValid(buffer, hmac, key) then IntegrityOk else IntegrityBad
    {
      password := key;
      if HasAttr(attrs, MESSAGE_INTEGRITY) {
        var valid := ValidateMessageIntegrityOfType(buffer, hmac, key);
        integrity := if valid then IntegrityOk else IntegrityBad;
      } else {
        integrity := NoIntegrity;
      }
      status := integrity;
    }

    static method ValidateMessageIntegrityOfType(data: seq<Byte>, hmac: Hmac, key: seq<Byte>) returns (valid: bool)
      ensures valid == IntegrityValid(data, hmac, key)
    {
      var size := |data|;
      if size % 4 != 0 || size < HEADER_SIZE {
        return false;
      }
      if GetBe16(data, 2) + HEADER_SIZE != size {
        return false;
      }
      var currentPos: nat := HEADER_SIZE;
      var found := false;
      while currentPos + ATTRIBUTE_HEADER_SIZE <= size
        invariant HEADER_SIZE <= currentPos && !found
        invariant FindAttr(data, currentPos, MESSAGE_INTEGRITY) == FindAttr(data, HEADER_SIZE, MESSAGE_INTEGRITY)
        decreases size - currentPos
      {
        var attrType, attrLength := GetBe16(data, currentPos), GetBe16(data, currentPos + 2);
        if attrType == MESSAGE_INTEGRITY {
          found := true;
          break;
        }
        currentPos := currentPos + ATTRIBUTE_HEADER_SIZE + attrLength;
        if attrLength % 4 != 0 {
          currentPos := currentPos + (4 - attrLength % 4);
        }
      }
      if !found {
        return false;
      }
      var temp := data[..currentPos];
      if size > currentPos + ATTRIBUTE_HEADER_SIZE + MESSAGE_INTEGRITY_SIZE {
        var extraPos := currentPos + ATTRIBUTE_HEADER_SIZE + MESSAGE_INTEGRITY_SIZE;
        var extraSize := size - extraPos;
        var adjusted := size - extraSize - HEADER_SIZE;
        temp := data[..2] + Be16(adjusted % 0x1_0000) + data[4..currentPos];
      }
      var hash := hmac(key, temp);
      if |hash| != MESSAGE_INTEGRITY_SIZE {
        return false;
      }
      return currentPos + 24 <= size && data[currentPos + 4..currentPos + 24] == hash;
    }
  }
}
