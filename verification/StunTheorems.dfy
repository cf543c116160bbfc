/** What printing, parsing, integrity and fingerprint mean for each other. */
module StunTheorems {
  import opened Options
  import opened Bytes
  import opened Stun

  // ----- sizes

  /** The length field counts the attributes, modulo 2^16, as AddAttribute keeps it. */
  predicate Built(m: Message) {
    m.length == |PrintAttrs(m.attrs)| % 0x1_0000 && |m.transactionId| == TRANSACTION_ID_LENGTH
  }

  function AddAll(m: Message, attrs: seq<Attr>): Message {
    if attrs == [] then m else WithAttribute(AddAll(m, attrs[..|attrs| - 1]), attrs[|attrs| - 1])
  }

  lemma AddKeepsBuilt(m: Message, a: Attr)
    requires Built(m)
    ensures Built(WithAttribute(m, a))
    ensures PrintAttrs(WithAttribute(m, a).attrs) == PrintAttrs(m.attrs) + PrintAttr(a)
  {
    PrintAttrsAppend(m.attrs, [a]);
    PrintOne(a);
  }

  lemma {:induction false} AddAllBuilds(typ: Uint16, transactionId: seq<Byte>, attrs: seq<Attr>)
    requires |transactionId| == TRANSACTION_ID_LENGTH
    ensures var m := AddAll(Message(typ, 0, transactionId, []), attrs);
            Built(m) && m.attrs == attrs
  {
    if attrs != [] {
      var front, last := attrs[..|attrs| - 1], attrs[|attrs| - 1];
      AddAllBuilds(typ, transactionId, front);
      AddKeepsBuilt(AddAll(Message(typ, 0, transactionId, []), front), last);
      assert attrs == front + [last];
    }
  }

  lemma PrintedSize(m: Message)
    requires Built(m)
    ensures |Print(m)| == HEADER_SIZE + |PrintAttrs(m.attrs)|
    ensures |Print(m)| == HEADER_SIZE + m.length <==> |PrintAttrs(m.attrs)| < 0x1_0000
  {
    var n := |PrintAttrs(m.attrs)|;
    assert n % 0x1_0000 == n <==> n < 0x1_0000;
  }

  /** However a message is put together, its written size is 20 plus its length field, unless the
      attributes reach 2^16 bytes: then the field has wrapped. */
  lemma {:induction false} WrittenSize(typ: Uint16, transactionId: seq<Byte>, attrs: seq<Attr>)
    requires |transactionId| == TRANSACTION_ID_LENGTH
    ensures var m := AddAll(Message(typ, 0, transactionId, []), attrs);
            Built(m) && m.attrs == attrs && |Print(m)| == HEADER_SIZE + |PrintAttrs(attrs)| &&
            (|Print(m)| == HEADER_SIZE + m.length <==> |PrintAttrs(attrs)| < 0x1_0000)
  {
    AddAllBuilds(typ, transactionId, attrs);
    PrintedSize(AddAll(Message(typ, 0, transactionId, []), attrs));
  }

  lemma SizeOf(a: Attr)
    requires |Body(a)| % 4 == 0
    ensures |PrintAttr(a)| == 4 + |Body(a)|
  {
  }

  lemma PrintAttrAligned(a: Attr)
    ensures |PrintAttr(a)| % 4 == 0
  {
  }

  lemma AlignedSum(a: nat, b: nat)
    requires a % 4 == 0 && b % 4 == 0
    ensures (a + b) % 4 == 0
  {
  }

  /** Padding keeps everything on 4-byte boundaries. */
  lemma {:induction false} PrintAttrsAligned(attrs: seq<Attr>)
    ensures |PrintAttrs(attrs)| % 4 == 0
  {
    if attrs != [] {
      PrintAttrAligned(attrs[0]);
      PrintAttrsAligned(attrs[1..]);
      AlignedSum(|PrintAttr(attrs[0])|, |PrintAttrs(attrs[1..])|);
    }
  }

  // ----- the parser undoes the printer

  /** Attributes of the types the parser knows carry the kind of value it expects. */
  predicate WellTyped(a: Attr) {
    match ValueTypeOf(a.typ)
    case UInt32Value => a.UInt32?
    case ByteStringValue => a.ByteString?
    case UnknownValue => true
  }

  predicate AllWellTyped(attrs: seq<Attr>) {
    forall i :: 0 <= i < |attrs| ==> WellTyped(attrs[i])
  }

  function Known(attrs: seq<Attr>): seq<Attr> {
    if attrs == [] then []
    else (if ValueTypeOf(attrs[0].typ) != UnknownValue then [attrs[0]] else []) + Known(attrs[1..])
  }

  /** A printed attribute, taken apart again. */
  lemma PrintedParts(a: Attr, tail: seq<Byte>)
    ensures var b := PrintAttr(a) + tail;
            var n := |Body(a)|;
            |b| >= 4 && GetBe16(b, 0) == a.typ && GetBe16(b, 2) == n &&
            b[4..] == Body(a) + (Zeroes(Padding(n)) + tail) && b[4 + n + Padding(n)..] == tail
  {
    var n := |Body(a)|;
    Be16Inverse(a.typ);
    Be16Inverse(n);
    var b := PrintAttr(a) + tail;
    assert b[..2] == Be16(a.typ) && b[2..4] == Be16(n);
    assert b[4..] == Body(a) + (Zeroes(Padding(n)) + tail);
  }

  lemma ParseUnknown(b: seq<Byte>, typ: Uint16, n: nat, skip: nat, tail: seq<Byte>)
    requires |b| >= 4 && GetBe16(b, 0) == typ && GetBe16(b, 2) == n && ValueTypeOf(typ) == UnknownValue
    requires skip == (n + Padding(n)) % 0x1_0000 && skip <= |b| - 4 && b[4..][skip..] == tail
    ensures ParseAttrs(b) == ParseAttrs(tail)
  {
    PushTwice([], [], ParseAttrs(tail));
  }

  lemma ParseUInt32(b: seq<Byte>, typ: Uint16, bits: Uint32, tail: seq<Byte>)
    requires |b| >= 4 && GetBe16(b, 0) == typ && ValueTypeOf(typ) == UInt32Value
    requires b[4..] == Be32(bits) + tail
    ensures ParseAttrs(b) == PushAll([UInt32(typ, bits)], ParseAttrs(tail))
  {
    var rest := b[4..];
    assert rest[4..] == tail && rest[..4] == Be32(bits);
    Be32Inverse(bits);
  }

  lemma ParseByteString(b: seq<Byte>, typ: Uint16, bytes: AttrBytes, tail: seq<Byte>)
    requires |b| >= 4 && GetBe16(b, 0) == typ && GetBe16(b, 2) == |bytes| && ValueTypeOf(typ) == ByteStringValue
    requires b[4..] == bytes + (Zeroes(Padding(|bytes|)) + tail)
    ensures ParseAttrs(b) == PushAll([ByteString(typ, bytes)], ParseAttrs(tail))
  {
    var rest := b[4..];
    var padded := Zeroes(Padding(|bytes|)) + tail;
    assert rest[..|bytes|] == bytes && rest[|bytes|..] == padded;
    assert padded[Padding(|bytes|)..] == tail;
  }

  lemma ParsePrintedAttr(a: Attr, tail: seq<Byte>)
    requires WellTyped(a) && |PrintAttr(a)| < 0x1_0000
    ensures ParseAttrs(PrintAttr(a) + tail)
            == if ValueTypeOf(a.typ) == UnknownValue then ParseAttrs(tail) else PushAll([a], ParseAttrs(tail))
  {
    var b := PrintAttr(a) + tail;
    PrintedParts(a, tail);
    match ValueTypeOf(a.typ)
    case UnknownValue =>
      var skip := |Body(a)| + Padding(|Body(a)|);
      assert b[4..][skip..] == tail;
      ParseUnknown(b, a.typ, |Body(a)|, skip, tail);
    case UInt32Value =>
      assert Zeroes(Padding(4)) + tail == tail;
      ParseUInt32(b, a.typ, a.bits, tail);
    case ByteStringValue => ParseByteString(b, a.typ, a.bytes, tail);
  }

  lemma {:induction false} ParsePrintedAttrs(attrs: seq<Attr>)
    requires AllWellTyped(attrs) && |PrintAttrs(attrs)| < 0x1_0000
    ensures ParseAttrs(PrintAttrs(attrs)) == Some(Known(attrs))
  {
    if attrs != [] {
      ParsePrintedAttrs(attrs[1..]);
      ParsePrintedAttr(attrs[0], PrintAttrs(attrs[1..]));
      assert [] + Known(attrs[1..]) == Known(attrs[1..]);
    }
  }

  lemma HeaderParts(m: Message, tail: seq<Byte>)
    requires |m.transactionId| == TRANSACTION_ID_LENGTH
    ensures var b := Header(m) + tail;
            |b| >= HEADER_SIZE && GetBe16(b, 0) == m.typ && GetBe16(b, 2) == m.length &&
            GetBe32(b, 4) == MAGIC_COOKIE && b[8..20] == m.transactionId && b[20..] == tail
  {
    var b := Header(m) + tail;
    Be16Inverse(m.typ);
    Be16Inverse(m.length);
    Be32Inverse(MAGIC_COOKIE);
    assert b[..2] == Be16(m.typ) && b[2..4] == Be16(m.length) && b[4..8] == Be32(MAGIC_COOKIE);
  }

  lemma BuiltLength(m: Message)
    requires Built(m) && |PrintAttrs(m.attrs)| < 0x1_0000
    ensures m.length == |PrintAttrs(m.attrs)| && |Print(m)| == HEADER_SIZE + m.length
  {
  }

  /** Parsing a written message succeeds, uses every byte, and gives back the type, the transaction id
      and, in order, exactly the attributes of known type. */
  lemma ParseUndoesPrint(m: Message)
    requires Built(m) && m.typ < 0x8000 && AllWellTyped(m.attrs) && |PrintAttrs(m.attrs)| < 0x1_0000
    ensures Parse(Print(m)) == Some(m.(attrs := Known(m.attrs)))
  {
    BuiltLength(m);
    assert ParseAttrs(PrintAttrs(m.attrs)) == Some(Known(m.attrs)) by { ParsePrintedAttrs(m.attrs); }
    HeaderParts(m, PrintAttrs(m.attrs));
    ParseFrom(Print(m), m, Known(m.attrs));
  }

  lemma ParseFrom(b: seq<Byte>, m: Message, attrs: seq<Attr>)
    requires |b| >= HEADER_SIZE && GetBe16(b, 0) == m.typ < 0x8000 && GetBe16(b, 2) == m.length
    requires GetBe32(b, 4) == MAGIC_COOKIE && b[8..20] == m.transactionId && |b| == HEADER_SIZE + m.length
    requires ParseAttrs(b[20..]) == Some(attrs)
    ensures Parse(b) == Some(m.(attrs := attrs))
  {
  }

  // ----- finding an attribute

  lemma SkipOne(b: seq<Byte>, front: seq<Byte>, a: Attr, more: seq<Byte>, typ: Uint16)
    requires a.typ != typ && b == front + (PrintAttr(a) + more)
    ensures FindAttr(b, |front|, typ) == FindAttr(b, |front + PrintAttr(a)|, typ)
  {
    PrintedParts(a, more);
    GetAtSeam(front, PrintAttr(a) + more, 0);
    GetAtSeam(front, PrintAttr(a) + more, 2);
  }

  lemma NotAmongRest(attrs: seq<Attr>, typ: Uint16)
    requires !HasAttr(attrs, typ) && attrs != []
    ensures attrs[0].typ != typ && !HasAttr(attrs[1..], typ)
  {
    assert forall i :: 0 <= i < |attrs| - 1 ==> attrs[1..][i] == attrs[i + 1];
  }

  lemma Regrouped(a: seq<Byte>, b: seq<Byte>, c: seq<Byte>, d: seq<Byte>)
    ensures a + (b + c + d) == a + (b + (c + d)) == (a + b) + (c + d)
    ensures |a + b| + |c| == |a| + |b + c|
  {
    Associative(b, c, d);
    Associative(a, b, c + d);
  }

  lemma SkipFirst(b: seq<Byte>, front: seq<Byte>, attrs: seq<Attr>, tail: seq<Byte>, typ: Uint16)
    requires !HasAttr(attrs, typ) && attrs != [] && b == front + (PrintAttrs(attrs) + tail)
    ensures var front', rest := front + PrintAttr(attrs[0]), PrintAttrs(attrs[1..]);
            b == front' + (rest + tail) && !HasAttr(attrs[1..], typ) &&
            FindAttr(b, |front|, typ) == FindAttr(b, |front'|, typ) && |front'| + |rest| == |front| + |PrintAttrs(attrs)|
  {
    var p, rest := PrintAttr(attrs[0]), PrintAttrs(attrs[1..]);
    NotAmongRest(attrs, typ);
    Regrouped(front, p, rest, tail);
    SkipOne(b, front, attrs[0], rest + tail, typ);
  }

  /** The search passes over written attributes of other types. */
  lemma {:induction false} SkipPrinted(b: seq<Byte>, front: seq<Byte>, attrs: seq<Attr>, tail: seq<Byte>, typ: Uint16,
                                       end: nat, found: Option<nat>)
    requires !HasAttr(attrs, typ) && b == front + (PrintAttrs(attrs) + tail)
    requires end == |front| + |PrintAttrs(attrs)| && found == FindAttr(b, end, typ)
    ensures FindAttr(b, |front|, typ) == found
    decreases |attrs|
  {
    if attrs != [] {
      SkipFirst(b, front, attrs, tail, typ);
      SkipPrinted(b, front + PrintAttr(attrs[0]), attrs[1..], tail, typ, end, found);
    }
  }

  lemma FindHere(front: seq<Byte>, tail: seq<Byte>, typ: Uint16)
    requires |tail| >= 4 && GetBe16(tail, 0) == typ
    ensures FindAttr(front + tail, |front|, typ) == Some(|front|)
  {
    GetAtSeam(front, tail, 0);
  }

  lemma FindPrinted(b: seq<Byte>, front: seq<Byte>, attrs: seq<Attr>, tail: seq<Byte>, typ: Uint16)
    requires !HasAttr(attrs, typ) && |tail| >= 4 && GetBe16(tail, 0) == typ
    requires b == front + (PrintAttrs(attrs) + tail)
    ensures FindAttr(b, |front|, typ) == Some(|front| + |PrintAttrs(attrs)|)
  {
    var end := |front| + |PrintAttrs(attrs)|;
    FindHere(front + PrintAttrs(attrs), tail, typ);
    Associative(front, PrintAttrs(attrs), tail);
    SkipPrinted(b, front, attrs, tail, typ, end, Some(end));
  }

  // ----- the fingerprint

  /** A message with a fingerprint of value `v` in place of the placeholder. */
  lemma FingerprintedBytes(m: Message, v: Uint32)
    ensures var b := Print(WithAttribute(m, UInt32(FINGERPRINT, v)));
            b == FingerprintInput(m) + PrintAttr(UInt32(FINGERPRINT, v)) && |PrintAttr(UInt32(FINGERPRINT, v))| == 8
  {
    FingerprintInputParts(m);
    PrintLast(m, UInt32(FINGERPRINT, v));
  }

  lemma FingerprintInputParts(m: Message)
    ensures FingerprintInput(m) == Header(WithAttribute(m, UInt32(FINGERPRINT, 0))) + PrintAttrs(m.attrs)
  {
    PrintLast(m, UInt32(FINGERPRINT, 0));
  }

  lemma FingerprintInputIs(m: Message)
    requires Built(m)
    ensures var f := FingerprintInput(m);
            |f| >= HEADER_SIZE && |f| % 4 == 0 && GetBe32(f, 4) == MAGIC_COOKIE
  {
    FingerprintInputParts(m);
    HeaderParts(WithAttribute(m, UInt32(FINGERPRINT, 0)), PrintAttrs(m.attrs));
    PrintAttrsAligned(m.attrs);
    AlignedSum(HEADER_SIZE, |PrintAttrs(m.attrs)|);
  }

  /** Bytes followed by a fingerprint of value `v` are accepted exactly if they are a whole number of words,
      with header and cookie, and `v` is their own checksum. */
  lemma FingerprintHolds(front: seq<Byte>, v: Uint32, crc: Crc)
    ensures FingerprintValid(front + PrintAttr(UInt32(FINGERPRINT, v)), crc)
            <==> |front| >= 20 && |front| % 4 == 0 && GetBe32(front, 4) == 0x2112_A442 &&
                 Xor32(v, 0x5354_554E) == crc(front)
  {
    var b := front + PrintAttr(UInt32(FINGERPRINT, v));
    FingerprintBytes(front, v);
    assert b[..|b| - 8] == front;
    assert |front| >= 20 ==> GetBe32(b, 4) == GetBe32(front, 4);
  }

  /** Whatever is accepted ends in a FINGERPRINT attribute. */
  lemma FingerprintIsLast(b: seq<Byte>, crc: Crc)
    requires FingerprintValid(b, crc)
    ensures b == b[..|b| - 8] + PrintAttr(UInt32(FINGERPRINT, GetBe32(b, |b| - 4)))
    ensures b[|b| - 8..|b| - 4] == [0x80, 0x28, 0, 4]
  {
    var n := |b| - 8;
    var v := GetBe32(b, n + 4);
    Be16Inverse(FINGERPRINT);
    Be16Unique(b[n..n + 2], FINGERPRINT);
    Be16Unique(b[n + 2..n + 4], 4);
    Be32Unique(b[n + 4..], v);
    assert b[n..] == b[n..n + 2] + b[n + 2..n + 4] + b[n + 4..];
    assert PrintAttr(UInt32(FINGERPRINT, v)) == Be16(FINGERPRINT) + Be16(4) + Be32(v);
  }

  /** Damage shows: with the bytes in front changed to others of a different checksum, or with another
      value, what was accepted is rejected. */
  lemma DamageIsDetected(front: seq<Byte>, v: Uint32, front': seq<Byte>, v': Uint32, crc: Crc)
    requires FingerprintValid(front + PrintAttr(UInt32(FINGERPRINT, v)), crc)
    ensures crc(front') != crc(front) ==> !FingerprintValid(front' + PrintAttr(UInt32(FINGERPRINT, v)), crc)
    ensures v' != v ==> !FingerprintValid(front + PrintAttr(UInt32(FINGERPRINT, v')), crc)
  {
    FingerprintHolds(front, v, crc);
    FingerprintHolds(front', v, crc);
    FingerprintHolds(front, v', crc);
    Xor32Twice(v, 0x5354_554E);
    Xor32Twice(v', 0x5354_554E);
  }

  /** FINGERPRINT is the last attribute of a message and vouches for every byte before it. */
  lemma FingerprintRoundTrip(m: Message, crc: Crc)
    requires Built(m)
    ensures FingerprintValid(Print(WithFingerprint(m, crc)), crc)
    ensures Print(WithFingerprint(m, crc)) == FingerprintInput(m) + PrintAttr(UInt32(FINGERPRINT,
              Xor32(crc(FingerprintInput(m)), FINGERPRINT_XOR_VALUE)))
  {
    var front := FingerprintInput(m);
    var value := Xor32(crc(front), FINGERPRINT_XOR_VALUE);
    FingerprintedBytes(m, value);
    FingerprintInputIs(m);
    Xor32Twice(crc(front), FINGERPRINT_XOR_VALUE);
    FingerprintHolds(front, value, crc);
  }

  lemma FingerprintBytes(front: seq<Byte>, value: Uint32)
    ensures var b := front + PrintAttr(UInt32(FINGERPRINT, value));
            |b| == |front| + 8 && GetBe16(b, |b| - 8) == FINGERPRINT && GetBe16(b, |b| - 6) == 4 &&
            GetBe32(b, |b| - 4) == value
  {
    var p := PrintAttr(UInt32(FINGERPRINT, value));
    Be16Inverse(FINGERPRINT);
    Be16Inverse(4);
    Be32Inverse(value);
    assert p == Be16(FINGERPRINT) + Be16(4) + Be32(value);
    GetAtSeam(front, p, 0);
    GetAtSeam(front, p, 2);
    GetAtSeam(front, p, 4);
  }

  // ----- integrity

  function MessageIntegrity(digest: seq<Byte>): Attr
    requires |digest| == MESSAGE_INTEGRITY_SIZE
  {
    ByteString(MESSAGE_INTEGRITY, digest)
  }

  /** The header of a message without its first four bytes. */
  function CookieAndId(m: Message): seq<Byte> {
    Be32(MAGIC_COOKIE) + m.transactionId
  }

  lemma HeaderIs(m: Message)
    ensures Header(m) == Be16(m.typ) + Be16(m.length) + CookieAndId(m)
  {
  }

  /** The HMAC input: the header with a length that counts the integrity attribute, then the earlier
      attributes. */
  lemma IntegrityInputIs(m: Message)
    requires Built(m)
    ensures IntegrityInput(m) == Front(m, (|PrintAttrs(m.attrs)| + 24) % 0x1_0000)
  {
    var a := ByteString(MESSAGE_INTEGRITY, Placeholder());
    var m1 := WithAttribute(m, a);
    PrintLast(m, a);
    HeaderIs(m1);
    AddKeepsBuilt(m, a);
    assert |PrintAttr(a)| == 24;
    var front := Header(m1) + PrintAttrs(m.attrs);
    assert Print(m1)[..|Print(m1)| - 24] == front;
    FrontIs(m1, m.attrs);
  }

  lemma FrontIs(m: Message, attrs: seq<Attr>)
    ensures Header(m) + PrintAttrs(attrs) == Front(m.(attrs := attrs), m.length)
  {
  }

  /** The first four bytes, the rest of the header, and the attributes before the integrity attribute. */
  function Front(m: Message, length: Uint16): seq<Byte> {
    Be16(m.typ) + Be16(length) + (CookieAndId(m) + PrintAttrs(m.attrs))
  }

  lemma FrontParts(m: Message, length: Uint16, tail: seq<Byte>)
    requires |m.transactionId| == TRANSACTION_ID_LENGTH
    ensures var b := Front(m, length) + tail;
            var at := HEADER_SIZE + |PrintAttrs(m.attrs)|;
            |Front(m, length)| == at && GetBe16(b, 2) == length && b[..2] == Be16(m.typ) &&
            b[4..at] == CookieAndId(m) + PrintAttrs(m.attrs) && b[..at] == Front(m, length)
  {
    var b := Front(m, length) + tail;
    Be16Inverse(length);
    assert b[2..4] == Be16(length);
  }

  lemma FindIntegrity(m: Message, length: Uint16, digest: seq<Byte>, extra: seq<Byte>)
    requires |m.transactionId| == TRANSACTION_ID_LENGTH && |digest| == MESSAGE_INTEGRITY_SIZE
    requires !HasAttr(m.attrs, MESSAGE_INTEGRITY)
    ensures FindAttr(Front(m, length) + (PrintAttr(MessageIntegrity(digest)) + extra), HEADER_SIZE, MESSAGE_INTEGRITY)
            == Some(HEADER_SIZE + |PrintAttrs(m.attrs)|)
  {
    var tail := PrintAttr(MessageIntegrity(digest)) + extra;
    PrintedParts(MessageIntegrity(digest), extra);
    AfterHeader(m, length, tail);
    FindPrinted(Front(m, length) + tail, Start(m, length), m.attrs, tail, MESSAGE_INTEGRITY);
  }

  /** A header with that length field. */
  function Start(m: Message, length: Uint16): seq<Byte> {
    Be16(m.typ) + Be16(length) + CookieAndId(m)
  }

  lemma AfterHeader(m: Message, length: Uint16, tail: seq<Byte>)
    requires |m.transactionId| == TRANSACTION_ID_LENGTH
    ensures |Start(m, length)| == HEADER_SIZE
    ensures Front(m, length) + tail == Start(m, length) + (PrintAttrs(m.attrs) + tail)
  {
  }

  /** Whether or not something follows the attribute, the HMAC is checked over its input. */
  lemma CheckedInputIs(m: Message, length: Uint16, tail: seq<Byte>)
    requires |m.transactionId| == TRANSACTION_ID_LENGTH && |tail| >= 24
    requires |tail| == 24 ==> length == (|PrintAttrs(m.attrs)| + 24) % 0x1_0000
    ensures CheckedInput(Front(m, length) + tail, HEADER_SIZE + |PrintAttrs(m.attrs)|)
            == Front(m, (|PrintAttrs(m.attrs)| + 24) % 0x1_0000)
  {
    FrontParts(m, length, tail);
  }

  lemma Aligned(a: nat, b: nat)
    requires a % 4 == 0 && b % 4 == 0
    ensures (HEADER_SIZE + a + 24 + b) % 4 == 0
  {
  }

  /** A written message whose integrity attribute, holding `digest`, is followed by `extra`. */
  predicate Sealed(m: Message, length: Uint16, digest: seq<Byte>, extra: seq<Byte>, b: seq<Byte>) {
    && Built(m) && |digest| == MESSAGE_INTEGRITY_SIZE && !HasAttr(m.attrs, MESSAGE_INTEGRITY)
    && length == |PrintAttrs(m.attrs)| + 24 + |extra| && |extra| % 4 == 0
    && b == Front(m, length) + (PrintAttr(MessageIntegrity(digest)) + extra)
  }

  lemma SealedShape(m: Message, length: Uint16, digest: seq<Byte>, extra: seq<Byte>, b: seq<Byte>)
    requires Sealed(m, length, digest, extra, b)
    ensures |b| % 4 == 0 && |b| == HEADER_SIZE + |PrintAttrs(m.attrs)| + 24 + |extra|
    ensures GetBe16(b, 2) + HEADER_SIZE == |b|
  {
    PrintAttrsAligned(m.attrs);
    Aligned(|PrintAttrs(m.attrs)|, |extra|);
    SizeOf(MessageIntegrity(digest));
    FrontParts(m, length, PrintAttr(MessageIntegrity(digest)) + extra);
  }

  lemma SealedInput(m: Message, length: Uint16, digest: seq<Byte>, extra: seq<Byte>, b: seq<Byte>)
    requires Sealed(m, length, digest, extra, b)
    ensures |b| >= HEADER_SIZE + |PrintAttrs(m.attrs)| + 24
    ensures CheckedInput(b, HEADER_SIZE + |PrintAttrs(m.attrs)|) == IntegrityInput(m)
  {
    SealedShape(m, length, digest, extra, b);
    SizeOf(MessageIntegrity(digest));
    CheckedInputIs(m, length, PrintAttr(MessageIntegrity(digest)) + extra);
    IntegrityInputIs(m);
  }

  lemma SealedDigest(m: Message, length: Uint16, digest: seq<Byte>, extra: seq<Byte>, b: seq<Byte>)
    requires Sealed(m, length, digest, extra, b)
    ensures var at := HEADER_SIZE + |PrintAttrs(m.attrs)|;
            FindAttr(b, HEADER_SIZE, MESSAGE_INTEGRITY) == Some(at) && |b| >= at + 24 && b[at + 4..at + 24] == digest
  {
    FindIntegrity(m, length, digest, extra);
    FrontParts(m, length, PrintAttr(MessageIntegrity(digest)) + extra);
    DigestBytes(Front(m, length), digest, extra, b);
  }

  /** A message carrying any digest whatsoever, with or without attributes behind it, is accepted exactly
      if the digest is that of the bytes the sender signs under the receiver's password. */
  lemma IntegrityExact(m: Message, length: Uint16, digest: seq<Byte>, extra: seq<Byte>, b: seq<Byte>,
                       hmac: Hmac, other: seq<Byte>)
    requires Sealed(m, length, digest, extra, b)
    ensures IntegrityValid(b, hmac, other) <==> hmac(other, IntegrityInput(m)) == digest
  {
    SealedShape(m, length, digest, extra, b);
    SealedInput(m, length, digest, extra, b);
    SealedDigest(m, length, digest, extra, b);
  }

  /** Bytes with the same first four that are accepted are equally many: nothing was added or cut off. */
  lemma LengthIsChecked(b: seq<Byte>, b': seq<Byte>, hmac: Hmac, key: seq<Byte>, key': seq<Byte>)
    requires IntegrityValid(b, hmac, key) && IntegrityValid(b', hmac, key') && b[..4] == b'[..4]
    ensures |b| == |b'| && |b| % 4 == 0
  {
    assert b[..4][2..] == b'[..4][2..] == [b[2], b[3]] == [b'[2], b'[3]];
  }

  /** A message written without a MESSAGE-INTEGRITY attribute is accepted under no password. */
  lemma UnsignedIsRejected(m: Message, hmac: Hmac, key: seq<Byte>)
    requires |m.transactionId| == TRANSACTION_ID_LENGTH && !HasAttr(m.attrs, MESSAGE_INTEGRITY)
    ensures !IntegrityValid(Print(m), hmac, key)
  {
    assert PrintAttrs(m.attrs) + [] == PrintAttrs(m.attrs);
    SkipPrinted(Print(m), Header(m), m.attrs, [], MESSAGE_INTEGRITY, |Print(m)|, None);
  }

  lemma DigestBytes(front: seq<Byte>, digest: seq<Byte>, extra: seq<Byte>, b: seq<Byte>)
    requires |digest| == MESSAGE_INTEGRITY_SIZE && b == front + (PrintAttr(MessageIntegrity(digest)) + extra)
    ensures |b| == |front| + 24 + |extra| && b[|front| + 4..|front| + 24] == digest
  {
    var mi := PrintAttr(MessageIntegrity(digest));
    assert mi == Be16(MESSAGE_INTEGRITY) + Be16(20) + digest + Zeroes(0);
    assert mi[4..24] == digest;
    assert b[|front| + 4..|front| + 24] == mi[4..24];
  }

  /** What one can do with a message before it is signed. */
  predicate Signable(m: Message, hmac: Hmac, key: seq<Byte>, extra: nat) {
    && Built(m) && !HasAttr(m.attrs, MESSAGE_INTEGRITY)
    && |PrintAttrs(m.attrs)| + 24 + extra < 0x1_0000
    && |hmac(key, IntegrityInput(m))| == MESSAGE_INTEGRITY_SIZE
  }

  /** A signed message is accepted under a password exactly if that password gives the same digest of
      the same bytes, in particular under the password it was signed with. */
  lemma IntegrityRoundTrip(m: Message, hmac: Hmac, key: seq<Byte>, other: seq<Byte>)
    requires Signable(m, hmac, key, 0)
    ensures IntegrityValid(Print(WithIntegrity(m, hmac, key)), hmac, other)
            <==> hmac(other, IntegrityInput(m)) == hmac(key, IntegrityInput(m))
  {
    var mi := MessageIntegrity(hmac(key, IntegrityInput(m)));
    var signed := WithIntegrity(m, hmac, key);
    SignedLength(m, mi);
    PrintLast(m, mi);
    FrontIs(signed, m.attrs);
    assert PrintAttr(mi) + [] == PrintAttr(mi);
    IntegrityExact(m, signed.length, mi.bytes, [], Print(signed), hmac, other);
  }

  lemma SignedLength(m: Message, a: Attr)
    requires Built(m) && |PrintAttrs(m.attrs)| + |PrintAttr(a)| < 0x1_0000
    ensures Built(WithAttribute(m, a)) && WithAttribute(m, a).length == |PrintAttrs(m.attrs)| + |PrintAttr(a)|
    ensures |PrintAttrs(WithAttribute(m, a).attrs)| == |PrintAttrs(m.attrs)| + |PrintAttr(a)|
  {
    AddKeepsBuilt(m, a);
  }

  lemma SealedBytes(m: Message, mi: Attr, fp: Attr)
    requires Built(m) && |PrintAttr(mi)| == 24 && |PrintAttr(fp)| == 8
    requires |PrintAttrs(m.attrs)| + 24 + 8 < 0x1_0000
    ensures Print(WithAttribute(WithAttribute(m, mi), fp))
            == Front(m, |PrintAttrs(m.attrs)| + 24 + 8) + (PrintAttr(mi) + PrintAttr(fp))
  {
    var signed := WithAttribute(m, mi);
    var sealed := WithAttribute(signed, fp);
    SignedLength(m, mi);
    SignedLength(signed, fp);
    AddKeepsBuilt(m, mi);
    PrintLast(signed, fp);
    FrontIs(sealed, m.attrs);
    Associative(Header(sealed), PrintAttrs(m.attrs), PrintAttr(mi));
    Associative(Header(sealed) + PrintAttrs(m.attrs), PrintAttr(mi), PrintAttr(fp));
  }

  /** Signing, then fingerprinting: the fingerprint holds, and the signature is still judged on the same
      bytes, although the length field now counts the fingerprint as well. */
  lemma SignedAndFingerprinted(m: Message, hmac: Hmac, crc: Crc, key: seq<Byte>, other: seq<Byte>)
    requires Signable(m, hmac, key, FINGERPRINT_SIZE)
    ensures FingerprintValid(Print(WithFingerprint(WithIntegrity(m, hmac, key), crc)), crc)
    ensures IntegrityValid(Print(WithFingerprint(WithIntegrity(m, hmac, key), crc)), hmac, other)
            <==> hmac(other, IntegrityInput(m)) == hmac(key, IntegrityInput(m))
  {
    var mi := MessageIntegrity(hmac(key, IntegrityInput(m)));
    var signed := WithIntegrity(m, hmac, key);
    var fp := UInt32(FINGERPRINT, Xor32(crc(FingerprintInput(signed)), FINGERPRINT_XOR_VALUE));
    SizeOf(mi);
    SizeOf(fp);
    SignedLength(m, mi);
    FingerprintRoundTrip(signed, crc);
    SealedBytes(m, mi, fp);
    IntegrityExact(m, |PrintAttrs(m.attrs)| + 24 + 8, mi.bytes, PrintAttr(fp), Print(WithFingerprint(signed, crc)),
                   hmac, other);
  }

  /** What a receiver that knows the password makes of some bytes. */
  function Receive(b: seq<Byte>, hmac: Hmac, crc: Crc, key: seq<Byte>): Option<Message> {
    if FingerprintValid(b, crc) && IntegrityValid(b, hmac, key) then Parse(b) else None
  }

  /** End to end: what one side signs, seals and writes, the other accepts and parses, the signature
      included. */
  lemma SignedMessageIsAccepted(m: Message, hmac: Hmac, crc: Crc, key: seq<Byte>)
    requires Signable(m, hmac, key, FINGERPRINT_SIZE) && m.typ < 0x8000 && AllWellTyped(m.attrs)
    ensures Receive(Print(WithFingerprint(WithIntegrity(m, hmac, key), crc)), hmac, crc, key)
            == Some(Message(m.typ, |PrintAttrs(m.attrs)| + 24 + 8, m.transactionId,
                            Known(m.attrs) + [MessageIntegrity(hmac(key, IntegrityInput(m)))]))
  {
    var mi := MessageIntegrity(hmac(key, IntegrityInput(m)));
    var fp := UInt32(FINGERPRINT, Xor32(crc(FingerprintInput(WithIntegrity(m, hmac, key))), FINGERPRINT_XOR_VALUE));
    SizeOf(mi);
    SizeOf(fp);
    SealedParses(m, mi, fp);
    SignedAndFingerprinted(m, hmac, crc, key, key);
  }

  lemma SealedParses(m: Message, mi: Attr, fp: Attr)
    requires Built(m) && m.typ < 0x8000 && AllWellTyped(m.attrs) && |PrintAttrs(m.attrs)| + 24 + 8 < 0x1_0000
    requires mi.ByteString? && mi.typ == MESSAGE_INTEGRITY && |PrintAttr(mi)| == 24
    requires fp.typ == FINGERPRINT && |PrintAttr(fp)| == 8
    ensures Parse(Print(WithAttribute(WithAttribute(m, mi), fp)))
            == Some(Message(m.typ, |PrintAttrs(m.attrs)| + 24 + 8, m.transactionId, Known(m.attrs) + [mi]))
  {
    var signed := WithAttribute(m, mi);
    var sealed := WithAttribute(signed, fp);
    SignedLength(m, mi);
    SignedLength(signed, fp);
    KnownSealed(m.attrs, mi, fp);
    assert sealed.attrs == m.attrs + [mi] + [fp];
    ParseUndoesPrint(sealed);
  }

  lemma KnownSealed(attrs: seq<Attr>, mi: Attr, fp: Attr)
    requires AllWellTyped(attrs) && mi.ByteString? && mi.typ == MESSAGE_INTEGRITY && fp.typ == FINGERPRINT
    ensures Known(attrs + [mi] + [fp]) == Known(attrs) + [mi]
    ensures AllWellTyped(attrs + [mi] + [fp])
  {
    KnownAppend(attrs, [mi]);
    KnownAppend(attrs + [mi], [fp]);
    assert [mi][1..] == [] && [fp][1..] == [];
  }

  lemma KnownFirst(attrs: seq<Attr>)
    requires attrs != []
    ensures Known(attrs) == Known([attrs[0]]) + Known(attrs[1..])
  {
    assert [attrs[0]][1..] == [];
  }

  lemma {:induction false} KnownAppend(attrs: seq<Attr>, more: seq<Attr>)
    ensures Known(attrs + more) == Known(attrs) + Known(more)
  {
    if attrs == [] {
      assert attrs + more == more;
    } else {
      KnownAppend(attrs[1..], more);
      assert (attrs + more)[1..] == attrs[1..] + more && (attrs + more)[0] == attrs[0];
      Joined(Known([attrs[0]]), Known(attrs[1..]), Known(more));
      KnownFirst(attrs);
      KnownFirst(attrs + more);
    }
  }
}
