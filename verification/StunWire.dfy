/** The bytes of a STUN message, one by one (sections 6 and 15 of RFC 5389), and the language the parser
    accepts. */
module StunWire {
  import opened Options
  import opened Bytes
  import opened Stun
  import T = StunTheorems

  /** The number written as two bytes, the high one first. */
  function Two(high: nat, low: nat): nat {
    high * 256 + low
  }

  // ----- what is written

  /** Type, length, magic cookie and transaction id stand where RFC 5389 has them, high bytes first. */
  lemma HeaderLayout(m: Message)
    requires |m.transactionId| == 12
    ensures var b := Print(m);
            |b| >= 20 && Two(b[0], b[1]) == m.typ && Two(b[2], b[3]) == m.length &&
            b[4] == 0x21 && b[5] == 0x12 && b[6] == 0xA4 && b[7] == 0x42 && b[8..20] == m.transactionId
  {
    T.HeaderParts(m, PrintAttrs(m.attrs));
    HeaderBytes(m);
    assert Print(m)[..8] == Header(m)[..8];
  }

  lemma HeaderBytes(m: Message)
    requires |m.transactionId| == 12
    ensures Header(m)[..8] == [m.typ / 256, m.typ % 256, m.length / 256, m.length % 256, 0x21, 0x12, 0xA4, 0x42]
  {
    assert Be32(MAGIC_COOKIE) == [0x21, 0x12, 0xA4, 0x42];
  }

  /** The number of four-byte words that hold `n` bytes. */
  function Words(n: nat): nat {
    (n + 3) / 4
  }

  /** An attribute is its type, the length of its value without padding, the value, and zeros up to the
      next word. */
  lemma AttrLayout(a: Attr)
    ensures var b, n := PrintAttr(a), |Body(a)|;
            |b| == 4 + 4 * Words(n) && Two(b[0], b[1]) == a.typ && Two(b[2], b[3]) == n &&
            b[4..4 + n] == Body(a) && forall i :: 4 + n <= i < |b| ==> b[i] == 0
    ensures a.UInt32? ==> var v := Body(a);
                          |v| == 4 && Two(v[0], v[1]) * 0x1_0000 + Two(v[2], v[3]) == a.bits
  {
    if a.UInt32? {
      Be32Inverse(a.bits);
    }
  }

  // ----- what is read

  /** One attribute on the wire; only the last may lack its padding, and only a string of bytes may. */
  predicate WireAttr(c: seq<Byte>, last: bool) {
    |c| >= 4 &&
    var typ, n := Two(c[0], c[1]), Two(c[2], c[3]);
    if typ == 0x0024 then |c| == 8
    else if typ == 0x0006 || typ == 0x0008 then |c| == 4 + 4 * Words(n) || (last && |c| == 4 + n)
    else |c| == 4 + 4 * Words(n) % 0x1_0000
  }

  /** What it says: PRIORITY a number, USERNAME and MESSAGE-INTEGRITY bytes, all others nothing. */
  function Meaning(c: seq<Byte>): seq<Attr>
    requires WireAttr(c, true)
  {
    var typ, n := Two(c[0], c[1]), Two(c[2], c[3]);
    if typ == 0x0024 then
      [UInt32(typ, Two(c[4], c[5]) * 0x1_0000 + Two(c[6], c[7]))]
    else if typ == 0x0006 || typ == 0x0008 then [ByteString(typ, c[4..4 + n])]
    else []
  }

  predicate WireAttrs(cs: seq<seq<Byte>>) {
    cs == [] || (WireAttr(cs[0], |cs| == 1) && WireAttrs(cs[1..]))
  }

  function Flat(cs: seq<seq<Byte>>): seq<Byte> {
    if cs == [] then [] else cs[0] + Flat(cs[1..])
  }

  function Meanings(cs: seq<seq<Byte>>): seq<Attr>
    requires WireAttrs(cs)
  {
    if cs == [] then [] else Meaning(cs[0]) + Meanings(cs[1..])
  }

  lemma PaddingFills(n: nat)
    ensures n + Padding(n) == 4 * Words(n) && Padding(n) < 4
  {
  }

  /** Skipping the value and its padding, complete or at the very end missing. */
  lemma SkipValue(c: seq<Byte>, rest: seq<Byte>, n: nat)
    requires |c| == 4 + n + Padding(n) || (rest == [] && |c| == 4 + n)
    ensures var b := (c + rest)[4..];
            b[..n] == c[4..4 + n] && SkipPadding(b[n..], Padding(n)) == rest
  {
    var b := (c + rest)[4..];
    assert b == c[4..] + rest;
    assert |b[n..]| < Padding(n) ==> b[n..] == [];
  }

  lemma ParsesNumber(c: seq<Byte>, rest: seq<Byte>)
    requires |c| == 8 && Two(c[0], c[1]) == 0x0024
    ensures ParseOne(c + rest) == Some(([UInt32(0x0024, Two(c[4], c[5]) * 0x1_0000 + Two(c[6], c[7]))], rest))
  {
    var b := c + rest;
    assert GetBe16(b, 0) == Two(c[0], c[1]) && b[4..][4..] == rest;
    assert GetBe32(b[4..], 0) == Two(c[4], c[5]) * 0x1_0000 + Two(c[6], c[7]);
  }

  lemma ParsesNothing(c: seq<Byte>, rest: seq<Byte>, skip: nat)
    requires |c| == 4 + skip && ValueTypeOf(Two(c[0], c[1])) == UnknownValue
    requires var n := Two(c[2], c[3]); skip == (n + Padding(n)) % 0x1_0000
    ensures ParseOne(c + rest) == Some(([], rest))
  {
    var b := c + rest;
    assert GetBe16(b, 0) == Two(c[0], c[1]) && GetBe16(b, 2) == Two(c[2], c[3]);
    assert b[4..][skip..] == rest;
  }

  lemma ParsesBytes(c: seq<Byte>, rest: seq<Byte>, typ: Uint16, n: nat)
    requires |c| >= 4 && typ == Two(c[0], c[1]) && ValueTypeOf(typ) == ByteStringValue && n == Two(c[2], c[3])
    requires |c| == 4 + n + Padding(n) || (rest == [] && |c| == 4 + n)
    ensures ParseOne(c + rest) == Some(([ByteString(typ, c[4..4 + n])], rest))
  {
    assert GetBe16(c + rest, 0) == typ && GetBe16(c + rest, 2) == n;
    SkipValue(c, rest, n);
  }

  /** The parser takes one attribute off the front. */
  lemma ParsesOne(c: seq<Byte>, rest: seq<Byte>)
    requires WireAttr(c, rest == [])
    ensures ParseOne(c + rest) == Some((Meaning(c), rest))
  {
    var typ, n := Two(c[0], c[1]), Two(c[2], c[3]);
    PaddingFills(n);
    if typ == 0x0024 {
      ParsesNumber(c, rest);
    } else if typ == 0x0006 || typ == 0x0008 {
      ParsesBytes(c, rest, typ, n);
    } else {
      ParsesNothing(c, rest, |c| - 4);
    }
  }

  lemma TakenParts(b: seq<Byte>, k: nat)
    requires 4 <= k <= |b|
    ensures b == b[..k] + b[k..] && Two(b[..k][0], b[..k][1]) == GetBe16(b, 0) && Two(b[..k][2], b[..k][3]) == GetBe16(b, 2)
  {
  }

  /** The first attribute takes a number of bytes, and the parser leaves the others. */
  lemma TakenBytes(b: seq<Byte>, one: seq<Attr>, rest: seq<Byte>)
    requires |b| >= 4 && ParseOne(b) == Some((one, rest)) && (rest == [] || |rest| >= 4)
    ensures var k := |b| - |rest|;
            k >= 4 && b[k..] == rest && WireAttr(b[..k], rest == [])
  {
    var k, typ, n := |b| - |rest|, GetBe16(b, 0), GetBe16(b, 2);
    PaddingFills(n);
    if typ == 0x0024 {
      DroppedTwice(b, 4);
    } else if typ == 0x0006 || typ == 0x0008 {
      LeftBehind(b, n, rest);
    } else {
      DroppedTwice(b, (n + Padding(n)) % 0x1_0000);
    }
    TakenParts(b, k);
  }

  lemma DroppedTwice(b: seq<Byte>, n: nat)
    ensures 4 + n <= |b| ==> b[4..][n..] == b[4 + n..]
  {
  }

  lemma LeftBehind(b: seq<Byte>, n: nat, rest: seq<Byte>)
    requires |b| >= 4 + n && rest == SkipPadding(b[4..][n..], Padding(n)) && (rest == [] || |rest| >= 4)
    ensures var k := |b| - |rest|;
            k >= 4 && b[k..] == rest && (k == 4 + n + Padding(n) || (rest == [] && k == 4 + n))
  {
    PaddingFills(n);
    assert b[4..][n..] == b[4 + n..];
    if Padding(n) <= |b[4 + n..]| {
      assert b[4 + n..][Padding(n)..] == b[4 + n + Padding(n)..];
    }
  }

  /** What the parser takes off the front is one attribute, and it returns what that says. */
  lemma TakenIsOne(b: seq<Byte>, one: seq<Attr>, rest: seq<Byte>)
    requires |b| >= 4 && ParseOne(b) == Some((one, rest)) && (rest == [] || |rest| >= 4)
    ensures var k := |b| - |rest|;
            b == b[..k] + rest && WireAttr(b[..k], rest == []) && Meaning(b[..k]) == one
  {
    TakenBytes(b, one, rest);
    var c := b[..|b| - |rest|];
    assert b == c + rest;
    ParsesOne(c, rest);
  }

  lemma {:induction false} WireParses(cs: seq<seq<Byte>>)
    requires WireAttrs(cs)
    ensures ParseAttrs(Flat(cs)) == Some(Meanings(cs))
    decreases |cs|
  {
    if cs != [] {
      var rest := Flat(cs[1..]);
      WireParses(cs[1..]);
      NothingLeft(cs);
      ParsesOne(cs[0], rest);
    }
  }

  lemma NothingLeft(cs: seq<seq<Byte>>)
    requires WireAttrs(cs) && cs != []
    ensures Flat(cs[1..]) == [] <==> |cs| == 1
  {
    if |cs| > 1 {
      assert |Flat(cs[1..])| == |cs[1]| + |Flat(cs[1..][1..])|;
    }
  }

  lemma {:induction false} ParsedIsWire(b: seq<Byte>) returns (cs: seq<seq<Byte>>)
    requires ParseAttrs(b).Some?
    ensures WireAttrs(cs) && Flat(cs) == b && ParseAttrs(b) == Some(Meanings(cs))
    decreases |b|
  {
    if b == [] {
      cs := [];
    } else {
      var (one, rest) := ParseOne(b).value;
      var c := b[..|b| - |rest|];
      var more := ParsedIsWire(rest);
      TakenIsOne(b, one, rest);
      cs := [c] + more;
      assert cs[1..] == more;
      assert more == [] <==> rest == [] by {
        if more != [] { NothingLeft([c] + more); }
      }
    }
  }

  /** The parser accepts exactly the strings of wire attributes, and returns what they say in order. */
  lemma ParseExact(b: seq<Byte>, attrs: seq<Attr>)
    ensures ParseAttrs(b) == Some(attrs)
            <==> exists cs :: WireAttrs(cs) && Flat(cs) == b && Meanings(cs) == attrs
  {
    if ParseAttrs(b) == Some(attrs) {
      var cs := ParsedIsWire(b);
    }
    forall cs | WireAttrs(cs) && Flat(cs) == b && Meanings(cs) == attrs
      ensures ParseAttrs(b) == Some(attrs)
    {
      WireParses(cs);
    }
  }

  /** A whole message is accepted exactly if it has a header whose first bit is clear, its length field
      counts all that follows the header, and that is a string of wire attributes. */
  lemma MessageExact(b: seq<Byte>)
    ensures Parse(b).Some? <==>
              |b| >= 20 && b[0] < 128 && |b| == 20 + Two(b[2], b[3]) &&
              exists cs :: WireAttrs(cs) && Flat(cs) == b[20..]
    ensures Parse(b).Some? ==>
              var m := Parse(b).value;
              m.typ == Two(b[0], b[1]) && m.length == Two(b[2], b[3]) && ParseAttrs(b[20..]) == Some(m.attrs) &&
              m.transactionId == if b[4..8] == [0x21, 0x12, 0xA4, 0x42] then b[8..20] else b[4..20]
  {
    if |b| >= 20 {
      if ParseAttrs(b[20..]).Some? {
        var cs := ParsedIsWire(b[20..]);
      }
      forall cs | WireAttrs(cs) && Flat(cs) == b[20..] ensures ParseAttrs(b[20..]).Some? {
        WireParses(cs);
      }
      CookieIs(b);
    }
  }

  lemma CookieIs(b: seq<Byte>)
    requires |b| >= 8
    ensures GetBe32(b, 4) == 0x2112_A442 <==> b[4..8] == [0x21, 0x12, 0xA4, 0x42]
  {
    if GetBe32(b, 4) == 0x2112_A442 {
      Be32Unique(b[4..8], 0x2112_A442);
      assert Be32(0x2112_A442) == [0x21, 0x12, 0xA4, 0x42];
    } else {
      assert b[4..8][0] == b[4];
      assert b[4..8][1] == b[5];
      assert b[4..8][2] == b[6];
      assert b[4..8][3] == b[7];
    }
  }
}
