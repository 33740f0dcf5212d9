/** The envelope that im nodes exchange, and its binary codec (internal/im/bus/envelope.go). */
module Envelope {
  import opened Wrappers
  import opened Varint

  const TYPE_UP: Byte := 2
  const TYPE_EVT: Byte := 3

  const UINT16_LIMIT: nat := 0x1_0000

  /** A Go slice has at most 2^63 - 1 elements; nothing longer can be encoded or received. */
  const MAX_LEN: nat := 0x7FFF_FFFF_FFFF_FFFF

  /** A slice that tells nil from empty: Deliver computes the candidates only for a nil Route. */
  datatype Route = Unset | Nodes(names: seq<Bytes>)

  datatype Envelope = Envelope(
    typ: Byte, hop: nat, app: Bytes, subject: Bytes, connId: Bytes, extra: Bytes, route: Route, payload: Bytes)
  {
    /** The range of the uint16 cursor. */
    predicate Representable() {
      hop < UINT16_LIMIT
    }

    /** Nil and empty Route read the same on the wire. */
    function Normal(): Envelope {
      if route == Nodes([]) then this.(route := Unset) else this
    }

    function Names(): seq<Bytes> {
      if route.Unset? then [] else route.names
    }
  }

  // ----- Specification of the wire format -----

  function PutField(s: Bytes): Bytes {
    Put(|s|) + s
  }

  function PutFields(ss: seq<Bytes>): (b: Bytes)
    ensures |ss| <= |b|
  {
    if ss == [] then [] else PutField(ss[0]) + PutFields(ss[1..])
  }

  function PutNames(names: seq<Bytes>): Bytes {
    Put(|names|) + PutFields(names)
  }

  function Encoded(e: Envelope): Bytes
    requires e.Representable()
  {
    Head(e) + (PutFields(Texts(e)) + (PutNames(e.Names()) + PutField(e.payload)))
  }

  function Head(e: Envelope): (b: Bytes)
    requires e.Representable()
    ensures |b| == 3
  {
    [e.typ, e.hop / 256, e.hop % 256]
  }

  function Texts(e: Envelope): (t: seq<Bytes>)
    ensures |t| == 4
  {
    [e.app, e.subject, e.connId, e.extra]
  }

  /** A value with the bytes that follow it. */
  datatype Parsed<+T> = Parsed(value: T, rest: Bytes)

  function GetField(b: Bytes): (r: Option<Parsed<Bytes>>)
    ensures r.Some? ==> |r.value.value| + |r.value.rest| < |b|
  {
    var n := Get(b);
    if !n.Done? || |b| - n.width < n.value then None
    else Some(Parsed(b[n.width..][..n.value], b[n.width..][n.value..]))
  }

  function GetFields(b: Bytes, n: nat): (r: Option<Parsed<seq<Bytes>>>)
    ensures r.Some? ==> |r.value.value| == n && |r.value.rest| + n <= |b|
    decreases n
  {
    if n == 0 then Some(Parsed([], b))
    else
      var head :- GetField(b);
      var tail :- GetFields(head.rest, n - 1);
      Some(Parsed([head.value] + tail.value, tail.rest))
  }

  function GetNames(b: Bytes): (r: Option<Parsed<seq<Bytes>>>)
    ensures r.Some? ==> |r.value.value| + |r.value.rest| < |b|
  {
    var n := Get(b);
    if !n.Done? || n.value > |b| - n.width then None
    else GetFields(b[n.width..], n.value)
  }

  /** Everything after the three fixed bytes. */
  datatype Body = Body(texts: seq<Bytes>, names: seq<Bytes>, payload: Bytes)

  function GetBody(b: Bytes): (r: Option<Body>)
    ensures r.Some? ==> |r.value.texts| == 4
  {
    var texts :- GetFields(b, 4);
    var names :- GetNames(texts.rest);
    var payload :- GetField(names.rest);
    if payload.rest != [] then None else Some(Body(texts.value, names.value, payload.value))
  }

  function Uint16(hi: nat, lo: nat): nat {
    hi * 256 + lo
  }

  function Assemble(head: Bytes, body: Body): Envelope
    requires |head| == 3 && |body.texts| == 4
  {
    Envelope(head[0], Uint16(head[1], head[2]), body.texts[0], body.texts[1], body.texts[2], body.texts[3],
             if body.names == [] then Unset else Nodes(body.names), body.payload)
  }

  function Decoded(b: Bytes): Option<Envelope> {
    if |b| < 3 then None
    else
      var body :- GetBody(b[3..]);
      Some(Assemble(b[..3], body))
  }

  // ----- The code -----

  method Encode(e: Envelope) returns (b: Bytes)
    requires e.Representable()
    ensures b == Encoded(e)
  {
    b := [e.typ];
    b := b + [e.hop / 256, e.hop % 256];
    assert b == Head(e);
    b := AppendAll(b, Texts(e));
    b := Append(b, |e.Names()|);
    b := AppendAll(b, e.Names());
    b := Append(b, |e.payload|);
    b := b + e.payload;
    assert b == ((((Head(e) + PutFields(Texts(e))) + Put(|e.Names()|)) + PutFields(e.Names())) + Put(|e.payload|))
                + e.payload;
    Flatten(Head(e), PutFields(Texts(e)), Put(|e.Names()|), PutFields(e.Names()),
            Put(|e.payload|), e.payload);
  }

  lemma Flatten(a: Bytes, b: Bytes, c: Bytes, d: Bytes, x: Bytes, y: Bytes)
    ensures ((((a + b) + c) + d) + x) + y == a + (b + ((c + d) + (x + y)))
  {
  }

  /** The loop body shared by the four text fields and the route: length prefix, then the bytes. */
  method AppendAll(prefix: Bytes, ss: seq<Bytes>) returns (b: Bytes)
    ensures b == prefix + PutFields(ss)
  {
    b := prefix;
    for i := 0 to |ss|
      invariant b + PutFields(ss[i..]) == prefix + PutFields(ss)
    {
      assert ss[i..][0] == ss[i] && ss[i..][1..] == ss[i + 1..];
      ghost var before := b;
      b := Append(b, |ss[i]|);
      b := b + ss[i];
      assert b == before + PutField(ss[i]);
      assert b + PutFields(ss[i + 1..]) == before + (PutField(ss[i]) + PutFields(ss[i + 1..]));
    }
    assert ss[|ss|..] == [];
  }

  /** The closure of the source: takes one field off `rest`. */
  method ReadBytes(rest: Bytes) returns (r: Option<Parsed<Bytes>>)
    ensures r == GetField(rest)
  {
    var n := Uvarint(rest);
    if !n.Done? || |rest| - n.width < n.value {
      return None;
    }
    assert rest[n.width..][..n.value] == rest[n.width..n.width + n.value];
    assert rest[n.width..][n.value..] == rest[n.width + n.value..];
    return Some(Parsed(rest[n.width..n.width + n.value], rest[n.width + n.value..]));
  }

  ghost function Joined(front: seq<Bytes>, tail: Option<Parsed<seq<Bytes>>>): Option<Parsed<seq<Bytes>>> {
    if tail.None? then None else Some(Parsed(front + tail.value.value, tail.value.rest))
  }

  lemma JoinedStep(front: seq<Bytes>, b: Bytes, n: nat)
    requires n > 0
    ensures Joined(front, GetFields(b, n)) ==
            if GetField(b).None? then None
            else Joined(front + [GetField(b).value.value], GetFields(GetField(b).value.rest, n - 1))
  {
    if GetField(b).Some? {
      var head := GetField(b).value;
      var tail := GetFields(head.rest, n - 1);
      if tail.Some? {
        assert front + ([head.value] + tail.value.value) == (front + [head.value]) + tail.value.value;
      }
    }
  }

  lemma JoinedNothing(r: Option<Parsed<seq<Bytes>>>)
    ensures Joined([], r) == r
  {
    if r.Some? { assert [] + r.value.value == r.value.value; }
  }

  method ReadAll(b: Bytes, n: nat) returns (r: Option<Parsed<seq<Bytes>>>)
    ensures r == GetFields(b, n)
  {
    var rest, out: seq<Bytes> := b, [];
    JoinedNothing(GetFields(b, n));
    for i := 0 to n
      invariant Joined(out, GetFields(rest, n - i)) == GetFields(b, n)
    {
      JoinedStep(out, rest, n - i);
      var f := ReadBytes(rest);
      if f.None? {
        return None;
      }
      out, rest := out + [f.value.value], f.value.rest;
    }
    assert out + [] == out;
    return Some(Parsed(out, rest));
  }

  /** `reserved` is the capacity the route slice is made with: never more than the bytes received, so a forged
      count cannot size the allocation. */
  method Decode(b: Bytes) returns (r: Option<Envelope>, reserved: nat)
    ensures r == Decoded(b)
    ensures reserved <= |b|
    ensures r.Some? ==> reserved == |r.value.Names()|
  {
    reserved := 0;
    if |b| < 3 {
      return None, 0;
    }
    var fields := ReadAll(b[3..], 4);
    if fields.None? {
      return None, 0;
    }
    var rest := fields.value.rest;
    var count := Uvarint(rest);
    if !count.Done? {
      return None, 0;
    }
    if count.value > |rest| - count.width {
      return None, 0;
    }
    rest := rest[count.width..];
    var route := Unset;
    if count.value > 0 {
      reserved := count.value;
      var names := ReadAll(rest, count.value);
      if names.None? {
        return None, reserved;
      }
      rest := names.value.rest;
      route := Nodes(names.value.value);
    }
    var payload := ReadBytes(rest);
    if payload.None? || payload.value.rest != [] {
      return None, reserved;
    }
    r := Some(Assemble(b[..3], Body(fields.value.value, if route.Unset? then []
        else route.names, payload.value.value)));
  }

  // ----- Laws -----

  lemma FieldRoundTrip(s: Bytes, rest: Bytes)
    requires |s| <= MAX_LEN
    ensures GetField(PutField(s) + rest) == Some(Parsed(s, rest))
  {
    var b := PutField(s) + rest;
    assert b == Put(|s|) + (s + rest);
    RoundTrip(|s|, s + rest);
    var n := Get(b);
    assert b[n.width..] == s + rest;
  }

  lemma {:induction false} FieldsRoundTrip(ss: seq<Bytes>, rest: Bytes)
    requires |PutFields(ss)| <= MAX_LEN
    ensures GetFields(PutFields(ss) + rest, |ss|) == Some(Parsed(ss, rest))
  {
    if ss == [] {
      assert PutFields(ss) + rest == rest;
    } else {
      var tail := PutFields(ss[1..]) + rest;
      assert PutFields(ss) + rest == PutField(ss[0]) + tail;
      FieldRoundTrip(ss[0], tail);
      FieldsRoundTrip(ss[1..], rest);
      assert [ss[0]] + ss[1..] == ss;
    }
  }

  lemma NamesRoundTrip(names: seq<Bytes>, rest: Bytes)
    requires |PutNames(names)| <= MAX_LEN
    ensures GetNames(PutNames(names) + rest) == Some(Parsed(names, rest))
  {
    var b := PutNames(names) + rest;
    var tail := PutFields(names) + rest;
    assert b == Put(|names|) + tail;
    RoundTrip(|names|, tail);
    assert b[Get(b).width..] == tail;
    FieldsRoundTrip(names, rest);
  }

  function PutBody(body: Body): Bytes {
    PutFields(body.texts) + (PutNames(body.names) + PutField(body.payload))
  }

  function BodyOf(e: Envelope): (body: Body)
    ensures |body.texts| == 4
  {
    Body(Texts(e), e.Names(), e.payload)
  }

  lemma BodyRoundTrip(body: Body, extra: Bytes)
    requires |body.texts| == 4 && |PutBody(body)| <= MAX_LEN
    ensures GetBody(PutBody(body) + extra) == if extra == [] then Some(body) else None
  {
    var afterNames := PutField(body.payload) + extra;
    var afterTexts := PutNames(body.names) + afterNames;
    assert PutBody(body) + extra == PutFields(body.texts) + afterTexts;
    FieldsRoundTrip(body.texts, afterTexts);
    NamesRoundTrip(body.names, afterNames);
    FieldRoundTrip(body.payload, extra);
  }

  lemma AssembleInverse(e: Envelope)
    requires e.Representable()
    ensures Assemble(Head(e), BodyOf(e)) == e.Normal()
  {
    assert Uint16(e.hop / 256, e.hop % 256) == e.hop;
  }

  lemma DecodeParts(head: Bytes, tail: Bytes)
    requires |head| == 3
    ensures Decoded(head + tail) == var body := GetBody(tail); if body.None? then None
        else Some(Assemble(head, body.value))
  {
    assert (head + tail)[..3] == head && (head + tail)[3..] == tail;
  }

  /** Decoding an encoded envelope gives it back (nil and empty Route identified), and nothing may follow it. */
  lemma DecodeEncode(e: Envelope, extra: Bytes)
    requires e.Representable() && |Encoded(e)| <= MAX_LEN
    ensures Decoded(Encoded(e) + extra) == if extra == [] then Some(e.Normal()) else None
  {
    assert Encoded(e) == Head(e) + PutBody(BodyOf(e));
    BodyRoundTrip(BodyOf(e), extra);
    assert Encoded(e) + extra == Head(e) + (PutBody(BodyOf(e)) + extra);
    DecodeParts(Head(e), PutBody(BodyOf(e)) + extra);
    AssembleInverse(e);
  }

  lemma RoundTripExact(e: Envelope)
    requires e.Representable() && |Encoded(e)| <= MAX_LEN
    ensures Decoded(Encoded(e)) == Some(e.Normal())
  {
    assert Encoded(e) + [] == Encoded(e);
    DecodeEncode(e, []);
  }

  /** Two envelopes with the same bytes differ at most in nil versus empty Route. */
  lemma EncodeInjective(a: Envelope, b: Envelope)
    requires a.Representable() && b.Representable() && |Encoded(a)| <= MAX_LEN
    requires Encoded(a) == Encoded(b)
    ensures a.Normal() == b.Normal()
  {
    RoundTripExact(a);
    RoundTripExact(b);
  }

  /** `out` followed by `rest` is no longer than `b`, and is `b` when it is as long. */
  predicate Canon(out: Bytes, rest: Bytes, b: Bytes) {
    |out| + |rest| <= |b| && (|out| + |rest| == |b| ==> out + rest == b)
  }

  lemma FieldCanonical(b: Bytes)
    requires GetField(b).Some?
    ensures var r := GetField(b).value; Canon(PutField(r.value), r.rest, b)
  {
    Canonical(b);
    var n := Get(b);
    assert b == b[..n.width] + (b[n.width..][..n.value] + b[n.width..][n.value..]);
  }

  lemma CanonChain(x: Bytes, mid: Bytes, y: Bytes, rest: Bytes, b: Bytes)
    requires Canon(x, mid, b) && Canon(y, rest, mid)
    ensures Canon(x + y, rest, b)
  {
    assert x + y + rest == x + (y + rest);
  }

  lemma {:induction false} FieldsCanonical(b: Bytes, n: nat)
    requires GetFields(b, n).Some?
    ensures var r := GetFields(b, n).value; Canon(PutFields(r.value), r.rest, b)
    decreases n
  {
    if n == 0 {
      assert [] + b == b;
    } else {
      var head := GetField(b).value;
      var tail := GetFields(head.rest, n - 1).value;
      FieldCanonical(b);
      FieldsCanonical(head.rest, n - 1);
      CanonChain(PutField(head.value), head.rest, PutFields(tail.value), tail.rest, b);
      var all := [head.value] + tail.value;
      assert all[0] == head.value && all[1..] == tail.value;
    }
  }

  lemma NamesCanonical(b: Bytes)
    requires GetNames(b).Some?
    ensures var r := GetNames(b).value; Canon(PutNames(r.value), r.rest, b)
  {
    Canonical(b);
    var n := Get(b);
    assert b == b[..n.width] + b[n.width..];
    FieldsCanonical(b[n.width..], n.value);
    var r := GetNames(b).value;
    CanonChain(Put(n.value), b[n.width..], PutFields(r.value), r.rest, b);
  }

  lemma BodyCanonical(b: Bytes)
    requires GetBody(b).Some?
    ensures Canon(PutBody(GetBody(b).value), [], b)
  {
    var texts := GetFields(b, 4).value;
    var names := GetNames(texts.rest).value;
    var payload := GetField(names.rest).value;
    FieldsCanonical(b, 4);
    NamesCanonical(texts.rest);
    FieldCanonical(names.rest);
    CanonChain(PutNames(names.value), names.rest, PutField(payload.value), payload.rest, texts.rest);
    CanonChain(PutFields(texts.value), texts.rest, PutNames(names.value) + PutField(payload.value), [], b);
  }

  lemma TakeApart(head: Bytes, body: Body)
    requires |head| == 3 && |body.texts| == 4
    ensures var e := Assemble(head, body); e.Representable() && Head(e) == head && BodyOf(e) == body
  {
    var e := Assemble(head, body);
    var hi, lo: nat := head[1], head[2];
    assert Uint16(hi, lo) / 256 == hi && Uint16(hi, lo) % 256 == lo;
    assert head == [head[0], head[1], head[2]];
    assert body.texts == [body.texts[0], body.texts[1], body.texts[2], body.texts[3]];
  }

  /** Whatever bytes Decode accepts, the envelope re-encodes to no more bytes, decodes to itself again, and is the
      received bytes exactly when the lengths agree (every length prefix was minimal). */
  lemma EncodeDecode(b: Bytes)
    requires |b| <= MAX_LEN && Decoded(b).Some?
    ensures var e := Decoded(b).value;
            && e.Representable()
            && |Encoded(e)| <= |b|
            && Decoded(Encoded(e)) == Some(e)
            && (|Encoded(e)| == |b| <==> Encoded(e) == b)
  {
    var body := GetBody(b[3..]).value;
    var e := Decoded(b).value;
    BodyCanonical(b[3..]);
    TakeApart(b[..3], body);
    assert PutBody(body) + [] == PutBody(body);
    assert Encoded(e) == b[..3] + PutBody(body);
    assert b == b[..3] + b[3..];
    RoundTripExact(e);
  }

  // ----- The layout other nodes rely on -----

  /** Type, cursor high byte first, application, subject, connection, extra, the number of route nodes with their names,
      payload; every byte string behind its length. */
  lemma LaidOut(e: Envelope)
    requires e.Representable()
    ensures var b := Encoded(e);
            && |b| > 3 && b[0] == e.typ && e.hop == 256 * (b[1] as int) + (b[2] as int)
            && b[3..] == Put(|e.app|) + e.app + Put(|e.subject|) + e.subject + Put(|e.connId|) + e.connId
                         + Put(|e.extra|) + e.extra + Put(|e.Names()|) + PutFields(e.Names())
                         + Put(|e.payload|) + e.payload
  {
    var t := Texts(e);
    assert t[1..] == [e.subject, e.connId, e.extra] && t[1..][1..] == [e.connId, e.extra];
    assert t[1..][1..][1..] == [e.extra] && PutFields(t[1..][1..][1..]) == PutField(e.extra) + [];
    assert PutFields(t[1..][1..]) == PutField(e.connId) + (PutField(e.extra) + []);
    assert PutFields(t[1..]) == PutField(e.subject) + (PutField(e.connId) + (PutField(e.extra) + []));
    assert Encoded(e)[3..] == PutFields(t) + (PutNames(e.Names()) + PutField(e.payload));
    Joined8(Put(|e.app|), e.app, Put(|e.subject|), e.subject, Put(|e.connId|), e.connId, Put(|e.extra|), e.extra);
  }

  lemma Joined8(a: Bytes, b: Bytes, c: Bytes, d: Bytes, p: Bytes, q: Bytes, r: Bytes, s: Bytes)
    ensures (a + b) + ((c + d) + ((p + q) + ((r + s) + []))) == a + b + c + d + p + q + r + s
  {
  }

  /** The names of a route one after the other, each behind its length. */
  lemma {:induction false} NamesLaidOut(names: seq<Bytes>, last: Bytes)
    ensures PutFields(names + [last]) == PutFields(names) + (Put(|last|) + last)
  {
    if names == [] {
      assert names + [last] == [last] && |[last][1..]| == 0;
    } else {
      assert (names + [last])[0] == names[0] && (names + [last])[1..] == names[1..] + [last];
      NamesLaidOut(names[1..], last);
    }
  }
}
