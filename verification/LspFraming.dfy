/**
 * Message framing of the LSP client over a byte stream: a header with the
 * body's length, a blank line, the body.
 */
module LspFraming {
  import opened Options

  type Byte = b: nat | b < 256
  type Bytes = seq<Byte>

  const CR: Byte := 13
  const LF: Byte := 10
  const BlankLine: Bytes := [CR, LF, CR, LF]
  /** `Content-Length: ` in ASCII. */
  const LengthField: Bytes := [67, 111, 110, 116, 101, 110, 116, 45, 76, 101, 110, 103, 116, 104, 58, 32]

  // ---- Numbers in decimal ----

  predicate Digit(b: Byte) {
    48 <= b <= 57
  }

  function Decimal(n: nat): (s: Bytes)
    ensures s != [] && forall i | 0 <= i < |s| :: Digit(s[i])
  {
    if n < 10 then [48 + n] else Decimal(n / 10) + [48 + n % 10]
  }

  /** How many digits `s` begins with. */
  function Digits(s: Bytes): (n: nat)
    ensures n <= |s| && (forall i | 0 <= i < n :: Digit(s[i])) && (n < |s| ==> !Digit(s[n]))
  {
    if s == [] || !Digit(s[0]) then 0 else 1 + Digits(s[1..])
  }

  function Number(s: Bytes): nat
    requires forall i | 0 <= i < |s| :: Digit(s[i])
    decreases |s|
  {
    if s == [] then 0 else assert Digit(s[|s| - 1]); 10 * Number(s[..|s| - 1]) + (s[|s| - 1] - 48)
  }

  lemma {:induction false} DecimalRoundTrip(n: nat)
    ensures Number(Decimal(n)) == n
  {
    var s := Decimal(n);
    if n < 10 {
      assert s[..|s| - 1] == [];
    } else {
      DecimalRoundTrip(n / 10);
      assert s[..|s| - 1] == Decimal(n / 10);
    }
  }

  // ---- Reading a header ----

  function Lower(b: Byte): Byte {
    if 65 <= b <= 90 then b + 32 else b
  }

  predicate BeginsWithField(s: Bytes) {
    |LengthField| <= |s| && forall i | 0 <= i < |LengthField| :: Lower(s[i]) == Lower(LengthField[i])
  }

  /** The first `Content-Length: ` of a header, in any case, that digits follow: their value. */
  function ContentLength(header: Bytes): Option<nat> {
    if header == [] then None
    else
      var rest := if BeginsWithField(header) then header[|LengthField|..] else [];
      var n := Digits(rest);
      if n > 0 then Some(Number(rest[..n])) else ContentLength(header[1..])
  }

  /** The same letter in either case, or the same byte. */
  predicate AnyCase(a: Byte, b: Byte) {
    a == b || (65 <= a <= 90 && b == a + 32) || (97 <= a <= 122 && a == b + 32)
  }

  const FieldName: string := "Content-Length: "

  /** The field, in any case, with a digit behind it. */
  ghost predicate FieldAt(header: Bytes, i: nat) {
    && i + 16 < |header| && Digit(header[i + 16])
    && forall j | 0 <= j < 16 :: AnyCase(header[i + j], FieldName[j] as int as Byte)
  }

  lemma FieldIsSpelled()
    ensures |LengthField| == 16 && forall j | 0 <= j < 16 :: LengthField[j] == FieldName[j] as int
  {
  }

  lemma FieldBegins(s: Bytes)
    ensures FieldAt(s, 0) <==> BeginsWithField(s) && |s| > 16 && Digit(s[16])
  {
    FieldIsSpelled();
    if |s| > 16 {
      forall j | 0 <= j < 16 ensures Lower(s[j]) == Lower(LengthField[j])
          <==> AnyCase(s[j], FieldName[j] as int as Byte) {
        assert LengthField[j] == FieldName[j] as int;
      }
    }
  }

  lemma FieldLater(s: Bytes, i: nat)
    requires s != []
    ensures FieldAt(s, i + 1) <==> FieldAt(s[1..], i)
  {
    if i + 17 < |s| {
      assert forall k | i < k < |s| :: s[k] == s[1..][k - 1];
    }
  }

  /** The length a header says: the number behind the first field with a digit, wherever it stands. */
  lemma {:induction false} ContentLengthIs(header: Bytes)
    ensures ContentLength(header) == None <==> forall i: nat :: !FieldAt(header, i)
    ensures forall i: nat | FieldAt(header, i) && (forall j: nat | j < i :: !FieldAt(header, j)) ::
              var rest := header[i + 16..];
              ContentLength(header) == Some(Number(rest[..Digits(rest)]))
    decreases |header|
  {
    hide FieldAt, Number, AnyCase, BeginsWithField;
    if header == [] {
      forall i: nat ensures !FieldAt(header, i) {
        FieldInside(header, i);
      }
    } else {
      FieldBegins(header);
      forall i: nat ensures FieldAt(header, i + 1) <==> FieldAt(header[1..], i) {
        FieldLater(header, i);
      }
      ContentLengthIs(header[1..]);
      FieldIsSpelled();
      if FieldAt(header, 0) {
        FieldInside(header, 0);
      } else {
        assert ContentLength(header) == ContentLength(header[1..]) by {
          NoFieldHere(header);
        }
        forall i: nat | FieldAt(header, i) && (forall j: nat | j < i :: !FieldAt(header, j))
          ensures 0 < i < |header| - 16 && FieldAt(header[1..], i - 1) && header[1..][i - 1 + 16..] == header[i + 16..]
          ensures forall j: nat | j < i - 1 :: !FieldAt(header[1..], j)
        {
          FieldInside(header, i);
          forall j: nat | j < i - 1 ensures !FieldAt(header[1..], j) {
            assert !FieldAt(header, j + 1);
          }
        }
        forall i: nat ensures FieldAt(header, i) ==> i > 0 && FieldAt(header[1..], i - 1) {
        }
      }
    }
  }

  lemma FieldInside(s: Bytes, i: nat)
    ensures FieldAt(s, i) ==> i + 16 < |s|
  {
  }

  lemma FieldLength()
    ensures |LengthField| == 16
  {
  }

  lemma NoFieldHere(header: Bytes)
    requires header != [] && !(BeginsWithField(header) && |header| > 16 && Digit(header[16]))
    ensures ContentLength(header) == ContentLength(header[1..])
  {
    FieldLength();
    hide BeginsWithField, ContentLength, Digit, Digits;
    if BeginsWithField(header) {
      FieldFits(header);
      NoDigits(header[16..]);
    } else {
      NoDigits([]);
    }
    ContentLengthNext(header);
  }

  lemma FieldFits(s: Bytes)
    requires BeginsWithField(s)
    ensures |s| >= 16
  {
    FieldLength();
  }

  lemma ContentLengthNext(header: Bytes)
    requires header != [] && (BeginsWithField(header) ==> |header| >= 16)
    requires Digits(if BeginsWithField(header) then header[16..] else []) == 0
    ensures ContentLength(header) == ContentLength(header[1..])
  {
    FieldLength();
    hide BeginsWithField, Digits, Number;
  }

  lemma NoDigits(s: Bytes)
    requires s == [] || !Digit(s[0])
    ensures Digits(s) == 0
  {
  }

  /** Digits are read by place: zeros in front add nothing, and one more digit is ten times as much and itself. */
  lemma {:induction false} NumberIs(s: Bytes, d: Byte)
    requires (forall i | 0 <= i < |s| :: Digit(s[i])) && Digit(d)
    ensures Number(s + [d]) == 10 * Number(s) + (d - 48) && Number([48] + s) == Number(s) && Number([]) == 0
    decreases |s|
  {
    assert (s + [d])[..|s|] == s;
    var zero := [48] + s;
    if s == [] {
      assert zero[..0] == [];
    } else {
      var n := |s| - 1;
      NumberIs(s[..n], s[n]);
      assert zero[..|zero| - 1] == [48] + s[..n];
    }
  }

  predicate BlankHere(s: Bytes, i: nat) {
    i + 4 <= |s| && s[i] == CR && s[i + 1] == LF && s[i + 2] == CR && s[i + 3] == LF
  }

  /** Where `s` first holds a blank line, `|s|` when it holds none. */
  function BlankAt(s: Bytes): (i: nat)
    ensures i <= |s| && (i < |s| ==> i + 4 <= |s| && BlankHere(s, i))
    ensures forall j: nat | j < i :: !BlankHere(s, j)
  {
    if |s| < 4 then |s|
    else if BlankHere(s, 0) then 0
    else
      assert forall j: nat | 0 < j :: BlankHere(s, j) <==> BlankHere(s[1..], j - 1);
      1 + BlankAt(s[1..])
  }

  /** There is but one first blank line. */
  lemma BlankIs(s: Bytes, i: nat)
    requires BlankHere(s, i) && forall j: nat | j < i :: !BlankHere(s, j)
    ensures BlankAt(s) == i
  {
  }

  /** A header as ASCII: the high bit of every byte dropped. */
  function Ascii(header: Bytes): (text: Bytes)
    ensures |text| == |header| && forall i | 0 <= i < |header| :: text[i] == header[i] % 128
  {
    seq(|header|, i requires 0 <= i < |header| => header[i] % 128)
  }

  /** A whole message at the front of the bytes: where its body begins and ends. */
  datatype Message = Message(begin: nat, end: nat)

  function Front(s: Bytes): (m: Option<Message>)
    ensures m.Some? ==> 0 < m.value.begin <= m.value.end <= |s|
  {
    var at := BlankAt(s);
    if at == |s| then None
    else
      match ContentLength(Ascii(s[..at]))
      case None => None
      case Some(length) => if |s| < at + 4 + length then None else Some(Message(at + 4, at + 4 + length))
  }

  /** The bodies of the whole messages `s` begins with, and what is left. */
  datatype Drained = Drained(bodies: seq<Bytes>, rest: Bytes)

  function Drain(s: Bytes): Drained
    decreases |s|
  {
    match Front(s)
    case None => Drained([], s)
    case Some(m) =>
      var more := Drain(s[m.end..]);
      Drained([s[m.begin..m.end]] + more.bodies, more.rest)
  }

  lemma DrainUnfolds(s: Bytes)
    ensures Front(s).None? ==> Drain(s) == Drained([], s)
    ensures Front(s).Some? ==>
              var m := Front(s).value;
              Drain(s) == Drained([s[m.begin..m.end]] + Drain(s[m.end..]).bodies, Drain(s[m.end..]).rest)
  {
    hide Front;
  }

  class Client {
    var buffer: Bytes
    /** The bodies handed on, oldest first. */
    var dispatched: seq<Bytes>

    constructor ()
      ensures buffer == [] && dispatched == []
    {
      buffer, dispatched := [], [];
    }

    method Receive(chunk: Bytes)
      modifies this
      ensures var all := Drain(old(buffer) + chunk);
              dispatched == old(dispatched) + all.bodies && buffer == all.rest
    {
      hide BlankAt, ContentLength, Drain, BlankHere;
      buffer := buffer + chunk;
      ghost var all := Drain(buffer);
      while true
        invariant old(dispatched) + all.bodies == dispatched + Drain(buffer).bodies && all.rest == Drain(buffer).rest
        decreases |buffer|
      {
        DrainUnfolds(buffer);
        var headerEnd := BlankAt(buffer);
        if headerEnd == |buffer| {
          return;
        }
        var length := ContentLength(Ascii(buffer[..headerEnd]));
        if length.None? {
          return;
        }
        var bodyStart := headerEnd + 4;
        if |buffer| < bodyStart + length.value {
          return;
        }
        var body := buffer[bodyStart..bodyStart + length.value];
        buffer := buffer[bodyStart + length.value..];
        dispatched := dispatched + [body];
      }
    }
  }

  // ---- Cutting the stream into chunks decides nothing ----

  /** Bytes arriving later do not change what is whole already. */
  lemma FrontIsStable(s: Bytes, more: Bytes)
    requires Front(s).Some?
    ensures Front(s + more) == Front(s)
  {
    var at := BlankAt(s);
    hide BlankAt, ContentLength, BlankHere, Ascii;
    FrontHasBlank(s);
    BlankIsStable(s, more);
    assert (s + more)[..at] == s[..at];
    FrontAt(s, at);
    FrontAt(s + more, at);
    hide Front;
  }

  lemma FrontHasBlank(s: Bytes)
    requires Front(s).Some?
    ensures BlankAt(s) < |s|
  {
    hide BlankAt, ContentLength, Ascii;
  }

  lemma FrontAt(s: Bytes, at: nat)
    requires at == BlankAt(s) < |s|
    ensures Front(s) == match ContentLength(Ascii(s[..at]))
                        case None => None
                        case Some(length) =>
                          if |s| < at + 4 + length then None else Some(Message(at + 4, at + 4 + length))
  {
    hide BlankAt, ContentLength, Ascii;
  }

  lemma BlankIsStable(s: Bytes, more: Bytes)
    requires BlankAt(s) < |s|
    ensures BlankAt(s + more) == BlankAt(s)
  {
    var at := BlankAt(s);
    forall j: nat | j <= at ensures BlankHere(s + more, j) <==> BlankHere(s, j) {
    }
    hide BlankHere;
    BlankIs(s + more, at);
  }

  lemma {:induction false} DrainLater(s: Bytes, more: Bytes)
    ensures var first := Drain(s);
            var later := Drain(first.rest + more);
            Drain(s + more) == Drained(first.bodies + later.bodies, later.rest)
    decreases |s|
  {
    hide Front, Drain;
    DrainUnfolds(s);
    match Front(s)
    case None =>
    case Some(m) =>
      FrontIsStable(s, more);
      DrainUnfolds(s + more);
      DrainLater(s[m.end..], more);
      assert (s + more)[m.end..] == s[m.end..] + more;
      assert (s + more)[m.begin..m.end] == s[m.begin..m.end];
  }

  function Concat(chunks: seq<Bytes>): Bytes {
    if chunks == [] then [] else Concat(chunks[..|chunks| - 1]) + chunks[|chunks| - 1]
  }

  /** However a stream is cut, the bodies handed on and the bytes kept are those of the whole stream. */
  method ReceiveAll(chunks: seq<Bytes>) returns (client: Client)
    ensures fresh(client)
    ensures Drained(client.dispatched, client.buffer) == Drain(Concat(chunks))
  {
    client := new Client();
    for i := 0 to |chunks|
      invariant fresh(client)
      invariant Drained(client.dispatched, client.buffer) == Drain(Concat(chunks[..i]))
    {
      DrainLater(Concat(chunks[..i]), chunks[i]);
      assert chunks[..i + 1][..i] == chunks[..i];
      client.Receive(chunks[i]);
    }
    assert chunks[..|chunks|] == chunks;
  }

  // ---- Round trip ----

  function Header(length: nat): Bytes {
    LengthField + Decimal(length)
  }

  /** What `_write` sends for a body. */
  function Frame(body: Bytes): Bytes {
    Header(|body|) + BlankLine + body
  }

  function Frames(bodies: seq<Bytes>): Bytes {
    if bodies == [] then [] else Frame(bodies[0]) + Frames(bodies[1..])
  }

  lemma HeaderIsAscii(n: nat)
    ensures Ascii(Header(n)) == Header(n)
  {
    hide Decimal;
    forall i | 0 <= i < |Header(n)| ensures Header(n)[i] < 128 {
      HeaderByte(n, i);
    }
  }

  lemma HeaderByte(n: nat, i: nat)
    requires i < |Header(n)|
    ensures Header(n)[i] < 128
  {
    hide Decimal;
    if i >= |LengthField| {
      assert Header(n)[i] == Decimal(n)[i - |LengthField|];
    }
  }

  lemma HeaderSaysLength(n: nat)
    ensures ContentLength(Ascii(Header(n))) == Some(n)
  {
    HeaderIsAscii(n);
    var header, rest := Header(n), Header(n)[|LengthField|..];
    assert rest == Decimal(n);
    assert BeginsWithField(header);
    assert Digits(rest) == |rest|;
    assert rest[..|rest|] == rest;
    DecimalRoundTrip(n);
  }

  lemma HeaderHasNoCR(n: nat, i: nat)
    requires i < |Header(n)|
    ensures Header(n)[i] != CR
  {
    if i >= |LengthField| {
      assert Header(n)[i] == Decimal(n)[i - |LengthField|];
    }
  }

  /** The blank line of bytes that begin with a header and it is that one. */
  lemma HeaderEnds(n: nat, s: Bytes)
    requires Header(n) + BlankLine <= s
    ensures BlankAt(s) == |Header(n)| && s[..BlankAt(s)] == Header(n)
  {
    var header, whole := Header(n), Header(n) + BlankLine;
    var h := |header|;
    forall j: nat | j < h ensures !BlankHere(s, j) {
      HeaderHasNoCR(n, j);
      assert s[j] == whole[j];
    }
    forall i | h <= i < h + 4 ensures s[i] == BlankLine[i - h] {
      assert s[i] == whole[i];
    }
    assert BlankHere(s, h);
    BlankIs(s, h);
    assert s[..h] == whole[..h] == header;
  }

  /** Bytes cut after a header and its blank line. */
  lemma Cut(header: Bytes, body: Bytes, more: Bytes, s: Bytes)
    requires s == header + BlankLine + body + more
    ensures var at := |header| + 4;
            && header + BlankLine <= s && |s| == at + |body| + |more|
            && s[at..at + |body|] == body && s[at + |body|..] == more
  {
    assert |BlankLine| == 4;
    var front := header + BlankLine;
    assert s == front + (body + more);
  }

  lemma FrontOfFrame(body: Bytes, more: Bytes)
    ensures var s := Frame(body) + more;
            var at := |Header(|body|)| + 4;
            && Front(s) == Some(Message(at, at + |body|)) && at + |body| <= |s|
            && s[at..at + |body|] == body && s[at + |body|..] == more
  {
    hide *;
    var s, n := Frame(body) + more, |body|;
    FrameIs(body);
    Cut(Header(n), body, more, s);
    HeaderEnds(n, s);
    HeaderSaysLength(n);
    FrontIs(s, Header(n), n);
  }

  lemma FrameIs(body: Bytes)
    ensures Frame(body) == Header(|body|) + BlankLine + body
  {
    hide Header;
  }

  lemma FrontIs(s: Bytes, header: Bytes, length: nat)
    requires BlankAt(s) == |header| < |s| && s[..|header|] == header && ContentLength(Ascii(header)) == Some(length)
    ensures Front(s) == if |s| < |header| + 4 + length then None else Some(Message(|header| + 4, |header| + 4 + length))
  {
    hide BlankAt, ContentLength, BlankHere;
  }

  /** A frame still arriving is kept whole. */
  lemma UnfinishedFrame(body: Bytes, part: Bytes)
    requires part <= Frame(body) && |part| < |Frame(body)|
    ensures Drain(part) == Drained([], part)
  {
    hide *;
    FrameIs(body);
    DrainUnfolds(part);
    var n := |body|;
    Cut(Header(n), body, [], Frame(body));
    var at := |Header(n)| + 4;
    if |part| >= at {
      PrefixOfBoth(Header(n) + BlankLine, part, Frame(body));
      HeaderEnds(n, part);
      HeaderSaysLength(n);
      FrontIs(part, Header(n), n);
    } else {
      NoBlankYet(n, body, part);
    }
  }

  lemma PrefixOfBoth(a: Bytes, b: Bytes, whole: Bytes)
    requires a <= whole && b <= whole && |a| <= |b|
    ensures a <= b
  {
  }

  lemma NoBlankYet(n: nat, body: Bytes, part: Bytes)
    requires part <= Header(n) + BlankLine + body && |part| < |Header(n)| + 4
    ensures Front(part).None?
  {
    hide Header, ContentLength;
    forall j: nat | j + 4 <= |part| ensures !BlankHere(part, j) {
      HeaderHasNoCR(n, j);
      assert part[j] == (Header(n) + BlankLine + body)[j] == Header(n)[j];
    }
    assert BlankAt(part) == |part|;
  }

  /** Whatever was framed is handed on in order, and only the bytes of the frame still arriving are kept. */
  lemma {:induction false} FramingRoundTrip(bodies: seq<Bytes>, next: Bytes, part: Bytes)
    requires part <= Frame(next) && |part| < |Frame(next)|
    ensures Drain(Frames(bodies) + part) == Drained(bodies, part)
    decreases |bodies|
  {
    if bodies == [] {
      UnfinishedFrame(next, part);
      assert Frames(bodies) + part == part;
    } else {
      var more := Frames(bodies[1..]) + part;
      assert Frames(bodies) + part == Frame(bodies[0]) + more;
      FrontOfFrame(bodies[0], more);
      hide Front, Drain, Frame;
      DrainUnfolds(Frame(bodies[0]) + more);
      FramingRoundTrip(bodies[1..], next, part);
    }
  }

  /** Every sequence of bodies, cut into chunks anywhere, arrives whole and in order. */
  method Transmit(bodies: seq<Bytes>, next: Bytes, part: Bytes, chunks: seq<Bytes>) returns (client: Client)
    requires part <= Frame(next) && |part| < |Frame(next)|
    requires Concat(chunks) == Frames(bodies) + part
    ensures client.dispatched == bodies && client.buffer == part
  {
    client := ReceiveAll(chunks);
    FramingRoundTrip(bodies, next, part);
  }
}
