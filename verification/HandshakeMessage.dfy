/** The wire forms of the handshake messages (e2ewebsocket/handshake_message.go). */
module HandshakeMessage {
  import opened Common
  import opened Cryptobyte

  const TYPE_HELLO: Byte := 1
  const TYPE_KEY_EXCHANGE: Byte := 12
  const TYPE_FINISHED: Byte := 20

  const EXT_SUPPORTED_CURVES: U16 := 10
  const EXT_SIGNATURE_ALGORITHMS: U16 := 13
  const EXT_SUPPORTED_VERSIONS: U16 := 43

  const SCSV_RENEGOTIATION: U16 := 0x00ff

  const RANDOM_LEN: nat := 32

  datatype Hello = Hello(random: Bytes, suites: seq<U16>, versions: seq<U16>, curves: seq<U16>,
                         schemes: seq<U16>, renegotiationSupported: bool, extensions: seq<U16>)

  // --- Hello: writing -------------------------------------------------------------------

  /** One extension: its id and a prefixed body holding one list with its own prefix of
      `n` bytes. An empty list is not written. */
  function Extension(id: U16, list: seq<U16>, n: nat): Option<Bytes> {
    if list == [] then Some([])
    else match Prefixed(EncodeList(list), n)
      case None => None
      case Some(inner) =>
        match Prefixed(inner, 2)
        case None => None
        case Some(body) => Some(EncodeU16(id) + body)
  }

  function Extensions(h: Hello): Option<Bytes> {
    var versions := Extension(EXT_SUPPORTED_VERSIONS, h.versions, 1);
    var curves := Extension(EXT_SUPPORTED_CURVES, h.curves, 2);
    var schemes := Extension(EXT_SIGNATURE_ALGORITHMS, h.schemes, 2);
    if versions.None? || curves.None? || schemes.None? then None
    else Some(versions.value + curves.value + schemes.value)
  }

  function HelloBody(h: Hello, exts: Bytes): Option<Bytes>
    requires h.versions != []
  {
    var suites := Prefixed(EncodeList(h.suites), 2);
    var tail := if exts == [] then Some([]) else Prefixed(exts, 2);
    if |h.random| != RANDOM_LEN || suites.None? || tail.None? then None
    else Some(EncodeU16(h.versions[0]) + h.random + suites.value + tail.value)
  }

  function MarshalHello(h: Hello): Option<Bytes>
    requires h.versions != []
  {
    match Extensions(h)
    case None => None
    case Some(exts) =>
      match HelloBody(h, exts)
      case None => None
      case Some(body) =>
        match Prefixed(body, 3)
        case None => None
        case Some(framed) => Some([TYPE_HELLO] + framed)
  }

  // --- Hello: reading -------------------------------------------------------------------

  /** A non-empty list in a prefix of `n` bytes that fills its extension. */
  function OnlyList(data: Bytes, n: nat): Option<seq<U16>> {
    match ReadPrefixed(data, n)
    case Short => None
    case Got(list, rest) =>
      if list == [] || rest != [] then None else DecodeList(list)
  }

  function AddExtension(m: Hello, id: U16, data: Bytes): Option<Hello> {
    var seen := m.(extensions := m.extensions + [id]);
    if id == EXT_SUPPORTED_CURVES then
      match OnlyList(data, 2)
      case None => None
      case Some(list) => Some(seen.(curves := m.curves + list))
    else if id == EXT_SUPPORTED_VERSIONS then
      match OnlyList(data, 1)
      case None => None
      case Some(list) => Some(seen.(versions := m.versions + list))
    else if id == EXT_SIGNATURE_ALGORITHMS then
      match OnlyList(data, 2)
      case None => None
      case Some(list) => Some(seen.(schemes := m.schemes + list))
    else Some(seen)
  }

  function ParseExtensions(exts: Bytes, m: Hello): Option<Hello>
    decreases |exts|
  {
    if exts == [] then Some(m)
    else match ReadU16(exts)
      case Short => None
      case Got(id, rest) =>
        match ReadPrefixed(rest, 2)
        case Short => None
        case Got(data, more) =>
          if id in m.extensions then None
          else match AddExtension(m, id, data)
            case None => None
            case Some(next) => ParseExtensions(more, next)
  }

  function ParseHello(data: Bytes): Option<Hello> {
    if |data| < 4 then None
    else match ReadU16(data[4..])
      case Short => None
      case Got(version, afterVersion) =>
        match Take(afterVersion, RANDOM_LEN)
        case Short => None
        case Got(random, afterRandom) =>
          match ReadPrefixed(afterRandom, 2)
          case Short => None
          case Got(suiteBytes, tail) =>
            match DecodeList(suiteBytes)
            case None => None
            case Some(suites) =>
              var m := Hello(random, suites, [version], [], [], SCSV_RENEGOTIATION in suites, []);
              if tail == [] then Some(m)
              else match ReadPrefixed(tail, 2)
                case Short => None
                case Got(exts, rest) => if rest != [] then None else ParseExtensions(exts, m)
  }

  // --- Hello: round trip ----------------------------------------------------------------

  function ExtensionsLength(h: Hello): nat {
    5 + 2 * |h.versions|
    + (if h.curves == [] then 0 else 6 + 2 * |h.curves|)
    + (if h.schemes == [] then 0 else 6 + 2 * |h.schemes|)
  }

  /** The length of a written hello. */
  function HelloLength(h: Hello): nat {
    42 + 2 * |h.suites| + ExtensionsLength(h)
  }

  lemma ExtensionLength(id: U16, list: seq<U16>, n: nat)
    requires Extension(id, list, n).Some?
    ensures |Extension(id, list, n).value| == if list == [] then 0 else 4 + n + 2 * |list|
  {
    hide EncodeList, Fixed;
  }

  lemma MarshalHelloLength(h: Hello)
    requires h.versions != [] && MarshalHello(h).Some?
    ensures |MarshalHello(h).value| == HelloLength(h)
  {
    hide Extension, EncodeList, Fixed, Pow256;
    ExtensionLength(EXT_SUPPORTED_VERSIONS, h.versions, 1);
    ExtensionLength(EXT_SUPPORTED_CURVES, h.curves, 2);
    ExtensionLength(EXT_SIGNATURE_ALGORITHMS, h.schemes, 2);
    var exts := Extensions(h).value;
    assert |exts| == ExtensionsLength(h);
  }

  /** Exactly the hellos that can be written. */
  lemma MarshalHelloFits(h: Hello)
    requires h.versions != []
    ensures MarshalHello(h).Some? <==>
              && |h.random| == RANDOM_LEN
              && |h.versions| <= 127 && |h.curves| <= 32766 && |h.schemes| <= 32766 && |h.suites| <= 32767
              && ExtensionsLength(h) < 65536
  {
    assert Pow256(1) == 256 && Pow256(2) == 65536 && Pow256(3) == 16777216 by { PowValues(); }
  }

  lemma PowValues()
    ensures Pow256(1) == 256 && Pow256(2) == 65536 && Pow256(3) == 16777216
  {
    assert Pow256(0) == 1;
    assert Pow256(1) == 256;
    assert Pow256(2) == 256 * Pow256(1);
  }

  function Decoded(h: Hello): Hello
    requires h.versions != []
  {
    Hello(h.random, h.suites, [h.versions[0]] + h.versions, h.curves, h.schemes,
          SCSV_RENEGOTIATION in h.suites,
          [EXT_SUPPORTED_VERSIONS]
          + (if h.curves == [] then [] else [EXT_SUPPORTED_CURVES])
          + (if h.schemes == [] then [] else [EXT_SIGNATURE_ALGORITHMS]))
  }

  lemma ExtensionRoundTrip(id: U16, list: seq<U16>, n: nat, rest: Bytes, m: Hello)
    requires list != [] && Extension(id, list, n).Some? && id !in m.extensions
    ensures exists data :: OnlyList(data, n) == Some(list)
              && ParseExtensions(Extension(id, list, n).value + rest, m)
                 == match AddExtension(m, id, data)
                    case None => None
                    case Some(next) => ParseExtensions(rest, next)
  {
    hide AddExtension, DecodeList, EncodeList, BigEndian, Pow256, Fixed, EncodeU16, ReadPrefixed, Prefixed, ReadU16;
    var list8 := EncodeList(list);
    var inner := Prefixed(list8, n).value;
    var body := Prefixed(inner, 2).value;
    var s := Extension(id, list, n).value + rest;
    assert s == EncodeU16(id) + (body + rest);
    EncodeU16RoundTrip(id, body + rest);
    PrefixedRoundTrip(inner, 2, rest);
    PrefixedRoundTrip(list8, n, []);
    assert inner + [] == inner;
    ListRoundTrip(list);
    assert OnlyList(inner, n) == Some(list);
    assert s != [];
  }

  lemma ExtensionsRoundTrip(h: Hello, m: Hello)
    requires h.versions != [] && Extensions(h).Some?
    requires m == Hello(h.random, h.suites, [h.versions[0]], [], [], SCSV_RENEGOTIATION in h.suites, [])
    ensures ParseExtensions(Extensions(h).value, m) == Some(Decoded(h))
  {
    hide Extension, OnlyList, ParseExtensions;
    var curves := Extension(EXT_SUPPORTED_CURVES, h.curves, 2).value;
    var schemes := Extension(EXT_SIGNATURE_ALGORITHMS, h.schemes, 2).value;
    var versions := Extension(EXT_SUPPORTED_VERSIONS, h.versions, 1).value;
    assert Extensions(h).value == versions + (curves + schemes);
    ExtensionRoundTrip(EXT_SUPPORTED_VERSIONS, h.versions, 1, curves + schemes, m);
    var m1 := m.(versions := m.versions + h.versions, extensions := [EXT_SUPPORTED_VERSIONS]);
    assert m.extensions + [EXT_SUPPORTED_VERSIONS] == m1.extensions;
    var m2 := if h.curves == [] then m1
              else m1.(curves := h.curves, extensions := m1.extensions + [EXT_SUPPORTED_CURVES]);
    if h.curves == [] {
      assert curves == [] by { EmptyExtension(EXT_SUPPORTED_CURVES, 2); }
      assert curves + schemes == schemes;
    } else {
      ExtensionRoundTrip(EXT_SUPPORTED_CURVES, h.curves, 2, schemes, m1);
      assert m1.curves + h.curves == h.curves;
    }
    assert ParseExtensions(Extensions(h).value, m) == ParseExtensions(schemes, m2);
    if h.schemes == [] {
      assert schemes == [] by { EmptyExtension(EXT_SIGNATURE_ALGORITHMS, 2); }
    } else {
      ExtensionRoundTrip(EXT_SIGNATURE_ALGORITHMS, h.schemes, 2, [], m2);
      assert schemes + [] == schemes && m2.schemes + h.schemes == h.schemes;
    }
    NoMoreExtensions();
    var m3 := if h.schemes == [] then m2
              else m2.(schemes := h.schemes, extensions := m2.extensions + [EXT_SIGNATURE_ALGORITHMS]);
    assert ParseExtensions(schemes, m2) == Some(m3);
    assert m3.extensions == Decoded(h).extensions && m3.versions == Decoded(h).versions;
  }

  lemma NoMoreExtensions()
    ensures forall m :: ParseExtensions([], m) == Some(m)
  {
  }

  lemma EmptyExtension(id: U16, n: nat)
    ensures Extension(id, [], n) == Some([])
  {
  }

  /** Reading back a written hello gives the same random, suites, curves and schemes; the
      version list comes back with its first element in front once more. */
  lemma HelloRoundTrip(h: Hello)
    requires h.versions != [] && MarshalHello(h).Some?
    ensures ParseHello(MarshalHello(h).value) == Some(Decoded(h))
  {
    hide Extensions, ParseExtensions, DecodeList, EncodeList, BigEndian, Pow256, Fixed, EncodeU16, ReadPrefixed, ReadU16, Prefixed;
    var exts := Extensions(h).value;
    var body := HelloBody(h, exts).value;
    var data := MarshalHello(h).value;
    var suites := Prefixed(EncodeList(h.suites), 2).value;
    ExtensionsNonEmpty(h);
    var tail := Prefixed(exts, 2).value;
    SkipHeader(TYPE_HELLO, body);
    assert data[4..] == body;
    assert body == EncodeU16(h.versions[0]) + (h.random + (suites + tail));
    EncodeU16RoundTrip(h.versions[0], h.random + (suites + tail));
    TakeFront(h.random, suites + tail);
    PrefixedRoundTrip(EncodeList(h.suites), 2, tail);
    ListRoundTrip(h.suites);
    PrefixedRoundTrip(exts, 2, []);
    assert tail + [] == tail;
    assert tail != [] by { PrefixedNonEmpty(exts, 2); }
    ExtensionsRoundTrip(h, Hello(h.random, h.suites, [h.versions[0]], [], [], SCSV_RENEGOTIATION in h.suites, []));
  }

  lemma ExtensionsNonEmpty(h: Hello)
    requires h.versions != [] && Extensions(h).Some?
    ensures Extensions(h).value != []
  {
  }

  lemma PrefixedNonEmpty(content: Bytes, n: nat)
    requires n > 0 && Prefixed(content, n).Some?
    ensures Prefixed(content, n).value != []
  {
  }

  lemma SkipHeader(t: Byte, body: Bytes)
    requires Prefixed(body, 3).Some?
    ensures |[t] + Prefixed(body, 3).value| >= 4 && ([t] + Prefixed(body, 3).value)[4..] == body
  {
  }

  lemma TakeFront(a: Bytes, b: Bytes)
    ensures Take(a + b, |a|) == Got(a, b)
  {
  }

  // --- What is accepted -------------------------------------------------------------------

  lemma {:induction false} DecodedIsEncoded(s: Bytes)
    ensures DecodeList(s).Some? ==> EncodeList(DecodeList(s).value) == s
    ensures DecodeList(s).Some? <==> |s| % 2 == 0
    decreases |s|
  {
    if |s| >= 2 {
      var v, rest := ReadU16(s).value, s[2..];
      DecodedIsEncoded(rest);
      if DecodeList(rest).Some? {
        EncodeListCons(v, DecodeList(rest).value);
        assert s == EncodeU16(v) + rest;
      }
    }
  }

  /** Exactly which extension bodies are lists: a non-empty list with its length, and nothing
      after it. */
  lemma ListBodyExactlyWhen(data: Bytes, n: nat, list: seq<U16>)
    requires n == 1 || n == 2
    ensures OnlyList(data, n) == Some(list)
            <==> list != [] && 2 * |list| < Pow256(n) && data == Fixed(2 * |list|, n) + EncodeList(list)
  {
    hide DecodeList, EncodeList, BigEndian, Fixed, Pow256;
    if list != [] && 2 * |list| < Pow256(n) && data == Fixed(2 * |list|, n) + EncodeList(list) {
      PrefixedRoundTrip(EncodeList(list), n, []);
      assert data + [] == data;
      ListRoundTrip(list);
      assert EncodeList(list) != [];
    }
    if OnlyList(data, n) == Some(list) {
      var field := ReadPrefixed(data, n);
      DecodedIsEncoded(field.value);
      LengthFieldBack(data, n);
      assert data == data[..n] + data[n..];
    }
  }

  lemma LengthFieldBack(data: Bytes, n: nat)
    requires n <= |data|
    ensures Fixed(BigEndian(data[..n]), n) == data[..n] && BigEndian(data[..n]) < Pow256(n)
  {
    FixedBack(data[..n]);
    BigEndianBound(data[..n]);
  }

  lemma {:induction false} FixedBack(s: Bytes)
    ensures Fixed(BigEndian(s), |s|) == s
  {
    if s != [] {
      var front, last := s[..|s| - 1], s[|s| - 1];
      FixedBack(front);
      assert BigEndian(s) == 256 * BigEndian(front) + last as int;
      assert BigEndian(s) / 256 == BigEndian(front) && BigEndian(s) % 256 == last as int;
    }
  }

  /** What one extension does: a repeated one refuses the hello; 43, 10 and 13 must be lists and
      extend the versions, curves and schemes; any other is only noted. */
  lemma ExtensionRead(id: U16, body: Bytes, rest: Bytes, m: Hello)
    requires |body| < 65536
    ensures var exts := EncodeU16(id) + Fixed(|body|, 2) + body + rest;
            var seen := m.(extensions := m.extensions + [id]);
            ParseExtensions(exts, m)
            == if id in m.extensions then None
               else if id == 43 then (match OnlyList(body, 1)
                                      case None => None
                                      case Some(list) => ParseExtensions(rest, seen.(versions := m.versions + list)))
               else if id == 10 then (match OnlyList(body, 2)
                                      case None => None
                                      case Some(list) => ParseExtensions(rest, seen.(curves := m.curves + list)))
               else if id == 13 then (match OnlyList(body, 2)
                                      case None => None
                                      case Some(list) => ParseExtensions(rest, seen.(schemes := m.schemes + list)))
               else ParseExtensions(rest, seen)
  {
    hide OnlyList, DecodeList, EncodeList, BigEndian, Fixed, EncodeU16, ReadPrefixed, ReadU16;
    PowValues();
    var field := Fixed(|body|, 2) + body;
    var exts := EncodeU16(id) + Fixed(|body|, 2) + body + rest;
    assert exts == EncodeU16(id) + (field + rest);
    EncodeU16RoundTrip(id, field + rest);
    PrefixedRoundTrip(body, 2, rest);
    TwoBytesLong(id);
    assert exts != [];
  }

  lemma TwoBytesLong(id: U16)
    ensures |EncodeU16(id)| == 2
  {
  }

  /** The type and length in front of a hello are not looked at again. */
  lemma HeaderUnread(a: Bytes, b: Bytes)
    requires |a| >= 4 && |b| >= 4 && a[4..] == b[4..]
    ensures ParseHello(a) == ParseHello(b)
  {
    hide ParseExtensions, DecodeList, ReadPrefixed;
  }

  /** Nor are those of a key exchange, of which any bytes are accepted; a Finished must fill its
      length. */
  lemma OthersRead(data: Bytes, v: Bytes)
    ensures ParseKeyExchange(data) == if |data| < 4 then None else Some(data[4..])
    ensures data != [] ==> (ParseFinished(data) == Some(v) <==> |v| < 16777216 && data[1..] == Fixed(|v|, 3) + v)
  {
    hide BigEndian, Fixed;
    PowValues();
    if data != [] {
      var s := data[1..];
      if |v| < 16777216 && s == Fixed(|v|, 3) + v {
        PrefixedRoundTrip(v, 3, []);
        assert s + [] == s;
      }
      if ParseFinished(data) == Some(v) {
        LengthFieldBack(s, 3);
        assert s == s[..3] + s[3..];
      }
    }
  }

  /** Whatever is accepted names no extension twice. */
  lemma AcceptedExtensionsDistinct(data: Bytes)
    ensures ParseHello(data).Some? ==> NoDuplicates(ParseHello(data).value.extensions)
  {
    var tail := data;
    if ParseHello(data).Some? {
      var afterVersion := ReadU16(data[4..]).rest;
      var afterRandom := Take(afterVersion, RANDOM_LEN).rest;
      var suites := ReadPrefixed(afterRandom, 2);
      if suites.rest != [] {
        var m := Hello(afterVersion[..RANDOM_LEN], DecodeList(suites.value).value, [ReadU16(data[4..]).value], [], [],
                       SCSV_RENEGOTIATION in DecodeList(suites.value).value, []);
        ParsedDistinct(ReadPrefixed(suites.rest, 2).value, m);
      }
    }
  }

  lemma {:induction false} ParsedDistinct(exts: Bytes, m: Hello)
    requires NoDuplicates(m.extensions)
    ensures ParseExtensions(exts, m).Some? ==> NoDuplicates(ParseExtensions(exts, m).value.extensions)
    decreases |exts|
  {
    hide ReadPrefixed, OnlyList;
    if exts != [] && ParseExtensions(exts, m).Some? {
      var id := ReadU16(exts).value;
      var field := ReadPrefixed(ReadU16(exts).rest, 2);
      ParsedDistinct(field.rest, AddExtension(m, id, field.value).value);
    }
  }

  // --- The other messages ---------------------------------------------------------------

  function MarshalKeyExchange(key: Bytes): Bytes {
    [TYPE_KEY_EXCHANGE] + Fixed(|key|, 3) + key
  }

  function ParseKeyExchange(data: Bytes): Option<Bytes> {
    if |data| < 4 then None else Some(data[4..])
  }

  function MarshalFinished(verifyData: Bytes): Option<Bytes> {
    match Prefixed(verifyData, 3)
    case None => None
    case Some(framed) => Some([TYPE_FINISHED] + framed)
  }

  function ParseFinished(data: Bytes): Option<Bytes> {
    if |data| < 1 then None
    else match ReadPrefixed(data[1..], 3)
      case Short => None
      case Got(verifyData, rest) => if rest != [] then None else Some(verifyData)
  }

  datatype Message = HelloMsg(hello: Hello) | KeyExchangeMsg(key: Bytes) | FinishedMsg(verifyData: Bytes)

  /** The message a type byte announces, if the rest reads as one. */
  function ParseMessage(data: Bytes): Option<Message> {
    if data == [] then None
    else if data[0] == TYPE_HELLO then
      match ParseHello(data) case None => None case Some(h) => Some(HelloMsg(h))
    else if data[0] == TYPE_KEY_EXCHANGE then
      match ParseKeyExchange(data) case None => None case Some(k) => Some(KeyExchangeMsg(k))
    else if data[0] == TYPE_FINISHED then
      match ParseFinished(data) case None => None case Some(v) => Some(FinishedMsg(v))
    else None
  }

  function MarshalMessage(m: Message): Option<Bytes>
    requires m.HelloMsg? ==> m.hello.versions != []
  {
    match m
    case HelloMsg(h) => MarshalHello(h)
    case KeyExchangeMsg(k) => Some(MarshalKeyExchange(k))
    case FinishedMsg(v) => MarshalFinished(v)
  }

  /** The type byte sends every written message back to its own reader. */
  lemma MessageRoundTrip(m: Message)
    requires m.HelloMsg? ==> m.hello.versions != []
    requires MarshalMessage(m).Some?
    ensures ParseMessage(MarshalMessage(m).value)
            == Some(if m.HelloMsg? then HelloMsg(Decoded(m.hello)) else m)
  {
    hide ParseHello, Extensions, HelloBody, Prefixed, ReadPrefixed, Fixed;
    match m
    case HelloMsg(h) => HelloRoundTrip(h);
    case KeyExchangeMsg(k) => assert MarshalKeyExchange(k)[4..] == k;
    case FinishedMsg(v) =>
      var framed := Prefixed(v, 3).value;
      PrefixedRoundTrip(v, 3, []);
      assert framed + [] == framed;
      assert ([TYPE_FINISHED] + framed)[1..] == framed;
  }

  // --- The bytes on the wire --------------------------------------------------------------

  /** An extension's bytes: id, length, the list's own length and the list. */
  function ExtensionBytes(id: Byte, list: seq<U16>, n: nat): Bytes
    requires n == 1 || n == 2
  {
    if list == [] then []
    else
      var len := 2 * |list|;
      [0, id, (n + len) / 256 % 256, (n + len) % 256]
      + (if n == 1 then [len % 256] else [len / 256 % 256, len % 256]) + EncodeList(list)
  }

  lemma ExtensionWire(id: Byte, list: seq<U16>, n: nat)
    requires (n == 1 || n == 2) && Extension(id, list, n).Some?
    ensures Extension(id, list, n).value == ExtensionBytes(id, list, n)
  {
    hide EncodeList, Fixed;
    if list != [] {
      PowValues();
      var len := 2 * |list|;
      LengthBytes(len);
      LengthBytes(n + len);
      assert EncodeU16(id) == [0, id];
      assert Extension(id, list, n).value == EncodeU16(id) + (Fixed(n + len, 2) + (Fixed(len, n) + EncodeList(list)));
    }
  }

  /** The bytes of a hello: type 1 and three length bytes; first version, random, suites; then
      the extensions 43 for versions, 10 for curves and 13 for signature schemes. */
  lemma HelloWire(h: Hello)
    requires h.versions != [] && MarshalHello(h).Some?
    ensures var exts := ExtensionBytes(43, h.versions, 1) + ExtensionBytes(10, h.curves, 2) + ExtensionBytes(13, h.schemes, 2);
            var suites := 2 * |h.suites|;
            var body := [h.versions[0] / 256, h.versions[0] % 256] + h.random
                        + [suites / 256 % 256, suites % 256] + EncodeList(h.suites)
                        + [|exts| / 256 % 256, |exts| % 256] + exts;
            && |body| < 16777216
            && MarshalHello(h).value == [1, |body| / 65536 % 256, |body| / 256 % 256, |body| % 256] + body
  {
    hide Extension, EncodeList, Fixed, ExtensionBytes, Pow256, HelloBody;
    ExtensionWire(EXT_SUPPORTED_VERSIONS, h.versions, 1);
    ExtensionWire(EXT_SUPPORTED_CURVES, h.curves, 2);
    ExtensionWire(EXT_SIGNATURE_ALGORITHMS, h.schemes, 2);
    var exts := Extensions(h).value;
    ExtensionsNonEmpty(h);
    BodyWire(h, exts);
    hide Extensions;
    FramedWire(HelloBody(h, exts).value);
  }

  lemma BodyWire(h: Hello, exts: Bytes)
    requires h.versions != [] && exts != [] && HelloBody(h, exts).Some?
    ensures var suites := 2 * |h.suites|;
            HelloBody(h, exts).value
            == [h.versions[0] / 256, h.versions[0] % 256] + h.random
               + [suites / 256 % 256, suites % 256] + EncodeList(h.suites)
               + [|exts| / 256 % 256, |exts| % 256] + exts
  {
    hide EncodeList, Fixed;
    PowValues();
    LengthBytes(|exts|);
    LengthBytes(2 * |h.suites|);
    var suites := 2 * |h.suites|;
    assert |exts| / 256 % 256 == |exts| / 256 && suites / 256 % 256 == suites / 256;
    var a := EncodeU16(h.versions[0]) + h.random;
    assert a + (Fixed(suites, 2) + EncodeList(h.suites)) + (Fixed(|exts|, 2) + exts)
           == a + Fixed(suites, 2) + EncodeList(h.suites) + Fixed(|exts|, 2) + exts;
  }

  lemma FramedWire(body: Bytes)
    requires Prefixed(body, 3).Some?
    ensures |body| < 16777216
    ensures [1] + Prefixed(body, 3).value == [1, |body| / 65536 % 256, |body| / 256 % 256, |body| % 256] + body
  {
    hide Fixed;
    PowValues();
    LengthBytes(|body|);
  }

  /** A key exchange has type 12 and a Finished type 20, each with three length bytes. */
  lemma OtherWire(key: Bytes, verifyData: Bytes)
    ensures |key| < 16777216 ==>
              MarshalKeyExchange(key) == [12, |key| / 65536 % 256, |key| / 256 % 256, |key| % 256] + key
    ensures MarshalFinished(verifyData).Some? <==> |verifyData| < 16777216
    ensures MarshalFinished(verifyData).Some? ==>
              MarshalFinished(verifyData).value
              == [20, |verifyData| / 65536 % 256, |verifyData| / 256 % 256, |verifyData| % 256] + verifyData
  {
    hide Fixed;
    PowValues();
    LengthBytes(|key|);
    LengthBytes(|verifyData|);
  }

  // --- The message object ---------------------------------------------------------------

  class HelloMessage {
    var random: Bytes
    var suites: seq<U16>
    var versions: seq<U16>
    var curves: seq<U16>
    var schemes: seq<U16>
    var renegotiationSupported: bool
    var extensions: seq<U16>

    constructor (h: Hello)
      ensures Value() == h
    {
      random, suites, versions, curves := h.random, h.suites, h.versions, h.curves;
      schemes, renegotiationSupported, extensions := h.schemes, h.renegotiationSupported, h.extensions;
    }

    function Value(): Hello
      reads this
    {
      Hello(random, suites, versions, curves, schemes, renegotiationSupported, extensions)
    }

    static method AddExtensionBytes(b: Option<Bytes>, id: U16, list: seq<U16>, n: nat) returns (r: Option<Bytes>)
      ensures r == match b
                   case None => None
                   case Some(sofar) => match Extension(id, list, n) case None => None case Some(e) => Some(sofar + e)
    {
      if b.None? {
        return None;
      }
      if |list| == 0 {
        return Some(b.value + []);
      }
      var encoded := EncodeEach(list);
      var inner := Prefixed(encoded, n);
      if inner.None? {
        return None;
      }
      var body := Prefixed(inner.value, 2);
      if body.None? {
        return None;
      }
      return Some(b.value + (EncodeU16(id) + body.value));
    }

    method Marshal() returns (r: Option<Bytes>)
      requires versions != []
      ensures r == MarshalHello(Value())
    {
      hide Extension, Prefixed, EncodeU16, EncodeList;
      var exts := AddExtensionBytes(Some([]), EXT_SUPPORTED_VERSIONS, versions, 1);
      exts := AddExtensionBytes(exts, EXT_SUPPORTED_CURVES, curves, 2);
      exts := AddExtensionBytes(exts, EXT_SIGNATURE_ALGORITHMS, schemes, 2);
      if exts.None? {
        return None;
      }
      assert forall x: Bytes :: [] + x == x;
      assert Extensions(Value()) == exts;
      var b := EncodeU16(versions[0]);
      if |random| != 32 {
        return None;
      }
      b := b + random;
      var encoded := EncodeEach(suites);
      var suiteList := Prefixed(encoded, 2);
      if suiteList.None? {
        return None;
      }
      b := b + suiteList.value;
      if |exts.value| > 0 {
        var tail := Prefixed(exts.value, 2);
        if tail.None? {
          return None;
        }
        b := b + tail.value;
      } else {
        assert b + [] == b;
      }
      assert HelloBody(Value(), exts.value) == Some(b);
      var framed := Prefixed(b, 3);
      if framed.None? {
        return None;
      }
      return Some([TYPE_HELLO] + framed.value);
    }

    /** Reads the extensions one after the other into the message's fields. */
    method UnmarshalExtensions(exts: Bytes) returns (ok: bool)
      requires extensions == []
      modifies this
      ensures ok <==> ParseExtensions(exts, old(Value())).Some?
      ensures ok ==> Value() == ParseExtensions(exts, old(Value())).value
    {
      hide OnlyList, ReadPrefixed, ReadU16;
      var seen: set<U16> := {};
      var rest := exts;
      while rest != []
        invariant forall id :: id in seen <==> id in extensions
        invariant ParseExtensions(exts, old(Value())) == ParseExtensions(rest, Value())
        decreases |rest|
      {
        var id := ReadU16(rest);
        if id.Short? {
          return false;
        }
        var field := ReadPrefixed(id.rest, 2);
        if field.Short? {
          return false;
        }
        if id.value in seen {
          return false;
        }
        ghost var before := Value();
        seen := seen + {id.value};
        extensions := extensions + [id.value];
        if id.value == EXT_SUPPORTED_CURVES || id.value == EXT_SUPPORTED_VERSIONS || id.value == EXT_SIGNATURE_ALGORITHMS {
          var list := UnmarshalList(field.value, if id.value == EXT_SUPPORTED_VERSIONS then 1 else 2);
          if list.None? {
            return false;
          }
          if id.value == EXT_SUPPORTED_CURVES {
            curves := curves + list.value;
          } else if id.value == EXT_SUPPORTED_VERSIONS {
            versions := versions + list.value;
          } else {
            schemes := schemes + list.value;
          }
        }
        assert AddExtension(before, id.value, field.value) == Some(Value());
        rest := field.rest;
      }
      return true;
    }

    static method UnmarshalList(data: Bytes, n: nat) returns (r: Option<seq<U16>>)
      ensures r == OnlyList(data, n)
    {
      var list := ReadPrefixed(data, n);
      if list.Short? || list.value == [] {
        return None;
      }
      r := DecodeEach(list.value);
      if list.rest != [] {
        return None;
      }
    }

    method Unmarshal(data: Bytes) returns (ok: bool)
      modifies this
      ensures ok <==> ParseHello(data).Some?
      ensures ok ==> Value() == ParseHello(data).value
    {
      hide ParseExtensions, ReadPrefixed, ReadU16, DecodeList;
      random, suites, versions, curves, schemes, renegotiationSupported, extensions := [], [], [], [], [], false, [];
      if |data| < 4 {
        return false;
      }
      var version := ReadU16(data[4..]);
      if version.Short? {
        return false;
      }
      versions := [version.value];
      var rnd := Take(version.rest, 32);
      if rnd.Short? {
        return false;
      }
      random := rnd.value;
      var suiteBytes := ReadPrefixed(rnd.rest, 2);
      if suiteBytes.Short? {
        return false;
      }
      var list := DecodeEach(suiteBytes.value);
      if list.None? {
        return false;
      }
      suites := list.value;
      for i := 0 to |suites|
        invariant Value() == Hello(rnd.value, list.value, [version.value], [], [],
                                   SCSV_RENEGOTIATION in list.value[..i], [])
      {
        if suites[i] == SCSV_RENEGOTIATION {
          renegotiationSupported := true;
        }
      }
      assert list.value[..|list.value|] == list.value;
      var tail := suiteBytes.rest;
      if tail == [] {
        return true;
      }
      var exts := ReadPrefixed(tail, 2);
      if exts.Short? || exts.rest != [] {
        return false;
      }
      ok := UnmarshalExtensions(exts.value);
    }
  }
}
