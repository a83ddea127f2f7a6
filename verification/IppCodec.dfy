/** The IPP/1.1 binary codec of the direct_ipp backend (RFC 8010, sections
    3.1.4 and 3.1.5): the request builders, and the response parser. */
module IppCodec {
  import opened Common

  const PRINT_JOB := 0x0002
  const GET_JOB_ATTRIBUTES := 0x0009
  const CLIENT_ERROR_NOT_FOUND := 0x0406

  const OPERATION_ATTRIBUTES_TAG: byte := 0x01
  const JOB_ATTRIBUTES_TAG: byte := 0x02
  const END_OF_ATTRIBUTES_TAG: byte := 0x03

  const CHARSET_TAG: byte := 0x47
  const NATURAL_LANGUAGE_TAG: byte := 0x48
  const URI_TAG: byte := 0x45
  const MIME_MEDIA_TYPE_TAG: byte := 0x49
  const NAME_WITHOUT_LANGUAGE_TAG: byte := 0x42
  const INTEGER_TAG: byte := 0x21

  /** A name is the UTF-8 bytes of the source's `String`. */
  datatype Attribute = Attribute(name: seq<byte>, tag: byte, value: seq<byte>) {
    /** The value as a big-endian i32 (exactly four bytes). */
    function AsI32(): (i: Option<i32>)
    {
      if |value| == 4 then Some(ToI32(FromBe32(value))) else None
    }
  }

  datatype ParseError =
    | TooShort
    | TruncatedNameLength
    | TruncatedName
    | InvalidUtf8Name
    | TruncatedValueLength
    | TruncatedValue

  datatype Response = Response(statusCode: nat, requestId: nat, attributes: seq<Attribute>) {
    /** The first attribute called `name`. */
    function Get(name: seq<byte>): (a: Option<Attribute>)
    {
      FirstNamed(attributes, name)
    }

    predicate IsSuccess() {
      statusCode <= 0x00FF
    }

    /** An integer attribute, 0 when it is absent or not four bytes long. */
    function IntegerOr0(name: seq<byte>): i32 {
      match Get(name)
      case None => 0
      case Some(a) => (match a.AsI32() case None => 0 case Some(i) => i)
    }
  }

  function FirstNamed(attributes: seq<Attribute>, name: seq<byte>): (a: Option<Attribute>)
  {
    if attributes == [] then None
    else if attributes[0].name == name then Some(attributes[0])
    else FirstNamed(attributes[1..], name)
  }

  // ---- UTF-8 -------------------------------------------------------------

  predicate Continuation(b: byte) {
    0x80 <= b <= 0xBF
  }

  /** Length of the well-formed UTF-8 scalar at the front of `s`, 0 if none. */
  function ScalarLength(s: seq<byte>): (n: nat)
    requires s != []
    ensures n <= |s|
  {
    var b := s[0];
    if b < 0x80 then 1
    else if 0xC2 <= b <= 0xDF && |s| >= 2 && Continuation(s[1]) then 2
    else if |s| >= 3 && Continuation(s[1]) && Continuation(s[2])
         && ((b == 0xE0 && s[1] >= 0xA0) || (b == 0xED && s[1] <= 0x9F)
             || (0xE1 <= b <= 0xEF && b != 0xED)) then 3
    else if |s| >= 4 && Continuation(s[1]) && Continuation(s[2]) && Continuation(s[3])
         && ((b == 0xF0 && s[1] >= 0x90) || 0xF1 <= b <= 0xF3 || (b == 0xF4 && s[1] <= 0x8F)) then 4
    else 0
  }

  predicate Utf8(s: seq<byte>) {
    s == [] || (ScalarLength(s) > 0 && Utf8(s[ScalarLength(s)..]))
  }

  /** A Unicode scalar value: no surrogate, at most 0x10FFFF. */
  predicate IsScalar(c: nat) {
    c < 0xD800 || 0xE000 <= c <= 0x10FFFF
  }

  /** The UTF-8 encoding of a scalar value (section 3 of RFC 3629). */
  function Utf8Of(c: nat): (bs: seq<byte>)
    requires IsScalar(c)
    ensures 1 <= |bs| <= 4
  {
    if c < 0x80 then [c as byte]
    else if c < 0x800 then [(0xC0 + c / 64) as byte, (0x80 + c % 64) as byte]
    else if c < 0x1_0000 then [(0xE0 + c / 64 / 64) as byte, (0x80 + c / 64 % 64) as byte, (0x80 + c % 64) as byte]
    else [(0xF0 + c / 64 / 64 / 64) as byte, (0x80 + c / 64 / 64 % 64) as byte, (0x80 + c / 64 % 64) as byte, (0x80 + c % 64) as byte]
  }

  predicate AllScalars(text: seq<nat>) {
    forall i :: 0 <= i < |text| ==> IsScalar(text[i])
  }

  function Utf8OfText(text: seq<nat>): seq<byte>
    requires AllScalars(text)
  {
    if text == [] then [] else Utf8Of(text[0]) + Utf8OfText(text[1..])
  }

  lemma ScalarIsRead(c: nat, rest: seq<byte>)
    requires IsScalar(c)
    ensures ScalarLength(Utf8Of(c) + rest) == |Utf8Of(c)|
  {
    var s := Utf8Of(c) + rest;
    assert s[0] == Utf8Of(c)[0];
    assert |Utf8Of(c)| > 1 ==> s[1] == Utf8Of(c)[1];
    assert |Utf8Of(c)| > 2 ==> s[2] == Utf8Of(c)[2];
    assert |Utf8Of(c)| > 3 ==> s[3] == Utf8Of(c)[3];
  }

  /** The scalar value at the front of `s`. */
  function ScalarOf(s: seq<byte>): (c: nat)
    requires s != [] && ScalarLength(s) > 0
  {
    var b := s[0] as nat;
    match ScalarLength(s)
    case 1 => b
    case 2 => (b - 0xC0) * 64 + (s[1] as nat - 0x80)
    case 3 => ((b - 0xE0) * 64 + (s[1] as nat - 0x80)) * 64 + (s[2] as nat - 0x80)
    case _ => (((b - 0xF0) * 64 + (s[1] as nat - 0x80)) * 64 + (s[2] as nat - 0x80)) * 64 + (s[3] as nat - 0x80)
  }

  lemma ReadIsScalar(s: seq<byte>)
    requires s != [] && ScalarLength(s) > 0
    ensures IsScalar(ScalarOf(s)) && Utf8Of(ScalarOf(s)) == s[..ScalarLength(s)]
  {
    var n := ScalarLength(s);
    if n == 1 {
      assert s[..1] == [s[0]];
    } else if n == 2 {
      TwoBytes(s);
    } else if n == 3 {
      ThreeBytes(s);
    } else {
      FourBytesRead(s);
    }
  }

  lemma SixBits(a: nat, b: nat)
    requires b < 64
    ensures (a * 64 + b) / 64 == a && (a * 64 + b) % 64 == b
  {
  }

  lemma TwoBytes(s: seq<byte>)
    requires s != [] && ScalarLength(s) == 2
    ensures IsScalar(ScalarOf(s)) && Utf8Of(ScalarOf(s)) == s[..2]
  {
    var a, b := s[0] as nat - 0xC0, s[1] as nat - 0x80;
    SixBits(a, b);
    assert s[..2] == [s[0], s[1]];
  }

  lemma ThreeBytes(s: seq<byte>)
    requires s != [] && ScalarLength(s) == 3
    ensures IsScalar(ScalarOf(s)) && Utf8Of(ScalarOf(s)) == s[..3]
  {
    var a, b, c := s[0] as nat - 0xE0, s[1] as nat - 0x80, s[2] as nat - 0x80;
    SixBits(a, b);
    SixBits(a * 64 + b, c);
    assert ScalarOf(s) == (a * 64 + b) * 64 + c >= 0x800;
    assert s[..3] == [s[0], s[1], s[2]];
  }

  lemma FourBytesRead(s: seq<byte>)
    requires s != [] && ScalarLength(s) == 4
    ensures IsScalar(ScalarOf(s)) && Utf8Of(ScalarOf(s)) == s[..4]
  {
    var a, b, c, d := s[0] as nat - 0xF0, s[1] as nat - 0x80, s[2] as nat - 0x80, s[3] as nat - 0x80;
    SixBits(a, b);
    SixBits(a * 64 + b, c);
    SixBits((a * 64 + b) * 64 + c, d);
    assert ScalarOf(s) == ((a * 64 + b) * 64 + c) * 64 + d >= 0x1_0000;
    assert s[..4] == [s[0], s[1], s[2], s[3]];
  }

  /** `s` encodes `text`. */
  ghost predicate Encodes(s: seq<byte>, text: seq<nat>) {
    AllScalars(text) && s == Utf8OfText(text)
  }

  lemma {:induction false} TextOf(s: seq<byte>) returns (text: seq<nat>)
    requires Utf8(s)
    ensures Encodes(s, text)
    decreases |s|
  {
    hide ScalarLength, Utf8Of, IsScalar, ScalarOf;
    if s == [] {
      text := [];
    } else {
      var n := ScalarLength(s);
      var rest := TextOf(s[n..]);
      ReadIsScalar(s);
      text := [ScalarOf(s)] + rest;
      assert text[1..] == rest && s == s[..n] + s[n..];
    }
  }

  lemma {:induction false} EncodedIsUtf8(s: seq<byte>, text: seq<nat>)
    requires Encodes(s, text)
    ensures Utf8(s)
    decreases |text|
  {
    hide ScalarLength, Utf8Of, IsScalar;
    if text != [] {
      var n := |Utf8Of(text[0])|;
      ScalarIsRead(text[0], Utf8OfText(text[1..]));
      assert s[n..] == Utf8OfText(text[1..]) && AllScalars(text[1..]);
      EncodedIsUtf8(s[n..], text[1..]);
    }
  }

  /** The check accepts exactly the encodings of texts. */
  lemma Utf8Iff(s: seq<byte>)
    ensures Utf8(s) <==> exists text :: Encodes(s, text)
  {
    hide Utf8, Encodes;
    if Utf8(s) {
      var text := TextOf(s);
    }
    if text :| Encodes(s, text) {
      EncodedIsUtf8(s, text);
    }
  }

  lemma {:induction false} AsciiIsUtf8(s: seq<byte>)
    requires forall i :: 0 <= i < |s| ==> s[i] < 0x80
    ensures Utf8(s)
  {
    if s != [] {
      AsciiIsUtf8(s[1..]);
    }
  }

  // ---- Encoding ----------------------------------------------------------

  /** A length cast to 16 bits, then that many bytes. */
  function Field(bytes: seq<byte>): (bs: seq<byte>)
    ensures |bs| == 2 + |bytes|
    ensures WordAt(bs, 0) == |bytes| % U16
    ensures bs[2..] == bytes
  {
    Be16(|bytes|) + bytes
  }

  /** One attribute on the wire. */
  function AttributeBytes(a: Attribute): (bs: seq<byte>)
    ensures |bs| == 5 + |a.name| + |a.value|
  {
    [a.tag] + (Field(a.name) + Field(a.value))
  }

  /** What a message body consists of: group delimiters and attributes. */
  datatype Item = Group(delimiter: byte) | Attr(attribute: Attribute) {
    function Bytes(): (bs: seq<byte>)
      ensures bs != []
    {
      match this
      case Group(tag) => [tag]
      case Attr(a) => AttributeBytes(a)
    }

    function Size(): nat
    {
      match this
      case Group(_) => 1
      case Attr(a) => 5 + |a.name| + |a.value|
    }

    function Attributes(): seq<Attribute> {
      match this
      case Group(_) => []
      case Attr(a) => [a]
    }

    /** The name a nameless value after this item belongs to. */
    function NameAfter(lastName: seq<byte>): seq<byte> {
      match this
      case Group(_) => lastName
      case Attr(a) => a.name
    }
  }

  function Encode(items: seq<Item>): (bs: seq<byte>)
    ensures |bs| >= |items|
  {
    if items == [] then [] else items[0].Bytes() + Encode(items[1..])
  }

  function SizeOf(items: seq<Item>): nat {
    if items == [] then 0 else items[0].Size() + SizeOf(items[1..])
  }

  function AttributesOf(items: seq<Item>): (attributes: seq<Attribute>)
  {
    if items == [] then []
    else items[0].Attributes() + AttributesOf(items[1..])
  }

  lemma {:induction false} EncodeAppend(a: seq<Item>, b: seq<Item>)
    ensures Encode(a + b) == Encode(a) + Encode(b)
    ensures AttributesOf(a + b) == AttributesOf(a) + AttributesOf(b)
  {
    if a == [] {
      assert a + b == b;
    } else {
      hide Item.Bytes, Item.Attributes;
      assert (a + b)[1..] == a[1..] + b && (a + b)[0] == a[0];
      EncodeAppend(a[1..], b);
      Associative(a[0].Bytes(), Encode(a[1..]), Encode(b));
      Associative(a[0].Attributes(), AttributesOf(a[1..]), AttributesOf(b));
    }
  }

  function Header(code: nat, requestId: nat): (bs: seq<byte>)
    ensures |bs| == 8
  {
    [1, 1] + Be16(code) + Be32(requestId)
  }

  /** A whole request: header, items, end-of-attributes. */
  function Message(code: nat, requestId: nat, items: seq<Item>): seq<byte> {
    Header(code, requestId) + Encode(items) + [END_OF_ATTRIBUTES_TAG]
  }

  function TextItem(tag: byte, name: string, value: seq<byte>): Item {
    Attr(Attribute(Ascii(name), tag, value))
  }

  function PreambleItems(printerUri: seq<byte>): seq<Item> {
    [Group(OPERATION_ATTRIBUTES_TAG),
     TextItem(CHARSET_TAG, "attributes-charset", Ascii("utf-8")),
     TextItem(NATURAL_LANGUAGE_TAG, "attributes-natural-language", Ascii("en-us")),
     TextItem(URI_TAG, "printer-uri", printerUri)]
  }

  /** `copies` is clamped to at least 1 and written only above 1. */
  function CopiesItems(copies: nat): seq<Item> {
    if copies > 1
    then [Group(JOB_ATTRIBUTES_TAG), TextItem(INTEGER_TAG, "copies", Be32(copies))]
    else []
  }

  function PrintJobItems(printerUri: seq<byte>, format: seq<byte>, jobName: seq<byte>, copies: nat): seq<Item> {
    PreambleItems(printerUri)
    + [TextItem(MIME_MEDIA_TYPE_TAG, "document-format", format),
       TextItem(NAME_WITHOUT_LANGUAGE_TAG, "job-name", jobName)]
    + CopiesItems(copies)
  }

  function GetJobAttributesItems(printerUri: seq<byte>, jobId: i32): seq<Item> {
    PreambleItems(printerUri) + [TextItem(INTEGER_TAG, "job-id", Be32(ToU32(jobId)))]
  }

  lemma EncodeOne(items: seq<Item>, last: Item)
    ensures Encode(items + [last]) == Encode(items) + last.Bytes()
  {
    EncodeAppend(items, [last]);
    assert Encode([last]) == last.Bytes() + Encode([]);
  }

  /** Append one attribute to `buf`, a message of `items` so far. */
  method WriteAttribute(buf: seq<byte>, tag: byte, name: string, value: seq<byte>,
                        ghost header: seq<byte>, ghost items: seq<Item>) returns (out: seq<byte>)
    requires buf == header + Encode(items)
    ensures out == buf + AttributeBytes(Attribute(Ascii(name), tag, value))
    ensures out == header + Encode(items + [TextItem(tag, name, value)])
  {
    var nameBytes := Ascii(name);
    out := buf + [tag];
    out := out + Be16(|nameBytes|);
    out := out + nameBytes;
    Associative(buf + [tag], Be16(|nameBytes|), nameBytes);
    out := out + Be16(|value|);
    out := out + value;
    ghost var n, v := Field(nameBytes), Field(value);
    Associative(buf + [tag] + n, Be16(|value|), value);
    Associative(buf + [tag], n, v);
    Associative(buf, [tag], n + v);
    EncodeOne(items, TextItem(tag, name, value));
    Associative(header, Encode(items), AttributeBytes(Attribute(nameBytes, tag, value)));
  }

  method WriteGroup(buf: seq<byte>, delimiter: byte, ghost header: seq<byte>, ghost items: seq<Item>)
    returns (out: seq<byte>)
    requires buf == header + Encode(items)
    ensures out == buf + [delimiter]
    ensures out == header + Encode(items + [Group(delimiter)])
  {
    out := buf + [delimiter];
    EncodeOne(items, Group(delimiter));
  }

  method WritePreamble(code: nat, printerUri: seq<byte>, requestId: nat) returns (buf: seq<byte>)
    ensures buf == Header(code, requestId) + Encode(PreambleItems(printerUri))
  {
    buf := [1, 1];
    buf := buf + Be16(code);
    buf := buf + Be32(requestId);
    ghost var header := buf;
    assert buf == header + Encode([]);
    ghost var items := PreambleItems(printerUri);
    assert [] + [items[0]] == items[..1] && items[..1] + [items[1]] == items[..2];
    assert items[..2] + [items[2]] == items[..3] && items[..3] + [items[3]] == items;
    buf := WriteGroup(buf, OPERATION_ATTRIBUTES_TAG, header, []);
    buf := WriteAttribute(buf, CHARSET_TAG, "attributes-charset", Ascii("utf-8"), header, items[..1]);
    buf := WriteAttribute(buf, NATURAL_LANGUAGE_TAG, "attributes-natural-language", Ascii("en-us"), header, items[..2]);
    buf := WriteAttribute(buf, URI_TAG, "printer-uri", printerUri, header, items[..3]);
  }

  method BuildPrintJobRequest(printerUri: seq<byte>, format: seq<byte>, jobName: seq<byte>,
                              requestId: nat, copies: nat) returns (buf: seq<byte>)
    ensures buf == Message(PRINT_JOB, requestId, PrintJobItems(printerUri, format, jobName, copies))
  {
    hide Encode, Header, TextItem, Be32, PreambleItems;
    ghost var header := Header(PRINT_JOB, requestId);
    ghost var items := PreambleItems(printerUri);
    buf := WritePreamble(PRINT_JOB, printerUri, requestId);
    buf := WriteAttribute(buf, MIME_MEDIA_TYPE_TAG, "document-format", format, header, items);
    items := items + [TextItem(MIME_MEDIA_TYPE_TAG, "document-format", format)];
    buf := WriteAttribute(buf, NAME_WITHOUT_LANGUAGE_TAG, "job-name", jobName, header, items);
    items := items + [TextItem(NAME_WITHOUT_LANGUAGE_TAG, "job-name", jobName)];
    Associative(PreambleItems(printerUri), [TextItem(MIME_MEDIA_TYPE_TAG, "document-format", format)],
                [TextItem(NAME_WITHOUT_LANGUAGE_TAG, "job-name", jobName)]);
    buf := WriteCopies(buf, if copies < 1 then 1 else copies, header, items);
    assert items + CopiesItems(copies) == PrintJobItems(printerUri, format, jobName, copies);
    buf := buf + [END_OF_ATTRIBUTES_TAG];
  }

  /** The job attributes group, only for several copies. */
  method WriteCopies(buf: seq<byte>, copies: nat, ghost header: seq<byte>, ghost items: seq<Item>)
    returns (out: seq<byte>)
    requires buf == header + Encode(items) && copies >= 1
    ensures out == header + Encode(items + CopiesItems(copies))
  {
    hide Encode, TextItem, Be32;
    out := buf;
    if copies > 1 {
      out := WriteGroup(out, JOB_ATTRIBUTES_TAG, header, items);
      out := WriteAttribute(out, INTEGER_TAG, "copies", Be32(copies), header, items + [Group(JOB_ATTRIBUTES_TAG)]);
      assert items + [Group(JOB_ATTRIBUTES_TAG)] + [TextItem(INTEGER_TAG, "copies", Be32(copies))] == items + CopiesItems(copies);
    } else {
      assert items + [] == items;
    }
  }

  method BuildGetJobAttributesRequest(printerUri: seq<byte>, jobId: i32, requestId: nat) returns (buf: seq<byte>)
    ensures buf == Message(GET_JOB_ATTRIBUTES, requestId, GetJobAttributesItems(printerUri, jobId))
  {
    buf := WritePreamble(GET_JOB_ATTRIBUTES, printerUri, requestId);
    buf := WriteAttribute(buf, INTEGER_TAG, "job-id", Be32(ToU32(jobId)),
                          Header(GET_JOB_ATTRIBUTES, requestId), PreambleItems(printerUri));
    buf := buf + [END_OF_ATTRIBUTES_TAG];
  }

  // ---- Parsing -----------------------------------------------------------

  /** The attribute at `pos` and the position after it. An empty name on the
      wire is a further value of the attribute before it. */
  function TakeAt(data: seq<byte>, pos: nat, lastName: seq<byte>): (r: Result<(Attribute, nat), ParseError>)
    requires pos < |data|
    ensures r.Ok? ==> pos + 5 <= r.value.1 <= |data|
  {
    if pos + 3 > |data| then Err(TruncatedNameLength) else
    var valueAt := pos + 3 + WordAt(data, pos + 1);
    if valueAt > |data| then Err(TruncatedName) else
    var name := data[pos + 3..valueAt];
    if !Utf8(name) then Err(InvalidUtf8Name) else
    if valueAt + 2 > |data| then Err(TruncatedValueLength) else
    var end := valueAt + 2 + WordAt(data, valueAt);
    if end > |data| then Err(TruncatedValue) else
    Ok((Attribute(if name == [] then lastName else name, data[pos], data[valueAt + 2..end]), end))
  }

  function Prepend(front: seq<Attribute>, r: Result<seq<Attribute>, ParseError>): Result<seq<Attribute>, ParseError> {
    match r
    case Ok(attributes) => Ok(front + attributes)
    case Err(e) => Err(e)
  }

  /** The attributes from `pos` to the end-of-attributes tag or the end of the
      data. */
  function ScanFrom(data: seq<byte>, pos: nat, lastName: seq<byte>): (r: Result<seq<Attribute>, ParseError>)
    requires pos <= |data|
    decreases |data| - pos
  {
    if pos == |data| || data[pos] == END_OF_ATTRIBUTES_TAG then Ok([])
    else if data[pos] <= 0x0F then ScanFrom(data, pos + 1, lastName)
    else match TakeAt(data, pos, lastName)
      case Err(e) => Err(e)
      case Ok((a, end)) => Prepend([a], ScanFrom(data, end, a.name))
  }

  function Parsed(data: seq<byte>): (r: Result<Response, ParseError>)
  {
    if |data| < 8 then Err(TooShort)
    else match ScanFrom(data, 8, [])
      case Err(e) => Err(e)
      case Ok(attributes) => Ok(Response(WordAt(data, 2), FromBe32(data[4..8]), attributes))
  }

  /** One round of the parser's loop for a value tag at `pos`. */
  method ReadAttribute(data: seq<byte>, pos: nat, lastName: seq<byte>)
    returns (r: Result<(Attribute, nat), ParseError>)
    requires pos < |data|
    ensures r == TakeAt(data, pos, lastName)
  {
    hide Utf8, WordAt;
    var tag, p := data[pos], pos + 1;
    if p + 2 > |data| {
      return Err(TruncatedNameLength);
    }
    var nameLen := WordAt(data, p);
    p := p + 2;
    var name := lastName;
    if nameLen == 0 {
      EmptyNameIsUtf8(data[p..p]);
    } else {
      if p + nameLen > |data| {
        return Err(TruncatedName);
      }
      name := data[p..p + nameLen];
      if !Utf8(name) {
        return Err(InvalidUtf8Name);
      }
      p := p + nameLen;
    }
    if p + 2 > |data| {
      return Err(TruncatedValueLength);
    }
    var valueLen := WordAt(data, p);
    p := p + 2;
    if p + valueLen > |data| {
      return Err(TruncatedValue);
    }
    return Ok((Attribute(name, tag, data[p..p + valueLen]), p + valueLen));
  }

  lemma EmptyNameIsUtf8(s: seq<byte>)
    requires |s| == 0
    ensures Utf8(s)
  {
  }

  method ParseResponse(data: seq<byte>) returns (r: Result<Response, ParseError>)
    ensures r == Parsed(data)
  {
    hide TakeAt;
    if |data| < 8 {
      return Err(TooShort);
    }
    var statusCode := WordAt(data, 2);
    var requestId := FromBe32(data[4..8]);
    var attributes: seq<Attribute> := [];
    var pos := 8;
    var lastName: seq<byte> := [];
    PrependNothing(ScanFrom(data, 8, []));
    while pos < |data|
      invariant 8 <= pos <= |data|
      invariant ScanFrom(data, 8, []) == Prepend(attributes, ScanFrom(data, pos, lastName))
    {
      if data[pos] <= 0x0F {
        if data[pos] == END_OF_ATTRIBUTES_TAG {
          break;
        }
        pos := pos + 1;
      } else {
        var taken := ReadAttribute(data, pos, lastName);
        if taken.Err? {
          return Err(taken.error);
        }
        var (a, end) := taken.value;
        PrependPrepend(attributes, [a], ScanFrom(data, end, a.name));
        attributes := attributes + [a];
        lastName := a.name;
        pos := end;
      }
    }
    assert ScanFrom(data, pos, lastName) == Ok([]);
    assert attributes + [] == attributes;
    return Ok(Response(statusCode, requestId, attributes));
  }

  lemma PrependNothing(r: Result<seq<Attribute>, ParseError>)
    ensures Prepend([], r) == r
  {
    if r.Ok? {
      assert [] + r.value == r.value;
    }
  }

  lemma PrependPrepend(a: seq<Attribute>, b: seq<Attribute>, r: Result<seq<Attribute>, ParseError>)
    ensures Prepend(a, Prepend(b, r)) == Prepend(a + b, r)
  {
    if r.Ok? {
      assert a + (b + r.value) == (a + b) + r.value;
    }
  }

  // ---- What parsing a built message yields ---------------------------------

  /** An item the wire format can carry: a group delimiter, or an attribute
      with a named, valid, short enough name and a short enough value. */
  predicate Carried(item: Item) {
    match item
    case Group(tag) => tag <= 0x0F && tag != END_OF_ATTRIBUTES_TAG
    case Attr(a) => a.tag > 0x0F && 0 < |a.name| < U16 && Utf8(a.name) && |a.value| < U16
  }

  predicate AllCarried(items: seq<Item>) {
    forall i :: 0 <= i < |items| ==> Carried(items[i])
  }

  /** `a` is laid out in `data` from `pos` on. */
  ghost predicate AttributeAt(data: seq<byte>, pos: nat, a: Attribute) {
    && pos + 5 + |a.name| + |a.value| <= |data|
    && data[pos] == a.tag
    && WordAt(data, pos + 1) == |a.name|
    && data[pos + 3..pos + 3 + |a.name|] == a.name
    && WordAt(data, pos + 3 + |a.name|) == |a.value|
    && data[pos + 5 + |a.name|..pos + 5 + |a.name| + |a.value|] == a.value
  }

  ghost predicate ItemAt(data: seq<byte>, pos: nat, item: Item) {
    match item
    case Group(tag) => pos < |data| && data[pos] == tag
    case Attr(a) => AttributeAt(data, pos, a)
  }

  ghost predicate ItemsAt(data: seq<byte>, pos: nat, items: seq<Item>)
    decreases |items|
  {
    if items == [] then pos <= |data|
    else ItemAt(data, pos, items[0]) && ItemsAt(data, pos + items[0].Size(), items[1..])
  }

  lemma WordInside(front: seq<byte>, word: seq<byte>, back: seq<byte>)
    requires |word| == 2
    ensures WordAt(front + word + back, |front|) == WordAt(word, 0)
  {
  }

  lemma FieldInside(front: seq<byte>, bytes: seq<byte>, back: seq<byte>)
    requires |bytes| < U16
    ensures var data, at := front + Field(bytes) + back, |front|;
      WordAt(data, at) == |bytes| && data[at + 2..at + 2 + |bytes|] == bytes
  {
    var size := Be16(|bytes|);
    WordInside(front, size, bytes + back);
    hide Be16, WordAt;
    Associative(front, size, bytes);
    Associative(front + size, bytes, back);
    Middle(front + size, bytes, back);
  }

  lemma WrittenAttributeAt(pre: seq<byte>, a: Attribute, post: seq<byte>)
    requires |a.name| < U16 && |a.value| < U16
    ensures AttributeAt(pre + AttributeBytes(a) + post, |pre|, a)
  {
    hide Field;
    var data := pre + AttributeBytes(a) + post;
    var n, v := Field(a.name), Field(a.value);
    assert data == pre + [a.tag] + n + (v + post);
    assert data == (pre + [a.tag] + n) + v + post;
    FieldInside(pre + [a.tag], a.name, v + post);
    FieldInside(pre + [a.tag] + n, a.value, post);
    assert |n| == 2 + |a.name|;
    assert data[|pre|] == a.tag;
  }

  lemma {:induction false} EncodedItemsAt(pre: seq<byte>, items: seq<Item>, post: seq<byte>)
    requires AllCarried(items)
    ensures ItemsAt(pre + Encode(items) + post, |pre|, items)
    decreases |items|
  {
    hide Utf8, AttributeBytes, AttributeAt;
    if items != [] {
      var head, tail := items[0].Bytes(), Encode(items[1..]);
      var data := pre + Encode(items) + post;
      Associative(pre, head, tail);
      EncodedItemsAt(pre + head, items[1..], post);
      assert ItemAt(data, |pre|, items[0]) by {
        Associative(pre + head, tail, post);
        if items[0].Attr? {
          WrittenAttributeAt(pre, items[0].attribute, tail + post);
        }
      }
    }
  }

  lemma TakeWritten(data: seq<byte>, pos: nat, a: Attribute, lastName: seq<byte>)
    requires Carried(Attr(a)) && AttributeAt(data, pos, a)
    ensures TakeAt(data, pos, lastName) == Ok((a, pos + Attr(a).Size()))
  {
    hide Utf8;
  }

  /** A built attribute comes back unchanged exactly when both of its lengths
      fit the 16-bit length fields. */
  lemma WrittenAttributeComesBackIff(a: Attribute, post: seq<byte>, lastName: seq<byte>)
    requires a.tag > 0x0F && a.name != [] && Utf8(a.name) && |lastName| < U16
    ensures TakeAt(AttributeBytes(a) + post, 0, lastName) == Ok((a, |AttributeBytes(a)|))
       <==> |a.name| < U16 && |a.value| < U16
  {
    hide TakeAt, Utf8, AttributeBytes, AttributeAt;
    var data := AttributeBytes(a) + post;
    if |a.name| < U16 && |a.value| < U16 {
      WrittenAttributeAt([], a, post);
      assert [] + AttributeBytes(a) + post == data;
      TakeWritten(data, 0, a, lastName);
    } else {
      TakenIsShort(data, 0, lastName);
    }
  }

  lemma TakenIsShort(data: seq<byte>, pos: nat, lastName: seq<byte>)
    requires pos < |data| && |lastName| < U16
    ensures TakeAt(data, pos, lastName).Ok? ==>
              |TakeAt(data, pos, lastName).value.0.name| < U16 && |TakeAt(data, pos, lastName).value.0.value| < U16
  {
  }

  /** How much of an attribute has to be there for what: the first `m` bytes of
      a written attribute read as an error that says where they stop, or, if
      its name is not UTF-8, that it is not. */
  lemma CutAttributeTells(a: Attribute, m: nat, lastName: seq<byte>)
    requires |a.name| < U16 && |a.value| < U16 && 0 < m <= |AttributeBytes(a)|
    ensures TakeAt(AttributeBytes(a)[..m], 0, lastName)
         == if m < 3 then Err(TruncatedNameLength)
            else if m < 3 + |a.name| then Err(TruncatedName)
            else if !Utf8(a.name) then Err(InvalidUtf8Name)
            else if m < 5 + |a.name| then Err(TruncatedValueLength)
            else if m < 5 + |a.name| + |a.value| then Err(TruncatedValue)
            else Ok((Attribute(if a.name == [] then lastName else a.name, a.tag, a.value), m))
  {
    hide Utf8, AttributeBytes;
    var whole, cut := AttributeBytes(a), AttributeBytes(a)[..m];
    WrittenAttributeAt([], a, []);
    assert [] + whole + [] == whole;
    if m >= 3 {
      assert WordAt(cut, 1) == WordAt(whole, 1);
    }
    if m >= 3 + |a.name| {
      assert cut[3..3 + |a.name|] == whole[3..3 + |a.name|];
    }
    if m >= 5 + |a.name| {
      assert WordAt(cut, 3 + |a.name|) == WordAt(whole, 3 + |a.name|);
      assert m == |whole| ==> cut == whole;
    }
  }

  function LastNameAfter(items: seq<Item>, lastName: seq<byte>): seq<byte> {
    if items == [] then lastName else LastNameAfter(items[1..], items[0].NameAfter(lastName))
  }

  lemma ScanItem(data: seq<byte>, pos: nat, item: Item, lastName: seq<byte>)
    requires Carried(item) && ItemAt(data, pos, item)
    ensures ScanFrom(data, pos, lastName)
         == Prepend(item.Attributes(), ScanFrom(data, pos + item.Size(), item.NameAfter(lastName)))
  {
    hide Utf8, AttributeBytes;
    match item
    case Group(tag) =>
      PrependNothing(ScanFrom(data, pos + 1, lastName));
    case Attr(a) =>
      TakeWritten(data, pos, a, lastName);
  }

  /** Scanning encoded items yields exactly their attributes, then goes on
      with what follows them. */
  lemma {:induction false} ScanItems(data: seq<byte>, pos: nat, items: seq<Item>, lastName: seq<byte>)
    requires AllCarried(items) && ItemsAt(data, pos, items)
    ensures pos + SizeOf(items) <= |data|
    ensures ScanFrom(data, pos, lastName)
         == Prepend(AttributesOf(items), ScanFrom(data, pos + SizeOf(items), LastNameAfter(items, lastName)))
    decreases |items|
  {
    hide Utf8, TakeAt, AttributeBytes, AttributeAt;
    if items == [] {
      PrependNothing(ScanFrom(data, pos, lastName));
    } else {
      var head, tail := items[0], items[1..];
      ScanItem(data, pos, head, lastName);
      ScanItems(data, pos + head.Size(), tail, head.NameAfter(lastName));
      PrependPrepend(head.Attributes(), AttributesOf(tail),
                     ScanFrom(data, pos + SizeOf(items), LastNameAfter(items, lastName)));
    }
  }

  /** Round trip: a message followed by any document bytes parses to exactly
      the attributes that were written, in order. */
  lemma MessageRoundTrip(code: nat, requestId: nat, items: seq<Item>, document: seq<byte>)
    requires code < U16 && requestId < U32 && AllCarried(items)
    ensures Parsed(Message(code, requestId, items) + document)
         == Ok(Response(code, requestId, AttributesOf(items)))
  {
    hide Utf8, TakeAt, AttributeBytes, AttributeAt;
    var data := Message(code, requestId, items) + document;
    MessageParts(code, requestId, items, document);
    ScanItems(data, 8, items, []);
    assert AttributesOf(items) + [] == AttributesOf(items);
  }

  lemma MessageParts(code: nat, requestId: nat, items: seq<Item>, document: seq<byte>)
    requires code < U16 && requestId < U32 && AllCarried(items)
    ensures var data := Message(code, requestId, items) + document;
      && |data| == 9 + SizeOf(items) + |document|
      && WordAt(data, 2) == code && FromBe32(data[4..8]) == requestId
      && ItemsAt(data, 8, items)
      && data[8 + SizeOf(items)] == END_OF_ATTRIBUTES_TAG
  {
    hide Utf8, AttributeAt, FromBe32, Be16, Be32, Encode, SizeOf, ItemsAt, AllCarried;
    var header := Header(code, requestId);
    var data := Message(code, requestId, items) + document;
    var end := [END_OF_ATTRIBUTES_TAG];
    Associative(header + Encode(items), end, document);
    EncodedItemsAt(header, items, end + document);
    EncodedSize(items);
    assert data[..8] == header;
    assert data[2] == header[2] && data[3] == header[3] && data[4..8] == header[4..8];
    assert header[2] == Be16(code)[0] && header[3] == Be16(code)[1] && header[4..8] == Be32(requestId);
  }

  lemma {:induction false} EncodedSize(items: seq<Item>)
    ensures |Encode(items)| == SizeOf(items)
  {
    if items != [] {
      EncodedSize(items[1..]);
      assert |items[0].Bytes()| == items[0].Size();
    }
  }

  /** `k` bytes are exactly the first `j` items. */
  ghost predicate Boundary(items: seq<Item>, k: nat, j: nat) {
    j <= |items| && k == SizeOf(items[..j])
  }

  /** `k` bytes fall between two of `items`. */
  ghost predicate AtBoundary(items: seq<Item>, k: nat) {
    exists j: nat :: Boundary(items, k, j)
  }

  lemma BoundaryStep(items: seq<Item>, k: nat, j: nat)
    requires items != [] && 0 < j <= |items|
    ensures Boundary(items, k, j) <==> k >= items[0].Size() && Boundary(items[1..], k - items[0].Size(), j - 1)
    ensures AttributesOf(items[..j]) == items[0].Attributes() + AttributesOf(items[1..][..j - 1])
  {
    assert items[..j][1..] == items[1..][..j - 1];
  }

  /** Data cut inside the attribute at `pos` is an error. */
  lemma TakeCut(data: seq<byte>, pos: nat, cut: nat, lastName: seq<byte>)
    requires pos < cut <= |data| && TakeAt(data, pos, lastName).Ok? && cut < TakeAt(data, pos, lastName).value.1
    ensures TakeAt(data[..cut], pos, lastName).Err?
  {
    hide Utf8;
  }

  lemma CutInside(data: seq<byte>, pos: nat, item: Item, k: nat, lastName: seq<byte>)
    requires Carried(item) && ItemAt(data, pos, item) && 0 < k < item.Size()
    ensures ScanFrom(data[..pos + k], pos, lastName).Err?
  {
    hide Utf8, AttributeBytes;
    TakeWritten(data, pos, item.attribute, lastName);
    TakeCut(data, pos, pos + k, lastName);
  }

  lemma ItemBeforeCut(data: seq<byte>, pos: nat, cut: nat, item: Item)
    requires ItemAt(data, pos, item) && pos + item.Size() <= cut <= |data|
    ensures ItemAt(data[..cut], pos, item)
  {
    hide Utf8;
    if item.Attr? {
      var a, d := item.attribute, data[..cut];
      assert d[pos + 3..pos + 3 + |a.name|] == data[pos + 3..pos + 3 + |a.name|];
      assert d[pos + 5 + |a.name|..pos + 5 + |a.name| + |a.value|]
          == data[pos + 5 + |a.name|..pos + 5 + |a.name| + |a.value|];
    }
  }

  lemma {:induction false} CutScan(data: seq<byte>, pos: nat, items: seq<Item>, k: nat, lastName: seq<byte>)
    requires AllCarried(items) && ItemsAt(data, pos, items)
    requires k <= SizeOf(items) && pos + k <= |data|
    ensures forall j: nat :: Boundary(items, k, j) ==>
              ScanFrom(data[..pos + k], pos, lastName) == Ok(AttributesOf(items[..j]))
    ensures ScanFrom(data[..pos + k], pos, lastName).Ok? ==> AtBoundary(items, k)
    decreases |items|
  {
    hide Utf8, TakeAt, AttributeBytes, AttributeAt;
    var d := data[..pos + k];
    if k == 0 {
      assert Boundary(items, 0, 0) by { assert items[..0] == []; }
      forall j: nat | Boundary(items, k, j) ensures items[..j] == [] {}
    } else {
      var head, tail := items[0], items[1..];
      forall j: nat | Boundary(items, k, j) ensures j > 0 {
        assert items[..0] == [];
      }
      if k < head.Size() {
        CutInside(data, pos, head, k, lastName);
        forall j: nat | Boundary(items, k, j) ensures false {
          BoundaryStep(items, k, j);
        }
      } else {
        var rest := k - head.Size();
        ItemBeforeCut(data, pos, pos + k, head);
        ScanItem(d, pos, head, lastName);
        CutScan(data, pos + head.Size(), tail, rest, head.NameAfter(lastName));
        forall j: nat | Boundary(items, k, j) ensures ScanFrom(d, pos, lastName) == Ok(AttributesOf(items[..j])) {
          BoundaryStep(items, k, j);
        }
        if ScanFrom(d, pos, lastName).Ok? {
          var j: nat :| Boundary(tail, rest, j);
          BoundaryStep(items, k, j + 1);
        }
      }
    }
  }

  /** A message cut short is accepted exactly when the cut falls between two
      items; then the attributes before the cut are returned. */
  lemma CutMessage(code: nat, requestId: nat, items: seq<Item>, k: nat)
    requires code < U16 && requestId < U32 && AllCarried(items)
    requires k <= 8 + SizeOf(items)
    ensures |Message(code, requestId, items)| == 9 + SizeOf(items)
    ensures Parsed(Message(code, requestId, items)[..k]).Ok? <==> k >= 8 && AtBoundary(items, k - 8)
    ensures forall j: nat :: k >= 8 && Boundary(items, k - 8, j) ==>
              Parsed(Message(code, requestId, items)[..k]) == Ok(Response(code, requestId, AttributesOf(items[..j])))
  {
    hide Utf8, TakeAt, FromBe32, ItemsAt, Message, Parsed, ScanFrom, WordAt, SizeOf, AttributesOf, AllCarried, Boundary;
    var data := Message(code, requestId, items);
    assert data + [] == data;
    MessageParts(code, requestId, items, []);
    if k >= 8 {
      CutHeader(data, k);
      CutScan(data, 8, items, k - 8, []);
    } else {
      TooShortToParse(data[..k]);
    }
  }

  lemma CutHeader(data: seq<byte>, k: nat)
    requires 8 <= k <= |data|
    ensures Parsed(data[..k]) == match ScanFrom(data[..k], 8, [])
                                 case Err(e) => Err(e)
                                 case Ok(attributes) => Ok(Response(WordAt(data, 2), FromBe32(data[4..8]), attributes))
  {
    hide ScanFrom, FromBe32;
    assert data[..k][4..8] == data[4..8];
  }

  lemma TooShortToParse(data: seq<byte>)
    requires |data| < 8
    ensures Parsed(data) == Err(TooShort)
  {
  }

  lemma NamesAreCarried(tag: byte, name: string, value: seq<byte>)
    requires tag > 0x0F && 0 < |name| < U16 && |value| < U16
    ensures Carried(TextItem(tag, name, value))
  {
    AsciiIsUtf8(Ascii(name));
  }

  lemma CarriedAppend(a: seq<Item>, b: seq<Item>)
    requires AllCarried(a) && AllCarried(b)
    ensures AllCarried(a + b)
  {
  }

  lemma PreambleIsCarried(printerUri: seq<byte>)
    requires |printerUri| < U16
    ensures AllCarried(PreambleItems(printerUri))
  {
    hide Utf8;
    NamesAreCarried(CHARSET_TAG, "attributes-charset", Ascii("utf-8"));
    NamesAreCarried(NATURAL_LANGUAGE_TAG, "attributes-natural-language", Ascii("en-us"));
    NamesAreCarried(URI_TAG, "printer-uri", printerUri);
  }

  lemma PrintJobItemsAreCarried(printerUri: seq<byte>, format: seq<byte>, jobName: seq<byte>, copies: nat)
    requires |printerUri| < U16 && |format| < U16 && |jobName| < U16
    ensures AllCarried(PrintJobItems(printerUri, format, jobName, copies))
  {
    NamesAreCarried(MIME_MEDIA_TYPE_TAG, "document-format", format);
    NamesAreCarried(NAME_WITHOUT_LANGUAGE_TAG, "job-name", jobName);
    NamesAreCarried(INTEGER_TAG, "copies", Be32(copies));
    PreambleIsCarried(printerUri);
    var own := [TextItem(MIME_MEDIA_TYPE_TAG, "document-format", format),
                TextItem(NAME_WITHOUT_LANGUAGE_TAG, "job-name", jobName)];
    CarriedAppend(PreambleItems(printerUri), own);
    CarriedAppend(PreambleItems(printerUri) + own, CopiesItems(copies));
  }

  /** A Print-Job request, sent with any document, is read back with exactly
      the attributes of the job. */
  lemma PrintJobRoundTrip(printerUri: seq<byte>, format: seq<byte>, jobName: seq<byte>,
                          requestId: nat, copies: nat, document: seq<byte>)
    requires |printerUri| < U16 && |format| < U16 && |jobName| < U16 && requestId < U32
    ensures Parsed(Message(PRINT_JOB, requestId, PrintJobItems(printerUri, format, jobName, copies)) + document)
         == Ok(Response(PRINT_JOB, requestId, AttributesOf(PrintJobItems(printerUri, format, jobName, copies))))
  {
    PrintJobItemsAreCarried(printerUri, format, jobName, copies);
    MessageRoundTrip(PRINT_JOB, requestId, PrintJobItems(printerUri, format, jobName, copies), document);
  }

  lemma GetJobAttributesItemsAreCarried(printerUri: seq<byte>, jobId: i32)
    requires |printerUri| < U16
    ensures AllCarried(GetJobAttributesItems(printerUri, jobId))
  {
    hide Utf8;
    NamesAreCarried(INTEGER_TAG, "job-id", Be32(ToU32(jobId)));
    PreambleIsCarried(printerUri);
    CarriedAppend(PreambleItems(printerUri), [TextItem(INTEGER_TAG, "job-id", Be32(ToU32(jobId)))]);
  }

  lemma {:induction false} FirstNamedAppend(a: seq<Attribute>, b: seq<Attribute>, name: seq<byte>)
    ensures FirstNamed(a + b, name) == if FirstNamed(a, name).Some? then FirstNamed(a, name) else FirstNamed(b, name)
  {
    if a == [] {
      assert a + b == b;
    } else {
      assert (a + b)[1..] == a[1..] + b;
      FirstNamedAppend(a[1..], b, name);
    }
  }

  /** The printer reads the number of copies the job asked for exactly when it
      is in 2..2^31-1; 0 and 1 are written as no attribute at all, and a larger
      number turns negative (section 5.2.5 of RFC 8011 allows 1..2^31-1). */
  lemma CopiesReadBackIff(printerUri: seq<byte>, format: seq<byte>, jobName: seq<byte>, copies: nat)
    requires copies < U32
    ensures CopiesRead(printerUri, format, jobName, copies).Some? <==> copies > 1
    ensures CopiesRead(printerUri, format, jobName, copies) == Some(Some(copies as int)) <==> 2 <= copies < 0x8000_0000
    ensures copies >= 0x8000_0000 ==> CopiesRead(printerUri, format, jobName, copies) == Some(Some(copies - U32))
  {
    hide Ascii, Be32, PrintJobItems, FirstNamed, AttributesOf;
    CopiesFound(printerUri, format, jobName, copies);
    CopiesValue(copies);
  }

  lemma CopiesValue(copies: nat)
    requires copies < U32
    ensures Attribute(Ascii("copies"), INTEGER_TAG, Be32(copies)).AsI32()
         == Some(if copies < 0x8000_0000 then copies as int else copies - U32)
  {
  }

  lemma CopiesFound(printerUri: seq<byte>, format: seq<byte>, jobName: seq<byte>, copies: nat)
    requires copies < U32
    ensures FirstNamed(AttributesOf(PrintJobItems(printerUri, format, jobName, copies)), Ascii("copies"))
         == if copies > 1 then Some(Attribute(Ascii("copies"), INTEGER_TAG, Be32(copies))) else None
  {
    hide Utf8, Ascii, Be32, ToI32, PreambleItems, FirstNamed;
    var front, back := PrintJobItems(printerUri, format, jobName, 1), CopiesItems(copies);
    assert PrintJobItems(printerUri, format, jobName, copies) == front + back;
    EncodeAppend(front, back);
    FirstNamedAppend(AttributesOf(front), AttributesOf(back), Ascii("copies"));
    NotCopies(printerUri, format, jobName);
    CopiesAttributes(copies);
  }

  lemma CopiesAttributes(copies: nat)
    requires copies < U32
    ensures FirstNamed(AttributesOf(CopiesItems(copies)), Ascii("copies"))
         == if copies > 1 then Some(Attribute(Ascii("copies"), INTEGER_TAG, Be32(copies))) else None
  {
    if copies > 1 {
      var item := TextItem(INTEGER_TAG, "copies", Be32(copies));
      EncodeAppend([Group(JOB_ATTRIBUTES_TAG)], [item]);
      assert AttributesOf([item]) == item.Attributes() + AttributesOf([]);
    }
  }

  /** The `copies` attribute a printer finds in a Print-Job request. */
  function CopiesRead(printerUri: seq<byte>, format: seq<byte>, jobName: seq<byte>, copies: nat): Option<Option<int>> {
    match FirstNamed(AttributesOf(PrintJobItems(printerUri, format, jobName, copies)), Ascii("copies"))
    case None => None
    case Some(a) => Some(a.AsI32())
  }

  lemma NotCopies(printerUri: seq<byte>, format: seq<byte>, jobName: seq<byte>)
    ensures FirstNamed(AttributesOf(PrintJobItems(printerUri, format, jobName, 1)), Ascii("copies")) == None
  {
    var items := PrintJobItems(printerUri, format, jobName, 1);
    assert |items| == 6;
    AttributeNames(items);
    NoneNamed(AttributesOf(items), Ascii("copies"));
  }

  lemma {:induction false} AttributeNames(items: seq<Item>)
    ensures forall a :: a in AttributesOf(items) ==> exists i :: 0 <= i < |items| && items[i] == Attr(a)
  {
    if items != [] {
      AttributeNames(items[1..]);
    }
  }

  lemma {:induction false} NoneNamed(attributes: seq<Attribute>, name: seq<byte>)
    requires forall a :: a in attributes ==> a.name != name
    ensures FirstNamed(attributes, name) == None
  {
    if attributes != [] {
      NoneNamed(attributes[1..], name);
    }
  }

  // ---- What the requests say ------------------------------------------------

  lemma AsciiIsTheText(s: string, i: nat)
    requires i < |s| && s[i] as int < 128
    ensures Ascii(s)[i] as int == s[i] as int
  {
  }

  /** The attributes every request begins with. */
  lemma PreambleSays(printerUri: seq<byte>)
    ensures AttributesOf(PreambleItems(printerUri))
         == [Attribute(Ascii("attributes-charset"), 0x47, Ascii("utf-8")),
             Attribute(Ascii("attributes-natural-language"), 0x48, Ascii("en-us")),
             Attribute(Ascii("printer-uri"), 0x45, printerUri)]
  {
    hide Ascii;
    var items := PreambleItems(printerUri);
    assert AttributesOf(items[4..]) == [];
    assert items[3..][1..] == items[4..] && items[2..][1..] == items[3..] && items[1..][1..] == items[2..];
    assert AttributesOf(items[3..]) == items[3].Attributes();
    assert AttributesOf(items[2..]) == items[2].Attributes() + AttributesOf(items[3..]);
    assert AttributesOf(items[1..]) == items[1].Attributes() + AttributesOf(items[2..]);
    assert AttributesOf(items) == [] + AttributesOf(items[1..]);
  }

  lemma OneAttribute(tag: byte, name: string, value: seq<byte>)
    ensures AttributesOf([TextItem(tag, name, value)]) == [Attribute(Ascii(name), tag, value)]
  {
    assert AttributesOf([]) == [];
  }

  lemma PrintJobItemsSay(printerUri: seq<byte>, format: seq<byte>, jobName: seq<byte>, copies: nat)
    ensures AttributesOf(PrintJobItems(printerUri, format, jobName, copies))
         == [Attribute(Ascii("attributes-charset"), 0x47, Ascii("utf-8")),
             Attribute(Ascii("attributes-natural-language"), 0x48, Ascii("en-us")),
             Attribute(Ascii("printer-uri"), 0x45, printerUri),
             Attribute(Ascii("document-format"), 0x49, format),
             Attribute(Ascii("job-name"), 0x42, jobName)]
            + if copies > 1 then [Attribute(Ascii("copies"), 0x21, Be32(copies))] else []
  {
    hide Ascii, Be32, PreambleItems, TextItem, AttributesOf;
    var preamble := PreambleItems(printerUri);
    var own := [TextItem(0x49, "document-format", format), TextItem(0x42, "job-name", jobName)];
    PreambleSays(printerUri);
    OneAttribute(0x49, "document-format", format);
    OneAttribute(0x42, "job-name", jobName);
    assert own == [TextItem(0x49, "document-format", format)] + [TextItem(0x42, "job-name", jobName)];
    EncodeAppend([TextItem(0x49, "document-format", format)], [TextItem(0x42, "job-name", jobName)]);
    EncodeAppend(preamble, own);
    EncodeAppend(preamble + own, CopiesItems(copies));
    CopiesItemsSay(copies);
  }

  lemma CopiesItemsSay(copies: nat)
    ensures AttributesOf(CopiesItems(copies)) == if copies > 1 then [Attribute(Ascii("copies"), 0x21, Be32(copies))] else []
  {
    hide Ascii, Be32;
    if copies > 1 {
      OneAttribute(0x21, "copies", Be32(copies));
      assert CopiesItems(copies) == [Group(0x02)] + [TextItem(0x21, "copies", Be32(copies))];
      EncodeAppend([Group(0x02)], [TextItem(0x21, "copies", Be32(copies))]);
    }
  }

  /** The first attributes of these names differ from all before them. */
  lemma NamesDiffer()
    ensures |Ascii("attributes-charset")| == 18 && |Ascii("attributes-natural-language")| == 27
    ensures |Ascii("printer-uri")| == 11 && |Ascii("document-format")| == 15 && |Ascii("job-name")| == 8
    ensures |Ascii("copies")| == 6 && |Ascii("job-id")| == 6
  {
  }

  /** Looking up a name finds the first attribute of that name. */
  lemma {:induction false} FirstNamedIff(attributes: seq<Attribute>, name: seq<byte>, i: nat)
    requires i <= |attributes| && forall j :: 0 <= j < i ==> attributes[j].name != name
    ensures i == |attributes| ==> FirstNamed(attributes, name) == None
    ensures i < |attributes| && attributes[i].name == name ==> FirstNamed(attributes, name) == Some(attributes[i])
    decreases i
  {
    if i > 0 {
      FirstNamedIff(attributes[1..], name, i - 1);
    }
  }

  /** Print-Job (operation 0x0002) as a printer reads it: under each name the
      value that was given for it. */
  lemma PrintJobSays(printerUri: seq<byte>, format: seq<byte>, jobName: seq<byte>, requestId: nat, copies: nat,
                     document: seq<byte>)
    requires |printerUri| < U16 && |format| < U16 && |jobName| < U16 && requestId < U32
    ensures (var read := Parsed(Message(PRINT_JOB, requestId, PrintJobItems(printerUri, format, jobName, copies)) + document);
             && read.Ok? && read.value.statusCode == 0x0002 && read.value.requestId == requestId
             && read.value.Get(Ascii("attributes-charset")) == Some(Attribute(Ascii("attributes-charset"), 0x47, Ascii("utf-8")))
             && read.value.Get(Ascii("attributes-natural-language"))
                == Some(Attribute(Ascii("attributes-natural-language"), 0x48, Ascii("en-us")))
             && read.value.Get(Ascii("printer-uri")) == Some(Attribute(Ascii("printer-uri"), 0x45, printerUri))
             && read.value.Get(Ascii("document-format")) == Some(Attribute(Ascii("document-format"), 0x49, format))
             && read.value.Get(Ascii("job-name")) == Some(Attribute(Ascii("job-name"), 0x42, jobName)))
  {
    hide Ascii, Be32, PrintJobItems, AttributesOf, Parsed, Message;
    PrintJobRoundTrip(printerUri, format, jobName, requestId, copies, document);
    PrintJobItemsSay(printerUri, format, jobName, copies);
    NamesDiffer();
    var attributes := AttributesOf(PrintJobItems(printerUri, format, jobName, copies));
    FirstNamedIff(attributes, attributes[0].name, 0);
    FirstNamedIff(attributes, attributes[1].name, 1);
    FirstNamedIff(attributes, attributes[2].name, 2);
    FirstNamedIff(attributes, attributes[3].name, 3);
    FirstNamedIff(attributes, attributes[4].name, 4);
  }

  /** Get-Job-Attributes (operation 0x0009): the printer's URI, and the job that
      was asked for. */
  lemma GetJobAttributesSays(printerUri: seq<byte>, jobId: i32, requestId: nat)
    requires |printerUri| < U16 && requestId < U32
    ensures (var read := Parsed(Message(GET_JOB_ATTRIBUTES, requestId, GetJobAttributesItems(printerUri, jobId)));
             && read.Ok? && read.value.statusCode == 0x0009 && read.value.requestId == requestId
             && read.value.Get(Ascii("printer-uri")) == Some(Attribute(Ascii("printer-uri"), 0x45, printerUri))
             && read.value.Get(Ascii("job-id")) == Some(Attribute(Ascii("job-id"), 0x21, Be32(ToU32(jobId))))
             && read.value.IntegerOr0(Ascii("job-id")) == jobId)
  {
    hide Ascii, Be32, AttributesOf, Parsed, Message, GetJobAttributesItems, Response.IntegerOr0, AllCarried, FirstNamed;
    var items := GetJobAttributesItems(printerUri, jobId);
    GetJobAttributesItemsAreCarried(printerUri, jobId);
    MessageRoundTrip(GET_JOB_ATTRIBUTES, requestId, items, []);
    assert Message(GET_JOB_ATTRIBUTES, requestId, items) + [] == Message(GET_JOB_ATTRIBUTES, requestId, items);
    JobIdItemsSay(printerUri, jobId);
    NamesDiffer();
    var attributes := AttributesOf(items);
    JobIdReads(Parsed(Message(GET_JOB_ATTRIBUTES, requestId, items)).value, jobId);
    FirstNamedIff(attributes, attributes[2].name, 2);
    FirstNamedIff(attributes, attributes[3].name, 3);
  }

  lemma JobIdItemsSay(printerUri: seq<byte>, jobId: i32)
    ensures AttributesOf(GetJobAttributesItems(printerUri, jobId))
         == [Attribute(Ascii("attributes-charset"), 0x47, Ascii("utf-8")),
             Attribute(Ascii("attributes-natural-language"), 0x48, Ascii("en-us")),
             Attribute(Ascii("printer-uri"), 0x45, printerUri),
             Attribute(Ascii("job-id"), 0x21, Be32(ToU32(jobId)))]
  {
    hide Ascii, Be32, AttributesOf, PreambleItems;
    PreambleSays(printerUri);
    OneAttribute(0x21, "job-id", Be32(ToU32(jobId)));
    EncodeAppend(PreambleItems(printerUri), [TextItem(0x21, "job-id", Be32(ToU32(jobId)))]);
  }

  lemma JobIdReads(r: Response, jobId: i32)
    ensures r.Get(Ascii("job-id")) == Some(Attribute(Ascii("job-id"), 0x21, Be32(ToU32(jobId)))) ==>
              r.IntegerOr0(Ascii("job-id")) == jobId
  {
    hide Ascii, FirstNamed;
  }

  /** The bytes of the attributes, one after the other. */
  function Wire(attributes: seq<Attribute>): seq<byte> {
    if attributes == [] then [] else AttributeBytes(attributes[0]) + Wire(attributes[1..])
  }

  lemma {:induction false} EncodeAttributes(items: seq<Item>)
    requires forall i :: 0 <= i < |items| ==> items[i].Attr?
    ensures Encode(items) == Wire(AttributesOf(items))
  {
    hide AttributeBytes;
    if items != [] {
      EncodeAttributes(items[1..]);
      assert ([items[0].attribute] + AttributesOf(items[1..]))[1..] == AttributesOf(items[1..]);
    }
  }

  /** The groups on the wire (section 3.1.1 of RFC 8010): version 1.1 and the
      operation, then the operation attributes behind 0x01, the number of copies
      alone in the job group behind 0x02, and 0x03. */
  lemma PrintJobOnTheWire(printerUri: seq<byte>, format: seq<byte>, jobName: seq<byte>, requestId: nat, copies: nat)
    ensures Message(PRINT_JOB, requestId, PrintJobItems(printerUri, format, jobName, copies))
         == [1, 1, 0, 2] + Be32(requestId)
            + ([0x01] + Wire(AttributesOf(PrintJobItems(printerUri, format, jobName, 1)))
               + if copies > 1 then [0x02] + AttributeBytes(Attribute(Ascii("copies"), 0x21, Be32(copies))) else [])
            + [0x03]
  {
    hide Ascii, Be32, AttributeBytes, Wire;
    var items := PrintJobItems(printerUri, format, jobName, 1);
    var own := items[1..];
    assert items == [Group(0x01)] + own && PrintJobItems(printerUri, format, jobName, copies) == items + CopiesItems(copies);
    EncodeAttributes(own);
    assert AttributesOf(items) == [] + AttributesOf(own) == AttributesOf(own);
    assert Encode(items) == [0x01] + Encode(own);
    EncodeAppend(items, CopiesItems(copies));
    CopiesOnTheWire(copies);
    assert Header(PRINT_JOB, requestId) == [1, 1, 0, 2] + Be32(requestId);
    var job := if copies > 1 then [0x02] + AttributeBytes(Attribute(Ascii("copies"), 0x21, Be32(copies))) else [];
    assert Encode(items) == [0x01] + Wire(AttributesOf(items));
    assert Encode(PrintJobItems(printerUri, format, jobName, copies)) == [0x01] + Wire(AttributesOf(items)) + job;
  }

  lemma CopiesOnTheWire(copies: nat)
    ensures Encode(CopiesItems(copies))
         == if copies > 1 then [0x02] + AttributeBytes(Attribute(Ascii("copies"), 0x21, Be32(copies))) else []
  {
    hide Ascii, Be32, AttributeBytes;
    if copies > 1 {
      var attribute := TextItem(0x21, "copies", Be32(copies));
      assert CopiesItems(copies) == [Group(0x02)] + [attribute];
      EncodeAppend([Group(0x02)], [attribute]);
      EncodeOne([], Group(0x02));
      EncodeOne([], attribute);
      assert [] + [Group(0x02)] == [Group(0x02)] && [] + [attribute] == [attribute];
      assert Encode([]) == [];
    }
  }

  // ---- What an answer says -----------------------------------------------------

  /** An integer attribute is its four bytes, big-endian and signed; a missing
      one, or one of another length, reads as 0. Success is a status up to
      0x00FF. */
  lemma AnswerSays(r: Response, name: seq<byte>)
    ensures r.Get(name).None? || |r.Get(name).value.value| != 4 ==> r.IntegerOr0(name) == 0
    ensures r.Get(name).Some? && |r.Get(name).value.value| == 4 ==>
              var v := r.Get(name).value.value;
              r.IntegerOr0(name) == ((if v[0] < 128 then v[0] as int else v[0] as int - 256) * 0x100_0000
                                     + (v[1] as int) * 0x1_0000 + (v[2] as int) * 0x100 + v[3] as int)
    ensures r.IsSuccess() <==> r.statusCode < 0x100
  {
    var a := r.Get(name);
    if a.Some? && |a.value.value| == 4 {
      FourBytes(a.value.value);
    }
  }
}
