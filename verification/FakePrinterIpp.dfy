/** The IPP side of the end-to-end suite's fake printer: a second, separately
    written request parser and its answers, and how they relate to the client's
    codec (`IppCodec`). */
module FakePrinterIpp {
  import opened Common
  import opened IppCodec

  type Pair = (seq<byte>, seq<byte>)

  datatype Request = Request(operation: nat, requestId: nat, attributes: seq<Pair>, document: seq<byte>)

  datatype RequestError = RequestTooShort | NoEnd | Truncated | NamelessFirst

  /** Where the value length and the end of the attribute at `pos` are. */
  function Frame(body: seq<byte>, pos: nat): (f: Option<(nat, nat)>)
    requires pos < |body|
    ensures f.Some? ==> pos + 3 <= f.value.0 && f.value.0 + 2 <= f.value.1 <= |body|
  {
    if pos + 3 > |body| then None else
    var valueAt := pos + 3 + WordAt(body, pos + 1);
    if valueAt + 2 > |body| then None else
    var end := valueAt + 2 + WordAt(body, valueAt);
    if end > |body| then None else Some((valueAt, end))
  }

  /** The (name, value) pairs from `pos` up to the end-of-attributes tag, and
      where the document starts. A further value repeats the name of the last
      pair; `lossy` is the lossy conversion of bytes to a string. */
  function ScanRequest(body: seq<byte>, pos: nat, last: Option<seq<byte>>, lossy: seq<byte> -> seq<byte>)
    : (r: Result<(seq<Pair>, nat), RequestError>)
    requires pos <= |body|
    ensures r.Ok? ==> pos < r.value.1 <= |body|
    decreases |body| - pos
  {
    if pos == |body| then Err(NoEnd)
    else if body[pos] == 0x03 then Ok(([], pos + 1))
    else if body[pos] < 0x10 then ScanRequest(body, pos + 1, last, lossy)
    else match Frame(body, pos)
      case None => Err(Truncated)
      case Some((valueAt, end)) =>
        var wireName := body[pos + 3..valueAt];
        if wireName == [] && last.None? then Err(NamelessFirst) else
        var name := if wireName == [] then last.value else lossy(wireName);
        match ScanRequest(body, end, Some(name), lossy)
        case Err(e) => Err(e)
        case Ok((pairs, document)) => Ok(([(name, body[valueAt + 2..end])] + pairs, document))
  }

  function Accepted(body: seq<byte>, lossy: seq<byte> -> seq<byte>): (r: Result<Request, RequestError>)
  {
    if |body| < 9 then Err(RequestTooShort)
    else match ScanRequest(body, 8, None, lossy)
      case Err(e) => Err(e)
      case Ok((pairs, document)) =>
        Ok(Request(WordAt(body, 2), FromBe32(body[4..8]), pairs, body[document..]))
  }

  function PrependPairs(front: seq<Pair>, r: Result<(seq<Pair>, nat), RequestError>): Result<(seq<Pair>, nat), RequestError> {
    match r
    case Err(e) => Err(e)
    case Ok((pairs, document)) => Ok((front + pairs, document))
  }

  method ParseIppRequest(body: seq<byte>, lossy: seq<byte> -> seq<byte>) returns (r: Result<Request, RequestError>)
    ensures r == Accepted(body, lossy)
  {
    hide WordAt, FromBe32, Frame;
    if |body| < 9 {
      return Err(RequestTooShort);
    }
    var operation := WordAt(body, 2);
    var requestId := FromBe32(body[4..8]);
    var attributes: seq<Pair> := [];
    var pos := 8;
    ghost var last: Option<seq<byte>> := None;
    ghost var whole := ScanRequest(body, 8, None, lossy);
    assert PrependPairs([], whole) == whole by {
      assert whole.Ok? ==> [] + whole.value.0 == whole.value.0;
    }
    while true
      invariant 8 <= pos <= |body|
      invariant last == if attributes == [] then None else Some(attributes[|attributes| - 1].0)
      invariant whole == PrependPairs(attributes, ScanRequest(body, pos, last, lossy))
      decreases |body| - pos
    {
      if pos >= |body| {
        return Err(NoEnd);
      }
      var tag := body[pos];
      if tag == 0x03 {
        pos := pos + 1;
        break;
      }
      if tag < 0x10 {
        pos := pos + 1;
        continue;
      }
      var frame := Frame(body, pos);
      if frame.None? {
        return Err(Truncated);
      }
      var (valueAt, end) := frame.value;
      var name := body[pos + 3..valueAt];
      if name == [] {
        if attributes == [] {
          return Err(NamelessFirst);
        }
        name := attributes[|attributes| - 1].0;
      } else {
        name := lossy(name);
      }
      var pair := (name, body[valueAt + 2..end]);
      ghost var rest := ScanRequest(body, end, Some(name), lossy);
      assert ScanRequest(body, pos, last, lossy) == PrependPairs([pair], rest);
      assert PrependPairs(attributes, PrependPairs([pair], rest)) == PrependPairs(attributes + [pair], rest) by {
        if rest.Ok? {
          Associative(attributes, [pair], rest.value.0);
        }
      }
      attributes := attributes + [pair];
      last := Some(name);
      pos := end;
    }
    assert attributes + [] == attributes;
    return Ok(Request(operation, requestId, attributes, body[pos..]));
  }

  // ---- Exactly what it accepts --------------------------------------------

  /** The frames from `pos` on reach an end-of-attributes tag. */
  predicate Terminated(body: seq<byte>, pos: nat)
    requires pos <= |body|
    decreases |body| - pos
  {
    pos < |body|
    && (body[pos] == 0x03
        || (if body[pos] < 0x10 then Terminated(body, pos + 1)
            else Frame(body, pos).Some? && Terminated(body, Frame(body, pos).value.1)))
  }

  /** The first attribute from `pos` on, if any, carries a name. */
  predicate NamedFirst(body: seq<byte>, pos: nat)
    requires pos <= |body|
    decreases |body| - pos
  {
    pos < |body| && body[pos] != 0x03 ==>
      if body[pos] < 0x10 then NamedFirst(body, pos + 1)
      else Frame(body, pos).Some? ==> Frame(body, pos).value.0 > pos + 3
  }

  lemma {:induction false} ScanAcceptsIff(body: seq<byte>, pos: nat, last: Option<seq<byte>>, lossy: seq<byte> -> seq<byte>)
    requires pos <= |body|
    ensures ScanRequest(body, pos, last, lossy).Ok? <==> Terminated(body, pos) && (last.Some? || NamedFirst(body, pos))
    decreases |body| - pos
  {
    if pos < |body| && body[pos] != 0x03 {
      if body[pos] < 0x10 {
        ScanAcceptsIff(body, pos + 1, last, lossy);
      } else if Frame(body, pos).Some? {
        var (valueAt, end) := Frame(body, pos).value;
        var wireName := body[pos + 3..valueAt];
        if wireName != [] || last.Some? {
          ScanAcceptsIff(body, end, Some(if wireName == [] then last.value else lossy(wireName)), lossy);
        }
      }
    }
  }

  /** The fake printer accepts exactly the bodies of at least nine bytes whose
      frames reach the end tag and whose first attribute is named. */
  lemma RequestAcceptedIff(body: seq<byte>, lossy: seq<byte> -> seq<byte>)
    ensures Accepted(body, lossy).Ok? <==> |body| >= 9 && Terminated(body, 8) && NamedFirst(body, 8)
  {
    if |body| >= 9 {
      ScanAcceptsIff(body, 8, None, lossy);
    }
  }

  // ---- Agreement with the client's parser ----------------------------------

  /** Every name on the wire from `pos` on is valid UTF-8. */
  predicate NamesUtf8(body: seq<byte>, pos: nat)
    requires pos <= |body|
    decreases |body| - pos
  {
    pos < |body| && body[pos] != 0x03 ==>
      if body[pos] < 0x10 then NamesUtf8(body, pos + 1)
      else Frame(body, pos).Some? ==>
        Utf8(body[pos + 3..Frame(body, pos).value.0]) && NamesUtf8(body, Frame(body, pos).value.1)
  }

  /** Lossy conversion keeps valid UTF-8 as it is. */
  ghost predicate KeepsUtf8(lossy: seq<byte> -> seq<byte>) {
    forall name :: Utf8(name) ==> lossy(name) == name
  }

  function Pairs(attributes: seq<Attribute>): (pairs: seq<Pair>)
    ensures |pairs| == |attributes|
  {
    if attributes == [] then []
    else [(attributes[0].name, attributes[0].value)] + Pairs(attributes[1..])
  }

  lemma FrameIsTaken(body: seq<byte>, pos: nat, lastName: seq<byte>)
    requires pos < |body| && Frame(body, pos).Some?
    ensures var (valueAt, end) := Frame(body, pos).value;
      var name := body[pos + 3..valueAt];
      var taken := TakeAt(body, pos, lastName);
      && (taken.Ok? <==> Utf8(name))
      && (taken.Ok? ==>
            taken.value == (Attribute(if name == [] then lastName else name, body[pos], body[valueAt + 2..end]), end))
  {
    hide Utf8;
  }

  lemma {:induction false} ScansAgree(body: seq<byte>, pos: nat, last: Option<seq<byte>>, lastName: seq<byte>,
                                      lossy: seq<byte> -> seq<byte>)
    requires pos <= |body| && KeepsUtf8(lossy) && (last.Some? ==> last.value == lastName)
    requires ScanRequest(body, pos, last, lossy).Ok?
    ensures ScanFrom(body, pos, lastName).Ok? <==> NamesUtf8(body, pos)
    ensures NamesUtf8(body, pos) ==>
              Pairs(ScanFrom(body, pos, lastName).value) == ScanRequest(body, pos, last, lossy).value.0
    decreases |body| - pos
  {
    hide Utf8, TakeAt;
    if body[pos] != 0x03 {
      if body[pos] < 0x10 {
        ScansAgree(body, pos + 1, last, lastName, lossy);
      } else {
        var (valueAt, end) := Frame(body, pos).value;
        var wireName := body[pos + 3..valueAt];
        FrameIsTaken(body, pos, lastName);
        if Utf8(wireName) {
          var name := if wireName == [] then lastName else wireName;
          ScansAgree(body, end, Some(name), name, lossy);
          if NamesUtf8(body, end) {
            var rest := ScanFrom(body, end, name).value;
            var a := Attribute(name, body[pos], body[valueAt + 2..end]);
            assert ([a] + rest)[1..] == rest;
            assert Pairs([a] + rest) == [(a.name, a.value)] + Pairs(rest);
          }
        }
      }
    }
  }

  /** The two parsers agree: a body the fake printer accepts is accepted by the
      client's parser exactly when its names are valid UTF-8, and then with the
      same code, request id and (name, value) list. */
  lemma ParsersAgree(body: seq<byte>, lossy: seq<byte> -> seq<byte>)
    requires KeepsUtf8(lossy) && Accepted(body, lossy).Ok?
    ensures Parsed(body).Ok? <==> NamesUtf8(body, 8)
    ensures Parsed(body).Ok? ==>
              var response, request := Parsed(body).value, Accepted(body, lossy).value;
              && response.statusCode == request.operation
              && response.requestId == request.requestId
              && Pairs(response.attributes) == request.attributes
  {
    hide Utf8;
    ScansAgree(body, 8, None, [], lossy);
  }

  // ---- The client's requests reach the fake printer --------------------------

  lemma ScanWrittenAttribute(body: seq<byte>, pos: nat, a: Attribute, last: Option<seq<byte>>, lossy: seq<byte> -> seq<byte>)
    requires Carried(Attr(a)) && AttributeAt(body, pos, a) && KeepsUtf8(lossy)
    ensures ScanRequest(body, pos, last, lossy)
         == PrependPairs([(a.name, a.value)], ScanRequest(body, pos + Attr(a).Size(), Some(a.name), lossy))
  {
    hide Utf8, WordAt;
    assert Frame(body, pos) == Some((pos + 3 + |a.name|, pos + Attr(a).Size()));
  }

  lemma {:induction false} PairsAppend(a: seq<Attribute>, b: seq<Attribute>)
    ensures Pairs(a + b) == Pairs(a) + Pairs(b)
    decreases |a|
  {
    if a == [] {
      assert a + b == b;
    } else {
      assert (a + b)[0] == a[0] && (a + b)[1..] == a[1..] + b;
      PairsAppend(a[1..], b);
    }
  }

  lemma {:induction false} ScanWrittenItems(body: seq<byte>, pos: nat, items: seq<Item>, last: Option<seq<byte>>,
                                            lossy: seq<byte> -> seq<byte>)
    requires AllCarried(items) && ItemsAt(body, pos, items) && KeepsUtf8(lossy)
    requires pos + SizeOf(items) < |body| && body[pos + SizeOf(items)] == 0x03
    ensures ScanRequest(body, pos, last, lossy) == Ok((Pairs(AttributesOf(items)), pos + SizeOf(items) + 1))
    decreases |items|
  {
    hide Utf8, AttributeAt, AttributeBytes, KeepsUtf8, ScanRequest, Pairs;
    if items == [] {
      assert AttributesOf(items) == [];
      EndOfRequest(body, pos, last, lossy);
    } else {
      var head, tail := items[0], items[1..];
      PairsOfHead(items);
      match head
      case Group(tag) =>
        ScanWrittenGroup(body, pos, tag, last, lossy);
        ScanWrittenItems(body, pos + 1, tail, last, lossy);
      case Attr(a) =>
        ScanWrittenAttribute(body, pos, a, last, lossy);
        ScanWrittenItems(body, pos + head.Size(), tail, Some(a.name), lossy);
    }
  }

  lemma EndOfRequest(body: seq<byte>, pos: nat, last: Option<seq<byte>>, lossy: seq<byte> -> seq<byte>)
    requires pos < |body| && body[pos] == 0x03
    ensures ScanRequest(body, pos, last, lossy) == Ok((Pairs([]), pos + 1))
  {
  }

  lemma ScanWrittenGroup(body: seq<byte>, pos: nat, tag: byte, last: Option<seq<byte>>, lossy: seq<byte> -> seq<byte>)
    requires Carried(Group(tag)) && pos < |body| && body[pos] == tag
    ensures ScanRequest(body, pos, last, lossy) == ScanRequest(body, pos + 1, last, lossy)
  {
  }

  lemma PairsOfHead(items: seq<Item>)
    requires items != []
    ensures items[0].Group? ==> Pairs(AttributesOf(items)) == Pairs(AttributesOf(items[1..]))
    ensures items[0].Attr? ==>
              Pairs(AttributesOf(items)) == [(items[0].attribute.name, items[0].attribute.value)] + Pairs(AttributesOf(items[1..]))
  {
    PairsAppend(items[0].Attributes(), AttributesOf(items[1..]));
    if items[0].Attr? {
      assert [items[0].attribute][1..] == [];
    } else {
      assert [] + AttributesOf(items[1..]) == AttributesOf(items[1..]);
    }
  }

  /** What the client writes, the fake printer reads: a built message, followed
      by any document, is accepted with its code, its request id, exactly its
      attributes, and the document byte for byte. */
  lemma WrittenMessageIsAccepted(code: nat, requestId: nat, items: seq<Item>, document: seq<byte>, lossy: seq<byte> -> seq<byte>)
    requires code < U16 && requestId < U32 && AllCarried(items) && KeepsUtf8(lossy)
    ensures Accepted(Message(code, requestId, items) + document, lossy)
         == Ok(Request(code, requestId, Pairs(AttributesOf(items)), document))
  {
    hide Utf8, AttributeAt, ItemsAt, FromBe32, WordAt, Message, Pairs, KeepsUtf8;
    var body := Message(code, requestId, items) + document;
    MessageParts(code, requestId, items, document);
    ScanWrittenItems(body, 8, items, None, lossy);
    MessageLength(code, requestId, items);
    assert body[9 + SizeOf(items)..] == document;
  }

  lemma MessageLength(code: nat, requestId: nat, items: seq<Item>)
    ensures |Message(code, requestId, items)| == 9 + SizeOf(items)
  {
    EncodedSize(items);
  }

  /** Print-Job: operation, request id, attributes and document arrive as they
      were sent. */
  lemma PrintJobArrives(printerUri: seq<byte>, format: seq<byte>, jobName: seq<byte>, requestId: nat, copies: nat,
                        document: seq<byte>, lossy: seq<byte> -> seq<byte>)
    requires |printerUri| < U16 && |format| < U16 && |jobName| < U16 && requestId < U32 && KeepsUtf8(lossy)
    ensures (var items := PrintJobItems(printerUri, format, jobName, copies);
             Accepted(Message(PRINT_JOB, requestId, items) + document, lossy)
             == Ok(Request(PRINT_JOB, requestId, Pairs(AttributesOf(items)), document)))
  {
    hide Utf8, Message, Accepted, Pairs, KeepsUtf8, AllCarried;
    PrintJobItemsAreCarried(printerUri, format, jobName, copies);
    WrittenMessageIsAccepted(PRINT_JOB, requestId, PrintJobItems(printerUri, format, jobName, copies), document, lossy);
  }

  /** Get-Job-Attributes: both parsers read back exactly what was written, and
      there is no document. */
  lemma GetJobAttributesArrives(printerUri: seq<byte>, jobId: i32, requestId: nat, lossy: seq<byte> -> seq<byte>)
    requires |printerUri| < U16 && requestId < U32 && KeepsUtf8(lossy)
    ensures (var items := GetJobAttributesItems(printerUri, jobId);
             var message := Message(GET_JOB_ATTRIBUTES, requestId, items);
             && Accepted(message, lossy) == Ok(Request(GET_JOB_ATTRIBUTES, requestId, Pairs(AttributesOf(items)), []))
             && Parsed(message) == Ok(Response(GET_JOB_ATTRIBUTES, requestId, AttributesOf(items))))
  {
    hide Utf8, Message, Accepted, Pairs, KeepsUtf8, AllCarried, Parsed;
    var items := GetJobAttributesItems(printerUri, jobId);
    GetJobAttributesItemsAreCarried(printerUri, jobId);
    WrittenMessageIsAccepted(GET_JOB_ATTRIBUTES, requestId, items, [], lossy);
    MessageRoundTrip(GET_JOB_ATTRIBUTES, requestId, items, []);
    assert Message(GET_JOB_ATTRIBUTES, requestId, items) + [] == Message(GET_JOB_ATTRIBUTES, requestId, items);
  }

  /** The value under a name, of the first pair of that name. */
  function ValueOf(pairs: seq<Pair>, name: seq<byte>): Option<seq<byte>> {
    if pairs == [] then None else if pairs[0].0 == name then Some(pairs[0].1) else ValueOf(pairs[1..], name)
  }

  lemma {:induction false} ValueOfPairs(attributes: seq<Attribute>, name: seq<byte>)
    ensures ValueOf(Pairs(attributes), name)
         == match FirstNamed(attributes, name) case None => None case Some(a) => Some(a.value)
  {
    if attributes != [] {
      ValueOfPairs(attributes[1..], name);
      assert Pairs(attributes)[1..] == Pairs(attributes[1..]);
    }
  }

  /** The printer reads Print-Job (operation 0x0002) as it was meant: under each
      name the value that was given for it, and the document. */
  lemma PrintJobIsUnderstood(printerUri: seq<byte>, format: seq<byte>, jobName: seq<byte>, requestId: nat, copies: nat,
                             document: seq<byte>, lossy: seq<byte> -> seq<byte>)
    requires |printerUri| < U16 && |format| < U16 && |jobName| < U16 && requestId < U32 && KeepsUtf8(lossy)
    ensures (var request := Accepted(Message(PRINT_JOB, requestId, PrintJobItems(printerUri, format, jobName, copies)) + document,
                                     lossy);
             && request.Ok? && request.value.operation == 0x0002 && request.value.requestId == requestId
             && ValueOf(request.value.attributes, Ascii("printer-uri")) == Some(printerUri)
             && ValueOf(request.value.attributes, Ascii("document-format")) == Some(format)
             && ValueOf(request.value.attributes, Ascii("job-name")) == Some(jobName)
             && (copies < U32 ==>
                   ValueOf(request.value.attributes, Ascii("copies")) == if copies > 1 then Some(Be32(copies)) else None)
             && request.value.document == document)
  {
    hide Utf8, Message, Accepted, Pairs, KeepsUtf8, Ascii, PrintJobItems, AttributesOf, Parsed, ValueOf, FirstNamed, Be32;
    PrintJobArrives(printerUri, format, jobName, requestId, copies, document, lossy);
    PrintJobSays(printerUri, format, jobName, requestId, copies, document);
    PrintJobRoundTrip(printerUri, format, jobName, requestId, copies, document);
    var attributes := AttributesOf(PrintJobItems(printerUri, format, jobName, copies));
    ValueOfPairs(attributes, Ascii("printer-uri"));
    ValueOfPairs(attributes, Ascii("document-format"));
    ValueOfPairs(attributes, Ascii("job-name"));
    ValueOfPairs(attributes, Ascii("copies"));
    if copies < U32 {
      CopiesFound(printerUri, format, jobName, copies);
    }
  }

  /** And Get-Job-Attributes (operation 0x0009): for this job of this printer. */
  lemma GetJobAttributesIsUnderstood(printerUri: seq<byte>, jobId: i32, requestId: nat, lossy: seq<byte> -> seq<byte>)
    requires |printerUri| < U16 && requestId < U32 && KeepsUtf8(lossy)
    ensures (var request := Accepted(Message(GET_JOB_ATTRIBUTES, requestId, GetJobAttributesItems(printerUri, jobId)), lossy);
             && request.Ok? && request.value.operation == 0x0009 && request.value.requestId == requestId
             && ValueOf(request.value.attributes, Ascii("printer-uri")) == Some(printerUri)
             && ValueOf(request.value.attributes, Ascii("job-id")) == Some(Be32(ToU32(jobId)))
             && request.value.document == [])
  {
    hide Utf8, Message, Accepted, Pairs, KeepsUtf8, Ascii, GetJobAttributesItems, AttributesOf, Parsed, ValueOf, FirstNamed, Be32;
    GetJobAttributesArrives(printerUri, jobId, requestId, lossy);
    GetJobAttributesSays(printerUri, jobId, requestId);
    var attributes := AttributesOf(GetJobAttributesItems(printerUri, jobId));
    ValueOfPairs(attributes, Ascii("printer-uri"));
    ValueOfPairs(attributes, Ascii("job-id"));
  }

  // ---- Requests that are cut short --------------------------------------------

  lemma CutFrame(body: seq<byte>, pos: nat, a: Attribute, k: nat)
    requires Carried(Attr(a)) && AttributeAt(body, pos, a) && 0 < k < Attr(a).Size()
    ensures Frame(body[..pos + k], pos).None? && body[..pos + k][pos] == a.tag > 0x0F
  {
    hide Utf8;
  }

  lemma {:induction false} CutRequestScan(body: seq<byte>, pos: nat, items: seq<Item>, k: nat, last: Option<seq<byte>>,
                                          lossy: seq<byte> -> seq<byte>)
    requires AllCarried(items) && ItemsAt(body, pos, items) && KeepsUtf8(lossy)
    requires k <= SizeOf(items) && pos + k <= |body|
    ensures ScanRequest(body[..pos + k], pos, last, lossy) == Err(if AtBoundary(items, k) then NoEnd else Truncated)
    decreases |items|
  {
    hide Utf8, AttributeAt, AttributeBytes, KeepsUtf8, Frame, ScanRequest, PrependPairs;
    var cut := body[..pos + k];
    if k == 0 {
      assert Boundary(items, 0, 0) by { assert items[..0] == []; }
      CutHere(cut, pos, last, lossy);
    } else {
      var head, tail := items[0], items[1..];
      BoundaryOfTail(items, k);
      if k < head.Size() {
        CutFrame(body, pos, head.attribute, k);
        CutInAttribute(cut, pos, head.attribute, last, lossy);
      } else {
        ItemBeforeCut(body, pos, pos + k, head);
        match head
        case Group(tag) =>
          CutRequestScan(body, pos + 1, tail, k - 1, last, lossy);
          ScanWrittenGroup(cut, pos, tag, last, lossy);
        case Attr(a) =>
          CutRequestScan(body, pos + head.Size(), tail, k - head.Size(), Some(a.name), lossy);
          ScanWrittenAttribute(cut, pos, a, last, lossy);
          PrependError([(a.name, a.value)], ScanRequest(cut, pos + head.Size(), Some(a.name), lossy));
      }
    }
  }

  lemma CutHere(cut: seq<byte>, pos: nat, last: Option<seq<byte>>, lossy: seq<byte> -> seq<byte>)
    requires pos == |cut|
    ensures ScanRequest(cut, pos, last, lossy) == Err(NoEnd)
  {
  }

  lemma CutInAttribute(cut: seq<byte>, pos: nat, a: Attribute, last: Option<seq<byte>>, lossy: seq<byte> -> seq<byte>)
    requires pos < |cut| && cut[pos] == a.tag > 0x0F && Frame(cut, pos).None?
    ensures ScanRequest(cut, pos, last, lossy) == Err(Truncated)
  {
  }

  lemma PrependError(front: seq<Pair>, r: Result<(seq<Pair>, nat), RequestError>)
    ensures r.Err? ==> PrependPairs(front, r) == r
  {
  }

  lemma BoundaryOfTail(items: seq<Item>, k: nat)
    requires items != [] && k > 0
    ensures AtBoundary(items, k) <==> k >= items[0].Size() && AtBoundary(items[1..], k - items[0].Size())
  {
    forall j: nat | Boundary(items, k, j) ensures j > 0 && k >= items[0].Size() && Boundary(items[1..], k - items[0].Size(), j - 1) {
      assert items[..0] == [];
      BoundaryStep(items, k, j);
    }
    if k >= items[0].Size() && AtBoundary(items[1..], k - items[0].Size()) {
      var j: nat :| Boundary(items[1..], k - items[0].Size(), j);
      BoundaryStep(items, k, j + 1);
    }
  }

  /** A request cut short anywhere is refused, and the error says where: before
      its ninth byte, between two attributes, or inside one. */
  lemma CutRequest(code: nat, requestId: nat, items: seq<Item>, k: nat, lossy: seq<byte> -> seq<byte>)
    requires code < U16 && requestId < U32 && AllCarried(items) && KeepsUtf8(lossy)
    requires k <= 8 + SizeOf(items)
    ensures |Message(code, requestId, items)| == 9 + SizeOf(items)
    ensures Accepted(Message(code, requestId, items)[..k], lossy)
         == Err(if k < 9 then RequestTooShort else if AtBoundary(items, k - 8) then NoEnd else Truncated)
  {
    hide Utf8, AttributeAt, AttributeBytes, FromBe32, ItemsAt, Message, KeepsUtf8, ScanRequest, AtBoundary;
    var data := Message(code, requestId, items);
    assert data + [] == data;
    MessageParts(code, requestId, items, []);
    if k >= 9 {
      CutRequestScan(data, 8, items, k - 8, None, lossy);
    }
  }

  /** The converse fails: the client's parser also takes a message without an
      end tag, and one that starts with a nameless value. */
  lemma ClientParserTakesMore(lossy: seq<byte> -> seq<byte>)
    ensures exists body :: Parsed(body).Ok? && Accepted(body, lossy) == Err(NoEnd)
    ensures exists body :: Parsed(body).Ok? && Accepted(body, lossy) == Err(NamelessFirst)
  {
    var open: seq<byte> := [1, 1, 0, 0, 0, 0, 0, 1, 1];
    assert ScanFrom(open, 9, []) == Ok([]);
    assert ScanFrom(open, 8, []) == Ok([]);
    assert ScanRequest(open, 9, None, lossy) == Err(NoEnd);
    assert Parsed(open).Ok? && Accepted(open, lossy) == Err(NoEnd);
    var nameless: seq<byte> := [1, 1, 0, 0, 0, 0, 0, 1, 0x21, 0, 0, 0, 0, 3];
    assert nameless[11..11] == [];
    assert TakeAt(nameless, 8, []).Ok? && TakeAt(nameless, 8, []).value.1 == 13;
    assert ScanFrom(nameless, 13, []) == Ok([]);
    assert Parsed(nameless).Ok? && Accepted(nameless, lossy) == Err(NamelessFirst);
  }

  // ---- The fake printer's answer ---------------------------------------------

  const ENUM_TAG: byte := 0x23
  const KEYWORD_TAG: byte := 0x44

  function AnswerItems(jobId: i32, jobState: i32): seq<Item> {
    [Group(OPERATION_ATTRIBUTES_TAG),
     TextItem(CHARSET_TAG, "attributes-charset", Ascii("utf-8")),
     TextItem(NATURAL_LANGUAGE_TAG, "attributes-natural-language", Ascii("en-us")),
     Group(JOB_ATTRIBUTES_TAG),
     TextItem(INTEGER_TAG, "job-id", Be32(ToU32(jobId))),
     TextItem(ENUM_TAG, "job-state", Be32(ToU32(jobState))),
     TextItem(KEYWORD_TAG, "job-state-reasons", Ascii("none"))]
  }

  method IppResponse(requestId: nat, jobId: i32, jobState: i32) returns (buf: seq<byte>)
    ensures buf == Message(0, requestId, AnswerItems(jobId, jobState))
  {
    hide ToU32, AttributeBytes;
    ghost var header := Header(0, requestId);
    buf := [1, 1, 0, 0];
    buf := buf + Be32(requestId);
    assert buf == header + Encode([]);
    ghost var items: seq<Item> := [];
    buf := WriteGroup(buf, OPERATION_ATTRIBUTES_TAG, header, items);
    items := items + [Group(OPERATION_ATTRIBUTES_TAG)];
    buf := WriteAttribute(buf, CHARSET_TAG, "attributes-charset", Ascii("utf-8"), header, items);
    items := items + [TextItem(CHARSET_TAG, "attributes-charset", Ascii("utf-8"))];
    buf := WriteAttribute(buf, NATURAL_LANGUAGE_TAG, "attributes-natural-language", Ascii("en-us"), header, items);
    items := items + [TextItem(NATURAL_LANGUAGE_TAG, "attributes-natural-language", Ascii("en-us"))];
    buf := WriteGroup(buf, JOB_ATTRIBUTES_TAG, header, items);
    items := items + [Group(JOB_ATTRIBUTES_TAG)];
    buf := WriteAttribute(buf, INTEGER_TAG, "job-id", Be32(ToU32(jobId)), header, items);
    items := items + [TextItem(INTEGER_TAG, "job-id", Be32(ToU32(jobId)))];
    buf := WriteAttribute(buf, ENUM_TAG, "job-state", Be32(ToU32(jobState)), header, items);
    items := items + [TextItem(ENUM_TAG, "job-state", Be32(ToU32(jobState)))];
    buf := WriteAttribute(buf, KEYWORD_TAG, "job-state-reasons", Ascii("none"), header, items);
    items := items + [TextItem(KEYWORD_TAG, "job-state-reasons", Ascii("none"))];
    assert items == AnswerItems(jobId, jobState);
    buf := buf + [END_OF_ATTRIBUTES_TAG];
  }

  /** The client reads the fake printer's answer back: a success with exactly
      the job id and job state that were written, for every 32-bit value. */
  lemma AnswerReadBack(requestId: nat, jobId: i32, jobState: i32)
    requires requestId < U32
    ensures var r := Parsed(Message(0, requestId, AnswerItems(jobId, jobState)));
      && r.Ok? && r.value.IsSuccess() && r.value.requestId == requestId
      && r.value.IntegerOr0(Ascii("job-id")) == jobId
      && r.value.IntegerOr0(Ascii("job-state")) == jobState
  {
    hide Utf8, AttributeBytes;
    var items := AnswerItems(jobId, jobState);
    AnswerIsCarried(jobId, jobState);
    var message := Message(0, requestId, items);
    MessageRoundTrip(0, requestId, items, []);
    assert message + [] == message;
    AnswerIntegers(jobId, jobState);
    IntegerReadBack(Ascii("job-id"), INTEGER_TAG, jobId);
    IntegerReadBack(Ascii("job-state"), ENUM_TAG, jobState);
  }

  lemma IntegerReadBack(name: seq<byte>, tag: byte, i: i32)
    ensures Attribute(name, tag, Be32(ToU32(i))).AsI32() == Some(i)
  {
  }

  lemma AnswerIntegers(jobId: i32, jobState: i32)
    ensures var attributes := AttributesOf(AnswerItems(jobId, jobState));
      && FirstNamed(attributes, Ascii("job-id")) == Some(Attribute(Ascii("job-id"), INTEGER_TAG, Be32(ToU32(jobId))))
      && FirstNamed(attributes, Ascii("job-state")) == Some(Attribute(Ascii("job-state"), ENUM_TAG, Be32(ToU32(jobState))))
  {
    hide Be32, ToU32, AttributeBytes;
    var items := AnswerItems(jobId, jobState);
    var a, b := items[1].attribute, items[2].attribute;
    var c, d, e := items[4].attribute, items[5].attribute, items[6].attribute;
    AttributesOfSeven(items, a, b, c, d, e);
    assert |a.name| == 18 && |b.name| == 27 && |c.name| == 6 && |d.name| == 9;
    NoneNamed([a, b], c.name);
    NoneNamed([a, b], d.name);
    FirstNamedAppend([a, b], [c, d, e], c.name);
    FirstNamedAppend([a, b], [c, d, e], d.name);
    assert [a, b] + [c, d, e] == [a, b, c, d, e];
    assert [a, b][1..] == [b] && [c, d, e][1..] == [d, e];
  }

  lemma AttributesOfSeven(items: seq<Item>, a: Attribute, b: Attribute, c: Attribute, d: Attribute, e: Attribute)
    requires |items| == 7 && items[0].Group? && items[3].Group?
    requires items[1] == Attr(a) && items[2] == Attr(b) && items[4] == Attr(c) && items[5] == Attr(d) && items[6] == Attr(e)
    ensures AttributesOf(items) == [a, b, c, d, e]
  {
    hide AttributeBytes;
    assert AttributesOf(items[7..]) == [];
    assert items[6..][1..] == items[7..] && AttributesOf(items[6..]) == [e];
    assert items[5..][1..] == items[6..] && AttributesOf(items[5..]) == [d, e];
    assert items[4..][1..] == items[5..] && AttributesOf(items[4..]) == [c, d, e];
    assert items[3..][1..] == items[4..] && AttributesOf(items[3..]) == [c, d, e];
    assert items[2..][1..] == items[3..] && AttributesOf(items[2..]) == [b, c, d, e];
    assert items[1..][1..] == items[2..] && AttributesOf(items[1..]) == [a, b, c, d, e];
  }

  /** The whole answer: the operation attributes, then the job's id, state and
      reasons, each with its tag. */
  lemma AnswerSays(requestId: nat, jobId: i32, jobState: i32)
    requires requestId < U32
    ensures Parsed(Message(0, requestId, AnswerItems(jobId, jobState)))
         == Ok(Response(0, requestId,
                        [Attribute(Ascii("attributes-charset"), 0x47, Ascii("utf-8")),
                         Attribute(Ascii("attributes-natural-language"), 0x48, Ascii("en-us")),
                         Attribute(Ascii("job-id"), 0x21, Be32(ToU32(jobId))),
                         Attribute(Ascii("job-state"), 0x23, Be32(ToU32(jobState))),
                         Attribute(Ascii("job-state-reasons"), 0x44, Ascii("none"))]))
    ensures Message(0, requestId, AnswerItems(jobId, jobState))[..9] == [1, 1, 0, 0] + Be32(requestId) + [0x01]
  {
    hide Utf8, AttributeBytes, Ascii, Be32, Parsed;
    var items := AnswerItems(jobId, jobState);
    AnswerIsCarried(jobId, jobState);
    MessageRoundTrip(0, requestId, items, []);
    assert Message(0, requestId, items) + [] == Message(0, requestId, items);
    AttributesOfSeven(items, items[1].attribute, items[2].attribute, items[4].attribute, items[5].attribute,
                      items[6].attribute);
    assert Encode(items) == [0x01] + Encode(items[1..]);
  }

  lemma AnswerIsCarried(jobId: i32, jobState: i32)
    ensures AllCarried(AnswerItems(jobId, jobState))
  {
    hide Utf8, AttributeBytes;
    NamesAreCarried(CHARSET_TAG, "attributes-charset", Ascii("utf-8"));
    NamesAreCarried(NATURAL_LANGUAGE_TAG, "attributes-natural-language", Ascii("en-us"));
    NamesAreCarried(INTEGER_TAG, "job-id", Be32(ToU32(jobId)));
    NamesAreCarried(ENUM_TAG, "job-state", Be32(ToU32(jobState)));
    NamesAreCarried(KEYWORD_TAG, "job-state-reasons", Ascii("none"));
  }
}
