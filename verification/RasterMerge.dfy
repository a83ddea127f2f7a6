/** Merging the raster documents of several Ghostscript runs into one, so that
    the job stays one print request. */
module RasterMerge {
  import opened Common
  import Urf

  datatype RasterKind = Urf | Pwg {
    function Magic(): seq<byte> {
      if Urf? then Urf.MAGIC else PWG_SYNC
    }

    /** The magic, and for URF the page count. */
    function HeaderLen(): (n: nat)
      ensures |Magic()| <= n
    {
      if Urf? then |Magic()| + 4 else |Magic()|
    }
  }

  const PWG_SYNC: seq<byte> := [0x52, 0x61, 0x53, 0x32]

  datatype MergeError = NoDocument | TooShort(document: nat) | WrongMagic(document: nat) | CountOverflow

  // ---- Headers --------------------------------------------------------------------

  function HeaderFault(kind: RasterKind, doc: seq<byte>, i: nat): Option<MergeError> {
    if |doc| < kind.HeaderLen() then Some(TooShort(i))
    else if doc[..|kind.Magic()|] != kind.Magic() then Some(WrongMagic(i))
    else None
  }

  predicate GoodHeader(kind: RasterKind, doc: seq<byte>) {
    |doc| >= kind.HeaderLen() && doc[..|kind.Magic()|] == kind.Magic()
  }

  predicate GoodHeaders(kind: RasterKind, docs: seq<seq<byte>>) {
    forall i :: 0 <= i < |docs| ==> GoodHeader(kind, docs[i])
  }

  function CountOf(doc: seq<byte>): nat
    requires |doc| >= 12
  {
    FromBe32(doc[8..12])
  }

  function Counts(docs: seq<seq<byte>>): (counts: seq<nat>)
    requires GoodHeaders(Urf, docs)
    ensures |counts| == |docs|
    ensures forall i :: 0 <= i < |docs| ==> counts[i] == CountOf(docs[i])
    ensures forall i :: 0 <= i < |docs| ==> counts[i] < U32
  {
    if docs == [] then [] else
      assert GoodHeader(Urf, docs[|docs| - 1]);
      Counts(docs[..|docs| - 1]) + [CountOf(docs[|docs| - 1])]
  }

  /** A sum that stops as soon as it leaves 32 bits. */
  function CheckedSum(counts: seq<nat>, sum: nat): Option<nat> {
    if counts == [] then Some(sum)
    else if sum + counts[0] >= U32 then None
    else CheckedSum(counts[1..], sum + counts[0])
  }

  function MergedPageCount(counts: seq<nat>): (count: Option<nat>)
    ensures 0 in counts ==> count == Some(0)
  {
    if 0 in counts then Some(0) else CheckedSum(counts, 0)
  }

  function Sum(ns: seq<nat>): nat {
    if ns == [] then 0 else ns[0] + Sum(ns[1..])
  }

  lemma {:induction false} CheckedSumIsSum(counts: seq<nat>, sum: nat)
    requires sum < U32
    ensures CheckedSum(counts, sum) == if sum + Sum(counts) < U32 then Some(sum + Sum(counts)) else None
    decreases |counts|
  {
    if counts != [] && sum + counts[0] < U32 {
      CheckedSumIsSum(counts[1..], sum + counts[0]);
    }
  }

  lemma SumIsPositive(ns: seq<nat>)
    requires |ns| > 0 && 0 !in ns
    ensures Sum(ns) > 0
  {
  }

  /** The merged count is 0 exactly when some input did not count its pages;
      otherwise it is the sum, and it is missing exactly when the sum leaves
      32 bits. */
  lemma MergedCountIs(counts: seq<nat>)
    requires |counts| > 0
    ensures MergedPageCount(counts) == Some(0) <==> 0 in counts
    ensures 0 !in counts && Sum(counts) < U32 ==> MergedPageCount(counts) == Some(Sum(counts))
    ensures MergedPageCount(counts).None? <==> 0 !in counts && Sum(counts) >= U32
  {
    CheckedSumIsSum(counts, 0);
    if 0 !in counts {
      SumIsPositive(counts);
    }
  }

  // ---- Merging ----------------------------------------------------------------------

  function Body(kind: RasterKind, doc: seq<byte>): seq<byte>
    requires |doc| >= kind.HeaderLen()
  {
    doc[kind.HeaderLen()..]
  }

  function Bodies(kind: RasterKind, docs: seq<seq<byte>>): seq<byte>
    requires GoodHeaders(kind, docs)
  {
    if docs == [] then [] else
      assert GoodHeader(kind, docs[0]);
      Body(kind, docs[0]) + Bodies(kind, docs[1..])
  }

  predicate Mergeable(kind: RasterKind, docs: seq<seq<byte>>) {
    && docs != []
    && GoodHeaders(kind, docs)
    && (kind.Urf? ==> MergedPageCount(Counts(docs)).Some?)
  }

  function MergedHeader(kind: RasterKind, docs: seq<seq<byte>>): seq<byte>
    requires Mergeable(kind, docs)
  {
    kind.Magic() + if kind.Urf? then Be32(MergedPageCount(Counts(docs)).value) else []
  }

  function Merged(kind: RasterKind, docs: seq<seq<byte>>): seq<byte>
    requires Mergeable(kind, docs)
  {
    MergedHeader(kind, docs) + Bodies(kind, docs)
  }

  /** Where merged documents are written. */
  class Output {
    var bytes: seq<byte>

    constructor ()
      ensures bytes == []
    {
      bytes := [];
    }

    method WriteAll(bs: seq<byte>)
      modifies this
      ensures bytes == old(bytes) + bs
    {
      bytes := bytes + bs;
    }
  }

  /** The first document whose header is refused. */
  predicate FirstFault(kind: RasterKind, docs: seq<seq<byte>>, e: MergeError) {
    exists i :: 0 <= i < |docs| && GoodHeaders(kind, docs[..i]) && HeaderFault(kind, docs[i], i) == Some(e)
  }

  /** Reads one header from every input: the URF page counts, or the first
      fault. `inputs[i]` is what reader `i` still has to give. */
  method ReadHeaders(kind: RasterKind, inputs: array<seq<byte>>) returns (r: Result<seq<nat>, MergeError>)
    modifies inputs
    ensures r.Ok? <==> GoodHeaders(kind, old(inputs[..]))
    ensures r.Ok? && kind.Urf? ==> r.value == Counts(old(inputs[..]))
    ensures r.Ok? ==> forall j :: 0 <= j < inputs.Length ==> inputs[j] == Body(kind, old(inputs[j]))
    ensures r.Err? ==> (r.error.TooShort? || r.error.WrongMagic?) && FirstFault(kind, old(inputs[..]), r.error)
  {
    hide FromBe32;
    ghost var docs := inputs[..];
    var magic := kind.Magic();
    var counts: seq<nat> := [];
    for i := 0 to inputs.Length
      invariant GoodHeaders(kind, docs[..i])
      invariant forall j :: 0 <= j < i ==> inputs[j] == Body(kind, docs[j])
      invariant forall j :: i <= j < inputs.Length ==> inputs[j] == docs[j]
      invariant kind.Urf? ==> counts == Counts(docs[..i])
    {
      HeadersStep(kind, docs, i);
      if |inputs[i]| < kind.HeaderLen() {
        return Err(TooShort(i));
      }
      var header := inputs[i][..kind.HeaderLen()];
      inputs[i] := inputs[i][kind.HeaderLen()..];
      assert header[..|magic|] == docs[i][..|magic|];
      if header[..|magic|] != magic {
        return Err(WrongMagic(i));
      }
      if kind.Urf? {
        assert header[|magic|..] == docs[i][8..12];
        counts := counts + [FromBe32(header[|magic|..])];
      }
    }
    assert docs[..|docs|] == docs;
    return Ok(counts);
  }

  lemma HeadersStep(kind: RasterKind, docs: seq<seq<byte>>, i: nat)
    requires i < |docs| && GoodHeaders(kind, docs[..i])
    ensures HeaderFault(kind, docs[i], i).Some? ==> FirstFault(kind, docs, HeaderFault(kind, docs[i], i).value)
    ensures HeaderFault(kind, docs[i], i).Some? ==> !GoodHeaders(kind, docs)
    ensures GoodHeader(kind, docs[i]) ==> GoodHeaders(kind, docs[..i + 1])
    ensures GoodHeader(kind, docs[i]) && kind.Urf? ==> Counts(docs[..i + 1]) == Counts(docs[..i]) + [CountOf(docs[i])]
  {
    hide FromBe32;
    assert docs[..i + 1][..i] == docs[..i];
    assert HeaderFault(kind, docs[i], i).Some? ==> !GoodHeader(kind, docs[i]);
  }

  /** Reads every header, then writes one header and copies what is left of
      every input, in order. */
  method Merge(kind: RasterKind, inputs: array<seq<byte>>, out: Output) returns (r: Result<nat, MergeError>)
    modifies inputs, out
    ensures r.Ok? <==> Mergeable(kind, old(inputs[..]))
    ensures r.Ok? ==> out.bytes == old(out.bytes) + Merged(kind, old(inputs[..])) && r.value == |Merged(kind, old(inputs[..]))|
    ensures r.Ok? ==> forall i :: 0 <= i < inputs.Length ==> inputs[i] == []
    ensures r == Err(NoDocument) <==> inputs.Length == 0
    ensures r == Err(CountOverflow) ==> kind.Urf? && GoodHeaders(kind, old(inputs[..]))
    ensures r.Err? ==> out.bytes == old(out.bytes) + if r.error.CountOverflow? then kind.Magic() else []
    ensures r.Err? && !r.error.NoDocument? && !r.error.CountOverflow? ==> FirstFault(kind, old(inputs[..]), r.error)
  {
    hide Bodies, MergedPageCount, Be32, FirstFault, Counts;
    ghost var docs := inputs[..];
    if inputs.Length == 0 {
      return Err(NoDocument);
    }
    var headers := ReadHeaders(kind, inputs);
    if headers.Err? {
      return Err(headers.error);
    }
    out.WriteAll(kind.Magic());
    var written := |kind.Magic()|;
    if kind.Urf? {
      var count := MergedPageCount(headers.value);
      if count.None? {
        return Err(CountOverflow);
      }
      out.WriteAll(Be32(count.value));
      written := written + 4;
    }
    assert out.bytes == old(out.bytes) + MergedHeader(kind, docs);
    var copied := CopyBodies(kind, docs, inputs, out);
    Associative(old(out.bytes), MergedHeader(kind, docs), Bodies(kind, docs));
    return Ok(written + copied);
  }

  /** Copies what is left of every input, in order. */
  method CopyBodies(kind: RasterKind, ghost docs: seq<seq<byte>>, inputs: array<seq<byte>>, out: Output) returns (copied: nat)
    requires GoodHeaders(kind, docs) && inputs.Length == |docs|
    requires forall j :: 0 <= j < inputs.Length ==> inputs[j] == Body(kind, docs[j])
    modifies inputs, out
    ensures out.bytes == old(out.bytes) + Bodies(kind, docs) && copied == |Bodies(kind, docs)|
    ensures forall j :: 0 <= j < inputs.Length ==> inputs[j] == []
  {
    hide Bodies;
    ghost var merged := old(out.bytes) + Bodies(kind, docs);
    copied := 0;
    assert docs[0..] == docs;
    for i := 0 to inputs.Length
      invariant forall j :: 0 <= j < i ==> inputs[j] == []
      invariant forall j :: i <= j < inputs.Length ==> inputs[j] == Body(kind, docs[j])
      invariant out.bytes + Bodies(kind, docs[i..]) == merged
      invariant |out.bytes| == |old(out.bytes)| + copied
    {
      BodiesStep(kind, docs, i);
      Associative(out.bytes, Body(kind, docs[i]), Bodies(kind, docs[i + 1..]));
      out.WriteAll(inputs[i]);
      copied := copied + |inputs[i]|;
      inputs[i] := [];
    }
    BodiesEnd(kind, docs);
  }

  lemma BodiesStep(kind: RasterKind, docs: seq<seq<byte>>, i: nat)
    requires GoodHeaders(kind, docs) && i < |docs|
    ensures GoodHeader(kind, docs[i])
    ensures Bodies(kind, docs[i..]) == Body(kind, docs[i]) + Bodies(kind, docs[i + 1..])
  {
    assert docs[i..][1..] == docs[i + 1..];
  }

  lemma BodiesEnd(kind: RasterKind, docs: seq<seq<byte>>)
    requires GoodHeaders(kind, docs)
    ensures Bodies(kind, docs[|docs|..]) == []
  {
  }

  /** The two formats by their first bytes: `UNIRAST` and a zero, and `RaS2`. */
  lemma Magics()
    ensures RasterKind.Urf.Magic() == Ascii("UNIRAST") + [0] && RasterKind.Urf.HeaderLen() == 12
    ensures RasterKind.Pwg.Magic() == Ascii("RaS2") && RasterKind.Pwg.HeaderLen() == 4
  {
  }

  /** The refused document is the first whose header is not right: it is too
      short for one, or does not begin with the magic. */
  lemma FaultSays(kind: RasterKind, docs: seq<seq<byte>>, e: MergeError)
    requires FirstFault(kind, docs, e)
    ensures e.TooShort? || e.WrongMagic?
    ensures e.document < |docs| && GoodHeaders(kind, docs[..e.document]) && !GoodHeader(kind, docs[e.document])
    ensures e.TooShort? <==> |docs[e.document]| < if kind.Urf? then 12 else 4
  {
    hide GoodHeaders;
    var i :| 0 <= i < |docs| && GoodHeaders(kind, docs[..i]) && HeaderFault(kind, docs[i], i) == Some(e);
  }

  // ---- What a merged document decodes to ------------------------------------------------

  /** The expanded pages of all the documents, one after the other. */
  function AllRasters(docs: seq<seq<byte>>): seq<Urf.Raster>
    requires AllDecode(docs)
  {
    if docs == [] then [] else Urf.Decoded(docs[0]).value.1 + AllRasters(docs[1..])
  }

  predicate AllDecode(docs: seq<seq<byte>>) {
    forall i :: 0 <= i < |docs| ==> Urf.Decoded(docs[i]).Some?
  }

  /** Where the bodies of decodable documents fill the rest of a document, its
      pages from there on are theirs. */
  lemma {:induction false} BodiesDecode(docs: seq<seq<byte>>, merged: seq<byte>, pos: nat)
    requires AllDecode(docs) && GoodHeaders(Urf, docs)
    requires 12 <= pos <= |merged| && merged[pos..] == Bodies(Urf, docs)
    ensures Urf.RastersFrom(merged, pos) == Some(AllRasters(docs))
    decreases |docs|
  {
    hide Urf.RasterAt;
    if docs == [] {
      assert pos == |merged|;
    } else {
      var doc, rest := docs[0], docs[1..];
      var shift: nat := pos - 12;
      assert Urf.Decoded(doc).Some? && GoodHeader(Urf, doc);
      BodyAt(doc, Bodies(Urf, rest), merged, pos);
      Urf.MovedPages(doc, merged, shift, 12);
      BodiesDecode(rest, merged, |doc| + shift);
    }
  }

  lemma BodyAt(doc: seq<byte>, rest: seq<byte>, merged: seq<byte>, pos: nat)
    requires |doc| >= 12 && 12 <= pos <= |merged| && merged[pos..] == doc[12..] + rest
    ensures Urf.Moved(doc, 12, |doc|, merged, pos - 12)
    ensures merged[|doc| + pos - 12..] == rest
  {
    assert |merged| - pos == |doc| - 12 + |rest|;
    forall j | 12 <= j < |doc| ensures doc[j] == merged[j + (pos - 12)] {
      assert doc[j] == doc[12..][j - 12] == merged[pos..][j - 12];
    }
    DropDrop(merged, pos, |doc| - 12);
  }

  lemma DecodedHeaders(docs: seq<seq<byte>>)
    requires AllDecode(docs)
    ensures GoodHeaders(Urf, docs)
    ensures forall i :: 0 <= i < |docs| ==> Counts(docs)[i] == Urf.Decoded(docs[i]).value.0
  {
    hide Urf.RastersFrom, FromBe32;
    forall i | 0 <= i < |docs| ensures GoodHeader(Urf, docs[i]) {
      assert Urf.Decoded(docs[i]).Some?;
    }
    forall i | 0 <= i < |docs| ensures Counts(docs)[i] == Urf.Decoded(docs[i]).value.0 {
      assert Urf.Decoded(docs[i]).Some?;
    }
  }

  lemma DecodedMerged(docs: seq<seq<byte>>)
    requires Mergeable(Urf, docs) && MergedPageCount(Counts(docs)).value < U32
    ensures (var merged := Merged(Urf, docs);
             && |merged| >= 12 && merged[..8] == Urf.MAGIC && merged[12..] == Bodies(Urf, docs)
             && Urf.Be(merged, 8) == MergedPageCount(Counts(docs)).value)
  {
    hide Bodies, MergedPageCount, FromBe32, Be32, Counts;
    var count := Be32(MergedPageCount(Counts(docs)).value);
    var merged := Merged(Urf, docs);
    assert merged[..8] == Urf.MAGIC;
    assert merged[8..12] == count;
  }

  /** The merged URF document decodes to the expanded pages of its inputs, in
      order, under the sum of their counts, or 0 when some input is not
      counted; it exists unless that sum leaves 32 bits. */
  lemma MergedDecodes(docs: seq<seq<byte>>)
    requires docs != [] && AllDecode(docs)
    ensures GoodHeaders(Urf, docs)
    ensures forall i :: 0 <= i < |docs| ==> Counts(docs)[i] == Urf.Decoded(docs[i]).value.0
    ensures MergedPageCount(Counts(docs)).Some? ==>
              Urf.Decoded(Merged(Urf, docs)) == Some((MergedPageCount(Counts(docs)).value, AllRasters(docs)))
  {
    hide Bodies, MergedPageCount, Urf.RastersFrom, Urf.Be;
    DecodedHeaders(docs);
    if MergedPageCount(Counts(docs)).Some? {
      MergedCountFits(Counts(docs));
      DecodedMerged(docs);
      BodiesDecode(docs, Merged(Urf, docs), 12);
    }
  }

  lemma MergedCountFits(counts: seq<nat>)
    requires MergedPageCount(counts).Some?
    ensures MergedPageCount(counts).value < U32
  {
    CheckedSumIsSum(counts, 0);
  }

  // ---- Merging twice ------------------------------------------------------------------------

  lemma SameBe32(a: seq<byte>, b: seq<byte>)
    requires |a| == |b| == 4 && FromBe32(a) == FromBe32(b)
    ensures a == b
  {
    FourBytes(a);
    FourBytes(b);
    SameDigits(a[0] as int, a[1] as int, a[2] as int, a[3] as int, b[0] as int, b[1] as int, b[2] as int, b[3] as int);
    hide FromBe32;
    assert a == [a[0], a[1], a[2], a[3]] && b == [b[0], b[1], b[2], b[3]];
  }

  lemma SameDigits(a: int, b: int, c: int, d: int, w: int, x: int, y: int, z: int)
    requires 0 <= b < 256 && 0 <= c < 256 && 0 <= d < 256
    requires 0 <= x < 256 && 0 <= y < 256 && 0 <= z < 256
    requires a * 0x100_0000 + b * 0x1_0000 + c * 256 + d == w * 0x100_0000 + x * 0x1_0000 + y * 256 + z
    ensures a == w && b == x && c == y && d == z
  {
    assert d == z by {
      assert (a * 0x1_0000 + b * 256 + c) * 256 + d == (w * 0x1_0000 + x * 256 + y) * 256 + z;
    }
    assert c == y by {
      assert (a * 256 + b) * 256 + c == (w * 256 + x) * 256 + y;
    }
  }

  lemma OneCount(doc: seq<byte>)
    requires GoodHeader(Urf, doc)
    ensures MergedPageCount(Counts([doc])) == Some(CountOf(doc))
    ensures Be32(CountOf(doc)) == doc[8..12]
  {
    hide FromBe32, Be32;
    var count := CountOf(doc);
    assert Counts([doc]) == [count];
    MergedCountIs([count]);
    assert Sum([count]) == count by {
      assert [count][1..] == [];
    }
    SameBe32(Be32(count), doc[8..12]);
  }

  lemma OneBody(kind: RasterKind, doc: seq<byte>)
    requires GoodHeader(kind, doc)
    ensures Bodies(kind, [doc]) == Body(kind, doc)
  {
    assert [doc][1..] == [];
    assert Body(kind, doc) + [] == Body(kind, doc);
  }

  /** A single document is copied unchanged. */
  lemma SingleIsCopied(kind: RasterKind, doc: seq<byte>)
    requires GoodHeader(kind, doc)
    ensures Mergeable(kind, [doc]) && Merged(kind, [doc]) == doc
  {
    hide Bodies, MergedPageCount, FromBe32, Be32;
    OneBody(kind, doc);
    if kind.Urf? {
      OneCount(doc);
      assert doc == doc[..8] + doc[8..12] + doc[12..];
    } else {
      assert doc == doc[..4] + doc[4..];
    }
  }
}
