/** Rendering a document with Ghostscript: one call, or one call per run whose
    rasters are merged into one document. Ghostscript itself is a function
    from the arguments of a call to what the call did. */
module Ghostscript {
  import opened Common
  import Urf
  import opened PrintEvents
  import opened PdfPages
  import PdfInfo
  import Text
  import opened GsPlan
  import opened RasterMerge

  /** Devices whose rasters merge, devices that write another single file, and
      devices that write one image file per page. */
  datatype Device = RasterDevice(kind: RasterKind) | OneFile | OneFilePerPage

  /** What one Ghostscript process did; `images` are the numbered page files
      that exist afterwards. */
  datatype GsRun =
    | Exited(success: bool, pageLines: nat, file: seq<byte>, images: map<nat, seq<byte>>)
    | Killed
    | NotRun

  /** What `gs -dPDFINFO` did. */
  datatype GsInfo =
    | InfoExited(success: bool, printed: string)
    | InfoKilled
    | InfoNotRun(cancelled: bool)

  predicate Succeeds(gs: seq<Arg> -> GsRun, args: seq<Arg>) {
    gs(args).Exited? && gs(args).success
  }

  predicate AllSucceed(gs: seq<Arg> -> GsRun, runs: seq<RenderRun>) {
    forall k :: 0 <= k < |runs| ==> Succeeds(gs, RunArgs(runs[k], false))
  }

  function FileOf(gs: seq<Arg> -> GsRun, args: seq<Arg>): seq<byte> {
    if gs(args).Exited? then gs(args).file else []
  }

  function PageLinesOf(gs: seq<Arg> -> GsRun, args: seq<Arg>): nat {
    if gs(args).Exited? then gs(args).pageLines else 0
  }

  function Files(gs: seq<Arg> -> GsRun, runs: seq<RenderRun>): (files: seq<seq<byte>>)
    ensures |files| == |runs|
  {
    seq(|runs|, k requires 0 <= k < |runs| => FileOf(gs, RunArgs(runs[k], false)))
  }

  function PageLines(gs: seq<Arg> -> GsRun, runs: seq<RenderRun>): nat {
    if runs == [] then 0
    else PageLines(gs, runs[..|runs| - 1]) + PageLinesOf(gs, RunArgs(runs[|runs| - 1], false))
  }

  /** A call that ended in an error, and the event it left. */
  function FailureEvents(jobId: string, run: GsRun): seq<PrintJobEvent> {
    if run.NotRun? then [] else [FailEvent(jobId, PrintStage.Failed)]
  }

  /** A call that failed or was killed leaves one `failed` event; one that could
      not be made, or was cancelled, leaves none. */
  lemma FailureIsTold(jobId: string, run: GsRun)
    ensures FailureEvents(jobId, run)
         == if run.NotRun? then [] else [PrintJobEvent(jobId, PrintStage.Failed, false, "", NoEvidence)]
  {
  }

  method RunGs(jobId: string, gs: seq<Arg> -> GsRun, args: seq<Arg>, events: EventEmitter) returns (ok: bool)
    requires events.Valid()
    modifies events
    ensures events.Valid() && ok == Succeeds(gs, args)
    ensures events.emitted == old(events.emitted) + if ok then [] else FailureEvents(jobId, gs(args))
  {
    ok := gs(args).Exited? && gs(args).success;
    if !ok && !gs(args).NotRun? {
      events.Emit(FailEvent(jobId, PrintStage.Failed));
    }
  }

  /** At most one failure event was added. */
  predicate FailedAtMostOnce(jobId: string, before: seq<PrintJobEvent>, after: seq<PrintJobEvent>) {
    after == before || after == before + [FailEvent(jobId, PrintStage.Failed)]
  }

  /** Renders each run into its own file. */
  method RenderFiles(jobId: string, gs: seq<Arg> -> GsRun, runs: seq<RenderRun>, files: array<seq<byte>>, events: EventEmitter)
    returns (pageLines: Option<nat>)
    requires events.Valid() && files.Length == |runs|
    modifies events, files
    ensures events.Valid()
    ensures pageLines.Some? <==> AllSucceed(gs, runs)
    ensures pageLines.Some? ==> pageLines.value == PageLines(gs, runs) && files[..] == Files(gs, runs)
    ensures pageLines.Some? ==> events.emitted == old(events.emitted)
    ensures FailedAtMostOnce(jobId, old(events.emitted), events.emitted)
  {
    hide RunArgs, FailEvent, FailureEvents, PageLines, AllSucceed, FailedAtMostOnce;
    var lines: nat := 0;
    NothingRendered(gs);
    SameEvents(jobId, events.emitted);
    for k := 0 to |runs|
      invariant AllSucceed(gs, runs[..k])
      invariant forall j :: 0 <= j < k ==> files[j] == FileOf(gs, RunArgs(runs[j], false))
      invariant lines == PageLines(gs, runs[..k])
      invariant events.Valid() && events.emitted == old(events.emitted)
    {
      var args := RunArgs(runs[k], false);
      OneMoreRun(gs, runs, k);
      var ok := RunGs(jobId, gs, args, events);
      if !ok {
        FailedOnce(jobId, old(events.emitted), gs(args));
        return None;
      }
      files[k] := gs(args).file;
      lines := lines + gs(args).pageLines;
    }
    assert runs[..|runs|] == runs;
    return Some(lines);
  }

  lemma NothingRendered(gs: seq<Arg> -> GsRun)
    ensures AllSucceed(gs, []) && PageLines(gs, []) == 0
  {
  }

  lemma SameEvents(jobId: string, before: seq<PrintJobEvent>)
    ensures FailedAtMostOnce(jobId, before, before)
  {
  }

  lemma FailedOnce(jobId: string, before: seq<PrintJobEvent>, run: GsRun)
    ensures FailedAtMostOnce(jobId, before, before + FailureEvents(jobId, run))
  {
    assert before + [] == before;
  }

  lemma OneMoreRun(gs: seq<Arg> -> GsRun, runs: seq<RenderRun>, k: nat)
    requires k < |runs|
    ensures (var args := RunArgs(runs[k], false);
             && (!Succeeds(gs, args) ==> !AllSucceed(gs, runs))
             && (Succeeds(gs, args) && AllSucceed(gs, runs[..k]) ==> AllSucceed(gs, runs[..k + 1]))
             && PageLines(gs, runs[..k + 1]) == PageLines(gs, runs[..k]) + PageLinesOf(gs, args))
  {
    hide RunArgs, PageLinesOf;
    assert runs[..k + 1][..k] == runs[..k];
  }

  /** Creates the output file and merges the runs' files into it. */
  method MergeFiles(kind: RasterKind, files: array<seq<byte>>, out: Output) returns (r: Result<nat, MergeError>)
    modifies files, out
    ensures r.Ok? <==> Mergeable(kind, old(files[..]))
    ensures r.Ok? ==> out.bytes == Merged(kind, old(files[..])) && r.value == |out.bytes|
  {
    hide Mergeable, Merged;
    out.bytes := [];
    r := Merge(kind, files, out);
    assert forall merged: seq<byte> :: [] + merged == merged;
  }

  /** Renders each run into its own file, then merges the files into one
      document. */
  method RenderRuns(jobId: string, gs: seq<Arg> -> GsRun, kind: RasterKind, runs: seq<RenderRun>, out: Output, events: EventEmitter)
    returns (r: Option<nat>)
    requires events.Valid()
    modifies events, out
    ensures events.Valid()
    ensures r.Some? <==> AllSucceed(gs, runs) && Mergeable(kind, Files(gs, runs))
    ensures r.Some? ==> r.value == PageLines(gs, runs) && out.bytes == Merged(kind, Files(gs, runs))
    ensures r.Some? ==> events.emitted == old(events.emitted)
    ensures FailedAtMostOnce(jobId, old(events.emitted), events.emitted)
    ensures AllSucceed(gs, runs) && r.None? ==> events.emitted == old(events.emitted) + [FailEvent(jobId, PrintStage.Failed)]
  {
    hide Mergeable, Merged, RunArgs, Files, AllSucceed;
    var files := new seq<byte>[|runs|];
    var pageLines := RenderFiles(jobId, gs, runs, files, events);
    if pageLines.None? {
      return None;
    }
    var merged := MergeFiles(kind, files, out);
    if merged.Err? {
      events.Emit(FailEvent(jobId, PrintStage.Failed));
      return None;
    }
    return pageLines;
  }

  // ---- Rendering a document -------------------------------------------------------------------

  /** The page orientation a render goes by; `None` when reading it was
      cancelled. */
  function OrientationFor(device: Device, info: GsInfo): Option<Orientation> {
    if !device.RasterDevice? then Some(NotApplicable)
    else match info
      case InfoExited(success, printed) => Some(OrientationOf(device.kind, success, printed))
      case InfoKilled => None
      case InfoNotRun(cancelled) => if cancelled then None else Some(Unknown)
  }

  predicate CallsSucceed(gs: seq<Arg> -> GsRun, calls: GsCalls) {
    match calls
    case Single(args) => Succeeds(gs, args)
    case Runs(kind, runs) => AllSucceed(gs, runs) && Mergeable(kind, Files(gs, runs))
  }

  /** The document the calls produce. */
  function Document(gs: seq<Arg> -> GsRun, calls: GsCalls): seq<byte>
    requires CallsSucceed(gs, calls)
  {
    match calls
    case Single(args) => FileOf(gs, args)
    case Runs(kind, runs) => Merged(kind, Files(gs, runs))
  }

  function LinesPrinted(gs: seq<Arg> -> GsRun, calls: GsCalls): nat {
    match calls
    case Single(args) => PageLinesOf(gs, args)
    case Runs(_, runs) => PageLines(gs, runs)
  }

  function ImagesOf(gs: seq<Arg> -> GsRun, calls: GsCalls): map<nat, seq<byte>> {
    if calls.Single? && gs(calls.args).Exited? then gs(calls.args).images else map[]
  }

  predicate Renders(device: Device, info: GsInfo, gs: seq<Arg> -> GsRun) {
    var o := OrientationFor(device, info);
    && o.Some? && CallsSucceed(gs, Calls(o.value))
    && if device.OneFilePerPage? then 1 in ImagesOf(gs, Calls(o.value)) else Document(gs, Calls(o.value)) != []
  }

  /** The page files 1, 2, ... up to the first that is missing. */
  predicate ArePageFiles(images: map<nat, seq<byte>>, files: seq<seq<byte>>) {
    && (forall i :: 0 <= i < |files| ==> IsPageFile(images, files, i))
    && |files| + 1 !in images
  }

  predicate IsPageFile(images: map<nat, seq<byte>>, files: seq<seq<byte>>, i: nat)
    requires i < |files|
  {
    i + 1 in images && files[i] == images[i + 1]
  }

  /** What a render hands on: its page count and its files, in page order. */
  datatype RenderResult = RenderResult(pages: nat, files: seq<seq<byte>>)

  method ReadOrientation(jobId: string, kind: RasterKind, info: GsInfo, events: EventEmitter) returns (o: Option<Orientation>)
    requires events.Valid()
    modifies events
    ensures events.Valid()
    ensures o == OrientationFor(RasterDevice(kind), info)
    ensures events.emitted == old(events.emitted) + if info.InfoKilled? then [FailEvent(jobId, PrintStage.Failed)] else []
  {
    hide OrientationOf;
    match info {
      case InfoExited(success, printed) =>
        var read := FromPdfInfo(kind, success, printed);
        return Some(read);
      case InfoKilled =>
        events.Emit(FailEvent(jobId, PrintStage.Failed));
        return None;
      case InfoNotRun(cancelled) =>
        return if cancelled then None else Some(Unknown);
    }
  }

  /** Makes the calls a document needs. */
  method MakeCalls(jobId: string, gs: seq<Arg> -> GsRun, calls: GsCalls, out: Output, events: EventEmitter)
    returns (pageLines: Option<nat>)
    requires events.Valid()
    modifies events, out
    ensures events.Valid()
    ensures pageLines.Some? <==> CallsSucceed(gs, calls)
    ensures pageLines.Some? ==> out.bytes == Document(gs, calls) && pageLines.value == LinesPrinted(gs, calls)
    ensures pageLines.Some? ==> events.emitted == old(events.emitted)
    ensures FailedAtMostOnce(jobId, old(events.emitted), events.emitted)
  {
    hide Mergeable, Merged, Files, PageLines, AllSucceed;
    match calls {
      case Runs(kind, runs) =>
        pageLines := RenderRuns(jobId, gs, kind, runs, out, events);
      case Single(args) =>
        var ok := RunGs(jobId, gs, args, events);
        if !ok {
          FailedOnce(jobId, old(events.emitted), gs(args));
          return None;
        }
        out.bytes := gs(args).file;
        return Some(gs(args).pageLines);
    }
  }

  /** Only the merging devices read the page list. Reading it is given up only
      for a cancel, or when Ghostscript was killed; a list that cannot be had or
      read leaves the orientation unknown, and a well-formed one plans its
      pages. */
  lemma OrientationSays(device: Device, info: GsInfo)
    ensures !device.RasterDevice? ==> OrientationFor(device, info) == Some(NotApplicable)
    ensures device.RasterDevice? ==>
              (OrientationFor(device, info) == None <==> info.InfoKilled? || (info.InfoNotRun? && info.cancelled))
    ensures device.RasterDevice? && info.InfoNotRun? && !info.cancelled ==> OrientationFor(device, info) == Some(Unknown)
    ensures device.RasterDevice? && info.InfoExited? ==>
              (OrientationFor(device, info).value.Planned?
               <==> info.success && PdfInfo.WellFormed(Text.Lines(info.printed)))
  {
    hide PdfInfo.WellFormed, ListedPages, Plan, Summarize, Text.Lines;
  }

  lemma OrientationCases(device: Device, info: GsInfo)
    ensures !device.RasterDevice? ==> OrientationFor(device, info) == Some(NotApplicable)
    ensures device.RasterDevice? && info.InfoKilled? ==> OrientationFor(device, info) == None
  {
  }

  /** Collects the page files by number until one is missing. */
  method CollectPages(images: map<nat, seq<byte>>) returns (files: seq<seq<byte>>)
    ensures ArePageFiles(images, files)
  {
    files := [];
    ghost var unseen := images.Keys;
    while |files| + 1 in images
      invariant forall i :: 0 <= i < |files| ==> IsPageFile(images, files, i)
      invariant forall k :: k in images && k > |files| ==> k in unseen
      decreases |unseen|
    {
      ghost var before := files;
      files := files + [images[|files| + 1]];
      forall i | 0 <= i < |files| ensures IsPageFile(images, files, i) {
        assert i < |before| ==> IsPageFile(images, before, i);
      }
      unseen := unseen - {|files|};
    }
  }

  /** Renders a document: one file, or one file per page, and its page count. */
  method Render(jobId: string, device: Device, info: GsInfo, gs: seq<Arg> -> GsRun, out: Output, events: EventEmitter)
    returns (r: Option<RenderResult>)
    requires events.Valid()
    modifies events, out
    ensures events.Valid()
    ensures r.Some? <==> Renders(device, info, gs)
    ensures r.Some? ==>
      var o := OrientationFor(device, info).value;
      && r.value.pages == PageCount(o, LinesPrinted(gs, Calls(o)), |r.value.files|)
      && (if device.OneFilePerPage? then ArePageFiles(ImagesOf(gs, Calls(o)), r.value.files)
          else r.value.files == [Document(gs, Calls(o))] && out.bytes == r.value.files[0])
      && events.emitted == old(events.emitted) + [OkEvent(jobId, PrintStage.Rendering), OkEvent(jobId, PrintStage.Rendered)]
    ensures r.Some? ==> r.value.files != [] && forall f :: f in r.value.files && !device.OneFilePerPage? ==> f != []
    ensures r.None? && OrientationFor(device, info).Some? && CallsSucceed(gs, Calls(OrientationFor(device, info).value)) ==>
              if device.OneFilePerPage? then ArePageFiles(ImagesOf(gs, Calls(OrientationFor(device, info).value)), [])
              else Document(gs, Calls(OrientationFor(device, info).value)) == []
    ensures r.None? ==> FailedAtMostOnce(jobId, old(events.emitted) + [OkEvent(jobId, PrintStage.Rendering)], events.emitted)
  {
    hide OrientationFor, Document, LinesPrinted, PageCount, FailedAtMostOnce, FailEvent, OkEvent, ArePageFiles, RunArgs, AllSucceed,
         Mergeable, Files, ImagesOf, Calls, CallsSucceed;
    ghost var begun := old(events.emitted) + [OkEvent(jobId, PrintStage.Rendering)];
    OrientationCases(device, info);
    FailedOnce(jobId, begun, NotRun);
    FailedOnce(jobId, begun, Killed);
    assert begun + [] == begun;
    events.Emit(OkEvent(jobId, PrintStage.Rendering));
    var o := Some(NotApplicable);
    if device.RasterDevice? {
      o := ReadOrientation(jobId, device.kind, info, events);
    }
    if o.None? {
      return None;
    }
    var calls := Calls(o.value);
    var pageLines := MakeCalls(jobId, gs, calls, out, events);
    if pageLines.None? {
      return None;
    }
    var files;
    if device.OneFilePerPage? {
      files := CollectPages(ImagesOf(gs, calls));
      SomePageFile(ImagesOf(gs, calls), files);
    } else {
      files := if out.bytes == [] then [] else [out.bytes];
    }
    if files == [] {
      events.Emit(FailEvent(jobId, PrintStage.Failed));
      return None;
    }
    events.Emit(OkEvent(jobId, PrintStage.Rendered));
    return Some(RenderResult(PageCount(o.value, pageLines.value, |files|), files));
  }

  lemma SomePageFile(images: map<nat, seq<byte>>, files: seq<seq<byte>>)
    requires ArePageFiles(images, files)
    ensures files == [] <==> 1 !in images
  {
    assert files != [] ==> IsPageFile(images, files, 0);
  }

  // ---- What a rendered document shows -----------------------------------------------------

  /** Pages `first..=last`, each on `media`. */
  function RunPages(raster: (nat, RunMedia) -> Urf.Raster, run: RenderRun): (pages: seq<Urf.Raster>)
    requires run.firstPage <= run.lastPage
    ensures |pages| == run.lastPage - run.firstPage + 1
  {
    seq(run.lastPage - run.firstPage + 1, i requires 0 <= i => raster(run.firstPage + i, run.media))
  }

  /** Ghostscript draws, for a document of `n` pages, exactly the pages it is
      asked for on the medium it is given: page `p` on `m` is `raster(p, m)`. */
  ghost predicate Faithful(gs: seq<Arg> -> GsRun, n: nat, raster: (nat, RunMedia) -> Urf.Raster) {
    forall args :: Succeeds(gs, args) && InRange(Meaning(args, n), n) ==> Shows(FileOf(gs, args), RunPages(raster, Meaning(args, n)))
  }

  predicate InRange(run: RenderRun, n: nat) {
    1 <= run.firstPage <= run.lastPage <= n
  }

  predicate Shows(document: seq<byte>, pages: seq<Urf.Raster>) {
    Urf.Decoded(document).Some? && Urf.Decoded(document).value.1 == pages
  }

  /** Every page from 1 to `n` once, in order, on the medium of its run. */
  function DocumentPages(raster: (nat, RunMedia) -> Urf.Raster, runs: seq<RenderRun>, n: nat): (pages: seq<Urf.Raster>)
    requires |runs| > 0
    ensures |pages| == n
  {
    seq(n, i requires 0 <= i < n => raster(i + 1, MediaOn(runs, i + 1)))
  }

  lemma {:induction false} AllRastersSnoc(docs: seq<seq<byte>>, doc: seq<byte>)
    requires AllDecode(docs + [doc])
    ensures AllDecode(docs) && Urf.Decoded(doc).Some?
    ensures AllRasters(docs + [doc]) == AllRasters(docs) + Urf.Decoded(doc).value.1
    decreases |docs|
  {
    hide Urf.Decoded;
    assert (docs + [doc])[|docs|] == doc;
    assert forall i :: 0 <= i < |docs| ==> (docs + [doc])[i] == docs[i];
    if docs == [] {
      assert ([] + [doc])[1..] == [];
      assert AllRasters([]) == [];
    } else {
      assert (docs + [doc])[1..] == docs[1..] + [doc];
      AllRastersSnoc(docs[1..], doc);
    }
  }

  lemma RunShows(gs: seq<Arg> -> GsRun, n: nat, raster: (nat, RunMedia) -> Urf.Raster, run: RenderRun)
    requires Faithful(gs, n, raster) && InRange(run, n) && Succeeds(gs, RunArgs(run, false))
    ensures Shows(FileOf(gs, RunArgs(run, false)), RunPages(raster, run))
  {
    hide Meaning, RunArgs, FileOf;
    ArgsMeanTheRun(run, n);
  }

  lemma DocumentPagesStep(raster: (nat, RunMedia) -> Urf.Raster, runs: seq<RenderRun>, n: nat)
    requires |runs| > 1 && Partition(runs, n)
    ensures (var front, last := runs[..|runs| - 1], runs[|runs| - 1];
             && last.firstPage <= last.lastPage
             && DocumentPages(raster, runs, n) == DocumentPages(raster, front, runs[|runs| - 2].lastPage) + RunPages(raster, last))
  {
    var k := |runs| - 1;
    var front, last, pages := runs[..k], runs[k], DocumentPages(raster, runs, n);
    var before := runs[k - 1].lastPage;
    assert Follows(runs, k) && Follows(runs, k - 1);
    forall i | 0 <= i < n
      ensures pages[i] == if i < before then DocumentPages(raster, front, before)[i] else RunPages(raster, last)[i - before]
    {
      assert MediaOn(runs, i + 1) == if last.firstPage <= i + 1 then last.media else MediaOn(front, i + 1);
    }
  }

  /** Merging the files of consecutive page ranges shows every page once, in
      order, on the medium of its range. */
  lemma {:induction false} RunsShow(gs: seq<Arg> -> GsRun, n: nat, raster: (nat, RunMedia) -> Urf.Raster, runs: seq<RenderRun>, upTo: nat)
    requires Faithful(gs, n, raster) && AllSucceed(gs, runs)
    requires |runs| > 0 && Partition(runs, upTo) && upTo <= n
    ensures AllDecode(Files(gs, runs)) && AllRasters(Files(gs, runs)) == DocumentPages(raster, runs, upTo)
    decreases |runs|
  {
    hide RunArgs, Faithful, FileOf, Urf.Decoded, MediaOn, DocumentPages, AllRasters, RunPages;
    var k := |runs| - 1;
    var front, last := runs[..k], runs[k];
    PartitionPrefix(runs, upTo, k + 1);
    RunShows(gs, n, raster, last);
    var file := FileOf(gs, RunArgs(last, false));
    assert Files(gs, runs) == Files(gs, front) + [file];
    if k == 0 {
      assert Follows(runs, 0) && runs == [last];
      OneRunShows(raster, last);
      assert Files(gs, front) == [];
    } else {
      PartitionPrefix(runs, upTo, k);
      RunsShow(gs, n, raster, front, runs[k - 1].lastPage);
      DocumentPagesStep(raster, runs, upTo);
    }
    AllRastersSnoc(Files(gs, front), file);
  }

  lemma OneRunShows(raster: (nat, RunMedia) -> Urf.Raster, run: RenderRun)
    requires 1 == run.firstPage <= run.lastPage
    ensures DocumentPages(raster, [run], run.lastPage) == [] + RunPages(raster, run)
    ensures AllRasters([]) == []
  {
    var pages := DocumentPages(raster, [run], run.lastPage);
    forall i | 0 <= i < run.lastPage ensures pages[i] == RunPages(raster, run)[i] {
      assert MediaOn([run], i + 1) == run.media;
    }
    assert pages == RunPages(raster, run);
  }

  lemma MergedShows(gs: seq<Arg> -> GsRun, n: nat, raster: (nat, RunMedia) -> Urf.Raster, runs: seq<RenderRun>)
    requires Faithful(gs, n, raster) && AllSucceed(gs, runs) && Mergeable(Urf, Files(gs, runs))
    requires |runs| > 0 && Partition(runs, n)
    ensures Shows(Merged(Urf, Files(gs, runs)), DocumentPages(raster, runs, n))
  {
    hide Faithful, AllSucceed, DocumentPages, Urf.Decoded, Files, Merged, Partition, MergedPageCount;
    RunsShow(gs, n, raster, runs, n);
    MergedDecodes(Files(gs, runs));
  }

  lemma SingleShows(gs: seq<Arg> -> GsRun, n: nat, raster: (nat, RunMedia) -> Urf.Raster, run: RenderRun)
    requires Faithful(gs, n, raster) && n > 0 && Succeeds(gs, RunArgs(run, true)) && run.firstPage == 1 && run.lastPage == n
    ensures Shows(FileOf(gs, RunArgs(run, true)), DocumentPages(raster, [run], n))
  {
    hide Meaning, RunArgs, FileOf, DocumentPages, RunPages;
    ArgsMeanTheRun(run, n);
    OneRunShows(raster, run);
    assert [] + RunPages(raster, run) == RunPages(raster, run);
  }

  function OrientationOfPages(pages: seq<PageGeometry>): Orientation {
    Planned(Urf, Plan(pages), Summarize(pages))
  }

  /** A document whose pages were read renders to exactly its pages, once each
      and in order, every page on the medium of its run; and that many pages
      are reported. */
  lemma DocumentShowsItsPages(gs: seq<Arg> -> GsRun, raster: (nat, RunMedia) -> Urf.Raster, pages: seq<PageGeometry>)
    requires Numbered(pages) && pages != [] && Faithful(gs, |pages|, raster)
    requires CallsSucceed(gs, Calls(OrientationOfPages(pages)))
    ensures |Plan(pages)| > 0
    ensures Shows(Document(gs, Calls(OrientationOfPages(pages))), DocumentPages(raster, Plan(pages), |pages|))
    ensures forall lines, files :: PageCount(OrientationOfPages(pages), lines, files) == |pages|
  {
    hide Faithful, DocumentPages, RunArgs, Merged, Shows, Files, Plan, Mergeable;
    var runs := Plan(pages);
    PlanIsAPlan(pages);
    assert |runs| > 0;
    if |runs| > 1 {
      MergedShows(gs, |pages|, raster, runs);
    } else {
      assert Follows(runs, 0);
      assert runs == [runs[0]];
      SingleShows(gs, |pages|, raster, runs[0]);
    }
  }

  /** Each page on its own, on the medium of its run. */
  function PageByPage(runs: seq<RenderRun>, n: nat): (singles: seq<RenderRun>)
    requires |runs| > 0
    ensures |singles| == n
  {
    seq(n, i requires 0 <= i < n => RenderRun(i + 1, i + 1, MediaOn(runs, i + 1)))
  }

  lemma PageByPageIsPartition(runs: seq<RenderRun>, n: nat)
    requires |runs| > 0
    ensures Partition(PageByPage(runs, n), n)
    ensures forall p :: 1 <= p <= n ==> MediaOn(PageByPage(runs, n), p) == MediaOn(runs, p)
  {
    hide MediaOn;
    var singles := PageByPage(runs, n);
    forall k | 0 <= k < n ensures Follows(singles, k) {
      assert k > 0 ==> singles[k - 1].lastPage == k;
    }
    assert Partition(singles, n);
    forall p | 1 <= p <= n ensures MediaOn(singles, p) == MediaOn(runs, p) {
      MediaOfRun(singles, n, p - 1, p);
    }
  }

  /** Rendering by runs shows exactly what rendering every page on its own and
      merging the pages shows. */
  lemma {:induction false} RunsEqualPageByPage(gs: seq<Arg> -> GsRun, raster: (nat, RunMedia) -> Urf.Raster, pages: seq<PageGeometry>)
    requires Numbered(pages) && pages != [] && Faithful(gs, |pages|, raster)
    ensures |Plan(pages)| > 0
    ensures (var calls, singles := Calls(OrientationOfPages(pages)), PageByPage(Plan(pages), |pages|);
             CallsSucceed(gs, calls) && CallsSucceed(gs, Runs(Urf, singles)) ==>
               SamePictures(Document(gs, calls), Document(gs, Runs(Urf, singles))))
  {
    hide Faithful, RunArgs, Merged, Files, Plan, Mergeable, Urf.Decoded, PageByPage, AllSucceed, MediaOn;
    PlanIsAPlan(pages);
    var n, runs := |pages|, Plan(pages);
    var singles := PageByPage(runs, n);
    if CallsSucceed(gs, Calls(OrientationOfPages(pages))) && CallsSucceed(gs, Runs(Urf, singles)) {
      DocumentShowsItsPages(gs, raster, pages);
      PageByPageIsPartition(runs, n);
      MergedShows(gs, n, raster, singles);
      forall i | 0 <= i < n ensures DocumentPages(raster, singles, n)[i] == DocumentPages(raster, runs, n)[i] {
        assert MediaOn(singles, i + 1) == MediaOn(runs, i + 1);
      }
      assert DocumentPages(raster, singles, n) == DocumentPages(raster, runs, n);
    }
  }

  /** Both documents decode, to the same pages. */
  predicate SamePictures(a: seq<byte>, b: seq<byte>) {
    Urf.Decoded(a).Some? && Urf.Decoded(b).Some? && Urf.Decoded(a).value.1 == Urf.Decoded(b).value.1
  }

  /** The same from the text that Ghostscript printed about the document. */
  lemma RenderShowsTheListedPages(printed: string, gs: seq<Arg> -> GsRun, raster: (nat, RunMedia) -> Urf.Raster)
    requires PdfInfo.WellFormed(Text.Lines(printed))
    requires Faithful(gs, |ListedPages(Text.Lines(printed))|, raster)
    ensures (var pages, o := ListedPages(Text.Lines(printed)), OrientationFor(RasterDevice(Urf), InfoExited(true, printed)).value;
             && o.Planned? && |pages| > 0 && |Plan(pages)| > 0
             && (Renders(RasterDevice(Urf), InfoExited(true, printed), gs) ==>
                   Shows(Document(gs, Calls(o)), DocumentPages(raster, Plan(pages), |pages|))))
  {
    hide Faithful, DocumentPages, Document, Shows, Plan, ListedPages, Text.Lines, CallsSucceed, PdfInfo.Readable, PdfInfo.CountAgrees;
    var pages := ListedPages(Text.Lines(printed));
    ListedPagesAreNumbered(Text.Lines(printed));
    PlanIsAPlan(pages);
    assert OrientationFor(RasterDevice(Urf), InfoExited(true, printed)).value == OrientationOfPages(pages);
    if Renders(RasterDevice(Urf), InfoExited(true, printed), gs) {
      DocumentShowsItsPages(gs, raster, pages);
    }
  }
}
