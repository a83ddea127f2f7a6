/** The decisions of a Ghostscript render: which calls a document needs and
    how many pages it has. */
module GsPlan {
  import opened Common
  import Text
  import opened PdfPages
  import opened PdfInfo
  import opened RasterMerge

  // ---- Arguments ------------------------------------------------------------------------

  datatype Arg =
    | FirstPage(n: nat)
    | LastPage(n: nat)
    | DeviceWidthPoints(points: real)
    | DeviceHeightPoints(points: real)
    | FixedMedia
    | PdfFitPage

  function RunArgs(run: RenderRun, singleRun: bool): seq<Arg> {
    (if singleRun then [] else [FirstPage(run.firstPage), LastPage(run.lastPage)])
    + match run.media
      case AsIs => []
      case Portrait(w, h) => [DeviceWidthPoints(w), DeviceHeightPoints(h), FixedMedia, PdfFitPage]
  }

  /** What Ghostscript understands of its arguments: the page range of a
      document of `n` pages, and the medium. */
  function FirstOf(args: seq<Arg>): nat {
    if args == [] then 1 else if args[0].FirstPage? then args[0].n else FirstOf(args[1..])
  }

  function LastOf(args: seq<Arg>, n: nat): nat {
    if args == [] then n else if args[0].LastPage? then args[0].n else LastOf(args[1..], n)
  }

  function WidthOf(args: seq<Arg>): real {
    if args == [] then 0.0 else if args[0].DeviceWidthPoints? then args[0].points else WidthOf(args[1..])
  }

  function HeightOf(args: seq<Arg>): real {
    if args == [] then 0.0 else if args[0].DeviceHeightPoints? then args[0].points else HeightOf(args[1..])
  }

  function MediaOf(args: seq<Arg>): RunMedia {
    if FixedMedia in args && PdfFitPage in args then Portrait(WidthOf(args), HeightOf(args)) else AsIs
  }

  function Meaning(args: seq<Arg>, n: nat): RenderRun {
    RenderRun(FirstOf(args), LastOf(args, n), MediaOf(args))
  }

  lemma {:induction false} NoRange(args: seq<Arg>, n: nat)
    requires forall i :: 0 <= i < |args| ==> !args[i].FirstPage? && !args[i].LastPage?
    ensures FirstOf(args) == 1 && LastOf(args, n) == n
    decreases |args|
  {
    if args != [] {
      NoRange(args[1..], n);
    }
  }

  lemma MediaArgs(media: RunMedia, args: seq<Arg>)
    requires args == RunArgs(RenderRun(1, 1, media), true)
    ensures MediaOf(args) == media
  {
    if media.Portrait? {
      assert args[2] == FixedMedia && args[3] == PdfFitPage;
      assert args[1..][0] == args[1];
      assert HeightOf(args) == HeightOf(args[1..]);
    }
  }

  lemma MediaBehindRange(first: nat, last: nat, rest: seq<Arg>)
    ensures MediaOf([FirstPage(first), LastPage(last)] + rest) == MediaOf(rest)
  {
    var args := [FirstPage(first), LastPage(last)] + rest;
    assert args[1..][1..] == rest;
    assert WidthOf(args) == WidthOf(args[1..]) && HeightOf(args) == HeightOf(args[1..]);
    assert args[1..][0] == LastPage(last);
    assert WidthOf(args[1..]) == WidthOf(rest) && HeightOf(args[1..]) == HeightOf(rest);
    assert forall i :: 0 <= i < |rest| ==> args[i + 2] == rest[i];
    assert forall x :: x in args <==> x == FirstPage(first) || x == LastPage(last) || x in rest;
  }

  /** The arguments of a run ask for exactly its pages on its medium; without
      a page range they ask for the whole document. */
  lemma ArgsMeanTheRun(run: RenderRun, n: nat)
    ensures Meaning(RunArgs(run, false), n) == run
    ensures Meaning(RunArgs(run, true), n) == RenderRun(1, n, run.media)
  {
    hide WidthOf, HeightOf, MediaOf;
    var rest, args := RunArgs(run, true), RunArgs(run, false);
    MediaArgs(run.media, rest);
    NoRange(rest, n);
    assert args == [FirstPage(run.firstPage), LastPage(run.lastPage)] + rest;
    MediaBehindRange(run.firstPage, run.lastPage, rest);
    assert args[1..][0] == LastPage(run.lastPage);
    assert LastOf(args, n) == LastOf(args[1..], n);
  }

  // ---- Orientation ------------------------------------------------------------------------

  datatype Orientation =
    | NotApplicable
    | Unknown
    | Planned(kind: RasterKind, runs: seq<RenderRun>, summary: OrientationSummary)

  /** The pages of a well-formed listing. */
  function ListedPages(lines: seq<string>): seq<PageGeometry>
    requires Readable(lines)
  {
    var texts := PageTexts(lines);
    seq(|texts|, i requires 0 <= i < |texts| => assert PageReads(texts, i); ParsePageLine(texts[i].0, texts[i].1).value)
  }

  lemma ListedPagesAre(lines: seq<string>)
    requires Readable(lines)
    ensures ArePages(PageTexts(lines), ListedPages(lines))
  {
    hide ParsePageLine, PageTexts;
    forall i | 0 <= i < |PageTexts(lines)|
      ensures ParsePageLine(PageTexts(lines)[i].0, PageTexts(lines)[i].1) == Some(ListedPages(lines)[i])
    {
      assert PageReads(PageTexts(lines), i);
    }
  }

  lemma ListedPagesAreNumbered(lines: seq<string>)
    requires Readable(lines)
    ensures Numbered(ListedPages(lines)) && |ListedPages(lines)| == |PageTexts(lines)|
  {
    hide ParsePageLine, PageTexts;
    forall i | 0 <= i < |PageTexts(lines)| ensures ListedPages(lines)[i].number == i + 1 {
      assert PageReads(PageTexts(lines), i);
    }
  }

  function OrientationOf(kind: RasterKind, success: bool, printed: string): Orientation {
    if success && WellFormed(Text.Lines(printed))
    then
      var pages := ListedPages(Text.Lines(printed));
      Planned(kind, Plan(pages), Summarize(pages))
    else Unknown
  }

  lemma SamePages(texts: seq<(string, string)>, a: seq<PageGeometry>, b: seq<PageGeometry>)
    requires ArePages(texts, a) && ArePages(texts, b)
    ensures a == b
  {
    hide ParsePageLine;
    forall i | 0 <= i < |a| ensures a[i] == b[i] {
      assert Some(a[i]) == ParsePageLine(texts[i].0, texts[i].1) == Some(b[i]);
    }
  }

  /** From the finished `gs -dPDFINFO` call. */
  method FromPdfInfo(kind: RasterKind, success: bool, printed: string) returns (o: Orientation)
    ensures o == OrientationOf(kind, success, printed)
  {
    hide ListedPages, Plan, Summarize, PageTexts, Readable, CountAgrees;
    if !success {
      return Unknown;
    }
    var pages := ParsePdfInfo(printed);
    match pages {
      case None => return Unknown;
      case Some(listed) =>
        ListedPagesAre(Text.Lines(printed));
        SamePages(PageTexts(Text.Lines(printed)), listed, ListedPages(Text.Lines(printed)));
        var runs := PlanRuns(listed);
        return Planned(kind, runs, Summarize(listed));
    }
  }

  datatype GsCalls = Single(args: seq<Arg>) | Runs(kind: RasterKind, runs: seq<RenderRun>)

  function Calls(o: Orientation): GsCalls {
    match o
    case Planned(kind, runs, _) =>
      if |runs| > 1 then Runs(kind, runs)
      else if |runs| == 1 then Single(RunArgs(runs[0], true))
      else Single([])
    case _ => Single([])
  }

  /** The page list's length when there is one, else Ghostscript's progress
      lines, else the number of output files. */
  function PageCount(o: Orientation, pageLines: nat, pageFiles: nat): nat {
    match o
    case Planned(_, _, summary) => summary.portrait + summary.landscape
    case _ => if pageLines > 0 then pageLines else pageFiles
  }

  /** Several runs are as many calls; one run is one call for the whole document,
      and for a plain one - or without a plan - a call with no arguments of its
      own. */
  lemma CallsAre(o: Orientation)
    ensures o.Planned? && |o.runs| > 1 ==> Calls(o) == Runs(o.kind, o.runs)
    ensures o.Planned? && |o.runs| == 1 ==>
              Calls(o) == Single(match o.runs[0].media
                                 case AsIs => []
                                 case Portrait(w, h) => [DeviceWidthPoints(w), DeviceHeightPoints(h), FixedMedia, PdfFitPage])
    ensures !o.Planned? ==> Calls(o) == Single([])
  {
  }

  /** A planned document has as many pages as were planned; for any other the
      progress lines are counted, and without them the files. */
  lemma PageCountIs(o: Orientation, pageLines: nat, pageFiles: nat)
    ensures o.Planned? ==> PageCount(o, pageLines, pageFiles) == o.summary.portrait + o.summary.landscape
    ensures !o.Planned? && pageLines > 0 ==> PageCount(o, pageLines, pageFiles) == pageLines
    ensures !o.Planned? && pageLines == 0 ==> PageCount(o, pageLines, pageFiles) == pageFiles
  {
  }
}
