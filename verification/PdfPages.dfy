/** Page geometry of a PDF and the Ghostscript runs that put every page on
    portrait-fed paper at scale 1. */
module PdfPages {
  import opened Common

  const SAME_SIZE_TOLERANCE_PT := 0.5

  datatype PageGeometry = PageGeometry(number: nat, mediaWidth: real, mediaHeight: real, rotate: nat) {
    /** The page as Ghostscript renders it, after its rotation. */
    function RenderedSize(): (real, real) {
      if rotate % 180 == 90 then (mediaHeight, mediaWidth) else (mediaWidth, mediaHeight)
    }

    predicate IsLandscape() {
      RenderedSize().0 > RenderedSize().1
    }
  }

  predicate Close(a: real, b: real) {
    -SAME_SIZE_TOLERANCE_PT < a - b < SAME_SIZE_TOLERANCE_PT
  }

  datatype RunMedia = AsIs | Portrait(width: real, height: real) {
    predicate SharesRunWith(other: RunMedia) {
      match (this, other)
      case (AsIs, AsIs) => true
      case (Portrait(w, h), Portrait(v, g)) => Close(w, v) && Close(h, g)
      case _ => false
    }
  }

  function ForPage(page: PageGeometry): (media: RunMedia)
    ensures media.Portrait? <==> page.IsLandscape()
    ensures media.Portrait? ==> media.width < media.height
    ensures media.Portrait? ==> (media.height, media.width) == page.RenderedSize()
  {
    if page.IsLandscape() then Portrait(page.RenderedSize().1, page.RenderedSize().0) else AsIs
  }

  datatype RenderRun = RenderRun(firstPage: nat, lastPage: nat, media: RunMedia)

  // ---- Planning ---------------------------------------------------------------------

  /** The runs with one more page. */
  function AddPage(runs: seq<RenderRun>, page: PageGeometry): seq<RenderRun> {
    var media := ForPage(page);
    var n := |runs|;
    if n > 0 && runs[n - 1].media.SharesRunWith(media)
    then runs[..n - 1] + [runs[n - 1].(lastPage := page.number)]
    else runs + [RenderRun(page.number, page.number, media)]
  }

  function Plan(pages: seq<PageGeometry>): seq<RenderRun> {
    if pages == [] then [] else AddPage(Plan(pages[..|pages| - 1]), pages[|pages| - 1])
  }

  method PlanRuns(pages: seq<PageGeometry>) returns (runs: seq<RenderRun>)
    ensures runs == Plan(pages)
    ensures Numbered(pages) ==> IsPlan(pages, runs)
  {
    runs := [];
    for i := 0 to |pages|
      invariant runs == Plan(pages[..i])
    {
      assert pages[..i + 1][..i] == pages[..i];
      var media := ForPage(pages[i]);
      var n := |runs|;
      if n > 0 && runs[n - 1].media.SharesRunWith(media) {
        runs := runs[n - 1 := runs[n - 1].(lastPage := pages[i].number)];
      } else {
        runs := runs + [RenderRun(pages[i].number, pages[i].number, media)];
      }
    }
    assert pages[..|pages|] == pages;
    if Numbered(pages) {
      PlanIsAPlan(pages);
    }
  }

  predicate Numbered(pages: seq<PageGeometry>) {
    forall i :: 0 <= i < |pages| ==> pages[i].number == i + 1
  }

  /** The page numbers of run `k` follow those of the run before it. */
  predicate Follows(runs: seq<RenderRun>, k: nat)
    requires k < |runs|
  {
    runs[k].firstPage == (if k == 0 then 1 else runs[k - 1].lastPage + 1) <= runs[k].lastPage
  }

  /** The runs are consecutive page ranges that make up 1..n. */
  predicate Partition(runs: seq<RenderRun>, n: nat) {
    && (forall k :: 0 <= k < |runs| ==> Follows(runs, k))
    && n == (if runs == [] then 0 else runs[|runs| - 1].lastPage)
  }

  predicate OnMedium(page: PageGeometry, run: RenderRun) {
    run.media.SharesRunWith(ForPage(page))
  }

  /** The medium of a run is its first page's own, and every page of the run
      shares it. */
  predicate Sized(pages: seq<PageGeometry>, run: RenderRun) {
    && 1 <= run.firstPage <= run.lastPage <= |pages|
    && run.media == ForPage(pages[run.firstPage - 1])
    && forall i :: run.firstPage <= i + 1 <= run.lastPage ==> OnMedium(pages[i], run)
  }

  /** A run ends only where the next page does not share its medium. */
  predicate Maximal(runs: seq<RenderRun>, k: nat)
    requires 0 < k < |runs|
  {
    !runs[k - 1].media.SharesRunWith(runs[k].media)
  }

  predicate IsPlan(pages: seq<PageGeometry>, runs: seq<RenderRun>) {
    && Partition(runs, |pages|)
    && (forall k :: 0 <= k < |runs| ==> Sized(pages, runs[k]))
    && (forall k :: 0 < k < |runs| ==> Maximal(runs, k))
  }

  lemma SharesWithItself(m: RunMedia)
    ensures m.SharesRunWith(m)
  {
  }

  lemma AddedFollows(runs: seq<RenderRun>, page: PageGeometry)
    requires page.number > 0 && Partition(runs, page.number - 1)
    ensures Partition(AddPage(runs, page), page.number)
  {
    hide ForPage, RunMedia.SharesRunWith;
    var more := AddPage(runs, page);
    forall k | 0 <= k < |more| ensures Follows(more, k) {
      assert k < |runs| ==> Follows(runs, k);
      assert 0 < k <= |runs| ==> Follows(runs, k - 1);
    }
  }

  lemma AddedMaximal(runs: seq<RenderRun>, page: PageGeometry, k: nat)
    requires 0 < k < |AddPage(runs, page)|
    requires k < |runs| ==> Maximal(runs, k)
    ensures Maximal(AddPage(runs, page), k)
  {
    hide ForPage, RunMedia.SharesRunWith;
  }

  lemma SizedLonger(pages: seq<PageGeometry>, page: PageGeometry, run: RenderRun)
    requires Sized(pages, run)
    ensures Sized(pages + [page], run)
    ensures run.lastPage == |pages| && OnMedium(page, run) ==> Sized(pages + [page], run.(lastPage := |pages| + 1))
  {
    hide ForPage, RunMedia.SharesRunWith;
    var all := pages + [page];
    forall i | run.firstPage <= i + 1 <= run.lastPage ensures OnMedium(all[i], run) {
      assert all[i] == pages[i];
    }
    if run.lastPage == |pages| && OnMedium(page, run) {
      var longer := run.(lastPage := |pages| + 1);
      forall i | longer.firstPage <= i + 1 <= longer.lastPage ensures OnMedium(all[i], longer) {
        assert i < |pages| ==> OnMedium(all[i], run);
      }
    }
  }

  lemma SizedAlone(pages: seq<PageGeometry>, page: PageGeometry)
    ensures Sized(pages + [page], RenderRun(|pages| + 1, |pages| + 1, ForPage(page)))
  {
    SharesWithItself(ForPage(page));
  }

  /** A plan stays one when a page is added. */
  lemma AddPageKeepsPlan(pages: seq<PageGeometry>, runs: seq<RenderRun>, page: PageGeometry)
    requires page.number == |pages| + 1 && IsPlan(pages, runs)
    ensures IsPlan(pages + [page], AddPage(runs, page))
  {
    hide ForPage, RunMedia.SharesRunWith, Follows, Sized, Maximal;
    var more := AddPage(runs, page);
    AddedFollows(runs, page);
    forall k | 0 <= k < |more| ensures Sized(pages + [page], more[k]) {
      if k < |runs| {
        SizedLonger(pages, page, runs[k]);
      } else {
        SizedAlone(pages, page);
      }
    }
    forall k | 0 < k < |more| ensures Maximal(more, k) {
      AddedMaximal(runs, page, k);
    }
  }

  lemma {:induction false} PlanIsAPlan(pages: seq<PageGeometry>)
    requires Numbered(pages)
    ensures IsPlan(pages, Plan(pages))
    decreases |pages|
  {
    if pages != [] {
      var init, page := pages[..|pages| - 1], pages[|pages| - 1];
      assert pages == init + [page];
      PlanIsAPlan(init);
      AddPageKeepsPlan(init, Plan(init), page);
    }
  }

  /** Undoing the last page of a plan. */
  function DropPage(runs: seq<RenderRun>): seq<RenderRun>
    requires |runs| > 0 && runs[|runs| - 1].lastPage > 0
  {
    var n := |runs|;
    var run := runs[n - 1];
    if run.firstPage == run.lastPage then runs[..n - 1] else runs[..n - 1] + [run.(lastPage := run.lastPage - 1)]
  }

  lemma DroppedFollows(runs: seq<RenderRun>, n: nat)
    requires n > 0 && Partition(runs, n)
    ensures |runs| > 0 && Partition(DropPage(runs), n - 1)
  {
    var fewer := DropPage(runs);
    assert Follows(runs, |runs| - 1);
    forall k | 0 <= k < |fewer| ensures Follows(fewer, k) {
      assert Follows(runs, k);
    }
    assert |runs| > 1 ==> Follows(runs, |runs| - 2);
  }

  lemma SizedShorter(pages: seq<PageGeometry>, run: RenderRun)
    requires |pages| > 0 && Sized(pages, run)
    ensures run.lastPage < |pages| ==> Sized(pages[..|pages| - 1], run)
    ensures run.firstPage < run.lastPage == |pages| ==> Sized(pages[..|pages| - 1], run.(lastPage := run.lastPage - 1))
  {
    hide ForPage, RunMedia.SharesRunWith;
    var init := pages[..|pages| - 1];
    var shorter := if run.lastPage == |pages| then run.(lastPage := run.lastPage - 1) else run;
    forall i | shorter.firstPage <= i + 1 <= shorter.lastPage ensures OnMedium(init[i], shorter) {
      assert OnMedium(pages[i], run);
    }
  }

  /** A plan loses its last page by dropping it from its last run. */
  lemma DropPageKeepsPlan(pages: seq<PageGeometry>, runs: seq<RenderRun>)
    requires |pages| > 0 && IsPlan(pages, runs)
    ensures |runs| > 0 && runs[|runs| - 1].lastPage > 0
    ensures IsPlan(pages[..|pages| - 1], DropPage(runs))
  {
    hide ForPage, RunMedia.SharesRunWith, Sized;
    DroppedFollows(runs, |pages|);
    var fewer := DropPage(runs);
    forall k | 0 <= k < |fewer| ensures Sized(pages[..|pages| - 1], fewer[k]) {
      assert Sized(pages, runs[k]) && Follows(runs, k);
      RunsBefore(runs, k, |pages|);
      SizedShorter(pages, runs[k]);
    }
    forall k | 0 < k < |fewer| ensures Maximal(fewer, k) {
      assert Maximal(runs, k);
    }
  }

  lemma AddDropped(runs: seq<RenderRun>, page: PageGeometry)
    requires |runs| > 0 && runs[|runs| - 1].lastPage == page.number > 0
    requires (var run := runs[|runs| - 1];
              if run.firstPage == run.lastPage
              then run.media == ForPage(page) && (|runs| > 1 ==> Maximal(runs, |runs| - 1))
              else OnMedium(page, run))
    ensures runs == AddPage(DropPage(runs), page)
  {
    hide ForPage, RunMedia.SharesRunWith;
    var n := |runs|;
    assert runs == runs[..n - 1] + [runs[n - 1]];
    if runs[n - 1].firstPage != runs[n - 1].lastPage {
      assert DropPage(runs)[..n - 1] == runs[..n - 1];
    }
  }

  /** The dropped page is the one the planner would have added. */
  lemma DropPageUndoesAddPage(pages: seq<PageGeometry>, runs: seq<RenderRun>)
    requires |pages| > 0 && Numbered(pages) && IsPlan(pages, runs)
    ensures |runs| > 0 && runs[|runs| - 1].lastPage > 0
    ensures runs == AddPage(DropPage(runs), pages[|pages| - 1])
  {
    hide ForPage, RunMedia.SharesRunWith, DropPage, AddPage, Maximal;
    DroppedFollows(runs, |pages|);
    var last := runs[|runs| - 1];
    assert Sized(pages, last);
    assert last.firstPage != last.lastPage ==> OnMedium(pages[|pages| - 1], last);
    AddDropped(runs, pages[|pages| - 1]);
  }

  lemma {:induction false} RunsBefore(runs: seq<RenderRun>, k: nat, n: nat)
    requires Partition(runs, n) && k < |runs|
    ensures runs[k].lastPage <= n
    ensures k < |runs| - 1 ==> runs[k].lastPage < n
    decreases |runs| - k
  {
    if k < |runs| - 1 {
      assert Follows(runs, k + 1);
      RunsBefore(runs, k + 1, n);
    }
  }

  /** The planned runs are the only plan there is: the page ranges make up
      1..n in order, every run's medium is its first page's own, every page is
      within tolerance of it (no drift along a run), and a run ends only where
      the next page is not. */
  lemma {:induction false} PlanIffIsPlan(pages: seq<PageGeometry>, runs: seq<RenderRun>)
    requires Numbered(pages)
    ensures runs == Plan(pages) <==> IsPlan(pages, runs)
    decreases |pages|
  {
    PlanIsAPlan(pages);
    if IsPlan(pages, runs) {
      if pages != [] {
        DropPageKeepsPlan(pages, runs);
        DropPageUndoesAddPage(pages, runs);
        PlanIffIsPlan(pages[..|pages| - 1], DropPage(runs));
      }
    }
  }

  // ---- The paper of a page -----------------------------------------------------------

  /** The medium of the run that page `p` belongs to. */
  function MediaOn(runs: seq<RenderRun>, p: nat): RunMedia
    requires |runs| > 0
  {
    var run := runs[|runs| - 1];
    if run.firstPage <= p || |runs| == 1 then run.media else MediaOn(runs[..|runs| - 1], p)
  }

  lemma PartitionPrefix(runs: seq<RenderRun>, n: nat, k: nat)
    requires Partition(runs, n) && 0 < k <= |runs|
    ensures Partition(runs[..k], runs[k - 1].lastPage)
    ensures 1 <= runs[k - 1].firstPage <= runs[k - 1].lastPage <= n
  {
    RunsBefore(runs, k - 1, n);
    forall j | 0 <= j < k ensures Follows(runs[..k], j) {
      assert Follows(runs, j);
    }
    assert Follows(runs, k - 1);
    assert k > 1 ==> Follows(runs, k - 2);
  }

  /** Every page of a run is on that run's medium. */
  lemma {:induction false} MediaOfRun(runs: seq<RenderRun>, n: nat, k: nat, p: nat)
    requires Partition(runs, n) && k < |runs| && runs[k].firstPage <= p <= runs[k].lastPage
    ensures MediaOn(runs, p) == runs[k].media
    decreases |runs|
  {
    var last := |runs| - 1;
    if k < last {
      RunsBefore(runs, k, n);
      PartitionPrefix(runs, n, last);
      RunsBefore(runs[..last], k, runs[last - 1].lastPage);
      assert Follows(runs, last);
      MediaOfRun(runs[..last], runs[last - 1].lastPage, k, p);
    }
  }

  lemma {:induction false} PageHasRun(runs: seq<RenderRun>, n: nat, p: nat) returns (k: nat)
    requires Partition(runs, n) && 1 <= p <= n
    ensures k < |runs| && runs[k].firstPage <= p <= runs[k].lastPage
    decreases |runs|
  {
    k := |runs| - 1;
    assert Follows(runs, k);
    if p < runs[k].firstPage {
      PartitionPrefix(runs, n, k);
      k := PageHasRun(runs[..k], runs[k - 1].lastPage, p);
    }
  }

  /** A page that is wider than high as it is seen: a quarter turn swaps its
      sides. */
  predicate LiesDown(page: PageGeometry) {
    if page.rotate % 360 == 90 || page.rotate % 360 == 270
    then page.mediaHeight > page.mediaWidth
    else page.mediaWidth > page.mediaHeight
  }

  function Shorter(page: PageGeometry): real {
    if page.mediaWidth < page.mediaHeight then page.mediaWidth else page.mediaHeight
  }

  function Longer(page: PageGeometry): real {
    if page.mediaWidth < page.mediaHeight then page.mediaHeight else page.mediaWidth
  }

  lemma OwnMedium(page: PageGeometry)
    ensures page.IsLandscape() <==> LiesDown(page)
    ensures ForPage(page) == if LiesDown(page) then Portrait(Shorter(page), Longer(page)) else AsIs
  {
  }

  /** Every page of a planned document is rendered as it is, or - exactly when it
      is seen lying down - on a strictly portrait medium, its shorter side wide
      and its longer side high, less than half a point off either way. */
  lemma PageFitsItsMedium(pages: seq<PageGeometry>, p: nat)
    requires Numbered(pages) && 1 <= p <= |pages|
    ensures |Plan(pages)| > 0
    ensures (var media, page := MediaOn(Plan(pages), p), pages[p - 1];
             && (media.AsIs? <==> !LiesDown(page))
             && (media.Portrait? ==>
                   && media.width < media.height
                   && -0.5 < media.width - Shorter(page) < 0.5
                   && -0.5 < media.height - Longer(page) < 0.5))
  {
    OwnMedium(pages[p - 1]);
    var runs := Plan(pages);
    PlanIsAPlan(pages);
    var k := PageHasRun(runs, |pages|, p);
    MediaOfRun(runs, |pages|, k, p);
    hide Plan, MediaOn;
    assert Sized(pages, runs[k]);
    assert OnMedium(pages[p - 1], runs[k]);
  }

  /** A page joins the last run exactly when neither lies down, or when both do
      and the run's medium is within half a point of the page's sides; otherwise
      it begins a run on a medium of exactly its own sides. */
  lemma NextPageJoinsIff(pages: seq<PageGeometry>, page: PageGeometry)
    requires Numbered(pages + [page]) && pages != []
    ensures |Plan(pages)| > 0
    ensures (var runs, more := Plan(pages), Plan(pages + [page]);
             var last := runs[|runs| - 1];
             var joins := if LiesDown(page)
                          then last.media.Portrait? && -0.5 < last.media.width - Shorter(page) < 0.5
                               && -0.5 < last.media.height - Longer(page) < 0.5
                          else last.media.AsIs?;
             more == if joins then runs[..|runs| - 1] + [last.(lastPage := |pages| + 1)]
                     else runs + [RenderRun(|pages| + 1, |pages| + 1,
                                            if LiesDown(page) then Portrait(Shorter(page), Longer(page)) else AsIs)])
  {
    assert (pages + [page])[|pages|] == page && (pages + [page])[..|pages|] == pages;
    assert Numbered(pages) by {
      assert forall i :: 0 <= i < |pages| ==> pages[i] == (pages + [page])[i];
    }
    PlanIsAPlan(pages);
    assert Plan(pages + [page]) == AddPage(Plan(pages), page);
    OwnMedium(page);
    hide Plan, ForPage, Shorter, Longer, LiesDown;
  }

  // ---- Counting ------------------------------------------------------------------------

  datatype OrientationSummary = OrientationSummary(portrait: nat, landscape: nat)

  function Summarize(pages: seq<PageGeometry>): (s: OrientationSummary)
    ensures s.portrait + s.landscape == |pages|
    ensures s.landscape == 0 <==> forall i :: 0 <= i < |pages| ==> !pages[i].IsLandscape()
  {
    var landscape := Count(pages, (page: PageGeometry) => page.IsLandscape());
    OrientationSummary(|pages| - landscape, landscape)
  }

  /** The pages that lie down, by index. */
  function LyingDown(pages: seq<PageGeometry>): set<nat> {
    set i: nat | i < |pages| && LiesDown(pages[i])
  }

  /** The summary counts the pages that lie down, and the others. */
  lemma {:induction false} SummaryCounts(pages: seq<PageGeometry>)
    ensures Summarize(pages).landscape == |LyingDown(pages)|
    ensures Summarize(pages).portrait == |pages| - |LyingDown(pages)|
    decreases |pages|
  {
    hide LiesDown, Summarize, PageGeometry.IsLandscape;
    if pages == [] {
      assert LyingDown(pages) == {};
      assert Summarize([]) == OrientationSummary(0, 0);
    } else {
      var init, last := pages[..|pages| - 1], pages[|pages| - 1];
      assert pages == init + [last];
      SummaryCounts(init);
      OwnMedium(last);
      OneMoreSummarized(init, last);
      OneMoreLyingDown(init, last);
    }
  }

  lemma OneMoreSummarized(init: seq<PageGeometry>, last: PageGeometry)
    ensures Summarize(init + [last]).landscape == Summarize(init).landscape + if last.IsLandscape() then 1 else 0
  {
    hide PageGeometry.IsLandscape;
    assert (init + [last])[..|init|] == init;
  }

  lemma OneMoreLyingDown(init: seq<PageGeometry>, last: PageGeometry)
    ensures |LyingDown(init + [last])| == |LyingDown(init)| + if LiesDown(last) then 1 else 0
  {
    hide LiesDown;
    var n := |init|;
    assert n !in LyingDown(init);
    if LiesDown(last) {
      assert LyingDown(init + [last]) == LyingDown(init) + {n};
    } else {
      assert LyingDown(init + [last]) == LyingDown(init);
    }
  }

  /** One plain run is planned exactly for a document without a page that lies
      down. */
  lemma {:induction false} PlainRunIff(pages: seq<PageGeometry>)
    requires Numbered(pages) && pages != []
    ensures Plan(pages) == [RenderRun(1, |pages|, AsIs)] <==> Summarize(pages).landscape == 0
    ensures Plan(pages) == [RenderRun(1, |pages|, AsIs)] <==> forall i :: 0 <= i < |pages| ==> !LiesDown(pages[i])
  {
    hide Plan, Summarize;
    forall i | 0 <= i < |pages| ensures LiesDown(pages[i]) <==> pages[i].IsLandscape() {
      OwnMedium(pages[i]);
    }
    var plain := [RenderRun(1, |pages|, AsIs)];
    PlanIffIsPlan(pages, plain);
    if Summarize(pages).landscape == 0 {
      assert Follows(plain, 0) && Sized(pages, plain[0]);
    } else if IsPlan(pages, plain) {
      forall i | 0 <= i < |pages| ensures !pages[i].IsLandscape() {
        assert Sized(pages, plain[0]) && OnMedium(pages[i], plain[0]);
      }
    }
  }
}
