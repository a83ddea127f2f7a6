/** The end-to-end suite's URF (Apple raster) decoder: page headers found by
    walking the compressed lines, and the dark pixels of every page. */
module Urf {
  import opened Common

  const MAGIC: seq<byte> := [0x55, 0x4E, 0x49, 0x52, 0x41, 0x53, 0x54, 0x00]
  const HEADER_LEN := 12
  const PAGE_HEADER_LEN := 32

  datatype UrfPage = UrfPage(bitsPerPixel: nat, width: nat, height: nat, dpi: nat, dark: nat)

  // ---- The fully expanded raster ------------------------------------------------

  /** A pixel: white fill, or the bytes of its value. */
  datatype Pixel = White | Value(bytes: seq<byte>) {
    /** Dark: an 8-bit value below 128. */
    predicate IsDark() {
      Value? && |bytes| == 1 && bytes[0] < 128
    }
  }

  type Row = seq<Pixel>

  /** A page expanded from its compressed lines. A run longer than the rest of
      its line, or a line repeated past the last row, is kept in full. */
  datatype Raster = Raster(bitsPerPixel: nat, width: nat, height: nat, dpi: nat, rows: seq<Row>)

  function Copies<T>(n: nat, x: T): (s: seq<T>)
    ensures |s| == n && forall i :: 0 <= i < n ==> s[i] == x
  {
    if n == 0 then [] else Copies(n - 1, x) + [x]
  }

  function DarkIn(row: Row): (n: nat)
  {
    Count(row, (p: Pixel) => p.IsDark())
  }

  /** All values below 128 of an expanded page. */
  function DarkRows(rows: seq<Row>): nat {
    if rows == [] then 0 else DarkRows(rows[..|rows| - 1]) + DarkIn(rows[|rows| - 1])
  }

  function PageOf(r: Raster): UrfPage {
    UrfPage(r.bitsPerPixel, r.width, r.height, r.dpi, DarkRows(r.rows))
  }

  function PagesOf(rs: seq<Raster>): (pages: seq<UrfPage>)
    ensures |pages| == |rs| && forall i :: 0 <= i < |rs| ==> pages[i] == PageOf(rs[i])
  {
    if rs == [] then [] else PagesOf(rs[..|rs| - 1]) + [PageOf(rs[|rs| - 1])]
  }

  // ---- The format -------------------------------------------------------------------

  /** `n` pixels of `size` bytes each, one after the other. */
  function Literals(data: seq<byte>, pos: nat, n: nat, size: nat): (row: Row)
    requires pos + n * size <= |data|
    ensures |row| == n
  {
    if n == 0 then []
    else
      assert n * size == (n - 1) * size + size;
      Literals(data, pos, n - 1, size) + [Value(data[pos + (n - 1) * size..pos + n * size])]
  }

  datatype Part<T> = Part(value: T, end: nat)

  /** One PackBits run: its pixels and where it ends. */
  function TakeRun(data: seq<byte>, pos: nat, left: nat, size: nat): (r: Option<Part<Row>>)
    ensures r.Some? ==> pos < r.value.end <= |data|
  {
    if pos >= |data| then None else
    var c := data[pos] as nat;
    if c == 0x80 then Some(Part(Copies(left, White), pos + 1))
    else if c < 0x80 then
      if pos + 1 + size > |data| then None
      else Some(Part(Copies(c + 1, Value(data[pos + 1..pos + 1 + size])), pos + 1 + size))
    else
      var n := 257 - c;
      var bytes: nat := n * size;
      if pos + 1 + bytes > |data| then None
      else Some(Part(Literals(data, pos + 1, n, size), pos + 1 + bytes))
  }

  /** The rest of a line from column `x` on. A white fill ends the line. */
  function LineFrom(data: seq<byte>, pos: nat, x: nat, width: nat, size: nat): (r: Option<Part<Row>>)
    ensures r.Some? ==> pos <= r.value.end
    ensures r.Some? && x < width ==> r.value.end <= |data|
    decreases |data| - pos
  {
    if x >= width then Some(Part([], pos))
    else match TakeRun(data, pos, width - x, size)
      case None => None
      case Some(run) => Prepend(run.value, LineFrom(data, run.end, x + |run.value|, width, size))
  }

  function Prepend<T>(front: seq<T>, r: Option<Part<seq<T>>>): Option<Part<seq<T>>> {
    match r
    case None => None
    case Some(part) => Some(Part(front + part.value, part.end))
  }

  /** The rows from row `y` on; each compressed line stands for its repeat
      count plus one rows. */
  function RowsFrom(data: seq<byte>, pos: nat, y: nat, height: nat, width: nat, size: nat): (r: Option<Part<seq<Row>>>)
    requires width > 0
    ensures r.Some? ==> pos <= r.value.end
    ensures r.Some? && pos <= |data| ==> r.value.end <= |data|
    decreases |data| - pos
  {
    if y >= height then Some(Part([], pos))
    else if pos >= |data| then None
    else
      var repeated := data[pos] as nat;
      match LineFrom(data, pos + 1, 0, width, size)
      case None => None
      case Some(line) =>
        Prepend(Copies(repeated + 1, line.value), RowsFrom(data, line.end, y + repeated + 1, height, width, size))
  }

  function Be(data: seq<byte>, at: nat): nat
    requires at + 4 <= |data|
  {
    FromBe32(data[at..at + 4])
  }

  predicate GoodHeader(data: seq<byte>, pos: nat) {
    pos + PAGE_HEADER_LEN <= |data| && data[pos] >= 8 && data[pos] % 8 == 0 && Be(data, pos + 12) > 0
  }

  function RasterAt(data: seq<byte>, pos: nat): (r: Option<Part<Raster>>)
    ensures r.Some? ==> pos + PAGE_HEADER_LEN <= r.value.end <= |data|
  {
    if !GoodHeader(data, pos) then None else
    var bits, width, height := data[pos] as nat, Be(data, pos + 12), Be(data, pos + 16);
    match RowsFrom(data, pos + PAGE_HEADER_LEN, 0, height, width, bits / 8)
    case None => None
    case Some(rows) => Some(Part(Raster(bits, width, height, Be(data, pos + 20), rows.value), rows.end))
  }

  /** The pages from `pos` to the end of the document. */
  function RastersFrom(data: seq<byte>, pos: nat): Option<seq<Raster>>
    requires pos <= |data|
    decreases |data| - pos
  {
    if pos == |data| then Some([])
    else match RasterAt(data, pos)
      case None => None
      case Some(page) => PrependPages([page.value], RastersFrom(data, page.end))
  }

  function PrependPages(front: seq<Raster>, r: Option<seq<Raster>>): Option<seq<Raster>> {
    match r
    case None => None
    case Some(rasters) => Some(front + rasters)
  }

  /** The header's page count (0: not counted) and the expanded pages. */
  function Decoded(data: seq<byte>): Option<(nat, seq<Raster>)> {
    if |data| < HEADER_LEN || data[..8] != MAGIC then None
    else match RastersFrom(data, HEADER_LEN)
      case None => None
      case Some(rasters) => Some((Be(data, 8), rasters))
  }

  // ---- The decoder ----------------------------------------------------------------------

  lemma {:induction false} DarkCopies(row: Row, n: nat)
    ensures DarkRows(Copies(n, row)) == n * DarkIn(row)
  {
    hide DarkIn;
    if n > 0 {
      assert Copies(n, row)[..n - 1] == Copies(n - 1, row);
      DarkCopies(row, n - 1);
      OneMoreTime(n, DarkIn(row));
    }
  }

  lemma OneMoreTime(n: nat, d: nat)
    requires n > 0
    ensures n * d == (n - 1) * d + d
  {
  }

  lemma {:induction false} DarkRowsAppend(a: seq<Row>, b: seq<Row>)
    ensures DarkRows(a + b) == DarkRows(a) + DarkRows(b)
    decreases |b|
  {
    if b == [] {
      assert a + b == a;
    } else {
      assert (a + b)[..|a + b| - 1] == a + b[..|b| - 1];
      DarkRowsAppend(a, b[..|b| - 1]);
    }
  }

  lemma {:induction false} DarkOfCopies(p: Pixel, n: nat)
    ensures DarkIn(Copies(n, p)) == if p.IsDark() then n else 0
  {
    if n > 0 {
      assert Copies(n, p)[..n - 1] == Copies(n - 1, p);
      DarkOfCopies(p, n - 1);
    }
  }

  lemma DarkAppend(a: Row, b: Row)
    ensures DarkIn(a + b) == DarkIn(a) + DarkIn(b)
  {
    CountAppend(a, b, (p: Pixel) => p.IsDark());
  }

  lemma DarkOne(row: Row, p: Pixel)
    ensures DarkIn(row + [p]) == DarkIn(row) + if p.IsDark() then 1 else 0
  {
    assert (row + [p])[..|row|] == row;
  }

  lemma WideIsLight(row: Row)
    requires forall i :: 0 <= i < |row| ==> row[i].Value? && |row[i].bytes| != 1
    ensures DarkIn(row) == 0
  {
  }

  lemma {:induction false} LiteralsAreWide(data: seq<byte>, pos: nat, n: nat, size: nat)
    requires pos + n * size <= |data|
    ensures forall i :: 0 <= i < n ==> Literals(data, pos, n, size)[i].Value? && |Literals(data, pos, n, size)[i].bytes| == size
  {
    if n > 0 {
      assert n * size == (n - 1) * size + size;
      LiteralsAreWide(data, pos, n - 1, size);
    }
  }

  lemma OneMoreLiteral(data: seq<byte>, pos: nat, k: nat)
    requires pos + k < |data|
    ensures DarkIn(Literals(data, pos, k + 1, 1)) == DarkIn(Literals(data, pos, k, 1)) + if data[pos + k] < 128 then 1 else 0
  {
    DarkOne(Literals(data, pos, k, 1), Value(data[pos + k..pos + k + 1]));
  }

  /** The dark pixels of a literal run, read one by one; `None` past the end of
      the data. Only 8-bit pixels are looked at. */
  method CountLiteralDark(data: seq<byte>, pos: nat, n: nat, size: nat) returns (dark: Option<nat>)
    requires size >= 1 && n >= 1
    ensures dark.None? ==> pos + n * size > |data|
    ensures dark.Some? && pos + n * size <= |data| ==> dark.value == DarkIn(Literals(data, pos, n, size))
    ensures size == 1 && dark.Some? ==> pos + n <= |data|
  {
    hide DarkIn;
    var count := 0;
    WideIsLight([]);
    for k := 0 to n
      invariant size == 1 && k > 0 ==> pos + k <= |data|
      invariant size == 1 && pos + k <= |data| ==> count == DarkIn(Literals(data, pos, k, 1))
      invariant size > 1 ==> count == 0
    {
      if size == 1 {
        if pos + k >= |data| {
          return None;
        }
        OneMoreLiteral(data, pos, k);
        if data[pos + k] < 128 {
          count := count + 1;
        }
      }
    }
    if size > 1 && pos + n * size <= |data| {
      LiteralsAreWide(data, pos, n, size);
      WideIsLight(Literals(data, pos, n, size));
    }
    return Some(count);
  }

  lemma RepeatDark(data: seq<byte>, at: nat, size: nat, n: nat)
    requires at + size <= |data| && size >= 1 && n >= 1
    ensures DarkIn(Copies(n, Value(data[at..at + size]))) == if size == 1 && data[at] < 128 then n else 0
  {
    DarkOfCopies(Value(data[at..at + size]), n);
  }

  lemma PrependTwice<T>(a: seq<T>, b: seq<T>, r: Option<Part<seq<T>>>)
    ensures Prepend(a, Prepend(b, r)) == Prepend(a + b, r)
    ensures Prepend([], r) == r
    ensures Prepend(a, None) == None
  {
    if r.Some? {
      Associative(a, b, r.value.value);
      assert [] + r.value.value == r.value.value;
    }
  }

  lemma PrependPagesTwice(a: seq<Raster>, b: seq<Raster>, r: Option<seq<Raster>>)
    ensures PrependPages(a, PrependPages(b, r)) == PrependPages(a + b, r)
    ensures PrependPages([], r) == r
    ensures PrependPages(a, None) == None
  {
    if r.Some? {
      Associative(a, b, r.value);
      assert [] + r.value == r.value;
    }
  }

  /** One more run of a line, in the decoder's terms. */
  lemma LineStep(data: seq<byte>, pos: nat, x: nat, width: nat, size: nat, done: Row, whole: Option<Part<Row>>)
    requires whole == Prepend(done, LineFrom(data, pos, x, width, size)) && x < width
    ensures TakeRun(data, pos, width - x, size).None? ==> whole.None?
    ensures (match TakeRun(data, pos, width - x, size)
             case None => true
             case Some(run) =>
               && whole == Prepend(done + run.value, LineFrom(data, run.end, x + |run.value|, width, size))
               && DarkIn(done + run.value) == DarkIn(done) + DarkIn(run.value))
  {
    hide TakeRun, DarkIn;
    match TakeRun(data, pos, width - x, size)
    case None =>
    case Some(run) =>
      PrependTwice(done, run.value, LineFrom(data, run.end, x + |run.value|, width, size));
      DarkAppend(done, run.value);
  }

  /** The values below 128 of one line, and where it ends. */
  method CountLine(data: seq<byte>, start: nat, width: nat, size: nat) returns (r: Option<Part<nat>>)
    requires size >= 1 && width > 0
    ensures r == match LineFrom(data, start, 0, width, size)
                 case None => None
                 case Some(line) => Some(Part(DarkIn(line.value), line.end))
  {
    hide DarkIn, LineFrom, Literals;
    ghost var whole := LineFrom(data, start, 0, width, size);
    ghost var done: Row := [];
    var pos: nat, x: nat, dark: nat := start, 0, 0;
    WideIsLight([]);
    PrependTwice([], [], whole);
    while x < width
      invariant pos > |data| ==> whole.None?
      invariant pos <= |data| ==> whole == Prepend(done, LineFrom(data, pos, x, width, size)) && dark == DarkIn(done)
      decreases width - x
    {
      if pos <= |data| {
        LineStep(data, pos, x, width, size, done, whole);
      }
      if pos >= |data| {
        return None;
      }
      var c := data[pos] as nat;
      if c == 0x80 {
        DarkOfCopies(White, width - x);
        done := done + Copies(width - x, White);
        pos, x := pos + 1, width;
      } else if c < 0x80 {
        if pos + 1 + size <= |data| {
          RepeatDark(data, pos + 1, size, c + 1);
          done := done + Copies(c + 1, Value(data[pos + 1..pos + 1 + size]));
        }
        if size == 1 {
          if pos + 1 >= |data| {
            return None;
          }
          if data[pos + 1] < 128 {
            dark := dark + c + 1;
          }
        }
        pos, x := pos + 1 + size, x + c + 1;
      } else {
        var n := 257 - c;
        var more := CountLiteralDark(data, pos + 1, n, size);
        if more.None? {
          return None;
        }
        if pos + 1 + n * size <= |data| {
          done := done + Literals(data, pos + 1, n, size);
        }
        dark := dark + more.value;
        pos, x := pos + 1 + n * size, x + n;
      }
    }
    if pos > |data| {
      return None;
    }
    LineEnds(data, pos, x, width, size, done);
    return Some(Part(dark, pos));
  }

  lemma LineEnds(data: seq<byte>, pos: nat, x: nat, width: nat, size: nat, done: Row)
    requires x >= width
    ensures Prepend(done, LineFrom(data, pos, x, width, size)) == Some(Part(done, pos))
  {
    assert done + [] == done;
  }

  /** The dark pixels of a page's lines, and where they end. */
  method CountRows(data: seq<byte>, start: nat, height: nat, width: nat, size: nat) returns (r: Option<Part<nat>>)
    requires size >= 1 && width > 0 && start <= |data|
    ensures r == match RowsFrom(data, start, 0, height, width, size)
                 case None => None
                 case Some(rows) => Some(Part(DarkRows(rows.value), rows.end))
  {
    hide DarkIn, LineFrom, Copies, DarkRows, Prepend;
    ghost var whole := RowsFrom(data, start, 0, height, width, size);
    ghost var done: seq<Row> := [];
    var pos: nat, y: nat, dark: nat := start, 0, 0;
    PrependTwice([], [], whole);
    assert DarkRows(done) == 0 by {
      DarkRowsAppend(done, done);
      assert done + done == done;
    }
    while y < height
      invariant start <= pos <= |data|
      invariant whole == Prepend(done, RowsFrom(data, pos, y, height, width, size)) && dark == DarkRows(done)
      decreases height - y
    {
      PrependTwice(done, [], whole);
      if pos >= |data| {
        return None;
      }
      var repeated := data[pos] as nat;
      var line := CountLine(data, pos + 1, width, size);
      if line.None? {
        return None;
      }
      RowsStep(data, pos, y, height, width, size, done);
      ghost var row := LineFrom(data, pos + 1, 0, width, size).value.value;
      RepeatedRow(done, row, repeated);
      done := done + Copies(repeated + 1, row);
      dark := dark + line.value.value * (repeated + 1);
      pos, y := line.value.end, y + repeated + 1;
    }
    RowsEnd(data, pos, y, height, width, size, done);
    return Some(Part(dark, pos));
  }

  lemma RowsEnd(data: seq<byte>, pos: nat, y: nat, height: nat, width: nat, size: nat, done: seq<Row>)
    requires width > 0 && y >= height
    ensures Prepend(done, RowsFrom(data, pos, y, height, width, size)) == Some(Part(done, pos))
  {
    assert done + [] == done;
  }

  lemma RowsStep(data: seq<byte>, pos: nat, y: nat, height: nat, width: nat, size: nat, done: seq<Row>)
    requires width > 0 && y < height && pos < |data|
    requires LineFrom(data, pos + 1, 0, width, size).Some?
    ensures (var line := LineFrom(data, pos + 1, 0, width, size).value;
             var repeated := data[pos] as nat;
             var more := done + Copies(repeated + 1, line.value);
             && line.end <= |data|
             && Prepend(done, RowsFrom(data, pos, y, height, width, size))
                == Prepend(more, RowsFrom(data, line.end, y + repeated + 1, height, width, size)))
  {
    var line := LineFrom(data, pos + 1, 0, width, size).value;
    var repeated := data[pos] as nat;
    hide LineFrom, Prepend, Copies;
    PrependTwice(done, Copies(repeated + 1, line.value), RowsFrom(data, line.end, y + repeated + 1, height, width, size));
  }

  lemma RepeatedRow(done: seq<Row>, row: Row, repeated: nat)
    ensures DarkRows(done + Copies(repeated + 1, row)) == DarkRows(done) + DarkIn(row) * (repeated + 1)
  {
    hide *;
    DarkRowsAppend(done, Copies(repeated + 1, row));
    DarkCopies(row, repeated + 1);
  }

  lemma PageStep(data: seq<byte>, pos: nat, done: seq<Raster>)
    requires pos < |data| && RasterAt(data, pos).Some?
    ensures (var page := RasterAt(data, pos).value;
             && PrependPages(done, RastersFrom(data, pos)) == PrependPages(done + [page.value], RastersFrom(data, page.end))
             && PagesOf(done + [page.value]) == PagesOf(done) + [PageOf(page.value)])
  {
    var page := RasterAt(data, pos).value;
    hide RasterAt, PageOf;
    PrependPagesTwice(done, [page.value], RastersFrom(data, page.end));
    assert (done + [page.value])[..|done|] == done;
  }

  lemma RastersFail(data: seq<byte>, pos: nat)
    requires pos < |data|
    ensures RasterAt(data, pos).None? ==> RastersFrom(data, pos).None?
  {
  }

  lemma PagesEnd(data: seq<byte>, done: seq<Raster>)
    ensures PrependPages(done, RastersFrom(data, |data|)) == Some(done)
  {
    assert done + [] == done;
  }

  // ---- What a page's header says -----------------------------------------------------

  /** Where page `i` of an accepted document starts: behind the file header, or
      where the page before it ends. */
  function StartOf(data: seq<byte>, i: nat): nat {
    if i == 0 then 12
    else
      var before := StartOf(data, i - 1);
      if RasterAt(data, before).Some? then RasterAt(data, before).value.end else before
  }

  /** The big-endian 32 bits at `at`. */
  function BigEndianAt(data: seq<byte>, at: nat): nat
    requires at + 4 <= |data|
  {
    (data[at] as nat) * 0x100_0000 + (data[at + 1] as nat) * 0x1_0000 + (data[at + 2] as nat) * 0x100 + data[at + 3] as nat
  }

  /** The page has the bits per pixel, width, height and resolution that stand at
      `at` and 12, 16 and 20 bytes on. */
  predicate SaysItsHeader(data: seq<byte>, at: nat, page: UrfPage) {
    && at + 32 <= |data|
    && page.bitsPerPixel == data[at] as nat
    && page.width == BigEndianAt(data, at + 12)
    && page.height == BigEndianAt(data, at + 16)
    && page.dpi == BigEndianAt(data, at + 20)
  }

  lemma BigEndianIsBe(data: seq<byte>, at: nat)
    requires at + 4 <= |data|
    ensures Be(data, at) == BigEndianAt(data, at)
  {
    FourBytes(data[at..at + 4]);
  }

  lemma PageSaysItsHeader(data: seq<byte>, at: nat)
    requires RasterAt(data, at).Some?
    ensures SaysItsHeader(data, at, PageOf(RasterAt(data, at).value.value))
  {
    hide RowsFrom, Be, BigEndianAt, DarkRows;
    BigEndianIsBe(data, at + 12);
    BigEndianIsBe(data, at + 16);
    BigEndianIsBe(data, at + 20);
  }

  lemma {:induction false} PagesSayTheirHeaders(data: seq<byte>, pos: nat, k: nat)
    requires pos <= |data| && RastersFrom(data, pos).Some? && pos == StartOf(data, k)
    ensures forall i :: 0 <= i < |RastersFrom(data, pos).value| ==>
              SaysItsHeader(data, StartOf(data, k + i), PageOf(RastersFrom(data, pos).value[i]))
    decreases |data| - pos
  {
    hide RasterAt, SaysItsHeader, PageOf;
    if pos < |data| {
      var page := RasterAt(data, pos).value;
      var all, rest := RastersFrom(data, pos).value, RastersFrom(data, page.end).value;
      PageSaysItsHeader(data, pos);
      PagesSayTheirHeaders(data, page.end, k + 1);
      forall i | 0 <= i < |all| ensures SaysItsHeader(data, StartOf(data, k + i), PageOf(all[i])) {
        if i > 0 {
          assert all[i] == rest[i - 1] && k + i == k + 1 + (i - 1);
        }
      }
    }
  }

  lemma AnswerSaysItsHeaders(data: seq<byte>)
    requires Decoded(data).Some?
    ensures (var (count, rasters) := Decoded(data).value;
             && count == BigEndianAt(data, 8)
             && forall i :: 0 <= i < |rasters| ==> SaysItsHeader(data, StartOf(data, i), PagesOf(rasters)[i]))
  {
    hide RastersFrom, SaysItsHeader, PageOf, PagesOf, BigEndianAt, Be;
    BigEndianIsBe(data, 8);
    PagesSayTheirHeaders(data, 12, 0);
    hide StartOf;
    var rasters := Decoded(data).value.1;
    forall i | 0 <= i < |rasters| ensures SaysItsHeader(data, StartOf(data, i), PagesOf(rasters)[i]) {
      assert StartOf(data, 0 + i) == StartOf(data, i) && PagesOf(rasters)[i] == PageOf(rasters[i]);
    }
  }

  /** The header's page count and every page of a URF document; `None` for a
      document that is refused. Each page's dark total is the number of values
      below 128 of its expanded raster, and the pages stand where the previous
      one's data ends; every page says what its header says. */
  method UrfPages(data: seq<byte>) returns (r: Option<(nat, seq<UrfPage>)>)
    ensures r == match Decoded(data)
                 case None => None
                 case Some(doc) => Some((doc.0, PagesOf(doc.1)))
    ensures r.Some? ==>
              && |data| >= 12 && r.value.0 == BigEndianAt(data, 8)
              && forall i :: 0 <= i < |r.value.1| ==> SaysItsHeader(data, StartOf(data, i), r.value.1[i])
  {
    hide RowsFrom, DarkRows, RastersFrom, PagesOf, PrependPages, FromBe32, SaysItsHeader, BigEndianAt, StartOf;
    if |data| < HEADER_LEN || data[..8] != MAGIC {
      return None;
    }
    var count, pos := FromBe32(data[8..12]), HEADER_LEN;
    var pages: seq<UrfPage> := [];
    ghost var whole := RastersFrom(data, HEADER_LEN);
    ghost var done: seq<Raster> := [];
    PrependPagesTwice([], [], whole);
    while pos < |data|
      invariant HEADER_LEN <= pos <= |data|
      invariant whole == PrependPages(done, RastersFrom(data, pos)) && pages == PagesOf(done)
      decreases |data| - pos
    {
      PrependPagesTwice(done, [], whole);
      RastersFail(data, pos);
      if pos + PAGE_HEADER_LEN > |data| {
        return None;
      }
      var page := UrfPage(data[pos] as nat, Be(data, pos + 12), Be(data, pos + 16), Be(data, pos + 20), 0);
      if page.bitsPerPixel < 8 || page.bitsPerPixel % 8 != 0 || page.width == 0 {
        return None;
      }
      var body := CountRows(data, pos + PAGE_HEADER_LEN, page.height, page.width, page.bitsPerPixel / 8);
      if body.None? {
        return None;
      }
      PageStep(data, pos, done);
      done := done + [RasterAt(data, pos).value.value];
      pages := pages + [page.(dark := body.value.value)];
      pos := body.value.end;
    }
    PagesEnd(data, done);
    AnswerSaysItsHeaders(data);
    return Some((count, pages));
  }

  /** A document needs its twelve bytes and its magic, and is complete with
      them. */
  lemma HeaderIsNeeded(data: seq<byte>)
    ensures |data| < 12 || data[..8] != Ascii("UNIRAST") + [0] ==> Decoded(data) == None
    ensures |data| == 12 && data[..8] == Ascii("UNIRAST") + [0] ==> Decoded(data) == Some((BigEndianAt(data, 8), []))
  {
    hide Be, BigEndianAt;
    if |data| == 12 {
      BigEndianIsBe(data, 8);
    }
    assert MAGIC == Ascii("UNIRAST") + [0];
  }

  /** A page needs a header of 32 bytes with whole bytes per pixel and a width,
      and then is refused exactly if its lines run out of data. */
  lemma PageIsRefusedIff(data: seq<byte>, at: nat)
    ensures RasterAt(data, at).None?
       <==> || at + 32 > |data| || data[at] < 8 || data[at] % 8 != 0 || BigEndianAt(data, at + 12) == 0
            || RowsFrom(data, at + 32, 0, BigEndianAt(data, at + 16), BigEndianAt(data, at + 12), data[at] as nat / 8).None?
  {
    hide RowsFrom, Be, BigEndianAt;
    if at + 32 <= |data| {
      BigEndianIsBe(data, at + 12);
      BigEndianIsBe(data, at + 16);
    }
  }

  // ---- Pages are self-delimiting ---------------------------------------------------------

  /** The bytes `from..to` of `a` stand `shift` further on in `b`. */
  predicate Moved(a: seq<byte>, from: nat, to: nat, b: seq<byte>, shift: nat) {
    && to <= |a|
    && to + shift <= |b|
    && forall j :: from <= j < to ==> a[j] == b[j + shift]
  }

  function Shifted<T>(r: Option<Part<T>>, shift: nat): Option<Part<T>> {
    match r
    case None => None
    case Some(part) => Some(Part(part.value, part.end + shift))
  }

  lemma MovedSlice(a: seq<byte>, from: nat, to: nat, b: seq<byte>, shift: nat, i: nat, j: nat)
    requires Moved(a, from, to, b, shift) && from <= i <= j <= to
    ensures a[i..j] == b[i + shift..j + shift]
  {
  }

  lemma {:induction false} MovedLiterals(a: seq<byte>, from: nat, to: nat, b: seq<byte>, shift: nat, pos: nat, n: nat, size: nat)
    requires Moved(a, from, to, b, shift) && from <= pos && pos + n * size <= to
    ensures Literals(a, pos, n, size) == Literals(b, pos + shift, n, size)
    decreases n
  {
    if n > 0 {
      assert n * size == (n - 1) * size + size;
      MovedLiterals(a, from, to, b, shift, pos, n - 1, size);
      MovedSlice(a, from, to, b, shift, pos + (n - 1) * size, pos + n * size);
    }
  }

  lemma MovedRun(a: seq<byte>, from: nat, to: nat, b: seq<byte>, shift: nat, pos: nat, left: nat, size: nat)
    requires Moved(a, from, to, b, shift) && from <= pos
    ensures TakeRun(a, pos, left, size).Some? && TakeRun(a, pos, left, size).value.end <= to ==>
              TakeRun(b, pos + shift, left, size) == Shifted(TakeRun(a, pos, left, size), shift)
  {
    hide Literals;
    if TakeRun(a, pos, left, size).Some? && TakeRun(a, pos, left, size).value.end <= to {
      var c := a[pos] as nat;
      if c < 0x80 {
        MovedSlice(a, from, to, b, shift, pos + 1, pos + 1 + size);
      } else if c > 0x80 {
        MovedLiterals(a, from, to, b, shift, pos + 1, 257 - c, size);
      }
    }
  }

  lemma {:induction false} MovedLine(a: seq<byte>, from: nat, to: nat, b: seq<byte>, shift: nat, pos: nat, x: nat, width: nat, size: nat)
    requires Moved(a, from, to, b, shift) && from <= pos
    requires LineFrom(a, pos, x, width, size).Some? && LineFrom(a, pos, x, width, size).value.end <= to
    ensures LineFrom(b, pos + shift, x, width, size) == Shifted(LineFrom(a, pos, x, width, size), shift)
    decreases |a| - pos
  {
    hide TakeRun;
    if x < width {
      var run := TakeRun(a, pos, width - x, size).value;
      MovedRun(a, from, to, b, shift, pos, width - x, size);
      MovedLine(a, from, to, b, shift, run.end, x + |run.value|, width, size);
    }
  }

  lemma {:induction false} MovedRows(a: seq<byte>, from: nat, to: nat, b: seq<byte>, shift: nat, pos: nat, y: nat, height: nat, width: nat, size: nat)
    requires Moved(a, from, to, b, shift) && from <= pos && width > 0
    requires RowsFrom(a, pos, y, height, width, size).Some? && RowsFrom(a, pos, y, height, width, size).value.end <= to
    ensures RowsFrom(b, pos + shift, y, height, width, size) == Shifted(RowsFrom(a, pos, y, height, width, size), shift)
    decreases |a| - pos
  {
    hide LineFrom, Copies;
    if y < height {
      var repeated := a[pos] as nat;
      var line := LineFrom(a, pos + 1, 0, width, size).value;
      MovedLine(a, from, to, b, shift, pos + 1, 0, width, size);
      MovedRows(a, from, to, b, shift, line.end, y + repeated + 1, height, width, size);
    }
  }

  lemma MovedWord(a: seq<byte>, from: nat, to: nat, b: seq<byte>, shift: nat, at: nat)
    requires Moved(a, from, to, b, shift) && from <= at && at + 4 <= to
    ensures Be(a, at) == Be(b, at + shift)
  {
    MovedSlice(a, from, to, b, shift, at, at + 4);
  }

  /** A page decodes to the same raster wherever its bytes stand. */
  lemma MovedPage(a: seq<byte>, b: seq<byte>, shift: nat, pos: nat)
    requires RasterAt(a, pos).Some? && Moved(a, pos, RasterAt(a, pos).value.end, b, shift)
    ensures RasterAt(b, pos + shift) == Shifted(RasterAt(a, pos), shift)
  {
    hide RowsFrom, Be;
    var to := RasterAt(a, pos).value.end;
    MovedWord(a, pos, to, b, shift, pos + 12);
    MovedWord(a, pos, to, b, shift, pos + 16);
    MovedWord(a, pos, to, b, shift, pos + 20);
    MovedRows(a, pos, to, b, shift, pos + PAGE_HEADER_LEN, 0, Be(a, pos + 16), Be(a, pos + 12), (a[pos] as nat) / 8);
  }

  /** Pages that fill a document to its end decode to the same rasters inside
      any other document, and what follows them is decoded from there on. */
  lemma {:induction false} MovedPages(a: seq<byte>, b: seq<byte>, shift: nat, pos: nat)
    requires pos <= |a| && RastersFrom(a, pos).Some? && Moved(a, pos, |a|, b, shift)
    ensures RastersFrom(b, pos + shift) == PrependPages(RastersFrom(a, pos).value, RastersFrom(b, |a| + shift))
    decreases |a| - pos
  {
    hide RasterAt;
    if pos == |a| {
      PrependPagesTwice([], [], RastersFrom(b, |a| + shift));
    } else {
      var page := RasterAt(a, pos).value;
      MovedPage(a, b, shift, pos);
      MovedPages(a, b, shift, page.end);
      PrependPagesTwice([page.value], RastersFrom(a, page.end).value, RastersFrom(b, |a| + shift));
    }
  }

  // ---- The shape of an expanded page -------------------------------------------------------

  lemma {:induction false} LineShape(data: seq<byte>, pos: nat, x: nat, width: nat, size: nat)
    requires LineFrom(data, pos, x, width, size).Some? && x < width
    ensures (var row := LineFrom(data, pos, x, width, size).value.value; width <= x + |row| < width + 128)
    ensures (var row := LineFrom(data, pos, x, width, size).value.value;
             forall i :: 0 <= i < |row| && row[i].Value? ==> |row[i].bytes| == size)
    decreases |data| - pos
  {
    var run := TakeRun(data, pos, width - x, size).value;
    RunShape(data, pos, width - x, size);
    hide TakeRun;
    if x + |run.value| < width {
      LineShape(data, run.end, x + |run.value|, width, size);
    }
  }

  lemma RunShape(data: seq<byte>, pos: nat, left: nat, size: nat)
    requires left > 0 && TakeRun(data, pos, left, size).Some?
    ensures (var row := TakeRun(data, pos, left, size).value.value; 0 < |row| < left + 128)
    ensures (var row := TakeRun(data, pos, left, size).value.value;
             forall i :: 0 <= i < |row| && row[i].Value? ==> |row[i].bytes| == size)
  {
    hide Literals;
    var c := data[pos] as nat;
    if c > 0x80 {
      LiteralsAreWide(data, pos + 1, 257 - c, size);
    }
  }

  ghost predicate FillsPage(rows: seq<Row>, height: nat, width: nat, size: nat) {
    && height <= |rows| < height + 256
    && forall y :: 0 <= y < |rows| ==> FillsLine(rows[y], width, size)
  }

  ghost predicate FillsLine(row: Row, width: nat, size: nat) {
    && width <= |row| < width + 128
    && forall x :: 0 <= x < |row| && row[x].Value? ==> |row[x].bytes| == size
  }

  lemma FillsLonger(row: Row, n: nat, rest: seq<Row>, height: nat, width: nat, size: nat)
    requires FillsLine(row, width, size) && 0 < n <= 256 && height > 0
    requires if n < height then FillsPage(rest, height - n, width, size) else rest == []
    ensures FillsPage(Copies(n, row) + rest, height, width, size)
  {
    hide FillsLine;
  }

  lemma {:induction false} RowsShape(data: seq<byte>, pos: nat, y: nat, height: nat, width: nat, size: nat)
    requires width > 0 && RowsFrom(data, pos, y, height, width, size).Some? && y < height
    ensures FillsPage(RowsFrom(data, pos, y, height, width, size).value.value, height - y, width, size)
    decreases |data| - pos
  {
    hide LineFrom, FillsLine, FillsPage, Copies;
    var line := LineFrom(data, pos + 1, 0, width, size).value;
    var repeated := data[pos] as nat;
    LineFills(data, pos + 1, width, size);
    var rest := RowsFrom(data, line.end, y + repeated + 1, height, width, size).value.value;
    if y + repeated + 1 < height {
      RowsShape(data, line.end, y + repeated + 1, height, width, size);
    }
    FillsLonger(line.value, repeated + 1, rest, height - y, width, size);
  }

  lemma LineFills(data: seq<byte>, pos: nat, width: nat, size: nat)
    requires width > 0 && LineFrom(data, pos, 0, width, size).Some?
    ensures FillsLine(LineFrom(data, pos, 0, width, size).value.value, width, size)
  {
    hide LineFrom;
    LineShape(data, pos, 0, width, size);
  }

  /** Every raster of a decoded document has all its rows, each at least its
      width long and overshooting by less than one run, and every value has the
      header's number of bytes. The decoder's 32-bit counters therefore never
      wrap for widths and heights up to 2^32 - 257. */
  lemma {:induction false} RastersFillTheirPages(data: seq<byte>, pos: nat)
    requires pos <= |data| && RastersFrom(data, pos).Some?
    ensures (forall i :: 0 <= i < |RastersFrom(data, pos).value| ==>
               var r := RastersFrom(data, pos).value[i];
               r.height > 0 ==> FillsPage(r.rows, r.height, r.width, r.bitsPerPixel / 8))
    decreases |data| - pos
  {
    hide RowsFrom, FillsPage;
    if pos < |data| {
      var page := RasterAt(data, pos).value;
      var r := page.value;
      if r.height > 0 {
        RowsShape(data, pos + PAGE_HEADER_LEN, 0, r.height, r.width, r.bitsPerPixel / 8);
      }
      RastersFillTheirPages(data, page.end);
    }
  }

  // ---- Dark values outside the page ---------------------------------------------------------

  /** The dark pixels among the first `height` rows and `width` columns. */
  function DarkInside(rows: seq<Row>, height: nat, width: nat): nat {
    if rows == [] then 0 else
      var y := |rows| - 1;
      DarkInside(rows[..y], height, width)
      + if y >= height then 0 else DarkIn(if |rows[y]| <= width then rows[y] else rows[y][..width])
  }

  ghost predicate LightOutside(rows: seq<Row>, height: nat, width: nat) {
    forall y :: 0 <= y < |rows| ==> LightBeyond(rows[y], Limit(y, height, width))
  }

  /** From which column on the values of row `y` are outside the page. */
  function Limit(y: nat, height: nat, width: nat): nat {
    if y < height then width else 0
  }

  ghost predicate LightBeyond(row: Row, width: nat) {
    forall x :: width <= x < |row| ==> !row[x].IsDark()
  }

  lemma RowBeyond(row: Row, width: nat)
    requires width < |row|
    ensures DarkIn(row) >= DarkIn(row[..width])
    ensures DarkIn(row) == DarkIn(row[..width]) <==> LightBeyond(row, width)
  {
    assert row == row[..width] + row[width..];
    DarkAppend(row[..width], row[width..]);
    assert forall x :: width <= x < |row| ==> row[x] == row[width..][x - width];
  }

  lemma RowIsLight(row: Row)
    ensures DarkIn(row) == 0 <==> LightBeyond(row, 0)
  {
  }

  /** The decoder's dark total is that of the page itself if and only if no
      value of an overshooting run, or of a row past the last, is dark. */
  lemma {:induction false} DarkIsInsideIff(rows: seq<Row>, height: nat, width: nat)
    ensures DarkRows(rows) >= DarkInside(rows, height, width)
    ensures DarkRows(rows) == DarkInside(rows, height, width) <==> LightOutside(rows, height, width)
    decreases |rows|
  {
    hide DarkIn, LightBeyond;
    if rows != [] {
      var y := |rows| - 1;
      var limit := if y < height then width else 0;
      DarkIsInsideIff(rows[..y], height, width);
      if y >= height {
        RowIsLight(rows[y]);
      } else if |rows[y]| > width {
        RowBeyond(rows[y], width);
      } else {
        assert LightBeyond(rows[y], width) by {
          NothingBeyond(rows[y], width);
        }
      }
      assert LightOutside(rows, height, width) <==> LightOutside(rows[..y], height, width) && LightBeyond(rows[y], limit);
    }
  }

  lemma NothingBeyond(row: Row, width: nat)
    requires |row| <= width
    ensures LightBeyond(row, width)
  {
  }

  // ---- Overshooting on the bytes -------------------------------------------------------------

  /** How many columns the run at `pos` covers; a white fill takes what is left. */
  function RunLength(data: seq<byte>, pos: nat, left: nat): (n: nat)
    requires pos < |data|
  {
    var c := data[pos] as nat;
    if c == 0x80 then left else if c < 0x80 then c + 1 else 257 - c
  }

  /** No run of the line goes past its width. */
  predicate LineFits(data: seq<byte>, pos: nat, x: nat, width: nat, size: nat)
    requires LineFrom(data, pos, x, width, size).Some?
    decreases |data| - pos
  {
    x < width ==>
      var n := RunLength(data, pos, width - x);
      var end := TakeRun(data, pos, width - x, size).value.end;
      x + n <= width && LineFits(data, end, x + n, width, size)
  }

  /** No line is repeated past the last row, and no run goes past the width. */
  predicate RowsFit(data: seq<byte>, pos: nat, y: nat, height: nat, width: nat, size: nat)
    requires width > 0 && RowsFrom(data, pos, y, height, width, size).Some?
    decreases |data| - pos
  {
    y < height ==>
      var repeated := data[pos] as nat;
      && LineFits(data, pos + 1, 0, width, size)
      && y + repeated + 1 <= height
      && RowsFit(data, LineFrom(data, pos + 1, 0, width, size).value.end, y + repeated + 1, height, width, size)
  }

  lemma RunHasItsLength(data: seq<byte>, pos: nat, left: nat, size: nat)
    requires TakeRun(data, pos, left, size).Some?
    ensures |TakeRun(data, pos, left, size).value.value| == RunLength(data, pos, left)
  {
    hide Literals;
  }

  /** A line's runs fit if and only if it expands to exactly its width. */
  lemma {:induction false} LineFitsIff(data: seq<byte>, pos: nat, x: nat, width: nat, size: nat)
    requires LineFrom(data, pos, x, width, size).Some? && x <= width
    ensures LineFits(data, pos, x, width, size) <==> x + |LineFrom(data, pos, x, width, size).value.value| == width
    decreases |data| - pos
  {
    hide TakeRun, RunLength;
    if x < width {
      var run := TakeRun(data, pos, width - x, size).value;
      LineUnfolds(data, pos, x, width, size);
      RunShape(data, pos, width - x, size);
      hide LineFrom, LineFits;
      if x + |run.value| <= width {
        LineFitsIff(data, run.end, x + |run.value|, width, size);
      }
    }
  }

  /** The first run of a line and the rest of it. */
  lemma LineUnfolds(data: seq<byte>, pos: nat, x: nat, width: nat, size: nat)
    requires LineFrom(data, pos, x, width, size).Some? && x < width
    ensures TakeRun(data, pos, width - x, size).Some?
    ensures (var run := TakeRun(data, pos, width - x, size).value;
             && |run.value| == RunLength(data, pos, width - x)
             && LineFrom(data, run.end, x + |run.value|, width, size).Some?
             && LineFrom(data, pos, x, width, size).value.value
                == run.value + LineFrom(data, run.end, x + |run.value|, width, size).value.value
             && (LineFits(data, pos, x, width, size)
                 <==> x + |run.value| <= width && LineFits(data, run.end, x + |run.value|, width, size)))
  {
    RunHasItsLength(data, pos, width - x, size);
    hide TakeRun, RunLength;
  }

  ghost predicate AllWide(rows: seq<Row>, width: nat) {
    forall y :: 0 <= y < |rows| ==> |rows[y]| == width
  }

  lemma AllWideCopies(row: Row, n: nat, rest: seq<Row>, width: nat)
    requires n > 0
    ensures AllWide(Copies(n, row) + rest, width) <==> |row| == width && AllWide(rest, width)
  {
    var rows := Copies(n, row) + rest;
    assert rows[0] == row;
    assert forall y :: 0 <= y < |rest| ==> rows[n + y] == rest[y];
    assert forall y :: 0 <= y < |rows| ==> rows[y] == if y < n then row else rest[y - n];
  }

  /** A page's lines fit if and only if it expands to exactly its height and
      width. */
  lemma {:induction false} RowsFitIff(data: seq<byte>, pos: nat, y: nat, height: nat, width: nat, size: nat)
    requires width > 0 && RowsFrom(data, pos, y, height, width, size).Some? && y <= height
    ensures RowsFit(data, pos, y, height, width, size)
       <==> (var rows := RowsFrom(data, pos, y, height, width, size).value.value;
             |rows| == height - y && AllWide(rows, width))
    decreases |data| - pos
  {
    hide LineFrom, LineFits, AllWide, Copies;
    if y < height {
      var repeated := data[pos] as nat;
      var line := LineFrom(data, pos + 1, 0, width, size).value;
      var rest := RowsFrom(data, line.end, y + repeated + 1, height, width, size).value.value;
      LineFitsIff(data, pos + 1, 0, width, size);
      AllWideCopies(line.value, repeated + 1, rest, width);
      if y + repeated + 1 <= height {
        RowsFitIff(data, line.end, y + repeated + 1, height, width, size);
      }
    } else {
      NoRowsAreWide(width);
    }
  }

  lemma NoRowsAreWide(width: nat)
    ensures AllWide([], width)
  {
  }

  /** The values of the run at `pos` from the `from`-th on are not dark. */
  predicate RunLight(data: seq<byte>, pos: nat, size: nat, from: nat)
    requires pos < |data|
  {
    var c := data[pos] as nat;
    if size != 1 || c == 0x80 then true
    else if c < 0x80 then from <= c ==> pos + 1 < |data| && data[pos + 1] >= 128
    else pos + 258 - c <= |data| && forall at :: pos + 1 + from <= at < pos + 258 - c ==> data[at] >= 128
  }

  /** The values of the line at column `limit` and beyond are not dark. */
  predicate LineLight(data: seq<byte>, pos: nat, x: nat, width: nat, size: nat, limit: nat)
    requires LineFrom(data, pos, x, width, size).Some?
    decreases |data| - pos
  {
    x < width ==>
      && RunLight(data, pos, size, Minus(limit, x))
      && LineLight(data, TakeRun(data, pos, width - x, size).value.end, x + RunLength(data, pos, width - x), width, size, limit)
  }

  /** In every line the values past the width are not dark, and a line that is
      repeated past the last row has no dark value at all. */
  predicate RowsLight(data: seq<byte>, pos: nat, y: nat, height: nat, width: nat, size: nat)
    requires width > 0 && RowsFrom(data, pos, y, height, width, size).Some?
    decreases |data| - pos
  {
    y < height ==>
      var repeated := data[pos] as nat;
      && LineLight(data, pos + 1, 0, width, size, if y + repeated + 1 <= height then width else 0)
      && RowsLight(data, LineFrom(data, pos + 1, 0, width, size).value.end, y + repeated + 1, height, width, size)
  }

  function Minus(a: nat, b: nat): nat {
    if a < b then 0 else a - b
  }

  lemma LightBeyondAppend(a: Row, b: Row, width: nat)
    ensures LightBeyond(a + b, width) <==> LightBeyond(a, width) && LightBeyond(b, Minus(width, |a|))
  {
    var row := a + b;
    assert forall x :: 0 <= x < |a| ==> row[x] == a[x];
    assert forall x :: 0 <= x < |b| ==> row[|a| + x] == b[x];
    assert forall x :: |a| <= x < |row| ==> row[x] == b[x - |a|];
  }

  lemma {:induction false} LiteralValue(data: seq<byte>, pos: nat, n: nat, k: nat)
    requires pos + n <= |data| && k < n
    ensures Literals(data, pos, n, 1)[k] == Value([data[pos + k]])
    decreases n
  {
    if k == n - 1 {
      assert data[pos + (n - 1) * 1..pos + n * 1] == [data[pos + k]];
    } else {
      LiteralValue(data, pos, n - 1, k);
    }
  }

  lemma LiteralsLight(data: seq<byte>, pos: nat, n: nat, from: nat)
    requires pos + n <= |data|
    ensures LightBeyond(Literals(data, pos, n, 1), from) <==> forall at :: pos + from <= at < pos + n ==> data[at] >= 128
  {
    var row := Literals(data, pos, n, 1);
    forall k | 0 <= k < n ensures row[k].IsDark() <==> data[pos + k] < 128 {
      LiteralValue(data, pos, n, k);
    }
    hide Literals, Pixel.IsDark;
    if LightBeyond(row, from) {
      forall at | pos + from <= at < pos + n ensures data[at] >= 128 {
        assert !row[at - pos].IsDark();
      }
    }
  }

  lemma CopiesLight(n: nat, p: Pixel, from: nat)
    ensures LightBeyond(Copies(n, p), from) <==> (from < n ==> !p.IsDark())
  {
    assert from < n ==> Copies(n, p)[from] == p;
  }

  lemma RunLightIff(data: seq<byte>, pos: nat, left: nat, size: nat, from: nat)
    requires TakeRun(data, pos, left, size).Some? && size >= 1
    ensures LightBeyond(TakeRun(data, pos, left, size).value.value, from) <==> RunLight(data, pos, size, from)
  {
    hide LightBeyond, Literals, Copies;
    var c := data[pos] as nat;
    if c == 0x80 {
      CopiesLight(left, White, from);
    } else if c < 0x80 {
      CopiesLight(c + 1, Value(data[pos + 1..pos + 1 + size]), from);
    } else if size == 1 {
      LiteralsLight(data, pos + 1, 257 - c, from);
    } else {
      LiteralsAreWide(data, pos + 1, 257 - c, size);
      WideBeyond(Literals(data, pos + 1, 257 - c, size), from);
    }
  }

  lemma WideBeyond(row: Row, from: nat)
    requires forall i :: 0 <= i < |row| ==> row[i].Value? && |row[i].bytes| != 1
    ensures LightBeyond(row, from)
  {
  }

  lemma {:induction false} LineLightIff(data: seq<byte>, pos: nat, x: nat, width: nat, size: nat, limit: nat)
    requires LineFrom(data, pos, x, width, size).Some? && size >= 1
    ensures LightBeyond(LineFrom(data, pos, x, width, size).value.value, Minus(limit, x)) <==> LineLight(data, pos, x, width, size, limit)
    decreases |data| - pos
  {
    hide LightBeyond, RunLight, RunLength, TakeRun;
    if x < width {
      var run := TakeRun(data, pos, width - x, size).value;
      LineUnfolds(data, pos, x, width, size);
      RunLightIff(data, pos, width - x, size, Minus(limit, x));
      hide LineFrom;
      LineLightIff(data, run.end, x + |run.value|, width, size, limit);
      LightBeyondAppend(run.value, LineFrom(data, run.end, x + |run.value|, width, size).value.value, Minus(limit, x));
    } else {
      EmptyIsLight(Minus(limit, x));
    }
  }

  lemma EmptyIsLight(from: nat)
    ensures LightBeyond([], from)
  {
  }

  /** `LightOutside` for rows that start at row `y` of the page. */
  ghost predicate LightFrom(rows: seq<Row>, y: nat, height: nat, width: nat) {
    forall j :: 0 <= j < |rows| ==> LightBeyond(rows[j], Limit(y + j, height, width))
  }

  lemma LightCopies(row: Row, n: nat, rest: seq<Row>, y: nat, height: nat, width: nat)
    requires n > 0 && y < height
    ensures LightFrom(Copies(n, row) + rest, y, height, width)
       <==> LightBeyond(row, if y + n <= height then width else 0) && LightFrom(rest, y + n, height, width)
  {
    hide LightBeyond;
    var rows := Copies(n, row) + rest;
    assert forall j :: 0 <= j < |rows| ==> rows[j] == if j < n then row else rest[j - n];
    assert forall j :: 0 <= j < |rest| ==> rows[n + j] == rest[j];
    LightEverywhere(row, width);
    assert rows[0] == row && rows[n - 1] == row;
    if LightFrom(rows, y, height, width) {
      assert LightBeyond(rows[0], Limit(y, height, width)) && LightBeyond(rows[n - 1], Limit(y + n - 1, height, width));
      forall j | 0 <= j < |rest| ensures LightBeyond(rest[j], Limit(y + n + j, height, width)) {
        assert LightBeyond(rows[n + j], Limit(y + (n + j), height, width));
      }
    }
  }

  lemma LightEverywhere(row: Row, width: nat)
    ensures LightBeyond(row, 0) ==> LightBeyond(row, width)
  {
  }

  lemma {:induction false} RowsLightIff(data: seq<byte>, pos: nat, y: nat, height: nat, width: nat, size: nat)
    requires width > 0 && RowsFrom(data, pos, y, height, width, size).Some? && size >= 1
    ensures LightFrom(RowsFrom(data, pos, y, height, width, size).value.value, y, height, width)
       <==> RowsLight(data, pos, y, height, width, size)
    decreases |data| - pos
  {
    hide LineFrom, LightFrom, LightBeyond, LineLight, Copies;
    if y < height {
      var repeated := data[pos] as nat;
      var line := LineFrom(data, pos + 1, 0, width, size).value;
      var limit := if y + repeated + 1 <= height then width else 0;
      LineLightIff(data, pos + 1, 0, width, size, limit);
      LightCopies(line.value, repeated + 1, RowsFrom(data, line.end, y + repeated + 1, height, width, size).value.value, y, height, width);
      RowsLightIff(data, line.end, y + repeated + 1, height, width, size);
    } else {
      NoRowsAreLight(y, height, width);
    }
  }

  lemma NoRowsAreLight(y: nat, height: nat, width: nat)
    ensures LightFrom([], y, height, width)
  {
  }

  /** The lines of the page at `pos` put no dark value outside it. */
  predicate PageLight(data: seq<byte>, pos: nat)
    requires RasterAt(data, pos).Some?
  {
    RowsLight(data, pos + PAGE_HEADER_LEN, 0, Be(data, pos + 16), Be(data, pos + 12), (data[pos] as nat) / 8)
  }

  predicate PageFits(data: seq<byte>, pos: nat)
    requires RasterAt(data, pos).Some?
  {
    RowsFit(data, pos + PAGE_HEADER_LEN, 0, Be(data, pos + 16), Be(data, pos + 12), (data[pos] as nat) / 8)
  }

  /** The dark total counts the page itself. */
  predicate CountsThePage(r: Raster) {
    PageOf(r).dark == DarkInside(r.rows, r.height, r.width)
  }

  /** The decoder's dark total of a page is that of the page itself if and only
      if its bytes put no dark value past the width of a line and repeat no
      line with a dark value past the last row. */
  lemma PageIsCountedIff(data: seq<byte>, pos: nat)
    requires RasterAt(data, pos).Some?
    ensures CountsThePage(RasterAt(data, pos).value.value) <==> PageLight(data, pos)
  {
    hide RowsFrom, RowsLight, DarkRows, DarkInside, Be, LightFrom, LightOutside;
    var r := RasterAt(data, pos).value.value;
    RowsLightIff(data, pos + PAGE_HEADER_LEN, 0, r.height, r.width, r.bitsPerPixel / 8);
    DarkIsInsideIff(r.rows, r.height, r.width);
    SameLight(r.rows, r.height, r.width);
  }

  lemma SameLight(rows: seq<Row>, height: nat, width: nat)
    ensures LightFrom(rows, 0, height, width) <==> LightOutside(rows, height, width)
  {
    hide LightBeyond;
  }

  /** A page whose runs and lines fit - the guards that would have to hold in
      the decoder - expands to exactly its height and width, and is counted
      right. */
  lemma FittingPageIsExact(data: seq<byte>, pos: nat)
    requires RasterAt(data, pos).Some?
    ensures (var r := RasterAt(data, pos).value.value;
             && (PageFits(data, pos) <==> |r.rows| == r.height && AllWide(r.rows, r.width))
             && (PageFits(data, pos) ==> CountsThePage(r)))
  {
    hide RowsFrom, RowsFit, DarkRows, DarkInside, Be, AllWide, LightOutside;
    var r := RasterAt(data, pos).value.value;
    RowsFitIff(data, pos + PAGE_HEADER_LEN, 0, r.height, r.width, r.bitsPerPixel / 8);
    DarkIsInsideIff(r.rows, r.height, r.width);
    if PageFits(data, pos) {
      ExactIsLight(r.rows, r.height, r.width);
    }
  }

  lemma ExactIsLight(rows: seq<Row>, height: nat, width: nat)
    requires |rows| == height && AllWide(rows, width)
    ensures LightOutside(rows, height, width)
  {
  }

  /** No page from `pos` on puts a dark value outside itself. */
  predicate PagesLight(data: seq<byte>, pos: nat)
    requires pos <= |data| && RastersFrom(data, pos).Some?
    decreases |data| - pos
  {
    pos < |data| ==> PageLight(data, pos) && PagesLight(data, RasterAt(data, pos).value.end)
  }

  /** Every page of an accepted document is counted right if and only if its
      bytes put no dark value outside any page. */
  lemma {:induction false} PagesAreCountedIff(data: seq<byte>, pos: nat)
    requires pos <= |data| && RastersFrom(data, pos).Some?
    ensures (forall i :: 0 <= i < |RastersFrom(data, pos).value| ==> CountsThePage(RastersFrom(data, pos).value[i]))
       <==> PagesLight(data, pos)
    decreases |data| - pos
  {
    hide RasterAt, CountsThePage, PageLight;
    if pos < |data| {
      var page := RasterAt(data, pos).value;
      var rest := RastersFrom(data, page.end).value;
      PageIsCountedIff(data, pos);
      PagesAreCountedIff(data, page.end);
      var all := RastersFrom(data, pos).value;
      assert all == [page.value] + rest;
      assert forall i :: 0 <= i < |rest| ==> all[i + 1] == rest[i];
      assert forall i :: 0 <= i < |all| ==> all[i] == if i == 0 then page.value else rest[i - 1];
      assert all[0] == page.value;
    }
  }

  /** A document of one page, one pixel wide and high, whose only line repeats
      a run of 128 black pixels 256 times. */
  const OVERSHOOT: seq<byte> := (MAGIC + Be32(1) + [8] + Copies(11, 0)) + (Be32(1) + (Be32(1) + OVERSHOOT_TAIL))

  const OVERSHOOT_TAIL: seq<byte> := Be32(600) + Copies(8, 0) + [255, 127, 0]

  lemma OvershootSizes(front: seq<byte>, word: seq<byte>, tail: seq<byte>)
    requires |front| == 24 && |word| == 4 && |tail| == 15
    ensures (var data := front + (word + (word + tail));
             && |data| == 47 && data[24..28] == word && data[28..32] == word
             && (forall i :: 0 <= i < 24 ==> data[i] == front[i])
             && (forall i :: 32 <= i < 47 ==> data[i] == tail[i - 32]))
  {
  }

  lemma OvershootRows(data: seq<byte>)
    requires |data| == 47 && data[44] == 255 && data[45] == 127 && data[46] == 0
    ensures RowsFrom(data, 44, 0, 1, 1, 1) == Some(Part(Copies(256, Copies(128, Value([0]))), 47))
  {
    hide Copies;
    var row := Copies(128, Value([0]));
    assert TakeRun(data, 45, 1, 1) == Some(Part(row, 47)) by {
      assert data[46..47] == [0];
    }
    PrependNothing(row, 47);
    assert LineFrom(data, 47, 128, 1, 1) == Some(Part([], 47));
    assert LineFrom(data, 45, 0, 1, 1) == Some(Part(row, 47));
    PrependNothing(Copies(256, row), 47);
    assert RowsFrom(data, 47, 256, 1, 1, 1) == Some(Part([], 47));
  }

  lemma PrependNothing<T>(front: seq<T>, end: nat)
    ensures Prepend(front, Some(Part([], end))) == Some(Part(front, end))
  {
    assert front + [] == front;
  }

  lemma {:induction false} DarkInsideCopies(row: Row, n: nat)
    requires |row| > 0 && n > 0
    ensures DarkInside(Copies(n, row), 1, 1) == if row[0].IsDark() then 1 else 0
    decreases n
  {
    assert Copies(n, row)[..n - 1] == Copies(n - 1, row);
    if n == 1 {
      assert row[..1] == [] + [row[0]];
      DarkOne([], row[0]);
      WideIsLight([]);
      if |row| == 1 {
        assert row[..1] == row;
      }
    } else {
      DarkInsideCopies(row, n - 1);
    }
  }

  function OvershootRaster(data: seq<byte>): Raster
    requires |data| == 47
  {
    Raster(8, 1, 1, Be(data, 32), Copies(256, Copies(128, Value([0]))))
  }

  lemma OvershootPages(data: seq<byte>)
    requires |data| == 47 && data[12] == 8 && data[44] == 255 && data[45] == 127 && data[46] == 0
    requires Be(data, 24) == Be(data, 28) == 1
    ensures RastersFrom(data, 12) == Some([OvershootRaster(data)])
  {
    OvershootRows(data);
    hide RowsFrom, Copies, Be;
    assert RasterAt(data, 12) == Some(Part(OvershootRaster(data), 47));
    assert RastersFrom(data, 47) == Some([]);
    assert [OvershootRaster(data)] + [] == [OvershootRaster(data)];
  }

  lemma OvershootDark(r: Raster)
    requires r.rows == Copies(256, Copies(128, Value([0])))
    ensures DarkInside(r.rows, 1, 1) == 1 && DarkRows(r.rows) == 256 * 128
  {
    hide DarkInside, DarkRows, DarkIn, Copies;
    var row := Copies(128, Value([0]));
    DarkInsideCopies(row, 256);
    DarkCopies(row, 256);
    DarkOfCopies(Value([0]), 128);
  }

  lemma OvershootIsCounted()
    ensures Decoded(OVERSHOOT).Some?
    ensures (var rasters := Decoded(OVERSHOOT).value.1;
             && |rasters| == 1 && rasters[0].height == rasters[0].width == 1
             && DarkInside(rasters[0].rows, 1, 1) == 1
             && DarkRows(rasters[0].rows) == 256 * 128)
  {
    hide RastersFrom, Copies, DarkInside, DarkRows, FromBe32, Be32;
    var front := MAGIC + Be32(1) + [8] + Copies(11, 0);
    OvershootSizes(front, Be32(1), OVERSHOOT_TAIL);
    assert front[12] == 8 && front[..8] == MAGIC;
    assert OVERSHOOT[..8] == front[..8];
    assert OVERSHOOT_TAIL[12] == 255 && OVERSHOOT_TAIL[13] == 127 && OVERSHOOT_TAIL[14] == 0;
    OvershootPages(OVERSHOOT);
    OvershootDark(OvershootRaster(OVERSHOOT));
  }
}
