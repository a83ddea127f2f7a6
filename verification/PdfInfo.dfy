/** Reading the page list that `gs -dPDFINFO` prints. */
module PdfInfo {
  import opened Common
  import opened Text
  import opened PdfPages

  /** The rotation after a MediaBox, normalised; absent is 0. */
  function ParseRotate(tail: string): (r: Option<nat>)
    ensures r.Some? ==> r.value in {0, 90, 180, 270}
  {
    match SplitOnce(tail, "Rotate =")
    case None => Some(0)
    case Some((_, value)) =>
      match ParseI64(FirstWord(value))
      case None => None
      case Some(degrees) => Normalised(degrees)
  }

  function Normalised(degrees: int): (r: Option<nat>)
    ensures r.Some? <==> degrees % 90 == 0
    ensures r.Some? ==> r.value in {0, 90, 180, 270}
  {
    if degrees % 90 != 0 then None else Some(degrees % 360)
  }

  function Abs(x: real): real {
    if x < 0.0 then -x else x
  }

  function ParseReals(words: seq<string>): (r: Option<seq<real>>)
    ensures r.Some? ==> |r.value| == |words|
    ensures r.Some? <==> forall i :: 0 <= i < |words| ==> ParseReal(words[i]).Some?
    ensures r.Some? ==> forall i :: 0 <= i < |words| ==> ParseReal(words[i]) == Some(r.value[i])
  {
    if words == [] then Some([])
    else match ParseReal(words[0])
      case None => None
      case Some(x) =>
        match ParseReals(words[1..])
        case None => None
        case Some(xs) => Some([x] + xs)
  }

  /** `number` stands between `Page ` and ` MediaBox: [`, `after` behind the
      bracket. */
  function ParsePageLine(number: string, after: string): (r: Option<PageGeometry>)
    ensures r.Some? ==> HasArea(r.value)
  {
    match ParseU32(Trim(number))
    case None => None
    case Some(n) =>
      match SplitOnce(after, "]")
      case None => None
      case Some((mediaBox, tail)) =>
        match ParseReals(Words(mediaBox))
        case None => None
        case Some(values) =>
          if |values| != 4 then None else
          var width, height := Abs(values[2] - values[0]), Abs(values[3] - values[1]);
          if !(width > 0.0 && height > 0.0) then None else
          match ParseRotate(tail)
          case None => None
          case Some(rotate) => Some(PageGeometry(n, width, height, rotate))
  }

  predicate HasArea(page: PageGeometry) {
    page.mediaWidth > 0.0 && page.mediaHeight > 0.0 && page.rotate in {0, 90, 180, 270}
  }

  // ---- The lines of a listing -----------------------------------------------------------

  function Declared(line: string): Option<string> {
    match StripPrefix(line, "File has ")
    case None => None
    case Some(rest) => Some(FirstWord(rest))
  }

  function PageText(line: string): Option<(string, string)> {
    if Declared(line).Some? then None
    else match StripPrefix(line, "Page ")
      case None => None
      case Some(rest) => SplitOnce(rest, " MediaBox: [")
  }

  /** What the lines say, in order: the declared counts, and the pages. */
  function Declarations(lines: seq<string>): seq<string> {
    if lines == [] then [] else
      var front := Declarations(lines[..|lines| - 1]);
      match Declared(Trim(lines[|lines| - 1]))
      case None => front
      case Some(count) => front + [count]
  }

  function PageTexts(lines: seq<string>): seq<(string, string)> {
    if lines == [] then [] else
      var front := PageTexts(lines[..|lines| - 1]);
      match PageText(Trim(lines[|lines| - 1]))
      case None => front
      case Some(text) => front + [text]
  }

  predicate PageReads(texts: seq<(string, string)>, i: nat)
    requires i < |texts|
  {
    var page := ParsePageLine(texts[i].0, texts[i].1);
    page.Some? && page.value.number == i + 1
  }

  predicate AllRead(texts: seq<(string, string)>) {
    forall i :: 0 <= i < |texts| ==> PageReads(texts, i)
  }

  predicate AllParse(counts: seq<string>) {
    forall i :: 0 <= i < |counts| ==> ParseU32(counts[i]).Some?
  }

  /** Every page line reads, in order from 1, and every declared count. */
  predicate Readable(lines: seq<string>) {
    AllRead(PageTexts(lines)) && AllParse(Declarations(lines))
  }

  /** The last declared count, if any, is the number of pages. */
  predicate CountAgrees(lines: seq<string>) {
    var counts := Declarations(lines);
    counts != [] ==> ParseU32(counts[|counts| - 1]) == Some(|PageTexts(lines)|)
  }

  predicate WellFormed(lines: seq<string>) {
    Readable(lines) && CountAgrees(lines) && PageTexts(lines) != []
  }

  /** The pages the texts stand for. */
  predicate ArePages(texts: seq<(string, string)>, pages: seq<PageGeometry>) {
    && |pages| == |texts|
    && forall i :: 0 <= i < |pages| ==> ParsePageLine(texts[i].0, texts[i].1) == Some(pages[i])
  }

  lemma {:induction false} ReadablePrefix(lines: seq<string>, n: nat)
    requires n <= |lines| && Readable(lines)
    ensures Readable(lines[..n])
    decreases |lines|
  {
    hide ParsePageLine, Trim, PageText, Declared;
    if n == |lines| {
      assert lines[..n] == lines;
    } else {
      var init := lines[..|lines| - 1];
      assert forall i :: 0 <= i < |PageTexts(init)| ==> PageTexts(lines)[i] == PageTexts(init)[i] && PageReads(PageTexts(lines), i);
      assert forall i :: 0 <= i < |Declarations(init)| ==> Declarations(lines)[i] == Declarations(init)[i];
      assert init[..n] == lines[..n];
      ReadablePrefix(init, n);
    }
  }

  /** One more line. */
  lemma LineStep(lines: seq<string>, i: nat)
    requires i < |lines|
    ensures (var line := Trim(lines[i]);
             && PageTexts(lines[..i + 1]) == PageTexts(lines[..i]) + (match PageText(line) case None => [] case Some(text) => [text])
             && Declarations(lines[..i + 1]) == Declarations(lines[..i]) + (match Declared(line) case None => [] case Some(count) => [count]))
    ensures Readable(lines) ==> Readable(lines[..i + 1])
  {
    hide ParsePageLine, Trim, PageText, Declared;
    assert lines[..i + 1][..i] == lines[..i];
    if Readable(lines) {
      ReadablePrefix(lines, i + 1);
    }
  }

  /** One more page line. */
  lemma PageStep(texts: seq<(string, string)>, pages: seq<PageGeometry>, text: (string, string))
    requires AllRead(texts) && ArePages(texts, pages) && Numbered(pages)
    ensures (var page := ParsePageLine(text.0, text.1);
             if page.Some? && page.value.number == |pages| + 1
             then AllRead(texts + [text]) && ArePages(texts + [text], pages + [page.value]) && Numbered(pages + [page.value])
             else !AllRead(texts + [text]))
  {
    hide ParsePageLine;
    var all := texts + [text];
    assert forall i :: 0 <= i < |texts| ==> all[i] == texts[i] && PageReads(texts, i);
    assert AllRead(all) ==> PageReads(all, |texts|);
  }

  lemma CountStep(counts: seq<string>, count: string)
    requires AllParse(counts)
    ensures AllParse(counts + [count]) <==> ParseU32(count).Some?
    ensures LastDeclared(counts + [count]) == ParseU32(count)
  {
    hide ParseU32;
    var all := counts + [count];
    assert forall i :: 0 <= i < |counts| ==> all[i] == counts[i];
    assert all[|counts|] == count;
  }

  lemma PagesHaveArea(texts: seq<(string, string)>, pages: seq<PageGeometry>)
    requires ArePages(texts, pages)
    ensures forall i :: 0 <= i < |pages| ==> HasArea(pages[i])
  {
    forall i | 0 <= i < |pages| ensures HasArea(pages[i]) {
      assert ParsePageLine(texts[i].0, texts[i].1) == Some(pages[i]);
    }
  }

  /** The listed pages, or `None` for a listing that is refused. */
  method ParsePdfInfo(output: string) returns (r: Option<seq<PageGeometry>>)
    ensures r.Some? <==> WellFormed(Lines(output))
    ensures r.Some? ==> ArePages(PageTexts(Lines(output)), r.value)
    ensures r.Some? ==> Numbered(r.value) && |r.value| > 0 && forall i :: 0 <= i < |r.value| ==> HasArea(r.value[i])
  {
    hide ParsePageLine, PageTexts, Declarations, Trim, ParseU32, AllRead, AllParse, ArePages, LastDeclared, HasArea, Lines, FirstWord, SplitOnce;
    var lines := Lines(output);
    var pages: seq<PageGeometry> := [];
    var declared: Option<nat> := None;
    NothingRead();
    assert lines[..0] == [];
    for i := 0 to |lines|
      invariant ArePages(PageTexts(lines[..i]), pages) && Readable(lines[..i])
      invariant Numbered(pages)
      invariant declared == LastDeclared(Declarations(lines[..i]))
    {
      ghost var texts, counts := PageTexts(lines[..i]), Declarations(lines[..i]);
      assert texts + [] == texts && counts + [] == counts;
      LineStep(lines, i);
      var line := Trim(lines[i]);
      match StripPrefix(line, "File has ") {
        case Some(rest) =>
          assert Declared(line) == Some(FirstWord(rest)) && PageText(line).None?;
          var count := ParseU32(FirstWord(rest));
          CountStep(counts, FirstWord(rest));
          if count.None? {
            return None;
          }
          declared := count;
        case None =>
          match PageText(line) {
            case None =>
            case Some((number, box)) =>
              var page := ParsePageLine(number, box);
              PageStep(texts, pages, (number, box));
              if page.None? || page.value.number != |pages| + 1 {
                return None;
              }
              pages := pages + [page.value];
          }
      }
    }
    assert lines[..|lines|] == lines;
    PagesHaveArea(PageTexts(lines), pages);
    ListingAgrees(lines, pages);
    if pages == [] || (declared.Some? && declared.value != |pages|) {
      return None;
    }
    return Some(pages);
  }

  lemma ListingAgrees(lines: seq<string>, pages: seq<PageGeometry>)
    requires ArePages(PageTexts(lines), pages)
    ensures |pages| == |PageTexts(lines)|
    ensures Readable(lines) ==>
              (CountAgrees(lines) <==> LastDeclared(Declarations(lines)).None? || LastDeclared(Declarations(lines)).value == |pages|)
  {
    hide ParsePageLine, PageTexts, Declarations, ParseU32;
  }

  lemma NothingRead()
    ensures PageTexts([]) == [] && Declarations([]) == []
    ensures AllRead([]) && AllParse([]) && ArePages([], []) && LastDeclared([]) == None
  {
  }

  function LastDeclared(counts: seq<string>): Option<nat> {
    if counts == [] then None else ParseU32(counts[|counts| - 1])
  }

  // ---- A printed listing reads back ------------------------------------------------------

  /** The corners of a box. */
  datatype Box = Box(left: Number, bottom: Number, right: Number, top: Number) {
    predicate Valid() {
      left.Valid() && bottom.Valid() && right.Valid() && top.Valid()
    }

    function Text(): (s: string)
      ensures s != ""
    {
      Spaced(left.Text(), Spaced(bottom.Text(), Spaced(right.Text(), top.Text())))
    }

    function Values(): seq<real>
      requires Valid()
    {
      [left.Value(), bottom.Value(), right.Value(), top.Value()]
    }
  }

  /** A page as Ghostscript prints it: its MediaBox, and its CropBox and
      rotation if it has them. */
  datatype Sheet = Sheet(media: Box, crop: Option<Box>, rotate: Option<int>) {
    predicate Valid() {
      && media.Valid() && (crop.Some? ==> crop.value.Valid())
      && media.left.Value() != media.right.Value() && media.bottom.Value() != media.top.Value()
      && (rotate.Some? ==> rotate.value % 90 == 0 && -I64_LIMIT <= rotate.value < I64_LIMIT)
    }

    function Page(number: nat): PageGeometry
      requires Valid()
    {
      PageGeometry(number,
                   Abs(media.right.Value() - media.left.Value()),
                   Abs(media.top.Value() - media.bottom.Value()),
                   if rotate.Some? then rotate.value % 360 else 0)
    }
  }

  function CropText(crop: Option<Box>): string {
    if crop.Some? then " CropBox: [" + crop.value.Text() + "]" else ""
  }

  function RotateText(rotate: Option<int>): string {
    if rotate.Some? then "    " + "Rotate =" + (" " + Signed(rotate.value)) else ""
  }

  function AfterText(sheet: Sheet): string {
    sheet.media.Text() + "]" + (CropText(sheet.crop) + RotateText(sheet.rotate))
  }

  /** The line of page `number`. */
  function PageLine(sheet: Sheet, number: nat): string {
    "Page " + (Decimal(number) + " MediaBox: [" + AfterText(sheet))
  }

  function CountLine(n: nat): string {
    "File has " + (Decimal(n) + " pages")
  }

  /** The printed page lines, numbered from `first`. */
  function PageLines(sheets: seq<Sheet>, first: nat): string {
    if sheets == [] then "" else PageLine(sheets[0], first) + "\n" + PageLines(sheets[1..], first + 1)
  }

  function Listing(sheets: seq<Sheet>): string {
    CountLine(|sheets|) + "\n" + PageLines(sheets, 1)
  }

  lemma BoxAvoids(box: Box, c: char)
    requires box.Valid() && !IsDigit(c) && c != '.' && c != '-' && c != ' '
    ensures c !in box.Text()
  {
    hide Number.Text;
    NumberAvoids(box.left, c);
    NumberAvoids(box.bottom, c);
    NumberAvoids(box.right, c);
    NumberAvoids(box.top, c);
  }

  lemma BoxReadsBack(box: Box)
    requires box.Valid()
    ensures ParseReals(Words(box.Text())) == Some(box.Values())
  {
    hide Words, Number.Text, Number.Value, Number.Valid, ParseReal;
    var l, b, r, t := box.left.Text(), box.bottom.Text(), box.right.Text(), box.top.Text();
    BoxWords(box);
    NumberReadsBack(box.left);
    NumberReadsBack(box.bottom);
    NumberReadsBack(box.right);
    NumberReadsBack(box.top);
    FourReals([l, b, r, t], box.Values());
  }

  lemma BoxWords(box: Box)
    requires box.Valid()
    ensures Words(box.Text()) == [box.left.Text(), box.bottom.Text(), box.right.Text(), box.top.Text()]
  {
    hide Words, Number.Text, Number.Valid;
    var l, b, r, t := box.left.Text(), box.bottom.Text(), box.right.Text(), box.top.Text();
    NumberIsUnspaced(box.left);
    NumberIsUnspaced(box.bottom);
    NumberIsUnspaced(box.right);
    NumberIsUnspaced(box.top);
    LastWordIs(t);
    WordsOfSpaced(r, t);
    WordsOfSpaced(b, Spaced(r, t));
    WordsOfSpaced(l, Spaced(b, Spaced(r, t)));
  }

  lemma FourReals(words: seq<string>, values: seq<real>)
    requires |words| == |values| == 4
    requires ParseReal(words[0]) == Some(values[0]) && ParseReal(words[1]) == Some(values[1])
    requires ParseReal(words[2]) == Some(values[2]) && ParseReal(words[3]) == Some(values[3])
    ensures ParseReals(words) == Some(values)
  {
    hide ParseReal, ParseReals;
    assert ParseReals(words).Some?;
    var read := ParseReals(words).value;
    assert forall i :: 0 <= i < 4 ==> Some(read[i]) == ParseReal(words[i]) == Some(values[i]);
    assert read == values;
  }

  /** Whatever stands before it, any rotation that is a multiple of 90 is read
      as its remainder of 360, and any other is refused. */
  lemma RotateReadsBack(before: string, degrees: int)
    requires 'R' !in before && -I64_LIMIT <= degrees < I64_LIMIT
    ensures ParseRotate(before + "Rotate =" + (" " + Signed(degrees)))
         == if degrees % 90 == 0 then Some(degrees % 360) else None
  {
    hide Words, Signed, ParseI64, SplitOnce;
    var value := Signed(degrees);
    SignedReadsBack(degrees);
    SplitsAfter(before, "Rotate =", " " + value);
    SpaceBeforeWords(value);
    LastWordIs(value);
    assert FirstWord(" " + value) == value;
  }

  /** Without a rotation the page stands upright. */
  lemma NoRotateReads(tail: string)
    requires 'R' !in tail
    ensures ParseRotate(tail) == Some(0)
  {
    hide SplitOnce;
    NotSplit(tail, "Rotate =");
  }

  lemma TailReadsBack(crop: Option<Box>, rotate: Option<int>)
    requires crop.Some? ==> crop.value.Valid()
    requires rotate.Some? ==> rotate.value % 90 == 0 && -I64_LIMIT <= rotate.value < I64_LIMIT
    ensures ParseRotate(CropText(crop) + RotateText(rotate)) == Some(if rotate.Some? then rotate.value % 360 else 0)
  {
    hide Signed, CropText, ParseRotate;
    var before := CropText(crop);
    CropHasNoR(crop);
    if rotate.Some? {
      RotateReadsBack(before + "    ", rotate.value);
      FourParts(before, "    ", "Rotate =", " " + Signed(rotate.value));
    } else {
      assert before + RotateText(rotate) == before;
      NoRotateReads(before);
    }
  }

  lemma CropHasNoR(crop: Option<Box>)
    requires crop.Some? ==> crop.value.Valid()
    ensures 'R' !in CropText(crop)
  {
    hide Box.Text;
    if crop.Some? {
      BoxAvoids(crop.value, 'R');
    }
  }

  lemma FourParts(a: string, b: string, c: string, d: string)
    ensures a + (b + c + d) == a + b + c + d
  {
  }

  lemma AbsIsPositive(x: real, y: real)
    requires x != y
    ensures Abs(x - y) > 0.0
  {
  }

  lemma TrimmedNumber(number: nat)
    ensures Trim(Decimal(number)) == Decimal(number)
  {
    hide Trim, Decimal;
    DigitsAreUnspaced(Decimal(number));
    TrimmedAlready(Decimal(number));
  }

  lemma PageReadsBack(sheet: Sheet, number: nat)
    requires sheet.Valid() && number < U32
    ensures ParsePageLine(Decimal(number), AfterText(sheet)) == Some(sheet.Page(number))
  {
    hide Words, Decimal, ParsePageLine, ParseRotate, SplitOnce, ParseU32, ParseReals, Trim, Box.Text, CropText, RotateText,
         Number.Value, Abs;
    var box, tail := sheet.media, CropText(sheet.crop) + RotateText(sheet.rotate);
    AbsIsPositive(box.right.Value(), box.left.Value());
    AbsIsPositive(box.top.Value(), box.bottom.Value());
    U32ReadsBack(number);
    TrimmedNumber(number);
    BoxAvoids(box, ']');
    BoxReadsBack(box);
    TailReadsBack(sheet.crop, sheet.rotate);
    SplitsAfter(box.Text(), "]", tail);
    PartsRead(Decimal(number), AfterText(sheet), number, box.Text(), tail, box.Values(), sheet.Page(number).rotate);
  }

  lemma PartsRead(text: string, after: string, number: nat, media: string, tail: string, values: seq<real>, rotate: nat)
    requires ParseU32(Trim(text)) == Some(number)
    requires SplitOnce(after, "]") == Some((media, tail)) && ParseReals(Words(media)) == Some(values)
    requires |values| == 4 && Abs(values[2] - values[0]) > 0.0 && Abs(values[3] - values[1]) > 0.0
    requires ParseRotate(tail) == Some(rotate)
    ensures ParsePageLine(text, after)
         == Some(PageGeometry(number, Abs(values[2] - values[0]), Abs(values[3] - values[1]), rotate))
  {
    hide Words, ParseRotate, SplitOnce, ParseU32, ParseReals, Trim, Abs;
  }

  lemma NewlineFree(sheet: Sheet, number: nat)
    requires sheet.Valid()
    ensures '\n' !in PageLine(sheet, number)
  {
    hide Decimal, Box.Text, CropText, RotateText;
    DigitsAvoid(Decimal(number), '\n');
    BoxAvoids(sheet.media, '\n');
    TailIsNewlineFree(sheet.crop, sheet.rotate);
    var after := AfterText(sheet);
    assert '\n' !in after;
    assert '\n' !in Decimal(number) + " MediaBox: [";
  }

  lemma TailIsNewlineFree(crop: Option<Box>, rotate: Option<int>)
    requires crop.Some? ==> crop.value.Valid()
    ensures '\n' !in CropText(crop) && '\n' !in RotateText(rotate)
  {
    hide Box.Text, Signed;
    if crop.Some? {
      BoxAvoids(crop.value, '\n');
    }
    if rotate.Some? {
      SignedReadsBack(rotate.value);
    }
  }

  lemma TrimmedLine(sheet: Sheet, number: nat)
    ensures Trim(PageLine(sheet, number)) == PageLine(sheet, number)
  {
    hide Decimal, Trim, Box.Text, CropText, RotateText;
    var line, tail := PageLine(sheet, number), "]" + (CropText(sheet.crop) + RotateText(sheet.rotate));
    TailEnds(sheet.crop, sheet.rotate);
    assert line[0] == 'P';
    assert line == "Page " + (Decimal(number) + " MediaBox: [" + sheet.media.Text()) + tail;
    assert line[|line| - 1] == tail[|tail| - 1];
    TrimmedAlready(line);
  }

  lemma TailEnds(crop: Option<Box>, rotate: Option<int>)
    ensures (var tail := "]" + (CropText(crop) + RotateText(rotate)); !IsSpace(tail[|tail| - 1]))
  {
    hide Signed, Box.Text;
    if rotate.Some? {
      SignedReadsBack(rotate.value);
    }
  }

  lemma LineReadsBack(sheet: Sheet, number: nat)
    ensures PageText(PageLine(sheet, number)) == Some((Decimal(number), AfterText(sheet)))
    ensures Declared(PageLine(sheet, number)).None?
  {
    hide Decimal, Trim, SplitOnce, AfterText;
    var n := Decimal(number);
    DigitsAvoid(n, ' ');
    var rest := n + " MediaBox: [" + AfterText(sheet);
    StripsPrefix("Page ", rest);
    SplitsAfter(n, " MediaBox: [", AfterText(sheet));
    assert PageLine(sheet, number)[0] == 'P';
  }

  lemma CountReadsBack(n: nat)
    ensures Declared(Trim(CountLine(n))) == Some(Decimal(n)) && PageText(Trim(CountLine(n))).None?
    ensures '\n' !in CountLine(n)
  {
    hide Decimal, Trim, Words;
    var digits, line := Decimal(n), CountLine(n);
    DigitsAreUnspaced(digits);
    DigitsAvoid(digits, '\n');
    assert line[0] == 'F' && line[|line| - 1] == 's';
    TrimmedAlready(line);
    StripsPrefix("File has ", digits + " pages");
    FirstWordIs(digits, " pages");
    assert FirstWord(digits + " pages") == digits;
  }

  /** The lines of a listing, and the empty text behind its last newline. */
  predicate AreLines(sheets: seq<Sheet>, first: nat, lines: seq<string>) {
    && |lines| == |sheets| + 1
    && (forall i :: 0 <= i < |sheets| ==> lines[i] == PageLine(sheets[i], first + i))
    && lines[|sheets|] == ""
  }

  lemma {:induction false} ListingLines(sheets: seq<Sheet>, first: nat)
    requires forall i :: 0 <= i < |sheets| ==> sheets[i].Valid()
    ensures AreLines(sheets, first, Lines(PageLines(sheets, first)))
    decreases |sheets|
  {
    hide PageLine, AreLines, SplitOnce, Sheet.Valid;
    if sheets == [] {
      NoLines(first);
    } else {
      var line, rest := PageLine(sheets[0], first), PageLines(sheets[1..], first + 1);
      NewlineFree(sheets[0], first);
      FirstLine(line, rest);
      ListingLines(sheets[1..], first + 1);
      LinesStep(sheets, first, Lines(rest));
    }
  }

  lemma FirstLine(line: string, rest: string)
    requires '\n' !in line
    ensures Lines(line + "\n" + rest) == [line] + Lines(rest)
  {
    SplitsAfter(line, "\n", rest);
  }

  lemma NoLines(first: nat)
    ensures AreLines([], first, Lines(""))
  {
  }

  lemma LinesStep(sheets: seq<Sheet>, first: nat, lines: seq<string>)
    requires sheets != [] && AreLines(sheets[1..], first + 1, lines)
    ensures AreLines(sheets, first, [PageLine(sheets[0], first)] + lines)
  {
    hide PageLine;
    var all := [PageLine(sheets[0], first)] + lines;
    forall i | 0 <= i < |sheets| ensures all[i] == PageLine(sheets[i], first + i) {
      assert i > 0 ==> lines[i - 1] == PageLine(sheets[1..][i - 1], first + 1 + (i - 1));
    }
  }

  lemma EmptyLine()
    ensures PageText(Trim("")).None? && Declared(Trim("")).None?
  {
  }

  predicate AreTexts(sheets: seq<Sheet>, texts: seq<(string, string)>) {
    |texts| <= |sheets| && forall i :: 0 <= i < |texts| ==> IsTextOf(texts[i], sheets[i], i)
  }

  predicate IsTextOf(text: (string, string), sheet: Sheet, i: nat) {
    text == (Decimal(i + 1), AfterText(sheet))
  }

  /** The first `n` page lines of a listing, behind its count. */
  lemma {:induction false} ListingTexts(sheets: seq<Sheet>, lines: seq<string>, n: nat)
    requires |lines| == |sheets| + 2 && lines[0] == CountLine(|sheets|) && AreLines(sheets, 1, lines[1..]) && n <= |sheets|
    ensures |PageTexts(lines[..n + 1])| == n && AreTexts(sheets, PageTexts(lines[..n + 1]))
    ensures Declarations(lines[..n + 1]) == [Decimal(|sheets|)]
    decreases n
  {
    hide PageLine, Trim, Decimal, AfterText, PageText, Declared, AreTexts, Readable, PageTexts, Declarations, CountLine;
    if n == 0 {
      assert lines[..0] == [];
      NothingRead();
      CountReadsBack(|sheets|);
      LineStep(lines, 0);
      NoTexts(sheets);
    } else {
      ListingTexts(sheets, lines, n - 1);
      assert lines[n] == lines[1..][n - 1] == PageLine(sheets[n - 1], n);
      TrimmedLine(sheets[n - 1], n);
      LineReadsBack(sheets[n - 1], n);
      LineStep(lines, n);
      TextsStep(sheets, PageTexts(lines[..n]));
    }
  }

  lemma NoTexts(sheets: seq<Sheet>)
    ensures AreTexts(sheets, [])
  {
  }

  lemma TextsStep(sheets: seq<Sheet>, texts: seq<(string, string)>)
    requires AreTexts(sheets, texts) && |texts| < |sheets|
    ensures AreTexts(sheets, texts + [(Decimal(|texts| + 1), AfterText(sheets[|texts|]))])
  {
    hide Decimal, AfterText, IsTextOf;
    var last := (Decimal(|texts| + 1), AfterText(sheets[|texts|]));
    var more := texts + [last];
    LastText(sheets[|texts|], |texts|);
    forall i | 0 <= i < |more| ensures IsTextOf(more[i], sheets[i], i) {
      if i < |texts| {
        assert more[i] == texts[i];
      } else {
        assert more[i] == last;
      }
    }
  }

  lemma LastText(sheet: Sheet, i: nat)
    ensures IsTextOf((Decimal(i + 1), AfterText(sheet)), sheet, i)
  {
    hide Decimal, AfterText;
  }

  function PagesOf(sheets: seq<Sheet>): seq<PageGeometry>
    requires forall i :: 0 <= i < |sheets| ==> sheets[i].Valid()
  {
    seq(|sheets|, i requires 0 <= i < |sheets| => sheets[i].Page(i + 1))
  }

  lemma TextsReadBack(sheets: seq<Sheet>, texts: seq<(string, string)>)
    requires |texts| == |sheets| < U32 && AreTexts(sheets, texts)
    requires forall i :: 0 <= i < |sheets| ==> sheets[i].Valid()
    ensures ArePages(texts, PagesOf(sheets)) && AllRead(texts)
  {
    hide Decimal, AfterText, ParsePageLine, Sheet.Valid;
    forall i | 0 <= i < |texts|
      ensures ParsePageLine(texts[i].0, texts[i].1) == Some(PagesOf(sheets)[i]) && PageReads(texts, i)
    {
      PageReadsBack(sheets[i], i + 1);
      assert IsTextOf(texts[i], sheets[i], i);
    }
  }

  /** A printed listing - decimal boxes anywhere, CropBoxes and rotations where
      pages have them - reads back page by page. */
  lemma ListingReadsBack(sheets: seq<Sheet>)
    requires 0 < |sheets| < U32 && forall i :: 0 <= i < |sheets| ==> sheets[i].Valid()
    ensures WellFormed(Lines(Listing(sheets)))
    ensures ArePages(PageTexts(Lines(Listing(sheets))), PagesOf(sheets))
  {
    hide Lines, PageLines, CountLine, Trim, PageText, Declared, PageTexts, Declarations, PageReads, ArePages, AreTexts,
         PagesOf, Sheet.Valid, ParseU32, Decimal, AllRead;
    var n, lines := |sheets|, Lines(Listing(sheets));
    CountReadsBack(n);
    FirstLine(CountLine(n), PageLines(sheets, 1));
    ListingLines(sheets, 1);
    assert lines[1..] == Lines(PageLines(sheets, 1));
    ListingTexts(sheets, lines, n);
    LineStep(lines, n + 1);
    EmptyLine();
    assert lines[..n + 2] == lines && lines[n + 1] == lines[1..][n] == "";
    assert PageTexts(lines[..n + 1]) + [] == PageTexts(lines[..n + 1]);
    assert Declarations(lines[..n + 1]) + [] == Declarations(lines[..n + 1]);
    U32ReadsBack(n);
    TextsReadBack(sheets, PageTexts(lines));
  }
}
