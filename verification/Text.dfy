/** The text operations of the standard library that the parsers use. */
module Text {
  import opened Common

  predicate IsSpace(c: char) {
    || c == ' ' || '\t' <= c <= '\r'
    || c == '\U{85}' || c == '\U{A0}' || c == '\U{1680}' || '\U{2000}' <= c <= '\U{200A}'
    || c == '\U{2028}' || c == '\U{2029}' || c == '\U{202F}' || c == '\U{205F}' || c == '\U{3000}'
  }

  predicate Unspaced(s: string) {
    forall i :: 0 <= i < |s| ==> !IsSpace(s[i])
  }

  function TrimStart(s: string): string {
    if s != "" && IsSpace(s[0]) then TrimStart(s[1..]) else s
  }

  function TrimEnd(s: string): string {
    if s != "" && IsSpace(s[|s| - 1]) then TrimEnd(s[..|s| - 1]) else s
  }

  function Trim(s: string): string {
    TrimEnd(TrimStart(s))
  }

  function StripPrefix(s: string, prefix: string): Option<string> {
    if prefix <= s then Some(s[|prefix|..]) else None
  }

  predicate StandsAt(s: string, sep: string, i: nat) {
    i + |sep| <= |s| && s[i..i + |sep|] == sep
  }

  /** Where `sep` first stands in `s`, from `i` on. */
  function Find(s: string, sep: string, i: nat): (r: Option<nat>)
    requires i <= |s|
    ensures r.Some? ==> i <= r.value && StandsAt(s, sep, r.value)
    ensures forall j :: i <= j && StandsAt(s, sep, j) ==> r.Some? && r.value <= j
    decreases |s| - i
  {
    if StandsAt(s, sep, i) then Some(i)
    else if i == |s| then None
    else Find(s, sep, i + 1)
  }

  /** What stands before and after the first `sep`. */
  function SplitOnce(s: string, sep: string): Option<(string, string)> {
    match Find(s, sep, 0)
    case None => None
    case Some(i) => Some((s[..i], s[i + |sep|..]))
  }

  function WordEnd(s: string): (n: nat)
    ensures n <= |s| && Unspaced(s[..n])
    ensures n < |s| ==> IsSpace(s[n])
  {
    if s == "" || IsSpace(s[0]) then 0
    else
      var n := 1 + WordEnd(s[1..]);
      assert s[..n] == [s[0]] + s[1..][..n - 1];
      n
  }

  /** The pieces of `s` between white space. */
  function Words(s: string): seq<string>
    decreases |s|
  {
    if s == "" then []
    else if IsSpace(s[0]) then Words(s[1..])
    else [s[..WordEnd(s)]] + Words(s[WordEnd(s)..])
  }

  function FirstWord(s: string): string {
    if Words(s) == [] then "" else Words(s)[0]
  }

  /** The lines of `s`; a carriage return before the end of a line is left on
      it, because every caller trims its lines. */
  function Lines(s: string): (lines: seq<string>)
    ensures |lines| > 0
    decreases |s|
  {
    match Find(s, "\n", 0)
    case None => [s]
    case Some(i) => [s[..i]] + Lines(s[i + 1..])
  }

  // ---- Numbers --------------------------------------------------------------------

  predicate IsDigit(c: char) {
    '0' <= c <= '9'
  }

  predicate AllDigits(s: string) {
    forall i :: 0 <= i < |s| ==> IsDigit(s[i])
  }

  function DigitsValue(s: string): nat
    requires AllDigits(s)
  {
    if s == "" then 0 else DigitsValue(s[..|s| - 1]) * 10 + (s[|s| - 1] as int - '0' as int)
  }

  function ParseDigits(s: string): Option<nat> {
    if s != "" && AllDigits(s) then Some(DigitsValue(s)) else None
  }

  function WithoutPlus(s: string): string {
    if "+" <= s then s[1..] else s
  }

  function ParseU32(s: string): Option<nat> {
    match ParseDigits(WithoutPlus(s))
    case Some(n) => if n < U32 then Some(n) else None
    case None => None
  }

  const I64_LIMIT := 0x8000_0000_0000_0000

  function ParseI64(s: string): Option<int> {
    var negative := "-" <= s;
    match ParseDigits(if negative then s[1..] else WithoutPlus(s))
    case Some(n) =>
      var value: int := if negative then -(n as int) else n;
      if -I64_LIMIT <= value < I64_LIMIT then Some(value) else None
    case None => None
  }

  function TenTo(n: nat): (r: real)
    ensures r > 0.0
  {
    if n == 0 then 1.0 else 10.0 * TenTo(n - 1)
  }

  /** Digits with at most one point among them. */
  function ParseDecimal(s: string): Option<real> {
    match SplitOnce(s, ".")
    case None =>
      (match ParseDigits(s)
       case Some(n) => Some(n as real)
       case None => None)
    case Some((whole, fraction)) =>
      if AllDigits(whole) && AllDigits(fraction) && whole + fraction != ""
      then Some(DigitsValue(whole + fraction) as real / TenTo(|fraction|))
      else None
  }

  function ParseExponent(s: string): Option<int> {
    var negative := "-" <= s;
    match ParseDigits(if negative then s[1..] else WithoutPlus(s))
    case Some(n) => Some(if negative then -(n as int) else n)
    case None => None
  }

  function Scaled(x: real, exponent: int): real {
    if exponent >= 0 then x * TenTo(exponent) else x / TenTo(-exponent)
  }

  /** A decimal and the exponent behind the first `e` or `E`. */
  function ParseUnsigned(s: string): Option<real> {
    var parts := if SplitOnce(s, "e").Some? then SplitOnce(s, "e") else SplitOnce(s, "E");
    match parts
    case None => ParseDecimal(s)
    case Some((mantissa, exponent)) =>
      (match (ParseDecimal(mantissa), ParseExponent(exponent))
       case (Some(x), Some(e)) => Some(Scaled(x, e))
       case _ => None)
  }

  /** Words for infinities and not-a-number are no numbers here: no caller
      accepts them. */
  function ParseReal(s: string): Option<real> {
    if "-" <= s then
      match ParseUnsigned(s[1..])
      case Some(x) => Some(-x)
      case None => None
    else ParseUnsigned(WithoutPlus(s))
  }

  // ---- Written and read back ------------------------------------------------------------

  function Decimal(n: nat): (s: string)
    ensures s != "" && AllDigits(s)
  {
    (if n < 10 then "" else Decimal(n / 10)) + ["0123456789"[n % 10]]
  }

  lemma {:induction false} DecimalReadsBack(n: nat)
    ensures ParseDigits(Decimal(n)) == Some(n)
    decreases n
  {
    var front := if n < 10 then "" else Decimal(n / 10);
    var digit := "0123456789"[n % 10];
    assert digit as int - '0' as int == n % 10;
    if n >= 10 {
      DecimalReadsBack(n / 10);
    }
    OneMoreDigit(front, digit);
  }

  lemma OneMoreDigit(front: string, digit: char)
    requires AllDigits(front) && IsDigit(digit)
    ensures AllDigits(front + [digit])
    ensures DigitsValue(front + [digit]) == DigitsValue(front) * 10 + (digit as int - '0' as int)
  {
    assert (front + [digit])[..|front|] == front;
  }

  lemma DigitsAreUnspaced(s: string)
    requires AllDigits(s)
    ensures Unspaced(s)
  {
    forall i | 0 <= i < |s| ensures !IsSpace(s[i]) {
      assert IsDigit(s[i]);
    }
  }

  lemma DigitsHaveNoSign(s: string)
    requires s != "" && AllDigits(s)
    ensures WithoutPlus(s) == s && !("-" <= s) && '.' !in s
  {
    assert IsDigit(s[0]);
    assert '.' in s ==> IsDigit('.');
  }

  lemma U32ReadsBack(n: nat)
    ensures ParseU32(Decimal(n)) == if n < U32 then Some(n) else None
  {
    hide ParseDigits, Decimal, WithoutPlus;
    DecimalReadsBack(n);
    DigitsHaveNoSign(Decimal(n));
  }

  /** A plus sign changes no number. */
  lemma PlusIsIgnored(n: nat)
    ensures ParseU32("+" + Decimal(n)) == ParseU32(Decimal(n)) && ParseI64("+" + Decimal(n)) == ParseI64(Decimal(n))
  {
    hide Decimal, ParseDigits;
    DigitsHaveNoSign(Decimal(n));
    assert ("+" + Decimal(n))[1..] == Decimal(n);
  }

  /** A signed whole number as it is printed. */
  function Signed(i: int): (s: string)
    ensures s != ""
  {
    if i < 0 then "-" + Decimal(-i) else Decimal(i)
  }

  lemma SignedReadsBack(i: int)
    ensures ParseI64(Signed(i)) == if -0x8000_0000_0000_0000 <= i < 0x8000_0000_0000_0000 then Some(i) else None
    ensures Unspaced(Signed(i)) && 'R' !in Signed(i) && '\n' !in Signed(i)
  {
    hide ParseDigits, Decimal, WithoutPlus;
    var size := if i < 0 then -i else i;
    var digits := Decimal(size);
    DecimalReadsBack(size);
    DigitsHaveNoSign(digits);
    DigitsAreUnspaced(digits);
    DigitsAvoid(digits, 'R');
    DigitsAvoid(digits, '\n');
    assert i < 0 ==> Signed(i)[1..] == digits;
  }

  /** A decimal number as it is printed, with or without a fraction. */
  datatype Number = Number(negative: bool, whole: nat, fraction: string) {
    predicate Valid() {
      AllDigits(fraction)
    }

    function Unsigned(): (s: string)
      ensures s != ""
    {
      Decimal(whole) + if fraction == "" then "" else "." + fraction
    }

    function Text(): (s: string)
      ensures s != ""
    {
      if negative then "-" + Unsigned() else Unsigned()
    }

    function Size(): real
      requires Valid()
    {
      DigitsValue(Decimal(whole) + fraction) as real / TenTo(|fraction|)
    }

    function Value(): real
      requires Valid()
    {
      if negative then -Size() else Size()
    }
  }

  lemma DigitsAvoid(s: string, c: char)
    requires AllDigits(s) && !IsDigit(c)
    ensures c !in s
  {
    assert c in s ==> IsDigit(c);
  }

  lemma UnsignedAvoids(n: Number, c: char)
    requires n.Valid() && !IsDigit(c) && c != '.'
    ensures c !in n.Unsigned()
  {
    DigitsAvoid(Decimal(n.whole), c);
    DigitsAvoid(n.fraction, c);
    hide Decimal;
  }

  lemma NumberAvoids(n: Number, c: char)
    requires n.Valid() && !IsDigit(c) && c != '.' && c != '-'
    ensures c !in n.Text()
  {
    UnsignedAvoids(n, c);
    hide Number.Unsigned;
  }

  lemma NumberIsUnspaced(n: Number)
    requires n.Valid()
    ensures Unspaced(n.Text())
  {
    DigitsAreUnspaced(Decimal(n.whole));
    DigitsAreUnspaced(n.fraction);
    hide Decimal;
  }

  lemma UnsignedReadsBack(n: Number)
    requires n.Valid()
    ensures ParseDecimal(n.Unsigned()) == Some(n.Size())
  {
    hide Decimal, SplitOnce, DigitsValue;
    var whole := Decimal(n.whole);
    DecimalReadsBack(n.whole);
    DigitsAvoid(whole, '.');
    if n.fraction == "" {
      assert whole + "" == whole;
      NotSplit(whole, ".");
    } else {
      SplitsAfter(whole, ".", n.fraction);
      assert whole + "." + n.fraction == whole + ("." + n.fraction);
    }
  }

  /** A printed number reads back. */
  lemma NumberReadsBack(n: Number)
    requires n.Valid()
    ensures ParseReal(n.Text()) == Some(n.Value())
  {
    hide Number.Unsigned, Number.Size, ParseDecimal, SplitOnce;
    var unsigned := n.Unsigned();
    UnsignedReadsBack(n);
    UnsignedAvoids(n, 'e');
    UnsignedAvoids(n, 'E');
    NotSplit(unsigned, "e");
    NotSplit(unsigned, "E");
    UnsignedAvoids(n, '+');
    UnsignedAvoids(n, '-');
    assert ("-" + unsigned)[1..] == unsigned;
  }

  /** What the digits behind a point are worth. */
  function FractionValue(s: string): real
    requires AllDigits(s)
  {
    if s == "" then 0.0 else ((s[0] as int - '0' as int) as real + FractionValue(s[1..])) / 10.0
  }

  lemma DividedTwice(x: real, t: real)
    requires t > 0.0
    ensures x / (10.0 * t) == x / t / 10.0
  {
  }

  /** A decimal is worth its whole part and its fraction. */
  lemma {:induction false} DecimalIsWorth(whole: string, fraction: string)
    requires AllDigits(whole) && AllDigits(fraction)
    ensures DigitsValue(whole + fraction) as real / TenTo(|fraction|) == DigitsValue(whole) as real + FractionValue(fraction)
    decreases |fraction|
  {
    if fraction == "" {
      assert whole + fraction == whole;
    } else {
      var digit, rest := fraction[0], fraction[1..];
      assert IsDigit(digit) && whole + fraction == (whole + [digit]) + rest;
      OneMoreDigit(whole, digit);
      DecimalIsWorth(whole + [digit], rest);
      DividedTwice(DigitsValue(whole + fraction) as real, TenTo(|rest|));
      assert TenTo(|fraction|) == 10.0 * TenTo(|rest|);
    }
  }

  /** So a printed number is read as what it is worth. */
  lemma NumberIsWorth(n: Number)
    requires n.Valid()
    ensures ParseReal(n.Text())
         == Some((if n.negative then -1.0 else 1.0) * (n.whole as real + FractionValue(n.fraction)))
  {
    hide Decimal, ParseReal, TenTo, FractionValue;
    NumberReadsBack(n);
    DecimalReadsBack(n.whole);
    DecimalIsWorth(Decimal(n.whole), n.fraction);
  }

  lemma ExponentReads(exponent: int)
    ensures ParseExponent(Signed(exponent)) == Some(exponent)
    ensures 'e' !in Signed(exponent)
  {
    hide ParseDigits, Decimal, WithoutPlus;
    var size := if exponent < 0 then -exponent else exponent;
    var digits := Decimal(size);
    DecimalReadsBack(size);
    DigitsHaveNoSign(digits);
    DigitsAvoid(digits, 'e');
    assert exponent < 0 ==> Signed(exponent)[1..] == digits;
  }

  lemma NegativeTimes(x: real, t: real)
    requires t > 0.0
    ensures -(x * t) == (-x) * t && -(x / t) == (-x) / t
  {
  }

  lemma NegativeScaled(x: real, exponent: int)
    ensures Scaled(-x, exponent) == -Scaled(x, exponent)
  {
    NegativeTimes(x, TenTo(if exponent >= 0 then exponent else -exponent));
  }

  /** One more in the exponent is ten times as much. */
  lemma ScaledTenfold(x: real, exponent: int)
    ensures Scaled(x, 0) == x
    ensures Scaled(x, exponent + 1) == 10.0 * Scaled(x, exponent)
  {
    ScaledByNothing(x);
    hide Scaled;
    if exponent >= 0 {
      ScaledUp(x, exponent);
    } else {
      var n := -1 - exponent;
      ScaledDown(x, n);
      assert exponent == 0 - n - 1;
    }
  }

  lemma ScaledByNothing(x: real)
    ensures Scaled(x, 0) == x
  {
    OverOne(x);
  }

  lemma ScaledUp(x: real, n: nat)
    ensures Scaled(x, n + 1) == 10.0 * Scaled(x, n)
  {
    TimesTen(x, TenTo(n));
  }

  lemma ScaledDown(x: real, n: nat)
    ensures Scaled(x, 0 - n) == 10.0 * Scaled(x, 0 - n - 1)
  {
    var t := TenTo(n);
    assert TenTo(n + 1) == 10.0 * t;
    Tenth(x, t);
    OverOne(x);
  }

  lemma TimesTen(x: real, t: real)
    ensures x * (10.0 * t) == 10.0 * (x * t)
  {
  }

  lemma Tenth(x: real, t: real)
    requires t > 0.0
    ensures x / t == 10.0 * (x / (10.0 * t))
  {
    DividedTwice(x, t);
  }

  lemma OverOne(x: real)
    ensures x / 1.0 == x && x * 1.0 == x
  {
  }

  lemma UnsignedExponentReadsBack(n: Number, mark: char, exponent: int)
    requires n.Valid() && (mark == 'e' || mark == 'E')
    ensures ParseUnsigned(n.Unsigned() + [mark] + Signed(exponent))
         == Some(Scaled(n.Size(), exponent))
  {
    hide Number.Unsigned, Number.Size, ParseDecimal, SplitOnce, ParseExponent, Signed, Scaled;
    var unsigned := n.Unsigned();
    var sep := if mark == 'e' then "e" else "E";
    var s := unsigned + sep + Signed(exponent);
    assert unsigned + [mark] + Signed(exponent) == s;
    UnsignedReadsBack(n);
    UnsignedAvoids(n, 'e');
    UnsignedAvoids(n, 'E');
    ExponentReads(exponent);
    SplitsAfter(unsigned, sep, Signed(exponent));
    if mark == 'E' {
      NotSplit(s, "e");
    }
  }

  /** With an exponent it is worth that many powers of ten more. */
  lemma ExponentReadsBack(n: Number, mark: char, exponent: int)
    requires n.Valid() && (mark == 'e' || mark == 'E')
    ensures ParseReal(n.Text() + [mark] + Signed(exponent))
         == Some(Scaled(n.Value(), exponent))
  {
    hide Number.Unsigned, Number.Size, ParseUnsigned, Signed, Scaled;
    var unsigned := n.Unsigned() + [mark] + Signed(exponent);
    UnsignedExponentReadsBack(n, mark, exponent);
    NegativeScaled(n.Size(), exponent);
    UnsignedAvoids(n, '+');
    UnsignedAvoids(n, '-');
    assert unsigned[0] == n.Unsigned()[0] && n.Unsigned()[0] in n.Unsigned();
    assert WithoutPlus(unsigned) == unsigned && !("-" <= unsigned);
    var text := n.Text() + [mark] + Signed(exponent);
    assert text == if n.negative then "-" + unsigned else unsigned;
    assert ("-" + unsigned)[1..] == unsigned;
  }

  lemma NotSplit(s: string, sep: string)
    requires sep != "" && sep[0] !in s
    ensures SplitOnce(s, sep).None?
  {
    match Find(s, sep, 0)
    case None =>
    case Some(i) => StandsWithFirst(s, sep, i);
  }

  lemma StandsWithFirst(s: string, sep: string, i: nat)
    requires sep != "" && StandsAt(s, sep, i)
    ensures s[i] == sep[0]
  {
    assert s[i..i + |sep|][0] == s[i];
  }

  /** A separator whose first character does not stand in `a` is found right
      after it. */
  lemma SplitsAfter(a: string, sep: string, b: string)
    requires sep != "" && sep[0] !in a
    ensures SplitOnce(a + sep + b, sep) == Some((a, b))
  {
    var s := a + sep + b;
    assert StandsAt(s, sep, |a|);
    var i := Find(s, sep, 0).value;
    StandsWithFirst(s, sep, i);
    assert forall j :: 0 <= j < |a| ==> s[j] in a;
    assert s[..i] == a && s[i + |sep|..] == b;
  }

  lemma {:induction false} WordEndAt(word: string, rest: string)
    requires Unspaced(word) && (rest == "" || IsSpace(rest[0]))
    ensures WordEnd(word + rest) == |word|
    decreases |word|
  {
    if word == "" {
      assert word + rest == rest;
    } else {
      assert !IsSpace(word[0]);
      assert (word + rest)[1..] == word[1..] + rest;
      WordEndAt(word[1..], rest);
    }
  }

  lemma FirstWordIs(word: string, rest: string)
    requires word != "" && Unspaced(word) && (rest == "" || IsSpace(rest[0]))
    ensures Words(word + rest) == [word] + Words(rest)
  {
    WordEndAt(word, rest);
    var s := word + rest;
    assert !IsSpace(word[0]) && s[0] == word[0];
    assert s[..|word|] == word && s[|word|..] == rest;
  }

  lemma SpaceBeforeWords(s: string)
    ensures Words(" " + s) == Words(s)
  {
    assert (" " + s)[1..] == s;
  }

  lemma TrimmedAlready(s: string)
    requires s != "" && !IsSpace(s[0]) && !IsSpace(s[|s| - 1])
    ensures Trim(s) == s
  {
  }

  function Spaced(word: string, rest: string): string {
    word + (" " + rest)
  }

  lemma WordsOfSpaced(word: string, rest: string)
    requires word != "" && Unspaced(word)
    ensures Words(Spaced(word, rest)) == [word] + Words(rest)
  {
    hide Words;
    FirstWordIs(word, " " + rest);
    SpaceBeforeWords(rest);
  }

  lemma LastWordIs(word: string)
    requires word != "" && Unspaced(word)
    ensures Words(word) == [word]
  {
    FirstWordIs(word, "");
    assert word + "" == word;
  }

  lemma StripsPrefix(prefix: string, rest: string)
    ensures StripPrefix(prefix + rest, prefix) == Some(rest)
  {
  }
}
