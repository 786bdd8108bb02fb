/**
 The text the gallery writes into its overlay: the "i / n" counter, built
 from JavaScript's decimal rendering of integers, and the image source,
 taken from the entry's inline `background-image` value or, without one,
 from a placeholder URL that carries the entry's title.
 */
module Display {

  datatype Option<T> = None | Some(value: T)

  predicate IsDigit(c: char) {
    '0' <= c <= '9'
  }

  predicate AllDigits(s: string) {
    forall j :: 0 <= j < |s| ==> IsDigit(s[j])
  }

  function DigitChar(d: nat): (c: char)
    requires d < 10
    ensures IsDigit(c) && c as int - '0' as int == d
  {
    ('0' as int + d) as char
  }

  function DigitValue(c: char): (d: nat)
    requires IsDigit(c)
    ensures d < 10 && DigitChar(d) == c
  {
    c as int - '0' as int
  }

  /** The decimal numeral of `k`, as a template literal renders an integral
      number: digits only, never empty, and no leading zero unless `k` is 0. */
  function Decimal(k: nat): (s: string)
    ensures s != [] && AllDigits(s)
    ensures s[0] == '0' ==> k == 0
    decreases k
  {
    if k < 10 then [DigitChar(k)] else Decimal(k / 10) + [DigitChar(k % 10)]
  }

  /** The number a string of decimal digits denotes. */
  function DecimalValue(s: string): nat
    requires AllDigits(s)
    decreases |s|
  {
    if s == [] then 0 else 10 * DecimalValue(s[..|s| - 1]) + DigitValue(s[|s| - 1])
  }

  /** Reading back the numeral gives the number. */
  lemma {:induction false} DecimalRoundTrip(k: nat)
    ensures DecimalValue(Decimal(k)) == k
    decreases k
  {
    if k >= 10 {
      var p := Decimal(k / 10);
      assert (p + [DigitChar(k % 10)])[..|p|] == p;
      DecimalRoundTrip(k / 10);
    }
  }

  /** Distinct numbers have distinct numerals. */
  lemma DecimalInjective(a: nat, b: nat)
    requires Decimal(a) == Decimal(b)
    ensures a == b
  {
    DecimalRoundTrip(a);
    DecimalRoundTrip(b);
  }

  /** The text between the two numbers of the counter. */
  const Separator: string := " / "

  /** The counter text `${index + 1} / ${images.length}`: the 1-based position
      of the shown entry, then the number of entries. */
  function CounterText(index: nat, count: nat): string {
    Decimal(index + 1) + Separator + Decimal(count)
  }

  /** The length of the longest prefix of `s` made of digits. */
  function DigitRun(s: string): (k: nat)
    ensures k <= |s| && AllDigits(s[..k])
    ensures k < |s| ==> !IsDigit(s[k])
    decreases |s|
  {
    if s == [] || !IsDigit(s[0]) then 0
    else
      var k := 1 + DigitRun(s[1..]);
      assert s[..k] == [s[0]] + s[1..][..k - 1];
      k
  }

  /** Reads a counter text back into the (position, count) pair it shows;
      `None` for any text that is not two numerals around the separator. */
  function ParseCounter(s: string): Option<(nat, nat)> {
    var k := DigitRun(s);
    if k == 0 || |s| < k + |Separator| || s[k..k + |Separator|] != Separator then None
    else
      var rest := s[k + |Separator|..];
      if rest == [] || DigitRun(rest) != |rest| then None
      else
        assert rest[..|rest|] == rest;
        Some((DecimalValue(s[..k]), DecimalValue(rest)))
  }

  lemma {:induction false} DigitRunStopsAt(d: string, t: string)
    requires AllDigits(d)
    requires t == [] || !IsDigit(t[0])
    ensures DigitRun(d + t) == |d|
    decreases |d|
  {
    if d != [] {
      assert (d + t)[1..] == d[1..] + t;
      DigitRunStopsAt(d[1..], t);
    } else {
      assert d + t == t;
    }
  }

  /** The counter written for entry `index` of `count` reads back as the
      1-based position `index + 1` and the count. */
  lemma CounterRoundTrip(index: nat, count: nat)
    ensures ParseCounter(CounterText(index, count)) == Some((index + 1, count))
  {
    var p, q := Decimal(index + 1), Decimal(count);
    var s := CounterText(index, count);
    assert s == p + (Separator + q);
    DigitRunStopsAt(p, Separator + q);
    assert s[..|p|] == p;
    assert s[|p|..|p| + |Separator|] == Separator;
    assert s[|p| + |Separator|..] == q;
    DigitRunStopsAt(q, []);
    assert q + [] == q;
    DecimalRoundTrip(index + 1);
    DecimalRoundTrip(count);
  }

  /** Two counters read the same only when they show the same position of
      the same number of entries. */
  lemma CounterInjective(i: nat, n: nat, j: nat, m: nat)
    requires CounterText(i, n) == CounterText(j, m)
    ensures i == j && n == m
  {
    CounterRoundTrip(i, n);
    CounterRoundTrip(j, m);
  }

  /** Where a `String.prototype.slice` bound lands in a string of length
      `len`: a negative bound counts from the end, and both are clamped. */
  function SliceBound(x: int, len: nat): (k: nat)
    ensures k <= len
    ensures 0 <= x <= len ==> k == x
    ensures len < x ==> k == len
    ensures x < 0 && 0 <= len + x ==> k == len + x
    ensures x < 0 && len + x < 0 ==> k == 0
  {
    if x < 0 then (if len + x < 0 then 0 else len + x)
    else if x < len then x else len
  }

  /** JavaScript's `s.slice(start, end)`: empty when the end bound does not
      lie after the start bound. */
  function JsSlice(s: string, start: int, end: int): (r: string)
    ensures |r| <= |s|
    ensures 0 <= start <= end <= |s| ==> r == s[start..end]
    ensures 0 <= start && end < 0 && start <= |s| + end ==> r == s[start..|s| + end]
    ensures SliceBound(end, |s|) <= SliceBound(start, |s|) ==> r == []
  {
    var from, to := SliceBound(start, |s|), SliceBound(end, |s|);
    if from < to then s[from..to] else []
  }

  /** `backgroundImage.slice(5, -2)`: drops the first five and the last two
      characters, and gives the empty string for a value of at most seven. */
  function UnwrapUrl(css: string): (u: string)
    ensures 7 <= |css| ==> u == css[5..|css| - 2]
    ensures |css| <= 7 ==> u == []
  {
    JsSlice(css, 5, -2)
  }

  /** How a browser serialises an inline background image set to the URL
      `u`, when `u` holds no double quote, no backslash and no control character (those
      it escapes inside the quotes). */
  function WrapUrl(u: string): string {
    "url(\"" + u + "\")"
  }

  /** The slice takes back exactly the URL the browser wrapped. */
  lemma UnwrapWrapUrl(u: string)
    ensures UnwrapUrl(WrapUrl(u)) == u
  {
    var w := WrapUrl(u);
    assert w[5..|w| - 2] == u;
  }

  /** The fixed beginning of the fallback image URL. */
  const Placeholder: string := "/placeholder.svg?height=600&width=800&query="

  /** The `src` given to the overlay image: the unwrapped inline background
      image when the entry has one (a non-empty string), else the placeholder
      URL followed by the title passed through `encode` (encodeURIComponent). */
  function ImageSource(background: string, title: string, encode: string -> string): string {
    if background != [] then UnwrapUrl(background) else Placeholder + encode(title)
  }

  /** An entry whose inline style is `url("u")` shows the image `u`, whatever
      its title. */
  lemma ImageSourceInline(u: string, title: string, encode: string -> string)
    ensures ImageSource(WrapUrl(u), title, encode) == u
  {
    UnwrapWrapUrl(u);
  }

  /** An entry without an inline image shows the placeholder endpoint with the
      encoded title as its query, and nothing else. */
  lemma ImageSourceFallback(title: string, encode: string -> string)
    ensures var src := ImageSource([], title, encode);
      |src| >= |Placeholder| && src[..|Placeholder|] == Placeholder
      && src[|Placeholder|..] == encode(title)
  {
  }
}
