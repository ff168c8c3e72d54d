/**
 * Calendar instants and the date normaliser `extrair_data`
 * (Parecer-Requisitos.py, lines 116-136).
 *
 * `datetime.strptime` is modelled on the zero-padded grammar of its four
 * format strings: each directive is a fixed-width run of the ASCII digits
 * `0`-`9` (`%d %m %H %M %S`: two, `%Y`: four) and each other character of the
 * format, the space included, stands for exactly that character. (Python is
 * more lenient: the format's space matches any run of white space and `\d`
 * matches any Unicode decimal digit; neither is modelled.) The parsed fields
 * must then form a real calendar instant, as `datetime(...)` demands.
 */
module Timestamp {
  import opened Wrappers

  datatype DateTime = DateTime(year: nat, month: nat, day: nat, hour: nat, minute: nat, second: nat)

  predicate IsLeapYear(year: nat) {
    year % 4 == 0 && (year % 100 != 0 || year % 400 == 0)
  }

  function DaysInMonth(year: nat, month: nat): nat {
    if month == 2 then (if IsLeapYear(year) then 29 else 28)
    else if month == 4 || month == 6 || month == 9 || month == 11 then 30
    else 31
  }

  /** The instants Python's `datetime` can represent (whole seconds). */
  predicate Valid(d: DateTime) {
    && 1 <= d.year <= 9999
    && 1 <= d.month <= 12
    && 1 <= d.day <= DaysInMonth(d.year, d.month)
    && d.hour < 24 && d.minute < 60 && d.second < 60
  }

  predicate IsMidnight(d: DateTime) {
    d.hour == 0 && d.minute == 0 && d.second == 0
  }

  function AtMidnight(d: DateTime): DateTime {
    d.(hour := 0, minute := 0, second := 0)
  }

  /** Chronological order: `a < b` on Python datetimes. */
  predicate Before(a: DateTime, b: DateTime) {
    || a.year < b.year
    || (a.year == b.year && a.month < b.month)
    || (a.year == b.year && a.month == b.month && a.day < b.day)
    || (a.year == b.year && a.month == b.month && a.day == b.day && a.hour < b.hour)
    || (a.year == b.year && a.month == b.month && a.day == b.day && a.hour == b.hour && a.minute < b.minute)
    || (a.year == b.year && a.month == b.month && a.day == b.day && a.hour == b.hour && a.minute == b.minute
        && a.second < b.second)
  }

  /** `a <= b` on Python datetimes. */
  predicate NotAfter(a: DateTime, b: DateTime) {
    !Before(b, a)
  }

  /** `Before` is a strict total order, so a maximum of finitely many instants is well defined. */
  lemma BeforeIsStrictTotalOrder(a: DateTime, b: DateTime, c: DateTime)
    ensures !Before(a, a)
    ensures Before(a, b) ==> !Before(b, a)
    ensures Before(a, b) && Before(b, c) ==> Before(a, c)
    ensures a == b || Before(a, b) || Before(b, a)
  {
  }

  // ---------------------------------------------------------------------------
  // Fixed-width decimal fields

  predicate IsDigit(c: char) {
    '0' <= c <= '9'
  }

  predicate AllDigits(s: string) {
    forall i :: 0 <= i < |s| ==> IsDigit(s[i])
  }

  function DigitChar(n: nat): char
    requires n < 10
  {
    ('0' as int + n) as char
  }

  /** The number a run of decimal digits denotes. */
  function DigitsValue(s: string): nat
    requires AllDigits(s)
  {
    if |s| == 0 then 0 else 10 * DigitsValue(s[..|s| - 1]) + (s[|s| - 1] as int - '0' as int)
  }

  function Pow10(n: nat): nat {
    if n == 0 then 1 else 10 * Pow10(n - 1)
  }

  /** The `width` lowest decimal digits of `n`, zero-padded on the left (`%02d`, `%04d`). */
  function Pad(n: nat, width: nat): (r: string)
    ensures |r| == width && AllDigits(r)
  {
    if width == 0 then "" else Pad(n / 10, width - 1) + [DigitChar(n % 10)]
  }

  /** Reading back a padded number gives the number, when it fits the width. */
  lemma {:induction false} PadValue(n: nat, width: nat)
    requires n < Pow10(width)
    ensures DigitsValue(Pad(n, width)) == n
  {
    if width > 0 {
      var p := Pad(n / 10, width - 1);
      PadValue(n / 10, width - 1);
      assert Pad(n, width)[..width - 1] == p;
    }
  }

  lemma {:induction false} DigitsValueBound(s: string)
    requires AllDigits(s)
    ensures DigitsValue(s) < Pow10(|s|)
  {
    if |s| > 0 {
      DigitsValueBound(s[..|s| - 1]);
    }
  }

  /** Re-padding the value of a digit run to its own width gives the run back. */
  lemma {:induction false} PadDigitsValue(s: string)
    requires AllDigits(s)
    ensures Pad(DigitsValue(s), |s|) == s
  {
    if |s| > 0 {
      var init := s[..|s| - 1];
      var d := s[|s| - 1] as int - '0' as int;
      PadDigitsValue(init);
      var n := DigitsValue(s);
      assert n == 10 * DigitsValue(init) + d;
      assert n / 10 == DigitsValue(init) && n % 10 == d;
      assert s == init + [s[|s| - 1]];
    }
  }

  // ---------------------------------------------------------------------------
  // Format strings as token sequences

  /** One piece of a `strptime` format: a literal character or a fixed-width number directive. */
  datatype Token = Literal(c: char) | Number(width: nat)

  function FieldCount(fmt: seq<Token>): nat {
    if |fmt| == 0 then 0 else (if fmt[0].Number? then 1 else 0) + FieldCount(fmt[1..])
  }

  function TotalWidth(fmt: seq<Token>): nat {
    if |fmt| == 0 then 0
    else (match fmt[0] case Literal(_) => 1 case Number(w) => w) + TotalWidth(fmt[1..])
  }

  /** Every number fits its directive's width. */
  predicate Fits(fmt: seq<Token>, values: seq<nat>)
    requires |values| == FieldCount(fmt)
  {
    if |fmt| == 0 then true
    else match fmt[0]
      case Literal(_) => Fits(fmt[1..], values)
      case Number(w) => values[0] < Pow10(w) && Fits(fmt[1..], values[1..])
  }

  /**
   * Matches the whole of `s` against `fmt` and returns the numbers read, in
   * format order; `None` when any character is out of place or left over.
   */
  function Scan(fmt: seq<Token>, s: string): (r: Option<seq<nat>>)
    ensures r.Some? ==> |r.value| == FieldCount(fmt) && |s| == TotalWidth(fmt)
    decreases |fmt|
  {
    if |fmt| == 0 then (if |s| == 0 then Some([]) else None)
    else match fmt[0]
      case Literal(c) =>
        if |s| > 0 && s[0] == c then Scan(fmt[1..], s[1..]) else None
      case Number(w) =>
        if w <= |s| && AllDigits(s[..w]) then
          match Scan(fmt[1..], s[w..])
          case Some(rest) => Some([DigitsValue(s[..w])] + rest)
          case None => None
        else None
  }

  /** `strftime`: the text `fmt` produces for the given numbers. */
  function Render(fmt: seq<Token>, values: seq<nat>): string
    requires |values| == FieldCount(fmt)
  {
    if |fmt| == 0 then ""
    else match fmt[0]
      case Literal(c) => [c] + Render(fmt[1..], values)
      case Number(w) => Pad(values[0], w) + Render(fmt[1..], values[1..])
  }

  /** Rendering then scanning with the same format gives the numbers back. */
  lemma {:induction false} ScanRender(fmt: seq<Token>, values: seq<nat>)
    requires |values| == FieldCount(fmt) && Fits(fmt, values)
    ensures Scan(fmt, Render(fmt, values)) == Some(values)
  {
    if |fmt| > 0 {
      if fmt[0].Literal? {
        ScanRender(fmt[1..], values);
        ScanRenderLiteral(fmt, values);
      } else {
        ScanRender(fmt[1..], values[1..]);
        ScanRenderNumber(fmt, values);
      }
    }
  }

  /** The step of `ScanRender` past a literal. */
  lemma ScanRenderLiteral(fmt: seq<Token>, values: seq<nat>)
    requires |fmt| > 0 && fmt[0].Literal? && |values| == FieldCount(fmt)
    requires Scan(fmt[1..], Render(fmt[1..], values)) == Some(values)
    ensures Scan(fmt, Render(fmt, values)) == Some(values)
  {
    var s := Render(fmt, values);
    assert s == [fmt[0].c] + Render(fmt[1..], values);
    assert s[1..] == Render(fmt[1..], values);
  }

  /** The step of `ScanRender` past a number that fits its width. */
  lemma ScanRenderNumber(fmt: seq<Token>, values: seq<nat>)
    requires |fmt| > 0 && fmt[0].Number? && |values| == FieldCount(fmt) && Fits(fmt, values)
    requires Scan(fmt[1..], Render(fmt[1..], values[1..])) == Some(values[1..])
    ensures Scan(fmt, Render(fmt, values)) == Some(values)
  {
    var w := fmt[0].width;
    var p := Pad(values[0], w);
    var rest := Render(fmt[1..], values[1..]);
    var s := Render(fmt, values);
    assert s == p + rest;
    assert s[..w] == p && s[w..] == rest;
    PadValue(values[0], w);
    assert [values[0]] + values[1..] == values;
  }

  /** Whatever `Scan` accepts is exactly the rendering of the numbers it read. */
  lemma {:induction false} ScanSound(fmt: seq<Token>, s: string)
    requires Scan(fmt, s).Some?
    ensures Fits(fmt, Scan(fmt, s).value)
    ensures Render(fmt, Scan(fmt, s).value) == s
    decreases |fmt|
  {
    if |fmt| > 0 {
      if fmt[0].Literal? {
        ScanSound(fmt[1..], s[1..]);
        ScanSoundLiteral(fmt, s);
      } else {
        ScanSound(fmt[1..], s[fmt[0].width..]);
        ScanSoundNumber(fmt, s);
      }
    }
  }

  /** The step of `ScanSound` past a literal. */
  lemma ScanSoundLiteral(fmt: seq<Token>, s: string)
    requires |fmt| > 0 && fmt[0].Literal? && Scan(fmt, s).Some?
    requires Scan(fmt[1..], s[1..]).Some?
    requires Fits(fmt[1..], Scan(fmt[1..], s[1..]).value)
    requires Render(fmt[1..], Scan(fmt[1..], s[1..]).value) == s[1..]
    ensures Fits(fmt, Scan(fmt, s).value)
    ensures Render(fmt, Scan(fmt, s).value) == s
  {
    assert Scan(fmt, s) == Scan(fmt[1..], s[1..]);
    assert s == [fmt[0].c] + s[1..];
  }

  /** The step of `ScanSound` past a number. */
  lemma ScanSoundNumber(fmt: seq<Token>, s: string)
    requires |fmt| > 0 && fmt[0].Number? && Scan(fmt, s).Some?
    requires fmt[0].width <= |s| && Scan(fmt[1..], s[fmt[0].width..]).Some?
    requires Fits(fmt[1..], Scan(fmt[1..], s[fmt[0].width..]).value)
    requires Render(fmt[1..], Scan(fmt[1..], s[fmt[0].width..]).value) == s[fmt[0].width..]
    ensures Fits(fmt, Scan(fmt, s).value)
    ensures Render(fmt, Scan(fmt, s).value) == s
  {
    var w := fmt[0].width;
    var values := Scan(fmt, s).value;
    var tail := Scan(fmt[1..], s[w..]).value;
    assert values == [DigitsValue(s[..w])] + tail;
    assert values[0] == DigitsValue(s[..w]) && values[1..] == tail;
    PadDigitsValue(s[..w]);
    DigitsValueBound(s[..w]);
    assert s == s[..w] + s[w..];
  }

  // ---------------------------------------------------------------------------
  // The four layouts of `formatos_suportados`

  datatype Layout =
    | DayFirstDateTime   // "%d/%m/%Y %H:%M:%S"
    | DayFirstDate       // "%d/%m/%Y"
    | IsoDateTime        // "%Y-%m-%d %H:%M:%S"
    | IsoDate            // "%Y-%m-%d"
  {
    predicate HasTime() {
      this == DayFirstDateTime || this == IsoDateTime
    }

    function Arity(): nat {
      if HasTime() then 6 else 3
    }
  }

  /** The layouts in the order `extrair_data` tries them. */
  const Layouts: seq<Layout> := [DayFirstDateTime, DayFirstDate, IsoDateTime, IsoDate]

  const DayFirstTokens: seq<Token> := [Number(2), Literal('/'), Number(2), Literal('/'), Number(4)]
  const IsoTokens: seq<Token> := [Number(4), Literal('-'), Number(2), Literal('-'), Number(2)]
  const TimeTokens: seq<Token> := [Literal(' '), Number(2), Literal(':'), Number(2), Literal(':'), Number(2)]

  function Tokens(layout: Layout): seq<Token> {
    match layout
    case DayFirstDateTime => DayFirstTokens + TimeTokens
    case DayFirstDate => DayFirstTokens
    case IsoDateTime => IsoTokens + TimeTokens
    case IsoDate => IsoTokens
  }

  lemma FieldCountAppend(a: seq<Token>, b: seq<Token>)
    ensures FieldCount(a + b) == FieldCount(a) + FieldCount(b)
    ensures TotalWidth(a + b) == TotalWidth(a) + TotalWidth(b)
  {
    if |a| == 0 {
      assert a + b == b;
    } else {
      assert (a + b)[1..] == a[1..] + b;
      FieldCountAppend(a[1..], b);
    }
  }

  lemma {:induction false} FitsAppend(a: seq<Token>, b: seq<Token>, u: seq<nat>, v: seq<nat>)
    requires |u| == FieldCount(a) && |v| == FieldCount(b)
    requires Fits(a, u) && Fits(b, v)
    ensures FieldCount(a + b) == |u + v|
    ensures Fits(a + b, u + v)
  {
    FieldCountAppend(a, b);
    if |a| == 0 {
      assert a + b == b && u + v == v;
    } else {
      assert (a + b)[1..] == a[1..] + b;
      FieldCountAppend(a[1..], b);
      match a[0]
      case Literal(_) =>
        FitsAppend(a[1..], b, u, v);
      case Number(_) =>
        FitsAppend(a[1..], b, u[1..], v);
        assert (u + v)[1..] == u[1..] + v;
    }
  }

  /** A date part: two fixed-width numbers around a two-digit month, each pair separated by `sep`. */
  lemma DateTokensShape(fmt: seq<Token>, wa: nat, sep: char, wc: nat)
    requires fmt == [Number(wa), Literal(sep), Number(2), Literal(sep), Number(wc)]
    ensures FieldCount(fmt) == 3 && TotalWidth(fmt) == wa + wc + 4
  {
    assert fmt[5..] == [] && fmt[4..][1..] == fmt[5..] && fmt[3..][1..] == fmt[4..];
    assert fmt[2..][1..] == fmt[3..] && fmt[1..][1..] == fmt[2..];
    assert FieldCount(fmt[4..]) == 1 && TotalWidth(fmt[4..]) == wc;
    assert FieldCount(fmt[3..]) == 1 && TotalWidth(fmt[3..]) == wc + 1;
    assert FieldCount(fmt[2..]) == 2 && TotalWidth(fmt[2..]) == wc + 3;
    assert FieldCount(fmt[1..]) == 2 && TotalWidth(fmt[1..]) == wc + 4;
  }

  lemma TimeTokensShape()
    ensures FieldCount(TimeTokens) == 3 && TotalWidth(TimeTokens) == 9
  {
    var fmt := TimeTokens;
    assert fmt[6..] == [] && fmt[5..][1..] == fmt[6..] && fmt[4..][1..] == fmt[5..] && fmt[3..][1..] == fmt[4..];
    assert fmt[2..][1..] == fmt[3..] && fmt[1..][1..] == fmt[2..];
    assert FieldCount(fmt[5..]) == 1 && TotalWidth(fmt[5..]) == 2;
    assert FieldCount(fmt[4..]) == 1 && TotalWidth(fmt[4..]) == 3;
    assert FieldCount(fmt[3..]) == 2 && TotalWidth(fmt[3..]) == 5;
    assert FieldCount(fmt[2..]) == 2 && TotalWidth(fmt[2..]) == 6;
    assert FieldCount(fmt[1..]) == 3 && TotalWidth(fmt[1..]) == 8;
  }

  lemma TokensShape(layout: Layout)
    ensures FieldCount(Tokens(layout)) == layout.Arity()
    ensures TotalWidth(Tokens(layout)) == if layout.HasTime() then 19 else 10
  {
    DateTokensShape(DayFirstTokens, 2, '/', 4);
    DateTokensShape(IsoTokens, 4, '-', 2);
    TimeTokensShape();
    match layout
    case DayFirstDateTime => FieldCountAppend(DayFirstTokens, TimeTokens);
    case DayFirstDate =>
    case IsoDateTime => FieldCountAppend(IsoTokens, TimeTokens);
    case IsoDate =>
  }

  /** The numbers a layout writes for an instant, in the layout's order. */
  function Fields(layout: Layout, d: DateTime): (r: seq<nat>)
    ensures |r| == layout.Arity()
  {
    match layout
    case DayFirstDateTime => [d.day, d.month, d.year, d.hour, d.minute, d.second]
    case DayFirstDate => [d.day, d.month, d.year]
    case IsoDateTime => [d.year, d.month, d.day, d.hour, d.minute, d.second]
    case IsoDate => [d.year, d.month, d.day]
  }

  /** The instant built from the numbers read; absent time fields default to zero, as in `strptime`. */
  function Assemble(layout: Layout, v: seq<nat>): DateTime
    requires |v| == layout.Arity()
  {
    match layout
    case DayFirstDateTime => DateTime(v[2], v[1], v[0], v[3], v[4], v[5])
    case DayFirstDate => DateTime(v[2], v[1], v[0], 0, 0, 0)
    case IsoDateTime => DateTime(v[0], v[1], v[2], v[3], v[4], v[5])
    case IsoDate => DateTime(v[0], v[1], v[2], 0, 0, 0)
  }

  /** What a layout keeps of an instant: everything, or the date at midnight. */
  function Truncate(layout: Layout, d: DateTime): DateTime {
    if layout.HasTime() then d else AtMidnight(d)
  }

  /** `d.strftime(layout)`. */
  function Text(layout: Layout, d: DateTime): string {
    TokensShape(layout);
    Render(Tokens(layout), Fields(layout, d))
  }

  /** The canonical rendering `extrair_data` returns: `%d/%m/%Y %H:%M:%S`. */
  function Canonical(d: DateTime): string {
    Text(DayFirstDateTime, d)
  }

  /** `datetime.strptime(s, layout)`, with `None` for a `ValueError`. */
  function ParseWith(layout: Layout, s: string): Option<DateTime> {
    match Scan(Tokens(layout), s)
    case None => None
    case Some(v) =>
      TokensShape(layout);
      var d := Assemble(layout, v);
      if Valid(d) then Some(d) else None
  }

  /**
   * `extrair_data(texto)[0]`: empty text gives `None`; otherwise the layouts are
   * tried in order and the first that parses wins; if none parses, `None`.
   */
  function ParseTimestamp(s: string): (r: Option<DateTime>)
    ensures s == "" ==> r == None
    ensures r.Some? ==> Valid(r.value)
  {
    if s == "" then None
    else if ParseWith(DayFirstDateTime, s).Some? then ParseWith(DayFirstDateTime, s)
    else if ParseWith(DayFirstDate, s).Some? then ParseWith(DayFirstDate, s)
    else if ParseWith(IsoDateTime, s).Some? then ParseWith(IsoDateTime, s)
    else ParseWith(IsoDate, s)
  }

  /**
   * `extrair_data(texto)`: the parsed instant together with its canonical
   * text, or `None` for `(None, None)`. The canonical text parses back to the
   * same instant.
   */
  function ExtractDate(s: string): (r: Option<(DateTime, string)>)
    ensures r.Some? <==> ParseTimestamp(s).Some?
    ensures r.Some? ==> r.value.0 == ParseTimestamp(s).value
    ensures r.Some? ==> ParseTimestamp(r.value.1) == Some(r.value.0)
    ensures r.Some? ==> r.value.1 == Canonical(r.value.0)
  {
    match ParseTimestamp(s)
    case None => None
    case Some(d) =>
      ParseCanonical(d);
      Some((d, Canonical(d)))
  }

  // ---------------------------------------------------------------------------
  // Properties of the layouts and of ParseTimestamp

  lemma FieldsFit(layout: Layout, d: DateTime)
    requires Valid(d)
    ensures FieldCount(Tokens(layout)) == |Fields(layout, d)|
    ensures Fits(Tokens(layout), Fields(layout, d))
  {
    assert Pow10(2) == 100 && Pow10(4) == 10000;
    if layout == DayFirstDateTime || layout == DayFirstDate {
      FitsDate(DayFirstTokens, d.day, d.month, d.year, 2, '/', 4);
      FieldsFitAfterDate(layout, d, DayFirstTokens, [d.day, d.month, d.year]);
    } else {
      FitsDate(IsoTokens, d.year, d.month, d.day, 4, '-', 2);
      FieldsFitAfterDate(layout, d, IsoTokens, [d.year, d.month, d.day]);
    }
  }

  /** `FieldsFit` once the date part is known to fit: the time part, when there is one, fits too. */
  lemma FieldsFitAfterDate(layout: Layout, d: DateTime, date: seq<Token>, u: seq<nat>)
    requires Valid(d)
    requires |u| == FieldCount(date) && Fits(date, u)
    requires Tokens(layout) == if layout.HasTime() then date + TimeTokens else date
    requires Fields(layout, d) == if layout.HasTime() then u + [d.hour, d.minute, d.second] else u
    ensures FieldCount(Tokens(layout)) == |Fields(layout, d)|
    ensures Fits(Tokens(layout), Fields(layout, d))
  {
    if layout.HasTime() {
      FitsTime(d.hour, d.minute, d.second);
      FitsAppend(date, TimeTokens, u, [d.hour, d.minute, d.second]);
    }
  }

  lemma FitsCons(fmt: seq<Token>, x: seq<nat>, v: seq<nat>)
    requires |fmt| > 0 && |v| == FieldCount(fmt[1..]) && Fits(fmt[1..], v)
    requires fmt[0].Literal? ==> x == []
    requires fmt[0].Number? ==> |x| == 1 && x[0] < Pow10(fmt[0].width)
    ensures |x + v| == FieldCount(fmt) && Fits(fmt, x + v)
  {
    if fmt[0].Number? {
      assert (x + v)[1..] == v;
    } else {
      assert x + v == v;
    }
  }

  lemma FitsDate(fmt: seq<Token>, a: nat, b: nat, c: nat, wa: nat, sep: char, wc: nat)
    requires fmt == [Number(wa), Literal(sep), Number(2), Literal(sep), Number(wc)]
    requires a < Pow10(wa) && b < Pow10(2) && c < Pow10(wc)
    ensures FieldCount(fmt) == 3 && Fits(fmt, [a, b, c])
  {
    assert fmt[5..] == [] && fmt[4..][1..] == fmt[5..] && fmt[3..][1..] == fmt[4..];
    assert fmt[2..][1..] == fmt[3..] && fmt[1..][1..] == fmt[2..];
    FitsCons(fmt[4..], [c], []);
    FitsCons(fmt[3..], [], [c]);
    FitsCons(fmt[2..], [b], [c]);
    FitsCons(fmt[1..], [], [b, c]);
    FitsCons(fmt, [a], [b, c]);
  }

  lemma FitsTime(h: nat, m: nat, s: nat)
    requires h < 100 && m < 100 && s < 100
    ensures FieldCount(TimeTokens) == 3 && Fits(TimeTokens, [h, m, s])
  {
    var fmt := TimeTokens;
    assert Pow10(2) == 100;
    assert fmt[6..] == [] && fmt[5..][1..] == fmt[6..] && fmt[4..][1..] == fmt[5..] && fmt[3..][1..] == fmt[4..];
    assert fmt[2..][1..] == fmt[3..] && fmt[1..][1..] == fmt[2..];
    FitsCons(fmt[5..], [s], []);
    FitsCons(fmt[4..], [], [s]);
    FitsCons(fmt[3..], [m], [s]);
    FitsCons(fmt[2..], [], [m, s]);
    FitsCons(fmt[1..], [h], [m, s]);
    FitsCons(fmt, [], [h, m, s]);
  }

  /** A layout parses its own rendering of a valid instant back to what it keeps of it. */
  lemma ParseWithText(layout: Layout, d: DateTime)
    requires Valid(d)
    ensures ParseWith(layout, Text(layout, d)) == Some(Truncate(layout, d))
  {
    FieldsFit(layout, d);
    ScanRender(Tokens(layout), Fields(layout, d));
  }

  /** A layout accepts only renderings of valid instants, and a date-only layout only midnights. */
  lemma ParseWithSound(layout: Layout, s: string)
    requires ParseWith(layout, s).Some?
    ensures Valid(ParseWith(layout, s).value)
    ensures s == Text(layout, ParseWith(layout, s).value)
    ensures !layout.HasTime() ==> IsMidnight(ParseWith(layout, s).value)
  {
    var v := Scan(Tokens(layout), s).value;
    TokensShape(layout);
    ScanSound(Tokens(layout), s);
    FieldsAssemble(layout, v);
    var d := Assemble(layout, v);
    assert ParseWith(layout, s) == Some(d);
    assert Text(layout, d) == Render(Tokens(layout), v);
  }

  /** Writing out the instant assembled from some numbers gives those numbers back. */
  lemma FieldsAssemble(layout: Layout, v: seq<nat>)
    requires |v| == layout.Arity()
    ensures Fields(layout, Assemble(layout, v)) == v
    ensures !layout.HasTime() ==> IsMidnight(Assemble(layout, v))
  {
    match layout
    case DayFirstDateTime => assert Fields(layout, Assemble(layout, v)) == [v[0], v[1], v[2], v[3], v[4], v[5]];
    case DayFirstDate => assert Fields(layout, Assemble(layout, v)) == [v[0], v[1], v[2]];
    case IsoDateTime => assert Fields(layout, Assemble(layout, v)) == [v[0], v[1], v[2], v[3], v[4], v[5]];
    case IsoDate => assert Fields(layout, Assemble(layout, v)) == [v[0], v[1], v[2]];
  }

  /** No text is accepted by two different layouts, so the order of trial never hides a reading. */
  lemma LayoutsExclusive(l1: Layout, l2: Layout, s: string)
    requires ParseWith(l1, s).Some? && ParseWith(l2, s).Some?
    ensures l1 == l2
  {
    LayoutMark(l1, s);
    LayoutMark(l2, s);
  }

  /**
   * What a layout's text gives away: its length says whether there is a time
   * part, and the day-first layouts have '/' at index 2, where the ISO ones
   * have a digit of the year.
   */
  lemma LayoutMark(layout: Layout, s: string)
    requires ParseWith(layout, s).Some?
    ensures |s| == if layout.HasTime() then 19 else 10
    ensures s[2] == '/' <==> (layout == DayFirstDateTime || layout == DayFirstDate)
  {
    TokensShape(layout);
    assert Scan(Tokens(layout), s).Some?;
    if layout == DayFirstDateTime || layout == DayFirstDate {
      DayFirstMark(layout, s);
    } else {
      IsoMark(layout, s);
    }
  }

  lemma DayFirstMark(layout: Layout, s: string)
    requires layout == DayFirstDateTime || layout == DayFirstDate
    requires Scan(Tokens(layout), s).Some?
    ensures |s| > 2 && s[2] == '/'
  {
    var f := Tokens(layout);
    assert f[..5] == DayFirstTokens;
    assert f[0] == Number(2) && f[1] == Literal('/');
    ScanSlashAtTwo(f, s);
  }

  lemma IsoMark(layout: Layout, s: string)
    requires layout == IsoDateTime || layout == IsoDate
    requires Scan(Tokens(layout), s).Some?
    ensures |s| > 2 && IsDigit(s[2])
  {
    var f := Tokens(layout);
    assert f[..5] == IsoTokens;
    assert f[0] == Number(4);
    ScanDigitsAtStart(f, s);
  }

  lemma ScanSlashAtTwo(fmt: seq<Token>, s: string)
    requires |fmt| >= 2 && fmt[0] == Number(2) && fmt[1] == Literal('/')
    requires Scan(fmt, s).Some?
    ensures |s| > 2 && s[2] == '/'
  {
    assert Scan(fmt[1..], s[2..]).Some?;
    assert fmt[1..][0] == Literal('/');
  }

  lemma ScanDigitsAtStart(fmt: seq<Token>, s: string)
    requires |fmt| >= 1 && fmt[0] == Number(4)
    requires Scan(fmt, s).Some?
    ensures |s| >= 4 && IsDigit(s[2])
  {
    assert AllDigits(s[..4]);
    assert s[..4][2] == s[2];
  }

  /** Round trip: every rendering a layout produces is read back by `ParseTimestamp`. */
  lemma ParseRendered(layout: Layout, d: DateTime)
    requires Valid(d)
    ensures ParseTimestamp(Text(layout, d)) == Some(Truncate(layout, d))
  {
    ParseWithText(layout, d);
    ParseTimestampFrom(layout, Text(layout, d));
  }

  /** A text some layout accepts is read by `ParseTimestamp` as that layout reads it. */
  lemma ParseTimestampFrom(layout: Layout, s: string)
    requires ParseWith(layout, s).Some?
    ensures ParseTimestamp(s) == ParseWith(layout, s)
  {
    LayoutMark(layout, s);
    assert s != "";
    forall other: Layout | other != layout
      ensures ParseWith(other, s) == None
    {
      if ParseWith(other, s).Some? {
        LayoutsExclusive(layout, other, s);
      }
    }
  }

  /** The canonical text of a valid instant re-parses to that same instant. */
  lemma ParseCanonical(d: DateTime)
    requires Valid(d)
    ensures ParseTimestamp(Canonical(d)) == Some(d)
  {
    ParseRendered(DayFirstDateTime, d);
  }

  /**
   * Conversely, `ParseTimestamp` accepts nothing but renderings: a text it
   * reads as `d` is one of the four layouts' renderings of `d`, and a
   * date-only rendering only when `d` is at midnight.
   */
  lemma ParseTimestampSound(s: string)
    requires ParseTimestamp(s).Some?
    ensures exists layout: Layout ::
      s == Text(layout, ParseTimestamp(s).value) && (!layout.HasTime() ==> IsMidnight(ParseTimestamp(s).value))
  {
    var d := ParseTimestamp(s).value;
    var layout :=
      if ParseWith(DayFirstDateTime, s).Some? then DayFirstDateTime
      else if ParseWith(DayFirstDate, s).Some? then DayFirstDate
      else if ParseWith(IsoDateTime, s).Some? then IsoDateTime
      else IsoDate;
    ParseWithSound(layout, s);
  }

  /** Date-only texts are read at 00:00:00. */
  lemma DateOnlyIsMidnight(s: string)
    requires ParseTimestamp(s).Some? && |s| == 10
    ensures IsMidnight(ParseTimestamp(s).value)
  {
    var d := ParseTimestamp(s).value;
    ParseTimestampSound(s);
    var layout: Layout :| s == Text(layout, d) && (!layout.HasTime() ==> IsMidnight(d));
    TokensShape(layout);
    FieldsFit(layout, d);
    ScanRender(Tokens(layout), Fields(layout, d));
  }
}
