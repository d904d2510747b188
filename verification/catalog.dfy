/**
 * The verse catalog as the bot consults it: a dictionary keyed by strings of the
 * form "day<n>" (n in decimal), and the template that renders one verse into the
 * text a recipient is sent. Which days the catalog holds is left open: nothing
 * here assumes its keys are contiguous.
 */
module Catalog {
  import opened Wrappers

  /** One catalog entry: the verse and its three companion texts. */
  datatype Verse = Verse(verse: string, translationEn: string, translationHi: string, expanded: string)

  type Catalog = map<string, Verse>

  predicate IsDigit(c: char) {
    '0' <= c <= '9'
  }

  predicate AllDigits(s: string) {
    forall i :: 0 <= i < |s| ==> IsDigit(s[i])
  }

  function DigitChar(d: nat): (c: char)
    requires d < 10
    ensures IsDigit(c)
  {
    (48 + d) as char
  }

  /** The decimal notation of n without leading zeros, as Python formats an int. */
  function Decimal(n: nat): (s: string)
    ensures |s| > 0 && AllDigits(s)
  {
    if n < 10 then [DigitChar(n)] else Decimal(n / 10) + [DigitChar(n % 10)]
  }

  /** The number a string of decimal digits denotes. */
  function Value(s: string): nat
    requires AllDigits(s)
  {
    if s == [] then 0 else Value(s[..|s| - 1]) * 10 + (s[|s| - 1] as int - 48)
  }

  /** Reading back the decimal notation of n gives n. */
  lemma {:induction false} DecimalRoundTrip(n: nat)
    ensures Value(Decimal(n)) == n
  {
    if n >= 10 {
      var s := Decimal(n);
      assert s[..|s| - 1] == Decimal(n / 10);
      DecimalRoundTrip(n / 10);
    }
  }

  /** The catalog key of day n: "day1", "day2", ... */
  function DayKey(n: nat): string {
    "day" + Decimal(n)
  }

  /** Whether the catalog has an entry for day n. */
  predicate HasDay(verses: Catalog, n: nat) {
    DayKey(n) in verses
  }

  /** Distinct days have distinct keys, so each day reads its own catalog entry. */
  lemma DayKeyInjective(n: nat, m: nat)
    ensures DayKey(n) == DayKey(m) ==> n == m
  {
    if DayKey(n) == DayKey(m) {
      assert Decimal(n) == DayKey(n)[3..];
      assert Decimal(m) == DayKey(m)[3..];
      DecimalRoundTrip(n);
      DecimalRoundTrip(m);
    }
  }

  const DayHeader := "📖 Day "

  /** The reply for day n carrying verse v. */
  function Render(n: nat, v: Verse): string {
    DayHeader + Decimal(n) + VerseBody(v)
  }

  /** Everything in a reply after the day number. */
  function VerseBody(v: Verse): (body: string)
    ensures body != [] && !IsDigit(body[0])
  {
    " Verse:\n\n"
    + v.verse + "\n\n"
    + "🌐 English: " + v.translationEn + "\n"
    + "🇮🇳 Hindi: " + v.translationHi + "\n\n"
    + "✨ Meaning:\n" + v.expanded
  }

  /** The longest run of digits at the start of s. */
  function LeadingDigits(s: string): (d: string)
    ensures AllDigits(d) && d <= s
    ensures d == s || !IsDigit(s[|d|])
  {
    if s != [] && IsDigit(s[0]) then [s[0]] + LeadingDigits(s[1..]) else []
  }

  /** The day number a rendered reply announces in its header, if any. */
  function NamedDay(msg: string): Option<nat> {
    if |msg| >= |DayHeader| && msg[..|DayHeader|] == DayHeader then
      var ds := LeadingDigits(msg[|DayHeader|..]);
      if ds == [] then None else Some(Value(ds))
    else
      None
  }

  lemma {:induction false} LeadingDigitsOf(d: string, t: string)
    requires AllDigits(d)
    requires t == [] || !IsDigit(t[0])
    ensures LeadingDigits(d + t) == d
  {
    if d == [] {
      assert d + t == t;
    } else {
      assert (d + t)[1..] == d[1..] + t;
      LeadingDigitsOf(d[1..], t);
    }
  }

  /** The reply rendered for day n announces exactly day n, whatever the verse. */
  lemma RenderNamesDay(n: nat, v: Verse)
    ensures NamedDay(Render(n, v)) == Some(n)
  {
    var rest := VerseBody(v);
    var msg := Render(n, v);
    assert msg == DayHeader + (Decimal(n) + rest);
    assert msg[|DayHeader|..] == Decimal(n) + rest;
    LeadingDigitsOf(Decimal(n), rest);
    DecimalRoundTrip(n);
  }

  /** Replies for different days are different texts. */
  lemma RenderDistinguishesDays(n: nat, v: Verse, m: nat, w: Verse)
    ensures n != m ==> Render(n, v) != Render(m, w)
  {
    RenderNamesDay(n, v);
    RenderNamesDay(m, w);
  }
}
