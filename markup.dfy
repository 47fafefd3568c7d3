/**
 * The records the pages receive from the feed, and the two HTML fragment
 * builders both pages share: one list item per charge and one block per
 * defendant.
 */
module Markup {
  import opened Results

  /**
   * One feed record, with the two fields a pass computes (`slug`,
   * `verdict_slug`). Records arrive with the feed's own columns; the two
   * computed fields are written before they are read.
   */
  datatype Record = Record(nameFull: string, charge: string, verdict: string, slug: string, verdictSlug: string)

  const LineOpen := "    <li>"
  const SpanOpen := " <span class=\"verdict "
  const LineClose := "</span></li>\n"
  const HeadOpen := "\n<h4 class=\"victim\" id=\""
  const ListClose := "</ul>"

  /**
   * `charge_markup(charge, colon)` of www/death_penalty.js; the one of
   * www/verdict.js is this with `colon` fixed to ":".
   */
  function ChargeMarkup(charge: Record, colon: string): string
  {
    "    <li>" + charge.charge + colon + " <span class=\"verdict " + charge.verdictSlug + "\">" + charge.verdict + "</span></li>\n"
  }

  /** `item_markup(item, charges)`: a heading keyed by the slug, then the charge lines in a list. */
  function ItemMarkup(item: Record, charges: string): string
  {
    "\n<h4 class=\"victim\" id=\"" + item.slug + "\">" + item.nameFull + "</h4>\n<ul class=\"charges\">\n" + charges + "</ul>"
  }

  /** The characters of `s` before its first double quote. */
  function UpToQuote(s: string): (r: string)
    ensures |r| <= |s| && r == s[..|r|] && '"' !in r
    ensures |r| < |s| ==> s[|r|] == '"'
  {
    if s == [] || s[0] == '"' then [] else [s[0]] + UpToQuote(s[1..])
  }

  /** The `id` attribute of a block's heading, read back from the markup. */
  function HeadingId(block: string): Option<string>
  {
    if |HeadOpen| <= |block| && block[..|HeadOpen|] == HeadOpen
    then Some(UpToQuote(block[|HeadOpen|..]))
    else None
  }

  lemma {:induction false} UpToQuoteOfPrefix(s: string, rest: string)
    requires '"' !in s
    ensures UpToQuote(s + "\"" + rest) == s
  {
    if s != [] {
      assert (s + "\"" + rest)[1..] == s[1..] + "\"" + rest;
      UpToQuoteOfPrefix(s[1..], rest);
    }
  }

  /** A block's heading id reads back as the slug it was built with, when the slug holds no quote. */
  lemma HeadingIdOfItem(item: Record, charges: string)
    requires '"' !in item.slug
    ensures HeadingId(ItemMarkup(item, charges)) == Some(item.slug)
  {
    var block := ItemMarkup(item, charges);
    var rest := ">" + item.nameFull + "</h4>\n<ul class=\"charges\">\n" + charges + ListClose;
    assert block == HeadOpen + (item.slug + "\"" + rest);
    assert block[|HeadOpen|..] == item.slug + "\"" + rest;
    UpToQuoteOfPrefix(item.slug, rest);
  }

  /**
   * A block shows the name right after the heading's `">`, and ends with the
   * charge lines and the list's closing tag.
   */
  lemma ItemMarkupParts(item: Record, charges: string)
    ensures var block := ItemMarkup(item, charges);
      var h := |HeadOpen| + |item.slug| + 2;
      && h + |item.nameFull| + |charges| + |ListClose| <= |block|
      && block[h..h + |item.nameFull|] == item.nameFull
      && block[|block| - |ListClose| - |charges|..] == charges + ListClose
  {
    var block := ItemMarkup(item, charges);
    var head := HeadOpen + item.slug + "\">";
    var mid := "</h4>\n<ul class=\"charges\">\n";
    assert block == head + item.nameFull + (mid + charges + ListClose);
    Middle(head, item.nameFull, mid + charges + ListClose);
    assert block == (head + item.nameFull + mid) + (charges + ListClose);
  }

  /**
   * The `class` value of a charge line's span, read back from the markup,
   * given the charge text and the colon before it.
   */
  function VerdictClass(line: string, charge: string, colon: string): Option<string>
  {
    var open := LineOpen + charge + colon + SpanOpen;
    if |open| <= |line| && line[..|open|] == open
    then Some(UpToQuote(line[|open|..]))
    else None
  }

  /**
   * The visible text of a charge line's span: what lies between the `">`
   * that closes the class value and the closing tags at the end of the line.
   */
  function VerdictText(line: string, charge: string, colon: string): Option<string>
  {
    match VerdictClass(line, charge, colon)
    case None => None
    case Some(cls) =>
      var start := |LineOpen + charge + colon + SpanOpen| + |cls| + 2;
      if start + |LineClose| <= |line| && line[start - 2..start] == "\">" && line[|line| - |LineClose|..] == LineClose
      then Some(line[start..|line| - |LineClose|])
      else None
  }

  /**
   * A charge line opens the list item, carries the charge text, then the
   * colon directly before the span, whose class reads back as the verdict
   * slug when that slug holds no quote.
   */
  lemma VerdictClassOfCharge(charge: Record, colon: string)
    requires '"' !in charge.verdictSlug
    ensures var line := ChargeMarkup(charge, colon);
      var n := |LineOpen| + |charge.charge|;
      && line[..n] == LineOpen + charge.charge
      && line[n..][..|colon| + 6] == colon + " <span"
      && VerdictClass(line, charge.charge, colon) == Some(charge.verdictSlug)
  {
    var line := ChargeMarkup(charge, colon);
    var open := LineOpen + charge.charge + colon + SpanOpen;
    var rest := ">" + charge.verdict + LineClose;
    var n := |LineOpen| + |charge.charge|;
    assert line == open + (charge.verdictSlug + "\"" + rest);
    assert line[..n] == LineOpen + charge.charge;
    assert line[n..][..|colon| + 6] == colon + " <span";
    assert line[..|open|] == open;
    assert line[|open|..] == charge.verdictSlug + "\"" + rest;
    UpToQuoteOfPrefix(charge.verdictSlug, rest);
  }

  lemma Middle(a: string, t: string, b: string)
    ensures |a| + |t| + |b| == |a + t + b|
    ensures (a + t + b)[..|a|] == a
    ensures (a + t + b)[|a|..|a| + |t|] == t
    ensures (a + t + b)[|a| + |t|..] == b
  {
  }

  lemma TextBetween(open: string, cls: string, text: string, line: string)
    requires line == open + cls + "\">" + text + LineClose
    ensures |open| + |cls| + 2 + |LineClose| <= |line|
    ensures line[|open| + |cls|..|open| + |cls| + 2] == "\">"
    ensures line[|open| + |cls| + 2..|line| - |LineClose|] == text
    ensures line[|line| - |LineClose|..] == LineClose
  {
    var head := open + cls;
    assert line == (head + "\">") + text + LineClose;
    Middle(head + "\">", text, LineClose);
    Middle(head, "\">", text + LineClose);
    assert line == head + "\">" + (text + LineClose);
  }

  /** The span of a charge line shows the verdict, read back between `">` and the closing tags. */
  lemma VerdictTextOfCharge(charge: Record, colon: string)
    requires '"' !in charge.verdictSlug
    ensures VerdictText(ChargeMarkup(charge, colon), charge.charge, colon) == Some(charge.verdict)
  {
    VerdictClassOfCharge(charge, colon);
    TextBetween(LineOpen + charge.charge + colon + SpanOpen, charge.verdictSlug, charge.verdict, ChargeMarkup(charge, colon));
  }

  /** The two charge lines of one record differ with the colon and only with it. */
  lemma ChargeMarkupColon(charge: Record, a: string, b: string)
    ensures ChargeMarkup(charge, a) == ChargeMarkup(charge, b) <==> a == b
  {
    var tail := SpanOpen + charge.verdictSlug + "\">" + charge.verdict + LineClose;
    var la := ChargeMarkup(charge, a);
    var lb := ChargeMarkup(charge, b);
    var n := |LineOpen + charge.charge|;
    if la == lb {
      assert la == (LineOpen + charge.charge) + a + tail;
      assert lb == (LineOpen + charge.charge) + b + tail;
      assert |a| == |b|;
      assert a == la[n..n + |a|];
      assert b == lb[n..n + |b|];
    }
  }
}
