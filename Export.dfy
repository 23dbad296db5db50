/** The `/export` route up to the point where the report is rendered: the
    check for an empty item list and the story it builds, a header followed
    by one block per item (a numbered heading, the url line when the url is
    truthy, and one paragraph per non-blank line of the summary).

    Rendering the story (reportlab's layout, styles and inline markup) is not
    modelled; the story is a sequence of abstract elements. */
module Export {
  import opened Text

  const DefaultQuery := "Research Summary"
  const NoSummary := "No summary available."
  const NoItems := "No items to export."
  /** `str(None)`, which an f-string renders for a JSON `null`. */
  const NoneText := "None"

  /** One element of the `items` list: its `title`, `url` and `summary` keys. */
  datatype ExportItem = ExportItem(title: Field, url: Field, summary: Field)

  /** The flowables of the report. A gap is a spacer, measured in tenths of an
      inch. */
  datatype Element =
    | ReportTitle(query: string)
    | Generated(stamp: string)
    | Gap(tenths: nat)
    | Heading(number: nat, title: string)
    | UrlLine(url: string)
    | Para(text: string)

  datatype ExportResult =
    | Pdf(story: seq<Element>)
    | Rejected(status: nat, message: string)
    /** An exception escaped the handler (the framework answers 500). */
    | Crashed

  /** `data.get(key, default)` placed in an f-string. */
  function Rendered(f: Field, default: string): string {
    match f
    case Absent => default
    case Null => NoneText
    case Str(s) => s
  }

  predicate HasUrl(item: ExportItem) {
    item.url.Str? && item.url.s != ""
  }

  /** `it.get("summary", "No summary available.")`; a `null` summary has no
      `split` and raises. */
  function SummaryText(item: ExportItem): string
    requires !item.summary.Null?
  {
    if item.summary.Absent? then NoSummary else item.summary.s
  }

  /** The paragraphs the first `n` summary lines give: each non-blank line,
      stripped, in order. */
  function Paragraphs(lines: seq<string>, n: nat): (ps: seq<Element>)
    requires n <= |lines|
    ensures |ps| <= n
  {
    if n == 0 then []
    else
      var line := Strip(lines[n - 1]);
      Paragraphs(lines, n - 1) + (if line != "" then [Para(line)] else [])
  }

  /** The paragraphs of an item's summary. */
  function SummaryParagraphs(item: ExportItem): seq<Element>
    requires !item.summary.Null?
  {
    var lines := Split(SummaryText(item), '\n');
    Paragraphs(lines, |lines|)
  }

  function Header(query: Field, ts: string): seq<Element> {
    [ReportTitle(Rendered(query, DefaultQuery)), Generated(ts), Gap(3)]
  }

  /** The paragraphs of an item's summary (none for an item whose summary
      is `null`, which is never rendered). */
  function Body(item: ExportItem): seq<Element> {
    if item.summary.Null? then [] else SummaryParagraphs(item)
  }

  /** The bodies of all items, in order. */
  function Bodies(items: seq<ExportItem>): (bodies: seq<seq<Element>>)
    ensures |bodies| == |items|
  {
    seq(|items|, k requires 0 <= k < |items| => Body(items[k]))
  }

  /** The block of the item numbered `n`, with `ps` its summary
      paragraphs. */
  function Block(n: nat, item: ExportItem, ps: seq<Element>): seq<Element> {
    [Heading(n, Rendered(item.title, Untitled))]
    + ((if HasUrl(item) then [UrlLine(item.url.s)] else [])
    + ([Gap(1)] + (ps + [Gap(3)])))
  }

  /** No item among the first `n` has a `null` summary. */
  predicate Renderable(items: seq<ExportItem>, n: nat)
    requires n <= |items|
  {
    n == 0 || (Renderable(items, n - 1) && !items[n - 1].summary.Null?)
  }

  /** An item with a `null` summary spoils every longer prefix. */
  lemma {:induction false} RenderablePrefix(items: seq<ExportItem>, n: nat, m: nat)
    requires n <= m <= |items|
    ensures Renderable(items, m) ==> Renderable(items, n)
    decreases m - n
  {
    if n < m {
      RenderablePrefix(items, n, m - 1);
    }
  }

  /** The blocks of the first `n` items, numbered from 1, with `bodies` their
      summary paragraphs. */
  function Blocks(items: seq<ExportItem>, bodies: seq<seq<Element>>, n: nat): seq<Element>
    requires n <= |items| && n <= |bodies|
  {
    if n == 0 then []
    else Blocks(items, bodies, n - 1) + Block(n, items[n - 1], bodies[n - 1])
  }

  /** The outcome of the `/export` route for a request body. */
  function Exported(query: Field, ts: string, items: seq<ExportItem>): ExportResult {
    if items == [] then Rejected(400, NoItems)
    else if !Renderable(items, |items|) then Crashed
    else Pdf(Header(query, ts) + Blocks(items, Bodies(items), |items|))
  }

  /** A request whose items all have a summary that is not `null` yields
      the header followed by one block per item. */
  lemma ExportedPdf(query: Field, ts: string, items: seq<ExportItem>)
    requires items != [] && Renderable(items, |items|)
    ensures Exported(query, ts, items) == Pdf(Header(query, ts) + Blocks(items, Bodies(items), |items|))
  {
  }

  /** A `null` summary among the items makes the handler raise. */
  lemma ExportedCrashed(query: Field, ts: string, items: seq<ExportItem>, i: nat)
    requires i < |items| && items[i].summary.Null?
    ensures Exported(query, ts, items) == Crashed
  {
    RenderablePrefix(items, i + 1, |items|);
  }

  /** `export_pdf` up to `doc.build(story)`, with `ts` the timestamp text. */
  method ExportStory(query: Field, ts: string, items: seq<ExportItem>) returns (r: ExportResult)
    ensures r == Exported(query, ts, items)
  {
    if items == [] {
      return Rejected(400, NoItems);
    }

    var story: seq<Element> := [];
    story := story + [ReportTitle(Rendered(query, DefaultQuery))];
    story := story + [Generated(ts)];
    story := story + [Gap(3)];
    assert story == Header(query, ts);

    var blocks := AppendBlocks(story, items);
    if blocks.None? {
      return Crashed;
    }
    ExportedPdf(query, ts, items);
    return Pdf(blocks.value);
  }

  /** The item loop of `export_pdf`: the block of every item is appended in
      turn, until an item whose summary is `null` makes the loop raise. */
  method AppendBlocks(story: seq<Element>, items: seq<ExportItem>) returns (r: Option<seq<Element>>)
    ensures r.Some? <==> Renderable(items, |items|)
    ensures r.Some? ==> r.value == story + Blocks(items, Bodies(items), |items|)
  {
    var extended := story;
    var i := 0;
    while i < |items|
      invariant 0 <= i <= |items|
      invariant Renderable(items, i)
      invariant extended == story + Blocks(items, Bodies(items), i)
    {
      var it := items[i];
      if it.summary.Null? {
        RenderablePrefix(items, i + 1, |items|);
        return None;
      }
      ghost var done := extended;
      extended := AppendBlock(extended, i + 1, it);
      NextBlock(story, items, i, done, extended);
      i := i + 1;
    }
    return Some(extended);
  }

  /** Appending the block of item `i` to the story of the items before it
      gives the story of the items up to `i`. */
  lemma NextBlock(header: seq<Element>, items: seq<ExportItem>, i: nat, done: seq<Element>, story: seq<Element>)
    requires i < |items| && !items[i].summary.Null?
    requires done == header + Blocks(items, Bodies(items), i)
    requires story == done + Block(i + 1, items[i], SummaryParagraphs(items[i]))
    ensures story == header + Blocks(items, Bodies(items), i + 1)
  {
    assert Bodies(items)[i] == SummaryParagraphs(items[i]);
    Concat(header, Blocks(items, Bodies(items), i), Block(i + 1, items[i], SummaryParagraphs(items[i])));
  }

  /** One more summary line adds its paragraph, if it has one. */
  lemma NextParagraph(lines: seq<string>, j: nat)
    requires j < |lines|
    ensures Strip(lines[j]) != "" ==> Paragraphs(lines, j + 1) == Paragraphs(lines, j) + [Para(Strip(lines[j]))]
    ensures Strip(lines[j]) == "" ==> Paragraphs(lines, j + 1) == Paragraphs(lines, j)
  {
  }

  lemma Concat(a: seq<Element>, b: seq<Element>, c: seq<Element>)
    ensures (a + b) + c == a + (b + c)
  {
  }

  /** The elements the loop body appends one after another make up the
      item's block. */
  lemma BlockAppended(done: seq<Element>, titled: seq<Element>, linked: seq<Element>,
                      spaced: seq<Element>, summarized: seq<Element>, story: seq<Element>,
                      n: nat, item: ExportItem)
    requires !item.summary.Null?
    requires titled == done + [Heading(n, Rendered(item.title, Untitled))]
    requires linked == if HasUrl(item) then titled + [UrlLine(item.url.s)] else titled
    requires spaced == linked + [Gap(1)]
    requires summarized == spaced + SummaryParagraphs(item)
    requires story == summarized + [Gap(3)]
    ensures story == done + Block(n, item, SummaryParagraphs(item))
  {
    var url := if HasUrl(item) then [UrlLine(item.url.s)] else [];
    assert linked == titled + url;
    var tail := [Gap(1)] + (SummaryParagraphs(item) + [Gap(3)]);
    Concat(spaced, SummaryParagraphs(item), [Gap(3)]);
    Concat(linked, [Gap(1)], SummaryParagraphs(item) + [Gap(3)]);
    Concat(titled, url, tail);
    Concat(done, [Heading(n, Rendered(item.title, Untitled))], url + tail);
  }

  /** The body of the item loop of `export_pdf`: the numbered heading, the
      url line when the url is truthy, a spacer, the summary paragraphs and
      a closing spacer. */
  method AppendBlock(story: seq<Element>, n: nat, it: ExportItem) returns (extended: seq<Element>)
    requires !it.summary.Null?
    ensures extended == story + Block(n, it, SummaryParagraphs(it))
  {
    extended := story + [Heading(n, Rendered(it.title, Untitled))];
    ghost var titled := extended;
    if HasUrl(it) {
      extended := extended + [UrlLine(it.url.s)];
    }
    ghost var linked := extended;
    extended := extended + [Gap(1)];
    ghost var spaced := extended;
    var lines := Split(SummaryText(it), '\n');
    extended := AppendParagraphs(extended, lines);
    ghost var summarized := extended;
    extended := extended + [Gap(3)];
    BlockAppended(story, titled, linked, spaced, summarized, extended, n, it);
  }

  /** The inner loop of `export_pdf`: each summary line, stripped, is
      appended as a paragraph unless it is empty. */
  method AppendParagraphs(story: seq<Element>, lines: seq<string>) returns (extended: seq<Element>)
    ensures extended == story + Paragraphs(lines, |lines|)
  {
    extended := story;
    var j := 0;
    while j < |lines|
      invariant 0 <= j <= |lines|
      invariant extended == story + Paragraphs(lines, j)
    {
      var line := Strip(lines[j]);
      NextParagraph(lines, j);
      if line != "" {
        Concat(story, Paragraphs(lines, j), [Para(line)]);
        extended := extended + [Para(line)];
      }
      j := j + 1;
    }
  }

  /** A key's default is shown exactly when the key is missing, holds the
      default itself, or is `null` with "None" as the default; a present
      string, even an empty one, is shown as it is. */
  lemma RenderedDefault(f: Field, default: string)
    ensures Rendered(f, default) == default <==>
      f.Absent? || f == Str(default) || (f.Null? && default == NoneText)
    ensures f.Str? ==> Rendered(f, default) == f.s
  {
  }

  /** An item without a `summary` key is reported with the single
      paragraph "No summary available."; the text is that default exactly
      when the key is missing or holds it. */
  lemma SummaryDefault(item: ExportItem)
    requires !item.summary.Null?
    ensures SummaryText(item) == NoSummary <==> item.summary.Absent? || item.summary == Str(NoSummary)
    ensures item.summary.Absent? ==> SummaryParagraphs(item) == [Para(NoSummary)]
  {
    if item.summary.Absent? {
      var lines := Split(NoSummary, '\n');
      NoSummaryOneLine();
      NoSummaryStripped();
      assert Paragraphs(lines, 1) == Paragraphs(lines, 0) + [Para(NoSummary)];
    }
  }

  /** A block opens with its heading and closes with a spacer: three more
      elements than summary paragraphs, four with a url line. */
  lemma BlockShape(n: nat, item: ExportItem, ps: seq<Element>)
    ensures var b := Block(n, item, ps);
      && |b| == |ps| + (if HasUrl(item) then 4 else 3)
      && b[0] == Heading(n, Rendered(item.title, Untitled))
      && b[|b| - 1] == Gap(3)
  {
  }

  /** The only paragraphs of a block are its summary paragraphs. */
  lemma BlockParagraphs(n: nat, item: ExportItem, ps: seq<Element>)
    ensures ParaTexts(Block(n, item, ps)) == ParaTexts(ps)
  {
    var h := [Heading(n, Rendered(item.title, Untitled))];
    var link := if HasUrl(item) then [UrlLine(item.url.s)] else [];
    var rest := [Gap(1)] + (ps + [Gap(3)]);
    assert ParaTexts(h) == [] && ParaTexts(link) == [];
    assert ParaTexts([Gap(1)]) == [] && ParaTexts([Gap(3)]) == [];
    ParaTextsAppend(ps, [Gap(3)]);
    ParaTextsAppend([Gap(1)], ps + [Gap(3)]);
    assert ParaTexts(rest) == ParaTexts(ps);
    ParaTextsAppend(link, rest);
    ParaTextsAppend(h, link + rest);
  }

  lemma {:induction false} RenderableAt(items: seq<ExportItem>, n: nat)
    requires n <= |items|
    ensures Renderable(items, n) <==> forall k :: 0 <= k < n ==> !items[k].summary.Null?
  {
    if n > 0 {
      RenderableAt(items, n - 1);
    }
  }

  /** "No summary available." is one line, */
  lemma NoSummaryOneLine()
    ensures Split(NoSummary, '\n') == [NoSummary]
  {
    assert forall k :: 0 <= k < |NoSummary| ==> NoSummary[k] != '\n';
    SplitNoSeparator(NoSummary, '\n');
  }

  /** which `strip()` leaves as it is. */
  lemma NoSummaryStripped()
    ensures Strip(NoSummary) == NoSummary
  {
    StripStripped(NoSummary);
  }

  /** The three outcomes of the route: a 400 exactly for an empty item
      list, a raise exactly when some item's summary is `null`, and otherwise
      a report that opens with the header, whose title is the query. */
  lemma ExportedCases(query: Field, ts: string, items: seq<ExportItem>)
    ensures Exported(query, ts, items).Rejected? <==> items == []
    ensures Exported(query, ts, items) == Crashed <==>
      items != [] && exists k :: 0 <= k < |items| && items[k].summary.Null?
    ensures Exported(query, ts, items).Pdf? ==>
      var story := Exported(query, ts, items).story;
      Header(query, ts) <= story && story[0] == ReportTitle(Rendered(query, DefaultQuery))
  {
    RenderableAt(items, |items|);
  }

  /** The request is refused with a 400 exactly when it has no items. */
  lemma OnlyEmptyRejected(query: Field, ts: string, items: seq<ExportItem>)
    ensures Exported(query, ts, items) == Rejected(400, NoItems) <==> items == []
  {
  }

  /** The headings of a story, in order. */
  function Headings(story: seq<Element>): seq<Element> {
    if story == [] then []
    else (if story[0].Heading? then [story[0]] else []) + Headings(story[1..])
  }

  /** The url lines of a story, in order. */
  function UrlLines(story: seq<Element>): seq<string> {
    if story == [] then []
    else (if story[0].UrlLine? then [story[0].url] else []) + UrlLines(story[1..])
  }

  lemma {:induction false} HeadingsAppend(a: seq<Element>, b: seq<Element>)
    ensures Headings(a + b) == Headings(a) + Headings(b)
  {
    if a != [] {
      assert (a + b)[1..] == a[1..] + b;
      HeadingsAppend(a[1..], b);
    } else {
      assert a + b == b;
    }
  }

  lemma {:induction false} UrlLinesAppend(a: seq<Element>, b: seq<Element>)
    ensures UrlLines(a + b) == UrlLines(a) + UrlLines(b)
  {
    if a != [] {
      assert (a + b)[1..] == a[1..] + b;
      UrlLinesAppend(a[1..], b);
    } else {
      assert a + b == b;
    }
  }

  lemma {:induction false} NoHeadings(story: seq<Element>)
    requires forall k :: 0 <= k < |story| ==> !story[k].Heading?
    ensures Headings(story) == []
  {
    if story != [] {
      NoHeadings(story[1..]);
    }
  }

  lemma {:induction false} NoUrlLines(story: seq<Element>)
    requires forall k :: 0 <= k < |story| ==> !story[k].UrlLine?
    ensures UrlLines(story) == []
  {
    if story != [] {
      NoUrlLines(story[1..]);
    }
  }

  /** Every element of `ps` is a paragraph. */
  predicate ParasOnly(ps: seq<Element>) {
    forall k :: 0 <= k < |ps| ==> ps[k].Para?
  }

  /** A block has one heading, its own, and a url line exactly when the
      item's url is truthy. */
  lemma BlockOutline(n: nat, item: ExportItem, ps: seq<Element>)
    requires ParasOnly(ps)
    ensures Headings(Block(n, item, ps)) == [Heading(n, Rendered(item.title, Untitled))]
    ensures UrlLines(Block(n, item, ps)) == if HasUrl(item) then [item.url.s] else []
  {
    var h := Heading(n, Rendered(item.title, Untitled));
    var link := if HasUrl(item) then [UrlLine(item.url.s)] else [];
    var rest := [Gap(1)] + (ps + [Gap(3)]);
    assert Block(n, item, ps) == [h] + (link + rest);
    assert forall k :: 0 <= k < |rest| ==> rest[k].Gap? || rest[k].Para?;
    NoHeadings(link + rest);
    NoUrlLines(rest);
    assert ([h] + (link + rest))[1..] == link + rest;
    if HasUrl(item) {
      assert (link + rest)[1..] == rest;
    } else {
      assert link + rest == rest;
    }
  }

  /** The urls of the first `n` items whose url is truthy, in order. */
  function LinkedUrls(items: seq<ExportItem>, n: nat): seq<string>
    requires n <= |items|
  {
    if n == 0 then []
    else LinkedUrls(items, n - 1) + (if HasUrl(items[n - 1]) then [items[n - 1].url.s] else [])
  }

  /** The headings the first `n` items should get: numbered from 1, with the
      item's title or "Untitled". */
  function Numbered(items: seq<ExportItem>, n: nat): seq<Element>
    requires n <= |items|
  {
    if n == 0 then []
    else Numbered(items, n - 1) + [Heading(n, Rendered(items[n - 1].title, Untitled))]
  }

  lemma {:induction false} NumberedAt(items: seq<ExportItem>, n: nat)
    requires n <= |items|
    ensures |Numbered(items, n)| == n
    ensures forall k :: 0 <= k < n ==>
      Numbered(items, n)[k] == Heading(k + 1, Rendered(items[k].title, Untitled))
  {
    if n > 0 {
      NumberedAt(items, n - 1);
    }
  }

  /** The blocks of the first `n` items hold exactly their numbered
      headings. */
  lemma {:induction false} BlocksHeadings(items: seq<ExportItem>, bodies: seq<seq<Element>>, n: nat)
    requires n <= |items| && n <= |bodies|
    requires forall k :: 0 <= k < n ==> ParasOnly(bodies[k])
    ensures Headings(Blocks(items, bodies, n)) == Numbered(items, n)
  {
    if n > 0 {
      var before := Blocks(items, bodies, n - 1);
      var block := Block(n, items[n - 1], bodies[n - 1]);
      BlocksHeadings(items, bodies, n - 1);
      BlockOutline(n, items[n - 1], bodies[n - 1]);
      HeadingsAppend(before, block);
    }
  }

  /** The url lines of the blocks of the first `n` items are, in item
      order, the urls of the items whose url is truthy. */
  lemma {:induction false} BlocksUrls(items: seq<ExportItem>, bodies: seq<seq<Element>>, n: nat)
    requires n <= |items| && n <= |bodies|
    requires forall k :: 0 <= k < n ==> ParasOnly(bodies[k])
    ensures UrlLines(Blocks(items, bodies, n)) == LinkedUrls(items, n)
  {
    if n > 0 {
      var before := Blocks(items, bodies, n - 1);
      var block := Block(n, items[n - 1], bodies[n - 1]);
      BlocksUrls(items, bodies, n - 1);
      BlockOutline(n, items[n - 1], bodies[n - 1]);
      UrlLinesAppend(before, block);
    }
  }

  /** An item's summary gives paragraphs only. */
  lemma BodyParas(item: ExportItem)
    ensures ParasOnly(Body(item))
  {
    if !item.summary.Null? {
      var lines := Split(SummaryText(item), '\n');
      ParagraphsClean(lines, |lines|);
    }
  }

  /** The bodies of all items are paragraphs only. */
  lemma BodiesParas(items: seq<ExportItem>)
    ensures forall k :: 0 <= k < |items| ==> ParasOnly(Bodies(items)[k])
  {
    forall k | 0 <= k < |items|
      ensures ParasOnly(Bodies(items)[k])
    {
      BodyParas(items[k]);
    }
  }

  /** In the story of the header and the blocks of all items, item `k`
      (from 0) gets the heading numbered `k + 1` with its title, or
      "Untitled" when it has no title key; a url line appears for exactly the
      items whose url is truthy, in item order. */
  lemma StoryOutline(query: Field, ts: string, items: seq<ExportItem>)
    ensures var story := Header(query, ts) + Blocks(items, Bodies(items), |items|);
      && |Headings(story)| == |items|
      && (forall k :: 0 <= k < |items| ==>
            Headings(story)[k] == Heading(k + 1, Rendered(items[k].title, Untitled)))
      && UrlLines(story) == LinkedUrls(items, |items|)
  {
    var header := Header(query, ts);
    var bodies := Bodies(items);
    var blocks := Blocks(items, bodies, |items|);
    HeaderOutline(query, ts);
    BodiesParas(items);
    BlocksHeadings(items, bodies, |items|);
    HeadingsAppend(header, blocks);
    assert Headings(header + blocks) == Numbered(items, |items|);
    NumberedAt(items, |items|);
    BlocksUrls(items, bodies, |items|);
    UrlLinesAppend(header, blocks);
    assert UrlLines(header + blocks) == LinkedUrls(items, |items|);
  }

  /** The report header has neither headings nor url lines. */
  lemma HeaderOutline(query: Field, ts: string)
    ensures Headings(Header(query, ts)) == [] && UrlLines(Header(query, ts)) == []
  {
    NoHeadings(Header(query, ts));
    NoUrlLines(Header(query, ts));
  }

  /** A report is produced only for a non-empty list of items whose
      summaries are all not `null`. */
  lemma PdfRenderable(query: Field, ts: string, items: seq<ExportItem>)
    requires Exported(query, ts, items).Pdf?
    ensures items != [] && Renderable(items, |items|)
  {
  }

  /** The outline of every report the route produces: the numbered headings
      of its items and their url lines. */
  lemma ReportOutline(query: Field, ts: string, items: seq<ExportItem>)
    requires Exported(query, ts, items).Pdf?
    ensures var story := Exported(query, ts, items).story;
      && |Headings(story)| == |items|
      && (forall k :: 0 <= k < |items| ==>
            Headings(story)[k] == Heading(k + 1, Rendered(items[k].title, Untitled)))
      && UrlLines(story) == LinkedUrls(items, |items|)
  {
    PdfRenderable(query, ts, items);
    ExportedPdf(query, ts, items);
    StoryOutline(query, ts, items);
  }

  /** The positions of the first `n` summary lines that give a paragraph. */
  function LinePositions(lines: seq<string>, n: nat): (idx: seq<nat>)
    requires n <= |lines|
    ensures |idx| == |Paragraphs(lines, n)|
    ensures forall j :: 0 <= j < |idx| ==> idx[j] < n
  {
    if n == 0 then []
    else LinePositions(lines, n - 1) + (if Strip(lines[n - 1]) != "" then [n - 1] else [])
  }

  /** Each paragraph is the stripped line at its position. */
  lemma {:induction false} LinePositionsTexts(lines: seq<string>, n: nat)
    requires n <= |lines|
    ensures forall j :: 0 <= j < |LinePositions(lines, n)| ==>
      Paragraphs(lines, n)[j] == Para(Strip(lines[LinePositions(lines, n)[j]]))
  {
    if n > 0 {
      LinePositionsTexts(lines, n - 1);
    }
  }

  /** The positions are increasing. */
  lemma {:induction false} LinePositionsIncreasing(lines: seq<string>, n: nat)
    requires n <= |lines|
    ensures forall j, k :: 0 <= j < k < |LinePositions(lines, n)| ==>
      LinePositions(lines, n)[j] < LinePositions(lines, n)[k]
  {
    if n > 0 {
      LinePositionsIncreasing(lines, n - 1);
    }
  }

  /** The positions are exactly those of the non-blank lines. */
  lemma {:induction false} LinePositionsExact(lines: seq<string>, n: nat)
    requires n <= |lines|
    ensures forall i :: 0 <= i < n ==> (!Blank(lines[i]) <==> i in LinePositions(lines, n))
  {
    if n > 0 {
      var before := LinePositions(lines, n - 1);
      LinePositionsExact(lines, n - 1);
      assert forall i :: 0 <= i < n - 1 ==> (i in LinePositions(lines, n) <==> i in before);
      assert Strip(lines[n - 1]) != "" <==> !Blank(lines[n - 1]);
    }
  }

  /** The lines the paragraphs come from: increasing positions, each
      paragraph the stripped line at its position, and exactly the
      non-blank lines. */
  function LineOrigins(lines: seq<string>, n: nat): (idx: seq<nat>)
    requires n <= |lines|
    ensures |idx| == |Paragraphs(lines, n)|
    ensures forall j :: 0 <= j < |idx| ==>
      idx[j] < n && Paragraphs(lines, n)[j] == Para(Strip(lines[idx[j]]))
    ensures forall j, k :: 0 <= j < k < |idx| ==> idx[j] < idx[k]
    ensures forall i :: 0 <= i < n ==> (!Blank(lines[i]) <==> i in idx)
  {
    LinePositionsTexts(lines, n);
    LinePositionsIncreasing(lines, n);
    LinePositionsExact(lines, n);
    LinePositions(lines, n)
  }

  /** Every paragraph is a non-empty line with no whitespace at either end. */
  lemma {:induction false} ParagraphsClean(lines: seq<string>, n: nat)
    requires n <= |lines|
    ensures forall k :: 0 <= k < |Paragraphs(lines, n)| ==>
      var p := Paragraphs(lines, n)[k];
      p.Para? && p.text != "" && Stripped(p.text)
  {
    if n > 0 {
      ParagraphsClean(lines, n - 1);
    }
  }

  /** One paragraph per line, each holding the line as it is. */
  function AsParagraphs(lines: seq<string>, n: nat): seq<Element>
    requires n <= |lines|
  {
    if n == 0 then [] else AsParagraphs(lines, n - 1) + [Para(lines[n - 1])]
  }

  /** Lines that are already non-blank and stripped become one paragraph
      each, unchanged and in order. */
  lemma {:induction false} CleanLinesKept(lines: seq<string>, n: nat)
    requires n <= |lines|
    requires forall k :: 0 <= k < n ==> lines[k] != "" && Stripped(lines[k])
    ensures Paragraphs(lines, n) == AsParagraphs(lines, n)
  {
    if n > 0 {
      CleanLinesKept(lines, n - 1);
      StripStripped(lines[n - 1]);
    }
  }

  /** The texts of the paragraphs of a story, in order. */
  function ParaTexts(story: seq<Element>): seq<string> {
    if story == [] then []
    else (if story[0].Para? then [story[0].text] else []) + ParaTexts(story[1..])
  }

  lemma {:induction false} ParaTextsAppend(a: seq<Element>, b: seq<Element>)
    ensures ParaTexts(a + b) == ParaTexts(a) + ParaTexts(b)
  {
    if a != [] {
      assert (a + b)[1..] == a[1..] + b;
      ParaTextsAppend(a[1..], b);
    } else {
      assert a + b == b;
    }
  }

  /** The texts of `AsParagraphs` are the lines themselves. */
  lemma {:induction false} AsParagraphsTexts(lines: seq<string>, n: nat)
    requires n <= |lines|
    ensures ParaTexts(AsParagraphs(lines, n)) == lines[..n]
  {
    if n > 0 {
      AsParagraphsTexts(lines, n - 1);
      ParaTextsAppend(AsParagraphs(lines, n - 1), [Para(lines[n - 1])]);
      assert ParaTexts([Para(lines[n - 1])]) == [lines[n - 1]];
      assert lines[..n] == lines[..n - 1] + [lines[n - 1]];
    }
  }

  /** Every one of the first `n` lines is blank. */
  predicate AllBlank(lines: seq<string>, n: nat)
    requires n <= |lines|
  {
    n == 0 || (AllBlank(lines, n - 1) && Blank(lines[n - 1]))
  }

  lemma {:induction false} AllBlankAt(lines: seq<string>, n: nat)
    requires n <= |lines|
    ensures AllBlank(lines, n) <==> forall k :: 0 <= k < n ==> Blank(lines[k])
  {
    if n > 0 {
      AllBlankAt(lines, n - 1);
    }
  }

  lemma {:induction false} NoParagraphsIffAllBlank(lines: seq<string>, n: nat)
    requires n <= |lines|
    ensures Paragraphs(lines, n) == [] <==> AllBlank(lines, n)
  {
    if n > 0 {
      NoParagraphsIffAllBlank(lines, n - 1);
      NextParagraph(lines, n - 1);
    }
  }

  /** A summary gives no paragraph exactly when all its lines are blank. */
  lemma NoParagraphsIffBlank(lines: seq<string>, n: nat)
    requires n <= |lines|
    ensures Paragraphs(lines, n) == [] <==> forall k :: 0 <= k < n ==> Blank(lines[k])
  {
    NoParagraphsIffAllBlank(lines, n);
    AllBlankAt(lines, n);
  }

  /** A summary every line of which is non-blank and stripped loses nothing:
      joining its paragraphs with newlines gives the summary back. */
  lemma SummaryRecovered(summary: string)
    requires forall k :: 0 <= k < |Split(summary, '\n')| ==>
      Split(summary, '\n')[k] != "" && Stripped(Split(summary, '\n')[k])
    ensures var lines := Split(summary, '\n');
      Join(ParaTexts(Paragraphs(lines, |lines|)), '\n') == summary
  {
    var lines := Split(summary, '\n');
    CleanLinesKept(lines, |lines|);
    AsParagraphsTexts(lines, |lines|);
    assert lines[..|lines|] == lines;
    JoinSplit(summary, '\n');
  }
}
