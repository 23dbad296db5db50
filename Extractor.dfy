/** The article extraction fallback chain (`extract_text`): four strategies
    tried in a fixed order, each gated on the length of the text it recovers,
    with the title and the publish date carried forward between them.

    The libraries the strategies call (newspaper3k, trafilatura, readability,
    BeautifulSoup) and the HTTP fetches are not modelled; what each of them
    returns, or that it raises, is an input of type `Sources`. */
module Extractor {
  import opened Text

  /** The quality gate: text shorter than this is rejected. */
  const MinTextLength := 300

  /** The strategies, in the order they are tried. */
  const Newspaper := 0
  const Trafilatura := 1
  const Readability := 2
  const Soup := 3
  const StrategyCount := 4

  /** A publish date, given by the ISO 8601 text `isoformat()` renders it as.
      A present date is always truthy. */
  datatype Timestamp = Timestamp(iso: string)

  /** newspaper3k's `Article` once `download()` and `parse()` returned. */
  datatype Article = Article(title: Option<string>, text: Option<string>, publishDate: Option<Timestamp>)

  /** trafilatura: `fetch_url(url)`, then `extract(downloaded)` when the
      download is truthy. */
  datatype TrafilaturaRun = TrafilaturaRun(download: Call<Option<string>>, extract: Call<Option<string>>)

  /** readability's `Document(html)`: `short_title()`, and the text that
      `BeautifulSoup(doc.summary()).get_text(...)` yields. */
  datatype ReadableDoc = ReadableDoc(shortTitle: Call<Option<string>>, text: Call<string>)

  /** `fetch_html(url)` (None on any failure), then `Document(html)`. */
  datatype ReadabilityRun = ReadabilityRun(html: Option<string>, document: Call<ReadableDoc>)

  /** The page once scripts, styles and noscript blocks are removed: its
      flattened text, and `soup.title.string` (None when there is no title
      element or it has no single string). */
  datatype SoupDoc = SoupDoc(text: string, titleString: Option<string>)

  /** `fetch_html(url)`, then parsing and flattening the markup. */
  datatype SoupRun = SoupRun(html: Option<string>, soup: Call<SoupDoc>)

  /** What the four strategies see for one URL. */
  datatype Sources = Sources(
    newspaper: Call<Article>,
    trafilatura: TrafilaturaRun,
    readability: ReadabilityRun,
    soup: SoupRun)

  /** The `(title, text, publish_date)` triple `extract_text` returns. */
  datatype Extracted = Extracted(title: Option<string>, text: Option<string>, publishDate: Option<Timestamp>)

  /** The triple returned when no strategy clears the gate. */
  const Unavailable := Extracted(None, None, None)

  predicate Accepted(text: Option<string>) {
    text.Some? && |text.value| >= MinTextLength
  }

  function TextOf(c: Call<string>): Option<string> {
    match c
    case Raises => None
    case Returns(t) => Some(t)
  }

  /** The date the chain carries: only newspaper3k ever supplies one. */
  function NewspaperDate(src: Sources): Option<Timestamp> {
    match src.newspaper
    case Raises => None
    case Returns(a) => a.publishDate
  }

  /** One strategy's contribution, run after the title `carried` has been
      collected: the title afterwards, and the text it puts to the gate
      (None when it raised or found nothing). */
  datatype Attempt = Attempt(title: Option<string>, text: Option<string>)

  function Try(src: Sources, k: nat, carried: Option<string>): Attempt
    requires k < StrategyCount
  {
    if k == Newspaper then
      match src.newspaper
      case Raises => Attempt(carried, None)
      case Returns(a) => Attempt(Or(a.title, carried), a.text)
    else if k == Trafilatura then
      var t := src.trafilatura;
      if t.download.Returns? && Truthy(t.download.value) && t.extract.Returns?
      then Attempt(carried, t.extract.value)
      else Attempt(carried, None)
    else if k == Readability then
      var rd := src.readability;
      if !Truthy(rd.html) || rd.document.Raises? then Attempt(carried, None)
      else if Truthy(carried) then Attempt(carried, TextOf(rd.document.value.text))
      else
        match rd.document.value.shortTitle
        case Raises => Attempt(carried, None)
        case Returns(t) => Attempt(t, TextOf(rd.document.value.text))
    else
      var sp := src.soup;
      if !Truthy(sp.html) || sp.soup.Raises? then Attempt(carried, None)
      else
        var doc := sp.soup.value;
        var title :=
          if |doc.text| >= MinTextLength && !Truthy(carried) && Truthy(doc.titleString)
          then Some(Strip(doc.titleString.value))
          else carried;
        Attempt(title, Some(doc.text))
  }

  /** The chain as one uniform loop over the strategies from `k` on: the
      first text that clears the gate is returned with the title carried so
      far and the newspaper date; when none does, the result is Unavailable. */
  function Run(src: Sources, k: nat, carried: Option<string>, date: Option<Timestamp>): (r: Extracted)
    requires k <= StrategyCount
    ensures r.text.Some? ==> Accepted(r.text) && r.publishDate == date
    ensures r.text.None? ==> r == Unavailable
    decreases StrategyCount - k
  {
    if k == StrategyCount then Unavailable
    else
      var a := Try(src, k, carried);
      if Accepted(a.text) then Extracted(a.title, a.text, date)
      else Run(src, k + 1, a.title, date)
  }

  /** What `extract_text` returns for the given strategy outcomes. */
  function Pipeline(src: Sources): Extracted {
    Run(src, 0, None, NewspaperDate(src))
  }

  /** The title carried into strategy `k`. */
  function TitleBefore(src: Sources, k: nat): Option<string>
    requires k <= StrategyCount
  {
    if k == 0 then None else Try(src, k - 1, TitleBefore(src, k - 1)).title
  }

  /** The title one strategy leaves behind: only newspaper3k replaces a
      carried title, and only with a truthy one; readability and
      BeautifulSoup fill in a falsy one, BeautifulSoup only once its text
      cleared the gate; readability's `short_title()` is assigned before its
      parse, and when it raises no text is offered. */
  lemma TryTitle(src: Sources, k: nat, carried: Option<string>)
    requires k < StrategyCount
    ensures var a := Try(src, k, carried);
      a.title != carried ==> (k == Newspaper && Truthy(a.title)) || (Readability <= k && !Truthy(carried))
    ensures var a := Try(src, k, carried);
      k == Soup && a.title != carried ==> Accepted(a.text)
    ensures var rd := src.readability;
      k == Readability && Truthy(rd.html) && rd.document.Returns? && !Truthy(carried)
        && rd.document.value.shortTitle.Returns?
      ==> Try(src, k, carried).title == rd.document.value.shortTitle.value
    ensures var rd := src.readability;
      k == Readability && rd.document.Returns? && !Truthy(carried) && rd.document.value.shortTitle.Raises?
      ==> Try(src, k, carried).text == None
  {
  }

  /** Where the text one strategy offers comes from: nothing when
      newspaper3k raises, and otherwise the extractor of a strategy whose
      download or fetch returned something truthy; conversely, a truthy
      fetch whose extractor returns offers exactly what it returned. */
  lemma TryText(src: Sources, k: nat, carried: Option<string>)
    requires k < StrategyCount
    ensures k == Newspaper && src.newspaper.Raises? ==> Try(src, k, carried) == Attempt(carried, None)
    ensures var a := Try(src, k, carried); var t := src.trafilatura;
      k == Trafilatura && a.text.Some? ==>
        t.download.Returns? && Truthy(t.download.value) && t.extract == Returns(a.text)
    ensures var a := Try(src, k, carried); var rd := src.readability;
      k == Readability && a.text.Some? ==>
        Truthy(rd.html) && rd.document.Returns? && rd.document.value.text == Returns(a.text.value)
    ensures var a := Try(src, k, carried); var sp := src.soup;
      k == Soup && a.text.Some? ==>
        Truthy(sp.html) && sp.soup.Returns? && a.text == Some(sp.soup.value.text)
    ensures k == Newspaper && src.newspaper.Returns? ==> Try(src, k, carried).text == src.newspaper.value.text
    ensures var t := src.trafilatura;
      k == Trafilatura && t.download.Returns? && Truthy(t.download.value) && t.extract.Returns? ==>
        Try(src, k, carried).text == t.extract.value
    ensures var rd := src.readability;
      k == Readability && Truthy(rd.html) && rd.document.Returns?
        && (Truthy(carried) || rd.document.value.shortTitle.Returns?) ==>
        Try(src, k, carried).text == TextOf(rd.document.value.text)
    ensures var sp := src.soup;
      k == Soup && Truthy(sp.html) && sp.soup.Returns? ==> Try(src, k, carried).text == Some(sp.soup.value.text)
  {
  }

  /** The text strategy `k` puts to the gate when the chain reaches it. */
  function Offered(src: Sources, k: nat): Option<string>
    requires k < StrategyCount
  {
    Try(src, k, TitleBefore(src, k)).text
  }

  /** `extract_text`: the strategies in source order over the locals
      `title`, `text` and `publish_date`, returning early from the first
      that clears the gate. */
  method ExtractText(src: Sources) returns (r: Extracted)
    ensures r == Pipeline(src)
  {
    var title: Option<string> := None;
    var text: Option<string> := None;
    var publishDate: Option<Timestamp> := None;
    ghost var date := NewspaperDate(src);
    assert Pipeline(src) == Run(src, Newspaper, None, date);

    // newspaper3k
    match src.newspaper {
      case Raises =>
      case Returns(art) =>
        title := Or(art.title, title);
        text := Or(art.text, text);
        if art.publishDate.Some? {
          publishDate := art.publishDate;
        }
        if Truthy(text) && |text.value| >= MinTextLength {
          return Extracted(title, text, publishDate);
        }
    }
    assert publishDate == date;
    assert Pipeline(src) == Run(src, Trafilatura, title, date);

    // trafilatura
    match src.trafilatura.download {
      case Raises =>
      case Returns(downloaded) =>
        if Truthy(downloaded) {
          match src.trafilatura.extract {
            case Raises =>
            case Returns(extracted) =>
              if Truthy(extracted) && |extracted.value| >= MinTextLength {
                return Extracted(title, extracted, publishDate);
              }
          }
        }
    }
    assert Pipeline(src) == Run(src, Readability, title, date);

    // readability
    ghost var before := title;
    if Truthy(src.readability.html) {
      match src.readability.document {
        case Raises =>
        case Returns(doc) =>
          var raised := false;
          if !Truthy(title) {
            match doc.shortTitle {
              case Raises => raised := true;
              case Returns(t) => title := t;
            }
          }
          if !raised {
            match doc.text {
              case Raises =>
              case Returns(t) =>
                text := Some(t);
                if |t| >= MinTextLength {
                  return Extracted(title, text, publishDate);
                }
            }
          }
      }
    }
    assert title == Try(src, Readability, before).title;
    assert Pipeline(src) == Run(src, Soup, title, date);

    // BeautifulSoup
    if Truthy(src.soup.html) {
      match src.soup.soup {
        case Raises =>
        case Returns(soup) =>
          text := Some(soup.text);
          if |soup.text| >= MinTextLength {
            if !Truthy(title) && Truthy(soup.titleString) {
              title := Some(Strip(soup.titleString.value));
            }
            return Extracted(title, text, publishDate);
          }
      }
    }
    return Unavailable;
  }

  /** Strategies before `k` that all fail the gate are skipped: the chain
      behaves as if it started at `k` with the title they carried. */
  lemma {:induction false} RejectedPrefixSkipped(src: Sources, j: nat, k: nat)
    requires j <= k <= StrategyCount
    requires forall i :: j <= i < k ==> !Accepted(Offered(src, i))
    ensures Run(src, j, TitleBefore(src, j), NewspaperDate(src))
         == Run(src, k, TitleBefore(src, k), NewspaperDate(src))
    decreases k - j
  {
    if j < k {
      assert !Accepted(Offered(src, j));
      RejectedPrefixSkipped(src, j + 1, k);
    }
  }

  /** Priority: the first strategy, in the order newspaper3k, trafilatura,
      readability, BeautifulSoup, whose text clears the gate supplies the
      result; the ones after it are never consulted. */
  lemma FirstAcceptedWins(src: Sources, k: nat)
    requires k < StrategyCount
    requires Accepted(Offered(src, k))
    requires forall j :: 0 <= j < k ==> !Accepted(Offered(src, j))
    ensures Pipeline(src).text == Offered(src, k)
    ensures Pipeline(src).title == Try(src, k, TitleBefore(src, k)).title
    ensures Pipeline(src).publishDate == NewspaperDate(src)
  {
    RejectedPrefixSkipped(src, 0, k);
  }

  /** Strategy `k` is the first whose text clears the gate. */
  predicate FirstAccepted(src: Sources, k: nat) {
    k < StrategyCount && Accepted(Offered(src, k))
    && forall j :: 0 <= j < k ==> !Accepted(Offered(src, j))
  }

  /** `extract_text` returns `(None, None, None)`, or the text and title of
      the first strategy whose text clears the gate together with
      newspaper3k's date. */
  lemma PipelineCases(src: Sources)
    ensures Pipeline(src) == Unavailable ||
      (exists k :: FirstAccepted(src, k) &&
         Pipeline(src) == Extracted(Try(src, k, TitleBefore(src, k)).title, Offered(src, k), NewspaperDate(src)))
  {
    if Pipeline(src) != Unavailable {
      AllRejectedIsUnavailable(src);
      var m :| 0 <= m < StrategyCount && Accepted(Offered(src, m));
      var k := 0;
      while !Accepted(Offered(src, k))
        invariant k <= m
        invariant forall j :: 0 <= j < k ==> !Accepted(Offered(src, j))
        decreases m - k
      {
        k := k + 1;
      }
      FirstAcceptedWins(src, k);
      assert FirstAccepted(src, k);
    }
  }

  /** Total failure: the result is `(None, None, None)` exactly when no
      strategy's text clears the gate, dropping any title or date collected
      on the way. */
  lemma AllRejectedIsUnavailable(src: Sources)
    ensures Pipeline(src) == Unavailable
        <==> forall k :: 0 <= k < StrategyCount ==> !Accepted(Offered(src, k))
  {
    if forall k :: 0 <= k < StrategyCount ==> !Accepted(Offered(src, k)) {
      RejectedPrefixSkipped(src, 0, StrategyCount);
    } else {
      var k :| 0 <= k < StrategyCount && Accepted(Offered(src, k));
      while k > 0 && Accepted(Offered(src, k - 1))
        invariant 0 <= k < StrategyCount && Accepted(Offered(src, k))
        decreases k
      {
        k := k - 1;
      }
      FirstEarlierAccepted(src, k);
    }
  }

  /** Walking down from an accepted strategy reaches the first accepted one. */
  lemma FirstEarlierAccepted(src: Sources, k: nat)
    requires k < StrategyCount && Accepted(Offered(src, k))
    ensures Pipeline(src) != Unavailable
    decreases k
  {
    if forall j :: 0 <= j < k ==> !Accepted(Offered(src, j)) {
      FirstAcceptedWins(src, k);
    } else {
      var j :| 0 <= j < k && Accepted(Offered(src, j));
      FirstEarlierAccepted(src, j);
    }
  }

  /** The gate: whatever text the chain returns is at least 300 characters,
      and a rejected chain carries neither a title nor a date. */
  lemma PipelineGate(src: Sources)
    ensures Pipeline(src).text.Some? ==> |Pipeline(src).text.value| >= MinTextLength
    ensures Pipeline(src).text.None? ==> Pipeline(src).title.None? && Pipeline(src).publishDate.None?
  {
  }

  /** The later strategies never replace a truthy title: trafilatura never
      touches it, readability and BeautifulSoup only fill it in when none is
      set yet. */
  lemma LaterStrategiesKeepTitle(src: Sources, k: nat, carried: Option<string>)
    requires Trafilatura <= k < StrategyCount
    requires Truthy(carried) || k == Trafilatura
    ensures Try(src, k, carried).title == carried
  {
  }

  lemma {:induction false} RunKeepsTitle(src: Sources, k: nat, carried: Option<string>, date: Option<Timestamp>)
    requires Trafilatura <= k <= StrategyCount
    requires Truthy(carried)
    ensures Run(src, k, carried, date).text.Some? ==> Run(src, k, carried, date).title == carried
    decreases StrategyCount - k
  {
    if k < StrategyCount {
      LaterStrategiesKeepTitle(src, k, carried);
      RunKeepsTitle(src, k + 1, carried, date);
    }
  }

  /** Title merge: a truthy title from newspaper3k, even one whose text was
      rejected, is the title of any successful result. */
  lemma NewspaperTitleSticks(src: Sources)
    requires src.newspaper.Returns? && Truthy(src.newspaper.value.title)
    ensures Pipeline(src).text.Some? ==> Pipeline(src).title == src.newspaper.value.title
  {
    var a := src.newspaper.value;
    if !Accepted(a.text) {
      RunKeepsTitle(src, Trafilatura, a.title, NewspaperDate(src));
    }
  }

  /** Date merge: the date returned is newspaper3k's, whichever strategy
      supplied the text; trafilatura, readability and BeautifulSoup never set
      one. */
  lemma DateOnlyFromNewspaper(src: Sources)
    ensures Pipeline(src).publishDate == if Pipeline(src).text.Some? then NewspaperDate(src) else None
  {
  }

  /** From strategy `k` (at least 1) on, the pipeline reads only the
      sources of strategy `k` and those after it: readability's outcomes
      matter only up to readability, BeautifulSoup's step reads its own. */
  lemma {:induction false} RunAgrees(s1: Sources, s2: Sources, k: nat, carried: Option<string>, date: Option<Timestamp>)
    requires 1 <= k <= StrategyCount
    requires k <= Trafilatura ==> s1.trafilatura == s2.trafilatura
    requires k <= Readability ==> s1.readability == s2.readability
    requires s1.soup == s2.soup
    ensures Run(s1, k, carried, date) == Run(s2, k, carried, date)
    decreases StrategyCount - k
  {
    if k < StrategyCount {
      assert Try(s1, k, carried) == Try(s2, k, carried);
      RunAgrees(s1, s2, k + 1, Try(s1, k, carried).title, date);
    }
  }

  /** newspaper3k raising is handled like an article with no title, text or
      date. */
  lemma NewspaperRaiseIsEmptyArticle(src: Sources)
    ensures Pipeline(src.(newspaper := Raises))
         == Pipeline(src.(newspaper := Returns(Article(None, None, None))))
  {
    var raised := src.(newspaper := Raises);
    var empty := src.(newspaper := Returns(Article(None, None, None)));
    assert Try(raised, Newspaper, None) == Try(empty, Newspaper, None) == Attempt(None, None);
    RunAgrees(raised, empty, Trafilatura, None, None);
  }

  /** A trafilatura download that raises is handled like one that returns
      nothing. */
  lemma DownloadRaiseIsNoDownload(src: Sources)
    ensures Pipeline(src.(trafilatura := src.trafilatura.(download := Raises)))
         == Pipeline(src.(trafilatura := src.trafilatura.(download := Returns(None))))
  {
    var raised := src.(trafilatura := src.trafilatura.(download := Raises));
    var missing := src.(trafilatura := src.trafilatura.(download := Returns(None)));
    var date := NewspaperDate(src);
    var first := Try(src, Newspaper, None);
    assert Try(raised, Newspaper, None) == Try(missing, Newspaper, None) == first;
    if !Accepted(first.text) {
      assert Try(raised, Trafilatura, first.title) == Try(missing, Trafilatura, first.title);
      RunAgrees(raised, missing, Readability, Try(raised, Trafilatura, first.title).title, date);
    }
  }

  /** A title readability assigned before its parse raised survives, and a
      later BeautifulSoup success with an untitled page returns it. */
  lemma ReadabilityTitleSurvivesRaise(src: Sources, t: string)
    requires src.newspaper.Raises? && src.trafilatura.download.Raises?
    requires t != ""
    requires Truthy(src.readability.html)
    requires src.readability.document == Returns(ReadableDoc(Returns(Some(t)), Raises))
    requires Truthy(src.soup.html)
    requires src.soup.soup.Returns? && |src.soup.soup.value.text| >= MinTextLength
    ensures Pipeline(src).text == Some(src.soup.soup.value.text)
    ensures Pipeline(src).title == Some(t)
  {
    assert TitleBefore(src, Trafilatura) == None;
    assert TitleBefore(src, Readability) == None;
    assert TitleBefore(src, Soup) == Some(t);
    assert !Accepted(Offered(src, Newspaper)) && !Accepted(Offered(src, Trafilatura));
    assert !Accepted(Offered(src, Readability));
    FirstAcceptedWins(src, Soup);
  }
}
