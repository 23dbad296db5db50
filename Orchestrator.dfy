/** The body of the `/search` route: validation of the configuration and of
    the query, the loop over the search results that extracts and summarises
    each one and stops at the quota, and the two-tier outcome that tells "no
    results" apart from "results, but none usable".

    The search service, the page fetches and the summariser are not
    modelled: the search results are an input, and `Oracles` says what
    extraction sees for each result and what the summariser answers. */
module Orchestrator {
  import opened Text
  import opened Extractor

  /** The loop stops once this many entries exist. */
  const Quota := 6

  /** The summariser is sent at most this many characters of article text. */
  const PromptLimit := 8000

  const MissingKeys := "One or more API keys are missing. Check your .env."
  const EmptyQuery := "Search query cannot be empty."
  const NothingSummarized := "Found sources, but none could be summarized. Likely paywalls, video links, or blocked scrapers."

  /** The three keys read from the environment at start-up. */
  datatype Credentials = Credentials(searchKey: Option<string>, searchEngineId: Option<string>, summarizerKey: Option<string>)

  predicate Configured(keys: Credentials) {
    Truthy(keys.searchKey) && Truthy(keys.searchEngineId) && Truthy(keys.summarizerKey)
  }

  /** One item of the search results: its `title` and `link`, either of
      which may be missing. */
  datatype SearchItem = SearchItem(title: Option<string>, link: Option<string>)

  /** What the summariser is given: the start of the text, and the title,
      url and ISO date placed in its prompt. */
  datatype SummaryRequest = SummaryRequest(content: string, title: Option<string>, url: string, dateIso: Option<string>)

  /** What extraction finds for the search item at each position, and what
      the summariser answers for the request made for each position. */
  datatype Oracles = Oracles(pages: nat -> Sources, summarize: (nat, SummaryRequest) -> Call<Option<string>>)

  /** One element of the JSON list the route answers with. */
  datatype Entry = Entry(title: string, url: string, summary: string)

  datatype Response =
    | Found(entries: seq<Entry>)
    | Refused(status: nat, message: string)
    /** An exception escaped the handler (the framework answers 500). */
    | Crashed

  /** The request the summariser receives for an extracted article. */
  function RequestFor(ex: Extracted, url: string): (req: SummaryRequest)
    requires ex.text.Some?
    ensures req.content <= ex.text.value
    ensures |req.content| == if |ex.text.value| <= PromptLimit then |ex.text.value| else PromptLimit
    ensures req.url == url && req.title == ex.title
    ensures req.dateIso.Some? <==> ex.publishDate.Some?
    ensures ex.publishDate.Some? ==> req.dateIso == Some(ex.publishDate.value.iso)
  {
    SummaryRequest(
      Prefix(ex.text.value, PromptLimit),
      ex.title,
      url,
      if ex.publishDate.Some? then Some(ex.publishDate.value.iso) else None)
  }

  /** The title an entry gets: the extracted title, else the search
      result's title, else "Untitled". */
  function EntryTitle(extracted: Option<string>, searched: Option<string>): (t: string)
    ensures t != ""
    ensures Truthy(extracted) ==> t == extracted.value
    ensures !Truthy(extracted) && Truthy(searched) ==> t == searched.value
    ensures !Truthy(extracted) && !Truthy(searched) ==> t == Untitled
  {
    Or(extracted, Or(searched, Some(Untitled))).value
  }

  /** What one pass of the loop body makes of the search item at position
      `i`: an entry, or nothing when the item has no link, extraction found
      no text, or the summariser raised or answered with nothing. */
  function Survivor(results: seq<SearchItem>, o: Oracles, i: nat): (e: Option<Entry>)
    requires i < |results|
    ensures e.Some? ==> results[i].link == Some(e.value.url) && e.value.url != ""
    ensures e.Some? ==> e.value.title != "" && e.value.summary != ""
  {
    var item := results[i];
    if !Truthy(item.link) then None
    else
      var url := item.link.value;
      var ex := Pipeline(o.pages(i));
      if !Truthy(ex.text) then None
      else
        match o.summarize(i, RequestFor(ex, url))
        case Raises => None
        case Returns(md) =>
          if !Truthy(md) then None
          else Some(Entry(EntryTitle(ex.title, item.title), url, md.value))
  }

  /** An item is kept exactly when it has a truthy link, extraction finds
      text for it, and the summariser returns a truthy summary instead of
      raising; the entry then holds the fallback title, the link and that
      summary. */
  lemma SurvivorDecision(results: seq<SearchItem>, o: Oracles, i: nat)
    requires i < |results|
    ensures var item := results[i];
      var ex := Pipeline(o.pages(i));
      Survivor(results, o, i).Some? <==>
        Truthy(item.link) && Truthy(ex.text) &&
        var md := o.summarize(i, RequestFor(ex, item.link.value));
        md.Returns? && Truthy(md.value)
    ensures var item := results[i];
      var ex := Pipeline(o.pages(i));
      Survivor(results, o, i).Some? ==>
        var md := o.summarize(i, RequestFor(ex, item.link.value));
        Survivor(results, o, i).value == Entry(EntryTitle(ex.title, item.title), item.link.value, md.value.value)
  {
  }

  /** An item for which no extraction strategy's text clears the gate is
      skipped, whatever the summariser would have said. */
  lemma UnextractableSkipped(results: seq<SearchItem>, o: Oracles, i: nat)
    requires i < |results|
    requires forall k :: 0 <= k < StrategyCount ==> !Accepted(Offered(o.pages(i), k))
    ensures Survivor(results, o, i) == None
  {
    AllRejectedIsUnavailable(o.pages(i));
  }

  /** The entries the first `n` search items yield when no quota applies. */
  function Harvest(results: seq<SearchItem>, o: Oracles, n: nat): (s: seq<Entry>)
    requires n <= |results|
    ensures |s| <= n
    ensures forall j :: 0 <= j < |s| ==> s[j].title != "" && s[j].summary != "" && s[j].url != ""
  {
    if n == 0 then []
    else
      var e := Survivor(results, o, n - 1);
      Harvest(results, o, n - 1) + (if e.Some? then [e.value] else [])
  }

  /** The positions of the search items the entries of `Harvest` come from:
      increasing, each entry its item's survivor, and exactly the items that
      survive. */
  function Origins(results: seq<SearchItem>, o: Oracles, n: nat): (idx: seq<nat>)
    requires n <= |results|
    ensures |idx| == |Harvest(results, o, n)|
    ensures forall j :: 0 <= j < |idx| ==>
      idx[j] < n && Survivor(results, o, idx[j]) == Some(Harvest(results, o, n)[j])
    ensures forall j, k :: 0 <= j < k < |idx| ==> idx[j] < idx[k]
    ensures forall i :: 0 <= i < n ==> (Survivor(results, o, i).Some? <==> i in idx)
  {
    HarvestIsKept(results, o, n);
    PositionsValues(Outcomes(results, o), n);
    PositionsIncreasing(Outcomes(results, o), n);
    PositionsExact(Outcomes(results, o), n);
    Positions(Outcomes(results, o), n)
  }

  /** The first `Quota` entries. */
  function Capped(s: seq<Entry>): (r: seq<Entry>)
    ensures |r| == if |s| <= Quota then |s| else Quota
    ensures r <= s
  {
    if |s| <= Quota then s else s[..Quota]
  }

  /** `data.get("query", "")`, which then has `.strip()` applied. */
  function QueryText(query: Field): string
    requires !query.Null?
  {
    if query.Absent? then "" else query.s
  }

  /** The response of the `/search` route for the given keys, request body
      and search results. */
  function Answer(keys: Credentials, query: Field, results: seq<SearchItem>, o: Oracles): Response {
    if !Configured(keys) then Refused(500, MissingKeys)
    else if query.Null? then Crashed
    else if Strip(QueryText(query)) == "" then Refused(400, EmptyQuery)
    else
      var entries := Capped(Harvest(results, o, |results|));
      if |results| > 0 && entries == [] then Refused(500, NothingSummarized)
      else Found(entries)
  }

  /** The first position, from `m` on, at which the harvest of the items
      before it has reached the quota, or the end of the results. */
  function StopFrom(results: seq<SearchItem>, o: Oracles, m: nat): nat
    requires m <= |results|
    decreases |results| - m
  {
    if m == |results| || |Harvest(results, o, m)| >= Quota then m
    else StopFrom(results, o, m + 1)
  }

  /** The `/search` route. `examined` is the number of search items the loop
      body was run on: `StopFrom(results, o, 0)`, the point where the quota
      is reached (see `QuotaStopsLoop`), so no later item is extracted or
      summarised. */
  method Search(keys: Credentials, query: Field, results: seq<SearchItem>, o: Oracles)
    returns (resp: Response, ghost examined: nat)
    ensures resp == Answer(keys, query, results, o)
    ensures resp.Found? || resp == Refused(500, NothingSummarized) ==>
      examined == StopFrom(results, o, 0)
    ensures !(resp.Found? || resp == Refused(500, NothingSummarized)) ==> examined == 0
  {
    examined := 0;
    if !Configured(keys) {
      return Refused(500, MissingKeys), examined;
    }
    if query.Null? {
      return Crashed, examined;
    }
    var q := Strip(QueryText(query));
    if q == "" {
      return Refused(400, EmptyQuery), examined;
    }

    var summaries: seq<Entry> := [];
    var i := 0;
    while i < |results|
      invariant i <= |results|
      invariant summaries == Harvest(results, o, i)
      invariant |summaries| < Quota
    {
      var k := i;
      i := i + 1;
      var item := results[k];
      HarvestStep(results, o, k);
      if !Truthy(item.link) {
        continue;
      }
      var url := item.link.value;
      var ex := ExtractText(o.pages(k));
      if !Truthy(ex.text) {
        continue;
      }
      var md := o.summarize(k, RequestFor(ex, url));
      if md.Raises? || !Truthy(md.value) {
        continue;
      }
      summaries := summaries + [Entry(EntryTitle(ex.title, item.title), url, md.value.value)];
      if |summaries| >= Quota {
        break;
      }
    }
    examined := i;

    LoopExit(results, o, i);
    StopsAt(results, o, 0, i);
    if |results| > 0 && summaries == [] {
      resp := Refused(500, NothingSummarized);
    } else {
      resp := Found(summaries);
    }
  }

  /** Where the loop stops, its entries are the capped harvest of all the
      results. */
  lemma LoopExit(results: seq<SearchItem>, o: Oracles, i: nat)
    requires i <= |results|
    requires |Harvest(results, o, i)| == Quota || (i == |results| && |Harvest(results, o, i)| < Quota)
    ensures Capped(Harvest(results, o, |results|)) == Harvest(results, o, i)
  {
    HarvestGrows(results, o, i, |results|);
  }

  lemma HarvestStep(results: seq<SearchItem>, o: Oracles, k: nat)
    requires k < |results|
    ensures var e := Survivor(results, o, k);
      Harvest(results, o, k + 1) == Harvest(results, o, k) + (if e.Some? then [e.value] else [])
  {
  }

  /** The loop, stopped at `i` either at the end of the results or just
      after the entry that completed the quota, stopped at `StopFrom`. */
  lemma {:induction false} StopsAt(results: seq<SearchItem>, o: Oracles, m: nat, i: nat)
    requires m <= i <= |results|
    requires (i == |results| && |Harvest(results, o, i)| < Quota)
          || (0 < i && |Harvest(results, o, i - 1)| < Quota <= |Harvest(results, o, i)|)
    ensures StopFrom(results, o, m) == i
    decreases i - m
  {
    if m < i {
      HarvestGrows(results, o, m, i - 1);
      StopsAt(results, o, m + 1, i);
    }
  }

  /** The loop stops exactly when the quota is reached: every item before the
      stop was reached while fewer than `Quota` entries existed, and the stop
      is the end of the results or the item that completed the quota. */
  lemma {:induction false} QuotaStopsLoop(results: seq<SearchItem>, o: Oracles, m: nat)
    requires m <= |results| && |Harvest(results, o, m)| <= Quota
    ensures m <= StopFrom(results, o, m) <= |results|
    ensures forall n :: m <= n < StopFrom(results, o, m) ==> |Harvest(results, o, n)| < Quota
    ensures var stop := StopFrom(results, o, m);
      stop == |results| || |Harvest(results, o, stop)| == Quota
    decreases |results| - m
  {
    if m < |results| && |Harvest(results, o, m)| < Quota {
      HarvestStep(results, o, m);
      QuotaStopsLoop(results, o, m + 1);
      assert StopFrom(results, o, m) == StopFrom(results, o, m + 1);
    }
  }

  /** Entries are only ever appended: the harvest of a shorter prefix of the
      results is a prefix of the harvest of a longer one. */
  lemma {:induction false} HarvestGrows(results: seq<SearchItem>, o: Oracles, m: nat, n: nat)
    requires m <= n <= |results|
    ensures Harvest(results, o, m) <= Harvest(results, o, n)
    decreases n - m
  {
    if m < n {
      HarvestGrows(results, o, m + 1, n);
    }
  }

  /** The entries kept once the quota cuts the harvest: at most `Quota`,
      each with a non-empty title and summary, their urls the links of the
      search items they came from, in search order. */
  lemma CappedEntries(results: seq<SearchItem>, o: Oracles)
    ensures var s := Capped(Harvest(results, o, |results|));
      var idx := Origins(results, o, |results|);
      && |s| <= Quota && |s| <= |idx|
      && (forall j :: 0 <= j < |s| ==> s[j].title != "" && s[j].summary != "")
      && (forall j, k :: 0 <= j < k < |s| ==> idx[j] < idx[k])
      && (forall j :: 0 <= j < |s| ==> idx[j] < |results| && results[idx[j]].link == Some(s[j].url))
  {
    var all := Harvest(results, o, |results|);
    var s := Capped(all);
    var idx := Origins(results, o, |results|);
    assert |s| <= |all| && forall j :: 0 <= j < |s| ==> s[j] == all[j];
    forall j | 0 <= j < |s|
      ensures idx[j] < |results| && results[idx[j]].link == Some(s[j].url)
    {
      assert Survivor(results, o, idx[j]) == Some(all[j]);
    }
  }

  /** Every entry of a successful answer: at most `Quota` of them, each with
      a non-empty title, url and summary, their urls the links of the search
      items they came from, in search order. */
  lemma FoundEntries(keys: Credentials, query: Field, results: seq<SearchItem>, o: Oracles)
    requires Answer(keys, query, results, o).Found?
    ensures var s := Answer(keys, query, results, o).entries;
      var idx := Origins(results, o, |results|);
      && |s| <= Quota && |s| <= |idx|
      && (forall j :: 0 <= j < |s| ==> s[j].title != "" && s[j].summary != "")
      && (forall j, k :: 0 <= j < k < |s| ==> idx[j] < idx[k])
      && (forall j :: 0 <= j < |s| ==> idx[j] < |results| && results[idx[j]].link == Some(s[j].url))
  {
    assert Answer(keys, query, results, o).entries == Capped(Harvest(results, o, |results|));
    CappedEntries(results, o);
  }

  /** Every response of the route: a crash exactly when the keys are
      present and the query is `null` (its `.strip()` raises), one of the
      three refusals, or a success holding at most `Quota` entries, the first
      ones of the harvest, and empty only when the search found nothing. */
  lemma AnswerOutcomes(keys: Credentials, query: Field, results: seq<SearchItem>, o: Oracles)
    ensures Answer(keys, query, results, o) == Crashed <==> Configured(keys) && query.Null?
    ensures var r := Answer(keys, query, results, o);
      r.Refused? ==> r == Refused(500, MissingKeys) || r == Refused(400, EmptyQuery) || r == Refused(500, NothingSummarized)
    ensures var r := Answer(keys, query, results, o);
      r.Found? ==>
        && Configured(keys) && query.Str? && !Blank(query.s)
        && |r.entries| <= Quota && r.entries <= Harvest(results, o, |results|)
        && (r.entries == [] ==> results == [])
  {
  }

  /** Validation order: missing keys are reported before the query is
      looked at; with the keys present a blank query is a 400. */
  lemma ValidationOrder(keys: Credentials, query: Field, results: seq<SearchItem>, o: Oracles)
    ensures !Configured(keys) ==> Answer(keys, query, results, o) == Refused(500, MissingKeys)
    ensures Configured(keys) && query.Str? && Blank(query.s) ==>
      Answer(keys, query, results, o) == Refused(400, EmptyQuery)
    ensures Configured(keys) && query.Absent? ==>
      Answer(keys, query, results, o) == Refused(400, EmptyQuery)
  {
  }

  lemma {:induction false} EmptyHarvest(results: seq<SearchItem>, o: Oracles, n: nat)
    requires n <= |results|
    ensures Harvest(results, o, n) == [] <==> forall i :: 0 <= i < n ==> Survivor(results, o, i).None?
  {
    var idx := Origins(results, o, n);
    if Harvest(results, o, n) != [] {
      assert Survivor(results, o, idx[0]).Some?;
    }
  }

  /** The two-tier outcome for a valid request: no search results is a
      successful empty list, while results of which none yields an entry is
      an error. */
  lemma TwoTierOutcome(keys: Credentials, query: Field, results: seq<SearchItem>, o: Oracles)
    requires Configured(keys) && query.Str? && !Blank(query.s)
    ensures results == [] ==> Answer(keys, query, results, o) == Found([])
    ensures Answer(keys, query, results, o) == Refused(500, NothingSummarized)
        <==> |results| > 0 && forall i :: 0 <= i < |results| ==> Survivor(results, o, i).None?
    ensures Answer(keys, query, results, o).Found? || Answer(keys, query, results, o) == Refused(500, NothingSummarized)
  {
    EmptyHarvest(results, o, |results|);
  }

  /** The outcome of the loop body for each search item, in order. */
  function Outcomes(results: seq<SearchItem>, o: Oracles): (outs: seq<Option<Entry>>)
    ensures |outs| == |results|
  {
    seq(|results|, i requires 0 <= i < |results| => Survivor(results, o, i))
  }

  /** The values of the first `n` outcomes that are present, in order. */
  function Kept(outs: seq<Option<Entry>>, n: nat): seq<Entry>
    requires n <= |outs|
  {
    if n == 0 then []
    else Kept(outs, n - 1) + (if outs[n - 1].Some? then [outs[n - 1].value] else [])
  }

  /** The positions of the first `n` outcomes that are present, in order. */
  function Positions(outs: seq<Option<Entry>>, n: nat): (idx: seq<nat>)
    requires n <= |outs|
    ensures |idx| == |Kept(outs, n)|
    ensures forall j :: 0 <= j < |idx| ==> idx[j] < n
  {
    if n == 0 then []
    else Positions(outs, n - 1) + (if outs[n - 1].Some? then [n - 1] else [])
  }

  /** Each position holds the value kept in its place. */
  lemma {:induction false} PositionsValues(outs: seq<Option<Entry>>, n: nat)
    requires n <= |outs|
    ensures forall j :: 0 <= j < |Positions(outs, n)| ==>
      outs[Positions(outs, n)[j]] == Some(Kept(outs, n)[j])
  {
    if n > 0 {
      PositionsValues(outs, n - 1);
    }
  }

  /** The positions are increasing. */
  lemma {:induction false} PositionsIncreasing(outs: seq<Option<Entry>>, n: nat)
    requires n <= |outs|
    ensures forall j, k :: 0 <= j < k < |Positions(outs, n)| ==> Positions(outs, n)[j] < Positions(outs, n)[k]
  {
    if n > 0 {
      PositionsIncreasing(outs, n - 1);
    }
  }

  /** The positions are exactly those of the present outcomes. */
  lemma {:induction false} PositionsExact(outs: seq<Option<Entry>>, n: nat)
    requires n <= |outs|
    ensures forall i :: 0 <= i < n ==> (outs[i].Some? <==> i in Positions(outs, n))
  {
    if n > 0 {
      var before := Positions(outs, n - 1);
      PositionsExact(outs, n - 1);
      assert forall i :: 0 <= i < n - 1 ==> (i in Positions(outs, n) <==> i in before);
    }
  }

  /** The harvest keeps the entries of the items that yield one. */
  lemma {:induction false} HarvestIsKept(results: seq<SearchItem>, o: Oracles, n: nat)
    requires n <= |results|
    ensures Harvest(results, o, n) == Kept(Outcomes(results, o), n)
  {
    if n > 0 {
      HarvestIsKept(results, o, n - 1);
      assert Outcomes(results, o)[n - 1] == Survivor(results, o, n - 1);
    }
  }

  /** When every outcome is present, all of them are kept, in order. */
  lemma {:induction false} KeptAll(outs: seq<Option<Entry>>, n: nat)
    requires n <= |outs|
    requires forall i :: 0 <= i < n ==> outs[i].Some?
    ensures |Kept(outs, n)| == n
    ensures forall j :: 0 <= j < n ==> Kept(outs, n)[j] == outs[j].value
  {
    if n > 0 {
      KeptAll(outs, n - 1);
    }
  }

  lemma HarvestAllSurvive(results: seq<SearchItem>, o: Oracles, n: nat)
    requires n <= |results|
    requires forall i :: 0 <= i < n ==> Survivor(results, o, i).Some?
    ensures |Harvest(results, o, n)| == n
    ensures forall j :: 0 <= j < n ==> Harvest(results, o, n)[j] == Survivor(results, o, j).value
  {
    var outs := Outcomes(results, o);
    HarvestIsKept(results, o, n);
    KeptAll(outs, n);
  }

  /** The quota law: when at least `Quota` items each yield an entry, the
      answer is exactly the first `Quota` of them, in search order. */
  lemma QuotaReached(keys: Credentials, query: Field, results: seq<SearchItem>, o: Oracles)
    requires Configured(keys) && query.Str? && !Blank(query.s)
    requires |results| >= Quota
    requires forall i :: 0 <= i < |results| ==> Survivor(results, o, i).Some?
    ensures Answer(keys, query, results, o).Found?
    ensures |Answer(keys, query, results, o).entries| == Quota
    ensures forall j :: 0 <= j < Quota ==> Answer(keys, query, results, o).entries[j] == Survivor(results, o, j).value
  {
    var all := Harvest(results, o, |results|);
    assert |all| >= Quota && forall j :: 0 <= j < Quota ==> all[j] == Survivor(results, o, j).value by {
      HarvestAllSurvive(results, o, |results|);
    }
    assert Answer(keys, query, results, o) == Found(all[..Quota]);
  }
}
