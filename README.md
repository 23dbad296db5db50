# Research agent request handlers, modelled in Dafny

This project models the decision logic of the research agent's Flask
application (`app.py`): the article-extraction fallback chain
`extract_text`, the body of the `/search` route and the story that the
`/export` route builds before it renders a PDF. The libraries, services and
clock these handlers call are not modelled. Their outcomes are inputs:
- `Sources` holds what each extraction strategy's library returns, or that it raises.
- `Oracles` holds what extraction sees for each search result and what the summariser answers.
- The list of search results is a parameter.
- The timestamp text of the report is a parameter.

- `Text.dfy`: the Python value semantics the handlers rely on.
  - Truthiness of `None`-or-`str` values and the `or` operator.
  - Foreign calls that raise or return (`Call`).
  - JSON `.get` on a key that is missing, `null` or a string (`Field`).
  - `str.strip()` over the `str.isspace()` characters.
  - `str.split(sep)` and `sep.join(parts)`.
  - Taking a prefix of a string.
- `Extractor.dfy`: `extract_text`.
  - `ExtractText` is an imperative method over the locals `title`, `text` and `publish_date`, with the early returns of the source.
  - It is proved equal to `Pipeline`, one uniform pass over the four strategies: newspaper3k, trafilatura, readability, BeautifulSoup.
  - The gating, priority, total-failure and metadata-merge laws are proved about `Pipeline`.
- `Orchestrator.dfy`: the `/search` route.
  - `Search` is a method with the source's `while` loop, its `continue`s and its `break` at the quota of 6 entries.
  - It is proved equal to `Answer`. `Answer` validates, keeps the entries of every surviving item (`Harvest`), caps them at the quota and picks the two-tier outcome.
  - `Search` returns a ghost count of the items the loop examined. The quota lemmas show that this count stops at the item that completed the quota.
- `Export.dfy`: the `/export` route up to `doc.build(story)`.
  - The story is a sequence of abstract elements: report title, generated line, spacer, numbered heading, url line, paragraph.
  - `ExportStory` is the method with the item loop (`AppendBlocks`, `AppendBlock`) and the summary-line loop (`AppendParagraphs`).
  - It is proved equal to `Exported`, and the report's outline and paragraph laws are proved about that function.

## Model

| member | source | states |
|---|---|---|
| Text.Strip | app.py:232-233 | `strip()` leaves no whitespace at either end, never lengthens the string, and gives "" exactly when the string is all whitespace |
| Text.StripSlice | app.py:232-233 | the stripped string is a contiguous slice of the original: all that is cut off before and after it is whitespace |
| Text.StripStripped | app.py:233 | stripping a string without surrounding whitespace leaves it unchanged |
| Text.Split | app.py:231 | `split("\n")` always returns at least one part |
| Text.SplitPartsFree | app.py:231 | no part of a split contains the separator |
| Text.JoinSplit | app.py:231 | joining the parts of a split with the separator gives the original string back |
| Text.SplitNoSeparator | app.py:231 | a string without the separator splits into itself alone |
| Text.SplitJoin | app.py:231 | splitting a join of separator-free parts gives the parts back |
| Text.Prefix | app.py:143 | `text[:8000]` is the prefix of the text whose length is the smaller of 8000 and the text's length: the whole text when it is short enough |
| Text.FalsyValues | app.py:168-186 | the falsy values of an optional string are exactly `None` and the empty string |
| Text.OrTruthy | app.py:188 | `a or b` is truthy exactly when `a` or `b` is |
| Extractor.Run | app.py:65-121 | a text returned by the chain clears the 300-character gate and comes with newspaper3k's date; when no text is returned the result is `(None, None, None)` |
| Extractor.ExtractText | app.py:65-121 | the strategies in source order over the three locals, with early returns, compute exactly `Pipeline` |
| Extractor.TryTitle | app.py:69-119 | only newspaper3k replaces a carried title, and only with a truthy one; trafilatura keeps it; readability and BeautifulSoup only fill in a falsy one, BeautifulSoup only once its text cleared the gate; readability's `short_title()` is assigned before the parse, and when it raises no text is offered |
| Extractor.TryText | app.py:69-119 | newspaper3k raising offers no text; trafilatura, readability and BeautifulSoup offer text only when their download or fetch returned something truthy, and the text offered is what their extractor returned; conversely a truthy fetch whose extractor returns offers exactly that (for readability, once a title is carried or `short_title()` returned) |
| Extractor.PipelineCases | app.py:65-121 | `extract_text` returns `(None, None, None)`, or the text and title of the first strategy whose text clears the gate, with newspaper3k's date |
| Extractor.PipelineGate | app.py:78-121 | any returned text has at least 300 characters; a result without text has neither a title nor a date |
| Extractor.RejectedPrefixSkipped | app.py:65-121 | strategies whose text fails the gate are passed over: the chain continues as if it started at the next one, with the title they carried |
| Extractor.FirstAcceptedWins | app.py:65-121 | the first strategy, in the order newspaper3k, trafilatura, readability, BeautifulSoup, whose text clears the gate supplies the text and title; later strategies do not affect the result |
| Extractor.FirstEarlierAccepted | app.py:65-121 | if any strategy's text clears the gate, the result is not `(None, None, None)` |
| Extractor.AllRejectedIsUnavailable | app.py:65-121 | the result is `(None, None, None)` exactly when no strategy's text clears the gate, dropping any title or date gathered on the way |
| Extractor.LaterStrategiesKeepTitle | app.py:83-116 | trafilatura never changes the title; readability and BeautifulSoup never replace a truthy one |
| Extractor.RunKeepsTitle | app.py:83-117 | from trafilatura on, a truthy carried title is the title of any successful result |
| Extractor.NewspaperTitleSticks | app.py:74-117 | a truthy newspaper3k title, even one whose text was rejected, is the title of every successful result |
| Extractor.DateOnlyFromNewspaper | app.py:76-117 | the returned date is newspaper3k's whenever text is returned, whichever strategy supplied the text, and `None` otherwise |
| Extractor.RunAgrees | app.py:83-121 | from a given strategy on, the chain reads only the outcomes of that strategy and of the ones after it; the BeautifulSoup step reads only its own |
| Extractor.NewspaperRaiseIsEmptyArticle | app.py:70-81 | newspaper3k raising gives the same result as an article with no title, text or date |
| Extractor.DownloadRaiseIsNoDownload | app.py:84-91 | a trafilatura download that raises gives the same result as one that returns nothing |
| Extractor.ReadabilityTitleSurvivesRaise | app.py:94-117 | the title readability assigns before its text extraction raises survives, and a later BeautifulSoup success on an untitled page returns it |
| Orchestrator.RequestFor | app.py:176-180 | the summariser receives the first 8000 characters of the text (all of it when shorter), the extracted title, the item's url, and the publish date's ISO text exactly when a publish date exists |
| Orchestrator.EntryTitle | app.py:188 | an entry's title is the extracted title if truthy, else the search result's title if truthy, else "Untitled"; it is never empty |
| Orchestrator.Survivor | app.py:167-191 | an item yields an entry only when it has a link, its url is that link, and its title and summary are non-empty |
| Orchestrator.SurvivorDecision | app.py:167-191 | an item yields an entry exactly when it has a truthy link, extraction returns text for it, and the summariser returns a truthy summary instead of raising; the entry is then the fallback title, the link and that summary |
| Orchestrator.UnextractableSkipped | app.py:171-173 | an item for which no extraction strategy's text clears the gate is skipped, whatever the summariser would answer |
| Orchestrator.Harvest | app.py:167-191 | without a quota the loop keeps at most one entry per item, each with a non-empty title, url and summary |
| Orchestrator.Origins | app.py:167-191 | each kept entry comes from an item that yields it; the originating positions increase; an item's position is there exactly when the item yields an entry |
| Orchestrator.Search | app.py:154-201 | the route's response is `Answer`; when the loop runs to its end or to the quota, it has examined exactly the items up to `StopFrom`, and none after |
| Orchestrator.LoopExit | app.py:167-193 | where the loop stops, its entries are the whole harvest capped at 6 |
| Orchestrator.Capped | app.py:192-193 | the quota keeps the first entries, as many as the smaller of 6 and the number found |
| Orchestrator.StopsAt | app.py:192-193 | the loop stops at the end of the results, or right after the item that completed the quota |
| Orchestrator.QuotaStopsLoop | app.py:192-193 | every item before the stop is reached with fewer than 6 entries, and the stop is at the end of the results or at exactly 6 entries: no item after the 6th entry is extracted or summarised |
| Orchestrator.HarvestGrows | app.py:187-191 | entries are only appended: the harvest of fewer items is a prefix of the harvest of more |
| Orchestrator.CappedEntries | app.py:167-193 | the capped entries number at most 6, have non-empty titles and summaries, and have urls equal to the links of their originating items, in search order |
| Orchestrator.FoundEntries | app.py:167-201 | every successful answer has at most 6 entries, each with a non-empty title and summary, with urls equal to the links of their originating items, in search order |
| Orchestrator.AnswerOutcomes | app.py:154-201 | the route crashes exactly when the keys are present and the query is `null`; every refusal is one of the three the route defines; a success needs the keys and a non-blank query, and holds at most 6 entries, the first ones of the harvest, empty only when the search found nothing |
| Orchestrator.ValidationOrder | app.py:156-162 | missing keys give a 500 before the query is looked at; with the keys present, a blank or missing query gives a 400 |
| Orchestrator.EmptyHarvest | app.py:167-191 | the harvest is empty exactly when no item yields an entry |
| Orchestrator.TwoTierOutcome | app.py:195-201 | for a valid request: no search results give an empty success; the 500 "none could be summarized" occurs exactly when there are results and none yields an entry; every other answer is a success |
| Orchestrator.HarvestAllSurvive | app.py:167-191 | when every item yields an entry, the harvest holds those entries, one per item, in order |
| Orchestrator.QuotaReached | app.py:192-193 | when at least 6 items each yield an entry, the answer is exactly the first 6 of them, in search order |
| Export.Paragraphs | app.py:231-233 | the summary lines give at most one paragraph each |
| Export.LineOrigins | app.py:231-233 | the paragraphs come from increasing line positions, each paragraph is the stripped line at its position, and the positions are exactly those of the non-blank lines |
| Export.RenderablePrefix | app.py:224-230 | an item with a `null` summary spoils every longer prefix of the items |
| Export.ExportedCrashed | app.py:230-231 | an item with a `null` summary makes the handler raise |
| Export.ExportedCases | app.py:202-234 | the route answers 400 exactly for an empty item list, raises exactly when some item's summary is `null`, and otherwise returns a story that opens with the header, whose title is the query |
| Export.ExportStory | app.py:202-234 | the route's outcome is `Exported`: a 400 for no items, a raise for a `null` summary, otherwise the header and the blocks in item order |
| Export.AppendBlocks | app.py:224-234 | the item loop succeeds exactly when no summary is `null`, and then appends the block of every item, numbered from 1 |
| Export.AppendBlock | app.py:225-234 | the loop body appends the numbered heading, the url line when the url is truthy, a spacer, the summary paragraphs and a closing spacer |
| Export.AppendParagraphs | app.py:231-233 | the summary-line loop appends the paragraphs of the lines and nothing else |
| Export.OnlyEmptyRejected | app.py:210-211 | the request is refused with 400 exactly when it has no items |
| Export.BlockOutline | app.py:225-234 | a block holds exactly one heading, its own, and a url line exactly when the item's url is truthy |
| Export.BlockShape | app.py:225-234 | a block opens with the item's numbered heading and closes with a spacer, and has three elements more than the summary's paragraphs, four with a url line |
| Export.BlockParagraphs | app.py:225-234 | the only paragraphs of a block are the summary's paragraphs |
| Export.RenderedDefault | app.py:219-225 | a key's default is shown exactly when the key is missing, holds the default, or is `null` with "None" as the default; a present string, even an empty one, is shown as it is |
| Export.SummaryDefault | app.py:230-233 | an item without a `summary` key gets the single paragraph "No summary available."; that text is used exactly when the key is missing or holds it |
| Export.NumberedAt | app.py:224-225 | item `k` (from 0) is given heading number `k + 1` with its title, or "Untitled" when the title key is missing |
| Export.BlocksHeadings | app.py:224-225 | the headings of the blocks are the numbered headings of the items, in order |
| Export.BlocksUrls | app.py:226-227 | the url lines of the blocks are the urls of the items whose url is truthy, in order |
| Export.HeaderOutline | app.py:218-221 | the report header holds neither headings nor url lines |
| Export.StoryOutline | app.py:218-234 | the story has one heading per item, numbered from 1 with the item's title or "Untitled", and url lines exactly for the truthy urls, in order |
| Export.PdfRenderable | app.py:210-234 | a report is produced only for a non-empty item list with no `null` summary |
| Export.ReportOutline | app.py:218-234 | every report the route produces has one numbered heading per item and url lines exactly for the truthy urls, in item order |
| Export.ParagraphsClean | app.py:231-233 | every paragraph is non-empty, with no whitespace at either end |
| Export.CleanLinesKept | app.py:231-233 | lines that are already non-blank and stripped become one paragraph each, unchanged and in order |
| Export.NoParagraphsIffBlank | app.py:231-233 | a summary gives no paragraph exactly when all its lines are blank |
| Export.SummaryRecovered | app.py:230-233 | when every summary line is non-blank and stripped, joining the paragraphs with newlines gives the summary back: no line is lost or reordered |

## Left out

- HTTP and scraping are inputs of type `Sources`: `fetch_html`, newspaper3k, trafilatura, readability and BeautifulSoup (including `decompose`, `get_text` and the `lxml` parser). Each strategy sees its own fetch outcome, because the source calls `fetch_html` twice.
- `google_search` is not modelled. Its result list, which is empty on any error, is the `results` parameter.
- `summarize_with_gemini` is an oracle on the request it would send. The prompt wording and the missing-key `RuntimeError` inside it are not modelled; a raise is a `Raises` outcome.
- Configuration, Flask routing, JSON decoding of the request body, `print` logging and `index` are not modelled.
- Configuration: keys are given as `Credentials`.
- Request body: it is taken to be a JSON object. Its keys are missing, `null` or strings. Numbers, lists and objects in those keys are not modelled.
- `items` in `/export`: it is taken to be a list of objects. A missing or `null` `items` is the empty list, which the handler rejects the same way.
- reportlab's `Paragraph` parses its text as inline markup when it is constructed (app.py:219, 225, 227, 233), inside the item loop and not at `doc.build`. A query, title, url or summary line holding invalid markup can make the route raise there; the model's `Pdf` outcome takes every such text to be accepted.
- `doc.build`, reportlab's layout, styles and inline markup, and the PDF response are not modelled. The story's elements carry the values placed in them, not their rendered markup.
- `datetime.utcnow()` and `isoformat()` are not modelled. The report timestamp is a string parameter, and a publish date is its ISO text.
- Text.Strip: whitespace is the fixed list of characters for which `str.isspace()` holds; no Unicode database is consulted.
- Orchestrator.Search: the count of examined items is a ghost out-parameter; that later items are never extracted or summarised is stated through it, not through the oracles' call log.
