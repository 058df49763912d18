# GST skill for Alexa, in Dafny

A model of a voice-assistant webhook for India's Goods and Services Tax.
The webhook answers a fixed set of intents. It looks up an item's GST rate in
a table loaded from a CSV file. It reads out the GST headlines of a news feed.
It also returns canned statements and questions built from templates.

Two versions of the skill are modelled:

- `alexa_gst_skill.py` (module `GstSkill`) reloads the rate table at every
  session start and has a news intent.
- `alexa-gst-skill.py` (module `GstSkillLegacy`) fills the table once at
  import time and has no news intent. Its other handlers have the same
  code as the current ones (only their docstrings differ), so it reuses them.

Files:

- `wrappers.dfy`: `Option` and `Result`.
- `responses.dfy`: flask_ask response objects as values. A response is a
  statement (the session ends) or a question. It carries speech text, an
  optional reprompt and an optional simple or standard card. Rendered
  templates stay opaque: a template name plus its keyword arguments.
- `rate_table.dfy`: the CSV rows folded into a dictionary, last write wins
  (`BuildTable`), with lemmas that pin down its keys and values.
- `news.dfy`: decoded JSON values, the outcome of the feed fetch, the
  case-insensitive "gst" search and the headline filter. The filter is an
  imperative loop (`GetGstNews`) proved against a specification function
  (`GstNews`) whose properties are lemmas.
- `gst_skill.dfy`: the `Skill` class. Its `gstRates` field is the
  module-level dictionary that `Init` clears and refills. Also the handlers,
  the request dispatch and lemmas that combine lookups with table loading and
  news with feeds.
- `gst_skill_legacy.dfy`: the import-time load loop, the legacy dispatch and
  how it relates to the current skill.

Inputs from outside the program are parameters:

- the parsed CSV rows, as `seq<Row>`;
- what the HTTP request for the feed produced (`HttpOutcome`: it raised,
  returned no response, or returned a decoded JSON body);
- the fact index that `randint` draws (`FactIndex`, 0 to 9).

The model follows the code as written. In particular:

- Rate lookup is an exact key match. There is no lower-casing, no trimming
  and no lazy reload of an empty table.
- There is no social-aggregator first tier for news.
- Yes and No are no-ops. Yes does not fetch the news again.
- The news answer is a statement, not a question.
- A feed that parses but has no GST title is read out through the `gst_news`
  template with an empty headline string, not the "no news" statement. Only
  a falsy feed (None, empty object, and so on) gets `no_gst_news`. See
  `NoMatchReadsEmptyNews`.
- A missing rate slot reaches `handle_rate` as None. Looking up None raises
  `KeyError`, so it gets the unknown-item question. This is why the slot is
  an `Option<string>`.
- An empty rate field (a CSV row such as `milk,`) is stored as the empty
  string, not None. `handle_rate` therefore answers the `gst_rate` statement
  with an empty rate rather than the unknown-item question: `HandleRate`
  gives a statement for any present `Some` rate, `Some("")` included.

## Model

| member | source | states |
|---|---|---|
| `RateTable.BuildTable` | alexa_gst_skill.py:36-40 | the fold of the rows into a dictionary: every row's item is a key, and the table has no more entries than there are rows |
| `RateTable.BuildTableKeys` | alexa_gst_skill.py:36-40 | the loaded table's keys are exactly the item names that some row supplies |
| `RateTable.BuildTableLastWriteWins` | alexa_gst_skill.py:39-40 | for a repeated item, the rate stored is the one from the last row that names it |
| `RateTable.BuildTableEntryIsLastRow` | alexa_gst_skill.py:39-40 | every table entry is the item and rate of the last row naming that item |
| `GstSkill.Skill.constructor` | alexa_gst_skill.py:26-27 | the rate dictionary starts empty |
| `GstSkill.Skill.Init` | alexa_gst_skill.py:30-40 | clears the dictionary, then inserts the rows in order; the result is the last-write-wins fold of the rows, and no earlier key survives unless a row supplies it again |
| `GstSkill.Skill.StartSession` | alexa_gst_skill.py:49-55 | each session start rebuilds the table from the rows of the rates file |
| `GstSkill.HandleLaunch` | alexa_gst_skill.py:65-82 | a question with the welcome text, the welcome reprompt and a standard card titled "gst" |
| `GstSkill.HandleAbout` | alexa_gst_skill.py:89-105 | a statement of the about text, shown on a simple card under the card title |
| `GstSkill.HandleFact` | alexa_gst_skill.py:108-126 | a statement of the fact template for the drawn index, shown on a simple card |
| `GstSkill.HandleRate` | alexa_gst_skill.py:129-155 | the `gst_rate` statement carrying the item and its rate exactly when the slot is filled and the key is present with a rate; otherwise the unknown-item question |
| `GstSkill.UnknownItemReprompt` | alexa_gst_skill.py:239-248 | a question whose reprompt equals its text, shown on a simple card |
| `GstSkill.ErrorPrompt` | alexa_gst_skill.py:251-260 | a question whose reprompt equals its text, shown on a simple card |
| `GstSkill.HandleNews` | alexa_gst_skill.py:158-185 | the error question exactly when the fetch fails or a truthy feed fails to parse; otherwise a card statement, either `no_gst_news` for a falsy feed or `gst_news` with the filtered headlines |
| `GstSkill.HandleStop` | alexa_gst_skill.py:271-277 | a statement with no reprompt and no card |
| `GstSkill.HandleCancel` | alexa_gst_skill.py:280-286 | a statement with no reprompt and no card |
| `GstSkill.HandleHelp` | alexa_gst_skill.py:289-298 | a question with no reprompt and no card |
| `GstSkill.Dispatch` | alexa_gst_skill.py:65-349 | no response exactly for No, Yes, Previous and StartOver; Stop and Cancel give statements without reprompt; Help gives a question; session end gives an empty statement; any other question is the launch, unknown-item or error question |
| `GstSkill.RateAfterInit` | alexa_gst_skill.py:145-155 | after loading rows, asking for an item answers with the rate of the last row naming it, or with the unknown-item question when that row has no rate |
| `GstSkill.UnknownAfterInit` | alexa_gst_skill.py:145-149 | after loading rows, an item that no row names gets the unknown-item question |
| `GstSkill.NoMatchReadsEmptyNews` | alexa_gst_skill.py:174-185 | a truthy, well-formed feed with no GST title gives the `gst_news` statement with an empty headline string |
| `GstSkill.NewsOfThreeHeadlines` | alexa_gst_skill.py:174-236 | for any three headlines that mention "gst", with any number of headlines without it before, between and after them, the news statement reads the three in feed order joined by "; " |
| `GstSkill.SampleFeedNews` | tests/test_alexa_gst_skill.py:82-96 | the three sample GST headlines, with any number of headlines without "gst" before, between and after them, are read out in feed order joined by "; " |
| `News.Truthy` | alexa_gst_skill.py:177 | Python truthiness of the decoded feed: falsy exactly for None, False, 0, the empty string, the empty list and the empty object |
| `News.FeedItems` | alexa_gst_skill.py:229 | the item member can be walked exactly when the feed and its channel are objects holding the keys and the item member is a list, an empty object or an empty string; a list yields exactly its own elements in order, and an empty object or empty string yields none |
| `News.HasTitle` | alexa_gst_skill.py:230 | an item passes the title lookup and the regular-expression search exactly when it is an object whose "title" member is a string; a non-object, a missing key or a non-string title raises |
| `News.GstNews` | alexa_gst_skill.py:212-236 | get_gst_news as a value: "" for None, otherwise the joined titles or the fixed parse error, never another message |
| `News.GetGstFeed` | alexa_gst_skill.py:188-209 | fails, always with "Failed getting RSS feed", exactly when the request or decoding raised; no response gives None; otherwise the decoded body |
| `News.SearchGst` | alexa_gst_skill.py:230 | the scan finds "gst" exactly when some three consecutive characters spell it, ignoring ASCII case |
| `News.GetGstNews` | alexa_gst_skill.py:212-236 | the appending loop returns exactly the specification's result: the joined GST titles, or the parse error |
| `News.GstTitlesFailureSticks` | alexa_gst_skill.py:228-234 | once an item fails, the whole filter fails; no partial result |
| `News.GstTitlesSucceedsIffTitled` | alexa_gst_skill.py:228-234 | the filter succeeds exactly when every item has a string title |
| `News.GstTitlesSelectsMatches` | alexa_gst_skill.py:229-231 | the kept titles are those of exactly the items whose title mentions "gst", in increasing feed position |
| `News.GstNewsFailsIffMalformed` | alexa_gst_skill.py:227-234 | get_gst_news fails exactly when the feed is not None and the item list cannot be walked or some item lacks a string title; the message is always "Failed parsing RSS feed" |
| `News.GstNewsJoinsMatchingTitles` | alexa_gst_skill.py:226-236 | on a well-formed feed the result is the GST titles, in feed order, joined by "; " |
| `News.GstNewsEmptyIffNoMatch` | alexa_gst_skill.py:226-236 | on a well-formed feed the result is "" exactly when no title mentions "gst" |
| `News.GstNewsOnNoneAndEmpty` | tests/test_alexa_gst_skill.py:98-106 | a None feed gives ""; an empty object raises "Failed parsing RSS feed" |
| `GstSkillLegacy.LoadRates` | alexa-gst-skill.py:24-29 | the import-time loop yields the last-write-wins fold of the rows; its keys are exactly the rows' items |
| `GstSkillLegacy.Dispatch` | alexa-gst-skill.py:53-214 | no response exactly for No, Yes, Previous and StartOver; Stop and Cancel give statements without reprompt; Help gives a question; session end gives an empty statement; a rate request gives a statement exactly when the key is present with a rate |
| `GstSkillLegacy.AgreesWithCurrentSkill` | alexa-gst-skill.py:53-214 | on every request it handles, the earlier skill answers exactly as the current one |
| `GstSkillLegacy.NoneRateLikeMissingKey` | alexa-gst-skill.py:104-115 | a key with a None rate gets the same answer as a missing key: the unknown-item question |
| `GstSkillLegacy.RateAfterLoad` | alexa-gst-skill.py:104-113 | after the import-time load, an item whose last row has a rate gets the `gst_rate` statement with that rate |

## Left out

- Flask and flask_ask wiring: the decorators that register the handlers, `app.run` and the environment toggle for request verification. `Dispatch` stands in for the routing the decorators set up.
- Template rendering: templates are opaque names with their keyword arguments. The template texts are not part of this model.
- Network I/O in the feed fetch. Only its outcome is modelled, as an `HttpOutcome` parameter.
- Reading `gst-rates.csv` with csv.DictReader. The parsed rows are a parameter. The file's contents are not part of this model, so the concrete rates checked in the rates test (milk 0%, coal 5%, mobile 12%, cars 28%) are not restated. The byte-order-mark column name of the current version is simply "the key column".
- The `rss.json` sample feed is not part of this model. `SampleFeedNews` takes the sample's headlines that do not mention "gst" as four parameters: those before, between and after the three GST headlines.
- Requests are handled one at a time. `Init`'s clear-then-refill of the shared dictionary is modelled as one step. Under a threaded server, a concurrent rate lookup can see an empty or half-filled table and answer the unknown-item question for a listed item; the model cannot show this.
- `randint` in the fact handler: the drawn index is the `FactIndex` parameter.
- Logging, `datetime.now()` and the subprocess and HTTP smoke test. The legacy `start_session` only logs, so it is not modelled: the legacy table is what `LoadRates` returned at import.
- SearchGst: matching is ASCII case-insensitive. That is Python 2's IGNORECASE without `re.UNICODE`. Python 3's IGNORECASE on str also folds some non-ASCII characters (for example U+017F, the long s, matches "s"), and that is not modelled.
- GstNews: Python 3 string semantics are modelled, where `str()` on the joined titles (alexa_gst_skill.py:236) returns them unchanged. The source also runs under Python 2, where titles decoded from JSON are `unicode`. There, `str()` raises UnicodeEncodeError when a kept title holds a non-ASCII character, and `handle_news` answers the error question (:182-183). The model answers the `gst_news` statement for such a feed instead.
- HandleRate: under Python 2, formatting a non-ASCII unknown item into the log message (alexa_gst_skill.py:148, alexa-gst-skill.py:108) raises UnicodeEncodeError inside the except block, so the handler raises instead of asking the unknown-item question. The model follows Python 3, where the log line cannot fail.
- Exceptions from `render_template` itself are not modelled. Only the fetch and parse failures inside the news handler's try block reach the error question.
