/**
 * The GST skill (alexa_gst_skill.py): the rate table that every session
 * start reloads, the intent handlers and the response each request gets.
 */
module GstSkill {
  import opened Wrappers
  import opened Responses
  import opened RateTable
  import opened News

  /** The requests the skill registers a handler for. */
  datatype Request =
    | Launch
    | AboutIntent
    | FactIntent
    | RateIntent(item: Option<string>)  // the Item slot; None when the user left it unfilled
    | NewsIntent
    | StopIntent
    | CancelIntent
    | HelpIntent
    | NoIntent
    | YesIntent
    | PreviousIntent
    | StartOverIntent
    | SessionEnded

  const NUM_FACTS := 10

  /** The value randint(0, NUM_FACTS - 1) drew. */
  type FactIndex = i: int | 0 <= i < NUM_FACTS

  /** The module-level rate dictionary and the session-start hook that refills it. */
  class Skill {
    var gstRates: Table

    /** At import the dictionary is empty. */
    constructor ()
      ensures gstRates == map[]
    {
      gstRates := map[];
    }

    /**
     * Clears the dictionary, then inserts the rows of the rates file in
     * order. No key from before the call survives unless a row supplies it.
     */
    method Init(rows: seq<Row>)
      modifies this
      ensures gstRates == BuildTable(rows)
      ensures gstRates.Keys == ItemsOf(rows)
    {
      gstRates := map[];
      for i := 0 to |rows|
        invariant gstRates == BuildTable(rows[..i])
      {
        assert rows[..i + 1][..i] == rows[..i];
        gstRates := gstRates[rows[i].item := rows[i].rate];
      }
      assert rows[..|rows|] == rows;
      BuildTableKeys(rows);
    }

    /** Every new session reloads the table from the rates file. */
    method StartSession(rows: seq<Row>)
      modifies this
      ensures gstRates == BuildTable(rows)
    {
      Init(rows);
    }
  }

  // ----- handlers -----

  const CARD_TITLE := Render("card_title")

  /** A question that re-asks its own text and shows it on a simple card. */
  ghost predicate IsSelfReprompt(r: Response)
  {
    r.IsQuestion() && r.reprompt == Some(r.speech) && r.card == Some(SimpleCard(CARD_TITLE, r.speech))
  }

  /** A statement that shows its own text on a simple card. */
  ghost predicate IsCardStatement(r: Response)
  {
    r.IsStatement() && r.reprompt == None && r.card == Some(SimpleCard(CARD_TITLE, r.speech))
  }

  function HandleLaunch(): (r: Response)
    ensures r.IsQuestion() && r.speech == Render("welcome")
    ensures r.reprompt == Some(Render("welcome_re"))
    ensures r.card == Some(StandardCard(Plain("gst"), Render("welcome_card")))
  {
    Question(Render("welcome")).WithReprompt(Render("welcome_re")).WithStandardCard(Plain("gst"), Render("welcome_card"))
  }

  function HandleAbout(): (r: Response)
    ensures IsCardStatement(r) && r.speech == Render("about")
  {
    var aboutText := Render("about");
    Statement(aboutText).WithSimpleCard(CARD_TITLE, aboutText)
  }

  /** The name of the fact template with the given index. */
  function FactTemplate(index: FactIndex): string
  {
    "gst_fact_" + [('0' as int + index) as char]
  }

  function HandleFact(index: FactIndex): (r: Response)
    ensures IsCardStatement(r) && r.speech == Render(FactTemplate(index))
  {
    var factText := Render(FactTemplate(index));
    Statement(factText).WithSimpleCard(CARD_TITLE, factText)
  }

  function UnknownItemReprompt(): (r: Response)
    ensures IsSelfReprompt(r) && r.speech == Render("unknown_item_reprompt")
  {
    var questionText := Render("unknown_item_reprompt");
    Question(questionText).WithReprompt(questionText).WithSimpleCard(CARD_TITLE, questionText)
  }

  function ErrorPrompt(): (r: Response)
    ensures IsSelfReprompt(r) && r.speech == Render("error_prompt")
  {
    var questionText := Render("error_prompt");
    Question(questionText).WithReprompt(questionText).WithSimpleCard(CARD_TITLE, questionText)
  }

  /** The statement announcing `rate` for `item`. */
  function RateStatement(item: string, rate: string): Response
  {
    var rateText := Template("gst_rate", [("item", item), ("rate", rate)]);
    Statement(rateText).WithSimpleCard(CARD_TITLE, rateText)
  }

  /**
   * The rate statement exactly when the item is a key of the table with a
   * rate; the unknown-item question when the slot is empty, the key is
   * missing, or its rate is None.
   */
  function HandleRate(rates: Table, item: Option<string>): (r: Response)
    ensures r.IsStatement() <==> item.Some? && item.value in rates && rates[item.value].Some?
    ensures r.IsStatement() ==>
      IsCardStatement(r) && r.speech == Template("gst_rate", [("item", item.value), ("rate", rates[item.value].value)])
    ensures r.IsQuestion() ==> r == UnknownItemReprompt()
  {
    match item
    case None => UnknownItemReprompt()
    case Some(key) =>
      if key !in rates then UnknownItemReprompt()
      else
        match rates[key]
        case None => UnknownItemReprompt()
        case Some(rate) => RateStatement(key, rate)
  }

  /**
   * Three outcomes: a falsy feed gives the no-news statement, a feed that
   * parses gives the news statement, and any fetch or parse failure gives
   * the error question.
   */
  function HandleNews(http: HttpOutcome): (r: Response)
    ensures r == ErrorPrompt() <==>
      GetGstFeed(http).Failure? || (Truthy(GetGstFeed(http).value) && GstNews(GetGstFeed(http).value).Failure?)
    ensures r != ErrorPrompt() ==> IsCardStatement(r)
    ensures GetGstFeed(http).Success? && !Truthy(GetGstFeed(http).value) ==> r.speech == Render("no_gst_news")
    ensures GetGstFeed(http).Success? && Truthy(GetGstFeed(http).value) && GstNews(GetGstFeed(http).value).Success? ==>
      r.speech == Template("gst_news", [("news", GstNews(GetGstFeed(http).value).value)])
  {
    match GetGstFeed(http)
    case Failure(_) => ErrorPrompt()
    case Success(rssJson) =>
      if !Truthy(rssJson) then
        var newsText := Render("no_gst_news");
        Statement(newsText).WithSimpleCard(CARD_TITLE, newsText)
      else
        match GstNews(rssJson)
        case Failure(_) => ErrorPrompt()
        case Success(news) =>
          var newsText := Template("gst_news", [("news", news)]);
          Statement(newsText).WithSimpleCard(CARD_TITLE, newsText)
  }

  function HandleStop(): (r: Response)
    ensures r.IsStatement() && r.reprompt == None && r.card == None && r.speech == Render("stop_bye")
  {
    Statement(Render("stop_bye"))
  }

  function HandleCancel(): (r: Response)
    ensures r.IsStatement() && r.reprompt == None && r.card == None && r.speech == Render("cancel_bye")
  {
    Statement(Render("cancel_bye"))
  }

  function HandleHelp(): (r: Response)
    ensures r.IsQuestion() && r.reprompt == None && r.card == None && r.speech == Render("help_text")
  {
    Question(Render("help_text"))
  }

  /**
   * The response each request gets, None for the handlers that do nothing.
   * `rates` is the rate dictionary, `factIndex` what randint drew and
   * `http` what fetching the news feed produced.
   */
  function Dispatch(rates: Table, request: Request, factIndex: FactIndex, http: HttpOutcome): (r: Option<Response>)
    ensures r.None? <==> request in {NoIntent, YesIntent, PreviousIntent, StartOverIntent}
    ensures request in {StopIntent, CancelIntent} ==> r.Some? && r.value.IsStatement() && r.value.reprompt == None
    ensures request == HelpIntent ==> r.Some? && r.value.IsQuestion()
    ensures request == SessionEnded ==> r == Some(Statement(Plain("")))
    ensures r.Some? && r.value.IsQuestion() ==>
      request in {Launch, HelpIntent} || r.value in {UnknownItemReprompt(), ErrorPrompt()}
  {
    match request
    case Launch => Some(HandleLaunch())
    case AboutIntent => Some(HandleAbout())
    case FactIntent => Some(HandleFact(factIndex))
    case RateIntent(item) => Some(HandleRate(rates, item))
    case NewsIntent => Some(HandleNews(http))
    case StopIntent => Some(HandleStop())
    case CancelIntent => Some(HandleCancel())
    case HelpIntent => Some(HandleHelp())
    case NoIntent => None
    case YesIntent => None
    case PreviousIntent => None
    case StartOverIntent => None
    case SessionEnded => Some(Statement(Plain("")))
  }

  // ----- rate lookups after a session start -----

  /**
   * After Init(rows), asking for the item of the last row that names it
   * answers with that row's rate, or with the unknown-item question when
   * that row has none.
   */
  lemma RateAfterInit(rows: seq<Row>, i: int)
    requires IsLastRowFor(rows, i)
    ensures HandleRate(BuildTable(rows), Some(rows[i].item)) ==
      if rows[i].rate.Some? then RateStatement(rows[i].item, rows[i].rate.value) else UnknownItemReprompt()
  {
    BuildTableLastWriteWins(rows, i);
  }

  /** After Init(rows), an item no row names gets the unknown-item question. */
  lemma UnknownAfterInit(rows: seq<Row>, item: string)
    requires item !in ItemsOf(rows)
    ensures HandleRate(BuildTable(rows), Some(item)) == UnknownItemReprompt()
  {
    BuildTableKeys(rows);
  }

  /**
   * A feed that parses but has no title mentioning "gst" is read out as
   * news with an empty headline list, not as the no-news statement, which
   * only a falsy feed gets.
   */
  lemma NoMatchReadsEmptyNews(feed: Json)
    requires Truthy(feed) && FeedItems(feed).Some?
    requires forall i :: 0 <= i < |FeedItems(feed).value| ==> HasTitle(FeedItems(feed).value[i])
    requires forall i :: 0 <= i < |FeedItems(feed).value| ==> !MentionsGst(TitleOf(FeedItems(feed).value[i]))
    ensures HandleNews(Body(feed)).speech == Template("gst_news", [("news", "")])
  {
    GstNewsEmptyIffNoMatch(feed);
  }

  /**
   * The shape of the news test: whatever headlines without "gst" surround
   * them, the three that mention it are read out in feed order, joined
   * by "; ".
   */
  lemma {:induction false} NewsOfThreeHeadlines(
    t0: string, t2: string, t3: string,
    pre: seq<string>, mid1: seq<string>, mid2: seq<string>, post: seq<string>)
    requires MentionsGst(t0) && MentionsGst(t2) && MentionsGst(t3)
    requires NoneMentionGst(pre) && NoneMentionGst(mid1) && NoneMentionGst(mid2) && NoneMentionGst(post)
    ensures HandleNews(Body(FeedOf(pre + [t0] + mid1 + [t2] + mid2 + [t3] + post))).speech ==
      Template("gst_news", [("news", t0 + "; " + t2 + "; " + t3)])
  {
    var titles := pre + [t0] + mid1 + [t2] + mid2 + [t3] + post;
    FeedOfWalksTitles(titles);
    GstFilterOfThree(t0, t2, t3, pre, mid1, mid2, post);
    JoinOfThree(t0, t2, t3);
  }

  lemma {:induction false} GstFilterOfThree(
    t0: string, t2: string, t3: string,
    pre: seq<string>, mid1: seq<string>, mid2: seq<string>, post: seq<string>)
    requires MentionsGst(t0) && MentionsGst(t2) && MentionsGst(t3)
    requires NoneMentionGst(pre) && NoneMentionGst(mid1) && NoneMentionGst(mid2) && NoneMentionGst(post)
    ensures GstFilter(pre + [t0] + mid1 + [t2] + mid2 + [t3] + post) == [t0, t2, t3]
  {
    GstFilterOfNone(pre);
    GstFilterOfNone(mid1);
    GstFilterOfNone(mid2);
    GstFilterOfNone(post);
    GstFilterOfOne(t0);
    GstFilterOfOne(t2);
    GstFilterOfOne(t3);
    var s1 := pre + [t0];
    GstFilterAppend(pre, [t0]);
    assert GstFilter(s1) == [t0];
    var s2 := s1 + mid1;
    GstFilterAppend(s1, mid1);
    assert GstFilter(s2) == [t0];
    var s3 := s2 + [t2];
    GstFilterAppend(s2, [t2]);
    assert GstFilter(s3) == [t0, t2];
    var s4 := s3 + mid2;
    GstFilterAppend(s3, mid2);
    assert GstFilter(s4) == [t0, t2];
    var s5 := s4 + [t3];
    GstFilterAppend(s4, [t3]);
    assert GstFilter(s5) == [t0, t2, t3];
    GstFilterAppend(s5, post);
    assert GstFilter(s5 + post) == [t0, t2, t3];
  }

  lemma JoinOfThree(t0: string, t2: string, t3: string)
    ensures Join([t0, t2, t3], "; ") == t0 + "; " + t2 + "; " + t3
  {
    assert [t0, t2, t3][..2] == [t0, t2] && [t0, t2][..1] == [t0];
    assert Join([t0], "; ") == t0;
    assert Join([t0, t2], "; ") == t0 + "; " + t2;
  }

  /**
   * The sample headlines of the news test, with any number of headlines
   * without "gst" before, between and after them. (The literals are split
   * into pieces only so that the verifier reads their characters.)
   */
  lemma SampleFeedNews(pre: seq<string>, mid1: seq<string>, mid2: seq<string>, post: seq<string>)
    requires NoneMentionGst(pre) && NoneMentionGst(mid1) && NoneMentionGst(mid2) && NoneMentionGst(post)
    ensures
      var t0 := "September inflation may hit six- " + "month high on " + "GST and public sector pay rise";
      var t2 := "Reduced " + "GST on yarn to help textile sector: " + "Exporter body";
      var t3 := "Import of oil-drilling rigs kept out of " + "GST purview";
      HandleNews(Body(FeedOf(pre + [t0] + mid1 + [t2] + mid2 + [t3] + post))).speech ==
        Template("gst_news", [("news", t0 + "; " + t2 + "; " + t3)])
  {
    var t0 := "September inflation may hit six- " + "month high on " + "GST and public sector pay rise";
    var t2 := "Reduced " + "GST on yarn to help textile sector: " + "Exporter body";
    var t3 := "Import of oil-drilling rigs kept out of " + "GST purview";
    assert IsGstAt(t0, 47);
    assert IsGstAt(t2, 8);
    assert IsGstAt(t3, 40);
    NewsOfThreeHeadlines(t0, t2, t3, pre, mid1, mid2, post);
  }
}
