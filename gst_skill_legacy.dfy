/**
 * The earlier GST skill (alexa-gst-skill.py). Its rate table is filled once,
 * when the module is imported, and its session start does not reload it.
 * It has no news intent. Its remaining handlers have the same code as
 * those of the current skill and are shared with it.
 */
module GstSkillLegacy {
  import opened Wrappers
  import opened Responses
  import opened RateTable
  import opened News
  import GstSkill

  /** The requests the earlier skill registers a handler for: all but the news intent. */
  type Request = r: GstSkill.Request | !r.NewsIntent? witness GstSkill.Launch

  /** The import-time loop that inserts each row of the rates file, in order, into an empty dictionary. */
  method LoadRates(rows: seq<Row>) returns (gstRates: Table)
    ensures gstRates == BuildTable(rows)
    ensures gstRates.Keys == ItemsOf(rows)
  {
    gstRates := map[];
    for i := 0 to |rows|
      invariant gstRates == BuildTable(rows[..i])
    {
      assert rows[..i + 1][..i] == rows[..i];
      gstRates := gstRates[rows[i].item := rows[i].rate];
    }
    assert rows[..|rows|] == rows;
    BuildTableKeys(rows);
  }

  /** The response each request gets, None for the handlers that do nothing. */
  function Dispatch(rates: Table, request: Request, factIndex: GstSkill.FactIndex): (r: Option<Response>)
    ensures r.None? <==>
      request in {GstSkill.NoIntent, GstSkill.YesIntent, GstSkill.PreviousIntent, GstSkill.StartOverIntent}
    ensures request in {GstSkill.StopIntent, GstSkill.CancelIntent} ==>
      r.Some? && r.value.IsStatement() && r.value.reprompt == None
    ensures request == GstSkill.HelpIntent ==> r.Some? && r.value.IsQuestion()
    ensures request == GstSkill.SessionEnded ==> r == Some(Statement(Plain("")))
    ensures request.RateIntent? ==>
      r.Some? && (r.value.IsStatement() <==>
        request.item.Some? && request.item.value in rates && rates[request.item.value].Some?)
  {
    match request
    case Launch => Some(GstSkill.HandleLaunch())
    case AboutIntent => Some(GstSkill.HandleAbout())
    case FactIntent => Some(GstSkill.HandleFact(factIndex))
    case RateIntent(item) => Some(GstSkill.HandleRate(rates, item))
    case StopIntent => Some(GstSkill.HandleStop())
    case CancelIntent => Some(GstSkill.HandleCancel())
    case HelpIntent => Some(GstSkill.HandleHelp())
    case NoIntent => None
    case YesIntent => None
    case PreviousIntent => None
    case StartOverIntent => None
    case SessionEnded => Some(Statement(Plain("")))
  }

  /** On every request both skills handle, they answer alike. */
  lemma AgreesWithCurrentSkill(rates: Table, request: Request, factIndex: GstSkill.FactIndex, http: HttpOutcome)
    ensures Dispatch(rates, request, factIndex) == GstSkill.Dispatch(rates, request, factIndex, http)
  {
  }

  /**
   * A key whose rate is None gets the same answer as a key that is not in
   * the table: the unknown-item question, which repeats itself as reprompt.
   */
  lemma NoneRateLikeMissingKey(rates: Table, item: string, factIndex: GstSkill.FactIndex)
    requires item in rates && rates[item] == None
    ensures Dispatch(rates, GstSkill.RateIntent(Some(item)), factIndex) ==
            Dispatch(rates - {item}, GstSkill.RateIntent(Some(item)), factIndex)
    ensures Dispatch(rates, GstSkill.RateIntent(Some(item)), factIndex) == Some(GstSkill.UnknownItemReprompt())
  {
  }

  /**
   * After the import-time load, asking for the item of the last row that
   * names it answers with that row's rate when it has one.
   */
  lemma RateAfterLoad(rows: seq<Row>, i: int, factIndex: GstSkill.FactIndex)
    requires IsLastRowFor(rows, i) && rows[i].rate.Some?
    ensures Dispatch(BuildTable(rows), GstSkill.RateIntent(Some(rows[i].item)), factIndex) ==
            Some(GstSkill.RateStatement(rows[i].item, rows[i].rate.value))
  {
    GstSkill.RateAfterInit(rows, i);
  }
}
