/**
 * Response objects as built by flask_ask's `statement` and `question`
 * helpers and their `reprompt`, `simple_card` and `standard_card` setters.
 * Rendered templates are opaque: a text is the template's name together
 * with the keyword arguments it was rendered with.
 */
module Responses {
  import opened Wrappers

  /** Spoken or displayed text. */
  datatype Text =
    | Template(name: string, args: seq<(string, string)>)  // render_template(name, **args)
    | Plain(s: string)                                     // a literal string

  datatype Card =
    | SimpleCard(title: Text, content: Text)
    | StandardCard(title: Text, text: Text)

  /**
   * A response envelope. `endsSession` is true for a statement and false
   * for a question, which keeps the session open for a follow-up.
   */
  datatype Response = Response(endsSession: bool, speech: Text, reprompt: Option<Text>, card: Option<Card>)
  {
    predicate IsStatement() { endsSession }
    predicate IsQuestion() { !endsSession }

    function WithReprompt(t: Text): Response { this.(reprompt := Some(t)) }
    function WithSimpleCard(title: Text, content: Text): Response { this.(card := Some(SimpleCard(title, content))) }
    function WithStandardCard(title: Text, text: Text): Response { this.(card := Some(StandardCard(title, text))) }
  }

  function Statement(t: Text): Response { Response(true, t, None, None) }
  function Question(t: Text): Response { Response(false, t, None, None) }

  /** render_template(name) with no arguments. */
  function Render(name: string): Text { Template(name, []) }
}
