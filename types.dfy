/**
 * The records exchanged between the generation client and the views
 * (types.ts).  JavaScript numbers are modelled as integers.
 */
module Types {
  import opened Wrappers

  datatype RoastStats = RoastStats(sanity: int, efficiency: int, style: int)

  /** The character card produced in roast mode. */
  datatype RoastCard = RoastCard(
    archetype: string,
    score: int,
    emoji: string,
    imagePrompt: string,
    themeColor: string,
    quote: string,
    stats: RoastStats,
    details: string)

  /**
   * The rewrite produced in fix mode.  The `mode` field is declared as the
   * literal 'fix', but a parsed reply is never checked against that
   * declaration, so any string may arrive here.
   */
  datatype FixResult = FixResult(mode: string, fixedCode: string, explanation: string, newRank: string)

  /**
   * What `JSON.parse(text) as RoastResponse` can hand back.  The cast is
   * unchecked, so a reply is any object: `card` is present when it carries
   * an `archetype` key (and is then read as a card) and `fix` is present
   * when it carries a `mode` key (and is then read as a fix result).  Either,
   * both or neither may be present.
   */
  datatype RoastResponse = RoastResponse(card: Option<RoastCard>, fix: Option<FixResult>)

  /** A well-shaped card reply and a well-shaped fix reply. */
  function CardReply(c: RoastCard): RoastResponse {
    RoastResponse(Some(c), None)
  }

  function FixReply(f: FixResult): RoastResponse {
    RoastResponse(None, Some(f))
  }

  /** The `'archetype' in result` test. */
  predicate HasArchetype(r: RoastResponse) {
    r.card.Some?
  }

  /** The `'mode' in result && result.mode === 'fix'` test. */
  predicate IsFixResult(r: RoastResponse) {
    r.fix.Some? && r.fix.value.mode == "fix"
  }

  /** A thrown error; an absent or empty message is the empty string. */
  datatype Exception = Exception(message: string)

  datatype Status = Idle | Loading | Success | Error

  /** The main view's state record. */
  datatype RoastState = RoastState(status: Status, data: Option<RoastCard>, errorMessage: Option<string>)
}
