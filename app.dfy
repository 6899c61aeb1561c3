/**
 * The main view (App.tsx): the session state that a submission drives from
 * `loading` to `success` or `error`, and the guards that decide what is
 * rendered.  The 2-second minimum delay and the join with it are one step.
 */
module App {
  import opened Wrappers
  import opened Strings
  import opened Types
  import opened GeminiService

  const UnexpectedMessage := "Unexpected response type"
  const UnknownFailureMessage := "Unknown system failure."

  /** A card is held exactly on success, and a message only on error. */
  predicate Consistent(s: RoastState) {
    (s.data.Some? <==> s.status == Success) && (s.errorMessage.Some? ==> s.status == Error)
  }

  /** The message shown for a thrown error: its own, or the default when it is empty. */
  function Message(e: Exception): (m: string)
    ensures m != []
    ensures e.message != [] ==> m == e.message
    ensures e.message == [] ==> m == UnknownFailureMessage
  {
    if e.message == [] then UnknownFailureMessage else e.message
  }

  /** The state handleRoast leaves once the joined result is in. */
  function AfterJoin(joined: Result<RoastResponse, Exception>): (s: RoastState)
    ensures Consistent(s)
    ensures s.status == Success <==> joined.Ok? && HasArchetype(joined.value)
    ensures s.status == Success ==> s.data == joined.value.card && s.errorMessage.None?
    ensures joined.Ok? && !HasArchetype(joined.value) ==> s == RoastState(Error, None, Some(UnexpectedMessage))
    ensures joined.Err? ==> s == RoastState(Error, None, Some(Message(joined.error)))
  {
    match joined
    case Ok(result) =>
      if HasArchetype(result) then RoastState(Success, result.card, None)
      else RoastState(Error, None, Some(Message(Exception(UnexpectedMessage))))
    case Err(e) => RoastState(Error, None, Some(Message(e)))
  }

  // ----- the rendering guards -----

  predicate InputIsLoading(s: RoastState) {
    s.status == Loading
  }

  predicate ShowsErrorBanner(s: RoastState) {
    s.status == Error
  }

  predicate ShowsCard(s: RoastState) {
    s.data.Some?
  }

  /** In a consistent state the card shows exactly on success, never beside the banner. */
  lemma GuardsAgree(s: RoastState)
    requires Consistent(s)
    ensures ShowsCard(s) <==> s.status == Success
    ensures !(ShowsCard(s) && ShowsErrorBanner(s)) && !(ShowsCard(s) && InputIsLoading(s))
  {
  }

  /** The session: the submitted code and the state record. */
  class Session {
    var currentCode: string
    var state: RoastState

    predicate Valid()
      reads this
    {
      Consistent(state)
    }

    constructor()
      ensures Valid() && currentCode == [] && state == RoastState(Idle, None, None)
    {
      currentCode := [];
      state := RoastState(Idle, None, None);
    }

    /** The start of handleRoast, from any prior status. */
    method Submit(code: string)
      modifies this
      ensures currentCode == code && state == RoastState(Loading, None, None) && Valid()
    {
      currentCode := code;
      state := state.(status := Loading, errorMessage := None, data := None);
    }

    /** The end of handleRoast; the submitted code stays recorded. */
    method Settle(joined: Result<RoastResponse, Exception>)
      modifies this
      ensures state == AfterJoin(joined) && currentCode == old(currentCode) && Valid()
    {
      state := AfterJoin(joined);
    }

    /** A whole submission against a given service outcome. */
    method HandleRoast(code: string, outcome: Outcome)
      modifies this
      ensures currentCode == code && state == AfterJoin(GenerateRoast(code, outcome)) && Valid()
    {
      Submit(code);
      var joined := GenerateRoast(code, outcome);
      Settle(joined);
    }
  }

  /**
   * A roast-mode submission ends in error only when the service answered
   * with a reply that has no archetype; every failure of the call shows the
   * fallback card instead.
   */
  lemma RoastSubmissionOutcome(code: string, outcome: Outcome)
    requires !StartsWith(code, FixMarker)
    ensures var s := AfterJoin(GenerateRoast(code, outcome));
      && (s.status == Error <==> Attempt(outcome).Ok? && !HasArchetype(Attempt(outcome).value))
      && (Attempt(outcome).Err? ==> s == RoastState(Success, Some(FallbackCard), None))
  {
    RoastModeNeverThrows(code, outcome);
  }

  /**
   * Code that begins with the fix marker takes the fix branch of the client,
   * so a well-shaped fix reply ends the session in error with the
   * "Unexpected response type" message, and a failure ends it in error with
   * the failure's own message.
   */
  lemma FixPrefixedSubmission(code: string, outcome: Outcome)
    requires StartsWith(code, FixMarker)
    ensures Attempt(outcome).Ok? && Attempt(outcome).value.card.None? ==>
      AfterJoin(GenerateRoast(code, outcome)) == RoastState(Error, None, Some(UnexpectedMessage))
    ensures Attempt(outcome).Err? ==>
      AfterJoin(GenerateRoast(code, outcome)) == RoastState(Error, None, Some(Message(Attempt(outcome).error)))
    ensures forall f :: Attempt(outcome) == Ok(FixReply(f)) ==>
      AfterJoin(GenerateRoast(code, outcome)) == RoastState(Error, None, Some(UnexpectedMessage))
  {
    FixModeReraises(code, outcome);
  }
}
