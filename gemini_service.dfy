/**
 * The generation client (services/geminiService.ts): the choice between
 * roast mode and fix mode, the request it sends, and what it makes of the
 * service's answer.  The service itself is an input: an `Outcome`.
 */
module GeminiService {
  import opened Wrappers
  import opened Strings
  import opened Types

  /** The prefix that selects fix mode. */
  const FixMarker := "MODE: FIX"
  const ModelName := "gemini-3-pro-preview"
  const EmptyReplyMessage := "Empty response from mainframe."

  datatype Mode = RoastMode | FixMode

  /** The mode is fix exactly when the input begins with the marker. */
  function ModeOf(input: string): (m: Mode)
    ensures m == FixMode <==> StartsWith(input, FixMarker)
  {
    if StartsWith(input, FixMarker) then FixMode else RoastMode
  }

  // ----- the response schemas -----

  datatype Kind =
    | StringKind
    | IntegerKind
    | EnumKind(values: seq<string>)
    | ObjectKind(schema: ObjectSchema)

  datatype Property = Property(name: string, kind: Kind)

  datatype ObjectSchema = ObjectSchema(properties: seq<Property>, required: seq<string>)

  function Names(ps: seq<Property>): (r: seq<string>)
    ensures |r| == |ps| && forall k :: 0 <= k < |ps| ==> r[k] == ps[k].name
  {
    if ps == [] then [] else [ps[0].name] + Names(ps[1..])
  }

  /** Every property is required, and only properties are. */
  predicate RequiresAll(s: ObjectSchema) {
    s.required == Names(s.properties)
  }

  const StatsSchema := ObjectSchema(
    [Property("sanity", IntegerKind), Property("efficiency", IntegerKind), Property("style", IntegerKind)],
    ["sanity", "efficiency", "style"])

  const RoastSchema := ObjectSchema(
    [ Property("archetype", StringKind), Property("score", IntegerKind), Property("emoji", StringKind),
      Property("image_prompt", StringKind), Property("theme_color", StringKind), Property("quote", StringKind),
      Property("stats", ObjectKind(StatsSchema)), Property("details", StringKind) ],
    ["archetype", "score", "emoji", "image_prompt", "theme_color", "quote", "stats", "details"])

  const FixSchema := ObjectSchema(
    [ Property("mode", EnumKind(["fix"])), Property("fixed_code", StringKind),
      Property("explanation", StringKind), Property("new_rank", StringKind) ],
    ["mode", "fixed_code", "explanation", "new_rank"])

  /** The three schemas ask for every field they describe. */
  lemma SchemasRequireAll()
    ensures RequiresAll(StatsSchema) && RequiresAll(RoastSchema) && RequiresAll(FixSchema)
    ensures |RoastSchema.required| == 8 && |StatsSchema.required| == 3 && |FixSchema.required| == 4
    ensures RoastSchema.properties[6].kind == ObjectKind(StatsSchema)
    ensures FixSchema.properties[0] == Property("mode", EnumKind(["fix"]))
  {
    StatsRequiresAll();
    RoastRequiresAll();
    FixRequiresAll();
  }

  /** A schema whose required list names its properties in order requires them all. */
  lemma RequiresAllOf(s: ObjectSchema)
    requires |s.required| == |s.properties|
    requires forall k :: 0 <= k < |s.required| ==> s.required[k] == s.properties[k].name
    ensures RequiresAll(s)
  {
    var n := Names(s.properties);
    assert |n| == |s.required|;
  }

  lemma StatsRequiresAll()
    ensures RequiresAll(StatsSchema)
  {
    RequiresAllOf(StatsSchema);
  }

  lemma RoastRequiresAll()
    ensures RequiresAll(RoastSchema)
  {
    RequiresAllOf(RoastSchema);
  }

  lemma FixRequiresAll()
    ensures RequiresAll(FixSchema)
  {
    RequiresAllOf(FixSchema);
  }

  // ----- the request -----

  /** The system instruction, by persona; its text is not modelled. */
  datatype Persona = GitMad | CleanCodeArchitect

  /** The model, the contents and the configuration of the call. */
  datatype Request = Request(
    model: string,
    contents: string,
    persona: Persona,
    temperatureTenths: nat,
    mimeType: string,
    schema: ObjectSchema)

  /** What generateRoast asks for: the input unchanged, with the mode's persona and schema. */
  function BuildRequest(input: string): (r: Request)
    ensures r.model == ModelName && r.contents == input
    ensures r.temperatureTenths == 9 && r.mimeType == "application/json"
    ensures StartsWith(input, FixMarker) ==> r.persona == CleanCodeArchitect && r.schema == FixSchema
    ensures !StartsWith(input, FixMarker) ==> r.persona == GitMad && r.schema == RoastSchema
  {
    match ModeOf(input)
    case FixMode => Request(ModelName, input, CleanCodeArchitect, 9, "application/json", FixSchema)
    case RoastMode => Request(ModelName, input, GitMad, 9, "application/json", RoastSchema)
  }

  // ----- the answer -----

  /**
   * What the call produced: it threw, or it answered with `response.text`
   * (absent or present) and, for a present text, what `JSON.parse` makes of
   * it: a reply or a thrown syntax error.
   */
  datatype Outcome =
    | CallFailed(error: Exception)
    | NoText
    | Text(text: string, parsed: Result<RoastResponse, Exception>)

  /** The value or the error of the `try` block. */
  function Attempt(outcome: Outcome): (r: Result<RoastResponse, Exception>)
    ensures r.Ok? <==> outcome.Text? && outcome.text != [] && outcome.parsed.Ok?
    ensures r.Ok? ==> r.value == outcome.parsed.value
    ensures outcome.CallFailed? ==> r == Err(outcome.error)
    ensures (outcome.NoText? || (outcome.Text? && outcome.text == [])) ==> r == Err(Exception(EmptyReplyMessage))
    ensures outcome.Text? && outcome.text != [] && outcome.parsed.Err? ==> r == outcome.parsed
  {
    match outcome
    case CallFailed(e) => Err(e)
    case NoText => Err(Exception(EmptyReplyMessage))
    case Text(text, parsed) => if text == [] then Err(Exception(EmptyReplyMessage)) else parsed
  }

  /** The placeholder card of a failed roast. */
  const FallbackCard := RoastCard(
    "System Failure", 0, "\U{1F480}",
    "A glitchy computer skull, cyberpunk style, red and black, error screen background",
    "#FF0000", "The code was so bad it killed the API.", RoastStats(0, 0, 0),
    "Connection severed. The mainframe rejected your request.")

  /**
   * generateRoast: a successful attempt hands its reply back as it is; a
   * failed one is re-raised in fix mode and replaced by the fallback card in
   * roast mode.
   */
  function GenerateRoast(input: string, outcome: Outcome): (r: Result<RoastResponse, Exception>)
    ensures Attempt(outcome).Ok? ==> r == Attempt(outcome)
    ensures Attempt(outcome).Err? && StartsWith(input, FixMarker) ==> r == Attempt(outcome)
    ensures Attempt(outcome).Err? && !StartsWith(input, FixMarker) ==> r == Ok(CardReply(FallbackCard))
  {
    match Attempt(outcome)
    case Ok(reply) => Ok(reply)
    case Err(e) => if ModeOf(input) == FixMode then Err(e) else Ok(CardReply(FallbackCard))
  }

  /** Roast mode never throws, and every roast-mode failure shows the fallback card. */
  lemma RoastModeNeverThrows(input: string, outcome: Outcome)
    requires !StartsWith(input, FixMarker)
    ensures GenerateRoast(input, outcome).Ok?
    ensures !(outcome.Text? && outcome.text != [] && outcome.parsed.Ok?) ==>
      GenerateRoast(input, outcome) == Ok(CardReply(FallbackCard))
  {
  }

  /** Fix mode throws exactly when the attempt failed, and throws what the attempt threw. */
  lemma FixModeReraises(input: string, outcome: Outcome)
    requires StartsWith(input, FixMarker)
    ensures GenerateRoast(input, outcome) == Attempt(outcome)
    ensures GenerateRoast(input, outcome).Err? <==> !(outcome.Text? && outcome.text != [] && outcome.parsed.Ok?)
  {
  }

  /** An empty reply text counts as a failure in both modes. */
  lemma EmptyTextIsFailure(input: string, parsed: Result<RoastResponse, Exception>)
    ensures GenerateRoast(input, Text([], parsed)) ==
      if StartsWith(input, FixMarker) then Err(Exception(EmptyReplyMessage)) else Ok(CardReply(FallbackCard))
  {
  }

  /** The placeholder passes as a card: it has an archetype, a zero score and zero stats. */
  lemma FallbackCardShape()
    ensures HasArchetype(CardReply(FallbackCard)) && !IsFixResult(CardReply(FallbackCard))
    ensures FallbackCard.archetype == "System Failure" && FallbackCard.score == 0
    ensures FallbackCard.themeColor == "#FF0000" && FallbackCard.stats == RoastStats(0, 0, 0)
  {
  }
}
