/**
 * The redemption panel (components/RedemptionArc.tsx): the purify request,
 * the idle / loading / success machine that accepts only fix results, and
 * the typewriter that reveals the fixed code one character per tick.  Each
 * tick of the 10 ms interval is one call of `Tick`.
 */
module RedemptionArc {
  import opened Wrappers
  import opened Strings
  import Types
  import GeminiService

  const PurifyPrefix := "MODE: FIX \n\n"

  /** The text handlePurify sends to the client. */
  function PurifyRequest(originalCode: string): (r: string)
    ensures |r| == |PurifyPrefix| + |originalCode|
    ensures r[..|PurifyPrefix|] == PurifyPrefix && r[|PurifyPrefix|..] == originalCode
  {
    PurifyPrefix + originalCode
  }

  /** Every purify request takes the fix branch of the client. */
  lemma PurifyTakesFixMode(originalCode: string)
    ensures StartsWith(PurifyRequest(originalCode), GeminiService.FixMarker)
    ensures GeminiService.BuildRequest(PurifyRequest(originalCode)).schema == GeminiService.FixSchema
  {
    var r := PurifyRequest(originalCode);
    assert r[..9] == r[..|PurifyPrefix|][..9] == GeminiService.FixMarker;
  }

  /** The guard of handlePurify: a reply with `mode` equal to "fix". */
  predicate Accepts(result: Result<Types.RoastResponse, Types.Exception>) {
    result.Ok? && Types.IsFixResult(result.value)
  }

  /**
   * A purify attempt is accepted exactly when the service produced a reply
   * whose `mode` is "fix"; any failure of the call is re-raised and rejected.
   */
  lemma PurifyAcceptance(originalCode: string, outcome: GeminiService.Outcome)
    ensures var result := GeminiService.GenerateRoast(PurifyRequest(originalCode), outcome);
      var attempt := GeminiService.Attempt(outcome);
      Accepts(result) <==> attempt.Ok? && Types.IsFixResult(attempt.value)
  {
    PurifyTakesFixMode(originalCode);
    GeminiService.FixModeReraises(PurifyRequest(originalCode), outcome);
  }

  datatype PurifyStatus = Idle | Loading | Success

  /** The length of the prefix shown after `tick` ticks: the first tick shows the empty one. */
  function Shown(tick: nat): nat {
    if tick == 0 then 0 else tick - 1
  }

  class Redemption {
    const originalCode: string
    var status: PurifyStatus
    var fixResult: Option<Types.FixResult>
    var displayedCode: string
    /** The interval's counter `i`. */
    var tick: nat
    /** Whether the interval is running. */
    var revealing: bool

    /**
     * A result is held exactly on success; before it nothing is displayed;
     * during the reveal the display is the prefix shown so far; once the
     * reveal is over (or never ran, for empty code) it is the whole code.
     */
    predicate Valid()
      reads this
    {
      && (status == Success <==> fixResult.Some?)
      && (status != Success ==> displayedCode == [] && !revealing)
      && (status == Success && revealing ==>
            tick <= |fixResult.value.fixedCode| && displayedCode == fixResult.value.fixedCode[..Shown(tick)])
      && (status == Success && !revealing ==> displayedCode == fixResult.value.fixedCode)
    }

    constructor(code: string)
      ensures Valid() && originalCode == code && status == Idle && fixResult.None? && displayedCode == []
    {
      originalCode := code;
      status := Idle;
      fixResult := None;
      displayedCode := [];
      tick := 0;
      revealing := false;
    }

    /** The purify button exists until success and is disabled while loading. */
    predicate ButtonShown()
      reads this
    {
      status != Success
    }

    predicate ButtonDisabled()
      reads this
    {
      status == Loading
    }

    predicate ShowsResult()
      reads this
    {
      status == Success && fixResult.Some?
    }

    /** The start of handlePurify: loading, with an empty display. */
    method Purify() returns (request: string)
      requires Valid() && ButtonShown() && !ButtonDisabled()
      modifies this
      ensures request == PurifyRequest(originalCode)
      ensures status == Loading && displayedCode == [] && fixResult == old(fixResult) && Valid()
    {
      status := Loading;
      displayedCode := [];
      request := PurifyRequest(originalCode);
    }

    /**
     * The end of handlePurify, and the typewriter effect it triggers: an
     * accepted result is stored and, when its code is not empty, the reveal
     * starts from tick 0; anything else returns to idle for a retry.
     */
    method PurifyDone(result: Result<Types.RoastResponse, Types.Exception>)
      requires Valid() && status == Loading
      modifies this
      ensures Valid() && displayedCode == []
      ensures Accepts(result) ==>
        && status == Success && fixResult == result.value.fix
        && revealing == (result.value.fix.value.fixedCode != []) && (revealing ==> tick == 0)
      ensures !Accepts(result) ==> status == Idle && fixResult == old(fixResult)
    {
      if Accepts(result) {
        fixResult := result.value.fix;
        status := Success;
        if fixResult.value.fixedCode != [] {
          tick := 0;
          revealing := true;
        }
      } else {
        status := Idle;
      }
    }

    /** One interval tick: show the prefix of length `i`, then stop once `i` passes the length. */
    method Tick()
      requires Valid() && revealing
      modifies this
      ensures status == old(status) && fixResult == old(fixResult) && Valid()
      ensures displayedCode == fixResult.value.fixedCode[..old(tick)]
      ensures tick == old(tick) + 1 && (revealing <==> tick <= |fixResult.value.fixedCode|)
    {
      var code := fixResult.value.fixedCode;
      displayedCode := code[..tick];
      tick := tick + 1;
      if tick > |code| {
        revealing := false;
      }
    }

    /**
     * The whole reveal: the ticks display the prefixes of the fixed code of
     * lengths 0, 1, ..., N in that order and then stop, leaving the code.
     */
    method RunReveal() returns (frames: seq<string>)
      requires Valid() && revealing && tick == 0
      modifies this
      ensures status == Success && fixResult == old(fixResult) && Valid() && !revealing
      ensures displayedCode == fixResult.value.fixedCode
      ensures |frames| == |fixResult.value.fixedCode| + 1
      ensures forall k :: 0 <= k < |frames| ==> frames[k] == fixResult.value.fixedCode[..k]
    {
      frames := [];
      ghost var code := fixResult.value.fixedCode;
      while revealing
        invariant Valid() && status == Success && fixResult == old(fixResult)
        invariant tick == |frames| && tick <= |code| + 1
        invariant revealing <==> tick <= |code|
        invariant forall k :: 0 <= k < |frames| ==> frames[k] == code[..k]
        decreases |code| + 1 - tick
      {
        Tick();
        frames := frames + [displayedCode];
      }
    }
  }

  /** Success is terminal for the control: the result shows and the button is gone. */
  lemma SuccessHidesButton(r: Redemption)
    requires r.Valid() && r.status == Success
    ensures r.ShowsResult() && !r.ButtonShown()
  {
  }
}
