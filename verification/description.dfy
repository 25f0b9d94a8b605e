/**
 The retry policy of the AI description endpoint. After three request checks,
 the handler calls the language model up to three times: the first attempt uses
 the primary model, later ones the fallback model when one is configured. Each
 failure is classified by its message: "503"/"overloaded" is retried with a
 doubling delay, "timeout" and "quota"/"limit" end the request at once, anything
 else is retried after one second; the last attempt turns a retryable failure
 into an error response.

 The remote call is abstracted as the sequence of outcomes the successive
 attempts would see; the sleeps are recorded instead of performed.
 */
module Description {
  import opened Wrappers
  import opened Text

  const MaxAttempts: nat := 3

  /** The first back-off delay after an overload, in seconds; it doubles after each use. */
  const InitialDelay: nat := 2

  /** The pause after any other retryable failure, in seconds. */
  const GenericDelay: nat := 1

  const PrimaryModel: string := "gemini-1.5-flash"
  const FallbackModel: string := "gemini-1.0-pro-vision-latest"

  /** What one call to the model returned: a reply (possibly with empty text) or a raised error. */
  datatype CallOutcome = Reply(text: string) | Raised(message: string)

  /** The error raised for a reply without text. */
  const EmptyResponse: string := "Empty response from Gemini"

  const OverloadedMessage: string := "Gemini AI is currently overloaded. Please try again in a few minutes."
  const TimeoutMessage: string := "AI description generation timed out. Please try again."
  const QuotaMessage: string := "Daily AI quota exceeded. Please try again tomorrow."
  const FailedPrefix: string := "AI description generation failed: "
  const DisabledMessage: string := "Gemini AI is not available. Please check API key configuration."

  predicate Succeeded(o: CallOutcome) {
    o.Reply? && o.text != ""
  }

  /** The text of the error an unsuccessful call produces. */
  function ErrorText(o: CallOutcome): string {
    match o
    case Reply(_) => EmptyResponse
    case Raised(m) => m
  }

  datatype ErrorClass = Overloaded | TimedOut | QuotaExceeded | Generic

  /** A classification rule: a failure whose lower-cased message contains one of
      the keywords belongs to the class. */
  datatype Rule = Rule(keywords: seq<string>, classified: ErrorClass)

  /** The rules in the order they are tried, so an overload wins over a timeout,
      and a timeout over a quota; a message no rule matches is `Generic`. */
  const Rules: seq<Rule> := [
    Rule(["503", "overloaded"], Overloaded),
    Rule(["timeout"], TimedOut),
    Rule(["quota", "limit"], QuotaExceeded)
  ]

  /** Some keyword occurs in `m`. */
  predicate ContainsAny(m: string, keywords: seq<string>)
    decreases |keywords|
  {
    keywords != [] && (Contains(m, keywords[0]) || ContainsAny(m, keywords[1..]))
  }

  /** The class of the first rule in `rules` that matches `m`. */
  function FirstMatch(m: string, rules: seq<Rule>): ErrorClass
    decreases |rules|
  {
    if rules == [] then Generic
    else if ContainsAny(m, rules[0].keywords) then rules[0].classified
    else FirstMatch(m, rules[1..])
  }

  /** Classifies a failure by its lower-cased message. */
  function ClassifyError(message: string): ErrorClass {
    FirstMatch(Lower(message), Rules)
  }

  /** The rule table read as the chain of keyword tests it stands for. */
  lemma ClassifyErrorByKeywords(message: string)
    ensures var m, c := Lower(message), ClassifyError(message);
      && (c == Overloaded <==> Contains(m, "503") || Contains(m, "overloaded"))
      && (c == TimedOut <==> c != Overloaded && Contains(m, "timeout"))
      && (c == QuotaExceeded <==> c != Overloaded && c != TimedOut && (Contains(m, "quota") || Contains(m, "limit")))
  {
    var m := Lower(message);
    assert Rules[1..][1..][1..] == [];
    assert ContainsAny(m, Rules[0].keywords) <==> Contains(m, "503") || Contains(m, "overloaded");
    assert ContainsAny(m, Rules[1].keywords) <==> Contains(m, "timeout");
    assert ContainsAny(m, Rules[2].keywords) <==> Contains(m, "quota") || Contains(m, "limit");
  }

  function ClassOf(o: CallOutcome): ErrorClass {
    ClassifyError(ErrorText(o))
  }

  /** The model used on attempt `k` (counting from 0). */
  function ModelFor(k: nat, hasFallback: bool): (name: string)
    ensures k == 0 ==> name == PrimaryModel
    ensures k > 0 ==> (name == FallbackModel <==> hasFallback)
  {
    if k > 0 && hasFallback then FallbackModel else PrimaryModel
  }

  /** The response: a description with the model and the 1-based attempt that
      produced it, or an HTTP status with an optional error type and a message. */
  datatype Answer =
    | Described(description: string, modelUsed: string, attempt: nat)
    | Failed(status: nat, errorType: Option<string>, error: string)

  /** The answer, how many model calls were made, and the pauses taken between them. */
  datatype Run = Run(answer: Answer, calls: nat, sleeps: seq<nat>)

  /** The request facts checked before any model call. */
  datatype Request = Request(geminiEnabled: bool, hasImage: bool, filename: string, hasFallback: bool)

  /** A failure that is followed by another attempt: an overload or an unclassified
      error, on any attempt but the last. */
  predicate Retried(o: CallOutcome, k: nat) {
    !Succeeded(o) && ClassOf(o) in {Overloaded, Generic} && k < MaxAttempts - 1
  }

  /** The error response for a failure that ends the loop. */
  function FailureAnswer(o: CallOutcome): (a: Answer)
    ensures a.Failed?
    ensures ClassOf(o) == Overloaded ==> a == Failed(503, Some("overloaded"), OverloadedMessage)
    ensures ClassOf(o) == TimedOut ==> a == Failed(408, Some("timeout"), TimeoutMessage)
    ensures ClassOf(o) == QuotaExceeded ==> a == Failed(429, Some("quota_exceeded"), QuotaMessage)
    ensures ClassOf(o) == Generic ==> a == Failed(500, Some("generation_failed"), FailedPrefix + ErrorText(o))
  {
    match ClassOf(o)
    case Overloaded => Failed(503, Some("overloaded"), OverloadedMessage)
    case TimedOut => Failed(408, Some("timeout"), TimeoutMessage)
    case QuotaExceeded => Failed(429, Some("quota_exceeded"), QuotaMessage)
    case Generic => Failed(500, Some("generation_failed"), FailedPrefix + ErrorText(o))
  }

  /** Attempt `k` and the ones after it; `delay` is the current overload back-off and
      `sleeps` the pauses taken so far. An overload waits `delay` and doubles it, any
      other retried failure waits one second. */
  function AttemptFrom(outcomes: seq<CallOutcome>, hasFallback: bool, k: nat, delay: nat, sleeps: seq<nat>): Run
    requires k < MaxAttempts <= |outcomes|
    requires |sleeps| == k
    decreases MaxAttempts - k
  {
    var o := outcomes[k];
    if Succeeded(o) then
      Run(Described(Strip(o.text), ModelFor(k, hasFallback), k + 1), k + 1, sleeps)
    else if Retried(o, k) then
      var overloaded := ClassOf(o) == Overloaded;
      var run := AttemptFrom(outcomes, hasFallback, k + 1,
                             if overloaded then delay * 2 else delay,
                             sleeps + [if overloaded then delay else GenericDelay]);
      run
    else
      Run(FailureAnswer(o), k + 1, sleeps)
  }

  /** The endpoint: the three request checks, then the attempt loop. */
  function GenerateDescription(req: Request, outcomes: seq<CallOutcome>): (run: Run)
    requires |outcomes| >= MaxAttempts
    ensures !req.geminiEnabled ==> run == Run(Failed(503, None, DisabledMessage), 0, [])
    ensures req.geminiEnabled && !req.hasImage ==> run == Run(Failed(400, None, "No image provided"), 0, [])
    ensures req.geminiEnabled && req.hasImage && req.filename == "" ==>
      run == Run(Failed(400, None, "No image selected"), 0, [])
    ensures run.calls <= MaxAttempts
    ensures req.geminiEnabled && req.hasImage && req.filename != "" ==>
      && 0 < run.calls
      && |run.sleeps| == run.calls - 1
      && (forall j :: 0 <= j < run.calls - 1 ==> !Final(outcomes[j]))
      && (run.answer.Described? <==> Succeeded(outcomes[run.calls - 1]))
      && (run.answer.Described? ==> run.answer.attempt == run.calls)
  {
    if !req.geminiEnabled then Run(Failed(503, None, DisabledMessage), 0, [])
    else if !req.hasImage then Run(Failed(400, None, "No image provided"), 0, [])
    else if req.filename == "" then Run(Failed(400, None, "No image selected"), 0, [])
    else
      AttemptFromMatchesPolicy(outcomes, req.hasFallback, 0);
      AttemptFrom(outcomes, req.hasFallback, 0, InitialDelay, [])
  }

  // ---------------------------------------------------------------------------
  // A declarative description of the same policy, and its agreement with the loop.
  // ---------------------------------------------------------------------------

  /** An outcome that ends the loop wherever it occurs. */
  predicate Final(o: CallOutcome) {
    Succeeded(o) || ClassOf(o) == TimedOut || ClassOf(o) == QuotaExceeded
  }

  /** The attempt at which the loop stops: the first final outcome, or the last attempt. */
  function StopIndex(outcomes: seq<CallOutcome>): (k: nat)
    requires |outcomes| >= MaxAttempts
    ensures k < MaxAttempts
    ensures forall j :: 0 <= j < k ==> !Final(outcomes[j])
    ensures k < MaxAttempts - 1 ==> Final(outcomes[k])
  {
    if Final(outcomes[0]) then 0 else if Final(outcomes[1]) then 1 else 2
  }

  function Pow2(n: nat): nat {
    if n == 0 then 1 else 2 * Pow2(n - 1)
  }

  /** How many of the first `k` outcomes were overloads. */
  function OverloadsBefore(outcomes: seq<CallOutcome>, k: nat): nat
    requires k <= |outcomes|
  {
    if k == 0 then 0
    else OverloadsBefore(outcomes, k - 1) + (if !Succeeded(outcomes[k - 1]) && ClassOf(outcomes[k - 1]) == Overloaded then 1 else 0)
  }

  /** The pause after failed attempt `j`: the n-th overload waits 2^n seconds
      (n counted from 1), any other retried failure one second. */
  function PauseAfter(outcomes: seq<CallOutcome>, j: nat): nat
    requires j < |outcomes|
  {
    if ClassOf(outcomes[j]) == Overloaded then InitialDelay * Pow2(OverloadsBefore(outcomes, j))
    else GenericDelay
  }

  function Pauses(outcomes: seq<CallOutcome>, k: nat): (s: seq<nat>)
    requires k <= |outcomes|
    ensures |s| == k
  {
    if k == 0 then [] else Pauses(outcomes, k - 1) + [PauseAfter(outcomes, k - 1)]
  }

  /** The response the outcome at the stopping attempt `k` leads to. */
  function AnswerAt(outcomes: seq<CallOutcome>, k: nat, hasFallback: bool): Answer
    requires k < |outcomes|
  {
    var o := outcomes[k];
    if Succeeded(o) then Described(Strip(o.text), ModelFor(k, hasFallback), k + 1)
    else FailureAnswer(o)
  }

  /** The loop from attempt `k` on agrees with the declarative policy. */
  lemma {:induction false} AttemptFromMatchesPolicy(outcomes: seq<CallOutcome>, hasFallback: bool, k: nat)
    requires k < MaxAttempts <= |outcomes|
    requires forall j :: 0 <= j < k ==> !Final(outcomes[j])
    ensures var stop := StopIndex(outcomes);
      AttemptFrom(outcomes, hasFallback, k, InitialDelay * Pow2(OverloadsBefore(outcomes, k)), Pauses(outcomes, k))
        == Run(AnswerAt(outcomes, stop, hasFallback), stop + 1, Pauses(outcomes, stop))
    decreases MaxAttempts - k
  {
    var o := outcomes[k];
    var delay := InitialDelay * Pow2(OverloadsBefore(outcomes, k));
    if !Final(o) && k < MaxAttempts - 1 {
      var delay' := InitialDelay * Pow2(OverloadsBefore(outcomes, k + 1));
      assert AttemptFrom(outcomes, hasFallback, k, delay, Pauses(outcomes, k))
          == AttemptFrom(outcomes, hasFallback, k + 1, delay', Pauses(outcomes, k + 1)) by {
        assert Retried(o, k);
        assert Pauses(outcomes, k + 1) == Pauses(outcomes, k) + [PauseAfter(outcomes, k)];
        if ClassOf(o) == Overloaded {
          assert OverloadsBefore(outcomes, k + 1) == OverloadsBefore(outcomes, k) + 1;
        } else {
          assert OverloadsBefore(outcomes, k + 1) == OverloadsBefore(outcomes, k);
        }
      }
      assert StopIndex(outcomes) > k;
      AttemptFromMatchesPolicy(outcomes, hasFallback, k + 1);
    } else {
      assert StopIndex(outcomes) == k;
    }
  }

  /** Once the request checks pass, the endpoint answers from the outcome at the first
      final attempt (or the last one), after exactly that many calls, having paused
      2, 4, ... seconds after overloads and 1 second after other retried failures. */
  lemma GenerateDescriptionMatchesPolicy(req: Request, outcomes: seq<CallOutcome>)
    requires |outcomes| >= MaxAttempts
    requires req.geminiEnabled && req.hasImage && req.filename != ""
    ensures var stop := StopIndex(outcomes);
      GenerateDescription(req, outcomes) == Run(AnswerAt(outcomes, stop, req.hasFallback), stop + 1, Pauses(outcomes, stop))
  {
    AttemptFromMatchesPolicy(outcomes, req.hasFallback, 0);
  }

  /** A success after `k` failed attempts is reported as attempt `k + 1`, from the
      primary model on the first attempt and otherwise from the fallback when one exists. */
  lemma SuccessReportsAttempt(req: Request, outcomes: seq<CallOutcome>, k: nat)
    requires |outcomes| >= MaxAttempts && k < MaxAttempts
    requires req.geminiEnabled && req.hasImage && req.filename != ""
    requires forall j :: 0 <= j < k ==> !Final(outcomes[j])
    requires Succeeded(outcomes[k])
    ensures GenerateDescription(req, outcomes).answer
      == Described(Strip(outcomes[k].text), if k > 0 && req.hasFallback then FallbackModel else PrimaryModel, k + 1)
  {
    StopsAtFirstFinal(outcomes, k);
    var o := outcomes[k];
    assert AnswerAt(outcomes, k, req.hasFallback) == Described(Strip(o.text), ModelFor(k, req.hasFallback), k + 1);
    GenerateDescriptionMatchesPolicy(req, outcomes);
  }

  /** The loop stops at the first final outcome. */
  lemma StopsAtFirstFinal(outcomes: seq<CallOutcome>, k: nat)
    requires |outcomes| >= MaxAttempts && k < MaxAttempts
    requires forall j :: 0 <= j < k ==> !Final(outcomes[j])
    requires Final(outcomes[k])
    ensures StopIndex(outcomes) == k
  {
  }

  /** A timeout or quota error stops the endpoint at that attempt, with 408 or 429. */
  lemma NonRetryableErrorsStopAtOnce(req: Request, outcomes: seq<CallOutcome>, k: nat)
    requires |outcomes| >= MaxAttempts && k < MaxAttempts
    requires req.geminiEnabled && req.hasImage && req.filename != ""
    requires forall j :: 0 <= j < k ==> !Final(outcomes[j])
    requires !Succeeded(outcomes[k]) && ClassOf(outcomes[k]) in {TimedOut, QuotaExceeded}
    ensures GenerateDescription(req, outcomes).calls == k + 1
    ensures GenerateDescription(req, outcomes).answer.Failed?
    ensures GenerateDescription(req, outcomes).answer.status == (if ClassOf(outcomes[k]) == TimedOut then 408 else 429)
  {
    StopsAtFirstFinal(outcomes, k);
    GenerateDescriptionMatchesPolicy(req, outcomes);
  }

  /** Three overloads in a row: pauses of 2 and 4 seconds, then 503. */
  lemma PersistentOverloadBacksOff(req: Request, outcomes: seq<CallOutcome>)
    requires |outcomes| >= MaxAttempts
    requires req.geminiEnabled && req.hasImage && req.filename != ""
    requires forall j :: 0 <= j < MaxAttempts ==> !Succeeded(outcomes[j]) && ClassOf(outcomes[j]) == Overloaded
    ensures GenerateDescription(req, outcomes) == Run(Failed(503, Some("overloaded"), OverloadedMessage), 3, [2, 4])
  {
    GenerateDescriptionMatchesPolicy(req, outcomes);
  }

  /** Two retried failures followed by an unclassified error on the last attempt end
      with 500 and the error's own text, after pausing once after each retried failure. */
  lemma GenericErrorOnLastAttemptFails(req: Request, outcomes: seq<CallOutcome>)
    requires |outcomes| >= MaxAttempts
    requires req.geminiEnabled && req.hasImage && req.filename != ""
    requires !Final(outcomes[0]) && !Final(outcomes[1])
    requires !Succeeded(outcomes[2]) && ClassOf(outcomes[2]) == Generic
    ensures GenerateDescription(req, outcomes)
      == Run(Failed(500, Some("generation_failed"), FailedPrefix + ErrorText(outcomes[2])), 3, Pauses(outcomes, 2))
  {
    GenerateDescriptionMatchesPolicy(req, outcomes);
  }

  /** Whatever the model does, the endpoint waits at most six seconds in total. */
  lemma TotalPauseBounded(req: Request, outcomes: seq<CallOutcome>)
    requires |outcomes| >= MaxAttempts
    ensures var s := GenerateDescription(req, outcomes).sleeps;
      |s| <= 2 && (forall i :: 0 <= i < |s| ==> s[i] in {1, 2, 4})
      && (|s| == 2 ==> s[0] + s[1] <= 6)
  {
    if req.geminiEnabled && req.hasImage && req.filename != "" {
      GenerateDescriptionMatchesPolicy(req, outcomes);
    }
  }
}
