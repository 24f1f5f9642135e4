/**
 * `ContributeActivity`: the ordered checks before a contribution is sent,
 * the freshness level sent, the bounded retry of the upload, and what the
 * screen does with the outcome.
 */
module ContributeScreen {
  import opened Wrappers
  import opened Ints
  import opened Status

  /** The freshness radio buttons; `None` is `checkedRadioButtonId == -1`. */
  datatype RadioButton = RadioFresh | RadioRipe | RadioOverripe | RadioSpoiled | OtherButton(id: int)

  /** The form as `validateAndSubmit` reads it. */
  datatype Form = Form(selectedImagePath: Option<string>, fruitType: string, checkedFreshness: Option<RadioButton>, consent: bool)

  /** The toast `validateAndSubmit` shows, or the decision to upload. */
  datatype Validation = ImageRequired | FruitTypeRequired | FreshnessRequired | ConsentRequired | Submit

  /** `validateAndSubmit`: image, then fruit type, then freshness, then consent; only the first failing check is reported. */
  function Validate(f: Form): (v: Validation)
    ensures v == Submit <==> f.selectedImagePath.Some? && f.fruitType != [] && f.checkedFreshness.Some? && f.consent
    ensures v == ImageRequired <==> f.selectedImagePath.None?
    ensures v == FruitTypeRequired <==> f.selectedImagePath.Some? && f.fruitType == []
    ensures v == FreshnessRequired <==> f.selectedImagePath.Some? && f.fruitType != [] && f.checkedFreshness.None?
    ensures v == ConsentRequired <==> f.selectedImagePath.Some? && f.fruitType != [] && f.checkedFreshness.Some? && !f.consent
  {
    if f.selectedImagePath.None? then ImageRequired
    else if f.fruitType == [] then FruitTypeRequired
    else if f.checkedFreshness.None? then FreshnessRequired
    else if !f.consent then ConsentRequired
    else Submit
  }

  /** The `freshnessLevel` sent for the checked radio button. */
  function FreshnessLevel(checked: Option<RadioButton>): string {
    match checked
    case Some(RadioFresh) => "Fresh"
    case Some(RadioRipe) => "Ripe"
    case Some(RadioOverripe) => "Overripe"
    case Some(RadioSpoiled) => "Spoiled"
    case _ => ""
  }

  predicate IsFreshnessButton(b: RadioButton) {
    b == RadioFresh || b == RadioRipe || b == RadioOverripe || b == RadioSpoiled
  }

  /** Each of the four buttons sends its own non-empty level; anything else sends "". */
  lemma FreshnessLevelDistinct(a: Option<RadioButton>, b: Option<RadioButton>)
    ensures FreshnessLevel(a) != "" <==> a.Some? && IsFreshnessButton(a.value)
    ensures FreshnessLevel(a) != "" && FreshnessLevel(a) == FreshnessLevel(b) ==> a == b
    ensures FreshnessLevel(a) in {"Fresh", "Ripe", "Overripe", "Spoiled", ""}
  {
  }

  /** The upload call's outcome on one attempt: a response body, or an exception. */
  datatype Attempt = Responded(success: bool, message: Option<string>) | Threw(e: Throwable)

  datatype Upload = Uploaded | UploadFailed(e: Throwable)

  /** A retry run: the outcome, how many calls were made, and the `delay`s in between, in milliseconds. */
  datatype Retry = Retry(result: Upload, attempts: nat, delays: seq<int>)

  const MAX_ATTEMPTS: nat := 3

  /** The exception an attempt ends with, if it does not succeed; `success = false` becomes an `IOException`. */
  function AttemptFailure(a: Attempt): Option<Throwable> {
    match a
    case Threw(e) => Some(e)
    case Responded(success, message) =>
      if success then None
      else Some(Throwable(IOException, "Server returned success=false: " + message.GetOr("null")))
  }

  /** The backoff after a failed attempt, when another attempt follows. */
  function BackoffDelay(attempt: int): int {
    if attempt == 1 then 1000 else if attempt == 2 then 2000 else 4000
  }

  /** Whether the `n`-th call succeeds. */
  predicate Succeeds(attempt: nat -> Attempt, n: nat) {
    AttemptFailure(attempt(n)).None?
  }

  /**
   * `performUploadWithRetry`. `attempt(n)` is what the `n`-th call of
   * `service.uploadContribution(request)` yields; the request itself is the
   * same on every call.
   */
  method PerformUploadWithRetry(attempt: nat -> Attempt) returns (r: Retry)
    ensures 1 <= r.attempts <= MAX_ATTEMPTS
    // no call after a success, and every earlier call failed
    ensures forall n :: 1 <= n < r.attempts ==> !Succeeds(attempt, n)
    ensures r.result == Uploaded <==> Succeeds(attempt, r.attempts)
    // giving up means three failures, and the third one's exception is thrown
    ensures r.result.UploadFailed? ==> r.attempts == MAX_ATTEMPTS && Some(r.result.e) == AttemptFailure(attempt(MAX_ATTEMPTS))
    // 1000 ms after the first failure, 2000 ms after the second, none after the last
    ensures r.delays == [1000, 2000][..r.attempts - 1]
  {
    var lastException: Option<Throwable> := None;
    var delays: seq<int> := [];
    for n := 1 to MAX_ATTEMPTS + 1
      invariant forall j :: 1 <= j < n ==> !Succeeds(attempt, j)
      invariant delays == [1000, 2000][..if n - 1 < 2 then n - 1 else 2]
      invariant n > 1 ==> lastException == AttemptFailure(attempt(n - 1))
    {
      var failure := AttemptFailure(attempt(n));
      if failure.None? {
        return Retry(Uploaded, n, delays);
      }
      lastException := failure;
      if n < MAX_ATTEMPTS {
        assert [1000, 2000][..n] == [1000, 2000][..n - 1] + [BackoffDelay(n)];
        delays := delays + [BackoffDelay(n)];
      }
    }
    var thrown := lastException.GetOr(Throwable(IOException, "Upload failed after 3 attempts"));
    r := Retry(UploadFailed(thrown), MAX_ATTEMPTS, delays);
  }

  /** What `uploadContribution` tells the user once the upload is over. */
  datatype Feedback =
    | ContributionThanks                     // success toast, then back to settings
    | NetworkErrorToast                      // `contribute_error_network`
    | ErrorToast(detail: string)             // `contribute_error_format` with the message

  /** The toast for the upload's outcome: every `IOException` reads as a network error. */
  function UploadFeedback(result: Upload): (f: Feedback)
    ensures result.Uploaded? <==> f == ContributionThanks
    ensures result.UploadFailed? && result.e.kind == IOException ==> f == NetworkErrorToast
    ensures result.UploadFailed? && result.e.kind != IOException ==> f == ErrorToast(result.e.message)
  {
    match result
    case Uploaded => ContributionThanks
    case UploadFailed(e) => if e.kind == IOException then NetworkErrorToast else ErrorToast(e.message)
  }

  /** `contribution_count` after a successful upload: the stored count, 0 if none, plus one in `Int` arithmetic. */
  function CountAfterSuccess(stored: Option<int32>): (r: int32)
    ensures stored.None? ==> r == 1
    ensures stored.Some? && stored.value < TWO_31 - 1 ==> r == stored.value + 1
    ensures stored.Some? && stored.value == TWO_31 - 1 ==> r == -TWO_31
  {
    Wrap32(stored.GetOr(0) + 1)
  }

  /** A server that answers `success = false` three times produces the network-error toast. */
  lemma RejectedThriceIsNetworkError(attempt: nat -> Attempt, r: Retry)
    requires forall n :: 1 <= n <= MAX_ATTEMPTS ==> attempt(n).Responded? && !attempt(n).success
    requires 1 <= r.attempts <= MAX_ATTEMPTS
    requires r.result == Uploaded <==> Succeeds(attempt, r.attempts)
    requires r.result.UploadFailed? ==> Some(r.result.e) == AttemptFailure(attempt(MAX_ATTEMPTS))
    ensures UploadFeedback(r.result) == NetworkErrorToast
  {
  }
}
