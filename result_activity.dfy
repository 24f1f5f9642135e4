/**
 * `ResultActivity`: what the result screen shows for a scan result, and the
 * guard that closes it when the intent carries none.
 */
module ResultScreen {
  import opened Wrappers
  import opened Ints
  import opened Text
  import opened Badges
  import opened ScanResults
  import HistoryAdapter

  /** The string resources the screen falls back to. */
  datatype StringResource = InsightsDummyNote | AdviceDefault | DaysLeftUnknown | DaysLeftFormat | NoDataError

  /** A text view's content: a string from the result, a resource, or a resource formatted with a number. */
  datatype Shown = Plain(text: string) | Resource(id: StringResource) | FormattedWith(id: StringResource, n: int32)

  datatype ResultView = ResultView(fruitType: string, freshnessLabel: string, badge: Badge, insights: Shown, advice: Shown, daysLeft: Shown)

  /** After `onCreate`: the populated screen, or a toast and `finish()` when the extra is missing. */
  datatype Screen = Finished(toast: StringResource) | Populated(view: ResultView)

  /** The badge `populateUI` picks: "fresh", then "overripe", then "ripe", then "spoil" or "bad", else fresh. */
  function ResultBadge(freshnessLabel: string): Badge {
    if MentionsFresh(freshnessLabel) then FreshBadge
    else if MentionsOverripe(freshnessLabel) then OverripeBadge
    else if MentionsRipe(freshnessLabel) then RipeBadge
    else if MentionsSpoiled(freshnessLabel) then SpoiledBadge
    else FreshBadge
  }

  /** `item.insights.ifEmpty { dummy note }`. */
  function InsightsText(insights: string): (r: Shown)
    ensures insights == [] <==> r == Resource(InsightsDummyNote)
    ensures insights != [] ==> r == Plain(insights)
  {
    if insights == [] then Resource(InsightsDummyNote) else Plain(insights)
  }

  /** `item.advice ?: default advice`. */
  function AdviceText(advice: Option<string>): (r: Shown)
    ensures advice.None? <==> r == Resource(AdviceDefault)
    ensures advice.Some? ==> r == Plain(advice.value)
  {
    match advice
    case Some(a) => Plain(a)
    case None => Resource(AdviceDefault)
  }

  /** The days-left line: the formatted count, or "unknown" for a null count. */
  function DaysLeftText(daysLeft: Option<int32>): (r: Shown)
    ensures daysLeft.None? <==> r == Resource(DaysLeftUnknown)
    ensures daysLeft.Some? ==> r == FormattedWith(DaysLeftFormat, daysLeft.value)
  {
    match daysLeft
    case Some(d) => FormattedWith(DaysLeftFormat, d)
    case None => Resource(DaysLeftUnknown)
  }

  /** `populateUI(item)`, for the parts that do not involve images or floats. */
  function PopulateUI(item: ScanResult): (v: ResultView)
    ensures |v.fruitType| == |item.fruitType|
    ensures |item.fruitType| > 0 ==> v.fruitType[0] == UpperChar(item.fruitType[0]) && v.fruitType[1..] == item.fruitType[1..]
    ensures v.freshnessLabel == item.freshnessLabel && v.badge == ResultBadge(item.freshnessLabel)
    ensures v.insights == InsightsText(item.insights) && v.advice == AdviceText(item.advice) && v.daysLeft == DaysLeftText(item.daysLeft)
  {
    ResultView(CapitalizeFirst(item.fruitType), item.freshnessLabel, ResultBadge(item.freshnessLabel),
               InsightsText(item.insights), AdviceText(item.advice), DaysLeftText(item.daysLeft))
  }

  /** `onCreate`: `extra` is the `SCAN_RESULT` parcelable, if the intent carries one. */
  function OnCreate(extra: Option<ScanResult>): (s: Screen)
    ensures extra.None? <==> s == Finished(NoDataError)
    ensures extra.Some? ==> s == Populated(PopulateUI(extra.value))
  {
    match extra
    case None => Finished(NoDataError)
    case Some(item) => Populated(PopulateUI(item))
  }

  /** Unlike the history list, the result screen does show the overripe badge for an overripe label. */
  lemma ResultBadgeRules(freshnessLabel: string)
    ensures ResultBadge(freshnessLabel) == OverripeBadge <==> !MentionsFresh(freshnessLabel) && MentionsOverripe(freshnessLabel)
    ensures ResultBadge(freshnessLabel) == RipeBadge <==> !MentionsFresh(freshnessLabel) && !MentionsOverripe(freshnessLabel) && MentionsRipe(freshnessLabel)
    ensures ResultBadge(freshnessLabel) == SpoiledBadge <==> !MentionsFresh(freshnessLabel) && !MentionsRipe(freshnessLabel) && MentionsSpoiled(freshnessLabel)
  {
    OverripeMentionsRipe(freshnessLabel);
  }

  /** The two screens agree on every label except an overripe one, which the history list shows as ripe. */
  lemma BadgesAgreeExceptOverripe(freshnessLabel: string)
    ensures ResultBadge(freshnessLabel) != OverripeBadge ==> ResultBadge(freshnessLabel) == HistoryAdapter.HistoryBadge(freshnessLabel)
    ensures ResultBadge(freshnessLabel) == OverripeBadge ==> HistoryAdapter.HistoryBadge(freshnessLabel) == RipeBadge
  {
    OverripeMentionsRipe(freshnessLabel);
  }

  /** Capitalising the fruit type changes at most its first character and is idempotent. */
  lemma CapitalizeIdempotent(s: string)
    ensures CapitalizeFirst(CapitalizeFirst(s)) == CapitalizeFirst(s)
  {
    if s != [] {
      assert CapitalizeFirst(s)[1..] == s[1..];
    }
  }
}
