/**
 * The two shapes of a scan result, the UI/intent model `ScanResult` and the
 * Room row `ScanResultEntity`, and the conversions between them
 * (`ScanResultExtensions`).
 */
module ScanResults {
  import opened Wrappers
  import opened Ints

  /** A Kotlin `Float`, kept opaque: the model never computes with confidences, it only copies them. */
  datatype Confidence = Confidence(floatBits: bv32)

  datatype ScanResult = ScanResult(
    fruitType: string,
    freshnessLabel: string,
    confidence: Confidence,
    imagePath: string,
    insights: string,
    advice: Option<string>,
    daysLeft: Option<int32>)

  datatype ScanResultEntity = ScanResultEntity(
    id: int32,
    imagePath: string,
    fruitType: string,
    freshnessLabel: string,
    confidence: Confidence,
    scanDate: int64,
    daysLeft: Option<int32>,
    advice: Option<string>)

  /** The fields both shapes carry. */
  predicate SameScan(r: ScanResult, e: ScanResultEntity) {
    r.imagePath == e.imagePath && r.fruitType == e.fruitType && r.freshnessLabel == e.freshnessLabel
    && r.confidence == e.confidence && r.daysLeft == e.daysLeft && r.advice == e.advice
  }

  /** `toEntity()`: a fresh row (`id = 0`, so Room assigns one) stamped with the current time `now`. */
  function ToEntity(r: ScanResult, now: int64): (e: ScanResultEntity)
    ensures e.id == 0 && e.scanDate == now
    ensures SameScan(r, e)
  {
    ScanResultEntity(0, r.imagePath, r.fruitType, r.freshnessLabel, r.confidence, now, r.daysLeft, r.advice)
  }

  /** `toScanResult(insights)`: rows do not store insights, so the caller supplies them, `""` by default. */
  function ToScanResult(e: ScanResultEntity, insights: string := ""): (r: ScanResult)
    ensures r.insights == insights
    ensures SameScan(r, e)
  {
    ScanResult(e.fruitType, e.freshnessLabel, e.confidence, e.imagePath, insights, e.advice, e.daysLeft)
  }

  /** A result survives a trip through the database when its insights are handed back. */
  lemma ResultRoundTrip(r: ScanResult, now: int64)
    ensures ToScanResult(ToEntity(r, now), r.insights) == r
  {
  }

  /** A row survives a trip through the UI model except for its id, reset to 0, and its date, restamped. */
  lemma EntityRoundTrip(e: ScanResultEntity, insights: string, now: int64)
    ensures ToEntity(ToScanResult(e, insights), now) == e.(id := 0, scanDate := now)
  {
  }

  /** Without insights the UI model of a row has empty insights. */
  lemma DefaultInsightsEmpty(e: ScanResultEntity)
    ensures ToScanResult(e).insights == ""
  {
  }
}
