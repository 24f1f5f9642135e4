/** The ledger record `ModelMetadata` and its JSON codec. */
module Metadata {
  import opened Ints
  import opened Json
  import opened Wrappers

  datatype ModelMetadata = ModelMetadata(modelName: string, version: int32, sha256: string, lastUpdated: int64)

  const KEYS: set<string> := {"modelName", "version", "sha256", "lastUpdated"}

  /** `toJson()`: exactly the four members, each with the record's value. */
  function ToJson(m: ModelMetadata): (r: JsonText)
    ensures r.JsonObject? && r.fields.Keys == KEYS
    ensures r.fields["modelName"] == JString(m.modelName) && r.fields["sha256"] == JString(m.sha256)
    ensures r.fields["version"] == JNumber(m.version) && r.fields["lastUpdated"] == JNumber(m.lastUpdated)
  {
    JsonObject(map["modelName" := JString(m.modelName), "version" := JNumber(m.version),
                   "sha256" := JString(m.sha256), "lastUpdated" := JNumber(m.lastUpdated)])
  }

  /**
   * `fromJson(json)`: null for a null argument and for text that is not a
   * JSON object; otherwise a record whose absent members take their defaults.
   */
  function FromJson(json: Option<JsonText>): (r: Option<ModelMetadata>)
    ensures json.None? ==> r.None?
    ensures json.Some? && json.value.Unparseable? ==> r.None?
    ensures json.Some? && json.value.JsonObject? ==> r.Some?
    ensures json.Some? && json.value.JsonObject? && "version" !in json.value.fields ==> r.value.version == 1
    ensures json.Some? && json.value.JsonObject? && "lastUpdated" !in json.value.fields ==> r.value.lastUpdated == 0
    ensures json.Some? && json.value.JsonObject? && "modelName" !in json.value.fields ==> r.value.modelName == ""
    ensures json.Some? && json.value.JsonObject? && "sha256" !in json.value.fields ==> r.value.sha256 == ""
  {
    match json
    case None => None
    case Some(Unparseable(_)) => None
    case Some(JsonObject(f)) =>
      Some(ModelMetadata(OptString(f, "modelName"), OptInt(f, "version", 1),
                         OptString(f, "sha256"), OptLong(f, "lastUpdated", 0)))
  }

  /** Every record survives a trip through its JSON form. */
  lemma RoundTrip(m: ModelMetadata)
    ensures FromJson(Some(ToJson(m))) == Some(m)
  {
  }

  /** An empty object decodes to the all-defaults record. */
  lemma EmptyObjectDefaults()
    ensures FromJson(Some(JsonObject(map[]))) == Some(ModelMetadata("", 1, "", 0))
  {
  }
}
