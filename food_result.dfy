/** What the food-analysis page shows below the preview for the payload it
    keeps: nothing, the nutrition card, or a raw dump. */
module FoodResult {
  import opened Optional
  import opened JsonValue

  /** `RawJson` stands for the `JSON.stringify(value, null, 2)` text; the
      serialisation itself is not modelled. */
  datatype View =
    | NoResult
    | Nutrition(data: map<string, Json>)
    | RawText(text: string)
    | RawJson(value: Json)

  /** The payload is a non-null, non-array object whose `valid` field is
      exactly `true`. */
  predicate IsValidFoodPayload(data: Json) {
    data.JObject? && Get(data, "valid") == Some(JBool(true))
  }

  /** The page's render choice for the payload it keeps. */
  function Route(data: Json): (v: View)
    ensures v == NoResult <==> !Truthy(data)
    ensures v.Nutrition? <==> IsValidFoodPayload(data)
    ensures v.Nutrition? ==> JObject(v.data) == data
    ensures v.RawText? <==> data.JString? && data.s != ""
    ensures v.RawText? ==> v.text == data.s
    ensures v.RawJson? ==> v.value == data && !data.JString? && !IsValidFoodPayload(data)
  {
    if !Truthy(data) then NoResult
    else if IsObjectLike(data) && !data.JArray? && Get(data, "valid") == Some(JBool(true)) then
      Nutrition(data.fields)
    else if data.JString? then RawText(data.s)
    else RawJson(data)
  }

  /** Only the boolean `true` opens the card: a truthy `valid` of another
      type, such as the string "true" or the number 1, gets the raw dump,
      and so does an array. */
  lemma OnlyBooleanTrueIsValid(fields: map<string, Json>, valid: Json, items: seq<Json>)
    requires "valid" in fields && fields["valid"] == valid && valid != JBool(true)
    ensures Route(JObject(fields)) == RawJson(JObject(fields))
    ensures Route(JArray(items)) == RawJson(JArray(items))
  {
  }
}
