/** What the age-estimation page shows for the payload it keeps: nothing
    (the capture view), a raw dump, or the result card with the fields it
    extracts and their fallbacks. */
module AgeResult {
  import opened Optional
  import opened Text
  import opened JsonValue

  const NoInterval := "Sin intervalo"
  const DefaultSummary := "Tu rostro fue analizado exitosamente."
  /** Placeholder for a missing age in the badge and the large figure. */
  const AgePlaceholder := "--"
  /** Placeholder for a missing age in the sentence under the picture. */
  const SentenceAgePlaceholder := "—"

  /** The page's type guard: any object, arrays included. */
  predicate IsCronosResponse(data: Json) {
    IsObjectLike(data)
  }

  /** The interval as the large figure shows it: the string is cut at every
      '-', the first two pieces are trimmed, and if both are non-empty they
      are shown as "min - max"; otherwise the string as it is. A string
      without a '-' is one piece, so it is shown as it is; that case is
      decided first (`IntervalWithoutHyphen` shows it is the one-piece
      split). */
  function IntervalDisplay(interval: string): string {
    if '-' !in interval then interval
    else
      var parts := Split(interval, '-');
      var lo := Trim(parts[0]);
      if |parts| >= 2 && lo != "" && Trim(parts[1]) != "" then lo + " - " + Trim(parts[1])
      else interval
  }

  /** Without a hyphen the split has a single piece, and the string is
      shown as it is. */
  lemma IntervalWithoutHyphen(interval: string)
    requires '-' !in interval
    ensures Split(interval, '-') == [interval]
    ensures IntervalDisplay(interval) == interval
  {
    SplitNoSep(interval, '-');
  }

  /** With a hyphen, only the text before it and the text up to the next
      hyphen (or the end) are shown, each trimmed; anything after a second
      hyphen is dropped. If either of the two is blank the string is shown
      as it is. */
  lemma {:induction false} IntervalFirstTwoPieces(a: string, b: string, rest: string)
    requires '-' !in a && '-' !in b
    requires rest == [] || rest[0] == '-'
    ensures var s := a + "-" + b + rest;
      IntervalDisplay(s) ==
        if Trim(a) != "" && Trim(b) != "" then Trim(a) + " - " + Trim(b) else s
  {
    var s := a + "-" + b + rest;
    SplitFirstTwo(a, b, rest);
    assert s[|a|] == '-';
  }

  /** The first two pieces of `a-b` followed by nothing or by another
      hyphen are `a` and `b`. */
  lemma {:induction false} SplitFirstTwo(a: string, b: string, rest: string)
    requires '-' !in a && '-' !in b
    requires rest == [] || rest[0] == '-'
    ensures var parts := Split(a + "-" + b + rest, '-');
      |parts| >= 2 && parts[0] == a && parts[1] == b
  {
    var s := a + "-" + b + rest;
    SplitPrefix(a, b + rest, '-');
    assert s == a + ['-'] + (b + rest);
    if rest == [] {
      SplitNoSep(b, '-');
      assert b + rest == b;
    } else {
      SplitPrefix(b, rest[1..], '-');
      assert b + rest == b + ['-'] + rest[1..];
    }
  }

  /** The common case: "lo-hi" with two clean, non-empty values is shown
      as "lo - hi". */
  lemma IntervalCleanPair(lo: string, hi: string)
    requires '-' !in lo && '-' !in hi && lo != "" && hi != ""
    requires Trim(lo) == lo && Trim(hi) == hi
    ensures IntervalDisplay(lo + "-" + hi) == lo + " - " + hi
  {
    IntervalFirstTwoPieces(lo, hi, "");
    assert lo + "-" + hi + "" == lo + "-" + hi;
  }

  /** The fields the result card shows. `score` is the raw confidence
      score when it is a number. */
  datatype Card = Card(
    intervalBadge: string,
    ageBadge: Json,
    sentenceAge: Json,
    score: Option<real>,
    intervalFigure: string,
    summary: Json)

  /** The three ways the result area can turn out, plus a render that
      throws: a truthy `confidence_interval` that is not a string has no
      `split`. */
  datatype View = CaptureView | RawDump(value: Json) | ResultCard(card: Card) | RenderThrows

  /** `confidence_interval || "Sin intervalo"`, when that is a string. */
  function IntervalText(data: Json): Option<string> {
    var v := OrElse(Get(data, "confidence_interval"), JString(NoInterval));
    if v.JString? then Some(v.s) else None
  }

  function Score(data: Json): Option<real> {
    var v := Get(data, "confidence_score");
    if v.Some? && v.value.JNumber? then Some(v.value.n) else None
  }

  function Summary(data: Json): Json {
    var es := Get(data, "summary_ES");
    var en := Get(data, "summary_EN");
    if es.Some? && Truthy(es.value) then es.value
    else OrElse(en, JString(DefaultSummary))
  }

  /** The page's render choice for the payload it keeps. */
  function Render(data: Json): (v: View)
    ensures v == CaptureView <==> !Truthy(data)
    ensures v.RawDump? <==> Truthy(data) && !IsObjectLike(data)
    ensures v.RawDump? ==> v.value == data
    ensures v == RenderThrows <==> IsObjectLike(data) && IntervalText(data).None?
    ensures v.ResultCard? ==>
      v.card.intervalBadge == IntervalText(data).value
      && v.card.intervalFigure == IntervalDisplay(v.card.intervalBadge)
    // A missing or falsy interval becomes "Sin intervalo"; a truthy one is
    // the string itself.
    ensures v.ResultCard? ==>
      var ci := Get(data, "confidence_interval");
      && ((ci.None? || !Truthy(ci.value)) ==> v.card.intervalBadge == NoInterval)
      && (ci.Some? && Truthy(ci.value) ==> ci.value == JString(v.card.intervalBadge))
    // A present, non-null age is shown as it is, 0 included; otherwise the
    // two placeholders.
    ensures v.ResultCard? ==>
      var age := Get(data, "estimated_chronological_age");
      && (age.Some? && age.value != JNull ==>
            v.card.ageBadge == age.value && v.card.sentenceAge == age.value)
      && ((age.None? || age.value == JNull) ==>
            v.card.ageBadge == JString(AgePlaceholder)
            && v.card.sentenceAge == JString(SentenceAgePlaceholder))
    // The score is kept exactly when it is a number.
    ensures v.ResultCard? ==>
      var sc := Get(data, "confidence_score");
      && (v.card.score.Some? <==> sc.Some? && sc.value.JNumber?)
      && (v.card.score.Some? ==> sc.value == JNumber(v.card.score.value))
    // The summary: `summary_ES` if truthy, else `summary_EN` if truthy,
    // else the default text.
    ensures v.ResultCard? ==>
      var es := Get(data, "summary_ES");
      var en := Get(data, "summary_EN");
      && (es.Some? && Truthy(es.value) ==> v.card.summary == es.value)
      && ((es.None? || !Truthy(es.value)) && en.Some? && Truthy(en.value) ==>
            v.card.summary == en.value)
      && ((es.None? || !Truthy(es.value)) && (en.None? || !Truthy(en.value)) ==>
            v.card.summary == JString(DefaultSummary))
  {
    if !Truthy(data) then CaptureView
    else if !IsCronosResponse(data) then RawDump(data)
    else match IntervalText(data)
      case None => RenderThrows
      case Some(interval) =>
        var age := Get(data, "estimated_chronological_age");
        ResultCard(Card(
          interval,
          Coalesce(age, JString(AgePlaceholder)),
          Coalesce(age, JString(SentenceAgePlaceholder)),
          Score(data),
          IntervalDisplay(interval),
          Summary(data)))
  }

  /** The keys the card reads. */
  const CardKeys := {"confidence_interval", "estimated_chronological_age",
                     "confidence_score", "summary_ES", "summary_EN"}

  /** Every field falls back on its own: an object without any of the
      fields the card reads, or an array, still gets the card, filled with
      the placeholders. */
  lemma AllFallbacks(data: Json)
    requires data.JArray? || (data.JObject? && CardKeys !! data.fields.Keys)
    ensures Render(data) == ResultCard(Card(
      NoInterval, JString(AgePlaceholder), JString(SentenceAgePlaceholder), None,
      NoInterval, JString(DefaultSummary)))
  {
    if data.JObject? {
      forall k | k in CardKeys
        ensures k !in data.fields
      {
        assert k !in data.fields.Keys;
      }
    }
    assert IntervalText(data) == Some(NoInterval);
    assert Get(data, "estimated_chronological_age") == None;
    assert Score(data) == None;
    assert Summary(data) == JString(DefaultSummary);
    RenderFallback(data);
    NoIntervalShownAsIs();
  }

  /** The fallback text has no '-', so the figure shows it unchanged. */
  lemma NoIntervalShownAsIs()
    ensures IntervalDisplay(NoInterval) == NoInterval
  {
    IntervalWithoutHyphen(NoInterval);
  }

  /** The card for an object-like payload each of whose fields falls
      back. */
  lemma RenderFallback(data: Json)
    requires IsObjectLike(data) && IntervalText(data) == Some(NoInterval)
    requires Get(data, "estimated_chronological_age") == None
    requires Score(data) == None && Summary(data) == JString(DefaultSummary)
    ensures Render(data) == ResultCard(Card(
      NoInterval, JString(AgePlaceholder), JString(SentenceAgePlaceholder), None,
      IntervalDisplay(NoInterval), JString(DefaultSummary)))
  {
  }

  /** An object payload always leaves the capture view and is never
      dumped raw: it gets the card, or the render throws. */
  lemma ObjectIsShown(fields: map<string, Json>)
    ensures Render(JObject(fields)) != CaptureView && !Render(JObject(fields)).RawDump?
  {
    assert Truthy(JObject(fields)) && IsObjectLike(JObject(fields));
  }

  /** Whatever else the object holds, a present age (even 0) is shown as
      it is, and only a missing or null age becomes a placeholder. */
  lemma AgeShownAsIs(data: Json, age: Json)
    requires data.JObject? && IntervalText(data).Some?
    requires Get(data, "estimated_chronological_age") == Some(age)
    ensures Render(data).ResultCard?
    ensures age != JNull ==> Render(data).card.ageBadge == age && Render(data).card.sentenceAge == age
    ensures age == JNull ==>
      Render(data).card.ageBadge == JString(AgePlaceholder)
      && Render(data).card.sentenceAge == JString(SentenceAgePlaceholder)
  {
  }
}
