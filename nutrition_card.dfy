/** The nutrition card the food-analysis page shows for a valid payload:
    its title, the centre label, the macro rows, and the donut whose three
    coloured arcs split the circle in proportion to fat, protein and
    carbohydrates. The circle's circumference (2·π·40 in the page) is a
    parameter: only its positivity matters to the geometry. */
module NutritionCard {
  import opened Optional
  import opened Text
  import opened JsonValue

  const FatKey := "fat_g"
  const ProteinKey := "protein_g"
  const CarbsKey := "carbohydrates_g"
  const UnknownFood := "Alimento desconocido"
  const EnergyPlaceholder := "--"

  /** A macro as the donut uses it: a positive number, or 0 for anything
      else (missing, null, a string, a negative number). */
  function Clamp(v: Option<Json>): (x: real)
    ensures x >= 0.0
    ensures x > 0.0 <==> v.Some? && v.value.JNumber? && v.value.n > 0.0
    ensures x > 0.0 ==> x == v.value.n
  {
    if v.Some? && v.value.JNumber? && v.value.n > 0.0 then v.value.n else 0.0
  }

  datatype Macros = Macros(fat: real, protein: real, carbs: real)

  predicate NonNegative(m: Macros) {
    m.fat >= 0.0 && m.protein >= 0.0 && m.carbs >= 0.0
  }

  function Total(m: Macros): real {
    m.fat + m.protein + m.carbs
  }

  /** The three macros of the payload, each clamped. */
  function ClampedMacros(data: map<string, Json>): (m: Macros)
    ensures NonNegative(m)
    ensures Total(m) == 0.0 <==> m == Macros(0.0, 0.0, 0.0)
    ensures m.fat == Clamp(Get(JObject(data), FatKey))
    ensures m.protein == Clamp(Get(JObject(data), ProteinKey))
    ensures m.carbs == Clamp(Get(JObject(data), CarbsKey))
  {
    var o := JObject(data);
    Macros(Clamp(Get(o, FatKey)), Clamp(Get(o, ProteinKey)), Clamp(Get(o, CarbsKey)))
  }

  /** The arc lengths, in the same order as the macros. */
  datatype Arcs = Arcs(fat: real, protein: real, carbs: real)

  /** One macro's share of the circumference. */
  function Share(x: real, total: real, circumference: real): (length: real)
    requires 0.0 <= x <= total && total > 0.0 && circumference > 0.0
    ensures 0.0 <= length <= circumference
    ensures length * total == circumference * x
    ensures length > 0.0 <==> x > 0.0
  {
    var ratio := x / total;
    assert ratio * total == x;
    assert ratio <= 1.0;
    circumference * ratio
  }

  /** Each arc takes the macro's share of the circumference; with no
      macros at all every arc is empty. */
  function ArcLengths(m: Macros, circumference: real): (a: Arcs)
    requires circumference > 0.0 && NonNegative(m)
    ensures Total(m) == 0.0 ==> a == Arcs(0.0, 0.0, 0.0)
    ensures Total(m) > 0.0 ==> a.fat + a.protein + a.carbs == circumference
    ensures 0.0 <= a.fat <= circumference
    ensures 0.0 <= a.protein <= circumference
    ensures 0.0 <= a.carbs <= circumference
    // Each length is in proportion to its macro.
    ensures Total(m) > 0.0 ==> a.fat * Total(m) == circumference * m.fat
    ensures Total(m) > 0.0 ==> a.protein * Total(m) == circumference * m.protein
    ensures Total(m) > 0.0 ==> a.carbs * Total(m) == circumference * m.carbs
  {
    var total := Total(m);
    if total > 0.0 then
      var a := Arcs(Share(m.fat, total, circumference),
                    Share(m.protein, total, circumference),
                    Share(m.carbs, total, circumference));
      SharesAddUp(a, m, circumference);
      a
    else
      Arcs(0.0, 0.0, 0.0)
  }

  /** Three proportional shares of the whole add up to the whole. */
  lemma SharesAddUp(a: Arcs, m: Macros, circumference: real)
    requires Total(m) > 0.0
    requires a.fat * Total(m) == circumference * m.fat
    requires a.protein * Total(m) == circumference * m.protein
    requires a.carbs * Total(m) == circumference * m.carbs
    ensures a.fat + a.protein + a.carbs == circumference
  {
    var t := Total(m);
    assert (a.fat + a.protein + a.carbs) * t
        == a.fat * t + a.protein * t + a.carbs * t;
    assert (a.fat + a.protein + a.carbs) * t == circumference * t;
    assert (a.fat + a.protein + a.carbs - circumference) * t == 0.0;
  }

  /** A drawn coloured arc: dash length, the gap after it (the rest of the
      circle) and the dash offset that places it. */
  datatype Segment = Segment(length: real, gap: real, offset: real)

  datatype Donut = Donut(fat: Option<Segment>, protein: Option<Segment>, carbs: Option<Segment>)

  function Draw(length: real, circumference: real, offset: real): Option<Segment> {
    if length > 0.0 then Some(Segment(length, circumference - length, offset)) else None
  }

  /** The coloured part of the donut. The arcs are laid one after the
      other: fat from 0, protein where fat ends, carbohydrates where
      protein ends; each is drawn only when it is longer than 0, and only
      when the macros are not all 0. */
  function DonutOf(m: Macros, circumference: real): (d: Donut)
    requires circumference > 0.0 && NonNegative(m)
    ensures var a := ArcLengths(m, circumference);
      && (d.fat.Some? <==> Total(m) > 0.0 && a.fat > 0.0)
      && (d.protein.Some? <==> Total(m) > 0.0 && a.protein > 0.0)
      && (d.carbs.Some? <==> Total(m) > 0.0 && a.carbs > 0.0)
      && (d.fat.Some? ==> d.fat.value == Segment(a.fat, circumference - a.fat, 0.0))
      && (d.protein.Some? ==> d.protein.value == Segment(a.protein, circumference - a.protein, -a.fat))
      && (d.carbs.Some? ==>
            d.carbs.value == Segment(a.carbs, circumference - a.carbs, -(a.fat + a.protein)))
  {
    var a := ArcLengths(m, circumference);
    if Total(m) > 0.0 then
      Donut(Draw(a.fat, circumference, 0.0),
            Draw(a.protein, circumference, -a.fat),
            Draw(a.carbs, circumference, -(a.fat + a.protein)))
    else
      Donut(None, None, None)
  }

  /** Without macros nothing coloured is drawn; with any positive macro its
      arc is drawn, and an arc is drawn exactly when its macro is positive
      (so the outer `total > 0` test never hides a segment on its own). */
  lemma {:induction false} DrawnIffPositive(m: Macros, circumference: real)
    requires circumference > 0.0 && NonNegative(m)
    ensures Total(m) == 0.0 ==> DonutOf(m, circumference) == Donut(None, None, None)
    ensures DonutOf(m, circumference).fat.Some? <==> m.fat > 0.0
    ensures DonutOf(m, circumference).protein.Some? <==> m.protein > 0.0
    ensures DonutOf(m, circumference).carbs.Some? <==> m.carbs > 0.0
  {
  }

  /** Where a drawn arc starts and ends along the circle. */
  function Start(s: Segment): real { -s.offset }
  function End(s: Segment): real { -s.offset + s.length }

  /** The drawn arcs tile the circle without overlap: each starts where the
      previous ones end, every dash and its gap make up the whole circle,
      and the last arc ends exactly at the circumference. */
  lemma ArcsTileTheCircle(m: Macros, circumference: real)
    requires circumference > 0.0 && NonNegative(m) && Total(m) > 0.0
    ensures var d := DonutOf(m, circumference);
      && (d.fat.Some? ==> Start(d.fat.value) == 0.0)
      && (d.fat.Some? && d.protein.Some? ==> End(d.fat.value) == Start(d.protein.value))
      && (d.protein.Some? && d.carbs.Some? ==> End(d.protein.value) == Start(d.carbs.value))
      && (d.fat.Some? && d.carbs.Some? ==> End(d.fat.value) <= Start(d.carbs.value))
      && (d.carbs.Some? ==> End(d.carbs.value) == circumference)
      && (d.fat.Some? ==> d.fat.value.length + d.fat.value.gap == circumference)
      && (d.protein.Some? ==> 0.0 <= Start(d.protein.value) && End(d.protein.value) <= circumference)
  {
  }

  /** Ratios carry over: macros in the proportion 1:2:3 (such as 10 g,
      20 g and 30 g) give arcs of one sixth, one third and one half of the
      circle. */
  lemma {:induction false} OneTwoThree(unit: real, circumference: real)
    requires unit > 0.0 && circumference > 0.0
    ensures var a := ArcLengths(Macros(unit, 2.0 * unit, 3.0 * unit), circumference);
      a.fat * 6.0 == circumference && a.protein * 3.0 == circumference
      && a.carbs * 2.0 == circumference
  {
    var m := Macros(unit, 2.0 * unit, 3.0 * unit);
    var a := ArcLengths(m, circumference);
    assert Total(m) == 6.0 * unit;
    assert a.fat * (6.0 * unit) == circumference * unit;
    assert a.protein * (6.0 * unit) == circumference * (2.0 * unit);
    assert a.carbs * (6.0 * unit) == circumference * (3.0 * unit);
    CancelUnit(a.fat, 6.0, circumference, unit);
    CancelUnit(a.protein, 3.0, circumference, unit);
    CancelUnit(a.carbs, 2.0, circumference, unit);
  }

  lemma CancelUnit(length: real, k: real, circumference: real, unit: real)
    requires unit > 0.0
    requires length * (k * unit) == circumference * unit
    ensures length * k == circumference
  {
    assert (length * k - circumference) * unit == 0.0;
  }

  /** The title: the first truthy of `name_ES` and `name_EN`, otherwise
      "Alimento desconocido", upper-cased. None when that value is not a
      string, where upper-casing throws. */
  function DisplayName(data: map<string, Json>): (r: Option<string>)
    ensures var es := Get(JObject(data), "name_ES");
      (es.Some? && es.value.JString? && es.value.s != "") ==> r == Some(Upper(es.value.s))
    ensures var es := Get(JObject(data), "name_ES");
      var en := Get(JObject(data), "name_EN");
      ((es.None? || !Truthy(es.value)) && en.Some? && en.value.JString? && en.value.s != "")
        ==> r == Some(Upper(en.value.s))
    ensures var es := Get(JObject(data), "name_ES");
      var en := Get(JObject(data), "name_EN");
      ((es.None? || !Truthy(es.value)) && (en.None? || !Truthy(en.value)))
        ==> r == Some(Upper(UnknownFood))
    // Upper-casing throws exactly when the value chosen is truthy but not a
    // string (a number, `true`, an array or an object).
    ensures var es := Get(JObject(data), "name_ES");
      var en := Get(JObject(data), "name_EN");
      r.None? <==>
        (es.Some? && Truthy(es.value) && !es.value.JString?)
        || ((es.None? || !Truthy(es.value)) && en.Some? && Truthy(en.value) && !en.value.JString?)
    ensures r.Some? ==> forall i | 0 <= i < |r.value| :: !IsLower(r.value[i])
  {
    var o := JObject(data);
    var v := OrElse(Get(o, "name_ES"), OrElse(Get(o, "name_EN"), JString(UnknownFood)));
    if v.JString? then
      UpperIdempotent(v.s);
      Some(Upper(v.s))
    else None
  }

  /** The centre label: `energy_kcal` unless it is missing or null, then
      "--". A 0 is shown as 0. */
  function EnergyLabel(data: map<string, Json>): (centre: Json)
    ensures EnergyKcalShown(data) ==> centre == data["energy_kcal"]
    ensures !EnergyKcalShown(data) ==> centre == JString(EnergyPlaceholder)
  {
    Coalesce(Get(JObject(data), "energy_kcal"), JString(EnergyPlaceholder))
  }

  predicate EnergyKcalShown(data: map<string, Json>) {
    "energy_kcal" in data && data["energy_kcal"] != JNull
  }

  /** A line of the macro list: the key it shows and its raw value. */
  datatype Row = Row(key: string, value: Json)

  function RowFor(data: map<string, Json>, key: string): seq<Row> {
    if key in data then [Row(key, data[key])] else []
  }

  /** The position of a macro field in the list. */
  function Rank(key: string): nat {
    if key == FatKey then 0 else if key == ProteinKey then 1 else if key == CarbsKey then 2 else 3
  }

  /** 1 when the field is present, 0 otherwise. */
  function Present(data: map<string, Json>, key: string): nat {
    if key in data then 1 else 0
  }

  /** The macro list, in the order fat, protein, carbohydrates: a row for
      every field that is present, with the value as received, not the
      clamped one. */
  function Rows(data: map<string, Json>): (rows: seq<Row>)
    ensures |rows| == Present(data, FatKey) + Present(data, ProteinKey) + Present(data, CarbsKey)
    // Each field at most once, in the order fat, protein, carbohydrates.
    ensures forall i, j | 0 <= i < j < |rows| :: Rank(rows[i].key) < Rank(rows[j].key)
    ensures forall r | r in rows :: r.key in data && r.value == data[r.key]
    ensures FatKey in data <==> exists r :: r in rows && r.key == FatKey
    ensures ProteinKey in data <==> exists r :: r in rows && r.key == ProteinKey
    ensures CarbsKey in data <==> exists r :: r in rows && r.key == CarbsKey
    ensures forall r | r in rows :: r.key in {FatKey, ProteinKey, CarbsKey}
  {
    var rows := RowFor(data, FatKey) + RowFor(data, ProteinKey) + RowFor(data, CarbsKey);
    assert FatKey in data ==> rows[0].key == FatKey;
    assert ProteinKey in data ==> rows[|RowFor(data, FatKey)|].key == ProteinKey;
    assert CarbsKey in data ==> rows[|rows| - 1].key == CarbsKey;
    rows
  }

  /** A negative or non-numeric macro is listed as received but adds
      nothing to the donut. */
  lemma ListedButNotDrawn(data: map<string, Json>, circumference: real)
    requires circumference > 0.0
    requires FatKey in data && (!data[FatKey].JNumber? || data[FatKey].n <= 0.0)
    ensures Row(FatKey, data[FatKey]) in Rows(data)
    ensures DonutOf(ClampedMacros(data), circumference).fat.None?
  {
    DrawnIffPositive(ClampedMacros(data), circumference);
    assert Rows(data)[0] == Row(FatKey, data[FatKey]);
  }
}
