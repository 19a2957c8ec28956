/**
 * `extract_district`: the Berlin district named by a geocoder hit's address
 * components — an ordered search over component keys, then a fallback
 * through a small postcode table for postcodes starting with "10".
 */
module District {
  import opened Options

  /** A geocoder hit's `address` breakdown: component name to value. */
  type Components = map<string, string>

  /** The component keys searched, in order. */
  const DistrictKeys: seq<string> := ["suburb", "neighbourhood", "city_district", "quarter", "district"]

  /** Only postcodes starting with this are looked up in the table. */
  const PostcodePrefix := "10"

  /**
   * The postcode table, values exactly as the source text spells them (the
   * umlaut in "Schöneberg" and "Neukölln" appears there mis-encoded as the
   * two characters U+221A U+2202).
   */
  const PostcodeDistricts: map<string, string> := map[
    "10115" := "Mitte", "10117" := "Mitte", "10119" := "Mitte", "10178" := "Mitte", "10179" := "Mitte",
    "10435" := "Prenzlauer Berg", "10437" := "Prenzlauer Berg", "10439" := "Prenzlauer Berg",
    "10247" := "Friedrichshain", "10249" := "Friedrichshain",
    "10551" := "Moabit", "10553" := "Moabit", "10555" := "Moabit", "10559" := "Moabit",
    "10623" := "Charlottenburg", "10625" := "Charlottenburg", "10627" := "Charlottenburg",
    "10777" := Schoeneberg, "10779" := Schoeneberg, "10781" := Schoeneberg,
    "10963" := "Kreuzberg", "10965" := "Kreuzberg", "10967" := "Kreuzberg", "10969" := "Kreuzberg",
    "12043" := Neukoelln, "12045" := Neukoelln, "12047" := Neukoelln, "12049" := Neukoelln,
    "12051" := Neukoelln, "12053" := Neukoelln, "12055" := Neukoelln, "12057" := Neukoelln,
    "12059" := Neukoelln, "12099" := "Tempelhof", "12101" := "Tempelhof", "12103" := "Tempelhof",
    "12105" := "Tempelhof", "12107" := "Tempelhof", "12109" := "Tempelhof"
  ]

  const Schoeneberg := "Sch\U{221A}\U{2202}neberg"
  const Neukoelln := "Neuk\U{221A}\U{2202}lln"

  /** A component value is accepted when truthy, not "Berlin" and longer than two characters. */
  predicate Acceptable(value: string) {
    value != "" && value != "Berlin" && |value| > 2
  }

  /** Key `key` is present in `c` and its value is accepted. */
  predicate Qualifies(c: Components, key: string) {
    key in c && Acceptable(c[key])
  }

  /** The loop over `keys`: the value of the first qualifying key, if any. */
  function SearchKeys(c: Components, keys: seq<string>): (r: Option<string>)
    ensures r.None? <==> forall i :: 0 <= i < |keys| ==> !Qualifies(c, keys[i])
    ensures r.Some? ==> exists i :: 0 <= i < |keys| && Qualifies(c, keys[i]) && r.value == c[keys[i]]
                                      && forall j :: 0 <= j < i ==> !Qualifies(c, keys[j])
    decreases |keys|
  {
    if |keys| == 0 then None
    else if Qualifies(c, keys[0]) then Some(c[keys[0]])
    else
      var r := SearchKeys(c, keys[1..]);
      assert forall i :: 1 <= i < |keys| ==> keys[i] == keys[1..][i - 1];
      r
  }

  /** `address_details.get('postcode', '')`. */
  function Postcode(c: Components): string {
    if "postcode" in c then c["postcode"] else ""
  }

  /** `postcode_districts.get(postcode)`. */
  function TableLookup(postcode: string): Option<string> {
    if postcode in PostcodeDistricts then Some(PostcodeDistricts[postcode]) else None
  }

  function ExtractDistrict(c: Components): (r: Option<string>)
    // the first qualifying key, in the fixed order, wins
    ensures forall i :: 0 <= i < |DistrictKeys| && Qualifies(c, DistrictKeys[i])
                        && (forall j :: 0 <= j < i ==> !Qualifies(c, DistrictKeys[j]))
                        ==> r == Some(c[DistrictKeys[i]])
    // with no qualifying key, only a "10…" postcode can give a district, through the table
    ensures (forall i :: 0 <= i < |DistrictKeys| ==> !Qualifies(c, DistrictKeys[i])) ==>
              r == (if PostcodePrefix <= Postcode(c) then TableLookup(Postcode(c)) else None)
    // never "Berlin", never a short or empty string
    ensures r.Some? ==> Acceptable(r.value)
  {
    var found := SearchKeys(c, DistrictKeys);
    if found.Some? then found
    else if PostcodePrefix <= Postcode(c) then
      TableValuesAcceptable(Postcode(c));
      TableLookup(Postcode(c))
    else None
  }

  /** Every value in the table is itself acceptable. */
  lemma TableValuesAcceptable(postcode: string)
    ensures TableLookup(postcode).Some? ==> Acceptable(TableLookup(postcode).value)
  {
  }

  /**
   * The "12…" rows of the table are dead: whatever the postcode, when no
   * component key qualifies and the postcode starts with "12", the result is
   * `None`, even though the table has an entry for it.
   */
  lemma TwelvePostcodesUnreachable(c: Components)
    requires forall i :: 0 <= i < |DistrictKeys| ==> !Qualifies(c, DistrictKeys[i])
    requires "12" <= Postcode(c)
    ensures ExtractDistrict(c) == None
  {
    assert Postcode(c)[1] == '2';
  }

  /** Concretely: postcode 12043 is in the table, yet yields no district. */
  lemma NeukoellnPostcodeIgnored()
    ensures TableLookup("12043") == Some(Neukoelln)
    ensures ExtractDistrict(map["postcode" := "12043"]) == None
  {
    TwelvePostcodesUnreachable(map["postcode" := "12043"]);
  }

  /** Postcode 10115 is a Mitte row of the table. */
  lemma MitteRow()
    ensures TableLookup("10115") == Some("Mitte")
  {
    assert "10115" in PostcodeDistricts;
  }

  /** And postcode 10115 resolves through the table when no key qualifies. */
  lemma MittePostcodeResolved()
    ensures ExtractDistrict(map["postcode" := "10115", "suburb" := "Berlin"]) == Some("Mitte")
  {
    var c := map["postcode" := "10115", "suburb" := "Berlin"];
    assert !Qualifies(c, DistrictKeys[0]);
    assert forall i :: 1 <= i < |DistrictKeys| ==> DistrictKeys[i] !in c;
    assert Postcode(c) == "10115";
    MitteRow();
  }
}
