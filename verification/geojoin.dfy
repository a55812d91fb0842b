/** The join of the district table with the boundary features of the map:
    each district's name is normalised and sent through the alias table to
    the key the features use, the ranked district table becomes a lookup
    table keyed that way, and each feature is looked up by its lower-cased
    name to pick its fill colour and its popup. */
module GeoJoin {
  import opened Wrappers
  import opened Seqs
  import opened Groups
  import opened Names
  import opened Buckets

  /** `district_mapping`: normalised survey name -> feature key. */
  const DistrictAliases: map<string, string> := map[
    "viana do castelo" := "viana do castelo",
    "braga" := "braga",
    "vila real" := "vila real",
    "braganca" := "braganca",
    "aveiro" := "aveiro",
    "coimbra" := "coimbra",
    "leiria" := "leiria",
    "lisboa" := "lisboa",
    "porto" := "porto",
    "setubal" := "setubal",
    "viseu" := "viseu",
    "guarda" := "guarda",
    "santarem" := "santarem",
    "beja" := "beja",
    "castelo branco" := "castelo branco",
    "evora" := "evora",
    "faro" := "faro",
    "portalegre" := "portalegre",
    "ilha da madeira" := "madeira",
    "acores" := "acores"
  ]

  /** Every alias is its own feature key except the island of Madeira. */
  lemma AliasesAreIdentity()
    ensures forall a :: a in DistrictAliases ==> DistrictAliases[a] == a || (a == "ilha da madeira" && DistrictAliases[a] == "madeira")
  {
  }

  /** No two aliases share a feature key. */
  lemma AliasesInjective()
    ensures forall a, b :: a in DistrictAliases && b in DistrictAliases && DistrictAliases[a] == DistrictAliases[b] ==> a == b
  {
    AliasesAreIdentity();
    assert "madeira" !in DistrictAliases;
  }

  /** The aliases of the mainland regions and of the islands. */
  const NorteAliases: set<string> := {"viana do castelo", "braga", "vila real", "braganca", "porto"}
  const CentroAliases: set<string> := {"aveiro", "coimbra", "leiria", "viseu", "guarda", "castelo branco"}
  const LisboaTejoAliases: set<string> := {"lisboa", "setubal", "santarem"}
  const SulAliases: set<string> := {"beja", "evora", "portalegre", "faro"}
  const IlhasAliases: set<string> := {"ilha da madeira", "acores"}

  /** The regions cover the alias table exactly. */
  lemma AliasRegions()
    ensures DistrictAliases.Keys == NorteAliases + CentroAliases + LisboaTejoAliases + SulAliases + IlhasAliases
  {
  }

  /** Every alias is lower-case ASCII, checked region by region. */
  lemma AliasesLowerAscii()
    ensures forall a :: a in DistrictAliases ==> LowerAscii(a)
  {
    AliasRegions();
    NorteLowerAscii();
    CentroLowerAscii();
    LisboaTejoLowerAscii();
    SulLowerAscii();
    IlhasLowerAscii();
  }

  lemma NorteLowerAscii()
    ensures forall a :: a in NorteAliases ==> LowerAscii(a)
  {
  }

  lemma CentroLowerAscii()
    ensures forall a :: a in CentroAliases ==> LowerAscii(a)
  {
  }

  lemma LisboaTejoLowerAscii()
    ensures forall a :: a in LisboaTejoAliases ==> LowerAscii(a)
  {
  }

  lemma SulLowerAscii()
    ensures forall a :: a in SulAliases ==> LowerAscii(a)
  {
  }

  lemma IlhasLowerAscii()
    ensures forall a :: a in IlhasAliases ==> LowerAscii(a)
  {
  }

  /** Every feature key of the table is lower-case ASCII. */
  lemma FeatureKeysLowerAscii()
    ensures forall v :: v in DistrictAliases.Values ==> LowerAscii(v)
  {
    AliasesLowerAscii();
    AliasesAreIdentity();
    forall v | v in DistrictAliases.Values ensures LowerAscii(v) {
      var a :| a in DistrictAliases && DistrictAliases[a] == v;
      if v != a {
        assert v == "madeira";
      }
    }
  }

  /** `distrito_geojson`: the feature key of a survey district name, or NaN
      (no value) when its normalised form is not an alias. The key of a name
      and of its normalised form are the same, and an alias is found as
      written. */
  function CanonicalKey(name: string): (k: Option<string>)
    ensures k.Some? <==> Normalize(name) in DistrictAliases
    ensures k.Some? ==> LowerAscii(k.value)
  {
    var n := Normalize(name);
    FeatureKeysLowerAscii();
    if n in DistrictAliases then Some(DistrictAliases[n]) else None
  }

  /** Normalising a name first does not change its key. */
  lemma KeyOfNormalized(name: string)
    ensures CanonicalKey(Normalize(name)) == CanonicalKey(name)
  {
    Idempotent(name);
  }

  /** Every alias, written as in the table, reaches its feature key. */
  lemma AliasesReachable(a: string)
    requires a in DistrictAliases
    ensures CanonicalKey(a) == Some(DistrictAliases[a])
  {
    AliasesLowerAscii();
    NormalizeFixesLowerAscii(a);
  }

  /** What the map knows about a district: its mean (NaN when no response
      has a defined weight) and its number of defined responses. */
  datatype DistrictStat = DistrictStat(score: Option<real>, count: nat)

  function StatOf(g: GroupSummary): DistrictStat
  {
    DistrictStat(g.Mean(), g.count)
  }

  /** A row of the ranked district table as the map sees it: its feature
      key (NaN when it has none) and its statistics. */
  datatype Entry = Entry(key: Option<string>, stat: DistrictStat)

  function Keyed(ranked: seq<GroupSummary>): (es: seq<Entry>)
    ensures |es| == |ranked|
    ensures forall i :: 0 <= i < |ranked| ==> es[i] == Entry(CanonicalKey(ranked[i].key), StatOf(ranked[i]))
  {
    seq(|ranked|, i requires 0 <= i < |ranked| => Entry(CanonicalKey(ranked[i].key), StatOf(ranked[i])))
  }

  /** No later entry carries the same key as entry `i`. */
  predicate LastWithKey(es: seq<Entry>, i: nat)
    requires i < |es|
  {
    forall j :: i < j < |es| ==> es[j].key != es[i].key
  }

  /** `set_index(...)[...].to_dict()`: a key is present when some entry
      carries it, and it holds the statistics of the last such entry. NaN
      keys are left out, since no feature name equals NaN. */
  function ToDict(es: seq<Entry>): (t: map<string, DistrictStat>)
    ensures forall k :: k in t <==> exists i :: 0 <= i < |es| && es[i].key == Some(k)
    ensures forall i :: 0 <= i < |es| && es[i].key.Some? && LastWithKey(es, i) ==> t[es[i].key.value] == es[i].stat
  {
    if es == [] then map[]
    else
      var init := es[..|es| - 1];
      var last := es[|es| - 1];
      assert es == init + [last];
      StoreStep(init, last, ToDict(init));
      Store(ToDict(init), last)
  }

  /** One more row of `to_dict`: a keyed entry overwrites its key. */
  function Store(t: map<string, DistrictStat>, e: Entry): map<string, DistrictStat>
  {
    if e.key.Some? then t[e.key.value := e.stat] else t
  }

  /** Storing one more entry keeps the table equal to the dict of the longer
      sequence. */
  lemma StoreStep(init: seq<Entry>, last: Entry, t: map<string, DistrictStat>)
    requires forall k :: k in t <==> exists i :: 0 <= i < |init| && init[i].key == Some(k)
    requires forall i :: 0 <= i < |init| && init[i].key.Some? && LastWithKey(init, i) ==> t[init[i].key.value] == init[i].stat
    ensures var es, u := init + [last], Store(t, last);
            && (forall k :: k in u <==> exists i :: 0 <= i < |es| && es[i].key == Some(k))
            && (forall i :: 0 <= i < |es| && es[i].key.Some? && LastWithKey(es, i) ==> u[es[i].key.value] == es[i].stat)
  {
    var es, u := init + [last], Store(t, last);
    forall k ensures k in u <==> exists i :: 0 <= i < |es| && es[i].key == Some(k) {
      if k in u {
        if last.key == Some(k) {
          assert es[|init|].key == Some(k);
        } else {
          var i :| 0 <= i < |init| && init[i].key == Some(k);
          assert es[i] == init[i];
        }
      }
      if exists i :: 0 <= i < |es| && es[i].key == Some(k) {
        var i :| 0 <= i < |es| && es[i].key == Some(k);
        if i < |init| {
          assert init[i] == es[i];
        }
      }
    }
    forall i | 0 <= i < |es| && es[i].key.Some? && LastWithKey(es, i)
      ensures u[es[i].key.value] == es[i].stat
    {
      if i < |init| {
        assert es[i] == init[i];
        assert es[|init|] == last;
        assert LastWithKey(init, i) by {
          forall j | i < j < |init| ensures init[j].key != init[i].key {
            assert es[j] == init[j];
          }
        }
      }
    }
  }

  /** No district later in the ranking has the feature key of district `i`. */
  predicate LatestWithKey(ranked: seq<GroupSummary>, i: nat)
    requires i < |ranked|
  {
    forall j :: i < j < |ranked| ==> CanonicalKey(ranked[j].key) != CanonicalKey(ranked[i].key)
  }

  /** `district_satisfaction_dict` and `district_count_dict`: the ranked
      district table keyed by feature key. Every stored value is the
      statistics of a district carrying that key; when several districts
      share a key the one latest in the ranking wins. */
  function ScoreTable(ranked: seq<GroupSummary>): (t: map<string, DistrictStat>)
    ensures forall k :: k in t <==> exists i :: 0 <= i < |ranked| && CanonicalKey(ranked[i].key) == Some(k)
    ensures forall k :: k in t ==> LowerAscii(k)
    ensures forall k :: k in t ==>
              exists i :: 0 <= i < |ranked| && CanonicalKey(ranked[i].key) == Some(k) && t[k] == StatOf(ranked[i])
    ensures forall i :: 0 <= i < |ranked| && CanonicalKey(ranked[i].key).Some? && LatestWithKey(ranked, i) ==>
              t[CanonicalKey(ranked[i].key).value] == StatOf(ranked[i])
  {
    var es := Keyed(ranked);
    var t := ToDict(es);
    forall k | k in t ensures LowerAscii(k) {
      var i :| 0 <= i < |es| && es[i].key == Some(k);
      assert CanonicalKey(ranked[i].key) == Some(k);
    }
    forall k | k in t
      ensures exists i :: 0 <= i < |ranked| && CanonicalKey(ranked[i].key) == Some(k) && t[k] == StatOf(ranked[i])
    {
      var i :| 0 <= i < |es| && es[i].key == Some(k);
      var j := LastIndexWithKey(es, i);
      assert es[j] == Entry(CanonicalKey(ranked[j].key), StatOf(ranked[j]));
    }
    forall i | 0 <= i < |ranked| && CanonicalKey(ranked[i].key).Some? && LatestWithKey(ranked, i)
      ensures t[CanonicalKey(ranked[i].key).value] == StatOf(ranked[i])
    {
      assert LastWithKey(es, i) by {
        forall j | i < j < |es| ensures es[j].key != es[i].key {
          assert es[j].key == CanonicalKey(ranked[j].key);
        }
      }
    }
    t
  }

  /** Every keyed entry has a last entry with the same key, at or after it. */
  lemma LastIndexWithKey(es: seq<Entry>, i: nat) returns (j: nat)
    requires i < |es|
    ensures i <= j < |es| && es[j].key == es[i].key && LastWithKey(es, j)
    decreases |es| - i
  {
    if LastWithKey(es, i) {
      j := i;
    } else {
      var k :| i < k < |es| && es[k].key == es[i].key;
      j := LastIndexWithKey(es, k);
    }
  }

  /** The grey of a feature without data. */
  const NoDataGrey: string := "#f7f7f7"

  lemma GreyIsNoBucket(b: Bucket)
    ensures Colour(b) != NoDataGrey
  {
  }

  /** `style_function` as written: a feature whose lower-cased name is a key
      gets the colour of the `<` chain for the stored score, and a NaN score
      falls through every comparison to the dark green of the top bucket;
      any other feature is grey. */
  function FeatureFillAsWritten(t: map<string, DistrictStat>, feature: string): (c: string)
    ensures Lower(feature) !in t ==> c == NoDataGrey
    ensures Lower(feature) in t && t[Lower(feature)].score.Some? ==>
              c == Colour(Classify(t[Lower(feature)].score.value))
    ensures Lower(feature) in t && t[Lower(feature)].score.None? ==> c == Colour(VeryHigh)
  {
    var name := Lower(feature);
    if name in t then
      FillOfScore(t[name].score);
      NaNScoreSplitsChains();
      FillColour(t[name].score)
    else NoDataGrey
  }

  lemma FillOfScore(score: Option<real>)
    ensures score.Some? ==> FillColour(score) == Colour(Classify(score.value))
  {
    if score.Some? {
      FillClassifies(score.value);
    }
  }

  lemma PopupOfScore(score: Option<real>)
    ensures score.Some? ==> PopupStatus(score) == Status(Description(Classify(score.value)), Colour(Classify(score.value)))
  {
    if score.Some? {
      PopupClassifies(score.value);
    }
  }

  /** A popup: the status of the score and the number of responses. */
  datatype Popup = Popup(status: Status, count: nat)

  /** The popup loop as written: every feature whose lower-cased name is a
      key gets a popup with the `>=` chain's status for the stored score,
      and a NaN score fails every comparison and reads as the lowest
      status. */
  function FeaturePopupAsWritten(t: map<string, DistrictStat>, feature: string): (p: Option<Popup>)
    ensures p.Some? <==> Lower(feature) in t
    ensures p.Some? ==> p.value.count == t[Lower(feature)].count
    ensures p.Some? && t[Lower(feature)].score.Some? ==>
              var b := Classify(t[Lower(feature)].score.value);
              p.value.status == Status(Description(b), Colour(b))
    ensures p.Some? && t[Lower(feature)].score.None? ==>
              p.value.status == Status(Description(VeryLow), Colour(VeryLow))
  {
    var name := Lower(feature);
    if name in t then
      var stat := t[name];
      PopupOfScore(stat.score);
      NaNScoreSplitsChains();
      Some(Popup(PopupStatus(stat.score), stat.count))
    else None
  }

  /** A district whose responses all carry labels outside the five has a
      NaN mean; as written its feature is filled dark green while its popup
      reads "Very Low Satisfaction" in red. */
  lemma NaNDistrictAsWritten()
    ensures var t := map["porto" := DistrictStat(None, 0)];
            && FeatureFillAsWritten(t, "Porto") == Colour(VeryHigh)
            && FeaturePopupAsWritten(t, "Porto") == Some(Popup(Status(Description(VeryLow), Colour(VeryLow)), 0))
  {
    assert Lower("Porto") == "porto";
    NaNScoreSplitsChains();
  }

  /** The fill the map's legend promises: the bucket colour of a defined
      score, and grey for a feature without data, including a district
      whose mean is NaN. */
  function FeatureFill(t: map<string, DistrictStat>, feature: string): (c: string)
    ensures c == NoDataGrey <==> !(Lower(feature) in t && t[Lower(feature)].score.Some?)
    ensures Lower(feature) in t && t[Lower(feature)].score.Some? ==>
              c == Colour(Classify(t[Lower(feature)].score.value))
  {
    var name := Lower(feature);
    if name in t && t[name].score.Some? then
      FillClassifies(t[name].score.value);
      GreyIsNoBucket(Classify(t[name].score.value));
      FillColour(t[name].score)
    else NoDataGrey
  }

  /** The popup of a feature with a defined score, and none otherwise. */
  function FeaturePopup(t: map<string, DistrictStat>, feature: string): (p: Option<Popup>)
    ensures p.Some? <==> Lower(feature) in t && t[Lower(feature)].score.Some?
    ensures p.Some? ==>
              var b := Classify(t[Lower(feature)].score.value);
              p.value == Popup(Status(Description(b), Colour(b)), t[Lower(feature)].count)
  {
    var name := Lower(feature);
    if name in t && t[name].score.Some? then
      PopupClassifies(t[name].score.value);
      Some(Popup(PopupStatus(t[name].score), t[name].count))
    else None
  }

  /** With the corrected lookup, fill and popup always tell the same story:
      a feature with a popup is filled with the popup's colour, and a
      feature without one is grey. */
  lemma FillMatchesPopup(t: map<string, DistrictStat>, feature: string)
    ensures FeaturePopup(t, feature).Some? ==> FeatureFill(t, feature) == FeaturePopup(t, feature).value.status.colour
    ensures FeaturePopup(t, feature).None? ==> FeatureFill(t, feature) == NoDataGrey
  {
  }

  /** The corrected lookup agrees with the source on every district whose
      mean is defined. */
  lemma CorrectedAgreesWhenDefined(t: map<string, DistrictStat>, feature: string)
    requires Lower(feature) in t ==> t[Lower(feature)].score.Some?
    ensures FeatureFill(t, feature) == FeatureFillAsWritten(t, feature)
    ensures FeaturePopup(t, feature) == FeaturePopupAsWritten(t, feature)
  {
  }

  /** Feature names are only lower-cased, never stripped of accents: a
      feature whose lower-cased name keeps a non-ASCII letter finds no
      district, whatever the survey holds. */
  lemma AccentedFeatureUnmatched(ranked: seq<GroupSummary>, feature: string, i: nat)
    requires i < |feature| && !IsAscii(feature[i])
    ensures Lower(feature) !in ScoreTable(ranked)
    ensures FeatureFill(ScoreTable(ranked), feature) == NoDataGrey
  {
    assert !IsAscii(Lower(feature)[i]);
  }

  /** The map's lookup table for a survey: the district summaries ranked
      as for the headline and keyed by feature key. A feature key is present
      exactly when some district carries it; its value is the statistics of
      one such district, and of the only one when just one carries it. When
      several carry it, the one ranked last wins: a district without a
      defined mean if there is one, otherwise the smallest mean. */
  function MapTable(districts: seq<GroupSummary>): (t: map<string, DistrictStat>)
    ensures forall k :: k in t <==> exists g :: g in districts && CanonicalKey(g.key) == Some(k)
    ensures forall k :: k in t ==> exists g :: g in districts && CanonicalKey(g.key) == Some(k) && t[k] == StatOf(g)
    ensures forall g :: g in districts && CanonicalKey(g.key).Some? && SoleWithKey(districts, g) ==>
              t[CanonicalKey(g.key).value] == StatOf(g)
    ensures forall k, h :: k in t && h in districts && CanonicalKey(h.key) == Some(k) ==> KeptBelow(t[k], h)
  {
    var ranked := RankByMean(districts);
    SameElements(ranked, districts);
    ReorderedKeys(ranked, districts);
    var t := ScoreTable(ranked);
    ReorderedValues(ranked, districts, t);
    RankedCollisions(ranked, districts);
    t
  }

  /** Every district sharing a key with the kept entry stands above it. */
  lemma RankedCollisions(ranked: seq<GroupSummary>, districts: seq<GroupSummary>)
    requires Ranked(ranked)
    requires forall g :: g in districts ==> g in ranked
    ensures forall k, h :: k in ScoreTable(ranked) && h in districts && CanonicalKey(h.key) == Some(k) ==>
              KeptBelow(ScoreTable(ranked)[k], h)
  {
    forall k, h | k in ScoreTable(ranked) && h in districts && CanonicalKey(h.key) == Some(k)
      ensures KeptBelow(ScoreTable(ranked)[k], h)
    {
      var i :| 0 <= i < |ranked| && ranked[i] == h;
      CollisionWinner(ranked, k, i);
    }
  }

  /** The statistics `s` kept for a feature key stand below district `h`,
      which shares the key, in the descending ranking: `s` has no mean when
      `h` has none, and otherwise a mean, if any, no larger than `h`'s. */
  predicate KeptBelow(s: DistrictStat, h: GroupSummary)
  {
    && (h.count == 0 ==> s.score.None?)
    && (h.count > 0 && s.score.Some? ==> s.score.value <= h.Mean().value)
  }

  /** Of the districts sharing a feature key, the ranked table keeps the one
      ranked last: a NaN district if there is one, else the smallest mean. */
  lemma CollisionWinner(ranked: seq<GroupSummary>, k: string, i: nat)
    requires Ranked(ranked)
    requires i < |ranked| && CanonicalKey(ranked[i].key) == Some(k)
    ensures k in ScoreTable(ranked) && KeptBelow(ScoreTable(ranked)[k], ranked[i])
  {
    var t := ScoreTable(ranked);
    var es := Keyed(ranked);
    var j := LastIndexWithKey(es, i);
    assert es[j].key == CanonicalKey(ranked[j].key) && es[i].key == CanonicalKey(ranked[i].key);
    assert LatestWithKey(ranked, j) by {
      forall m | j < m < |ranked| ensures CanonicalKey(ranked[m].key) != CanonicalKey(ranked[j].key) {
        assert es[m].key == CanonicalKey(ranked[m].key);
      }
    }
    assert t[k] == StatOf(ranked[j]);
    if i < j && ranked[j].count > 0 {
      RankedAt(ranked, i, j);
    }
  }

  /** No other district of `districts` has the feature key of `g`. */
  predicate SoleWithKey(districts: seq<GroupSummary>, g: GroupSummary)
  {
    forall h :: h in districts && CanonicalKey(h.key) == CanonicalKey(g.key) ==> h == g
  }

  /** The values of the table come from the districts, whatever their order. */
  lemma ReorderedValues(ranked: seq<GroupSummary>, districts: seq<GroupSummary>, t: map<string, DistrictStat>)
    requires forall g :: g in ranked <==> g in districts
    requires forall k :: k in t ==>
               exists i :: 0 <= i < |ranked| && CanonicalKey(ranked[i].key) == Some(k) && t[k] == StatOf(ranked[i])
    requires forall k :: k in t <==> exists g :: g in districts && CanonicalKey(g.key) == Some(k)
    ensures forall k :: k in t ==> exists g :: g in districts && CanonicalKey(g.key) == Some(k) && t[k] == StatOf(g)
    ensures forall g :: g in districts && CanonicalKey(g.key).Some? && SoleWithKey(districts, g) ==>
              t[CanonicalKey(g.key).value] == StatOf(g)
  {
    forall k | k in t ensures exists g :: g in districts && CanonicalKey(g.key) == Some(k) && t[k] == StatOf(g) {
      var i :| 0 <= i < |ranked| && CanonicalKey(ranked[i].key) == Some(k) && t[k] == StatOf(ranked[i]);
      assert ranked[i] in ranked;
    }
    forall g | g in districts && CanonicalKey(g.key).Some? && SoleWithKey(districts, g)
      ensures t[CanonicalKey(g.key).value] == StatOf(g)
    {
      var k := CanonicalKey(g.key).value;
      var i :| 0 <= i < |ranked| && CanonicalKey(ranked[i].key) == Some(k) && t[k] == StatOf(ranked[i]);
      assert ranked[i] in ranked;
    }
  }

  /** The keys of the table do not depend on the order of its rows. */
  lemma ReorderedKeys(ranked: seq<GroupSummary>, districts: seq<GroupSummary>)
    requires forall g :: g in ranked <==> g in districts
    ensures forall k :: k in ScoreTable(ranked) <==> exists g :: g in districts && CanonicalKey(g.key) == Some(k)
  {
    var t := ScoreTable(ranked);
    forall k | exists g :: g in districts && CanonicalKey(g.key) == Some(k)
      ensures k in t
    {
      var g :| g in districts && CanonicalKey(g.key) == Some(k);
      var i :| 0 <= i < |ranked| && ranked[i] == g;
    }
    forall k | k in t
      ensures exists g :: g in districts && CanonicalKey(g.key) == Some(k)
    {
      var i :| 0 <= i < |ranked| && CanonicalKey(ranked[i].key) == Some(k);
      assert ranked[i] in ranked;
    }
  }
}
