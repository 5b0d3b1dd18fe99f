/**
 * The personality processor: it turns quiz answers into a five-dimensional personality vector
 * and describes that vector in words.
 */
module Personality {
  import opened Numeric
  import opened Seqs
  import opened Text
  import opened Results
  import opened Dimension

  // ------------------------------------------------------------------ answers

  /** One quiz answer; `weights` is None when the answer has no `weights` entry. */
  datatype Answer = Answer(weights: Option<seq<real>>)

  /** `answer.get('weights', [0, 0, 0, 0, 0])`. */
  function WeightsOf(answer: Answer): seq<real> {
    answer.weights.GetOr([0.0, 0.0, 0.0, 0.0, 0.0])
  }

  /** What one answer adds to dimension `i`: nothing unless it carries exactly five weights. */
  function Contribution(answer: Answer, i: nat): real
    requires i < Count
  {
    var w := WeightsOf(answer);
    if |w| == Count then w[i] else 0.0
  }

  /** The total weight the answers give dimension `i`. */
  function SumDim(answers: seq<Answer>, i: nat): real
    requires i < Count
  {
    if |answers| == 0 then 0.0
    else SumDim(answers[..|answers| - 1], i) + Contribution(answers[|answers| - 1], i)
  }

  /** Per-dimension multipliers; the processor always uses all ones. */
  type DimensionWeights = w: seq<real> | |w| == Count witness [1.0, 1.0, 1.0, 1.0, 1.0]

  const DefaultDimensionWeights: DimensionWeights := [1.0, 1.0, 1.0, 1.0, 1.0]

  /** The vector returned for an empty answer list: the midpoint of the scale in every dimension. */
  const NeutralVector: seq<real> := [2.5, 2.5, 2.5, 2.5, 2.5]

  /** `total / count` for a positive count. */
  function Mean(total: real, count: nat): real
    requires count > 0
  {
    total / (count as real)
  }

  /** A mean scaled by its dimension's weight. */
  function Weigh(mean: real, weight: real): real {
    mean * weight
  }

  /** Component `i` of the personality vector: the mean over ALL answers, scaled, clamped to [1, 5]. */
  function Component(dimensionWeights: DimensionWeights, answers: seq<Answer>, i: nat): (r: real)
    requires i < Count
    requires |answers| > 0
    ensures 1.0 <= r <= 5.0
  {
    Clamp(1.0, 5.0, Weigh(Mean(SumDim(answers, i), |answers|), dimensionWeights[i]))
  }

  /** Sums the answers' weights, divides by the number of answers, scales and clamps. */
  method CalculatePersonalityVector(dimensionWeights: DimensionWeights, answers: seq<Answer>)
    returns (v: seq<real>)
    ensures |v| == Count
    ensures |answers| == 0 ==> v == NeutralVector
    ensures |answers| > 0 ==> forall i :: 0 <= i < Count ==> v[i] == Component(dimensionWeights, answers, i)
    ensures forall i :: 0 <= i < Count ==> 1.0 <= v[i] <= 5.0
  {
    if |answers| == 0 {
      return NeutralVector;
    }
    var sums := [0.0, 0.0, 0.0, 0.0, 0.0];
    var k := 0;
    while k < |answers|
      invariant 0 <= k <= |answers|
      invariant |sums| == Count
      invariant forall i :: 0 <= i < Count ==> sums[i] == SumDim(answers[..k], i)
    {
      var weights := WeightsOf(answers[k]);
      assert answers[..k + 1][..k] == answers[..k];
      if |weights| == |sums| {
        var i := 0;
        while i < |sums|
          invariant 0 <= i <= Count
          invariant |sums| == Count
          invariant forall j :: 0 <= j < i ==> sums[j] == SumDim(answers[..k + 1], j)
          invariant forall j :: i <= j < Count ==> sums[j] == SumDim(answers[..k], j)
        {
          sums := sums[i := sums[i] + weights[i]];
          i := i + 1;
        }
      }
      k := k + 1;
    }
    assert answers[..k] == answers;
    var n := |answers| as real;
    var means := seq(Count, i requires 0 <= i < Count => sums[i] / n);
    var scaled := seq(Count, i requires 0 <= i < Count => means[i] * dimensionWeights[i]);
    v := seq(Count, i requires 0 <= i < Count => Clamp(1.0, 5.0, scaled[i]));
  }

  /** An answer without weights, or with a list that is not five long, adds nothing to the sum of any dimension but still counts in the divisor. */
  lemma MalformedAnswerCounts(dimensionWeights: DimensionWeights, answers: seq<Answer>, bad: Answer, i: nat)
    requires i < Count
    requires bad.weights.None? || |WeightsOf(bad)| != Count
    ensures SumDim(answers + [bad], i) == SumDim(answers, i)
    ensures Component(dimensionWeights, answers + [bad], i)
         == Clamp(1.0, 5.0, Weigh(Mean(SumDim(answers, i), |answers| + 1), dimensionWeights[i]))
  {
    var longer := answers + [bad];
    assert longer[..|longer| - 1] == answers;
    ComponentIsScaledMean(dimensionWeights, longer, i);
  }

  /** So, with non-negative weights, such an answer can only pull a component down. */
  lemma MalformedAnswerDilutes(dimensionWeights: DimensionWeights, answers: seq<Answer>, bad: Answer, i: nat)
    requires i < Count
    requires |answers| > 0
    requires bad.weights.None? || |WeightsOf(bad)| != Count
    requires SumDim(answers, i) >= 0.0 && dimensionWeights[i] >= 0.0
    ensures Component(dimensionWeights, answers + [bad], i) <= Component(dimensionWeights, answers, i)
  {
    MalformedAnswerCounts(dimensionWeights, answers, bad, i);
    ComponentIsScaledMean(dimensionWeights, answers, i);
    DilutedMeanBelow(SumDim(answers, i), |answers|, dimensionWeights[i]);
  }

  lemma ComponentIsScaledMean(dimensionWeights: DimensionWeights, answers: seq<Answer>, i: nat)
    requires i < Count
    requires |answers| > 0
    ensures Component(dimensionWeights, answers, i) == Clamp(1.0, 5.0, Weigh(Mean(SumDim(answers, i), |answers|), dimensionWeights[i]))
  {
  }

  lemma DilutedMeanBelow(sum: real, count: nat, w: real)
    requires sum >= 0.0 && count > 0 && w >= 0.0
    ensures Clamp(1.0, 5.0, Weigh(Mean(sum, count + 1), w)) <= Clamp(1.0, 5.0, Weigh(Mean(sum, count), w))
  {
    var n := count as real;
    assert (count + 1) as real == n + 1.0;
    var diluted, mean := sum / (n + 1.0), sum / n;
    DivByMore(sum, n, n + 1.0);
    ScaleMonotone(diluted, mean, w);
    ClampMonotone(1.0, 5.0, diluted * w, mean * w);
  }

  /** Answers weighted all-5 and all-1 average to 3 in every dimension. */
  lemma TwoAnswersAverage()
    ensures forall i :: 0 <= i < Count ==>
      Component(DefaultDimensionWeights,
                [Answer(Some([5.0, 5.0, 5.0, 5.0, 5.0])), Answer(Some([1.0, 1.0, 1.0, 1.0, 1.0]))], i) == 3.0
  {
    var answers := [Answer(Some([5.0, 5.0, 5.0, 5.0, 5.0])), Answer(Some([1.0, 1.0, 1.0, 1.0, 1.0]))];
    assert answers[..1] == [answers[0]];
    assert answers[..1][..0] == [];
    forall i | 0 <= i < Count
      ensures SumDim(answers, i) == 6.0
    {
      assert SumDim(answers[..1], i) == 5.0;
    }
  }

  // ------------------------------------------------------------- descriptions

  /** The four score bands of a description, from highest to lowest. */
  datatype Band = Alto | MedioAlto | Medio | Bajo {
    function Label(): string {
      match this
      case Alto => "Alto"
      case MedioAlto => "Medio-Alto"
      case Medio => "Medio"
      case Bajo => "Bajo"
    }

    function Rank(): nat {
      match this
      case Alto => 3
      case MedioAlto => 2
      case Medio => 1
      case Bajo => 0
    }
  }

  function BandOf(score: real): (b: Band)
    ensures b == Alto <==> score >= 4.0
    ensures b == MedioAlto <==> 3.0 <= score < 4.0
    ensures b == Medio <==> 2.0 <= score < 3.0
    ensures b == Bajo <==> score < 2.0
  {
    if score >= 4.0 then Alto
    else if score >= 3.0 then MedioAlto
    else if score >= 2.0 then Medio
    else Bajo
  }

  /** A higher score never lands in a lower band. */
  lemma BandMonotone(s: real, t: real)
    requires s <= t
    ensures BandOf(s).Rank() <= BandOf(t).Rank()
  {
  }

  /** A description: its band and the score it was computed from. */
  datatype Description = Description(band: Band, score: real)

  /** `f"{level} ({score:.1f}/5.0)"`; the one-decimal formatting is the parameter `formatScore`. */
  function RenderDescription(d: Description, formatScore: real -> string): (text: string)
    ensures d.band.Label() + " (" <= text
    ensures |text| >= 5 && text[|text| - 5..] == "/5.0)"
  {
    var text := d.band.Label() + " (" + formatScore(d.score) + "/5.0)";
    assert text == (d.band.Label() + " (") + (formatScore(d.score) + "/5.0)");
    text
  }

  /** The rendered text determines the band: no label is followed by " (" inside another label. */
  lemma RenderedBandDetermined(d1: Description, d2: Description, formatScore: real -> string)
    requires RenderDescription(d1, formatScore) == RenderDescription(d2, formatScore)
    ensures d1.band == d2.band
  {
    var t := RenderDescription(d1, formatScore);
    var l1, l2 := d1.band.Label() + " (", d2.band.Label() + " (";
    assert l1 <= t && l2 <= t;
    assert t[0] == l1[0] == l2[0];
    if l1[0] == 'M' {
      assert t[5] == l1[5] == l2[5];
    }
  }

  /** One description per dimension that has a score (`zip` stops at the shorter list). */
  function GetPersonalityDescription(v: seq<real>): (descriptions: map<string, Description>)
    ensures forall i :: 0 <= i < |v| && i < Count ==>
      Names[i] in descriptions && descriptions[Names[i]] == Description(BandOf(v[i]), v[i])
    ensures forall name :: name in descriptions ==> exists i :: 0 <= i < |v| && i < Count && Names[i] == name
  {
    NamesDistinct();
    ZipToMap(Names, seq(|v|, i requires 0 <= i < |v| => Description(BandOf(v[i]), v[i])))
  }

  // ---------------------------------------------------------- dominant traits

  const DefaultThreshold: real := 3.5

  /** No score past the fifth reaches `threshold`; otherwise `get_dominant_traits` indexes past the names and raises. */
  predicate NoTraitPastLastDimension(v: seq<real>, threshold: real) {
    forall i :: Count <= i < |v| ==> v[i] < threshold
  }

  function DominantFrom(v: seq<real>, threshold: real, k: nat): (traits: seq<string>)
    requires k <= Count
    requires NoTraitPastLastDimension(v, threshold)
    decreases |v| - k
    ensures Subseq(traits, Names[k..])
    ensures forall j :: k <= j < |v| && j < Count && v[j] >= threshold ==> Names[j] in traits
    ensures forall name :: name in traits ==>
      exists j :: k <= j < |v| && j < Count && v[j] >= threshold && Names[j] == name
  {
    if k >= |v| || k == Count then []
    else
      var rest := DominantFrom(v, threshold, k + 1);
      assert Names[k..][1..] == Names[k + 1..];
      if v[k] >= threshold then [Names[k]] + rest else rest
  }

  /** The names of the dimensions scoring at least `threshold`, in dimension order. */
  function GetDominantTraits(v: seq<real>, threshold: real): (traits: seq<string>)
    requires NoTraitPastLastDimension(v, threshold)
    ensures Subseq(traits, Names)
    ensures forall j :: 0 <= j < |v| && j < Count ==> (Names[j] in traits <==> v[j] >= threshold)
    ensures forall name :: name in traits ==>
      exists j :: 0 <= j < |v| && j < Count && v[j] >= threshold && Names[j] == name
  {
    NamesDistinct();
    assert Names[0..] == Names;
    DominantFrom(v, threshold, 0)
  }

  /** Every reported trait is the name of a dimension that reached the threshold. */
  lemma DominantTraitWitness(v: seq<real>, threshold: real, name: string)
    requires NoTraitPastLastDimension(v, threshold)
    requires name in GetDominantTraits(v, threshold)
    ensures exists j :: 0 <= j < |v| && j < Count && Names[j] == name && v[j] >= threshold
  {
    var j :| 0 <= j < Count && Names[j] == name;
    assert Names[j] in GetDominantTraits(v, threshold);
  }

  // --------------------------------------------------------------- similarity

  /** The same distance-to-percentage conversion as the catalog matcher. */
  function CalculatePersonalitySimilarity(sqrt: real -> real, vector1: seq<real>, vector2: seq<real>): (r: real)
    requires IsSqrt(sqrt)
    ensures 0.0 <= r <= 100.0
    ensures |vector1| != |vector2| ==> r == 0.0
    ensures vector1 == vector2 ==> r == 100.0
  {
    if |vector1| != |vector2| then 0.0
    else
      var distance := sqrt(SumSq(vector1, vector2));
      var maxDistance := sqrt(MaxDistanceSquared);
      SqrtPositive(sqrt, MaxDistanceSquared);
      SumSqZeroIff(vector1, vector2);
      SqrtZero(sqrt);
      var similarity := (1.0 - distance / maxDistance) * 100.0;
      Clamp(0.0, 100.0, similarity)
  }

  // ----------------------------------------------------------------- insights

  const BalancedProfile: string :=
    "Tienes un perfil equilibrado, " + "valorando todos los aspectos por igual al elegir un auto."
  const TraitsIntro: string := "Tus rasgos dominantes son: "

  const SustainableTech: string := "Te inclinas hacia vehículos eléctricos o híbridos con tecnología avanzada."
  const PremiumSport: string := "Buscas autos deportivos premium con alto rendimiento y comodidades."
  const Practical: string := "Priorizas la funcionalidad y practicidad en tu vehículo."
  const Environmental: string := "El impacto ambiental es importante en tu decisión de compra."
  const Connected: string := "Valoras la tecnología y conectividad en tu auto."

  /** The elaboration sentence, by the if/elif chain of `generate_personality_insights` over trait combinations. */
  function Elaboration(traits: seq<string>): string {
    if "Sostenibilidad" in traits && "Tech-savvy" in traits then SustainableTech
    else if "Prestaciones" in traits && "Lujo y Confort" in traits then PremiumSport
    else if "Versatilidad" in traits then Practical
    else if "Sostenibilidad" in traits then Environmental
    else if "Tech-savvy" in traits then Connected
    else ""
  }

  /** The insight text for a list of dominant traits. */
  function InsightText(traits: seq<string>): string {
    if |traits| == 0 then BalancedProfile
    else TraitsIntro + Join(", ", traits) + ". " + Elaboration(traits)
  }

  /**
   * A balanced-profile sentence when no trait is dominant; otherwise the dominant traits followed by
   * the sentence of the first rule of the insight table that applies, or by nothing.
   */
  function GeneratePersonalityInsights(v: seq<real>): (text: string)
    requires NoTraitPastLastDimension(v, DefaultThreshold)
    ensures var traits := GetDominantTraits(v, DefaultThreshold);
            && (|traits| == 0 ==> text == BalancedProfile)
            && (|traits| > 0 ==>
                  text == TraitsIntro + Join(", ", traits) + ". "
                          + match FirstApplicable(InsightRules, traits)
                            case Some(k) => InsightRules[k].sentence
                            case None => "")
  {
    var traits := GetDominantTraits(v, DefaultThreshold);
    ElaborationIsFirstApplicableRule(traits);
    InsightText(traits)
  }

  /** One row of the insight table: the traits it needs and the sentence it adds. */
  datatype InsightRule = InsightRule(required: seq<string>, sentence: string)

  /** The trait combinations in priority order; the first one that applies wins. */
  const InsightRules: seq<InsightRule> := [
    InsightRule(["Sostenibilidad", "Tech-savvy"], SustainableTech),
    InsightRule(["Prestaciones", "Lujo y Confort"], PremiumSport),
    InsightRule(["Versatilidad"], Practical),
    InsightRule(["Sostenibilidad"], Environmental),
    InsightRule(["Tech-savvy"], Connected)
  ]

  predicate Applies(rule: InsightRule, traits: seq<string>) {
    forall i :: 0 <= i < |rule.required| ==> rule.required[i] in traits
  }

  lemma AppliesOne(name: string, sentence: string, traits: seq<string>)
    ensures Applies(InsightRule([name], sentence), traits) <==> name in traits
  {
    assert [name][0] == name;
  }

  lemma AppliesTwo(a: string, b: string, sentence: string, traits: seq<string>)
    ensures Applies(InsightRule([a, b], sentence), traits) <==> a in traits && b in traits
  {
    assert [a, b][0] == a && [a, b][1] == b;
  }

  /** The index of the first rule that applies to `traits`, if any. */
  function FirstApplicable(rules: seq<InsightRule>, traits: seq<string>): (r: Option<nat>)
    ensures r.Some? ==> r.value < |rules| && Applies(rules[r.value], traits)
    ensures r.Some? ==> forall j :: 0 <= j < r.value ==> !Applies(rules[j], traits)
    ensures r.None? ==> forall j :: 0 <= j < |rules| ==> !Applies(rules[j], traits)
  {
    if |rules| == 0 then None
    else if Applies(rules[0], traits) then Some(0)
    else
      match FirstApplicable(rules[1..], traits)
      case None => None
      case Some(k) => Some(k + 1)
  }

  /** The elaboration is exactly the sentence of the first applicable rule of the table, or nothing. */
  lemma ElaborationIsFirstApplicableRule(traits: seq<string>)
    ensures Elaboration(traits)
            == match FirstApplicable(InsightRules, traits)
               case Some(k) => InsightRules[k].sentence
               case None => ""
  {
    assert InsightRules[0] == InsightRule(["Sostenibilidad", "Tech-savvy"], SustainableTech);
    assert InsightRules[1] == InsightRule(["Prestaciones", "Lujo y Confort"], PremiumSport);
    assert InsightRules[2] == InsightRule(["Versatilidad"], Practical);
    assert InsightRules[3] == InsightRule(["Sostenibilidad"], Environmental);
    assert InsightRules[4] == InsightRule(["Tech-savvy"], Connected);
    AppliesTwo("Sostenibilidad", "Tech-savvy", SustainableTech, traits);
    AppliesTwo("Prestaciones", "Lujo y Confort", PremiumSport, traits);
    AppliesOne("Versatilidad", Practical, traits);
    AppliesOne("Sostenibilidad", Environmental, traits);
    AppliesOne("Tech-savvy", Connected, traits);
  }

  /** With a dominant trait the insight opens with the trait list, so it is not the balanced sentence. */
  lemma InsightNamesTraits(traits: seq<string>)
    requires |traits| > 0
    ensures TraitsIntro <= InsightText(traits)
    ensures InsightText(traits) != BalancedProfile
  {
    var text := InsightText(traits);
    var head := TraitsIntro + Join(", ", traits) + ". ";
    assert text == head + Elaboration(traits);
    assert text[1] == TraitsIntro[1];
    assert TraitsIntro[1] == 'u';
    assert BalancedProfile[1] == 'i';
  }

  /** The balanced sentence is produced exactly when no dimension reaches the default threshold. */
  lemma InsightsBalancedIff(v: seq<real>)
    requires NoTraitPastLastDimension(v, DefaultThreshold)
    ensures GeneratePersonalityInsights(v) == BalancedProfile
            <==> forall i :: 0 <= i < |v| && i < Count ==> v[i] < DefaultThreshold
  {
    var traits := GetDominantTraits(v, DefaultThreshold);
    if |traits| > 0 {
      InsightNamesTraits(traits);
      DominantTraitWitness(v, DefaultThreshold, traits[0]);
    } else {
      forall i | 0 <= i < |v| && i < Count
        ensures v[i] < DefaultThreshold
      {
        assert Names[i] !in traits;
      }
    }
  }

  // ------------------------------------------------------------------ profile

  datatype Profile = Profile(
    vector: seq<real>,
    descriptions: map<string, Description>,
    dominantTraits: seq<string>,
    insights: string,
    dimensions: map<string, real>)

  /** Bundles the vector with its descriptions, dominant traits, insights and a name-to-score map. */
  function ExportPersonalityProfile(v: seq<real>): (p: Profile)
    requires NoTraitPastLastDimension(v, DefaultThreshold)
    ensures p.vector == v
    ensures p.descriptions == GetPersonalityDescription(v)
    ensures p.dominantTraits == GetDominantTraits(v, DefaultThreshold)
    ensures p.insights == GeneratePersonalityInsights(v)
    ensures forall i :: 0 <= i < |v| && i < Count ==> Names[i] in p.dimensions && p.dimensions[Names[i]] == v[i]
    ensures forall name :: name in p.dimensions ==> exists i :: 0 <= i < |v| && i < Count && Names[i] == name
  {
    NamesDistinct();
    Profile(
      v,
      GetPersonalityDescription(v),
      GetDominantTraits(v, DefaultThreshold),
      GeneratePersonalityInsights(v),
      ZipToMap(Names, v))
  }

  /** The profile's descriptions and name-to-score map cover the same dimensions with the same scores. */
  lemma ProfileScoresAgree(v: seq<real>)
    requires NoTraitPastLastDimension(v, DefaultThreshold)
    ensures var p := ExportPersonalityProfile(v);
      && p.descriptions.Keys == p.dimensions.Keys
      && forall name :: name in p.dimensions ==> p.descriptions[name].score == p.dimensions[name]
  {
    var p := ExportPersonalityProfile(v);
    forall name | name in p.dimensions
      ensures name in p.descriptions && p.descriptions[name].score == p.dimensions[name]
    {
      var i :| 0 <= i < |v| && i < Count && Names[i] == name;
    }
    forall name | name in p.descriptions
      ensures name in p.dimensions
    {
      var i :| 0 <= i < |v| && i < Count && Names[i] == name;
    }
  }

  /** A dimension is a dominant trait of the profile exactly when its score reaches 3.5, and then its band is high. */
  lemma ProfileTraitsAgree(v: seq<real>)
    requires NoTraitPastLastDimension(v, DefaultThreshold)
    ensures var p := ExportPersonalityProfile(v);
      && (forall name :: name in p.dimensions ==>
            (name in p.dominantTraits <==> p.dimensions[name] >= DefaultThreshold))
      && (forall name :: name in p.dominantTraits ==>
            name in p.descriptions && p.descriptions[name].band.Rank() >= MedioAlto.Rank())
  {
    var p := ExportPersonalityProfile(v);
    forall name | name in p.dimensions
      ensures name in p.dominantTraits <==> p.dimensions[name] >= DefaultThreshold
    {
      var i :| 0 <= i < |v| && i < Count && Names[i] == name;
    }
    forall name | name in p.dominantTraits
      ensures name in p.descriptions && p.descriptions[name].band.Rank() >= MedioAlto.Rank()
    {
      DominantTraitWitness(v, DefaultThreshold, name);
      var j :| 0 <= j < |v| && j < Count && Names[j] == name && v[j] >= DefaultThreshold;
      BandMonotone(3.0, v[j]);
    }
  }

  /** The profile's insight is the balanced sentence exactly when it lists no dominant trait. */
  lemma ProfileInsightAgrees(v: seq<real>)
    requires NoTraitPastLastDimension(v, DefaultThreshold)
    ensures var p := ExportPersonalityProfile(v);
      p.insights == BalancedProfile <==> |p.dominantTraits| == 0
  {
    var p := ExportPersonalityProfile(v);
    InsightsBalancedIff(v);
    if |p.dominantTraits| > 0 {
      DominantTraitWitness(v, DefaultThreshold, p.dominantTraits[0]);
    }
  }
}
