/**
 * The recommendation engine: a validated catalog of cars, the distance-based match score, and the
 * queries over the catalog (best matches, lookup by id, filtering, statistics, similar cars).
 * numpy's square root is the parameter `sqrt`, constrained by `Numeric.IsSqrt`.
 */
module Matcher {
  import opened Json
  import opened Results
  import opened Seqs
  import opened Numeric
  import opened Text
  import opened Utils
  import opened Ranking
  import opened Tally
  import opened Dimension

  /** One entry of the `cars` list as loaded from the JSON file; only an object can be a valid car. */
  type RawCar = Value

  const NoValidCars: string := "No se encontraron autos válidos en los datos proporcionados"

  // ---------------------------------------------------------------- catalog

  /** An object holding the four required fields, whose vector is a list of five numbers. */
  predicate ValidCar(c: RawCar) {
    && c.Obj?
    && "id" in c.fields && "brand" in c.fields && "model" in c.fields && "vector" in c.fields
    && ValidateVectorDimensions(c.fields["vector"], Count)
  }

  /**
   * Validating `entry` raises. `field in entry` raises TypeError on null, a number or a boolean. On a
   * string it is a substring test and on a list a membership test; when all four fields pass those,
   * the following `entry.get('vector', [])` raises AttributeError.
   */
  predicate ValidationRaises(entry: Value) {
    match entry
    case Null => true
    case Bool(_) => true
    case Num(_) => true
    case Str(s) => HasSubstring(s, "id") && HasSubstring(s, "brand") && HasSubstring(s, "model") && HasSubstring(s, "vector")
    case Arr(items) => Str("id") in items && Str("brand") in items && Str("model") in items && Str("vector") in items
    case Obj(_) => false
  }

  /** The cars a matcher holds once constructed: every one of them valid. */
  type Catalog = s: seq<RawCar> | forall i :: 0 <= i < |s| ==> ValidCar(s[i])

  /** `cars_data.get('cars', [])` is a dict, which `for car in ...` walks key by key. */
  predicate CarsIsDict(data: map<string, Value>) {
    "cars" in data && data["cars"].Obj?
  }

  /**
   * Constructing a matcher from `data` does not raise a Python exception: iterating null, a number
   * or a boolean raises TypeError, and so does validating an entry that `ValidationRaises`.
   */
  predicate CarsLoadable(data: map<string, Value>) {
    "cars" !in data ||
    match data["cars"]
    case Arr(items) => forall i :: 0 <= i < |items| ==> !ValidationRaises(items[i])
    case Str(_) => true
    case Obj(fields) => forall k :: k in fields ==> !ValidationRaises(Str(k))
    case _ => false
  }

  /**
   * The entries `for car in self.cars` visits, when `cars` is missing (nothing), a list (its items)
   * or a string (its one-character strings).
   */
  function RawCars(data: map<string, Value>): (cars: seq<RawCar>)
    requires CarsLoadable(data) && !CarsIsDict(data)
    ensures "cars" !in data ==> cars == []
    ensures "cars" in data && data["cars"].Arr? ==> cars == data["cars"].items
    ensures "cars" in data && data["cars"].Str? ==> |cars| == |data["cars"].s|
    ensures forall i :: 0 <= i < |cars| ==> !ValidationRaises(cars[i])
  {
    if "cars" !in data then []
    else
      match data["cars"]
      case Arr(items) => items
      case Str(text) =>
        var chars := seq(|text|, i requires 0 <= i < |text| => Str([text[i]]));
        assert forall i :: 0 <= i < |chars| ==> !ValidationRaises(chars[i]) by {
          forall i | 0 <= i < |chars|
            ensures !ValidationRaises(chars[i])
          {
            ShortLacksSubstring([text[i]], "id");
          }
        }
        chars
  }

  /**
   * The valid cars, in catalog order: every valid entry is kept as often as it occurs, and
   * anything else (an incomplete object, a string, a list) is skipped.
   */
  function ValidateCarData(cars: seq<RawCar>): (valid: Catalog)
    requires forall i :: 0 <= i < |cars| ==> !ValidationRaises(cars[i])
    ensures Subseq(valid, cars)
    ensures multiset(valid) <= multiset(cars)
    ensures forall i :: 0 <= i < |cars| && ValidCar(cars[i]) ==> cars[i] in valid
    ensures forall i :: 0 <= i < |cars| && ValidCar(cars[i]) ==> multiset(valid)[cars[i]] == multiset(cars)[cars[i]]
    ensures forall i :: 0 <= i < |valid| ==> valid[i] in cars
  {
    Filter(ValidCar, cars)
  }

  /** Validation drops nothing from a list that is already valid, so applying it twice changes nothing. */
  lemma ValidateCarDataIdempotent(cars: seq<RawCar>)
    requires forall i :: 0 <= i < |cars| ==> !ValidationRaises(cars[i])
    ensures ValidateCarData(ValidateCarData(cars)) == ValidateCarData(cars)
  {
    FilterAll(ValidCar, ValidateCarData(cars));
  }

  /**
   * The constructor: the validated catalog, or the error raised when no car is valid. A dict
   * `cars` is walked by its keys, which are strings and never valid cars.
   */
  function NewMatcher(data: map<string, Value>): (r: Result<Catalog>)
    requires CarsLoadable(data)
    ensures CarsIsDict(data) ==> r == Err(NoValidCars)
    ensures !CarsIsDict(data) ==> (r.Err? <==> forall i :: 0 <= i < |RawCars(data)| ==> !ValidCar(RawCars(data)[i]))
    ensures r.Err? ==> r.message == NoValidCars
    ensures r.Ok? ==> !CarsIsDict(data) && |r.value| > 0 && Subseq(r.value, RawCars(data))
    ensures r.Ok? ==> forall i :: 0 <= i < |RawCars(data)| && ValidCar(RawCars(data)[i]) ==>
                        multiset(r.value)[RawCars(data)[i]] == multiset(RawCars(data))[RawCars(data)[i]]
  {
    if CarsIsDict(data) then Err(NoValidCars)
    else
      var valid := ValidateCarData(RawCars(data));
      if |valid| == 0 then Err(NoValidCars) else Ok(valid)
  }

  /** A string `cars` is walked character by character; no character is a car, so construction fails. */
  lemma TextCarsRejected(data: map<string, Value>)
    requires "cars" in data && data["cars"].Str?
    ensures CarsLoadable(data)
    ensures NewMatcher(data) == Err(NoValidCars)
  {
  }

  /** The numbers of a valid car's vector. */
  function VectorOf(c: RawCar): (v: seq<real>)
    requires ValidCar(c)
    ensures |v| == Count
  {
    DecodeVector(c.fields["vector"])
  }

  // ------------------------------------------------------------------ score

  /**
   * `(1 - distance / max_distance) * 100` clamped to [0, 100], where `max_distance` is the square
   * root of 80 whatever the vectors' length; 0 when the lengths differ.
   */
  function CalculateMatchScore(sqrt: real -> real, userVector: seq<real>, carVector: seq<real>): (r: real)
    requires IsSqrt(sqrt)
    ensures 0.0 <= r <= 100.0
    ensures |userVector| != |carVector| ==> r == 0.0
    ensures |userVector| == |carVector| ==> (r == 100.0 <==> userVector == carVector)
    ensures |userVector| == |carVector| ==> (r == 0.0 <==> SumSq(userVector, carVector) >= MaxDistanceSquared)
  {
    if |userVector| != |carVector| then 0.0
    else
      var sumSq := SumSq(userVector, carVector);
      var distance := sqrt(sumSq);
      var maxDistance := sqrt(MaxDistanceSquared);
      MatchScoreFacts(sqrt, sumSq);
      SumSqZeroIff(userVector, carVector);
      Clamp(0.0, 100.0, (1.0 - distance / maxDistance) * 100.0)
  }

  /** How the unclamped similarity sits relative to 0 and 100, depending on the squared distance. */
  lemma MatchScoreFacts(sqrt: real -> real, sumSq: real)
    requires IsSqrt(sqrt)
    requires sumSq >= 0.0
    ensures sqrt(MaxDistanceSquared) > 0.0
    ensures var s := (1.0 - sqrt(sumSq) / sqrt(MaxDistanceSquared)) * 100.0;
            && s <= 100.0
            && (s == 100.0 <==> sumSq == 0.0)
            && (s <= 0.0 <==> sumSq >= MaxDistanceSquared)
  {
    var m := sqrt(MaxDistanceSquared);
    var d := sqrt(sumSq);
    SqrtPositive(sqrt, MaxDistanceSquared);
    SqrtZero(sqrt);
    if sumSq > 0.0 {
      SqrtPositive(sqrt, sumSq);
    }
    if sumSq < MaxDistanceSquared {
      SqrtStrict(sqrt, sumSq, MaxDistanceSquared);
    } else {
      SqrtMonotone(sqrt, MaxDistanceSquared, sumSq);
    }
    DivBelowOne(d, m);
  }

  /** The score does not depend on which vector is the user's. */
  lemma MatchScoreSymmetric(sqrt: real -> real, u: seq<real>, c: seq<real>)
    requires IsSqrt(sqrt)
    ensures CalculateMatchScore(sqrt, u, c) == CalculateMatchScore(sqrt, c, u)
  {
    if |u| == |c| {
      SumSqSymmetric(u, c);
    }
  }

  /** A car at least as close to the user scores at least as high. */
  lemma CloserScoresHigher(sqrt: real -> real, u: seq<real>, near: seq<real>, far: seq<real>)
    requires IsSqrt(sqrt)
    requires |u| == |near| == |far|
    requires SumSq(u, near) <= SumSq(u, far)
    ensures CalculateMatchScore(sqrt, u, near) >= CalculateMatchScore(sqrt, u, far)
  {
    var m := sqrt(MaxDistanceSquared);
    SqrtPositive(sqrt, MaxDistanceSquared);
    SqrtMonotone(sqrt, SumSq(u, near), SumSq(u, far));
    DivMonotone(sqrt(SumSq(u, near)), sqrt(SumSq(u, far)), m);
    var sNear := (1.0 - sqrt(SumSq(u, near)) / m) * 100.0;
    var sFar := (1.0 - sqrt(SumSq(u, far)) / m) * 100.0;
    ClampMonotone(0.0, 100.0, sFar, sNear);
  }

  /** The two opposite corners of the 1..5 cube are the theoretical maximum distance apart: score 0. */
  lemma OppositeCornersScoreZero(sqrt: real -> real)
    requires IsSqrt(sqrt)
    ensures CalculateMatchScore(sqrt, Repeat(1.0, Count), Repeat(5.0, Count)) == 0.0
  {
    SumSqRepeat(1.0, 5.0, Count);
    assert Square(1.0 - 5.0) == Square(4.0);
  }

  // ----------------------------------------------------------- best matches

  /** `e` is `car` scored against `reference`, with the normalised score being the percentage over 100. */
  predicate ScoredAgainst(sqrt: real -> real, reference: seq<real>, e: Scored<RawCar>)
    requires IsSqrt(sqrt)
  {
    && ValidCar(e.item)
    && e.percentage == CalculateMatchScore(sqrt, reference, VectorOf(e.item))
    && e.score == e.percentage / 100.0
  }

  /** Every car of the catalog with its score against `reference`, in catalog order. */
  function ScoreCars(sqrt: real -> real, reference: seq<real>, cars: Catalog): (r: seq<Scored<RawCar>>)
    requires IsSqrt(sqrt)
    ensures |r| == |cars|
    ensures forall i :: 0 <= i < |r| ==> r[i].item == cars[i] && ScoredAgainst(sqrt, reference, r[i])
  {
    seq(|cars|, i requires 0 <= i < |cars| =>
      var p := CalculateMatchScore(sqrt, reference, VectorOf(cars[i]));
      Scored(cars[i], p, p / 100.0))
  }

  /**
   * The `top_n` best-scoring cars for the user, best first: catalog cars scored against the user,
   * sorted by score, and no car left out scores higher than one returned.
   */
  function FindBestMatches(sqrt: real -> real, cars: Catalog, userVector: seq<real>, topN: int): (r: seq<Scored<RawCar>>)
    requires IsSqrt(sqrt)
    ensures |r| == SliceLength(|cars|, topN)
    ensures SortedDesc(r)
    ensures forall i :: 0 <= i < |r| ==> r[i].item in cars && ScoredAgainst(sqrt, userVector, r[i])
    ensures forall i :: 0 <= i < |r| ==> 0.0 <= r[i].percentage <= 100.0
    ensures multiset(r) <= multiset(ScoreCars(sqrt, userVector, cars))
    ensures forall i, e :: 0 <= i < |r| && e in multiset(ScoreCars(sqrt, userVector, cars)) - multiset(r) ==>
              r[i].score >= e.score
  {
    if |cars| == 0 then []
    else
      var scored := ScoreCars(sqrt, userVector, cars);
      var r := TopN(scored, topN);
      TopNFromScored(sqrt, userVector, cars, scored, r);
      r
  }

  /** Entries drawn from the scored catalog are scored catalog cars. */
  lemma TopNFromScored(sqrt: real -> real, reference: seq<real>, cars: Catalog, scored: seq<Scored<RawCar>>, r: seq<Scored<RawCar>>)
    requires IsSqrt(sqrt)
    requires scored == ScoreCars(sqrt, reference, cars)
    requires multiset(r) <= multiset(scored)
    ensures forall i :: 0 <= i < |r| ==> r[i].item in cars && ScoredAgainst(sqrt, reference, r[i])
  {
    forall i | 0 <= i < |r|
      ensures r[i].item in cars && ScoredAgainst(sqrt, reference, r[i])
    {
      assert r[i] in multiset(r);
      assert r[i] in scored;
      var j :| 0 <= j < |scored| && scored[j] == r[i];
    }
  }

  /** Cars with equal scores come out in catalog order: the result is a prefix of a stable sort. */
  lemma FindBestMatchesKeepsTies(sqrt: real -> real, cars: Catalog, userVector: seq<real>, topN: int, k: real)
    requires IsSqrt(sqrt)
    ensures FindBestMatches(sqrt, cars, userVector, topN) <= SortDesc(ScoreCars(sqrt, userVector, cars))
    ensures WithScore(k, SortDesc(ScoreCars(sqrt, userVector, cars))) == WithScore(k, ScoreCars(sqrt, userVector, cars))
  {
    TopNIsStablePrefix(ScoreCars(sqrt, userVector, cars), topN, k);
  }

  // ------------------------------------------------------------ car lookup

  /** `car.get('id') == car_id`. */
  predicate HasId(c: RawCar, id: string) {
    c.Obj? && "id" in c.fields && c.fields["id"] == Str(id)
  }

  /** The first car whose id is `id`, or None. */
  function GetCarById(cars: seq<RawCar>, id: string): (r: Option<RawCar>)
    ensures r.None? <==> forall i :: 0 <= i < |cars| ==> !HasId(cars[i], id)
    ensures r.Some? ==> exists i :: && 0 <= i < |cars| && cars[i] == r.value && HasId(cars[i], id)
                                    && forall j :: 0 <= j < i ==> !HasId(cars[j], id)
  {
    if |cars| == 0 then None
    else if HasId(cars[0], id) then Some(cars[0])
    else
      var r := GetCarById(cars[1..], id);
      assert forall i :: 1 <= i < |cars| ==> cars[i] == cars[1..][i - 1];
      r
  }

  // -------------------------------------------------------------- filtering

  /** Python truthiness of an optional string: present and not empty. */
  predicate Given(o: Option<string>) {
    o.Some? && o.value != ""
  }

  /** `car.get('type', '')`, as a string. */
  function TypeOf(c: RawCar): string {
    if c.Obj? && "type" in c.fields && c.fields["type"].Str? then c.fields["type"].s else ""
  }

  /** `car.get('price_range', '')`. */
  function PriceOf(c: RawCar): Value {
    if c.Obj? && "price_range" in c.fields then c.fields["price_range"] else Str("")
  }

  /** With a type filter `filter_cars_by_criteria` calls `.lower()` on every car's type, which must be a string. */
  predicate TypesAreStrings(cars: seq<RawCar>, carType: Option<string>) {
    Given(carType) ==> forall i :: 0 <= i < |cars| && cars[i].Obj? && "type" in cars[i].fields ==> cars[i].fields["type"].Str?
  }

  /** A car passes the type filter (compared case-insensitively) and the price filter (compared exactly). */
  predicate MeetsCriteria(c: RawCar, carType: Option<string>, priceRange: Option<string>) {
    && (Given(carType) ==> EqualsIgnoringCase(TypeOf(c), carType.value))
    && (Given(priceRange) ==> PriceOf(c) == Str(priceRange.value))
  }

  /** The cars meeting the criteria, in catalog order; `minMatch` is accepted and has no effect. */
  function FilterCarsByCriteria(cars: Catalog, minMatch: real, carType: Option<string>, priceRange: Option<string>): (r: seq<RawCar>)
    requires TypesAreStrings(cars, carType)
    ensures Subseq(r, cars)
    ensures forall i :: 0 <= i < |r| ==> r[i] in cars && MeetsCriteria(r[i], carType, priceRange)
    ensures forall i :: 0 <= i < |cars| && MeetsCriteria(cars[i], carType, priceRange) ==> cars[i] in r
    ensures multiset(r) <= multiset(cars)
    ensures forall i :: 0 <= i < |cars| && MeetsCriteria(cars[i], carType, priceRange) ==>
              multiset(r)[cars[i]] == multiset(cars)[cars[i]]
  {
    Filter(c => MeetsCriteria(c, carType, priceRange), cars)
  }

  /** The minimum-match argument never changes the result. */
  lemma MinMatchIgnored(cars: Catalog, m1: real, m2: real, carType: Option<string>, priceRange: Option<string>)
    requires TypesAreStrings(cars, carType)
    ensures FilterCarsByCriteria(cars, m1, carType, priceRange) == FilterCarsByCriteria(cars, m2, carType, priceRange)
  {
  }

  /** Without a type or a price range every car is returned, in catalog order. */
  lemma NoCriteriaKeepsAll(cars: Catalog, minMatch: real, carType: Option<string>, priceRange: Option<string>)
    requires !Given(carType) && !Given(priceRange)
    ensures FilterCarsByCriteria(cars, minMatch, carType, priceRange) == cars
  {
    FilterAll(c => MeetsCriteria(c, carType, priceRange), cars);
  }

  /** The type filter ignores case: asking for a type or its lower-case form gives the same cars. */
  lemma TypeFilterIgnoresCase(cars: Catalog, minMatch: real, carType: string, priceRange: Option<string>)
    requires TypesAreStrings(cars, Some(carType))
    ensures TypesAreStrings(cars, Some(Lower(carType)))
    ensures FilterCarsByCriteria(cars, minMatch, Some(carType), priceRange)
         == FilterCarsByCriteria(cars, minMatch, Some(Lower(carType)), priceRange)
  {
    LowerIdempotent(carType);
    forall i | 0 <= i < |cars|
      ensures MeetsCriteria(cars[i], Some(carType), priceRange) == MeetsCriteria(cars[i], Some(Lower(carType)), priceRange)
    {
      LowerKeepsCriteria(cars[i], carType, priceRange);
    }
    FilterSame(c => MeetsCriteria(c, Some(carType), priceRange), c => MeetsCriteria(c, Some(Lower(carType)), priceRange), cars);
  }

  lemma LowerKeepsCriteria(c: RawCar, carType: string, priceRange: Option<string>)
    ensures MeetsCriteria(c, Some(carType), priceRange) == MeetsCriteria(c, Some(Lower(carType)), priceRange)
  {
    LowerIdempotent(carType);
    assert Given(Some(carType)) == Given(Some(Lower(carType))) by {
      assert |Lower(carType)| == |carType|;
    }
  }

  /** Filtering by type and price at once is filtering by type, then by price. */
  lemma CriteriaCompose(cars: Catalog, minMatch: real, carType: Option<string>, priceRange: Option<string>)
    requires TypesAreStrings(cars, carType)
    ensures var byType := FilterCarsByCriteria(cars, minMatch, carType, None);
            FilterCarsByCriteria(byType, minMatch, None, priceRange) == FilterCarsByCriteria(cars, minMatch, carType, priceRange)
  {
    FilterBoth(c => MeetsCriteria(c, carType, None), c => MeetsCriteria(c, None, priceRange),
               c => MeetsCriteria(c, carType, priceRange), cars);
  }

  // ------------------------------------------------------------- statistics

  /** The summary of the catalog; an empty catalog reports only its size. */
  datatype Statistics =
    | TotalOnly(totalCars: nat)
    | Summary(totalCars: nat, types: seq<Entry>, brands: seq<Entry>, priceRanges: seq<Entry>,
              averageVector: seq<real>, dimensions: seq<string>)

  const Unknown: Value := Str("Unknown")

  /** `car.get(name, 'Unknown')`. */
  function FieldOr(c: RawCar, name: string): Value {
    if c.Obj? && name in c.fields then c.fields[name] else Unknown
  }

  /** The values one field takes over the catalog, in catalog order. */
  function Column(cars: seq<RawCar>, name: string): (col: seq<Value>)
    ensures |col| == |cars|
    ensures forall i :: 0 <= i < |cars| ==> col[i] == FieldOr(cars[i], name)
  {
    seq(|cars|, i requires 0 <= i < |cars| => FieldOr(cars[i], name))
  }

  /** The three counted fields hold values Python can use as dictionary keys. */
  predicate KeysHashable(cars: seq<RawCar>) {
    forall i :: 0 <= i < |cars| ==>
      Hashable(FieldOr(cars[i], "type")) && Hashable(FieldOr(cars[i], "brand")) && Hashable(FieldOr(cars[i], "price_range"))
  }

  /** The sum of dimension `d` over the first `k` vectors of the catalog. */
  function ColumnSum(cars: Catalog, d: nat, k: nat): real
    requires d < Count && k <= |cars|
  {
    if k == 0 then 0.0 else ColumnSum(cars, d, k - 1) + VectorOf(cars[k - 1])[d]
  }

  /** The mean vector, dimension by dimension. */
  function AverageVector(cars: Catalog): (avg: seq<real>)
    requires |cars| > 0
    ensures |avg| == Count
    ensures forall d :: 0 <= d < Count ==> avg[d] * (|cars| as real) == ColumnSum(cars, d, |cars|)
  {
    seq(Count, d requires 0 <= d < Count => ColumnSum(cars, d, |cars|) / (|cars| as real))
  }

  function GetStatistics(cars: Catalog): (r: Statistics)
    requires KeysHashable(cars)
    ensures r.totalCars == |cars|
    ensures r.TotalOnly? <==> |cars| == 0
    ensures r.Summary? ==> && Total(r.types) == |cars| && Total(r.brands) == |cars| && Total(r.priceRanges) == |cars|
    ensures r.Summary? ==> DistinctKeys(r.types) && DistinctKeys(r.brands) && DistinctKeys(r.priceRanges)
    ensures r.Summary? ==> forall j :: 0 <= j < |r.types| ==> r.types[j].key in Column(cars, "type") && r.types[j].count > 0
    ensures r.Summary? ==> forall j :: 0 <= j < |r.brands| ==> r.brands[j].key in Column(cars, "brand") && r.brands[j].count > 0
    ensures r.Summary? ==>
              forall j :: 0 <= j < |r.priceRanges| ==> r.priceRanges[j].key in Column(cars, "price_range") && r.priceRanges[j].count > 0
    ensures r.Summary? ==> |r.averageVector| == Count && r.averageVector == AverageVector(cars) && r.dimensions == Names
  {
    if |cars| == 0 then TotalOnly(0)
    else
      CountsPositive(Column(cars, "type"));
      CountsPositive(Column(cars, "brand"));
      CountsPositive(Column(cars, "price_range"));
      Summary(|cars|, Counts(Column(cars, "type")), Counts(Column(cars, "brand")), Counts(Column(cars, "price_range")),
              AverageVector(cars), Names)
  }

  /** Each distribution maps a value to the number of cars holding it (`Unknown` for a missing field). */
  lemma DistributionsCountCars(cars: Catalog, k: Value)
    requires KeysHashable(cars)
    requires |cars| > 0
    ensures var r := GetStatistics(cars);
            && Lookup(r.types, k) == Occurrences(Column(cars, "type"), k)
            && Lookup(r.brands, k) == Occurrences(Column(cars, "brand"), k)
            && Lookup(r.priceRanges, k) == Occurrences(Column(cars, "price_range"), k)
  {
    CountIsOccurrences(Column(cars, "type"), k);
    CountIsOccurrences(Column(cars, "brand"), k);
    CountIsOccurrences(Column(cars, "price_range"), k);
  }

  lemma {:induction false} ColumnSumBounds(cars: Catalog, d: nat, k: nat, lo: real, hi: real)
    requires d < Count && k <= |cars|
    requires forall i :: 0 <= i < k ==> lo <= VectorOf(cars[i])[d] <= hi
    ensures (k as real) * lo <= ColumnSum(cars, d, k) <= (k as real) * hi
  {
    if k > 0 {
      ColumnSumBounds(cars, d, k - 1, lo, hi);
      SumStepBounds((k - 1) as real, k as real, ColumnSum(cars, d, k - 1), VectorOf(cars[k - 1])[d], lo, hi);
    }
  }

  /** When every car's vector lies in [lo, hi], so does the average vector. */
  lemma AverageVectorBounds(cars: Catalog, lo: real, hi: real)
    requires |cars| > 0
    requires forall i, d :: 0 <= i < |cars| && 0 <= d < Count ==> lo <= VectorOf(cars[i])[d] <= hi
    ensures forall d :: 0 <= d < Count ==> lo <= AverageVector(cars)[d] <= hi
  {
    forall d | 0 <= d < Count
      ensures lo <= AverageVector(cars)[d] <= hi
    {
      ColumnSumBounds(cars, d, |cars|, lo, hi);
      MeanBounds(ColumnSum(cars, d, |cars|), |cars| as real, lo, hi);
    }
  }

  /** The average of a one-car catalog is that car's vector. */
  lemma AverageOfOneCar(cars: Catalog)
    requires |cars| == 1
    ensures AverageVector(cars) == VectorOf(cars[0])
  {
    forall d | 0 <= d < Count
      ensures AverageVector(cars)[d] == VectorOf(cars[0])[d]
    {
      assert ColumnSum(cars, d, 1) == ColumnSum(cars, d, 0) + VectorOf(cars[0])[d];
    }
  }

  // ----------------------------------------------------------- similar cars

  /** The catalog without the cars whose id is `id`. */
  function Others(cars: Catalog, id: string): (others: Catalog)
    ensures Subseq(others, cars)
    ensures forall i :: 0 <= i < |others| ==> others[i] in cars && !HasId(others[i], id)
    ensures forall i :: 0 <= i < |cars| && !HasId(cars[i], id) ==> cars[i] in others
    ensures multiset(others) <= multiset(cars)
    ensures forall i :: 0 <= i < |cars| && !HasId(cars[i], id) ==> multiset(others)[cars[i]] == multiset(cars)[cars[i]]
  {
    Filter(c => !HasId(c, id), cars)
  }

  /** The car `get_car_by_id` finds for `referenceId`; a catalog car, hence valid. */
  function Reference(cars: Catalog, referenceId: string): (c: RawCar)
    requires GetCarById(cars, referenceId).Some?
    ensures ValidCar(c) && c in cars && HasId(c, referenceId)
  {
    GetCarById(cars, referenceId).value
  }

  /** Every car but the reference ones, scored against the reference car's vector, in catalog order. */
  function Candidates(sqrt: real -> real, cars: Catalog, referenceId: string): seq<Scored<RawCar>>
    requires IsSqrt(sqrt)
    requires GetCarById(cars, referenceId).Some?
  {
    ScoreCars(sqrt, VectorOf(Reference(cars, referenceId)), Others(cars, referenceId))
  }

  /**
   * Cars similar to the reference car, most similar first: every other car scored against the
   * reference car's vector, ranked exactly as `FindBestMatches` ranks cars for a user. Nothing for
   * an unknown id.
   */
  function RecommendSimilarCars(sqrt: real -> real, cars: Catalog, referenceId: string, topN: int): (r: seq<Scored<RawCar>>)
    requires IsSqrt(sqrt)
    ensures GetCarById(cars, referenceId).None? ==> r == []
    ensures forall i :: 0 <= i < |r| ==> r[i].item in cars && !HasId(r[i].item, referenceId)
    ensures SortedDesc(r)
    ensures topN >= 0 ==> |r| <= topN
    ensures GetCarById(cars, referenceId).Some? ==> |r| == SliceLength(|Others(cars, referenceId)|, topN)
    ensures GetCarById(cars, referenceId).Some? ==>
              forall i :: 0 <= i < |r| ==>
                ScoredAgainst(sqrt, VectorOf(Reference(cars, referenceId)), r[i]) && 0.0 <= r[i].percentage <= 100.0
    ensures GetCarById(cars, referenceId).Some? ==> multiset(r) <= multiset(Candidates(sqrt, cars, referenceId))
    ensures GetCarById(cars, referenceId).Some? ==>
              forall i, e :: 0 <= i < |r| && e in multiset(Candidates(sqrt, cars, referenceId)) - multiset(r) ==>
                r[i].score >= e.score
  {
    if GetCarById(cars, referenceId).None? then []
    else FindBestMatches(sqrt, Others(cars, referenceId), VectorOf(Reference(cars, referenceId)), topN)
  }

  /** Cars with equal similarity come out in catalog order: the result is a prefix of a stable sort. */
  lemma SimilarCarsKeepTies(sqrt: real -> real, cars: Catalog, referenceId: string, topN: int, k: real)
    requires IsSqrt(sqrt)
    requires GetCarById(cars, referenceId).Some?
    ensures RecommendSimilarCars(sqrt, cars, referenceId, topN) <= SortDesc(Candidates(sqrt, cars, referenceId))
    ensures WithScore(k, SortDesc(Candidates(sqrt, cars, referenceId))) == WithScore(k, Candidates(sqrt, cars, referenceId))
  {
    FindBestMatchesKeepsTies(sqrt, Others(cars, referenceId), VectorOf(Reference(cars, referenceId)), topN, k);
  }

  /** With a unique reference id, every other car is a candidate: the ranking covers all but one car. */
  lemma {:induction false} UniqueIdLeavesOthers(cars: Catalog, id: string, k: nat)
    requires k < |cars| && HasId(cars[k], id)
    requires forall j :: 0 <= j < |cars| && j != k ==> !HasId(cars[j], id)
    ensures |Others(cars, id)| == |cars| - 1
  {
    var rest: Catalog := cars[1..];
    if k == 0 {
      NoneHaveId(rest, id);
    } else {
      UniqueIdLeavesOthers(rest, id, k - 1);
    }
  }

  lemma {:induction false} NoneHaveId(cars: Catalog, id: string)
    requires forall j :: 0 <= j < |cars| ==> !HasId(cars[j], id)
    ensures |Others(cars, id)| == |cars|
  {
    if |cars| > 0 {
      var rest: Catalog := cars[1..];
      NoneHaveId(rest, id);
    }
  }
}
