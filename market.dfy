/** The market-analysis log (convex/market.ts): `saveAnalysis` appends a record stamped
    with the current time, and `getAnalysis` returns the newest record for a city and, when
    one is given, a property type. */
module Market {
  import opened Wrappers
  import opened Schema
  import opened Query
  import opened Sorting
  import opened Store

  /** The arguments of `saveAnalysis`: a record without its id and date. */
  datatype AnalysisArgs = AnalysisArgs(
    city: string,
    area: string,
    propertyType: string,
    averagePrice: Number,
    priceChange: Number,
    totalListings: Number,
    aiInsights: string)

  function Stamped(id: Id, args: AnalysisArgs, now: Number): MarketAnalysis
  {
    MarketAnalysis(id, args.city, args.area, args.propertyType, args.averagePrice,
                   args.priceChange, args.totalListings, now, args.aiInsights)
  }

  /** Appends one record; `now` stands for `Date.now()`. No caller is required. */
  method SaveAnalysis(db: Db, args: AnalysisArgs, now: Number) returns (id: Id)
    modifies db`marketAnalysis, db`nextId
    ensures id == old(db.nextId) && db.nextId == old(db.nextId) + 1
    ensures db.marketAnalysis == old(db.marketAnalysis) + [Stamped(id, args, now)]
    ensures db.marketAnalysis[|db.marketAnalysis| - 1].analysisDate == now
    ensures old(db.Valid()) ==> db.Valid()
  {
    id := db.NewId();
    db.marketAnalysis := db.marketAnalysis + [Stamped(id, args, now)];
  }

  /** A record is a candidate: its city is the one asked for, and so is its property type
      when a non-empty one is given. */
  predicate Candidate(a: MarketAnalysis, city: string, propertyType: Option<string>)
  {
    && a.city == city
    && (propertyType.Some? && propertyType.value != "" ==> a.propertyType == propertyType.value)
  }

  /** The comparator `(a, b) => b.analysisDate - a.analysisDate`. */
  function LatestFirst(a: MarketAnalysis, b: MarketAnalysis): real
  {
    b.analysisDate - a.analysisDate
  }

  lemma LatestFirstConsistent()
    ensures Consistent(LatestFirst)
  {
  }

  /** The `by_city` scan, then the property-type filter when `propertyType` is truthy. */
  function Candidates(log: seq<MarketAnalysis>, city: string, propertyType: Option<string>): (r: seq<MarketAnalysis>)
    ensures forall a :: a in r <==> a in log && Candidate(a, city, propertyType)
  {
    var analyses := Filter(log, (a: MarketAnalysis) => a.city == city);
    if propertyType.Some? && propertyType.value != "" then
      var t := propertyType.value;
      Filter(analyses, (a: MarketAnalysis) => a.propertyType == t)
    else analyses
  }

  /** The `getAnalysis` query: the first candidate after sorting latest first, or none. */
  function GetAnalysis(log: seq<MarketAnalysis>, city: string, propertyType: Option<string>): (r: Option<MarketAnalysis>)
    ensures r.None? <==> forall a :: a in log ==> !Candidate(a, city, propertyType)
    ensures r.Some? ==> r.value in log && Candidate(r.value, city, propertyType)
    ensures r.Some? ==> forall a :: a in log && Candidate(a, city, propertyType) ==>
      a.analysisDate <= r.value.analysisDate
  {
    var filtered := Candidates(log, city, propertyType);
    var sorted := Sort(filtered, LatestFirst);
    if |sorted| == 0 then
      assert filtered == [];
      None
    else
      NewestOfSorted(filtered, sorted);
      Some(sorted[0])
  }

  lemma NewestOfSorted(filtered: seq<MarketAnalysis>, sorted: seq<MarketAnalysis>)
    requires sorted == Sort(filtered, LatestFirst) && |sorted| > 0
    ensures sorted[0] in filtered
    ensures forall a :: a in filtered ==> a.analysisDate <= sorted[0].analysisDate
  {
    assert sorted[0] in multiset(filtered);
    LatestFirstConsistent();
    SortSorted(filtered, LatestFirst);
    forall a | a in filtered ensures a.analysisDate <= sorted[0].analysisDate {
      assert a in multiset(sorted);
      var k :| 0 <= k < |sorted| && sorted[k] == a;
      if k > 0 {
        assert LatestFirst(sorted[0], sorted[k]) <= 0.0;
      }
    }
  }

  /** Without a property type every record of the city is a candidate, whatever its
      property type ("All" included). */
  lemma AnyTypeWithoutFilter(log: seq<MarketAnalysis>, city: string, a: MarketAnalysis)
    requires a in log && a.city == city
    ensures GetAnalysis(log, city, None).Some?
    ensures GetAnalysis(log, city, None).value.analysisDate >= a.analysisDate
    ensures GetAnalysis(log, city, Some("")) == GetAnalysis(log, city, None)
  {
  }
}
