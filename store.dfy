/** The backing document store: one table per collection of convex/schema.ts that the
    handlers touch, each kept in insertion order, and the counter that hands out document
    ids. Each mutation handler runs to completion on its own, so a table is a plain
    sequence that the handler reads and reassigns. */
module Store {
  import opened Schema

  /** The uniqueness constraints that the handlers maintain by check-then-write. */
  ghost predicate OneFavoritePerPair(favs: seq<Favorite>)
  {
    forall i, j :: 0 <= i < j < |favs| ==>
      favs[i].userId != favs[j].userId || favs[i].propertyId != favs[j].propertyId
  }

  ghost predicate OneReviewPerPair(rs: seq<Review>)
  {
    forall i, j :: 0 <= i < j < |rs| ==>
      rs[i].userId != rs[j].userId || rs[i].propertyId != rs[j].propertyId
  }

  ghost predicate OnePreferencesPerUser(prefs: seq<Preferences>)
  {
    forall i, j :: 0 <= i < j < |prefs| ==> prefs[i].userId != prefs[j].userId
  }

  ghost predicate DistinctPropertyIds(ps: seq<Property>)
  {
    forall i, j :: 0 <= i < j < |ps| ==> ps[i].id != ps[j].id
  }

  /** Every search history holds ten terms at most. */
  ghost predicate HistoriesCapped(prefs: seq<Preferences>)
  {
    forall i :: 0 <= i < |prefs| ==> |prefs[i].searchHistory| <= 10
  }

  class Db {
    var properties: seq<Property>
    var reviews: seq<Review>
    var favorites: seq<Favorite>
    var userPreferences: seq<Preferences>
    var marketAnalysis: seq<MarketAnalysis>
    var nextId: Id

    /** Every id in use is below the counter, listing ids are distinct, the
        uniqueness constraints hold, and search histories are capped. */
    ghost predicate Valid()
      reads this
    {
      && (forall i :: 0 <= i < |properties| ==> properties[i].id < nextId)
      && (forall i :: 0 <= i < |reviews| ==> reviews[i].id < nextId)
      && (forall i :: 0 <= i < |favorites| ==> favorites[i].id < nextId)
      && (forall i :: 0 <= i < |userPreferences| ==> userPreferences[i].id < nextId)
      && (forall i :: 0 <= i < |marketAnalysis| ==> marketAnalysis[i].id < nextId)
      && DistinctPropertyIds(properties)
      && OneFavoritePerPair(favorites)
      && OneReviewPerPair(reviews)
      && OnePreferencesPerUser(userPreferences)
      && HistoriesCapped(userPreferences)
    }

    constructor ()
      ensures Valid()
      ensures properties == [] && reviews == [] && favorites == []
      ensures userPreferences == [] && marketAnalysis == [] && nextId == 0
    {
      properties, reviews, favorites := [], [], [];
      userPreferences, marketAnalysis := [], [];
      nextId := 0;
    }

    /** The id of the document an `insert` creates. */
    method NewId() returns (id: Id)
      modifies this`nextId
      ensures id == old(nextId) && nextId == old(nextId) + 1
    {
      id := nextId;
      nextId := nextId + 1;
    }
  }
}
