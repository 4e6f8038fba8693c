/** User preferences (convex/users.ts): one record per user, upserted by
    `updatePreferences` and `addSearchHistory`, which keeps a bounded, newest-first list of
    search terms. */
module Users {
  import opened Wrappers
  import opened Schema
  import opened Query
  import opened Store

  const MustLogIn := "Must be logged in"
  /** How many search terms a record keeps. */
  const HistoryLimit := 10
  const DefaultPriceRange := PriceRange(0.0, 1000000.0)

  /** The `by_user` lookup followed by `.unique()`. */
  function PreferencesIndex(prefs: seq<Preferences>, user: UserId): Result<Option<nat>>
  {
    UniqueIndex(prefs, (p: Preferences) => p.userId == user)
  }

  /** The `getPreferences` query: the user's record, or none; it fails only when the
      table holds two records for the user, which the mutations below never create. */
  function GetPreferences(prefs: seq<Preferences>, user: UserId): (r: Result<Option<Preferences>>)
    ensures r.Ok? && r.value.Some? ==> r.value.value in prefs && r.value.value.userId == user
    ensures r == Ok(None) <==> forall i :: 0 <= i < |prefs| ==> prefs[i].userId != user
    ensures r.Err? <==> exists i, j :: 0 <= i < j < |prefs| && prefs[i].userId == user && prefs[j].userId == user
    ensures OnePreferencesPerUser(prefs) ==> r.Ok?
  {
    match PreferencesIndex(prefs, user)
    case Err(e) => Err(e)
    case Ok(None) => Ok(None)
    case Ok(Some(i)) => Ok(Some(prefs[i]))
  }

  /** The arguments of `updatePreferences`; `preferredType` may be left out. */
  datatype PreferenceArgs = PreferenceArgs(
    preferredType: Option<OfferType>,
    preferredPropertyTypes: seq<string>,
    preferredCities: seq<string>,
    priceRange: PriceRange,
    preferredFeatures: seq<string>)

  /** The patch `updatePreferences` applies to an existing record. A `preferredType` left
      out of the arguments is not a key of the patch, so the stored one stays. */
  function Patched(old_: Preferences, args: PreferenceArgs): (p: Preferences)
    ensures p.id == old_.id && p.userId == old_.userId
    ensures p.searchHistory == old_.searchHistory
    ensures p.preferredType == if args.preferredType.Some? then args.preferredType else old_.preferredType
    ensures p.preferredPropertyTypes == args.preferredPropertyTypes && p.preferredCities == args.preferredCities
    ensures p.priceRange == args.priceRange && p.preferredFeatures == args.preferredFeatures
  {
    old_.(
      preferredType := if args.preferredType.Some? then args.preferredType else old_.preferredType,
      preferredPropertyTypes := args.preferredPropertyTypes,
      preferredCities := args.preferredCities,
      priceRange := args.priceRange,
      preferredFeatures := args.preferredFeatures)
  }

  /** The record `updatePreferences` inserts when the user has none. */
  function Inserted(id: Id, user: UserId, args: PreferenceArgs): Preferences
  {
    Preferences(id, user, args.preferredType, args.preferredPropertyTypes, args.preferredCities,
                args.priceRange, args.preferredFeatures, [])
  }

  method UpdatePreferences(db: Db, caller: Option<UserId>, args: PreferenceArgs) returns (r: Result<()>)
    modifies db`userPreferences, db`nextId
    ensures caller.None? ==>
      && r == Err(MustLogIn)
      && db.userPreferences == old(db.userPreferences) && db.nextId == old(db.nextId)
    ensures caller.Some? ==>
      match PreferencesIndex(old(db.userPreferences), caller.value)
      case Err(e) =>
        r == Err(e) && db.userPreferences == old(db.userPreferences) && db.nextId == old(db.nextId)
      case Ok(Some(i)) =>
        && r == Ok(())
        && db.userPreferences == old(db.userPreferences)[i := Patched(old(db.userPreferences)[i], args)]
        && db.nextId == old(db.nextId)
      case Ok(None) =>
        && r == Ok(())
        && db.userPreferences == old(db.userPreferences) + [Inserted(old(db.nextId), caller.value, args)]
        && db.nextId == old(db.nextId) + 1
    ensures old(db.Valid()) ==> db.Valid()
  {
    if caller.None? {
      return Err(MustLogIn);
    }
    var user := caller.value;
    match PreferencesIndex(db.userPreferences, user)
    case Err(e) =>
      r := Err(e);
    case Ok(Some(i)) =>
      db.userPreferences := db.userPreferences[i := Patched(db.userPreferences[i], args)];
      r := Ok(());
    case Ok(None) =>
      var id := db.NewId();
      db.userPreferences := db.userPreferences + [Inserted(id, user, args)];
      r := Ok(());
  }

  // ---------------------------------------------------------------------------
  // addSearchHistory

  function Min(a: int, b: int): int { if a < b then a else b }

  /** `[term, ...history].slice(0, 10)`: the new term in front of the most recent old ones,
      ten at most. */
  function PrependHistory(term: string, history: seq<string>): (r: seq<string>)
    ensures |r| == Min(HistoryLimit, |history| + 1)
    ensures r[0] == term
    ensures r[1..] == history[..|r| - 1]
  {
    ([term] + history)[..Min(HistoryLimit, |history| + 1)]
  }

  /** The same term searched twice stands twice at the front: no deduplication. */
  lemma NoDeduplication(term: string, history: seq<string>)
    ensures PrependHistory(term, PrependHistory(term, history))[..2] == [term, term]
  {
    var once := PrependHistory(term, history);
    var twice := PrependHistory(term, once);
    assert twice[1] == once[0];
  }

  function Reverse(s: seq<string>): (r: seq<string>)
    ensures |r| == |s|
  {
    if s == [] then [] else Reverse(s[1..]) + [s[0]]
  }

  /** The history after searching `terms` one after the other. */
  function SearchAll(history: seq<string>, terms: seq<string>): seq<string>
    decreases |terms|
  {
    if terms == [] then history
    else SearchAll(PrependHistory(terms[0], history), terms[1..])
  }

  /** After any run of searches the history holds the latest terms, newest first, then
      the old history, cut to ten. */
  lemma {:induction false} SearchAllKeepsNewest(history: seq<string>, terms: seq<string>)
    requires terms != [] || |history| <= HistoryLimit
    ensures SearchAll(history, terms) == (Reverse(terms) + history)[..Min(HistoryLimit, |terms| + |history|)]
    decreases |terms|
  {
    if terms == [] {
      assert Reverse(terms) + history == history;
      return;
    }
    var h1 := PrependHistory(terms[0], history);
    if |terms| == 1 {
      assert Reverse(terms) == [terms[0]];
    } else {
      var rest := terms[1..];
      SearchAllKeepsNewest(h1, rest);
      assert Reverse(terms) == Reverse(rest) + [terms[0]];
      var n := Min(HistoryLimit, |rest| + |h1|);
      var m := Min(HistoryLimit, |terms| + |history|);
      assert n == m;
      var a := Reverse(rest) + h1;
      var b := Reverse(terms) + history;
      assert |a| >= n && |b| >= m;
      forall k | 0 <= k < n ensures a[k] == b[k] {
        if k >= |rest| {
          var j := k - |rest|;
          if j > 0 {
            assert h1[j] == history[j - 1];
          }
        }
      }
    }
  }

  /** The record `addSearchHistory` inserts for a user without one. */
  function FirstSearch(id: Id, user: UserId, term: string): (p: Preferences)
    ensures p.searchHistory == [term] && p.priceRange == DefaultPriceRange
    ensures p.preferredType == None && p.preferredPropertyTypes == [] && p.preferredCities == []
    ensures p.preferredFeatures == [] && p.userId == user
  {
    Preferences(id, user, None, [], [], DefaultPriceRange, [], [term])
  }

  method AddSearchHistory(db: Db, caller: Option<UserId>, term: string) returns (r: Result<()>)
    modifies db`userPreferences, db`nextId
    ensures caller.None? ==>
      r == Ok(()) && db.userPreferences == old(db.userPreferences) && db.nextId == old(db.nextId)
    ensures caller.Some? ==>
      match PreferencesIndex(old(db.userPreferences), caller.value)
      case Err(e) =>
        r == Err(e) && db.userPreferences == old(db.userPreferences) && db.nextId == old(db.nextId)
      case Ok(Some(i)) =>
        && r == Ok(())
        && db.userPreferences == old(db.userPreferences)[i := old(db.userPreferences)[i].(
             searchHistory := PrependHistory(term, old(db.userPreferences)[i].searchHistory))]
        && db.nextId == old(db.nextId)
      case Ok(None) =>
        && r == Ok(())
        && db.userPreferences == old(db.userPreferences) + [FirstSearch(old(db.nextId), caller.value, term)]
        && db.nextId == old(db.nextId) + 1
    ensures old(db.Valid()) ==> db.Valid()
  {
    if caller.None? {
      return Ok(());
    }
    var user := caller.value;
    match PreferencesIndex(db.userPreferences, user)
    case Err(e) =>
      r := Err(e);
    case Ok(Some(i)) =>
      var p := db.userPreferences[i];
      db.userPreferences := db.userPreferences[i := p.(searchHistory := PrependHistory(term, p.searchHistory))];
      r := Ok(());
    case Ok(None) =>
      var id := db.NewId();
      db.userPreferences := db.userPreferences + [FirstSearch(id, user, term)];
      r := Ok(());
  }
}
