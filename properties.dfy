/** The listing repository of convex/properties.ts: the `list` query pipeline, the
    `create`, `addToFavorites` and `incrementViews` mutations and the `getFavorites` join. */
module Properties {
  import opened Wrappers
  import opened Schema
  import opened Query
  import opened Sorting
  import opened Store
  import Text

  const MustLogInToCreate := "Must be logged in to create property"
  const MustLogIn := "Must be logged in"
  const DefaultLimit: Number := 20.0

  // ---------------------------------------------------------------------------
  // list

  /** The arguments of `list`; every one of them is optional. */
  datatype ListArgs = ListArgs(
    limit: Option<Number>,
    offerType: Option<OfferType>,
    propertyType: Option<string>,
    city: Option<string>,
    minPrice: Option<Number>,
    maxPrice: Option<Number>,
    featured: Option<bool>)

  /** A listing as the queries return it: the document and the URLs of its images
      (`null` where storage cannot resolve a reference). */
  datatype Listing = Listing(property: Property, imageUrls: seq<Option<Url>>)

  /** JavaScript truthiness of the optional arguments: an absent value, the empty string,
      `0` and `false` are falsy. */
  predicate TruthyString(o: Option<string>) { o.Some? && o.value != "" }
  predicate TruthyNumber(o: Option<Number>) { o.Some? && o.value != 0.0 }
  predicate TruthyBool(o: Option<bool>) { o == Some(true) }

  /** The city filter: a case-insensitive substring match. */
  predicate CityMatches(city: string, query: string)
  {
    Text.Includes(Text.Lower(city), Text.Lower(query))
  }

  /** The six filters of `list`; each holds trivially when its argument is falsy. */
  predicate OfferTypeOk(p: Property, args: ListArgs)
  {
    args.offerType.Some? ==> p.offerType == args.offerType.value
  }

  predicate PropertyTypeOk(p: Property, args: ListArgs)
  {
    TruthyString(args.propertyType) ==> PropertyTypeName(p.propertyType) == args.propertyType.value
  }

  predicate CityOk(p: Property, args: ListArgs)
  {
    TruthyString(args.city) ==> CityMatches(p.location.city, args.city.value)
  }

  predicate MinPriceOk(p: Property, args: ListArgs)
  {
    TruthyNumber(args.minPrice) ==> p.price >= args.minPrice.value
  }

  predicate MaxPriceOk(p: Property, args: ListArgs)
  {
    TruthyNumber(args.maxPrice) ==> p.price <= args.maxPrice.value
  }

  predicate FeaturedOk(p: Property, args: ListArgs)
  {
    TruthyBool(args.featured) ==> p.featured
  }

  /** What `list` promises of each listing it returns: every filter whose argument is
      truthy holds. */
  predicate MatchesFilters(p: Property, args: ListArgs)
  {
    && OfferTypeOk(p, args) && PropertyTypeOk(p, args) && CityOk(p, args)
    && MinPriceOk(p, args) && MaxPriceOk(p, args) && FeaturedOk(p, args)
  }

  /** The `by_status` index scan for "approved". */
  function ApprovedListings(ps: seq<Property>): (r: seq<Property>)
    ensures forall p :: p in r <==> p in ps && p.status == Approved
  {
    Filter(ps, (p: Property) => p.status == Approved)
  }

  /** A scan of a table with distinct ids has distinct ids. */
  lemma {:induction false} FilterKeepsIds(s: seq<Property>, keep: Property -> bool)
    ensures DistinctPropertyIds(s) ==> DistinctPropertyIds(Filter(s, keep))
  {
    if s != [] && DistinctPropertyIds(s) {
      var t := Filter(s[1..], keep);
      assert DistinctPropertyIds(s[1..]) by {
        forall i, j | 0 <= i < j < |s| - 1 ensures s[1..][i].id != s[1..][j].id {
          assert s[1..][i] == s[i + 1] && s[1..][j] == s[j + 1];
        }
      }
      FilterKeepsIds(s[1..], keep);
      forall k | 0 <= k < |t| ensures t[k].id != s[0].id {
        var m :| 0 <= m < |s[1..]| && s[1..][m] == t[k];
        assert s[m + 1] == t[k];
      }
      var r := Filter(s, keep);
      assert r == (if keep(s[0]) then [s[0]] else []) + t;
    }
  }

  /** Each stage of the chain keeps ids distinct. */
  lemma StagesKeepIds(s: seq<Property>, args: ListArgs)
    requires DistinctPropertyIds(s)
    ensures DistinctPropertyIds(ByOfferType(s, args)) && DistinctPropertyIds(ByPropertyType(s, args))
    ensures DistinctPropertyIds(ByCity(s, args)) && DistinctPropertyIds(ByMinPrice(s, args))
    ensures DistinctPropertyIds(ByMaxPrice(s, args)) && DistinctPropertyIds(ByFeatured(s, args))
  {
    if args.offerType.Some? {
      var t := args.offerType.value;
      FilterKeepsIds(s, (p: Property) => p.offerType == t);
    }
    if TruthyString(args.propertyType) {
      var t := args.propertyType.value;
      FilterKeepsIds(s, (p: Property) => PropertyTypeName(p.propertyType) == t);
    }
    if TruthyString(args.city) {
      var c := args.city.value;
      FilterKeepsIds(s, (p: Property) => CityMatches(p.location.city, c));
    }
    if TruthyNumber(args.minPrice) {
      var m := args.minPrice.value;
      FilterKeepsIds(s, (p: Property) => p.price >= m);
    }
    if TruthyNumber(args.maxPrice) {
      var m := args.maxPrice.value;
      FilterKeepsIds(s, (p: Property) => p.price <= m);
    }
    FilterKeepsIds(s, (p: Property) => p.featured);
  }

  /** The chain of filters of `list` keeps ids distinct. */
  lemma ApplyFiltersKeepsIds(ps: seq<Property>, args: ListArgs)
    ensures DistinctPropertyIds(ps) ==> DistinctPropertyIds(ApplyFilters(ApprovedListings(ps), args))
  {
    if DistinctPropertyIds(ps) {
      FilterKeepsIds(ps, (p: Property) => p.status == Approved);
      var s0 := ApprovedListings(ps);
      StagesKeepIds(s0, args);
      var s1 := ByOfferType(s0, args);
      StagesKeepIds(s1, args);
      var s2 := ByPropertyType(s1, args);
      StagesKeepIds(s2, args);
      var s3 := ByCity(s2, args);
      StagesKeepIds(s3, args);
      var s4 := ByMinPrice(s3, args);
      StagesKeepIds(s4, args);
      var s5 := ByMaxPrice(s4, args);
      StagesKeepIds(s5, args);
    }
  }

  /** The six stages of the filter chain; each one filters only when its argument is
      truthy. */
  function ByOfferType(s: seq<Property>, args: ListArgs): (r: seq<Property>)
    ensures forall p :: p in r <==> p in s && OfferTypeOk(p, args)
  {
    if args.offerType.Some? then
      var t := args.offerType.value; Filter(s, (p: Property) => p.offerType == t)
    else s
  }

  function ByPropertyType(s: seq<Property>, args: ListArgs): (r: seq<Property>)
    ensures forall p :: p in r <==> p in s && PropertyTypeOk(p, args)
  {
    if TruthyString(args.propertyType) then
      var t := args.propertyType.value; Filter(s, (p: Property) => PropertyTypeName(p.propertyType) == t)
    else s
  }

  function ByCity(s: seq<Property>, args: ListArgs): (r: seq<Property>)
    ensures forall p :: p in r <==> p in s && CityOk(p, args)
  {
    if TruthyString(args.city) then
      var c := args.city.value; Filter(s, (p: Property) => CityMatches(p.location.city, c))
    else s
  }

  function ByMinPrice(s: seq<Property>, args: ListArgs): (r: seq<Property>)
    ensures forall p :: p in r <==> p in s && MinPriceOk(p, args)
  {
    if TruthyNumber(args.minPrice) then
      var m := args.minPrice.value; Filter(s, (p: Property) => p.price >= m)
    else s
  }

  function ByMaxPrice(s: seq<Property>, args: ListArgs): (r: seq<Property>)
    ensures forall p :: p in r <==> p in s && MaxPriceOk(p, args)
  {
    if TruthyNumber(args.maxPrice) then
      var m := args.maxPrice.value; Filter(s, (p: Property) => p.price <= m)
    else s
  }

  function ByFeatured(s: seq<Property>, args: ListArgs): (r: seq<Property>)
    ensures forall p :: p in r <==> p in s && FeaturedOk(p, args)
  {
    if TruthyBool(args.featured) then Filter(s, (p: Property) => p.featured) else s
  }

  /** The chain of filters, in the order `list` applies them. */
  function ApplyFilters(ps: seq<Property>, args: ListArgs): (r: seq<Property>)
    ensures forall p :: p in r <==> p in ps && MatchesFilters(p, args)
  {
    ByFeatured(ByMaxPrice(ByMinPrice(ByCity(ByPropertyType(ByOfferType(ps, args), args), args), args), args), args)
  }

  /** Resolves every image reference of a listing. */
  function WithImageUrls(p: Property, urlOf: StorageId -> Option<Url>): Listing
  {
    Listing(p, seq(|p.images|, i requires 0 <= i < |p.images| => urlOf(p.images[i])))
  }

  function AllWithImageUrls(ps: seq<Property>, urlOf: StorageId -> Option<Url>): (r: seq<Listing>)
    ensures |r| == |ps|
    ensures forall i :: 0 <= i < |ps| ==> r[i] == WithImageUrls(ps[i], urlOf)
  {
    seq(|ps|, i requires 0 <= i < |ps| => WithImageUrls(ps[i], urlOf))
  }

  /** The comparator of `list`: featured listings first, then the newest first. */
  function ListingCmp(a: Listing, b: Listing): real
  {
    if a.property.featured && !b.property.featured then -1.0
    else if !a.property.featured && b.property.featured then 1.0
    else b.property.creationTime - a.property.creationTime
  }

  /** The order `list` promises between a listing and any listing after it. */
  predicate FeaturedThenNewest(a: Property, b: Property)
  {
    && (a.featured || !b.featured)
    && (a.featured == b.featured ==> a.creationTime >= b.creationTime)
  }

  lemma ListingCmpMeaning(a: Listing, b: Listing)
    ensures ListingCmp(a, b) <= 0.0 <==> FeaturedThenNewest(a.property, b.property)
  {
  }

  lemma ListingCmpConsistent()
    ensures Consistent(ListingCmp)
  {
  }

  /** `ToIntegerOrInfinity` of a finite number: truncation toward zero. */
  function Truncate(x: real): int
  {
    if x >= 0.0 then x.Floor else -((-x).Floor)
  }

  /** The end position `slice(0, end)` stops at in a sequence of length `n`: a negative
      end counts from the back. */
  function SliceEnd(n: nat, end: int): (k: nat)
    ensures k <= n
    ensures 0 <= end ==> k == if end < n then end else n
    ensures end < 0 ==> k == if n + end < 0 then 0 else n + end
  {
    if end < 0 then (if n + end < 0 then 0 else n + end)
    else if end < n then end
    else n
  }

  /** `args.limit || 20`. */
  function EffectiveLimit(limit: Option<Number>): (l: Number)
    ensures !TruthyNumber(limit) ==> l == DefaultLimit
    ensures TruthyNumber(limit) ==> l == limit.value
  {
    if TruthyNumber(limit) then limit.value else DefaultLimit
  }

  /** The `list` query. */
  function List(ps: seq<Property>, args: ListArgs, urlOf: StorageId -> Option<Url>): (r: seq<Listing>)
    ensures forall i :: 0 <= i < |r| ==>
      && r[i].property in ps
      && r[i].property.status == Approved
      && MatchesFilters(r[i].property, args)
    ensures forall i, j :: 0 <= i < j < |r| ==> FeaturedThenNewest(r[i].property, r[j].property)
    ensures !TruthyNumber(args.limit) ==> |r| <= 20
    ensures TruthyNumber(args.limit) && args.limit.value > 0.0 ==> |r| as real <= args.limit.value
    ensures forall i :: 0 <= i < |r| ==> r[i] == WithImageUrls(r[i].property, urlOf)
    ensures DistinctPropertyIds(ps) ==> forall i, j :: 0 <= i < j < |r| ==> r[i].property.id != r[j].property.id
  {
    var matching := ApplyFilters(ApprovedListings(ps), args);
    var enriched := AllWithImageUrls(matching, urlOf);
    var sorted := Sort(enriched, ListingCmp);
    var end := SliceEnd(|sorted|, Truncate(EffectiveLimit(args.limit)));
    var r := sorted[..end];
    ListSound(ps, args, urlOf, matching, enriched, sorted, end, r);
    ListOrdered(args, enriched, sorted, end, r);
    ListDistinct(ps, args, urlOf, matching, enriched, sorted, end, r);
    r
  }

  /** Every listing of the slice is a matching approved document with its image URLs. */
  lemma ListSound(ps: seq<Property>, args: ListArgs, urlOf: StorageId -> Option<Url>,
                  matching: seq<Property>, enriched: seq<Listing>, sorted: seq<Listing>, end: nat,
                  r: seq<Listing>)
    requires matching == ApplyFilters(ApprovedListings(ps), args)
    requires enriched == AllWithImageUrls(matching, urlOf)
    requires sorted == Sort(enriched, ListingCmp)
    requires end <= |sorted| && r == sorted[..end]
    ensures forall i :: 0 <= i < |r| ==>
      && r[i].property in ps
      && r[i].property.status == Approved
      && MatchesFilters(r[i].property, args)
      && r[i] == WithImageUrls(r[i].property, urlOf)
  {
    SortedMembers(matching, enriched, sorted, urlOf);
    assert forall i :: 0 <= i < |r| ==> r[i] == sorted[i];
  }

  /** The slice is featured-first, newest-first, and no longer than the effective limit. */
  lemma ListOrdered(args: ListArgs, enriched: seq<Listing>, sorted: seq<Listing>, end: nat, r: seq<Listing>)
    requires sorted == Sort(enriched, ListingCmp)
    requires end == SliceEnd(|sorted|, Truncate(EffectiveLimit(args.limit)))
    requires r == sorted[..end]
    ensures forall i, j :: 0 <= i < j < |r| ==> FeaturedThenNewest(r[i].property, r[j].property)
    ensures !TruthyNumber(args.limit) ==> |r| <= 20
    ensures TruthyNumber(args.limit) && args.limit.value > 0.0 ==> |r| as real <= args.limit.value
  {
    SortedOrder(enriched, sorted);
    assert forall i :: 0 <= i < |r| ==> r[i] == sorted[i];
  }

  /** No listing appears twice: the slice is a prefix of a permutation of one scan of a
      table whose ids are distinct. */
  lemma ListDistinct(ps: seq<Property>, args: ListArgs, urlOf: StorageId -> Option<Url>,
                     matching: seq<Property>, enriched: seq<Listing>, sorted: seq<Listing>, end: nat,
                     r: seq<Listing>)
    requires matching == ApplyFilters(ApprovedListings(ps), args)
    requires enriched == AllWithImageUrls(matching, urlOf)
    requires sorted == Sort(enriched, ListingCmp)
    requires end <= |sorted| && r == sorted[..end]
    ensures DistinctPropertyIds(ps) ==> forall i, j :: 0 <= i < j < |r| ==> r[i].property.id != r[j].property.id
  {
    if DistinctPropertyIds(ps) {
      var lid := (l: Listing) => l.property.id;
      ApplyFiltersKeepsIds(ps, args);
      assert DistinctPropertyIds(matching);
      assert DistinctKeys(enriched, lid) by {
        forall i, j | 0 <= i < j < |enriched| ensures lid(enriched[i]) != lid(enriched[j]) {
          assert enriched[i].property == matching[i] && enriched[j].property == matching[j];
        }
      }
      SubDistinct(sorted, enriched, lid);
      forall i, j | 0 <= i < j < |r| ensures r[i].property.id != r[j].property.id {
        assert r[i] == sorted[i] && r[j] == sorted[j];
        assert lid(sorted[i]) != lid(sorted[j]);
      }
    }
  }

  /** Every listing of the sorted sequence is one of the matching documents. */
  lemma SortedMembers(matching: seq<Property>, enriched: seq<Listing>, sorted: seq<Listing>,
                      urlOf: StorageId -> Option<Url>)
    requires enriched == AllWithImageUrls(matching, urlOf)
    requires sorted == Sort(enriched, ListingCmp)
    ensures forall i :: 0 <= i < |sorted| ==> sorted[i].property in matching
    ensures forall i :: 0 <= i < |sorted| ==> sorted[i] == WithImageUrls(sorted[i].property, urlOf)
  {
    forall i | 0 <= i < |sorted|
      ensures sorted[i].property in matching && sorted[i] == WithImageUrls(sorted[i].property, urlOf)
    {
      assert sorted[i] in multiset(enriched);
      var k :| 0 <= k < |enriched| && enriched[k] == sorted[i];
    }
  }

  /** The sorted sequence is featured-first, newest-first. */
  lemma SortedOrder(enriched: seq<Listing>, sorted: seq<Listing>)
    requires sorted == Sort(enriched, ListingCmp)
    ensures forall i, j :: 0 <= i < j < |sorted| ==> FeaturedThenNewest(sorted[i].property, sorted[j].property)
  {
    ListingCmpConsistent();
    SortSorted(enriched, ListingCmp);
    forall i, j | 0 <= i < j < |sorted|
      ensures FeaturedThenNewest(sorted[i].property, sorted[j].property)
    {
      ListingCmpMeaning(sorted[i], sorted[j]);
    }
  }

  /** A matching approved listing is left out of `list` only because of the limit: every
      listing returned comes no later than it, and the result holds `limit` listings. */
  lemma ListComplete(ps: seq<Property>, args: ListArgs, urlOf: StorageId -> Option<Url>, p: Property)
    requires p in ps && p.status == Approved && MatchesFilters(p, args)
    ensures var r := List(ps, args, urlOf);
      || WithImageUrls(p, urlOf) in r
      || (&& (forall i :: 0 <= i < |r| ==> FeaturedThenNewest(r[i].property, p))
          && (EffectiveLimit(args.limit) > 0.0 ==> |r| == Truncate(EffectiveLimit(args.limit))))
  {
    var matching := ApplyFilters(ApprovedListings(ps), args);
    var enriched := AllWithImageUrls(matching, urlOf);
    var sorted := Sort(enriched, ListingCmp);
    var end := SliceEnd(|sorted|, Truncate(EffectiveLimit(args.limit)));
    var r := List(ps, args, urlOf);
    assert r == sorted[..end];
    var k := PositionInSorted(p, matching, enriched, sorted, urlOf);
    if k < end {
      assert r[k] == WithImageUrls(p, urlOf);
    } else {
      SortedOrder(enriched, sorted);
      forall i | 0 <= i < |r| ensures FeaturedThenNewest(r[i].property, p) {
        assert r[i] == sorted[i];
      }
    }
  }

  /** A matching document has its listing somewhere in the sorted sequence. */
  lemma PositionInSorted(p: Property, matching: seq<Property>, enriched: seq<Listing>,
                         sorted: seq<Listing>, urlOf: StorageId -> Option<Url>) returns (k: nat)
    requires p in matching
    requires enriched == AllWithImageUrls(matching, urlOf)
    requires sorted == Sort(enriched, ListingCmp)
    ensures k < |sorted| && sorted[k] == WithImageUrls(p, urlOf) && sorted[k].property == p
  {
    var m :| 0 <= m < |matching| && matching[m] == p;
    assert enriched[m] == WithImageUrls(p, urlOf);
    assert WithImageUrls(p, urlOf) in multiset(sorted);
    k :| 0 <= k < |sorted| && sorted[k] == WithImageUrls(p, urlOf);
  }

  /** `list` depends on its arguments only through the filtered documents and the
      effective limit. */
  lemma ListCongruence(ps: seq<Property>, a1: ListArgs, a2: ListArgs, urlOf: StorageId -> Option<Url>)
    requires ApplyFilters(ApprovedListings(ps), a1) == ApplyFilters(ApprovedListings(ps), a2)
    requires EffectiveLimit(a1.limit) == EffectiveLimit(a2.limit)
    ensures List(ps, a1, urlOf) == List(ps, a2, urlOf)
  {
  }

  /** A zero price bound and `featured: false` are falsy and leave the result alone. */
  lemma MinPriceZeroIgnored(ps: seq<Property>, args: ListArgs, urlOf: StorageId -> Option<Url>)
    ensures List(ps, args.(minPrice := Some(0.0)), urlOf) == List(ps, args.(minPrice := None), urlOf)
  {
    var a1, a2 := args.(minPrice := Some(0.0)), args.(minPrice := None);
    var s := ByCity(ByPropertyType(ByOfferType(ApprovedListings(ps), args), args), args);
    assert ByCity(ByPropertyType(ByOfferType(ApprovedListings(ps), a1), a1), a1) == s;
    assert ByCity(ByPropertyType(ByOfferType(ApprovedListings(ps), a2), a2), a2) == s;
    assert ByMinPrice(s, a1) == ByMinPrice(s, a2) == s;
    ListCongruence(ps, a1, a2, urlOf);
  }

  lemma MaxPriceZeroIgnored(ps: seq<Property>, args: ListArgs, urlOf: StorageId -> Option<Url>)
    ensures List(ps, args.(maxPrice := Some(0.0)), urlOf) == List(ps, args.(maxPrice := None), urlOf)
  {
    var a1, a2 := args.(maxPrice := Some(0.0)), args.(maxPrice := None);
    var s := ByMinPrice(ByCity(ByPropertyType(ByOfferType(ApprovedListings(ps), args), args), args), args);
    assert ByMinPrice(ByCity(ByPropertyType(ByOfferType(ApprovedListings(ps), a1), a1), a1), a1) == s;
    assert ByMinPrice(ByCity(ByPropertyType(ByOfferType(ApprovedListings(ps), a2), a2), a2), a2) == s;
    assert ByMaxPrice(s, a1) == ByMaxPrice(s, a2) == s;
    ListCongruence(ps, a1, a2, urlOf);
  }

  lemma FeaturedFalseIgnored(ps: seq<Property>, args: ListArgs, urlOf: StorageId -> Option<Url>)
    ensures List(ps, args.(featured := Some(false)), urlOf) == List(ps, args.(featured := None), urlOf)
  {
    var a1, a2 := args.(featured := Some(false)), args.(featured := None);
    var s := ByMaxPrice(ByMinPrice(ByCity(ByPropertyType(ByOfferType(ApprovedListings(ps), args), args), args), args), args);
    assert ByMaxPrice(ByMinPrice(ByCity(ByPropertyType(ByOfferType(ApprovedListings(ps), a1), a1), a1), a1), a1) == s;
    assert ByMaxPrice(ByMinPrice(ByCity(ByPropertyType(ByOfferType(ApprovedListings(ps), a2), a2), a2), a2), a2) == s;
    assert ByFeatured(s, a1) == ByFeatured(s, a2) == s;
    ListCongruence(ps, a1, a2, urlOf);
  }

  /** A zero limit is falsy and stands for the default of 20. */
  lemma ZeroLimitIsDefault(ps: seq<Property>, args: ListArgs, urlOf: StorageId -> Option<Url>)
    ensures List(ps, args.(limit := Some(0.0)), urlOf) == List(ps, args.(limit := None), urlOf)
    ensures |List(ps, args.(limit := None), urlOf)| <= 20
  {
    var a1, a2 := args.(limit := Some(0.0)), args.(limit := None);
    var s := ApplyFilters(ApprovedListings(ps), args);
    assert ApplyFilters(ApprovedListings(ps), a1) == s;
    assert ApplyFilters(ApprovedListings(ps), a2) == s;
    ListCongruence(ps, a1, a2, urlOf);
  }

  // ---------------------------------------------------------------------------
  // create

  datatype NewLocation = NewLocation(city: string, area: string, address: string)

  /** The arguments of `create`: a listing without owner, status, featured flag or views. */
  datatype CreateArgs = CreateArgs(
    title: string,
    description: string,
    price: Number,
    offerType: OfferType,
    propertyType: PropertyType,
    location: NewLocation,
    features: Features,
    images: seq<StorageId>,
    contactInfo: ContactInfo)

  /** The document `create` inserts: the arguments, the caller as owner, and the forced
      status "pending", featured false and zero views. */
  function NewProperty(id: Id, now: Number, owner: UserId, args: CreateArgs): Property
  {
    Property(
      id, now, args.title, args.description, args.price, args.offerType, args.propertyType,
      Location(args.location.city, args.location.area, args.location.address, None),
      args.features, args.images, owner, Pending, false, 0.0, args.contactInfo)
  }

  method Create(db: Db, caller: Option<UserId>, args: CreateArgs, now: Number) returns (r: Result<Id>)
    modifies db`properties, db`nextId
    ensures caller.None? ==>
      && r == Err(MustLogInToCreate)
      && db.properties == old(db.properties) && db.nextId == old(db.nextId)
    ensures caller.Some? ==>
      && r == Ok(old(db.nextId))
      && db.nextId == old(db.nextId) + 1
      && db.properties == old(db.properties) + [NewProperty(old(db.nextId), now, caller.value, args)]
    ensures caller.Some? ==>
      var p := db.properties[|db.properties| - 1];
      && p.status == Pending && !p.featured && p.views == 0.0
      && p.ownerId == caller.value && p.title == args.title && p.price == args.price
    ensures old(db.Valid()) ==> db.Valid()
  {
    if caller.None? {
      return Err(MustLogInToCreate);
    }
    var id := db.NewId();
    db.properties := db.properties + [NewProperty(id, now, caller.value, args)];
    r := Ok(id);
  }

  // ---------------------------------------------------------------------------
  // addToFavorites

  /** The caller has favorited the listing. */
  predicate HasFavorite(favs: seq<Favorite>, user: UserId, pid: Id)
  {
    exists i :: 0 <= i < |favs| && favs[i].userId == user && favs[i].propertyId == pid
  }

  /** The (user, listing) pairs of the favorites table. */
  ghost function Pairs(favs: seq<Favorite>): set<(UserId, Id)>
  {
    set i | 0 <= i < |favs| :: (favs[i].userId, favs[i].propertyId)
  }

  /** The `by_user_property` lookup followed by `.unique()`. */
  function FavoriteIndex(favs: seq<Favorite>, user: UserId, pid: Id): Result<Option<nat>>
  {
    UniqueIndex(favs, (f: Favorite) => f.userId == user && f.propertyId == pid)
  }

  /** The favorited pairs are exactly the pairs of the table. */
  lemma PairsAreFavorites(favs: seq<Favorite>)
    ensures forall u: UserId, q: Id :: (u, q) in Pairs(favs) <==> HasFavorite(favs, u, q)
  {
    forall u: UserId, q: Id | HasFavorite(favs, u, q) ensures (u, q) in Pairs(favs) {
      var i :| 0 <= i < |favs| && favs[i].userId == u && favs[i].propertyId == q;
      assert (favs[i].userId, favs[i].propertyId) in Pairs(favs);
    }
  }

  /** Inserting a favorite adds its pair and keeps every other one. */
  lemma AppendedFavorite(favs: seq<Favorite>, f: Favorite)
    ensures forall u: UserId, q: Id :: HasFavorite(favs + [f], u, q) <==>
      HasFavorite(favs, u, q) || (u == f.userId && q == f.propertyId)
    ensures OneFavoritePerPair(favs) && !HasFavorite(favs, f.userId, f.propertyId) ==>
      OneFavoritePerPair(favs + [f])
  {
    var favs' := favs + [f];
    assert favs'[|favs|] == f;
    forall u: UserId, q: Id | HasFavorite(favs, u, q) ensures HasFavorite(favs', u, q) {
      var i :| 0 <= i < |favs| && favs[i].userId == u && favs[i].propertyId == q;
      assert favs'[i] == favs[i];
    }
    forall u: UserId, q: Id | HasFavorite(favs', u, q) && (u != f.userId || q != f.propertyId)
      ensures HasFavorite(favs, u, q)
    {
      var i :| 0 <= i < |favs'| && favs'[i].userId == u && favs'[i].propertyId == q;
      assert favs[i] == favs'[i];
    }
  }

  /** Deleting the only favorite of a pair removes that pair and keeps every other one. */
  lemma RemovedFavorite(favs: seq<Favorite>, i: nat, user: UserId, pid: Id)
    requires i < |favs| && favs[i].userId == user && favs[i].propertyId == pid
    requires forall j :: 0 <= j < |favs| && favs[j].userId == user && favs[j].propertyId == pid ==> j == i
    ensures forall u: UserId, q: Id :: HasFavorite(RemoveAt(favs, i), u, q) <==>
      HasFavorite(favs, u, q) && (u != user || q != pid)
    ensures OneFavoritePerPair(favs) ==> OneFavoritePerPair(RemoveAt(favs, i))
  {
    var favs' := RemoveAt(favs, i);
    forall u: UserId, q: Id | (u != user || q != pid) && HasFavorite(favs, u, q) ensures HasFavorite(favs', u, q) {
      var j :| 0 <= j < |favs| && favs[j].userId == u && favs[j].propertyId == q;
      if j < i { assert favs'[j] == favs[j]; } else { assert favs'[j - 1] == favs[j]; }
    }
    forall u: UserId, q: Id | HasFavorite(favs', u, q) ensures HasFavorite(favs, u, q) && (u != user || q != pid) {
      var j :| 0 <= j < |favs'| && favs'[j].userId == u && favs'[j].propertyId == q;
      if j < i { assert favs'[j] == favs[j]; } else { assert favs'[j] == favs[j + 1]; }
    }
  }

  datatype Toggled = Toggled(favorites: seq<Favorite>, favorited: bool)

  /** What `addToFavorites` does to the favorites table for a signed-in caller: deletes the
      caller's favorite of the listing when there is one, and inserts one (with id
      `freshId`) otherwise. */
  function Toggle(favs: seq<Favorite>, user: UserId, pid: Id, freshId: Id): (r: Result<Toggled>)
    ensures OneFavoritePerPair(favs) ==> r.Ok?
    ensures r.Ok? ==> (r.value.favorited <==> !HasFavorite(favs, user, pid))
    ensures r.Ok? ==> (HasFavorite(r.value.favorites, user, pid) <==> r.value.favorited)
    ensures r.Ok? ==> forall u, q :: (u != user || q != pid) ==>
      (HasFavorite(r.value.favorites, u, q) <==> HasFavorite(favs, u, q))
    ensures r.Ok? && OneFavoritePerPair(favs) ==> OneFavoritePerPair(r.value.favorites)
  {
    match FavoriteIndex(favs, user, pid)
    case Err(e) => Err(e)
    case Ok(None) =>
      AppendedFavorite(favs, Favorite(freshId, user, pid));
      Ok(Toggled(favs + [Favorite(freshId, user, pid)], true))
    case Ok(Some(i)) =>
      RemovedFavorite(favs, i, user, pid);
      Ok(Toggled(RemoveAt(favs, i), false))
  }

  /** The lookup finds nothing for a pair that is not favorited. */
  lemma IndexOfAbsent(favs: seq<Favorite>, user: UserId, pid: Id)
    requires !HasFavorite(favs, user, pid)
    ensures FavoriteIndex(favs, user, pid) == Ok(None)
  {
    forall j | 0 <= j < |favs| ensures favs[j].userId != user || favs[j].propertyId != pid {
    }
  }

  /** The lookup finds a favorite just inserted for a pair that was not favorited. */
  lemma IndexOfAppended(favs: seq<Favorite>, user: UserId, pid: Id, id: Id)
    requires !HasFavorite(favs, user, pid)
    ensures FavoriteIndex(favs + [Favorite(id, user, pid)], user, pid) == Ok(Some(|favs|))
  {
    var f1 := favs + [Favorite(id, user, pid)];
    var k := |favs|;
    assert f1[k].userId == user && f1[k].propertyId == pid;
    forall j | 0 <= j < |f1| && f1[j].userId == user && f1[j].propertyId == pid ensures j == k {
    }
  }

  /** Toggling an absent pair twice inserts and then deletes the same favorite. */
  lemma ToggleTwiceAbsent(favs: seq<Favorite>, user: UserId, pid: Id, id1: Id, id2: Id)
    requires !HasFavorite(favs, user, pid)
    ensures var t1 := Toggle(favs, user, pid, id1);
      && t1 == Ok(Toggled(favs + [Favorite(id1, user, pid)], true))
      && Toggle(t1.value.favorites, user, pid, id2) == Ok(Toggled(favs, false))
  {
    IndexOfAbsent(favs, user, pid);
    var f1 := favs + [Favorite(id1, user, pid)];
    IndexOfAppended(favs, user, pid, id1);
    assert RemoveAt(f1, |favs|) == favs;
  }

  /** Toggling a favorited pair twice deletes it and inserts it anew at the end. */
  lemma ToggleTwicePresent(favs: seq<Favorite>, user: UserId, pid: Id, id1: Id, id2: Id)
    requires OneFavoritePerPair(favs) && HasFavorite(favs, user, pid)
    ensures var t1 := Toggle(favs, user, pid, id1);
      && t1.Ok? && !t1.value.favorited
      && var t2 := Toggle(t1.value.favorites, user, pid, id2);
      && t2 == Ok(Toggled(t1.value.favorites + [Favorite(id2, user, pid)], true))
      && Pairs(t2.value.favorites) == Pairs(favs)
  {
    var i :| FavoriteIndex(favs, user, pid) == Ok(Some(i));
    var f1 := RemoveAt(favs, i);
    RemovedFavorite(favs, i, user, pid);
    assert Toggle(favs, user, pid, id1) == Ok(Toggled(f1, false));
    assert FavoriteIndex(f1, user, pid) == Ok(None);
    var f2 := f1 + [Favorite(id2, user, pid)];
    AppendedFavorite(f1, Favorite(id2, user, pid));
    PairsAreFavorites(favs);
    PairsAreFavorites(f2);
    forall x ensures x in Pairs(f2) <==> x in Pairs(favs) {
      assert x == (x.0, x.1);
    }
  }

  /** Two consecutive toggles of the same pair give back the same favorited pairs, and
      give back the very same table when the pair was not favorited to begin with. */
  lemma ToggleTwice(favs: seq<Favorite>, user: UserId, pid: Id, id1: Id, id2: Id)
    requires OneFavoritePerPair(favs)
    ensures var t1 := Toggle(favs, user, pid, id1);
      && t1.Ok?
      && var t2 := Toggle(t1.value.favorites, user, pid, id2);
      && t2.Ok?
      && t2.value.favorited == !t1.value.favorited
      && Pairs(t2.value.favorites) == Pairs(favs)
      && (!HasFavorite(favs, user, pid) ==> t2.value.favorites == favs)
  {
    if HasFavorite(favs, user, pid) {
      ToggleTwicePresent(favs, user, pid, id1, id2);
    } else {
      ToggleTwiceAbsent(favs, user, pid, id1, id2);
    }
  }

  method AddToFavorites(db: Db, caller: Option<UserId>, pid: Id) returns (r: Result<bool>)
    modifies db`favorites, db`nextId
    ensures caller.None? ==>
      r == Err(MustLogIn) && db.favorites == old(db.favorites) && db.nextId == old(db.nextId)
    ensures caller.Some? ==>
      match Toggle(old(db.favorites), caller.value, pid, old(db.nextId))
      case Err(e) => r == Err(e) && db.favorites == old(db.favorites) && db.nextId == old(db.nextId)
      case Ok(t) =>
        && r == Ok(t.favorited)
        && db.favorites == t.favorites
        && db.nextId == old(db.nextId) + (if t.favorited then 1 else 0)
    ensures old(db.Valid()) ==> db.Valid()
  {
    if caller.None? {
      return Err(MustLogIn);
    }
    var user := caller.value;
    ghost var t := Toggle(db.favorites, user, pid, db.nextId);
    match FavoriteIndex(db.favorites, user, pid)
    case Err(e) =>
      r := Err(e);
    case Ok(Some(i)) =>
      db.favorites := RemoveAt(db.favorites, i);
      r := Ok(false);
    case Ok(None) =>
      var id := db.NewId();
      db.favorites := db.favorites + [Favorite(id, user, pid)];
      r := Ok(true);
  }

  // ---------------------------------------------------------------------------
  // getFavorites and incrementViews

  /** `ctx.db.get(id)` on the properties table: the position of the listing with that id. */
  function PropertyIndex(ps: seq<Property>, id: Id): (r: Option<nat>)
    ensures r.Some? ==> r.value < |ps| && ps[r.value].id == id
    ensures r.None? ==> forall i :: 0 <= i < |ps| ==> ps[i].id != id
  {
    var ix := Positions(ps, (p: Property) => p.id == id);
    if ix == [] then None else Some(ix[0])
  }

  /** A listing with the URL of its first image only. */
  function WithFirstImageUrl(p: Property, urlOf: StorageId -> Option<Url>): (l: Listing)
    ensures l.property == p && |l.imageUrls| <= 1
    ensures |l.imageUrls| == 1 <==> p.images != []
    ensures p.images != [] ==> l.imageUrls[0] == urlOf(p.images[0])
  {
    Listing(p, if p.images == [] then [] else [urlOf(p.images[0])])
  }

  /** The listing of one favorite, or nothing when it is gone. */
  function Lookup(ps: seq<Property>, f: Favorite, urlOf: StorageId -> Option<Url>): (r: seq<Listing>)
    ensures |r| <= 1
    ensures |r| == 1 ==> r[0].property in ps && r[0].property.id == f.propertyId && |r[0].imageUrls| <= 1
  {
    match PropertyIndex(ps, f.propertyId)
    case None => []
    case Some(j) => [WithFirstImageUrl(ps[j], urlOf)]
  }

  /** Looks up the listing of every favorite and drops the favorites whose listing is
      gone. */
  function Resolve(ps: seq<Property>, fs: seq<Favorite>, urlOf: StorageId -> Option<Url>): (r: seq<Listing>)
    ensures |r| <= |fs|
  {
    if fs == [] then [] else Lookup(ps, fs[0], urlOf) + Resolve(ps, fs[1..], urlOf)
  }

  /** Every listing of the join exists, carries at most one URL and is the target of one
      of the favorites. */
  lemma {:induction false} ResolveSound(ps: seq<Property>, fs: seq<Favorite>, urlOf: StorageId -> Option<Url>)
    ensures forall l :: l in Resolve(ps, fs, urlOf) ==>
      && l.property in ps
      && |l.imageUrls| <= 1
      && exists f :: f in fs && f.propertyId == l.property.id
  {
    if fs != [] {
      ResolveSound(ps, fs[1..], urlOf);
      forall l | l in Resolve(ps, fs, urlOf)
        ensures exists f :: f in fs && f.propertyId == l.property.id
      {
        if l in Lookup(ps, fs[0], urlOf) {
          assert fs[0] in fs;
        } else {
          assert Resolve(ps, fs, urlOf) == Lookup(ps, fs[0], urlOf) + Resolve(ps, fs[1..], urlOf);
          assert l in Resolve(ps, fs[1..], urlOf);
          var f :| f in fs[1..] && f.propertyId == l.property.id;
          assert f in fs;
        }
      }
    }
  }

  /** The `getFavorites` query. */
  function GetFavorites(ps: seq<Property>, favs: seq<Favorite>, caller: Option<UserId>,
                        urlOf: StorageId -> Option<Url>): (r: seq<Listing>)
    ensures caller.None? ==> r == []
    ensures forall l :: l in r ==>
      && caller.Some?
      && l.property in ps
      && HasFavorite(favs, caller.value, l.property.id)
      && |l.imageUrls| <= 1
  {
    if caller.None? then []
    else
      var user := caller.value;
      var mine := Filter(favs, (f: Favorite) => f.userId == user);
      var r := Resolve(ps, mine, urlOf);
      ResolveSound(ps, mine, urlOf);
      assert forall l :: l in r ==> HasFavorite(favs, user, l.property.id) by {
        forall l | l in r ensures HasFavorite(favs, user, l.property.id) {
          var f :| f in mine && f.propertyId == l.property.id;
          var j :| 0 <= j < |favs| && favs[j] == f;
        }
      }
      r
  }

  lemma {:induction false} ResolveComplete(ps: seq<Property>, fs: seq<Favorite>, urlOf: StorageId -> Option<Url>, f: Favorite)
    requires f in fs && PropertyIndex(ps, f.propertyId).Some?
    ensures WithFirstImageUrl(ps[PropertyIndex(ps, f.propertyId).value], urlOf) in Resolve(ps, fs, urlOf)
  {
    if fs[0] != f {
      ResolveComplete(ps, fs[1..], urlOf, f);
    }
  }

  /** The join keeps the order of the favorites: the listings of earlier favorites come
      before those of later ones. */
  lemma {:induction false} ResolveSplits(ps: seq<Property>, fs: seq<Favorite>, gs: seq<Favorite>,
                                         urlOf: StorageId -> Option<Url>)
    ensures Resolve(ps, fs + gs, urlOf) == Resolve(ps, fs, urlOf) + Resolve(ps, gs, urlOf)
  {
    if fs == [] {
      assert fs + gs == gs;
    } else {
      var h := fs + gs;
      assert h[0] == fs[0];
      assert h[1..] == fs[1..] + gs;
      ResolveSplits(ps, fs[1..], gs, urlOf);
    }
  }

  /** `getFavorites` follows the order of the favorites table: the listings of earlier
      favorites come first. */
  lemma GetFavoritesSplits(ps: seq<Property>, fs: seq<Favorite>, gs: seq<Favorite>, user: UserId,
                           urlOf: StorageId -> Option<Url>)
    ensures GetFavorites(ps, fs + gs, Some(user), urlOf)
            == GetFavorites(ps, fs, Some(user), urlOf) + GetFavorites(ps, gs, Some(user), urlOf)
  {
    var mine := (f: Favorite) => f.userId == user;
    FilterSplits(fs, gs, mine);
    ResolveSplits(ps, Filter(fs, mine), Filter(gs, mine), urlOf);
  }

  /** One favorite yields exactly one listing when it is the caller's and its listing
      exists, and nothing otherwise; with `GetFavoritesSplits` this fixes the whole result. */
  lemma GetFavoritesOne(ps: seq<Property>, f: Favorite, user: UserId, urlOf: StorageId -> Option<Url>)
    ensures GetFavorites(ps, [f], Some(user), urlOf)
            == if f.userId == user && PropertyIndex(ps, f.propertyId).Some?
               then [WithFirstImageUrl(ps[PropertyIndex(ps, f.propertyId).value], urlOf)]
               else []
  {
    var mine := Filter([f], (g: Favorite) => g.userId == user);
    if f.userId == user {
      assert mine == [f];
      assert Resolve(ps, [f], urlOf) == Lookup(ps, f, urlOf) + Resolve(ps, [], urlOf);
    } else {
      assert mine == [];
    }
  }

  /** Every favorite of the caller whose listing still exists yields that listing. */
  lemma GetFavoritesComplete(ps: seq<Property>, favs: seq<Favorite>, user: UserId,
                             urlOf: StorageId -> Option<Url>, f: Favorite)
    requires f in favs && f.userId == user
    requires PropertyIndex(ps, f.propertyId).Some?
    ensures WithFirstImageUrl(ps[PropertyIndex(ps, f.propertyId).value], urlOf)
            in GetFavorites(ps, favs, Some(user), urlOf)
  {
    var mine := Filter(favs, (g: Favorite) => g.userId == user);
    assert f in mine;
    ResolveComplete(ps, mine, urlOf, f);
  }

  method IncrementViews(db: Db, pid: Id)
    modifies db`properties
    ensures match PropertyIndex(old(db.properties), pid)
      case None => db.properties == old(db.properties)
      case Some(i) =>
        db.properties == old(db.properties)[i := old(db.properties)[i].(views := old(db.properties)[i].views + 1.0)]
    ensures old(db.Valid()) ==> db.Valid()
  {
    match PropertyIndex(db.properties, pid)
    case None =>
    case Some(i) =>
      var p := db.properties[i];
      db.properties := db.properties[i := p.(views := p.views + 1.0)];
  }
}
