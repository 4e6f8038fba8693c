# Real-estate listing backend: a verified Dafny model

This project models the record-table logic of the Convex backend of a bilingual
real-estate listing application. Four handler files make up that logic:

- `convex/properties.ts` is the listing repository. It holds the `list` query, the
  `create`, `addToFavorites` and `incrementViews` mutations, and the `getFavorites` join.
- `convex/users.ts` holds user preferences: one record per user, upserted by
  `updatePreferences`. `addSearchHistory` keeps a bounded, newest-first list of search terms.
- `convex/reviews.ts` holds reviews: `getByProperty` lists them newest first, `create`
  allows one review per (user, property), and `getStats` computes count, rounded mean and a
  five-bucket histogram.
- `convex/market.ts` is the market-analysis log: `saveAnalysis` appends, and `getAnalysis`
  returns the newest matching record.

The store is the class `Store.Db`. It has one sequence field per table of
`convex/schema.ts` that the handlers touch, kept in insertion order, and a counter that
hands out document ids. Each mutation is a method that takes the store. Its `modifies`
clause names only the tables it writes, and its `ensures` gives each new table in terms of
the old one. Queries are pure functions over the tables. Every mutation also preserves
`Db.Valid()`:

- ids are below the counter;
- listing ids are distinct;
- there is at most one favorite per (user, property) pair;
- there is at most one review per (user, property) pair;
- there is at most one preferences record per user;
- every search history holds at most 10 terms.

Some of the environment becomes explicit parameters:

- The signed-in caller (`getAuthUserId`) is an `Option<UserId>` parameter.
- The clock (`_creationTime` of an insert, `Date.now()`) is a `now` parameter.
- Storage URL resolution (`ctx.storage.getUrl`) is a function parameter `urlOf`.
- The author-name lookup of `getByProperty` is a function parameter `nameOf`.

JavaScript numbers are exact reals (`Schema.Number`). `Math.round` is `floor(x + 0.5)`.

`.unique()` is modelled as the store defines it (`Query.UniqueIndex`): it throws when a
scan finds more than one document. The lemmas and the `Valid()` invariant show that the
handlers never reach that case.

`Array.prototype.sort` with a comparator is one stable insertion sort, `Sorting.Sort`. It
is proved to return a permutation that is sorted whenever the comparator is consistent.
Three handlers use it, one per comparator.

Notes on where the code differs from its stated design:

- `reviews.create` stores `rating` exactly as given. The schema comment says 1-5, but the
  code does no range check. So `getStats` works on arbitrary numbers: ratings outside
  1..5, and non-integer ratings, get no bucket.
- In `updatePreferences` an omitted `preferredType` is not a key of the patch object. On
  an existing record the stored preferred type therefore stays, and an omitted value does
  not clear it. `Users.Patched` models this.
- `getFavorites` does not check listing status. A favorited listing that is no longer
  approved is still returned.
- `list`'s `propertyType` argument is a free string. It is compared with the stored
  literal ("villa", ...), so an unknown string matches nothing.

## Model

| member | source | states |
|---|---|---|
| Properties.List | convex/properties.ts:15-69 | Every returned listing is in the table, approved, and satisfies every filter whose argument is truthy. Featured listings come before non-featured ones, and the newest come first within each group. The length is at most 20 when `limit` is absent or 0, and at most `limit` when it is positive. Each listing carries the resolved URL of every stored image, `null` where storage has none. When listing ids are distinct, as the store keeps them, no listing appears twice. |
| Properties.ApplyFilters | convex/properties.ts:25-49 | The chain of conditional filters keeps exactly the listings satisfying the conjunction `MatchesFilters`, in both directions. |
| Properties.ApprovedListings | convex/properties.ts:16-20 | The `by_status` scan keeps exactly the approved listings. |
| Properties.ListSound | convex/properties.ts:16-59 | Every listing of the returned slice is an approved document of the table that meets every truthy filter, with all its image URLs resolved. |
| Properties.ListDistinct | convex/properties.ts:16-68 | On a table with distinct ids, no two listings of the result share an id: the result is a prefix of a permutation of one scan. |
| Properties.ApplyFiltersKeepsIds | convex/properties.ts:16-49 | The `by_status` scan and the chain of filters keep listing ids distinct. |
| Properties.ListOrdered | convex/properties.ts:62-68 | The returned slice is featured-first and newest-first, and holds at most 20 listings for a falsy limit and at most `limit` for a positive one. |
| Properties.SortedOrder | convex/properties.ts:62-66 | After the sort, every listing is featured-first and newest-first relative to every later one. |
| Properties.ListComplete | convex/properties.ts:62-68 | A matching approved listing is missing from the result only when the limit cut it off. In that case every returned listing precedes it, and the result holds exactly `limit` listings. |
| Properties.ListingCmpMeaning | convex/properties.ts:62-66 | The comparator says "may come first" exactly when the first listing is featured-first and, on equal flags, newer or equal. |
| Properties.SliceEnd | convex/properties.ts:68 | `slice(0, end)` keeps `min(end, n)` elements for a non-negative end, and drops `-end` from the back for a negative end. |
| Properties.EffectiveLimit | convex/properties.ts:68 | `limit \|\| 20`: the limit is 20 when absent or 0, and the given value otherwise. |
| Properties.MinPriceZeroIgnored | convex/properties.ts:39-41 | `minPrice: 0` gives the same result as no `minPrice`. |
| Properties.MaxPriceZeroIgnored | convex/properties.ts:43-45 | `maxPrice: 0` gives the same result as no `maxPrice`, so it excludes nothing. |
| Properties.FeaturedFalseIgnored | convex/properties.ts:47-49 | `featured: false` gives the same result as no `featured`. |
| Properties.ZeroLimitIsDefault | convex/properties.ts:68 | `limit: 0` behaves as an absent limit, and the result has at most 20 listings. |
| Properties.Create | convex/properties.ts:157-170 | With no caller it fails with "Must be logged in to create property" and changes nothing. Otherwise it appends one listing with a fresh id: status pending, featured false, 0 views, the caller as owner, and the arguments copied. No other table changes. |
| Properties.Toggle | convex/properties.ts:181-200 | Returns favorited true exactly when the pair was absent. Afterwards the pair is present exactly when favorited is true, and all other pairs are unchanged. When the table holds at most one favorite per pair, it never fails and keeps that property. |
| Properties.AddToFavorites | convex/properties.ts:176-201 | With no caller it fails with "Must be logged in" and changes nothing. Otherwise the favorites table and the result are those of `Toggle`. |
| Properties.ToggleTwice | convex/properties.ts:189-200 | Two consecutive toggles of a pair restore the set of favorited pairs and return opposite flags. If the pair was absent, they restore the table exactly. |
| Properties.AppendedFavorite | convex/properties.ts:194-198 | Inserting a favorite adds exactly its pair, and keeps at most one favorite per pair when the pair was absent. |
| Properties.RemovedFavorite | convex/properties.ts:189-191 | Deleting the only favorite of a pair removes exactly that pair, and keeps at most one favorite per pair. |
| Properties.ToggleTwiceAbsent | convex/properties.ts:193-199 | Toggling an absent pair inserts a favorite, and toggling again deletes exactly that favorite. |
| Properties.ToggleTwicePresent | convex/properties.ts:189-199 | Toggling a present pair deletes it. Toggling again appends it anew, and the set of pairs is unchanged. |
| Properties.GetFavorites | convex/properties.ts:207-228 | With no caller it returns []. Otherwise every returned listing exists, is favorited by the caller, and carries at most one image URL. |
| Properties.GetFavoritesOne | convex/properties.ts:215-228 | A single favorite yields exactly one listing, with its first-image URL, when it is the caller's and its listing exists, and nothing otherwise. With `GetFavoritesSplits` this determines the whole result, multiplicity included. |
| Properties.GetFavoritesSplits | convex/properties.ts:210-228 | The result follows the order of the favorites table: the favorites of a concatenated table give the concatenated listings. |
| Query.FilterSplits | convex/properties.ts:211-214 | An index scan keeps table order: filtering a concatenation gives the concatenation of the filtered parts. |
| Properties.GetFavoritesComplete | convex/properties.ts:210-228 | Each favorite of the caller whose listing still exists yields that listing, with the URL of its first image. |
| Properties.Resolve | convex/properties.ts:215-228 | The join returns at most one listing per favorite. |
| Properties.ResolveSound | convex/properties.ts:215-228 | Every listing of the join exists, has at most one URL and is the target of one of the favorites. |
| Properties.ResolveComplete | convex/properties.ts:216-228 | Every favorite whose listing exists contributes that listing. |
| Properties.ResolveSplits | convex/properties.ts:215-228 | The join keeps the order of the favorites: it maps a concatenation to a concatenation. |
| Properties.WithFirstImageUrl | convex/properties.ts:220-224 | `images.slice(0, 1)` resolved: exactly one URL, of the first image, when the listing has an image, and none otherwise. |
| Properties.PropertyIndex | convex/properties.ts:217 | `ctx.db.get` finds the listing with the id, or reports that no listing has it. |
| Properties.IncrementViews | convex/properties.ts:235-239 | If the listing exists, its views go up by exactly 1 and nothing else changes. A missing id changes nothing and raises no error. |
| Query.UniqueIndex | convex/properties.ts:182-187 | `.unique()` fails exactly when two documents match. It gives none exactly when no document matches, and otherwise a matching position. |
| Sorting.Sort | convex/properties.ts:62-66 | The sort returns a permutation of its input. |
| Sorting.SortSorted | convex/properties.ts:62-66 | With a consistent comparator the sorted sequence is ordered pairwise. |
| Sorting.InsertSorted | convex/properties.ts:62-66 | Inserting into a sorted sequence keeps it sorted. |
| Text.IncludesAt | convex/properties.ts:34-36 | A needle that occurs at some position is included. |
| Text.IncludesSomewhere | convex/properties.ts:34-36 | An included needle occurs at some position. |
| Text.Lower | convex/properties.ts:35 | Lower-casing keeps the length, maps every character through `LowerChar`, and leaves no letter A to Z. |
| Text.LowerIdempotent | convex/properties.ts:35 | Lower-casing an already lower-cased string changes nothing. |
| Users.GetPreferences | convex/users.ts:8-11 | Returns the user's record, or none exactly when the user has none; absence is not an error. It fails exactly when two records exist for the user, which the invariant rules out. |
| Users.UpdatePreferences | convex/users.ts:26-49 | With no caller it fails with "Must be logged in". An existing record is patched: the preference fields are replaced, a `preferredType` left out stays, and `searchHistory` is kept. Otherwise a record with the arguments and an empty history is appended. Nothing else changes. |
| Users.Patched | convex/users.ts:37-41 | The patch keeps id, user and search history. It replaces the four list and range fields, and replaces `preferredType` only when one is given. |
| Users.PrependHistory | convex/users.ts:64 | The new history starts with the term, followed by the most recent old entries. Its length is min(10, old length + 1). |
| Users.NoDeduplication | convex/users.ts:64 | The same term searched twice stands at positions 0 and 1. |
| Users.SearchAllKeepsNewest | convex/users.ts:63-67 | After any run of searches, the history is the terms in reverse order followed by the old history, cut to 10. With no search, a capped history is returned unchanged. |
| Users.FirstSearch | convex/users.ts:68-77 | The lazily created record has history [term], price range 0 to 1000000, empty type, city and feature lists, and no preferred type. |
| Users.AddSearchHistory | convex/users.ts:54-78 | With no caller it succeeds and changes nothing. An existing record gets `PrependHistory` and nothing else changes. A user without a record gets `FirstSearch`. |
| Reviews.GetByProperty | convex/reviews.ts:7-24 | Returns exactly the property's reviews, all of them and only them. The newest come first. An author without a name is "Anonymous User". |
| Reviews.SortedReviewsMembers | convex/reviews.ts:8-21 | A permutation of the named reviews contains every review of the property and nothing else. |
| Reviews.SortedReviewsOrder | convex/reviews.ts:23 | The sorted reviews have non-increasing creation times. |
| Reviews.AuthorName | convex/reviews.ts:18 | The name is the user's name when there is a non-empty one, and "Anonymous User" otherwise. |
| Reviews.Create | convex/reviews.ts:33-55 | With no caller it fails. If the caller already reviewed the property, it fails with "You have already reviewed this property". Otherwise it appends one review with the rating as given and helpful 0. Nothing else changes. |
| Reviews.SecondReviewRefused | convex/reviews.ts:39-48 | Under the one-per-pair constraint, an existing review is found, so a second one is refused. A pair with no review finds none, so the insert goes ahead. |
| Reviews.GetStats | convex/reviews.ts:60-93 | `totalReviews` is the number of the property's reviews. The distribution has exactly the keys 1 to 5, and bucket k counts the ratings equal to k. With no reviews the average is 0. Otherwise the average is the mean rounded to one decimal: a multiple of 0.1 within (mean - 0.05, mean + 0.05]. |
| Reviews.RoundTenth | convex/reviews.ts:83 | `Math.round(x * 10) / 10` is a multiple of 0.1 in (x - 0.05, x + 0.05], which fixes it uniquely. |
| Reviews.TallyCounts | convex/reviews.ts:77-80 | The `reduce` into `dist` counts, for every rating value, the reviews with that rating. |
| Reviews.NoReviewsStats | convex/reviews.ts:66-72 | With no reviews the result is average 0, total 0, and five zero buckets. |
| Reviews.BucketsPartition | convex/reviews.ts:77-91 | The five bucket counts plus the out-of-bucket count add up to the number of reviews. The out-of-bucket count is 0 exactly when every rating is 1, 2, 3, 4 or 5. |
| Reviews.DistributionTotal | convex/reviews.ts:77-91 | The buckets sum to at most `totalReviews`. They sum to exactly `totalReviews` if and only if every rating is an integer from 1 to 5. |
| Reviews.SumBounds | convex/reviews.ts:74 | With ratings in [1, 5], the sum lies between n and 5n. |
| Reviews.AverageInRange | convex/reviews.ts:74-83 | When every rating lies in [1, 5], so does the rounded average. |
| Market.SaveAnalysis | convex/market.ts:14-19 | Appends exactly one record: the arguments, a fresh id, and `analysisDate` = now. Existing records are untouched. No caller is needed. |
| Market.Candidates | convex/market.ts:28-37 | Keeps exactly the records of the city, and of the property type when a non-empty one is given. |
| Market.GetAnalysis | convex/market.ts:28-40 | Returns none exactly when no record matches. Otherwise it returns a matching record of the log whose `analysisDate` is maximal among the matches. |
| Market.NewestOfSorted | convex/market.ts:40 | The head of the latest-first sort is a candidate, and no candidate is later. |
| Market.AnyTypeWithoutFilter | convex/market.ts:35-37 | Without a property type (or with ""), every record of the city is a candidate, whatever its type ("All" included). |

## Left out

- `convex/ai.ts` is not part of this model. It consists of HTTP calls to a chat-completion
  endpoint, prompt templates, parsing of model output and floating-point statistics.
- `search` (convex/properties.ts:94-118) is left out. Its ranking belongs to the store's
  free-text index, which is not visible.
- `getById` and `generateUploadUrl` (convex/properties.ts:72-92, 242-250) are left out.
  They are a lookup with owner redaction and a storage call.
- The `inquiries` table is left out, because no modelled handler reads or writes it.
- Storage URL resolution and the author-name lookup are function parameters with no
  behaviour of their own. Authentication is an `Option<UserId>` value passed in.
- JavaScript numbers are exact reals. NaN, infinities and floating-point rounding are not
  modelled. For example, `Math.round(avg * 10)` is computed on the exact mean.
- Properties.List: the limit is truncated toward zero as `slice` does. A limit between 0
  and 1 therefore gives an empty result.
- Text.LowerChar: only the letters A to Z have a lower-case form. Full Unicode case
  mapping is not modelled. Arabic script has no case.
- Sorting.Sort: the sort is stable, as ECMAScript requires, but no contract states the
  order of equal keys. Index scans are modelled as table insertion order.
- Concurrency and the `Promise.all` fan-out are not modelled. Each handler runs atomically
  and alone.
- Properties.GetFavorites: its contract gives membership and at most one URL per listing.
  Order, multiplicity and completeness are stated by the lemmas beside it
  (`GetFavoritesSplits`, `GetFavoritesOne`, `GetFavoritesComplete`), not in its own
  `ensures`.
