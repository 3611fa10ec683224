# Plosebob storefront decisions in Dafny

This project models the decision logic of the Plosebob photo storefront, a
React single-page shop for the photos taken on the Plose alpine coaster. The
logic lives in three places: the shared helpers of `src/lib/shop-utils.ts`,
the storefront component `src/components/PhotoShopSection.tsx` and the landing
page `src/App.tsx`. The model covers:

- the ride speed read from a photo's file name and the day keys of photos and
  unlock rows (`ShopUtils`);
- how a stored photo path or object-storage URL becomes a bucket and an object
  path, and how a photo's display URL is chosen (`StorageRefs`);
- person-name normalisation, splitting and resolution (`Names`);
- the duplicate-insert test, the park filter, the shop price override, the
  park binding checked at login, the photo time window and a ride's day key
  (`ShopHelpers`);
- which photos a rider may download, and the rider's best speeds
  (`Entitlement`);
- the merge of purchased photos and the pending-checkout marker
  (`Purchases`);
- cart prices, quantities, the total, the checkout items and the handlers
  that change the cart, the queued day pass and the favourites (`Cart`);
- the stable descending-speed sort, the cap and the numbering shared by both
  rankings (`Ranking`);
- the storefront ranking: load, own-row overlay, own speed and the sync of
  today's best speed into the ranking table (`Leaderboard`);
- the landing page's countdown, avatar path split, public ranking and text
  translation (`Landing`);
- the checks in front of the account deletion request (`Account`).

Every backend answer (table reads and writes, auth, storage signing and
public URLs) is an input. So are the runtime's date parsing, `decodeURIComponent`,
`Number()`, the regular-expression replace of the translation tables and the
clock.
Values that vary by deployment are parameters too: the project URL, the park
id, the avatar bucket setting and the demo price id. The park id differs
between `src/App.tsx:7` and `src/components/PhotoShopSection.tsx:51`. Pure
code is written as functions and lemmas. Code that updates state or loops is
written as methods: the cart handlers are the `Cart.ShopCart` class, and the
ranking sync is the `Leaderboard.LeaderboardSync` class. Speeds are JavaScript
numbers, modelled as `real`; prices are whole cents.

The checkout rejects an item whose unit amount is not a positive whole number
(`src/components/PhotoShopSection.tsx:2805-2825`). That check can never fire.
Every unit amount has already gone through `toPositiveInt` with a positive
fallback (2764-2766), and the day pass is 1499 × 1. `Cart.PlanCheckout`
follows the code and proves that the `InvalidAmount` outcome is unreachable.

The cart total comes in two versions. `Cart.CartTotalCents` (and the total
`Cart.ShopCart.Total` shows) is the code as written: a row whose quantity
rounds to 0 costs nothing. `Cart.IntendedTotalCents` is the corrected total,
where such a row counts once, as it does at checkout (see Findings).
`Cart.IntendedTotalCoversAsWritten` relates the two.

## Model

| member | source | states |
|---|---|---|
| JsValues.Round | src/components/PhotoShopSection.tsx:2351 | `Math.round` gives the integer within half a unit of its argument, halves going up |
| JsValues.FloorOf | src/App.tsx:319 | `Math.floor` gives the integer at most one below its argument |
| Text.Trim | src/components/PhotoShopSection.tsx:181 | `trim()` leaves no whitespace at either end, only shortens, and leaves space-free text alone |
| Text.TrimPadded | src/components/PhotoShopSection.tsx:3314 | whitespace on both sides of a word is exactly what `trim()` removes |
| Text.StripLeadingSlashes | src/components/PhotoShopSection.tsx:196 | `replace(/^\/+/, '')` removes the whole leading run of '/' and nothing else |
| Text.LowerAscii | src/components/PhotoShopSection.tsx:218 | lower-casing maps each character on its own and keeps the length |
| Text.Split | src/components/PhotoShopSection.tsx:206 | `split('/')` gives at least one part, and no part contains the separator |
| Text.JoinSplit | src/components/PhotoShopSection.tsx:211 | joining the parts of a split with the same separator gives the string back |
| Text.NonEmptyParts | src/components/PhotoShopSection.tsx:206 | `filter(Boolean)` keeps exactly the non-empty parts |
| Text.NonEmptyPartsAppend | src/components/PhotoShopSection.tsx:206 | `filter(Boolean)` keeps order and repeats: filtering two runs of parts gives the two filtered runs joined |
| Text.NonEmptyPartsOfOne | src/components/PhotoShopSection.tsx:206 | one part is kept exactly when it is non-empty |
| Text.KeepNonEmpty | src/components/PhotoShopSection.tsx:206 | a list without empty parts passes the filter unchanged |
| Text.SplitPartsNonEmpty | src/components/PhotoShopSection.tsx:206 | a text that neither starts nor ends with the separator and never has two in a row splits into non-empty parts only |
| Text.WordsTrim | src/components/PhotoShopSection.tsx:230 | `trim()` keeps the words (the maximal runs of non-whitespace characters) |
| Text.WordsTrimStart | src/components/PhotoShopSection.tsx:230 | removing leading whitespace keeps the words |
| Text.WordsTrimEnd | src/components/PhotoShopSection.tsx:230 | removing trailing whitespace keeps the words |
| Text.SplitAtPlainSpaces | src/components/PhotoShopSection.tsx:239 | where the only whitespace is the plain space, cutting at whitespace is `split(' ')` |
| Text.NatToStringValue | src/App.tsx:323 | `String(n)` reads back as `n` |
| Text.PadStart2 | src/App.tsx:323 | `padStart(2, '0')` pads to two characters with zeros in front and keeps the text |
| Text.LeadingZerosValue | src/App.tsx:323 | zeros put in front do not change the value of a digit string |
| ShopUtils.FindSpeedMatch | src/lib/shop-utils.ts:3 | the search finds the leftmost index where four digits, a '.' and letters or digits to the end follow; `None` means the pattern matches nowhere |
| ShopUtils.SpeedMatchUnique | src/lib/shop-utils.ts:3 | the end anchor in the lookahead lets the speed pattern match at one index at most |
| ShopUtils.ParseSpeedFromStoragePath | src/lib/shop-utils.ts:5-13 | a null or empty path gives null; any speed found lies in 0..99.99 |
| ShopUtils.ParseSpeedMatches | src/lib/shop-utils.ts:5-12 | a non-empty path gives a speed iff the pattern matches in its last segment, and the speed is that match's four digits divided by 100 |
| ShopUtils.DirectoryIgnored | src/lib/shop-utils.ts:7 | only the segment after the last '/' decides the speed |
| ShopUtils.SpeedExample | src/lib/shop-utils.ts:3-12 | `<dir>/ride_1234.jpg` gives 12.34 for any directory |
| ShopUtils.PhotoSpeedKmh | src/lib/shop-utils.ts:15-20 | a finite `speed_kmh` is returned unchanged; otherwise the file-name speed is used |
| ShopUtils.ToDateKey | src/lib/shop-utils.ts:22-32 | null or empty gives null; a `\d{4}-\d{2}-\d{2}` prefix is returned verbatim; anything else is what date parsing gives; every key has ten characters |
| ShopUtils.DateKeyIdempotent | src/lib/shop-utils.ts:24-27 | a day key is its own day key, whatever date parsing does |
| ShopUtils.DateKeyExample | src/lib/shop-utils.ts:24-27 | "2024-05-03T07:12:00Z" has day key "2024-05-03" |
| ShopUtils.PhotoDayKey | src/lib/shop-utils.ts:34-36 | `created_at` is used when present, even when empty (that gives null); `ride_date` only when `created_at` is null or undefined |
| ShopUtils.FirstDayKey | src/lib/shop-utils.ts:48-52 | the early-returning loop gives null exactly when no candidate yields a key |
| ShopUtils.FirstDayKeyIsFirst | src/lib/shop-utils.ts:48-52 | the key returned is that of a candidate, and every earlier candidate yields none |
| ShopUtils.UnlockedDayKey | src/lib/shop-utils.ts:38-53 | a date-shaped `unlock_date` decides the key |
| ShopUtils.UnlockedDayKeyOrder | src/lib/shop-utils.ts:38-53 | null iff none of the six columns yields a key; otherwise the key of the first one that does, in the order unlock_date, ride_date, day, date, unlocked_at, created_at |
| ShopUtils.ToApiError | src/lib/shop-utils.ts:55-72 | an object keeps its string `message` and `code`; the fallback message and 'unknown_error' fill in the rest; `details` is always the original error |
| StorageRefs.NormalizeToAbsoluteUrl | src/components/PhotoShopSection.tsx:113-120 | null or empty gives null; http(s) URLs and everything without a project URL are kept; otherwise a '/'-leading value gets the project URL in front, a 'storage/v1/'-leading one the project URL and '/', and anything else is kept; the result always ends with the input |
| StorageRefs.NormalizeIdempotent | src/components/PhotoShopSection.tsx:113-120 | with an http(s) project URL, normalising twice is normalising once |
| StorageRefs.DirectPhotoUrl | src/components/PhotoShopSection.tsx:122-129 | `image_url ?? thumbnail_url ?? url`, normalised: `image_url` when set, else `thumbnail_url` when set, else `url`; an empty `image_url` hides the other two and gives null; never an empty string |
| StorageRefs.ResolvePhotoUrl | src/components/PhotoShopSection.tsx:131-143 | a non-empty resolved URL wins; otherwise a direct URL wins; otherwise the storage path when it is an http(s) URL, else null; the result is never empty |
| StorageRefs.MatchAtGroups | src/components/PhotoShopSection.tsx:188 | at a match, the bucket group is a non-empty run of `[^/?#]`; the path group is non-empty, has no line terminator and has no '?' after its first character |
| StorageRefs.FindStorageMatchLeftmost | src/components/PhotoShopSection.tsx:188 | `match` returns the groups of the leftmost index where the pattern matches |
| StorageRefs.FindStorageMatchNone | src/components/PhotoShopSection.tsx:188-189 | when `match` finds nothing, the pattern matches at no index |
| StorageRefs.NoMatchInOrigin | src/components/PhotoShopSection.tsx:188 | no match can start inside `https://<host>` when the host has no '/' |
| StorageRefs.MatchOfComposedUrl | src/components/PhotoShopSection.tsx:188 | after `/storage/v1/object/public/`, the pattern reads back the bucket and the path, up to '?' or the end |
| StorageRefs.RefFromUrl | src/components/PhotoShopSection.tsx:187-194 | no match gives null; on the leftmost match, decoding throws iff either group fails to decode; with both decoded, a reference exists iff both trim to non-empty text, and it is the two trimmed decoded groups |
| StorageRefs.RefFromPath | src/components/PhotoShopSection.tsx:196-212 | with a bucket set, that bucket is used and the object path is the path without leading slashes and without one `<bucket>/` in front, a reference existing iff that is non-empty, so the stored path is the object path with or without the bucket in front; without one, a reference exists iff there are two non-empty segments, and it is the first segment plus the rest joined with '/' |
| StorageRefs.ExtractStorageRef | src/components/PhotoShopSection.tsx:180-213 | a blank path gives null; http(s) paths take the URL branch and only they can throw; other paths take the relative branch; references are never blank |
| StorageRefs.RefFromComposedPath | src/components/PhotoShopSection.tsx:196-212 | `<bucket>/<path>` with any number of leading '/' reads back as that bucket and path |
| StorageRefs.ComposedPathIsRelative | src/components/PhotoShopSection.tsx:181-187 | such a stored path has no surrounding whitespace and is not an http(s) URL |
| StorageRefs.RefInBucket | src/components/PhotoShopSection.tsx:197-203 | with a bucket set, the object path is the path without one `<bucket>/` in front, a reference exists iff that is non-empty, and the path is the object path with or without the bucket in front |
| StorageRefs.RefFromSegments | src/components/PhotoShopSection.tsx:206-212 | without a bucket, a reference exists iff the path has two non-empty segments; the bucket is the first and the object path the rest joined with '/' |
| StorageRefs.RefFromPathWithBucket | src/components/PhotoShopSection.tsx:197-203 | with a bucket set, a path stored with or without that bucket in front reads back as the bucket and the path |
| StorageRefs.RefFromPublicUrl | src/components/PhotoShopSection.tsx:187-193 | a public object URL `https://<host>/storage/v1/object/public/<b>/<p>[?query]` reads back as the trimmed decoded `b` and `p` |
| StorageRefs.PublicUrlRejected | src/components/PhotoShopSection.tsx:187-193 | on a public object URL, an undecodable part throws and a part that trims to nothing gives null |
| StorageRefs.PublicUrlMatch | src/components/PhotoShopSection.tsx:188 | the leftmost match in such a URL is exactly `(b, p)` |
| Names.CollapseSpaces | src/components/PhotoShopSection.tsx:230 | `replace(/\s+/g, ' ')` leaves only single plain spaces, keeps non-space ends and empties only the empty text |
| Names.NormalizePersonName | src/components/PhotoShopSection.tsx:228-231 | the result is a normal name (single-spaced, no space at either end), empty for a missing value and empty iff the trimmed input is |
| Names.NormalizeJoinsWords | src/components/PhotoShopSection.tsx:228-231 | the normal form of a name is the input's words, in order and with repeats, joined by single spaces |
| Names.CollapseKeepsPieces | src/components/PhotoShopSection.tsx:230 | collapsing keeps the first piece between whitespace and the words after it |
| Names.CollapsePreservesWords | src/components/PhotoShopSection.tsx:230 | `replace(/\s+/g, ' ')` keeps the words, in order and with repeats |
| Names.NormalNameIsJoinedWords | src/components/PhotoShopSection.tsx:228-231 | a normal name is its words joined by single spaces |
| Names.CollapseSingleSpaced | src/components/PhotoShopSection.tsx:230 | collapsing single-spaced text changes nothing |
| Names.NormalizeNormal | src/components/PhotoShopSection.tsx:228-231 | a normal name is its own normal form |
| Names.NormalizeIdempotent | src/components/PhotoShopSection.tsx:228-231 | normalising twice is normalising once |
| Names.SplitDisplayNameIntoNameParts | src/components/PhotoShopSection.tsx:233-248 | no first name iff the normal form is empty; the first name is one non-empty word; the last name is null iff the normal form has no space, and otherwise is a non-empty normal name |
| Names.NormalPartsFacts | src/components/PhotoShopSection.tsx:239-247 | a normal name is its first word, a space and the rest joined back |
| Names.ResolveProfileDisplayName | src/components/PhotoShopSection.tsx:250-259 | no row gives ""; a non-empty normalised display name wins; otherwise the normalised first and last names joined by a space and trimmed; the result has no space at either end |
| Names.ResolveFromNameParts | src/components/PhotoShopSection.tsx:250-259 | without a display name the result is "first last" when both are set, else whichever one is set, else "" |
| Names.StoredNameParts | src/components/PhotoShopSection.tsx:233-248 | normalising the two halves a name is split into and joining them as the resolver does gives back the name's normal form |
| Names.ResolveSplitName | src/components/PhotoShopSection.tsx:228-259 | storing a name as first and last name and resolving it gives back its normal form |
| Names.JoinedNames | src/components/PhotoShopSection.tsx:258 | the separating space disappears when either part is empty, leaving the other part |
| ShopHelpers.IsDuplicateInsertError | src/components/PhotoShopSection.tsx:215-220 | only an error object with a string message can be a duplicate |
| ShopHelpers.DuplicateCaseInsensitive | src/components/PhotoShopSection.tsx:215-220 | the duplicate test ignores letter case |
| ShopHelpers.DuplicateWordAnywhere | src/components/PhotoShopSection.tsx:215-220 | a message with "duplicate" or "unique" anywhere is a duplicate error; a non-object never is |
| ShopHelpers.ShopPhoto | src/components/PhotoShopSection.tsx:268-288 | the price is 499; no other field changes except the three price ids, which become the demo id exactly when it is non-empty and the first non-null id is missing or empty |
| ShopHelpers.ShopPhotoIdempotent | src/components/PhotoShopSection.tsx:268-288 | normalising a normalised photo changes nothing |
| ShopHelpers.NormalizePhotoForShop | src/components/PhotoShopSection.tsx:268-288 | the copy written field by field equals `ShopPhoto` |
| ShopHelpers.IsPloseParkRow | src/components/PhotoShopSection.tsx:222-226 | a row without a park id or with an empty one is kept, a row of the Plose park is kept, a row of any other park is dropped |
| ShopHelpers.ValidatePloseAccess | src/components/PhotoShopSection.tsx:562-594 | a lookup error other than status 406 is reported; another park's id is a mismatch; the right park is accepted; no row or no park id asks for the assignment |
| ShopHelpers.ParkBindingAgreesWithRowFilter | src/components/PhotoShopSection.tsx:222-226 | when a park is set, login accepts it iff `isPloseParkRow` does |
| ShopHelpers.PhotoWindowFor | src/components/PhotoShopSection.tsx:855-869 | an invalid time gives no window; otherwise the window ends at the selected time and starts seven minutes earlier, but not before the day start |
| ShopHelpers.PhotoWindowWithinDay | src/components/PhotoShopSection.tsx:868-869 | the window lies within the day and lasts at most seven minutes |
| ShopHelpers.RideDateKey | src/components/PhotoShopSection.tsx:109-111 | `ride_date` is used when present, `created_at` only when it is null or undefined |
| Entitlement.UnlockedPhotoIds | src/components/PhotoShopSection.tsx:1962-1970 | exactly the non-empty `photo_id`s of the unlock rows |
| Entitlement.PurchasedPhotoIds | src/components/PhotoShopSection.tsx:1972-1975 | exactly the ids of the purchased photos |
| Entitlement.UnlockedDayKeys | src/components/PhotoShopSection.tsx:1977-1986 | exactly the day keys of unlock rows without a photo id |
| Entitlement.IsPhotoUnlocked | src/components/PhotoShopSection.tsx:2008-2016 | a bought photo is unlocked, and so is one an unlock row names by its non-empty id |
| Entitlement.IsPhotoUnlockedIff | src/components/PhotoShopSection.tsx:2008-2016 | unlocked iff bought, named by an unlock row, or taken on a day a day-pass row covers |
| Entitlement.UnlockMonotone | src/components/PhotoShopSection.tsx:2008-2016 | more purchases or unlock rows never lock a photo again |
| Entitlement.HasTodayDayPass | src/components/PhotoShopSection.tsx:1990-1997 | there is a day pass for today iff today is among the day keys of the day-pass rows that `isPhotoUnlocked` consults |
| Entitlement.DayPassUnlocksToday | src/components/PhotoShopSection.tsx:1990-2016 | with today's day pass, every photo of today is unlocked |
| Entitlement.PurchasedSpeeds | src/components/PhotoShopSection.tsx:2019 | exactly the speeds of the purchased photos that have one |
| Entitlement.MaxOf | src/components/PhotoShopSection.tsx:2021 | `Math.max` of a non-empty list is one of its elements and no element exceeds it |
| Entitlement.MyTopSpeed | src/components/PhotoShopSection.tsx:2018-2022 | null iff no purchased photo has a speed; otherwise the highest speed of a purchased photo |
| Entitlement.PhotoById | src/components/PhotoShopSection.tsx:2025 | the Map built from the purchases holds, per id, a photo with that id |
| Entitlement.RowCandidate | src/components/PhotoShopSection.tsx:2026-2043 | an unlock row yields a candidate only when its photo id is a non-empty string, its day key is today, the purchased photo with that id exists and has a speed; the candidate is that id and speed |
| Entitlement.RowCandidateComplete | src/components/PhotoShopSection.tsx:2026-2043 | a row that meets all four conditions yields exactly its candidate |
| Entitlement.TodayCandidates | src/components/PhotoShopSection.tsx:2026-2043 | every qualifying unlock row yields its candidate, and every candidate is some row's candidate |
| Entitlement.TodayCandidatesSound | src/components/PhotoShopSection.tsx:2026-2043 | each candidate comes from an unlock row of today whose purchased photo has that speed |
| Entitlement.TodayCandidatesAppend | src/components/PhotoShopSection.tsx:2026-2043 | the candidates of two runs of rows are the two candidate lists joined, so the `filter`/`map` keeps row order |
| Entitlement.TodayCandidatesOfRow | src/components/PhotoShopSection.tsx:2026-2043 | a single row gives its candidate or nothing |
| Entitlement.BestIndex | src/components/PhotoShopSection.tsx:2049-2051 | the `reduce` keeps the first candidate of highest speed |
| Entitlement.MyTodayBest | src/components/PhotoShopSection.tsx:2024-2057 | speed and photo id are both null iff there is no candidate; otherwise the first candidate that is at least as fast as every other |
| Entitlement.TodayBestNoneIffNoRow | src/components/PhotoShopSection.tsx:2024-2057 | today's best is null iff no unlock row qualifies |
| Entitlement.TodayBestOverRows | src/components/PhotoShopSection.tsx:2024-2057 | today's best is the candidate of some unlock row and at least the speed of every qualifying row |
| Entitlement.TodayBestBelowTopSpeed | src/components/PhotoShopSection.tsx:2018-2057 | today's best never exceeds the overall best |
| Entitlement.DashboardTopSpeed | src/components/PhotoShopSection.tsx:2335-2341 | null iff all three inputs are null; otherwise one of them, no smaller than any present one |
| Purchases.DedupeOntoIds | src/components/PhotoShopSection.tsx:1347-1353 | the merge keeps every id and adds no other |
| Purchases.DedupeOntoNoDuplicates | src/components/PhotoShopSection.tsx:1347-1353 | the merge never repeats an id |
| Purchases.DedupeOntoFrom | src/components/PhotoShopSection.tsx:1347-1353 | the merge keeps the existing photos in front and takes the rest from the input |
| Purchases.Dedupe | src/components/PhotoShopSection.tsx:1347-1353 | no repeated id, the same ids as the input, only photos of the input |
| Purchases.PushUnseen | src/components/PhotoShopSection.tsx:1349-1353 | the loop builds the merge, and the seen set is exactly its ids |
| Purchases.PendingIds | src/components/PhotoShopSection.tsx:1360-1362 | the marker's ids are exactly its non-empty strings (each such string is kept and nothing else is), none when `photoIds` is not an array |
| Purchases.PendingIdsAppend | src/components/PhotoShopSection.tsx:1360-1362 | the `filter` keeps order and repeats: the ids of two runs of values are the two id lists joined |
| Purchases.PendingIdsOfOne | src/components/PhotoShopSection.tsx:1361 | one value gives its id when it is a non-empty string, nothing otherwise |
| Purchases.Unconfirmed | src/components/PhotoShopSection.tsx:1369 | exactly the ids not yet confirmed |
| Purchases.MarkerActionFor | src/components/PhotoShopSection.tsx:1356-1408 | no marker: keep; unparseable, stale or non-finite: remove; a rewrite happens only for a fresh marker after a successful fetch and holds the unconfirmed ids and the original `createdAt`; a fresh marker with no ids is kept |
| Purchases.UnconfirmedTwice | src/components/PhotoShopSection.tsx:1386-1388 | the ids re-checked after the fetch are exactly the missing ones |
| Purchases.FreshMarkerReconciled | src/components/PhotoShopSection.tsx:1368-1400 | a fresh marker is removed iff all its ids are confirmed; otherwise it is rewritten with exactly the unconfirmed ids and its `createdAt` |
| Purchases.ReconcilePurchased | src/components/PhotoShopSection.tsx:1347-1408 | the purchased photos never repeat an id and keep every confirmed id; the marker decision is `MarkerActionFor` |
| Purchases.ShopPhotos | src/components/PhotoShopSection.tsx:1383 | each photo is normalised for the shop |
| Cart.NoCommaUnchanged | src/components/PhotoShopSection.tsx:2355 | `replace(',', '.')` leaves text without a comma alone |
| Cart.FirstCommaReplaced | src/components/PhotoShopSection.tsx:2355 | only the first comma becomes a point |
| Cart.PositiveCents | src/components/PhotoShopSection.tsx:2349-2360 | a finite number counts only when it rounds to a positive integer, and then it is that integer; a string is read with `Number()` after its first comma becomes a point and its blanks are trimmed, under the same rule; anything else does not count |
| Cart.CartItemUnitCents | src/components/PhotoShopSection.tsx:2343-2364 | always ≥ 1: the photo's positive price, else the row's, else 499 |
| Cart.CartItemQuantityAsWritten | src/components/PhotoShopSection.tsx:2366-2378 | a positive finite number is rounded (so it may give 0); a string is read with `Number()` as it stands and rounded when positive and finite; every other value gives 1 |
| Cart.QuarterQuantityCountsZero | src/components/PhotoShopSection.tsx:2368-2370 | a quantity of 0.25 counts as 0 in the cart but as 1 at checkout |
| Cart.CartItemQuantity | src/components/PhotoShopSection.tsx:2366-2378 | the corrected quantity is always ≥ 1 and agrees with the code wherever the code gives ≥ 1 |
| Cart.LineCents | src/components/PhotoShopSection.tsx:2383-2385 | the code's row price: 0 exactly when the quantity as written is 0, otherwise at least the unit price |
| Cart.SumLines | src/components/PhotoShopSection.tsx:2382-2386 | the code's sum of the row prices is never negative and is 0 exactly when every row's quantity rounds to 0 |
| Cart.CartTotalCents | src/components/PhotoShopSection.tsx:2380-2388 | the total the cart shows: a queued day pass adds exactly 1499; without it the total is 0 exactly when every row is free |
| Cart.IntendedLineCents | src/components/PhotoShopSection.tsx:2383-2385 | the corrected row price is at least the unit price, equals the code's price when the quantity as written is ≥ 1 and is the unit price when that quantity is 0 |
| Cart.IntendedLineIsUnitTimesQuantity | src/components/PhotoShopSection.tsx:2383-2385 | the corrected row price is the unit price times the corrected quantity |
| Cart.IntendedSumLines | src/components/PhotoShopSection.tsx:2382-2386 | the corrected sum is at least one cent per row |
| Cart.IntendedTotalCents | src/components/PhotoShopSection.tsx:2380-2388 | the corrected total: at least one cent per row, plus exactly 1499 for a queued day pass |
| Cart.IntendedSumCoversSum | src/components/PhotoShopSection.tsx:2382-2386 | the corrected sum is never below the code's sum and equals it when no quantity rounds to 0 |
| Cart.IntendedTotalCoversAsWritten | src/components/PhotoShopSection.tsx:2380-2388 | the corrected total is never below the code's total and equals it when no quantity rounds to 0 |
| Cart.QuarterRowTotals | src/components/PhotoShopSection.tsx:2368-2388 | a one-row cart with quantity 0.25 shows a total of 0, while the corrected total is the row's unit price |
| Cart.SumLinesAppend | src/components/PhotoShopSection.tsx:2382-2386 | the sum over two lists of rows is the sum of the two sums |
| Cart.AddedRowAddsItsPrice | src/components/PhotoShopSection.tsx:2380-2388 | one more row adds exactly its price to the total |
| Cart.ToPositiveInt | src/components/PhotoShopSection.tsx:2747-2761 | the rounded value when it is positive, else the fallback, so a positive fallback always gives a positive result |
| Cart.CheckoutPriceCandidate | src/components/PhotoShopSection.tsx:2764 | `item.photo?.price_cents ?? 499`: never nullish, the photo's price when it has one, else 499 |
| Cart.CheckoutQuantity | src/components/PhotoShopSection.tsx:2747-2766 | at least 1: a finite number rounded when that is positive, a numeric string with its first comma replaced rounded when positive, 1 otherwise |
| Cart.PhotoLine | src/components/PhotoShopSection.tsx:2763-2786 | each cart row's line sells that photo with unit amount ≥ 1 and quantity ≥ 1 |
| Cart.CheckoutLinesPositive | src/components/PhotoShopSection.tsx:2763-2803 | every checkout line has an amount and a quantity of at least 1 |
| Cart.CheckoutLines | src/components/PhotoShopSection.tsx:2763-2803 | one line per row in cart order, then the day pass at 1499 × 1 when queued |
| Cart.FirstInvalidLine | src/components/PhotoShopSection.tsx:2805-2813 | `find` gives a line failing the amount check, or none fails |
| Cart.PlanCheckout | src/components/PhotoShopSection.tsx:2677-2825 | sign-in, session and empty-cart gates in that order; the amount check never fires; the request carries `CheckoutLines` |
| Cart.CheckoutPriceMatchesCart | src/components/PhotoShopSection.tsx:2343-2364 | a photo priced by the storefront is charged at checkout what the cart shows |
| Cart.CheckoutQuantityMatchesCart | src/components/PhotoShopSection.tsx:2366-2378 | for a numeric quantity, checkout and the corrected cart quantity agree; the code as written differs only where it rounds to 0 |
| Cart.AddToCartDecision | src/components/PhotoShopSection.tsx:2542-2598 | auth_required, then already_purchased, then day_pass_in_cart, then "already in cart" as success; a duplicate insert counts as success |
| Cart.Toggled | src/components/PhotoShopSection.tsx:2494-2532 | toggling flips the photo's membership and nothing else |
| Cart.ToggleTwice | src/components/PhotoShopSection.tsx:2479-2540 | two successful toggles restore the favourites |
| Cart.ShopCart.Total | src/components/PhotoShopSection.tsx:2380-2388 | the cart's total as written is never negative, includes the day pass's 1499 when queued, and without it is 0 exactly when every row's quantity rounds to 0 |
| Cart.ShopCart.constructor | src/components/PhotoShopSection.tsx:2542 | an empty cart, no day pass, no favourites |
| Cart.ShopCart.AddToCart | src/components/PhotoShopSection.tsx:2542-2598 | the outcome is `AddToCartDecision`; only an insert that goes through reloads the rows |
| Cart.ShopCart.RemoveFromCart | src/components/PhotoShopSection.tsx:2600-2621 | a failed delete leaves the cart alone; a successful one reloads the rows |
| Cart.ShopCart.AddDayPassToCart | src/components/PhotoShopSection.tsx:2623-2667 | queues the day pass unless signed out or already bought today; photo rows are deleted first, and a failed delete queues nothing |
| Cart.ShopCart.RemoveDayPassFromCart | src/components/PhotoShopSection.tsx:2669-2675 | un-queues the day pass and changes nothing else |
| Cart.ShopCart.ToggleFavorite | src/components/PhotoShopSection.tsx:2479-2540 | a successful write toggles the photo; a failed one changes nothing and reports the matching message |
| Ranking.WithSpeedAppend | src/components/PhotoShopSection.tsx:2301-2306 | the rows with one speed, taken from two lists, are those of each list in turn |
| Ranking.InsertPermutes | src/components/PhotoShopSection.tsx:2301-2306 | inserting adds exactly the one row |
| Ranking.InsertSorted | src/components/PhotoShopSection.tsx:2301-2306 | inserting into a sorted list keeps it sorted |
| Ranking.SortBySpeed | src/components/PhotoShopSection.tsx:2301-2306 | the sort is a permutation and sorted by descending speed, a non-number counting as 0 |
| Ranking.InsertStable | src/components/PhotoShopSection.tsx:2301-2306 | the inserted row goes behind every row of equal speed |
| Ranking.SortStable | src/components/PhotoShopSection.tsx:2301-2306 | rows of equal speed keep their input order |
| Ranking.SortSortedIdentity | src/components/PhotoShopSection.tsx:1678-1682 | sorting sorted rows changes nothing |
| Ranking.InsertLast | src/components/PhotoShopSection.tsx:2301-2306 | a row no faster than every row goes to the end |
| Ranking.Take | src/components/PhotoShopSection.tsx:2307 | `slice(0, n)` is the prefix of length `min(n, |s|)` |
| Ranking.Ranked | src/components/PhotoShopSection.tsx:2308-2311 | `rank_position` = index + 1, nothing else changes |
| Ranking.TodayRows | src/components/PhotoShopSection.tsx:1590-1595 | exactly the rows whose `toDateKey(ride_date ?? created_at)` is today |
| Ranking.TopToday | src/components/PhotoShopSection.tsx:1588-1601 | at most `cap` rows, sorted, all of today |
| Ranking.TopTodayKeepsFastest | src/components/PhotoShopSection.tsx:1588-1601 | a row of today left out means `cap` rows were kept, each at least as fast |
| Leaderboard.OrString | src/components/PhotoShopSection.tsx:1675 | `a || b` on strings |
| Leaderboard.LastUserIndex | src/components/PhotoShopSection.tsx:1636-1640 | `Map.set` keeps the last row per id |
| Leaderboard.UserFor | src/components/PhotoShopSection.tsx:1628-1648 | no user for a failed users query or a missing id; otherwise the last row with that id |
| Leaderboard.ResolveEntryDisplayName | src/components/PhotoShopSection.tsx:1644-1658 | never blank: the row's name, the user's display name, the user's full name, or "Fahrer/in", whichever is first non-empty |
| Leaderboard.AvatarCandidate | src/components/PhotoShopSection.tsx:1662-1675 | the user's trimmed avatar, else the row's, else null |
| Leaderboard.Enrich | src/components/PhotoShopSection.tsx:1660-1677 | only name and avatar change, every name is non-empty, speeds are kept |
| Leaderboard.LoadLeaderboard | src/components/PhotoShopSection.tsx:1517-1686 | a failed query shows its error unless a guest has cached rows; a guest retry replaces the first read |
| Leaderboard.LoadedRanking | src/components/PhotoShopSection.tsx:1588-1686 | the loaded ranking is today's first twenty, enriched, fastest first and numbered |
| Leaderboard.ProfileName | src/components/PhotoShopSection.tsx:2263-2269 | the trimmed form name, else (with a profile) the trimmed stored name, else the trimmed first and last names joined and trimmed; "" without a form name and without a profile |
| Leaderboard.ProfileAvatarCandidate | src/components/PhotoShopSection.tsx:2271-2274 | the trimmed form avatar, else the trimmed stored one; null exactly when both are empty; never empty |
| Leaderboard.FirstUserIndex | src/components/PhotoShopSection.tsx:2277 | `findIndex` gives the first row of the user, or -1 |
| Leaderboard.OwnRowPatched | src/components/PhotoShopSection.tsx:2278-2286 | speed max(existing, today), a missing speed counting as 0; the row's own non-empty name and avatar are kept |
| Leaderboard.Overlaid | src/components/PhotoShopSection.tsx:2263-2298 | without a user or a speed today nothing changes; otherwise the first own row is patched, or exactly one local row is appended |
| Leaderboard.OwnRow | src/components/PhotoShopSection.tsx:2277-2298 | the overlay always holds a row of the rider at least as fast as today's best |
| Leaderboard.OverlayOwnRow | src/components/PhotoShopSection.tsx:2261-2299 | the `findIndex` scan and the patch or push leave exactly the overlay `Overlaid` describes |
| Leaderboard.EffectiveLeaderboard | src/components/PhotoShopSection.tsx:2260-2312 | overlay, stable sort, first twenty, numbered |
| Leaderboard.TakeSortedKeepsFastest | src/components/PhotoShopSection.tsx:2301-2307 | a row cut off means twenty rows at least as fast were kept |
| Leaderboard.LeaderboardOwnTopSpeed | src/components/PhotoShopSection.tsx:2328-2333 | the speed of the rider's FIRST row (`.find`), null when that row has none, without a user or without such a row |
| Leaderboard.FirstOwnRowFastest | src/components/PhotoShopSection.tsx:2328-2333 | in sorted rows the rider's first row is the rider's fastest |
| Leaderboard.OwnTopSpeedAtLeastToday | src/components/PhotoShopSection.tsx:2260-2333 | the ranking reports for the rider at least today's best, unless twenty rows at least as fast push the rider out |
| Leaderboard.NullIfEmpty | src/components/PhotoShopSection.tsx:2165 | `displayName || null` |
| Leaderboard.NextSpeed | src/components/PhotoShopSection.tsx:2143-2145 | the larger of the stored speed and today's best |
| Leaderboard.PlanSync | src/components/PhotoShopSection.tsx:2139-2216 | no-op iff a stored row is up to date; update to max(existing, today) with the speed sent only when it changes; insert iff no stored row and a speed exists; profile columns only when they can be stored |
| Leaderboard.PatchEntries | src/components/PhotoShopSection.tsx:2176-2187 | after an update only the rows with that id change: new speed, today's best photo id or else the old one, and, when the profile snapshot may be stored, the display name (null when empty) and the avatar URL, which otherwise stay; id, user, park, rank, ride date and creation time never change |
| Leaderboard.SyncStep | src/components/PhotoShopSection.tsx:2061-2248 | an unchanged key or a missing client or user does nothing; the rows change only by a patch or one row in front carrying today's speed |
| Leaderboard.SyncUpdateRaisesSpeed | src/components/PhotoShopSection.tsx:2139-2192 | a faster speed today reaches every local row of the stored row |
| Leaderboard.SyncInsertsOnlyWithSpeed | src/components/PhotoShopSection.tsx:2198-2238 | with no stored row, no speed means no row; a speed means exactly one row in front |
| Leaderboard.LeaderboardSync.constructor | src/components/PhotoShopSection.tsx:2061 | no key synchronised yet, profile columns unknown |
| Leaderboard.LeaderboardSync.Sync | src/components/PhotoShopSection.tsx:2061-2248 | the refs and rows change as `SyncStep` says |
| Landing.CountdownSeconds | src/App.tsx:319 | any time below one second, negative ones included, gives 0 |
| Landing.FormatCountdown | src/App.tsx:318-324 | `hh:mm:ss` that reads back as the whole seconds left, minutes and seconds below 60 |
| Landing.CountdownSecondsBound | src/App.tsx:319 | for a non-negative time, the whole seconds left |
| Landing.Pad2 | src/App.tsx:323 | at least two digits reading back as the number, exactly two below 100 |
| Landing.CountdownBelowOneSecond | src/App.tsx:318-323 | below one second the countdown is "00:00:00" |
| Landing.ClockReadsBack | src/App.tsx:318-324 | minutes and seconds are two digits below 60, hours at least two digits, and h×3600 + m×60 + s is the whole seconds |
| Landing.AvatarBucket | src/App.tsx:10-11 | the trimmed setting, else "avatars"; never empty |
| Landing.AvatarPathSplit | src/App.tsx:274-283 | fewer than two segments: (avatar bucket, whole path); otherwise the rest joined is the object and the bucket is the first segment (the avatar bucket when that segment names it) |
| Landing.AvatarSingleSegment | src/App.tsx:274-283 | a single segment is an object of the avatar bucket |
| Landing.AvatarComposedPath | src/App.tsx:274-283 | `<bucket>/<object>` reads back as that bucket and object, the avatar bucket included |
| Landing.AvatarRefFor | src/App.tsx:263-285 | empty, "://" and `storage/v1/` paths give none; on a match it throws iff a group fails to decode, and otherwise the bucket is the trimmed decoded first group (the avatar bucket when blank) and the object the trimmed decoded second group (the path when blank); without a match, the path split |
| Landing.PublicAvatarUrl | src/App.tsx:288 | the public URL normalised: http(s) URLs kept, the URL at its end |
| Landing.ResolveAvatarUrl | src/App.tsx:252-289 | blank gives ""; an http(s) URL or no client gives the normalised input; otherwise the public URL of the reference, or the normalised input |
| Landing.PublicDisplayName | src/App.tsx:484-494 | never empty: the row's trimmed name unless it is empty or a placeholder, else the user's display name, else the user's full name, else `Fahrer/in <index+1>`; each step of the chain is stated for both a missing and a present user |
| Landing.PublicRows | src/App.tsx:484-505 | only name, avatar and position change; positions are index + 1; names are non-empty; speeds are kept |
| Landing.LoadPublicRanking | src/App.tsx:404-520 | the error text shows iff the query used failed and nothing is cached |
| Landing.PublicRankingShape | src/App.tsx:441-453 | a successful query shows at most ten rows of today, fastest first, numbered |
| Landing.PublicRowsSorted | src/App.tsx:484-505 | filling in names and positions keeps the order |
| Landing.PublicRowsFromToday | src/App.tsx:441-505 | every row shown is a row of today with only name, avatar and position filled in |
| Landing.PublicTopIsStorefrontPrefix | src/App.tsx:441-453 | the landing page's ten are the first ten of the storefront's twenty |
| Landing.FailedRankingFallsBack | src/App.tsx:415-439 | a failed query shows the cached rows, or the error text when none are cached |
| Landing.IsPlaceholderName | src/App.tsx:491-492 | a placeholder is the literal alone or followed by whitespace, and never ends in whitespace (the pattern is anchored) |
| Landing.NumberedNameIsPlaceholder | src/App.tsx:491-492 | `Fahrer/in <n>` matches the placeholder pattern |
| Landing.PlaceholderRenumbered | src/App.tsx:484-494 | a row under a generated name and no user is shown under its current position |
| Landing.TranslateText | src/App.tsx:176-184 | German is kept; otherwise every row of the language's table is applied in order |
| Landing.TranslatedAppend | src/App.tsx:180-182 | applying a table in two parts is applying it whole |
| Landing.TranslatedUnmatched | src/App.tsx:180-182 | a text that no row changes comes back unchanged |
| Account.ErrorCode | src/components/PhotoShopSection.tsx:3296-3321 | an error code is shown exactly for the three refusals |
| Account.DeleteAccountGate | src/components/PhotoShopSection.tsx:3290-3330 | ignored without a client or a user; then otp_required, email_mismatch (case-insensitive) and confirmation_phrase in that order; the request carries the account e-mail, the code, and the reason only when it is not empty |
| Account.AnyCaseDeletePasses | src/components/PhotoShopSection.tsx:3314 | "delete" in any case, with whitespace around it, passes the phrase gate |
| Account.ProceedConfirmed | src/components/PhotoShopSection.tsx:3296-3321 | a request is only built after the code, an e-mail of the account's length, and a phrase trimming to "delete" in some case |

## Left out

- Backend calls (auth, table reads and writes, storage signing, public URLs, function invokes, re-authentication and code verification) are not modelled; their results are inputs.
- `new Date(...)` parsing, `toISOString`, `Intl.DateTimeFormat`, `dateKeyInTimeZone` and `countdownToResetAt7` are runtime and time-zone behaviour: the parsed day key is a function parameter and today's park key an input.
- `decodeURIComponent` is an input that may fail (a URIError); `Number()` on a string and the regular-expression replace of the translation tables are inputs too.
- The contents of the English and Italian translation tables are data, not logic; they are parameters.
- `applyLanguageToDom`, the DOM caches, rendering, timers, the checkout-return polling and liveness flags are DOM- and timer-driven.
- Local-storage caches (guest leaderboard, day-pass flag, pending marker, language) are plain values: the cached rows and the marker are inputs, and writing them back is not modelled.
- `hydratePhotoUrls` is not modelled: it is driven by the storage service's signing answers. The decisions it uses (`directPhotoUrl`, `extractStorageRef`, `normalizeToAbsoluteUrl`) are.
- `resolveAvatarUrlValue` in the storefront needs the storage client's public URLs, so the ranking takes it as a parameter; the landing page's `resolveAvatarUrl` is modelled.
- `formatPrice`, `formatPhotoDateTime` and `toFixed` are currency and floating-point formatting.
- The effect that clears the queued day pass once today's day pass is bought is not modelled; the handler guard it backs up is.
- Ranking.SortBySpeed: modelled on a sequence (an insertion sort, which is stable as `Array.prototype.sort` is), not as an in-place sort of an array.
- Text.LowerAscii: case mapping covers ASCII letters only; it decides only comparisons with ASCII words ("delete", "duplicate", "unique", "fahrer/in") and e-mail equality.
- Landing.CountdownSeconds: a NaN or infinite `diffMs` is not modelled; the clock is finite.
- JsValues.Round: speeds and prices are exact reals, so floating-point rounding of sums and of `speed / 100` is not modelled.
- Cart.CheckoutQuantityMatchesCart: proved only for quantities that are not strings, because a string quantity is read with `Number()` without the comma replacement in the cart but with it at checkout.
- Leaderboard.SyncStep: the sync key is an input; how it is built from the rider's data (including `toFixed(2)`) is not modelled.
- Leaderboard.LoadLeaderboard: the row limit of 200 and the query order are the backend's; the rows returned are an input.
- Purchases.ReconcilePurchased: how the purchased photos are read from unlock rows and purchase items is backend plumbing; the two lists are inputs.

## Findings

| source | as written | input that shows it | evidently intended | confidence | as-written member | corrected member |
|---|---|---|---|---|---|---|
| src/components/PhotoShopSection.tsx:2368-2370 | `cartItemQuantity` rounds any positive quantity, so a quantity in (0, 0.5) counts 0 pieces and the row adds nothing to the cart total | a cart row with `quantity` 0.25: the cart shows it for free, while checkout's `toPositiveInt(item.quantity, 1)` charges one | a rounded quantity that is not positive counts as 1, as at checkout, so every row costs at least its unit price | not executed | Cart.QuarterRowTotals | Cart.IntendedTotalCents |
