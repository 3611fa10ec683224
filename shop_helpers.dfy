/** Small decisions of the storefront component
    (src/components/PhotoShopSection.tsx): the duplicate-insert test, the
    park filter, the storefront price override, the park binding checked
    at login, the photo time window and a ride's day key. */
module ShopHelpers {
  import opened JsValues
  import opened Text
  import opened ShopTypes
  import opened ShopUtils

  /** The unified storefront price of one photo, in cents. */
  const PhotoPriceCents: int := 499

  // ---------------------------------------------------------------------
  // isDuplicateInsertError

  /** `isDuplicateInsertError`: an error object whose lower-cased message
      mentions "duplicate" or "unique". */
  predicate IsDuplicateInsertError(error: Thrown, duplicateWord: string, uniqueWord: string)
    requires duplicateWord == "duplicate" && uniqueWord == "unique"
    ensures IsDuplicateInsertError(error, duplicateWord, uniqueWord) ==> error.ErrorObject? && error.message.Some?
  {
    error.ErrorObject? && error.message.Some?
    && (Contains(LowerAscii(error.message.value), duplicateWord)
        || Contains(LowerAscii(error.message.value), uniqueWord))
  }

  /** The test ignores letter case. */
  lemma DuplicateCaseInsensitive(message: string, code: Option<string>, d: string, u: string)
    requires d == "duplicate" && u == "unique"
    ensures IsDuplicateInsertError(ErrorObject(Some(UpperAscii(message)), code), d, u)
        <==> IsDuplicateInsertError(ErrorObject(Some(message), code), d, u)
  {
    assert LowerAscii(UpperAscii(message)) == LowerAscii(message) by {
      forall k | 0 <= k < |message|
        ensures LowerAscii(UpperAscii(message))[k] == LowerAscii(message)[k]
      {
        var c := message[k];
        assert LowerChar(UpperChar(c)) == LowerChar(c);
      }
    }
  }

  /** A message that contains one of the words anywhere is a duplicate
      error; something that is not an object never is. */
  lemma DuplicateWordAnywhere(before: string, word: string, after: string, code: Option<string>, d: string, u: string)
    requires d == "duplicate" && u == "unique"
    requires word == d || word == u
    ensures IsDuplicateInsertError(ErrorObject(Some(before + word + after), code), d, u)
    ensures !IsDuplicateInsertError(NonObject, d, u)
  {
    NoUpper(word);
    LoweredWordInside(before, word, after);
  }

  /** A word without upper-case letters is found in the lower-cased text
      around it. */
  lemma LoweredWordInside(before: string, word: string, after: string)
    requires LowerAscii(word) == word
    ensures Contains(LowerAscii(before + word + after), word)
  {
    LoweredWordAt(before, word, after);
    ContainsAt(LowerAscii(before + word + after), |before|, word);
  }

  /** Lower-casing works character by character, so a lower-case word
      stays where it was. */
  lemma LoweredWordAt(before: string, word: string, after: string)
    requires LowerAscii(word) == word
    ensures |before| <= |LowerAscii(before + word + after)|
    ensures StartsWith(LowerAscii(before + word + after)[|before|..], word)
  {
    var t := before + word + after;
    var l := LowerAscii(t);
    forall k | 0 <= k < |word| ensures l[|before|..][k] == word[k] {
      assert t[|before| + k] == word[k];
      assert LowerChar(word[k]) == LowerAscii(word)[k];
    }
    assert l[|before|..][..|word|] == word;
  }

  /** The two words have no upper-case letter. */
  lemma NoUpper(w: string)
    requires w == "duplicate" || w == "unique"
    ensures LowerAscii(w) == w
  {
    assert forall k :: 0 <= k < |w| ==> LowerChar(w[k]) == w[k];
  }

  lemma {:induction false} ContainsAt(s: string, i: nat, part: string)
    requires i <= |s| && StartsWith(s[i..], part)
    ensures Contains(s, part)
  {
    if i > 0 {
      assert s[1..][i - 1..] == s[i..];
      ContainsAt(s[1..], i - 1, part);
    }
  }

  // ---------------------------------------------------------------------
  // isPloseParkRow

  /** `isPloseParkRow`: rows without a (non-empty, string) park id belong to
      every park. */
  predicate IsPloseParkRow(rowParkId: Option<string>, ploseParkId: string)
    ensures rowParkId.None? || rowParkId == Some("") ==> IsPloseParkRow(rowParkId, ploseParkId)
    ensures rowParkId == Some(ploseParkId) ==> IsPloseParkRow(rowParkId, ploseParkId)
    ensures rowParkId.Some? && rowParkId.value != "" && rowParkId.value != ploseParkId ==>
      !IsPloseParkRow(rowParkId, ploseParkId)
  {
    rowParkId.None? || rowParkId.value == "" || rowParkId.value == ploseParkId
  }

  // ---------------------------------------------------------------------
  // normalizePhotoForShop

  /** The price id the photo already carries: the first non-null of
      `price_id`, `stripe_price_id` and `stripePriceId`. */
  function ExistingPriceId(photo: Photo): Option<string> {
    photo.price_id.OrElse(photo.stripe_price_id).OrElse(photo.stripePriceId)
  }

  /** Whether the demo price id is written into the photo. */
  predicate NeedsDemoPrice(photo: Photo, demoPriceId: string) {
    demoPriceId != "" && (ExistingPriceId(photo).None? || ExistingPriceId(photo).value == "")
  }

  /** The photo as the storefront shows it: price 499 cents, and the demo
      price id in all three price-id fields when none is present. */
  function ShopPhoto(photo: Photo, demoPriceId: string): (r: Photo)
    ensures r.price_cents == NumVal(Finite(PhotoPriceCents as real))
    ensures r.(price_cents := photo.price_cents, price_id := photo.price_id,
               stripe_price_id := photo.stripe_price_id, stripePriceId := photo.stripePriceId) == photo
    ensures NeedsDemoPrice(photo, demoPriceId) ==>
      r.price_id == r.stripe_price_id == r.stripePriceId == Some(demoPriceId)
    ensures !NeedsDemoPrice(photo, demoPriceId) ==>
      r.price_id == photo.price_id && r.stripe_price_id == photo.stripe_price_id
      && r.stripePriceId == photo.stripePriceId
  {
    var priced := photo.(price_cents := NumVal(Finite(PhotoPriceCents as real)));
    if NeedsDemoPrice(photo, demoPriceId) then
      priced.(price_id := Some(demoPriceId), stripe_price_id := Some(demoPriceId), stripePriceId := Some(demoPriceId))
    else priced
  }

  /** Normalising a photo that is already normalised changes nothing. */
  lemma ShopPhotoIdempotent(photo: Photo, demoPriceId: string)
    ensures ShopPhoto(ShopPhoto(photo, demoPriceId), demoPriceId) == ShopPhoto(photo, demoPriceId)
  {
    var once := ShopPhoto(photo, demoPriceId);
    if NeedsDemoPrice(photo, demoPriceId) {
      assert ExistingPriceId(once) == Some(demoPriceId);
    }
  }

  /** `normalizePhotoForShop`: writes the price and, when needed, the demo
      price id into a copy of the photo. */
  method NormalizePhotoForShop(photo: Photo, demoPriceId: string) returns (normalized: Photo)
    ensures normalized == ShopPhoto(photo, demoPriceId)
  {
    normalized := photo;
    normalized := normalized.(price_cents := NumVal(Finite(PhotoPriceCents as real)));
    if demoPriceId != "" {
      var existingPriceId := normalized.price_id.OrElse(normalized.stripe_price_id).OrElse(normalized.stripePriceId);
      if existingPriceId.None? || existingPriceId.value == "" {
        normalized := normalized.(price_id := Some(demoPriceId));
        normalized := normalized.(stripe_price_id := Some(demoPriceId));
        normalized := normalized.(stripePriceId := Some(demoPriceId));
      }
    }
  }

  // ---------------------------------------------------------------------
  // Park binding at login

  /** The outcome of `validatePloseAccessOnLogin`: an error, a request to
      assign the user to the park (the upsert whose own result is then
      returned), or acceptance. */
  datatype ParkCheck =
    | ClientMissing
    | LookupFailed(error: ApiError)
    | ParkMismatch(currentParkId: string)
    | AssignPark
    | Accepted

  /** `validatePloseAccessOnLogin`, given the users-table lookup: its error
      and HTTP status, and the row found (with its `park_id`). */
  function ValidatePloseAccess(clientConfigured: bool, lookupError: Option<Thrown>, status: int,
                               row: Option<Option<string>>, ploseParkId: string): (r: ParkCheck)
    ensures !clientConfigured ==> r == ClientMissing
    ensures r.LookupFailed? <==> clientConfigured && lookupError.Some? && status != 406
    ensures r.ParkMismatch? ==>
      row == Some(Some(r.currentParkId)) && r.currentParkId != "" && r.currentParkId != ploseParkId
    ensures r == Accepted <==>
      clientConfigured && (lookupError.None? || status == 406) && row == Some(Some(ploseParkId)) && ploseParkId != ""
    ensures r == AssignPark <==>
      clientConfigured && (lookupError.None? || status == 406)
      && (row.None? || row.value.None? || row.value.value == "")
  {
    if !clientConfigured then ClientMissing
    else if lookupError.Some? && status != 406 then
      LookupFailed(ToApiError(lookupError.value, "Park-Zuordnung konnte nicht geprüft werden."))
    else if row.Some? && row.value.Some? && row.value.value != "" && row.value.value != ploseParkId then
      ParkMismatch(row.value.value)
    else if row.None? || row.value.None? || row.value.value == "" then AssignPark
    else Accepted
  }

  /** A successful lookup accepts the user exactly when the row's park is
      one `isPloseParkRow` accepts and is set. */
  lemma ParkBindingAgreesWithRowFilter(row: Option<string>, ploseParkId: string)
    requires ploseParkId != ""
    ensures ValidatePloseAccess(true, None, 200, Some(row), ploseParkId) != AssignPark ==>
      (ValidatePloseAccess(true, None, 200, Some(row), ploseParkId) == Accepted <==> IsPloseParkRow(row, ploseParkId))
  {
  }

  // ---------------------------------------------------------------------
  // The photo time window

  /** Milliseconds in the window before the selected time. */
  const WindowMs: real := 420000.0

  datatype PhotoWindow = InvalidTime | Window(start: real, end: real)

  /** The window of photos shown for a selected day and time, from the
      parsed day start and range end (`None` for an invalid date): seven
      minutes before the end, but never before the start of the day. */
  function PhotoWindowFor(dayStart: Option<real>, rangeEnd: Option<real>): (r: PhotoWindow)
    ensures rangeEnd.None? <==> r == InvalidTime
    ensures r.Window? ==> r.end == rangeEnd.value
    ensures r.Window? ==> r.start >= r.end - WindowMs
    ensures r.Window? && dayStart.Some? ==> r.start >= dayStart.value
    ensures r.Window? ==> r.start == r.end - WindowMs || (dayStart.Some? && r.start == dayStart.value)
  {
    if rangeEnd.None? then InvalidTime
    else
      var computedStart := rangeEnd.value - WindowMs;
      var rangeStart := if dayStart.Some? && computedStart < dayStart.value then dayStart.value else computedStart;
      Window(rangeStart, rangeEnd.value)
  }

  /** When the day starts no later than the selected end, the window lies
      within the day and is at most seven minutes long. */
  lemma PhotoWindowWithinDay(dayStart: real, rangeEnd: real)
    requires dayStart <= rangeEnd
    ensures var w := PhotoWindowFor(Some(dayStart), Some(rangeEnd));
      dayStart <= w.start <= w.end && w.end - w.start <= WindowMs
  {
  }

  // ---------------------------------------------------------------------
  // rideDateKey

  /** `rideDateKey`: the day of `ride_date`, or of `created_at` when the
      ride date is null or undefined. */
  function RideDateKey(ride: Ride, parse: DateParser): (r: Option<string>)
    ensures ride.ride_date.Some? ==> r == ToDateKey(ride.ride_date, parse)
    ensures ride.ride_date.None? ==> r == ToDateKey(ride.created_at, parse)
    ensures r.Some? ==> |r.value| == 10
  {
    ToDateKey(ride.ride_date.OrElse(ride.created_at), parse)
  }
}
