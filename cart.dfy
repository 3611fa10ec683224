/** The storefront's cart (src/components/PhotoShopSection.tsx): the price and
    quantity of a cart row, the cart total, the checkout items built from the
    cart, and the handlers that change the cart, the queued day pass and the
    favourites. */
module Cart {
  import opened JsValues
  import opened Text
  import opened ShopTypes
  import opened ShopUtils
  import opened ShopHelpers

  /** The price of the day pass, in cents. */
  const DayPassPriceCents: int := 1499

  /** `Number(text)`: JavaScript's string-to-number conversion, defined by
      the language runtime. */
  type NumberParser = string -> Num

  /** `s.replace(',', '.')`: only the first comma is replaced. */
  function ReplaceFirstComma(s: string): (r: string)
    ensures |r| == |s|
  {
    if s == [] then []
    else if s[0] == ',' then ['.'] + s[1..]
    else [s[0]] + ReplaceFirstComma(s[1..])
  }

  /** Without a comma the text is unchanged. */
  lemma {:induction false} NoCommaUnchanged(s: string)
    requires ',' !in s
    ensures ReplaceFirstComma(s) == s
  {
    if s != [] {
      assert ',' !in s[1..];
      NoCommaUnchanged(s[1..]);
    }
  }

  /** The first comma becomes a point; everything before and after it is
      kept, later commas included. */
  lemma {:induction false} FirstCommaReplaced(s: string, c: nat)
    requires c < |s| && s[c] == ',' && ',' !in s[..c]
    ensures ReplaceFirstComma(s) == s[..c] + "." + s[c + 1..]
  {
    if c > 0 {
      assert s[0] != ',' by { assert s[0] == s[..c][0]; }
      assert s[1..][..c - 1] == s[1..c];
      assert ',' !in s[1..][..c - 1];
      FirstCommaReplaced(s[1..], c - 1);
      assert s[..c] == [s[0]] + s[1..][..c - 1];
      assert s[1..][c..] == s[c + 1..];
    }
  }

  /** One candidate of `cartItemUnitCents`: a finite number, or a string
      that reads as one once a comma becomes a point, rounded; kept only
      when positive. */
  function PositiveCents(candidate: Loose, parse: NumberParser): (r: Option<int>)
    ensures r.Some? ==> r.value > 0
    ensures candidate.NumVal? && candidate.n.Finite? ==>
      (r.Some? <==> Round(candidate.n.v) > 0) && (r.Some? ==> r.value == Round(candidate.n.v))
    ensures candidate.Absent? || candidate.OtherVal? || (candidate.NumVal? && !candidate.n.Finite?) ==> r.None?
    ensures candidate.StrVal? ==>
      var parsed := parse(Trim(ReplaceFirstComma(candidate.s)));
      (r.Some? <==> parsed.Finite? && Round(parsed.v) > 0) && (r.Some? ==> r.value == Round(parsed.v))
  {
    match candidate
    case NumVal(n) =>
      if n.Finite? && Round(n.v) > 0 then Some(Round(n.v)) else None
    case StrVal(s) =>
      var parsed := parse(Trim(ReplaceFirstComma(s)));
      if parsed.Finite? && Round(parsed.v) > 0 then Some(Round(parsed.v)) else None
    case _ => None
  }

  /** `item.photo?.price_cents`. */
  function PhotoPriceCandidate(item: CartItem): Loose {
    if item.photo.Some? then item.photo.value.price_cents else Absent
  }

  /** `cartItemUnitCents`: the photo's price, else the row's own price, else
      499. */
  function CartItemUnitCents(item: CartItem, parse: NumberParser): (r: int)
    ensures r >= 1
    ensures PositiveCents(PhotoPriceCandidate(item), parse).Some? ==>
      r == PositiveCents(PhotoPriceCandidate(item), parse).value
    ensures PositiveCents(PhotoPriceCandidate(item), parse).None? && PositiveCents(item.price_cents, parse).Some? ==>
      r == PositiveCents(item.price_cents, parse).value
    ensures PositiveCents(PhotoPriceCandidate(item), parse).None? && PositiveCents(item.price_cents, parse).None? ==>
      r == PhotoPriceCents
  {
    var fromPhoto := PositiveCents(PhotoPriceCandidate(item), parse);
    var fromRow := PositiveCents(item.price_cents, parse);
    if fromPhoto.Some? then fromPhoto.value
    else if fromRow.Some? then fromRow.value
    else PhotoPriceCents
  }

  /** `cartItemQuantity` as written: a positive quantity is rounded, so one
      below 0.5 becomes 0. */
  function CartItemQuantityAsWritten(item: CartItem, parse: NumberParser): (r: int)
    ensures r >= 0
    ensures item.quantity.NumVal? && item.quantity.n.Finite? && item.quantity.n.v > 0.0 ==>
      r == Round(item.quantity.n.v)
    ensures item.quantity.Absent? || item.quantity.OtherVal? ==> r == 1
    ensures item.quantity.NumVal? && !(item.quantity.n.Finite? && item.quantity.n.v > 0.0) ==> r == 1
    ensures item.quantity.StrVal? ==>
      var parsed := parse(item.quantity.s);
      r == (if parsed.Finite? && parsed.v > 0.0 then Round(parsed.v) else 1)
  {
    match item.quantity
    case NumVal(n) =>
      if n.Finite? && n.v > 0.0 then Round(n.v) else 1
    case StrVal(s) =>
      var parsed := parse(s);
      if parsed.Finite? && parsed.v > 0.0 then Round(parsed.v) else 1
    case _ => 1
  }

  /** A quantity of a quarter counts as zero pieces in the cart total. */
  lemma QuarterQuantityCountsZero(item: CartItem, parse: NumberParser)
    requires item.quantity == NumVal(Finite(0.25))
    ensures CartItemQuantityAsWritten(item, parse) == 0
    ensures CheckoutQuantity(item, parse) == 1
  {
  }

  /** The cart row's quantity as evidently intended: like the function as
      written, but a rounded quantity that is not positive counts as 1, as
      the checkout does. */
  function CartItemQuantity(item: CartItem, parse: NumberParser): (r: int)
    ensures r >= 1
    ensures CartItemQuantityAsWritten(item, parse) >= 1 ==> r == CartItemQuantityAsWritten(item, parse)
    ensures item.quantity.Absent? || item.quantity.OtherVal? ==> r == 1
  {
    var q := CartItemQuantityAsWritten(item, parse);
    if q > 0 then q else 1
  }

  /** The price of one cart row as the code computes it: unit price times
      the quantity as written, so a row whose quantity rounds to zero is
      free. */
  function LineCents(item: CartItem, parse: NumberParser): (r: int)
    ensures r >= 0
    ensures r == 0 <==> CartItemQuantityAsWritten(item, parse) == 0
    ensures CartItemQuantityAsWritten(item, parse) >= 1 ==> r >= CartItemUnitCents(item, parse)
  {
    var unit := CartItemUnitCents(item, parse);
    var quantity := CartItemQuantityAsWritten(item, parse);
    if quantity == 0 then 0
    else
      ProductAtLeast(unit, quantity);
      unit * quantity
  }

  /** The price of one cart row as evidently intended: unit price times the
      corrected quantity, so a row whose quantity rounds to zero costs one
      unit price and every other row costs what the code computes. */
  function IntendedLineCents(item: CartItem, parse: NumberParser): (r: int)
    ensures r >= CartItemUnitCents(item, parse) >= 1
    ensures CartItemQuantityAsWritten(item, parse) >= 1 ==> r == LineCents(item, parse)
    ensures CartItemQuantityAsWritten(item, parse) == 0 ==> r == CartItemUnitCents(item, parse)
  {
    if CartItemQuantityAsWritten(item, parse) == 0 then CartItemUnitCents(item, parse)
    else LineCents(item, parse)
  }

  /** The corrected row price is the unit price times the corrected
      quantity. */
  lemma IntendedLineIsUnitTimesQuantity(item: CartItem, parse: NumberParser)
    ensures IntendedLineCents(item, parse) == CartItemUnitCents(item, parse) * CartItemQuantity(item, parse)
  {
    var unit := CartItemUnitCents(item, parse);
    if CartItemQuantityAsWritten(item, parse) == 0 {
      assert CartItemQuantity(item, parse) == 1;
      assert unit * 1 == unit;
    }
  }

  lemma ProductAtLeast(a: int, b: int)
    requires a >= 1 && b >= 1
    ensures a * b >= a
  {
    assert a * b == a + a * (b - 1);
  }

  /** Every row's quantity as written rounds to zero. */
  predicate AllFree(items: seq<CartItem>, parse: NumberParser) {
    forall k :: 0 <= k < |items| ==> CartItemQuantityAsWritten(items[k], parse) == 0
  }

  /** The sum of the rows' prices as the code computes it, accumulated from
      the first row on; it is zero exactly when every row is free. */
  function SumLines(items: seq<CartItem>, parse: NumberParser): (r: int)
    ensures r >= 0
    ensures r == 0 <==> AllFree(items, parse)
  {
    if items == [] then 0
    else
      var init := items[..|items| - 1];
      assert forall k :: 0 <= k < |init| ==> init[k] == items[k];
      SumLines(init, parse) + LineCents(items[|items| - 1], parse)
  }

  /** The sum of the rows' corrected prices: at least one cent per row. */
  function IntendedSumLines(items: seq<CartItem>, parse: NumberParser): (r: int)
    ensures r >= |items|
  {
    if items == [] then 0
    else IntendedSumLines(items[..|items| - 1], parse) + IntendedLineCents(items[|items| - 1], parse)
  }

  /** `cartTotalCents` as written: the rows' prices plus 1499 when the day
      pass is queued. */
  function CartTotalCents(items: seq<CartItem>, dayPassInCart: bool, parse: NumberParser): (r: int)
    ensures r >= 0
    ensures dayPassInCart ==> r == CartTotalCents(items, false, parse) + DayPassPriceCents
    ensures !dayPassInCart ==> (r == 0 <==> AllFree(items, parse))
  {
    SumLines(items, parse) + (if dayPassInCart then DayPassPriceCents else 0)
  }

  /** `cartTotalCents` as evidently intended: every row costs at least its
      unit price. */
  function IntendedTotalCents(items: seq<CartItem>, dayPassInCart: bool, parse: NumberParser): (r: int)
    ensures r >= |items|
    ensures dayPassInCart ==> r == IntendedTotalCents(items, false, parse) + DayPassPriceCents
  {
    IntendedSumLines(items, parse) + (if dayPassInCart then DayPassPriceCents else 0)
  }

  /** The corrected total never falls below the total as written, and the
      two agree when no row's quantity rounds to zero. */
  lemma {:induction false} IntendedTotalCoversAsWritten(items: seq<CartItem>, dayPassInCart: bool, parse: NumberParser)
    ensures IntendedTotalCents(items, dayPassInCart, parse) >= CartTotalCents(items, dayPassInCart, parse)
    ensures (forall k :: 0 <= k < |items| ==> CartItemQuantityAsWritten(items[k], parse) >= 1) ==>
      IntendedTotalCents(items, dayPassInCart, parse) == CartTotalCents(items, dayPassInCart, parse)
  {
    IntendedSumCoversSum(items, parse);
  }

  lemma {:induction false} IntendedSumCoversSum(items: seq<CartItem>, parse: NumberParser)
    ensures IntendedSumLines(items, parse) >= SumLines(items, parse)
    ensures (forall k :: 0 <= k < |items| ==> CartItemQuantityAsWritten(items[k], parse) >= 1) ==>
      IntendedSumLines(items, parse) == SumLines(items, parse)
  {
    if items != [] {
      var init := items[..|items| - 1];
      assert forall k :: 0 <= k < |init| ==> init[k] == items[k];
      IntendedSumCoversSum(init, parse);
    }
  }

  /** A cart of one row with a quarter quantity: the code's total is 0, the
      corrected total is the row's unit price. */
  lemma QuarterRowTotals(item: CartItem, parse: NumberParser)
    requires item.quantity == NumVal(Finite(0.25))
    ensures CartTotalCents([item], false, parse) == 0
    ensures IntendedTotalCents([item], false, parse) == CartItemUnitCents(item, parse)
  {
    assert [item][..0] == [];
    QuarterQuantityCountsZero(item, parse);
    assert IntendedSumLines([item], parse) == IntendedLineCents(item, parse);
  }

  /** The total does not depend on the order of the rows. */
  lemma {:induction false} SumLinesAppend(a: seq<CartItem>, b: seq<CartItem>, parse: NumberParser)
    ensures SumLines(a + b, parse) == SumLines(a, parse) + SumLines(b, parse)
    decreases |b|
  {
    if b == [] {
      assert a + b == a;
    } else {
      var init := b[..|b| - 1];
      assert (a + b)[..|a + b| - 1] == a + init;
      assert (a + b)[|a + b| - 1] == b[|b| - 1];
      SumLinesAppend(a, init, parse);
    }
  }

  /** Putting one more row in the cart adds exactly that row's price. */
  lemma AddedRowAddsItsPrice(items: seq<CartItem>, item: CartItem, dayPassInCart: bool, parse: NumberParser)
    ensures CartTotalCents([item] + items, dayPassInCart, parse)
         == CartTotalCents(items, dayPassInCart, parse) + LineCents(item, parse)
  {
    SumLinesAppend([item], items, parse);
    assert SumLines([item], parse) == SumLines([], parse) + LineCents(item, parse);
  }

  // ---------------------------------------------------------------------
  // Checkout

  /** `toPositiveInt`: a finite number, or a string that reads as one once a
      comma becomes a point and blanks are trimmed, rounded; the fallback
      when that is not positive. */
  function ToPositiveInt(value: Loose, fallback: int, parse: NumberParser): (r: int)
    ensures r == fallback || r > 0
    ensures fallback > 0 ==> r > 0
    ensures PositiveCents(value, parse).Some? ==> r == PositiveCents(value, parse).value
    ensures PositiveCents(value, parse).None? ==> r == fallback
  {
    var p := PositiveCents(value, parse);
    if p.Some? then p.value else fallback
  }

  /** `item.photo?.price_cents ?? 499`. */
  function CheckoutPriceCandidate(item: CartItem): (r: Loose)
    ensures !r.Absent?
    ensures item.photo.Some? && !item.photo.value.price_cents.Absent? ==> r == item.photo.value.price_cents
    ensures item.photo.None? || item.photo.value.price_cents.Absent? ==> r == NumVal(Finite(PhotoPriceCents as real))
  {
    if item.photo.Some? && !item.photo.value.price_cents.Absent? then item.photo.value.price_cents
    else NumVal(Finite(PhotoPriceCents as real))
  }

  function CheckoutQuantity(item: CartItem, parse: NumberParser): (r: int)
    ensures r >= 1
    ensures item.quantity.NumVal? && item.quantity.n.Finite? ==>
      r == (if Round(item.quantity.n.v) > 0 then Round(item.quantity.n.v) else 1)
    ensures item.quantity.Absent? || item.quantity.OtherVal? || (item.quantity.NumVal? && !item.quantity.n.Finite?) ==> r == 1
    ensures item.quantity.StrVal? ==>
      var parsed := parse(Trim(ReplaceFirstComma(item.quantity.s)));
      r == (if parsed.Finite? && Round(parsed.v) > 0 then Round(parsed.v) else 1)
  {
    ToPositiveInt(item.quantity, 1, parse)
  }

  /** What is sold: a photo or the day pass. */
  datatype ItemKind = PhotoItem(photoId: string) | DayPassItem

  /** A checkout line: what is sold, the price of one in cents, how many. */
  datatype LineItem = LineItem(kind: ItemKind, unitAmount: int, quantity: int)

  /** The line of a cart row. */
  function PhotoLine(item: CartItem, parse: NumberParser): (r: LineItem)
    ensures r.kind == PhotoItem(item.photo_id)
    ensures r.unitAmount >= 1 && r.quantity >= 1
  {
    LineItem(PhotoItem(item.photo_id), ToPositiveInt(CheckoutPriceCandidate(item), PhotoPriceCents, parse),
             CheckoutQuantity(item, parse))
  }

  /** The checkout items: one line per cart row, in cart order, then the day
      pass once when it is queued. */
  function CheckoutLines(items: seq<CartItem>, dayPassInCart: bool, parse: NumberParser): (r: seq<LineItem>)
    ensures |r| == |items| + (if dayPassInCart then 1 else 0)
    ensures forall i :: 0 <= i < |items| ==> r[i] == PhotoLine(items[i], parse)
    ensures dayPassInCart ==> r[|items|] == LineItem(DayPassItem, DayPassPriceCents, 1)
  {
    var photos := seq(|items|, i requires 0 <= i < |items| => PhotoLine(items[i], parse));
    if dayPassInCart then photos + [LineItem(DayPassItem, DayPassPriceCents, 1)] else photos
  }

  /** Every checkout line has a positive amount and quantity. */
  lemma CheckoutLinesPositive(items: seq<CartItem>, dayPassInCart: bool, parse: NumberParser)
    ensures var lines := CheckoutLines(items, dayPassInCart, parse);
      forall k :: 0 <= k < |lines| ==> lines[k].unitAmount >= 1 && lines[k].quantity >= 1
  {
    var lines := CheckoutLines(items, dayPassInCart, parse);
    forall k | 0 <= k < |lines| ensures lines[k].unitAmount >= 1 && lines[k].quantity >= 1 {
      if k < |items| {
        assert lines[k] == PhotoLine(items[k], parse);
      }
    }
  }

  /** The amount check of the checkout: the unit amount is not a positive
      whole number. */
  predicate IsInvalidAmount(line: LineItem) {
    line.unitAmount <= 0
  }

  /** The first line that fails the amount check (`checkoutItems.find`). */
  function FirstInvalidLine(lines: seq<LineItem>): (r: Option<LineItem>)
    ensures r.Some? ==> r.value in lines && IsInvalidAmount(r.value)
    ensures r.None? ==> forall k :: 0 <= k < |lines| ==> !IsInvalidAmount(lines[k])
  {
    if lines == [] then None
    else if IsInvalidAmount(lines[0]) then Some(lines[0])
    else
      assert forall k :: 1 <= k < |lines| ==> lines[k] == lines[1..][k - 1];
      FirstInvalidLine(lines[1..])
  }

  /** The outcome of `startCheckout` before the checkout request is sent. */
  datatype CheckoutPlan =
    | AuthRequired
    | SessionInvalid
    | EmptyCart
    | InvalidAmount(line: LineItem)
    | Request(items: seq<LineItem>)

  /** `startCheckout` up to the request: the sign-in and session gates (the
      session checks of the backend reduced to their verdict), the empty
      cart, then the items and their amount check. */
  function PlanCheckout(signedIn: bool, sessionValid: bool, items: seq<CartItem>, dayPassInCart: bool,
                        parse: NumberParser): (r: CheckoutPlan)
    ensures r == AuthRequired <==> !signedIn
    ensures r == SessionInvalid <==> signedIn && !sessionValid
    ensures r == EmptyCart <==> signedIn && sessionValid && items == [] && !dayPassInCart
    ensures !r.InvalidAmount?
    ensures r.Request? ==> r.items == CheckoutLines(items, dayPassInCart, parse) && |r.items| >= 1
    ensures r.Request? ==> forall k :: 0 <= k < |r.items| ==> r.items[k].unitAmount >= 1 && r.items[k].quantity >= 1
  {
    if !signedIn then AuthRequired
    else if !sessionValid then SessionInvalid
    else if items == [] && !dayPassInCart then EmptyCart
    else
      var lines := CheckoutLines(items, dayPassInCart, parse);
      CheckoutLinesPositive(items, dayPassInCart, parse);
      match FirstInvalidLine(lines)
      case Some(line) => InvalidAmount(line)
      case None => Request(lines)
  }

  /** A photo priced by the storefront is charged at checkout the price the
      cart shows. */
  lemma CheckoutPriceMatchesCart(item: CartItem, photo: Photo, demoPriceId: string, parse: NumberParser)
    requires item.photo == Some(ShopPhoto(photo, demoPriceId))
    ensures PhotoLine(item, parse).unitAmount == CartItemUnitCents(item, parse) == PhotoPriceCents
  {
    assert Round(PhotoPriceCents as real) == PhotoPriceCents;
  }

  /** For a numeric quantity the checkout charges the quantity the cart
      shows, except where the cart rounds a positive quantity to zero. */
  lemma CheckoutQuantityMatchesCart(item: CartItem, parse: NumberParser)
    requires !item.quantity.StrVal?
    ensures CheckoutQuantity(item, parse) == CartItemQuantity(item, parse)
    ensures CartItemQuantityAsWritten(item, parse) != CheckoutQuantity(item, parse) ==>
      CartItemQuantityAsWritten(item, parse) == 0
  {
  }

  // ---------------------------------------------------------------------
  // Handlers that change the cart

  /** The outcome of `addToCart`. */
  datatype AddToCartOutcome =
    | AddAuthRequired
    | AlreadyPurchased
    | DayPassQueued
    | AlreadyInCart
    | InsertFailed(error: ApiError)
    | Added

  predicate InCart(items: seq<CartItem>, photoId: string) {
    exists i :: 0 <= i < |items| && items[i].photo_id == photoId
  }

  /** The guards of `addToCart` in the order the handler checks them, then
      the insert (a duplicate insert counting as success). `unlocked` is
      `isPhotoUnlocked(photo)`. */
  function AddToCartDecision(signedIn: bool, unlocked: bool, dayPassInCart: bool, items: seq<CartItem>,
                             photoId: string, insertError: Option<Thrown>): (r: AddToCartOutcome)
    ensures r == AddAuthRequired <==> !signedIn
    ensures r == AlreadyPurchased <==> signedIn && unlocked
    ensures r == DayPassQueued <==> signedIn && !unlocked && dayPassInCart
    ensures r == AlreadyInCart <==> signedIn && !unlocked && !dayPassInCart && InCart(items, photoId)
    ensures r == Added <==>
      (signedIn && !unlocked && !dayPassInCart && !InCart(items, photoId)
       && (insertError.None? || IsDuplicateInsertError(insertError.value, "duplicate", "unique")))
    ensures r.InsertFailed? ==> r.error == ToApiError(insertError.value, "Warenkorb konnte nicht aktualisiert werden.")
  {
    if !signedIn then AddAuthRequired
    else if unlocked then AlreadyPurchased
    else if dayPassInCart then DayPassQueued
    else if InCart(items, photoId) then AlreadyInCart
    else if insertError.Some? && !IsDuplicateInsertError(insertError.value, "duplicate", "unique") then
      InsertFailed(ToApiError(insertError.value, "Warenkorb konnte nicht aktualisiert werden."))
    else Added
  }

  /** The outcome of `removeFromCart`. */
  datatype RemoveOutcome = RemoveIgnored | RemoveFailed(error: ApiError) | Removed

  /** The outcome of `addDayPassToCart`. */
  datatype DayPassOutcome =
    | LoginPrompt
    | AlreadyBoughtToday
    | NoBackend
    | ClearFailed(error: ApiError)
    | Queued(removedPhotos: bool)

  /** The outcome of `toggleFavorite`. */
  datatype FavoriteOutcome = FavoriteAuthRequired | FavoriteFailed(error: ApiError) | FavoriteSaved

  /** The favourites after a successful toggle. */
  function Toggled(favorites: set<string>, photoId: string): (r: set<string>)
    ensures photoId in r <==> photoId !in favorites
    ensures forall p :: p != photoId ==> (p in r <==> p in favorites)
  {
    if photoId in favorites then favorites - {photoId} else favorites + {photoId}
  }

  /** Two successful toggles of a photo restore the favourites. */
  lemma ToggleTwice(favorites: set<string>, photoId: string)
    ensures Toggled(Toggled(favorites, photoId), photoId) == favorites
  {
    var once := Toggled(favorites, photoId);
    var twice := Toggled(once, photoId);
    assert forall p :: p in twice <==> p in favorites;
  }

  /** The storefront's cart state: the cart rows, the queued day pass and
      the favourite photo ids. Backend answers are parameters: the error of
      a write and, after a write, the cart rows loaded again (`None` when
      that load fails and the rows stay as they were). */
  class ShopCart {
    var cartItems: seq<CartItem>
    var dayPassInCart: bool
    var favorites: set<string>

    constructor()
      ensures cartItems == [] && !dayPassInCart && favorites == {}
    {
      cartItems := [];
      dayPassInCart := false;
      favorites := {};
    }

    /** The total the cart shows. */
    function Total(parse: NumberParser): (r: int)
      reads this
      ensures r >= 0
      ensures dayPassInCart ==> r >= DayPassPriceCents
      ensures !dayPassInCart ==> (r == 0 <==> AllFree(cartItems, parse))
    {
      CartTotalCents(cartItems, dayPassInCart, parse)
    }

    /** `addToCart`: only an insert that goes through reloads the rows. */
    method AddToCart(signedIn: bool, photo: Photo, unlocked: bool, insertError: Option<Thrown>,
                     reloaded: Option<seq<CartItem>>)
      returns (outcome: AddToCartOutcome)
      modifies this
      ensures outcome == AddToCartDecision(signedIn, unlocked, old(dayPassInCart), old(cartItems), photo.id, insertError)
      ensures outcome == Added && reloaded.Some? ==> cartItems == reloaded.value
      ensures !(outcome == Added && reloaded.Some?) ==> cartItems == old(cartItems)
      ensures dayPassInCart == old(dayPassInCart) && favorites == old(favorites)
    {
      if !signedIn {
        return AddAuthRequired;
      }
      if unlocked {
        return AlreadyPurchased;
      }
      if dayPassInCart {
        return DayPassQueued;
      }
      var i := 0;
      while i < |cartItems|
        invariant 0 <= i <= |cartItems|
        invariant forall k :: 0 <= k < i ==> cartItems[k].photo_id != photo.id
      {
        if cartItems[i].photo_id == photo.id {
          return AlreadyInCart;
        }
        i := i + 1;
      }
      if insertError.Some? && !IsDuplicateInsertError(insertError.value, "duplicate", "unique") {
        return InsertFailed(ToApiError(insertError.value, "Warenkorb konnte nicht aktualisiert werden."));
      }
      if reloaded.Some? {
        cartItems := reloaded.value;
      }
      return Added;
    }

    /** `removeFromCart`: deletes one cart row and loads the rows again; a
      failed delete leaves the cart as it was. */
    method RemoveFromCart(signedIn: bool, deleteError: Option<Thrown>, reloaded: Option<seq<CartItem>>)
      returns (outcome: RemoveOutcome)
      modifies this
      ensures !signedIn ==> outcome == RemoveIgnored
      ensures outcome == Removed <==> signedIn && deleteError.None?
      ensures outcome.RemoveFailed? ==>
        deleteError.Some? && outcome.error == ToApiError(deleteError.value, "Eintrag konnte nicht entfernt werden.")
      ensures outcome == Removed && reloaded.Some? ==> cartItems == reloaded.value
      ensures !(outcome == Removed && reloaded.Some?) ==> cartItems == old(cartItems)
      ensures dayPassInCart == old(dayPassInCart) && favorites == old(favorites)
    {
      if !signedIn {
        return RemoveIgnored;
      }
      if deleteError.Some? {
        return RemoveFailed(ToApiError(deleteError.value, "Eintrag konnte nicht entfernt werden."));
      }
      if reloaded.Some? {
        cartItems := reloaded.value;
      }
      return Removed;
    }

    /** `addDayPassToCart`: queues the day pass, first deleting the photo
      rows of the cart when there are any; the rows loaded after the delete
      are none. */
    method AddDayPassToCart(signedIn: bool, hasTodayDayPass: bool, clientConfigured: bool,
                            deleteError: Option<Thrown>, reloadSucceeded: bool)
      returns (outcome: DayPassOutcome)
      modifies this
      ensures !signedIn ==> outcome == LoginPrompt
      ensures signedIn && hasTodayDayPass ==> outcome == AlreadyBoughtToday
      ensures outcome.Queued? <==>
        (signedIn && !hasTodayDayPass && (old(cartItems) == [] || (clientConfigured && deleteError.None?)))
      ensures outcome.Queued? ==> dayPassInCart && outcome.removedPhotos == (old(cartItems) != [])
      ensures outcome.Queued? && old(cartItems) != [] && reloadSucceeded ==> cartItems == []
      ensures !outcome.Queued? ==> dayPassInCart == old(dayPassInCart)
      ensures cartItems == [] || cartItems == old(cartItems)
      ensures outcome.ClearFailed? ==> deleteError.Some? && outcome.error == ToApiError(deleteError.value, "Warenkorb konnte nicht bereinigt werden.")
      ensures favorites == old(favorites)
    {
      if !signedIn {
        return LoginPrompt;
      }
      if hasTodayDayPass {
        return AlreadyBoughtToday;
      }
      var removedPhotosFromCart := false;
      if |cartItems| > 0 {
        if !clientConfigured {
          return NoBackend;
        }
        if deleteError.Some? {
          return ClearFailed(ToApiError(deleteError.value, "Warenkorb konnte nicht bereinigt werden."));
        }
        removedPhotosFromCart := true;
        if reloadSucceeded {
          cartItems := [];
        }
      }
      dayPassInCart := true;
      return Queued(removedPhotosFromCart);
    }

    /** `removeDayPassFromCart`. */
    method RemoveDayPassFromCart()
      modifies this
      ensures !dayPassInCart && cartItems == old(cartItems) && favorites == old(favorites)
    {
      dayPassInCart := false;
    }

    /** `toggleFavorite`: removes a favourite or adds one, a duplicate insert
      counting as success. */
    method ToggleFavorite(signedIn: bool, photoId: string, writeError: Option<Thrown>)
      returns (outcome: FavoriteOutcome)
      modifies this
      ensures !signedIn ==> outcome == FavoriteAuthRequired
      ensures outcome == FavoriteSaved <==>
        (signedIn && (writeError.None?
                      || (photoId !in old(favorites) && IsDuplicateInsertError(writeError.value, "duplicate", "unique"))))
      ensures outcome == FavoriteSaved ==> favorites == Toggled(old(favorites), photoId)
      ensures outcome != FavoriteSaved ==> favorites == old(favorites)
      ensures outcome.FavoriteFailed? && photoId in old(favorites) ==>
        outcome.error == ToApiError(writeError.value, "Favorit konnte nicht entfernt werden.")
      ensures outcome.FavoriteFailed? && photoId !in old(favorites) ==>
        outcome.error == ToApiError(writeError.value, "Favorit konnte nicht gespeichert werden.")
      ensures cartItems == old(cartItems) && dayPassInCart == old(dayPassInCart)
    {
      if !signedIn {
        return FavoriteAuthRequired;
      }
      if photoId in favorites {
        if writeError.Some? {
          return FavoriteFailed(ToApiError(writeError.value, "Favorit konnte nicht entfernt werden."));
        }
        favorites := favorites - {photoId};
      } else {
        if writeError.Some? && !IsDuplicateInsertError(writeError.value, "duplicate", "unique") {
          return FavoriteFailed(ToApiError(writeError.value, "Favorit konnte nicht gespeichert werden."));
        }
        favorites := favorites + {photoId};
      }
      return FavoriteSaved;
    }
  }
}
