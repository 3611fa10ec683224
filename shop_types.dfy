/** The records the storefront reads from and writes to its backend
    (src/types/shop.ts), with the extra columns the code reads through the
    rows' index signatures. Column names are kept as the backend spells them.
    `None` stands for a column that is `null`, `undefined` or not of the
    declared type. */
module ShopTypes {
  import opened JsValues

  datatype Photo = Photo(
    id: string,
    ride_id: Option<string>,
    park_id: Option<string>,
    storage_bucket: Option<string>,
    storage_path: Option<string>,
    image_url: Option<string>,
    thumbnail_url: Option<string>,
    url: Option<string>,
    speed_kmh: Option<Num>,
    price_cents: Loose,
    created_at: Option<string>,
    ride_date: Option<string>,
    price_id: Option<string>,
    stripe_price_id: Option<string>,
    stripePriceId: Option<string>)

  datatype Ride = Ride(
    id: string,
    park_id: Option<string>,
    ride_date: Option<string>,
    created_at: Option<string>)

  /** A cart row joined with its photo; `price_cents` is an untyped column
      some rows carry themselves. */
  datatype CartItem = CartItem(
    id: string,
    user_id: string,
    photo_id: string,
    park_id: Option<string>,
    quantity: Loose,
    price_cents: Loose,
    photo: Option<Photo>)

  /** A per-photo unlock (photo_id set) or a day-pass unlock (photo_id
      absent or empty), with every date-like column the code consults. */
  datatype UnlockedPhoto = UnlockedPhoto(
    id: string,
    user_id: string,
    park_id: Option<string>,
    photo_id: Option<string>,
    unlocked_at: Option<string>,
    unlock_date: Option<string>,
    ride_date: Option<string>,
    day: Option<string>,
    date: Option<string>,
    created_at: Option<string>)

  /** A daily ranking row; a `speed_kmh` that is not a number is `None`. */
  datatype LeaderboardEntry = LeaderboardEntry(
    id: string,
    user_id: Option<string>,
    park_id: Option<string>,
    display_name: Option<string>,
    avatar_url: Option<string>,
    speed_kmh: Option<real>,
    rank_position: Option<int>,
    ride_date: Option<string>,
    created_at: Option<string>,
    photo_id: Option<string>)

  /** A row of the `users` table as the ranking code reads it. */
  datatype UserRow = UserRow(
    id: Option<string>,
    display_name: Option<string>,
    vorname: Option<string>,
    nachname: Option<string>,
    avatar_url: Option<string>,
    park_id: Option<string>)

  /** What a backend call or a `throw` delivered as its error: an object
      (with its `message` and `code` when they are strings) or anything
      else (a falsy value, a string, a number). */
  datatype Thrown = NonObject | ErrorObject(message: Option<string>, code: Option<string>)

  /** The uniform error record of the UI. */
  datatype ApiError = ApiError(code: string, message: string, details: Option<Thrown>)
}
