/** The shared helpers of src/lib/shop-utils.ts: the ride speed encoded in
    a photo's file name, day keys of photos and unlock rows, and the
    conversion of anything thrown into an `ApiError`. */
module ShopUtils {
  import opened JsValues
  import opened Text
  import opened ShopTypes

  // ---------------------------------------------------------------------
  // Speed from the storage path: /(\d{4})(?=\.[a-zA-Z0-9]+$)/

  predicate IsAlnum(c: char) {
    ('a' <= c <= 'z') || ('A' <= c <= 'Z') || ('0' <= c <= '9')
  }

  predicate AllAlnum(s: string) {
    forall k :: 0 <= k < |s| ==> IsAlnum(s[k])
  }

  /** The speed pattern matches at index `i` of a file name: four digits,
      then a '.', then one or more letters or digits up to the end. */
  predicate SpeedMatchAt(f: string, i: nat) {
    i + 5 < |f| && AllDigits(f[i..i + 4]) && f[i + 4] == '.' && AllAlnum(f[i + 5..])
  }

  /** The leftmost index at or after `from` where the pattern matches, as a
      regular-expression search finds it. */
  function FindSpeedMatch(f: string, from: nat): (r: Option<nat>)
    ensures r.Some? ==> from <= r.value && SpeedMatchAt(f, r.value)
    ensures r.Some? ==> forall j :: from <= j < r.value ==> !SpeedMatchAt(f, j)
    ensures r.None? ==> forall j :: from <= j ==> !SpeedMatchAt(f, j)
    decreases |f| - from
  {
    if from + 5 >= |f| then None
    else if SpeedMatchAt(f, from) then Some(from)
    else FindSpeedMatch(f, from + 1)
  }

  /** The pattern can match at one index at most, because the lookahead
      pins the four digits right before the last '.'. */
  lemma SpeedMatchUnique(f: string, i: nat, j: nat)
    requires SpeedMatchAt(f, i) && SpeedMatchAt(f, j)
    ensures i == j
  {
  }

  /** `storagePath.split('/').pop()`. */
  function LastSegment(path: string): (r: string)
    ensures '/' !in r
  {
    var parts := Split(path, '/');
    parts[|parts| - 1]
  }

  /** `parseSpeedFromStoragePath`: the four digits before the file
      extension of the last path segment, read as hundredths. */
  function ParseSpeedFromStoragePath(storagePath: Option<string>): (r: Option<real>)
    ensures storagePath.None? || storagePath == Some("") ==> r.None?
    ensures r.Some? ==> 0.0 <= r.value <= 99.99
  {
    if storagePath.None? || storagePath.value == "" then None
    else
      var fileName := LastSegment(storagePath.value);
      match FindSpeedMatch(fileName, 0)
      case None => None
      case Some(i) =>
        var digits := fileName[i..i + 4];
        FourDigitsBound(digits);
        Some(DigitsValue(digits) as real / 100.0)
  }

  /** A speed is found exactly when the pattern matches somewhere in the
      last path segment, and it is that match's four digits read as
      hundredths. */
  lemma ParseSpeedMatches(storagePath: string)
    requires storagePath != ""
    ensures ParseSpeedFromStoragePath(Some(storagePath)).Some? <==>
      exists i: nat :: SpeedMatchAt(LastSegment(storagePath), i)
    ensures ParseSpeedFromStoragePath(Some(storagePath)).Some? ==>
      (var f := LastSegment(storagePath);
       exists i: nat :: (SpeedMatchAt(f, i)
         && ParseSpeedFromStoragePath(Some(storagePath)).value == DigitsValue(f[i..i + 4]) as real / 100.0))
  {
    var f := LastSegment(storagePath);
    var m := FindSpeedMatch(f, 0);
    if m.Some? {
      var i := m.value;
      assert SpeedMatchAt(f, i);
      assert ParseSpeedFromStoragePath(Some(storagePath)).value == DigitsValue(f[i..i + 4]) as real / 100.0;
    }
  }

  lemma FourDigitsBound(d: string)
    requires |d| == 4 && AllDigits(d)
    ensures DigitsValue(d) <= 9999
  {
    var d3, d2, d1 := d[..3], d[..3][..2], d[..3][..2][..1];
    assert d1[..0] == [];
    assert DigitsValue(d1) <= 9;
    assert DigitsValue(d2) <= 99;
    assert DigitsValue(d3) <= 999;
  }

  /** Splitting `dir/file` ends with the file name when it has no '/'. */
  lemma {:induction false} SplitEndsWith(a: string, b: string, sep: char)
    requires sep !in b
    ensures var p := Split(a + [sep] + b, sep); |p| >= 2 && p[|p| - 1] == b
  {
    if a == [] {
      assert a + [sep] + b == [sep] + b;
      SplitWithoutSeparator(b, sep);
    } else {
      assert (a + [sep] + b)[1..] == a[1..] + [sep] + b;
      SplitEndsWith(a[1..], b, sep);
    }
  }

  lemma {:induction false} SplitWithoutSeparator(s: string, sep: char)
    requires sep !in s
    ensures Split(s, sep) == [s]
  {
    if s != [] {
      SplitWithoutSeparator(s[1..], sep);
      assert [s[0]] + s[1..] == s;
    }
  }

  /** Only the part after the last '/' decides the speed. */
  lemma DirectoryIgnored(dir: string, fileName: string)
    requires '/' !in fileName
    ensures ParseSpeedFromStoragePath(Some(dir + "/" + fileName)) ==
            ParseSpeedFromStoragePath(Some(fileName))
  {
    SplitEndsWith(dir, fileName, '/');
    assert LastSegment(dir + "/" + fileName) == fileName;
    if fileName != "" {
      SplitWithoutSeparator(fileName, '/');
      SameLastSegment(dir + "/" + fileName, fileName);
    } else {
      assert FindSpeedMatch(fileName, 0).None?;
    }
  }

  /** Two non-empty paths with the same last segment give the same speed. */
  lemma SameLastSegment(p: string, q: string)
    requires p != "" && q != "" && LastSegment(p) == LastSegment(q)
    ensures ParseSpeedFromStoragePath(Some(p)) == ParseSpeedFromStoragePath(Some(q))
  {
  }

  /** `<dir>/ride_1234.jpg` gives 12.34, whatever the directory. */
  lemma SpeedExample(dir: string, f: string)
    requires f == "ride_1234.jpg"
    ensures ParseSpeedFromStoragePath(Some(dir + "/" + f)) == Some(12.34)
  {
    assert forall k :: 0 <= k < |f| ==> f[k] != '/';
    DirectoryIgnored(dir, f);
    SplitWithoutSeparator(f, '/');
    assert LastSegment(f) == f;
    ExampleMatch(f);
    ExampleDigits(f);
  }

  lemma ExampleMatch(f: string)
    requires f == "ride_1234.jpg"
    ensures FindSpeedMatch(f, 0) == Some(5)
  {
    assert f[5..9] == "1234" && f[10..] == "jpg";
    assert SpeedMatchAt(f, 5);
    forall j | 0 <= j < 5 ensures !SpeedMatchAt(f, j) {
      assert f[j + 4] != '.';
    }
  }

  lemma ExampleDigits(f: string)
    requires f == "ride_1234.jpg"
    ensures f[5..9] == "1234" && DigitsValue(f[5..9]) == 1234
  {
    assert "1234"[..3] == "123" && "123"[..2] == "12" && "12"[..1] == "1" && "1"[..0] == "";
  }

  /** `photoSpeedKmh`: a finite stored speed wins; otherwise the file name. */
  function PhotoSpeedKmh(photo: Photo): (r: Option<real>)
    ensures photo.speed_kmh.Some? && photo.speed_kmh.value.Finite? ==>
      r == Some(photo.speed_kmh.value.v)
    ensures !(photo.speed_kmh.Some? && photo.speed_kmh.value.Finite?) ==>
      r == ParseSpeedFromStoragePath(photo.storage_path)
  {
    match photo.speed_kmh
    case Some(Finite(v)) => Some(v)
    case _ => ParseSpeedFromStoragePath(photo.storage_path)
  }

  // ---------------------------------------------------------------------
  // Day keys

  /** `toISOString().slice(0, 10)` always has ten characters. */
  type Key10 = s: string | |s| == 10 witness "1970-01-01"

  /** `new Date(value)` followed by `toISOString().slice(0, 10)`, or `None`
      when the date is invalid. Date parsing is the runtime's, so callers
      supply it. */
  type DateParser = string -> Option<Key10>

  /** Matches /^\d{4}-\d{2}-\d{2}$/: the digit shape of an RFC 3339
      full-date, with no range check on month or day. */
  predicate IsDateShape(s: string) {
    |s| == 10 && AllDigits(s[..4]) && s[4] == '-' && AllDigits(s[5..7]) && s[7] == '-'
    && AllDigits(s[8..])
  }

  /** `value.slice(0, 10)`. */
  function Prefix10(s: string): (r: string)
    ensures |s| >= 10 ==> r == s[..10]
    ensures |s| < 10 ==> r == s
  {
    if |s| >= 10 then s[..10] else s
  }

  /** `toDateKey` (identical in shop-utils.ts, PhotoShopSection.tsx and
      App.tsx): a date-shaped prefix is taken verbatim, anything else goes
      through date parsing. */
  function ToDateKey(input: Option<string>, parse: DateParser): (r: Option<string>)
    ensures input.None? || input == Some("") ==> r.None?
    ensures r.Some? ==> |r.value| == 10
    ensures input.Some? && IsDateShape(Prefix10(input.value)) ==> r == Some(input.value[..10])
    ensures input.Some? && input.value != "" && !IsDateShape(Prefix10(input.value)) ==>
      r == parse(input.value)
  {
    if input.None? || input.value == "" then None
    else
      var maybeDate := Prefix10(input.value);
      if IsDateShape(maybeDate) then Some(maybeDate)
      else match parse(input.value)
        case None => None
        case Some(k) => Some(k)
  }

  /** A day key is its own key, whatever the date parser does; so
      `ToDateKey` is idempotent on what its fast path returns. */
  lemma DateKeyIdempotent(input: string, parse: DateParser)
    requires IsDateShape(Prefix10(input))
    ensures ToDateKey(ToDateKey(Some(input), parse), parse) == ToDateKey(Some(input), parse)
  {
    var k := input[..10];
    assert Prefix10(k) == k;
  }

  /** "2024-05-03T07:12:00Z" has day key "2024-05-03". */
  lemma DateKeyExample(parse: DateParser)
    ensures ToDateKey(Some("2024-05-03T07:12:00Z"), parse) == Some("2024-05-03")
  {
    var s := "2024-05-03T07:12:00Z";
    assert s[..10] == "2024-05-03";
    assert IsDateShape("2024-05-03");
  }

  /** `photoDayKey`: `created_at ?? ride_date`; an empty `created_at` is not
      nullish, so it yields no key and `ride_date` is not consulted. */
  function PhotoDayKey(photo: Photo, parse: DateParser): (r: Option<string>)
    ensures photo.created_at.Some? ==> r == ToDateKey(photo.created_at, parse)
    ensures photo.created_at == Some("") ==> r.None?
    ensures photo.created_at.None? ==> r == ToDateKey(photo.ride_date, parse)
  {
    ToDateKey(photo.created_at.OrElse(photo.ride_date), parse)
  }

  /** The day-like columns of an unlock row, in the order they are tried. */
  function UnlockCandidates(row: UnlockedPhoto): seq<Option<string>> {
    [row.unlock_date, row.ride_date, row.day, row.date, row.unlocked_at, row.created_at]
  }

  /** The first candidate that yields a key (the early-returning loop of
      `unlockedDayKey`). */
  function FirstDayKey(candidates: seq<Option<string>>, parse: DateParser): (r: Option<string>)
    ensures r.None? <==> forall i :: 0 <= i < |candidates| ==> ToDateKey(candidates[i], parse).None?
    ensures r.Some? ==> |r.value| == 10
  {
    if candidates == [] then None
    else
      var parsed := ToDateKey(candidates[0], parse);
      if parsed.Some? && parsed.value != "" then parsed
      else FirstDayKey(candidates[1..], parse)
  }

  /** The key found is that of a candidate, and every earlier candidate
      yields none. */
  lemma {:induction false} FirstDayKeyIsFirst(candidates: seq<Option<string>>, parse: DateParser)
    requires FirstDayKey(candidates, parse).Some?
    ensures exists i :: (0 <= i < |candidates|
      && ToDateKey(candidates[i], parse) == FirstDayKey(candidates, parse)
      && forall j :: 0 <= j < i ==> ToDateKey(candidates[j], parse).None?)
  {
    var parsed := ToDateKey(candidates[0], parse);
    if parsed.Some? && parsed.value != "" {
      assert ToDateKey(candidates[0], parse) == FirstDayKey(candidates, parse);
    } else {
      var rest := candidates[1..];
      FirstDayKeyIsFirst(rest, parse);
      var i :| 0 <= i < |rest| && ToDateKey(rest[i], parse) == FirstDayKey(rest, parse)
        && forall j :: 0 <= j < i ==> ToDateKey(rest[j], parse).None?;
      assert ToDateKey(candidates[i + 1], parse) == FirstDayKey(candidates, parse);
      forall j | 0 <= j < i + 1 ensures ToDateKey(candidates[j], parse).None? {
        if j > 0 { assert candidates[j] == rest[j - 1]; }
      }
    }
  }

  /** `unlockedDayKey`. */
  function UnlockedDayKey(row: UnlockedPhoto, parse: DateParser): (r: Option<string>)
    ensures r.Some? ==> |r.value| == 10
    ensures row.unlock_date.Some? && IsDateShape(Prefix10(row.unlock_date.value)) ==>
      r == Some(row.unlock_date.value[..10])
  {
    FirstDayKey(UnlockCandidates(row), parse)
  }

  /** `unlockedDayKey` is `None` exactly when none of the six columns yields
      a key, and otherwise is the key of the first one that does. */
  lemma UnlockedDayKeyOrder(row: UnlockedPhoto, parse: DateParser)
    ensures var c := UnlockCandidates(row);
      (UnlockedDayKey(row, parse).None? <==> forall i :: 0 <= i < 6 ==> ToDateKey(c[i], parse).None?)
      && (UnlockedDayKey(row, parse).Some? ==>
            exists i :: 0 <= i < 6 && ToDateKey(c[i], parse) == UnlockedDayKey(row, parse)
              && forall j :: 0 <= j < i ==> ToDateKey(c[j], parse).None?)
  {
    if UnlockedDayKey(row, parse).Some? {
      FirstDayKeyIsFirst(UnlockCandidates(row), parse);
    }
  }

  // ---------------------------------------------------------------------
  // Errors

  /** `toApiError`: an object keeps its string `message` and `code`; the
      fallback message and 'unknown_error' fill in the rest; the original
      error always travels as `details`. */
  function ToApiError(error: Thrown, fallbackMessage: string): (r: ApiError)
    ensures r.details == Some(error)
    ensures error.ErrorObject? && error.message.Some? ==> r.message == error.message.value
    ensures !(error.ErrorObject? && error.message.Some?) ==> r.message == fallbackMessage
    ensures error.ErrorObject? && error.code.Some? ==> r.code == error.code.value
    ensures !(error.ErrorObject? && error.code.Some?) ==> r.code == "unknown_error"
  {
    match error
    case ErrorObject(message, code) =>
      ApiError(code.GetOr("unknown_error"), message.GetOr(fallbackMessage), Some(error))
    case NonObject => ApiError("unknown_error", fallbackMessage, Some(error))
  }
}
