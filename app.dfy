/** The landing page (src/App.tsx): the countdown to the daily reset, the
    avatar reference split, the public daily ranking with its name and
    avatar fallbacks, and the text translation by replacement tables. */
module Landing {
  import opened JsValues
  import opened Text
  import opened ShopTypes
  import opened ShopUtils
  import opened StorageRefs
  import opened Ranking
  import opened Leaderboard

  // ---------------------------------------------------------------------
  // formatCountdown

  /** `Math.max(0, Math.floor(diffMs / 1000))`. */
  function CountdownSeconds(diffMs: real): (r: nat)
    ensures diffMs < 1000.0 ==> r == 0
  {
    var f := FloorOf(diffMs / 1000.0);
    if f < 0 then 0 else f
  }

  /** For a time still ahead, the whole seconds left. */
  lemma CountdownSecondsBound(diffMs: real)
    requires diffMs >= 0.0
    ensures CountdownSeconds(diffMs) as real * 1000.0 <= diffMs < CountdownSeconds(diffMs) as real * 1000.0 + 1000.0
  {
    var f := FloorOf(diffMs / 1000.0);
    assert f as real <= diffMs / 1000.0 < f as real + 1.0;
  }

  /** `String(n).padStart(2, '0')` */
  function Pad2(n: nat): (r: string)
    ensures |r| >= 2 && AllDigits(r) && DigitsValue(r) == n
    ensures n < 100 ==> |r| == 2
  {
    var digits := NatToString(n);
    var r := PadStart2(digits);
    NatToStringValue(n);
    LeadingZerosValue(r[..|r| - |digits|], digits);
    assert r == r[..|r| - |digits|] + digits;
    assert 10 <= n < 100 ==> digits == NatToString(n / 10) + [DigitChar(n % 10)];
    r
  }

  /** `formatCountdown`: hours, minutes and seconds of the remaining whole
      seconds, each at least two digits, separated by ':' (see
      `ClockReadsBack` and `CountdownBelowOneSecond`). */
  function FormatCountdown(diffMs: real): (r: string)
    ensures ReadsBackAs(r, CountdownSeconds(diffMs))
  {
    ClockReadsBack(CountdownSeconds(diffMs));
    Clock(CountdownSeconds(diffMs))
  }

  /** `hh:mm:ss` for a number of whole seconds. */
  function Clock(totalSeconds: nat): string {
    var hours := totalSeconds / 3600;
    var minutes := (totalSeconds % 3600) / 60;
    var seconds := totalSeconds % 60;
    Pad2(hours) + ":" + Pad2(minutes) + ":" + Pad2(seconds)
  }

  /** Less than a second left, or a time already past, shows all zeros. */
  lemma CountdownBelowOneSecond(diffMs: real)
    requires diffMs < 1000.0
    ensures FormatCountdown(diffMs) == "00:00:00"
  {
    assert FormatCountdown(diffMs) == Clock(0);
    ClockZero();
  }

  lemma ClockZero()
    ensures Clock(0) == "00:00:00"
  {
    Pad2Zero();
  }

  lemma Pad2Zero()
    ensures Pad2(0) == "00"
  {
    assert NatToString(0) == "0";
    assert PadStart2("0") == "00";
  }

  /** `r` reads back as `h:m:s` fields worth `t` seconds: digit fields
      separated by ':', hours at least two digits, minutes and seconds two
      digits below 60. */
  predicate ReadsBackAs(r: string, t: nat) {
    |r| >= 8 && r[|r| - 6] == ':' && r[|r| - 3] == ':'
    && |r[..|r| - 6]| >= 2 && AllDigits(r[..|r| - 6])
    && AllDigits(r[|r| - 5..|r| - 3]) && AllDigits(r[|r| - 2..])
    && DigitsValue(r[|r| - 5..|r| - 3]) < 60 && DigitsValue(r[|r| - 2..]) < 60
    && DigitsValue(r[..|r| - 6]) * 3600 + DigitsValue(r[|r| - 5..|r| - 3]) * 60
       + DigitsValue(r[|r| - 2..]) == t
  }

  /** Reading the countdown back gives the remaining whole seconds. */
  lemma ClockReadsBack(t: nat)
    ensures ReadsBackAs(Clock(t), t)
  {
    var hours, minutes, seconds := t / 3600, (t % 3600) / 60, t % 60;
    HoursMinutesSeconds(t);
    PaddedReadsBack(Pad2(hours), Pad2(minutes), Pad2(seconds), hours, minutes, seconds, t);
  }

  /** Fields joined by ':' read back as the seconds they add up to. */
  lemma PaddedReadsBack(h: string, m: string, s: string, hours: nat, minutes: nat, seconds: nat, t: nat)
    requires |h| >= 2 && |m| == 2 && |s| == 2
    requires AllDigits(h) && AllDigits(m) && AllDigits(s)
    requires DigitsValue(h) == hours && DigitsValue(m) == minutes && DigitsValue(s) == seconds
    requires minutes < 60 && seconds < 60 && hours * 3600 + minutes * 60 + seconds == t
    ensures ReadsBackAs(h + ":" + m + ":" + s, t)
  {
    ThreeFields(h, m, s);
    FieldsReadBack(h + ":" + m + ":" + s, h, m, s, hours, minutes, seconds, t);
  }

  lemma FieldsReadBack(r: string, h: string, m: string, s: string, hv: nat, mv: nat, sv: nat, t: nat)
    requires |r| >= 8 && r[|r| - 6] == ':' && r[|r| - 3] == ':'
    requires r[..|r| - 6] == h && r[|r| - 5..|r| - 3] == m && r[|r| - 2..] == s
    requires |h| >= 2 && AllDigits(h) && AllDigits(m) && AllDigits(s)
    requires DigitsValue(h) == hv && DigitsValue(m) == mv && DigitsValue(s) == sv
    requires mv < 60 && sv < 60 && hv * 3600 + mv * 60 + sv == t
    ensures ReadsBackAs(r, t)
  {
  }

  /** Whole seconds split into hours, minutes below 60 and seconds below 60. */
  lemma HoursMinutesSeconds(t: nat)
    ensures (t % 3600) / 60 < 60 && t % 60 < 60
    ensures (t / 3600) * 3600 + ((t % 3600) / 60) * 60 + t % 60 == t
  {
    var h, rest := t / 3600, t % 3600;
    assert t == h * 3600 + rest;
    assert rest == (rest / 60) * 60 + rest % 60;
    assert rest % 60 == t % 60 by {
      assert t == (h * 60 + rest / 60) * 60 + rest % 60;
    }
  }

  /** The three fields of `h:m:s` with two-character `m` and `s`. */
  lemma ThreeFields(h: string, m: string, s: string)
    requires |h| >= 2 && |m| == 2 && |s| == 2
    ensures var r := h + ":" + m + ":" + s;
      |r| >= 8 && r[|r| - 6] == ':' && r[|r| - 3] == ':'
      && r[..|r| - 6] == h && r[|r| - 5..|r| - 3] == m && r[|r| - 2..] == s
  {
  }

  // ---------------------------------------------------------------------
  // resolveAvatarUrl: where an avatar object lives

  /** `PLOSE_AVATAR_BUCKET`: the configured bucket, trimmed, or "avatars". */
  function AvatarBucket(configured: Option<string>): (r: string)
    ensures r != ""
    ensures TrimmedOrEmpty(configured) != "" ==> r == TrimmedOrEmpty(configured)
  {
    var t := TrimmedOrEmpty(configured);
    if t != "" then t else "avatars"
  }

  /** The split of a relative avatar path (already stripped of leading
      '/'): `<bucket>/<object>` names another bucket, the avatar bucket's
      own name as first segment is dropped, and anything with fewer than
      two segments is an object of the avatar bucket. */
  function AvatarPathSplit(path: string, avatarBucket: string): (r: StorageRef)
    requires path != "" && avatarBucket != ""
    ensures r.bucket != "" && r.objectPath != ""
    ensures |Segments(path)| < 2 ==> r == StorageRef(avatarBucket, path)
    ensures |Segments(path)| >= 2 ==>
      r.objectPath == Join(Segments(path)[1..], '/') && r.bucket == Segments(path)[0]
  {
    var parts := Segments(path);
    if |parts| >= 2 then
      var rest := Join(parts[1..], '/');
      assert rest != "" by { assert parts[1..][0] == parts[1]; }
      if parts[0] != avatarBucket then StorageRef(parts[0], rest)
      else StorageRef(avatarBucket, rest)
    else StorageRef(avatarBucket, path)
  }

  /** A single plain segment is an object of the avatar bucket. */
  lemma AvatarSingleSegment(name: string, avatarBucket: string)
    requires IsPlainBucket(name) && avatarBucket != ""
    ensures AvatarPathSplit(name, avatarBucket) == StorageRef(avatarBucket, name)
  {
    assert IsPlainPath(name) by {
      assert forall m :: 0 <= m < |name| ==> name[m] != '/' by {
        forall m | 0 <= m < |name| ensures name[m] != '/' {
          assert name[m] in name;
        }
      }
    }
    SegmentsOfPlainPath(name);
    SplitWithoutSlash(name);
  }

  lemma {:induction false} SplitWithoutSlash(s: string)
    requires '/' !in s
    ensures Split(s, '/') == [s]
  {
    if s != [] {
      assert '/' !in s[1..] by {
        forall m | 0 <= m < |s| - 1 ensures s[1..][m] != '/' {
          assert s[1..][m] == s[m + 1];
          assert s[m + 1] in s;
        }
      }
      SplitWithoutSlash(s[1..]);
      assert [s[0]] + s[1..] == s;
    }
  }

  /** `<bucket>/<object>` with a bucket other than the avatar bucket is
      read back as that bucket and object; with the avatar bucket's own
      name in front, as that object of the avatar bucket. */
  lemma AvatarComposedPath(bucket: string, path: string, avatarBucket: string)
    requires IsPlainBucket(bucket) && IsPlainPath(path) && avatarBucket != ""
    ensures AvatarPathSplit(bucket + "/" + path, avatarBucket) == StorageRef(bucket, path)
  {
    var composed := bucket + "/" + path;
    ComposedIsPlain(bucket, path);
    SegmentsOfPlainPath(composed);
    SegmentsOfPlainPath(path);
    SplitHead(bucket, path);
    assert Segments(composed) == [bucket] + Segments(path);
    assert Segments(composed)[1..] == Segments(path);
  }

  /** Where the avatar object lives, for a trimmed, non-URL reference:
      nothing for an empty path, a path with "://" or a `storage/v1/` path;
      the decoded groups of the object-storage pattern when the reference
      contains it (each falling back to the default when blank); else the
      path split. `DecodeThrew` is the URIError of `decodeURIComponent`. */
  function AvatarRefFor(raw: string, avatarBucket: string, decode: UriDecoder): (r: RefOutcome)
    requires avatarBucket != ""
    ensures r.Found? ==> r.ref.bucket != "" && r.ref.objectPath != ""
    ensures (var path := StripLeadingSlashes(raw);
      path == "" || Contains(path, "://") || StartsWith(path, "storage/v1/")) ==> r == NotFound
    ensures r.DecodeThrew? ==> FindStorageMatch(raw, 0).Some?
    ensures (var path := StripLeadingSlashes(raw);
      path != "" && !Contains(path, "://") && !StartsWith(path, "storage/v1/")
      && FindStorageMatch(raw, 0).None?) ==>
      r == Found(AvatarPathSplit(StripLeadingSlashes(raw), avatarBucket))
    ensures (var path := StripLeadingSlashes(raw);
      path != "" && !Contains(path, "://") && !StartsWith(path, "storage/v1/")
      && FindStorageMatch(raw, 0).Some?) ==>
      (var (g1, g2) := FindStorageMatch(raw, 0).value;
       (decode(g1).None? || decode(g2).None?) <==> r.DecodeThrew?)
    ensures var path := StripLeadingSlashes(raw);
      (path != "" && !Contains(path, "://") && !StartsWith(path, "storage/v1/")
      && FindStorageMatch(raw, 0).Some?) ==>
      (var (g1, g2) := FindStorageMatch(raw, 0).value;
       decode(g1).Some? && decode(g2).Some? ==>
         r == Found(StorageRef(
           if Trim(decode(g1).value) != "" then Trim(decode(g1).value) else avatarBucket,
           if Trim(decode(g2).value) != "" then Trim(decode(g2).value) else path)))
  {
    var path := StripLeadingSlashes(raw);
    if path == "" || Contains(path, "://") || StartsWith(path, "storage/v1/") then NotFound
    else
      match FindStorageMatch(raw, 0)
      case None => Found(AvatarPathSplit(path, avatarBucket))
      case Some((g1, g2)) =>
        match decode(g1)
        case None => DecodeThrew
        case Some(b) =>
          match decode(g2)
          case None => DecodeThrew
          case Some(p) =>
            var bucket := if Trim(b) != "" then Trim(b) else avatarBucket;
            var objectPath := if Trim(p) != "" then Trim(p) else path;
            Found(StorageRef(bucket, objectPath))
  }

  /** `normalizeToAbsoluteUrl(publicUrl) ?? publicUrl`. */
  function PublicAvatarUrl(publicUrl: string, baseUrl: string): (r: string)
    ensures publicUrl == "" ==> r == ""
    ensures IsHttpUrl(publicUrl) ==> r == publicUrl
    ensures |r| >= |publicUrl| && r[|r| - |publicUrl|..] == publicUrl
  {
    NormalizeToAbsoluteUrl(Some(publicUrl), baseUrl).GetOr(publicUrl)
  }

  /** `resolveAvatarUrl`. `configuredBucket` is the avatar bucket setting,
      `clientConfigured` whether a backend client exists, `publicUrlOf`
      the storage client's `getPublicUrl`. `None` is the URIError thrown by
      `decodeURIComponent`; every other outcome is a string. */
  method ResolveAvatarUrl(value: Option<string>, baseUrl: string, clientConfigured: bool,
                          configuredBucket: Option<string>, decode: UriDecoder,
                          publicUrlOf: (string, string) -> string)
    returns (url: Option<string>)
    ensures TrimmedOrEmpty(value) == "" ==> url == Some("")
    ensures var raw := TrimmedOrEmpty(value);
      raw != "" ==>
        var normalized := NormalizeToAbsoluteUrl(Some(raw), baseUrl).value;
        if IsHttpUrl(normalized) || !clientConfigured then url == Some(normalized)
        else
          match AvatarRefFor(raw, AvatarBucket(configuredBucket), decode)
          case DecodeThrew => url.None?
          case NotFound => url == Some(normalized)
          case Found(ref) => url == Some(PublicAvatarUrl(publicUrlOf(ref.bucket, ref.objectPath), baseUrl))
  {
    var raw := TrimmedOrEmpty(value);
    if raw == "" {
      return Some("");
    }
    var normalized := NormalizeToAbsoluteUrl(Some(raw), baseUrl).value;
    if IsHttpUrl(normalized) || !clientConfigured {
      return Some(normalized);
    }
    var path := StripLeadingSlashes(raw);
    if path == "" || Contains(path, "://") || StartsWith(path, "storage/v1/") {
      return Some(normalized);
    }
    var avatarBucket := AvatarBucket(configuredBucket);
    var bucket := avatarBucket;
    var objectPath := path;
    var urlMatch := FindStorageMatch(raw, 0);
    if urlMatch.Some? {
      var (g1, g2) := urlMatch.value;
      var b := decode(g1);
      if b.None? {
        return None;
      }
      bucket := if Trim(b.value) != "" then Trim(b.value) else bucket;
      var p := decode(g2);
      if p.None? {
        return None;
      }
      objectPath := if Trim(p.value) != "" then Trim(p.value) else objectPath;
    } else {
      var parts := Segments(path);
      if |parts| >= 2 && parts[0] != avatarBucket {
        bucket := parts[0];
        objectPath := Join(parts[1..], '/');
      } else if |parts| >= 2 && parts[0] == avatarBucket {
        objectPath := Join(parts[1..], '/');
      }
    }
    if objectPath == "" {
      return Some(normalized);
    }
    url := Some(PublicAvatarUrl(publicUrlOf(bucket, objectPath), baseUrl));
  }

  // ---------------------------------------------------------------------
  // The public daily ranking

  /** The landing page shows at most this many rows. */
  const PublicRankingSize: nat := 10

  const RankingErrorMessage: string := "Tagesranking konnte gerade nicht geladen werden."

  /** The lower-case literal of the placeholder pattern. */
  const PlaceholderWord: string := "fahrer/in"

  /** `(?:\s+\d+)?$` after the literal: nothing, or whitespace followed by
      digits up to the end. */
  predicate PlaceholderSuffix(t: string) {
    t == "" || (TrimStart(t) != t && TrimStart(t) != "" && AllDigits(TrimStart(t)))
  }

  /** `/^fahrer\/in(?:\s+\d+)?$/i`: a generated name such as "Fahrer/in 3",
      in any letter case. */
  predicate IsPlaceholderName(s: string)
    ensures IsPlaceholderName(s) ==>
      (|s| >= |PlaceholderWord| && (|s| == |PlaceholderWord| || IsSpace(s[|PlaceholderWord|])) && !IsSpace(s[|s| - 1]))
  {
    if |s| >= |PlaceholderWord| && LowerAscii(s[..|PlaceholderWord|]) == PlaceholderWord then
      var t := s[|PlaceholderWord|..];
      SuffixShape(t);
      assert t != "" ==> s[|s| - 1] == t[|t| - 1];
      assert LowerChar(s[|PlaceholderWord| - 1]) == 'n' by {
        assert LowerAscii(s[..|PlaceholderWord|])[|PlaceholderWord| - 1] == LowerChar(s[|PlaceholderWord| - 1]);
      }
      PlaceholderSuffix(t)
    else false
  }

  /** A non-empty placeholder suffix starts with whitespace and ends with a
      digit. */
  lemma SuffixShape(t: string)
    ensures PlaceholderSuffix(t) && t != "" ==> IsSpace(t[0]) && IsDigit(t[|t| - 1])
  {
    if PlaceholderSuffix(t) && t != "" {
      var r := TrimStart(t);
      assert |r| < |t|;
      assert r[|r| - 1] == t[|t| - 1];
    }
  }

  /** The name given to the row at `index` when nothing better is known. */
  function NumberedName(index: nat): string {
    FallbackName + " " + NatToString(index + 1)
  }

  /** The display name of a public ranking row: the row's own trimmed
      name unless it is a generated placeholder, else the user's display
      name, else the user's full name, else "Fahrer/in <position>". */
  function PublicDisplayName(e: LeaderboardEntry, user: Option<UserRow>, index: nat): (r: string)
    ensures r != ""
    ensures TrimmedOrEmpty(e.display_name) != "" && !IsPlaceholderName(TrimmedOrEmpty(e.display_name)) ==>
      r == TrimmedOrEmpty(e.display_name)
    ensures ((TrimmedOrEmpty(e.display_name) == "" || IsPlaceholderName(TrimmedOrEmpty(e.display_name)))
      && user.Some? && TrimmedOrEmpty(user.value.display_name) != "") ==>
      r == TrimmedOrEmpty(user.value.display_name)
    ensures ((TrimmedOrEmpty(e.display_name) == "" || IsPlaceholderName(TrimmedOrEmpty(e.display_name)))
      && user.None?) ==> r == NumberedName(index)
    ensures ((TrimmedOrEmpty(e.display_name) == "" || IsPlaceholderName(TrimmedOrEmpty(e.display_name)))
      && user.Some? && TrimmedOrEmpty(user.value.display_name) == ""
      && FullName(user.value.vorname, user.value.nachname) != "") ==>
      r == FullName(user.value.vorname, user.value.nachname)
    ensures ((TrimmedOrEmpty(e.display_name) == "" || IsPlaceholderName(TrimmedOrEmpty(e.display_name)))
      && user.Some? && TrimmedOrEmpty(user.value.display_name) == ""
      && FullName(user.value.vorname, user.value.nachname) == "") ==>
      r == NumberedName(index)
    ensures r == NumberedName(index)
      || (r == TrimmedOrEmpty(e.display_name) && !IsPlaceholderName(r))
      || (user.Some? && (r == TrimmedOrEmpty(user.value.display_name)
                         || r == FullName(user.value.vorname, user.value.nachname)))
  {
    var first := if user.Some? then TrimmedOrEmpty(user.value.vorname) else "";
    var last := if user.Some? then TrimmedOrEmpty(user.value.nachname) else "";
    var fullName := Trim(first + " " + last);
    var userDisplay := if user.Some? then TrimmedOrEmpty(user.value.display_name) else "";
    var rawEntryDisplay := TrimmedOrEmpty(e.display_name);
    var entryDisplay := if IsPlaceholderName(rawEntryDisplay) then "" else rawEntryDisplay;
    if user.None? then
      assert fullName == "" by { assert Trim(" ") == ""; }
      OrString(entryDisplay, NumberedName(index))
    else
      OrString(entryDisplay, OrString(userDisplay, OrString(fullName, NumberedName(index))))
  }

  /** One public ranking row: resolved name, `userAvatar || entryAvatar ||
      null` (neither resolved to a URL), and its position. */
  function PublicRow(e: LeaderboardEntry, user: Option<UserRow>, index: nat): LeaderboardEntry {
    e.(display_name := Some(PublicDisplayName(e, user, index)),
       avatar_url := AvatarCandidate(e, user),
       rank_position := Some(index + 1))
  }

  /** The rows the landing page shows for the selected base rows. */
  function PublicRows(base: seq<LeaderboardEntry>, users: Option<seq<UserRow>>): (r: seq<LeaderboardEntry>)
    ensures |r| == |base|
    ensures forall i :: 0 <= i < |r| ==> r[i].rank_position == Some(i + 1)
    ensures forall i :: 0 <= i < |r| ==> r[i].display_name.Some? && r[i].display_name.value != ""
    ensures forall i :: 0 <= i < |r| ==>
      r[i] == base[i].(display_name := r[i].display_name, avatar_url := r[i].avatar_url,
                       rank_position := r[i].rank_position)
    ensures forall i :: 0 <= i < |r| ==> Speed(r[i]) == Speed(base[i])
  {
    seq(|base|, i requires 0 <= i < |base| => PublicRow(base[i], UserFor(users, base[i].user_id), i))
  }

  /** A ranking query's result: its rows and whether it failed. */
  datatype RankingRead = RankingRead(data: Option<seq<LeaderboardEntry>>, failed: bool)

  datatype RankingView = ShowRows(rows: seq<LeaderboardEntry>) | ShowError(message: string)

  /** `loadPublicRanking`. `guest` is the retry through an anonymous
      session, `None` when no guest client exists or the anonymous sign-in
      failed; `cached` the rows cached by an earlier visit; `users` the
      users of the selected rows (`None` when that query failed). */
  function LoadPublicRanking(first: RankingRead, guest: Option<RankingRead>, cached: seq<LeaderboardEntry>,
                             today: string, parse: DateParser, users: Option<seq<UserRow>>): (r: RankingView)
    ensures r.ShowError? <==> (if first.failed && guest.Some? then guest.value.failed else first.failed) && cached == []
    ensures r.ShowError? ==> r.message == RankingErrorMessage
  {
    var read := if first.failed && guest.Some? then guest.value else first;
    if read.failed then
      if cached != [] then ShowRows(cached) else ShowError(RankingErrorMessage)
    else
      var base := TopToday(read.data.GetOr([]), today, parse, PublicRankingSize);
      var rows := PublicRows(base, users);
      if rows == [] && cached != [] then ShowRows(cached) else ShowRows(rows)
  }

  /** A successful query with rows of today shows at most ten of them,
      fastest first and numbered from 1 (`PublicRows`). */
  lemma PublicRankingShape(data: seq<LeaderboardEntry>, cached: seq<LeaderboardEntry>,
                           today: string, parse: DateParser, users: Option<seq<UserRow>>)
    requires TopToday(data, today, parse, PublicRankingSize) != [] || cached == []
    ensures var r := LoadPublicRanking(RankingRead(Some(data), false), None, cached, today, parse, users);
      && r.ShowRows?
      && r.rows == PublicRows(TopToday(data, today, parse, PublicRankingSize), users)
      && |r.rows| <= PublicRankingSize
      && SortedDesc(r.rows)
  {
    var base := TopToday(data, today, parse, PublicRankingSize);
    PublicRowsSorted(base, users);
  }

  /** Filling in names and positions keeps the order by speed. */
  lemma PublicRowsSorted(base: seq<LeaderboardEntry>, users: Option<seq<UserRow>>)
    requires SortedDesc(base)
    ensures SortedDesc(PublicRows(base, users))
  {
    var rows := PublicRows(base, users);
    forall i, j | 0 <= i < j < |rows| ensures Speed(rows[i]) >= Speed(rows[j]) {
      assert Speed(base[i]) >= Speed(base[j]);
    }
  }

  /** Every row shown is a row of today from the query, with only its
      name, avatar and position filled in. */
  lemma PublicRowsFromToday(data: seq<LeaderboardEntry>, today: string, parse: DateParser,
                            users: Option<seq<UserRow>>, i: nat)
    requires i < |PublicRows(TopToday(data, today, parse, PublicRankingSize), users)|
    ensures var row := PublicRows(TopToday(data, today, parse, PublicRankingSize), users)[i];
      (exists e :: (e in data && EntryDayKey(e, parse) == Some(today)
        && row == e.(display_name := row.display_name, avatar_url := row.avatar_url,
                     rank_position := row.rank_position)))
  {
    var base := TopToday(data, today, parse, PublicRankingSize);
    assert base[i] in base;
  }

  /** The landing page's ten rows are the first ten of the storefront's
      twenty: both cut the same stably sorted rows of today. */
  lemma PublicTopIsStorefrontPrefix(data: seq<LeaderboardEntry>, today: string, parse: DateParser)
    ensures TopToday(data, today, parse, PublicRankingSize)
         == Take(TopToday(data, today, parse, LeaderboardSize), PublicRankingSize)
  {
    var sorted := SortBySpeed(TodayRows(data, today, parse));
    var twenty := Take(sorted, LeaderboardSize);
    if |sorted| > PublicRankingSize {
      assert twenty[..PublicRankingSize] == sorted[..PublicRankingSize];
    }
  }

  /** A failed query falls back to the cached rows, or to the error text
      when nothing is cached; the guest retry replaces the first result. */
  lemma FailedRankingFallsBack(first: RankingRead, guest: Option<RankingRead>, cached: seq<LeaderboardEntry>,
                               today: string, parse: DateParser, users: Option<seq<UserRow>>)
    requires first.failed && (guest.None? || guest.value.failed)
    ensures LoadPublicRanking(first, guest, cached, today, parse, users)
         == if cached != [] then ShowRows(cached) else ShowError(RankingErrorMessage)
  {
  }

  // ---------------------------------------------------------------------
  // Placeholder names

  /** The generated name "Fahrer/in <n>" is itself a placeholder, so a row
      that carries it is renamed after its current position. */
  lemma NumberedNameIsPlaceholder(index: nat)
    ensures IsPlaceholderName(NumberedName(index))
  {
    var digits := NatToString(index + 1);
    var s := NumberedName(index);
    assert s == FallbackName + (" " + digits);
    FallbackLowered();
    assert s[..|PlaceholderWord|] == FallbackName;
    NumberSuffix(digits);
    assert s[|PlaceholderWord|..] == " " + digits;
  }

  lemma FallbackLowered()
    ensures |FallbackName| == |PlaceholderWord|
    ensures LowerAscii(FallbackName) == PlaceholderWord
  {
    var l := LowerAscii(FallbackName);
    assert l[0] == 'f';
    assert forall k :: 1 <= k < |FallbackName| ==> LowerChar(FallbackName[k]) == FallbackName[k];
  }

  lemma NumberSuffix(digits: string)
    requires digits != [] && AllDigits(digits)
    ensures PlaceholderSuffix(" " + digits)
  {
    assert IsSpace(' ');
    assert !IsSpace(digits[0]) by { assert IsDigit(digits[0]); }
    TrimStartPadding(" ", digits);
  }

  /** A row stored under a generated name, with no user behind it, is
      shown under the name of the position it now holds. */
  lemma PlaceholderRenumbered(e: LeaderboardEntry, before: nat, now: nat)
    requires e.display_name == Some(NumberedName(before))
    ensures PublicDisplayName(e, None, now) == NumberedName(now)
  {
    NumberedNameIsPlaceholder(before);
    var n := NumberedName(before);
    assert n[0] == 'F';
    assert !IsSpace(n[|n| - 1]) by { assert IsDigit(n[|n| - 1]); }
    TrimOfTrimmed(n);
  }

  // ---------------------------------------------------------------------
  // translateText

  datatype Language = De | En | It

  /** One row of a translation table: a global pattern (its source text)
      and the replacement. */
  datatype Replacement = Replacement(pattern: string, replacement: string)

  /** `text.replace(pattern, replacement)` for a global pattern: the
      runtime's regular-expression engine, supplied by the caller. */
  type RegexReplace = (string, string, string) -> string

  /** Applying the rows of a table to a text, first row first. */
  function Translated(table: seq<Replacement>, text: string, replace: RegexReplace): string
    decreases |table|
  {
    if table == [] then text
    else Translated(table[1..], replace(text, table[0].pattern, table[0].replacement), replace)
  }

  /** The table of a language other than German. */
  function TableFor(language: Language, en: seq<Replacement>, it: seq<Replacement>): seq<Replacement> {
    if language == It then it else en
  }

  /** `translateText`: German is the source language and stays as it is;
      otherwise every row of the language's table is applied in order. */
  method TranslateText(text: string, language: Language, en: seq<Replacement>, it: seq<Replacement>,
                       replace: RegexReplace)
    returns (translated: string)
    ensures language == De ==> translated == text
    ensures language != De ==> translated == Translated(TableFor(language, en, it), text, replace)
  {
    if language == De {
      return text;
    }
    var replacements := TableFor(language, en, it);
    translated := text;
    var i := 0;
    while i < |replacements|
      invariant 0 <= i <= |replacements|
      invariant Translated(replacements[i..], translated, replace) == Translated(replacements, text, replace)
    {
      assert replacements[i..][1..] == replacements[i + 1..];
      translated := replace(translated, replacements[i].pattern, replacements[i].replacement);
      i := i + 1;
    }
    assert replacements[i..] == [];
  }

  /** Splitting a table in two: the second part works on what the first
      produced. */
  lemma {:induction false} TranslatedAppend(a: seq<Replacement>, b: seq<Replacement>, text: string, replace: RegexReplace)
    ensures Translated(a + b, text, replace) == Translated(b, Translated(a, text, replace), replace)
    decreases |a|
  {
    if a != [] {
      assert (a + b)[1..] == a[1..] + b;
      TranslatedAppend(a[1..], b, replace(text, a[0].pattern, a[0].replacement), replace);
    } else {
      assert a + b == b;
    }
  }

  /** A text that no row of the table changes comes back unchanged. */
  lemma {:induction false} TranslatedUnmatched(table: seq<Replacement>, text: string, replace: RegexReplace)
    requires forall k :: 0 <= k < |table| ==> replace(text, table[k].pattern, table[k].replacement) == text
    ensures Translated(table, text, replace) == text
    decreases |table|
  {
    if table != [] {
      assert forall k :: 0 <= k < |table| - 1 ==> table[1..][k] == table[k + 1];
      TranslatedUnmatched(table[1..], text, replace);
    }
  }
}
