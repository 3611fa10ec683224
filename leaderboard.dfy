/** The storefront's daily speed ranking (src/components/PhotoShopSection.tsx):
    loading and enriching today's rows, overlaying the signed-in rider's own
    row, reading the rider's own speed back from it, and synchronising the
    rider's best speed of the day into the ranking table. */
module Leaderboard {
  import opened JsValues
  import opened Text
  import opened ShopTypes
  import opened ShopUtils
  import opened Ranking

  /** The name shown for a rider without any name. */
  const FallbackName: string := "Fahrer/in"

  /** The storefront shows at most this many ranking rows. */
  const LeaderboardSize: nat := 20

  /** `resolveAvatarUrlValue`: turns a stored avatar reference into a URL
      (or `null`) through the storage client's public-URL lookup, so it is
      supplied by the caller. */
  type AvatarResolver = Option<string> -> Option<string>

  /** `${first} ${last}`.trim() over the trimmed parts. */
  function FullName(first: Option<string>, last: Option<string>): string {
    Trim(TrimmedOrEmpty(first) + " " + TrimmedOrEmpty(last))
  }

  /** `a || b`: the first string unless it is empty. */
  function OrString(a: string, b: string): (r: string)
    ensures a != "" ==> r == a
    ensures a == "" ==> r == b
  {
    if a != "" then a else b
  }

  // ---------------------------------------------------------------------
  // Users of the loaded rows

  /** The index of the last row with the given id: `Map.set` keeps the
      last row per id. */
  function LastUserIndex(rows: seq<UserRow>, id: string): (i: int)
    ensures -1 <= i < |rows|
    ensures i >= 0 ==> rows[i].id == Some(id)
    ensures forall j :: i < j < |rows| ==> rows[j].id != Some(id)
  {
    if rows == [] then -1
    else if rows[|rows| - 1].id == Some(id) then |rows| - 1
    else
      var i := LastUserIndex(rows[..|rows| - 1], id);
      assert forall j :: i < j < |rows| - 1 ==> rows[j] == rows[..|rows| - 1][j];
      i
  }

  /** `userById.get(entry.user_id)`: `users` is `None` when the users query
      failed; rows without a non-empty string id are never in the map. */
  function UserFor(users: Option<seq<UserRow>>, userId: Option<string>): (r: Option<UserRow>)
    ensures users.None? || userId.None? || userId == Some("") ==> r.None?
    ensures r.Some? ==> r.value.id == userId
    ensures r.Some? ==> exists i :: (0 <= i < |users.value| && users.value[i] == r.value
      && forall j :: i < j < |users.value| ==> users.value[j].id != userId)
    ensures r.None? && users.Some? && userId.Some? && userId.value != "" ==>
      forall j :: 0 <= j < |users.value| ==> users.value[j].id != userId
  {
    if users.None? || userId.None? || userId.value == "" then None
    else
      var i := LastUserIndex(users.value, userId.value);
      if i < 0 then None else Some(users.value[i])
  }

  // ---------------------------------------------------------------------
  // Loading the ranking

  /** The fallback name has no space at either end. */
  lemma FallbackNameTrimmed()
    ensures FallbackName != [] && !IsSpace(FallbackName[0]) && !IsSpace(FallbackName[|FallbackName| - 1])
  {
    assert FallbackName[0] == 'F' && FallbackName[|FallbackName| - 1] == 'n';
  }

  /** `resolveDisplayName`: the row's own name, the user's display name,
      the user's full name, or "Fahrer/in", whichever is first non-empty. */
  function ResolveEntryDisplayName(e: LeaderboardEntry, user: Option<UserRow>): (r: string)
    ensures r != [] && !IsSpace(r[0]) && !IsSpace(r[|r| - 1])
    ensures TrimmedOrEmpty(e.display_name) != "" ==> r == TrimmedOrEmpty(e.display_name)
    ensures TrimmedOrEmpty(e.display_name) == "" && user.Some? && TrimmedOrEmpty(user.value.display_name) != "" ==>
      r == TrimmedOrEmpty(user.value.display_name)
    ensures r == FallbackName || r == TrimmedOrEmpty(e.display_name)
      || (user.Some? && (r == TrimmedOrEmpty(user.value.display_name) || r == FullName(user.value.vorname, user.value.nachname)))
  {
    var direct := TrimmedOrEmpty(e.display_name);
    var userDisplay := if user.Some? then TrimmedOrEmpty(user.value.display_name) else "";
    var fullName := if user.Some? then FullName(user.value.vorname, user.value.nachname) else "";
    NameOrFallback(direct, userDisplay, fullName)
  }

  /** `a || b || c || 'Fahrer/in'` over trimmed names: never blank. */
  function NameOrFallback(a: string, b: string, c: string): (r: string)
    requires a == [] || (!IsSpace(a[0]) && !IsSpace(a[|a| - 1]))
    requires b == [] || (!IsSpace(b[0]) && !IsSpace(b[|b| - 1]))
    requires c == [] || (!IsSpace(c[0]) && !IsSpace(c[|c| - 1]))
    ensures r != [] && !IsSpace(r[0]) && !IsSpace(r[|r| - 1])
    ensures a != "" ==> r == a
    ensures a == "" && b != "" ==> r == b
    ensures a == "" && b == "" && c != "" ==> r == c
    ensures a == "" && b == "" && c == "" ==> r == FallbackName
  {
    if a != "" then a else if b != "" then b else if c != "" then c
    else FallbackNameTrimmed(); FallbackName
  }

  /** `userAvatar || entryAvatar || null`, each trimmed. */
  function AvatarCandidate(e: LeaderboardEntry, user: Option<UserRow>): (r: Option<string>)
    ensures user.Some? && TrimmedOrEmpty(user.value.avatar_url) != "" ==> r == Some(TrimmedOrEmpty(user.value.avatar_url))
    ensures (user.None? || TrimmedOrEmpty(user.value.avatar_url) == "") && TrimmedOrEmpty(e.avatar_url) != "" ==>
      r == Some(TrimmedOrEmpty(e.avatar_url))
    ensures r.None? <==> (user.None? || TrimmedOrEmpty(user.value.avatar_url) == "") && TrimmedOrEmpty(e.avatar_url) == ""
  {
    var userAvatar := if user.Some? then TrimmedOrEmpty(user.value.avatar_url) else "";
    var entryAvatar := TrimmedOrEmpty(e.avatar_url);
    if userAvatar != "" then Some(userAvatar)
    else if entryAvatar != "" then Some(entryAvatar)
    else None
  }

  function EnrichEntry(e: LeaderboardEntry, users: Option<seq<UserRow>>, resolve: AvatarResolver): LeaderboardEntry {
    var user := UserFor(users, e.user_id);
    e.(display_name := Some(ResolveEntryDisplayName(e, user)), avatar_url := resolve(AvatarCandidate(e, user)))
  }

  /** Name and avatar of each row resolved; nothing else changes. */
  function Enrich(base: seq<LeaderboardEntry>, users: Option<seq<UserRow>>, resolve: AvatarResolver): (r: seq<LeaderboardEntry>)
    ensures |r| == |base|
    ensures forall i :: 0 <= i < |r| ==>
      r[i] == base[i].(display_name := r[i].display_name, avatar_url := r[i].avatar_url)
    ensures forall i :: 0 <= i < |r| ==> r[i].display_name.Some? && r[i].display_name.value != ""
    ensures forall i :: 0 <= i < |r| ==> Speed(r[i]) == Speed(base[i])
  {
    seq(|base|, i requires 0 <= i < |base| => EnrichEntry(base[i], users, resolve))
  }

  /** What one query of the ranking table returned: its rows and its
      error. */
  datatype LeaderboardRead = LeaderboardRead(data: Option<seq<LeaderboardEntry>>, error: Option<Thrown>)

  /** What the storefront shows after loading the ranking. */
  datatype LeaderboardView = Rows(rows: seq<LeaderboardEntry>) | LoadFailed(error: ApiError)

  const LoadErrorMessage: string := "Leaderboard konnte nicht geladen werden."

  /** The read the storefront goes on with: a guest whose query failed
      retries through an anonymous session (`guest` is `None` when no guest
      client exists or the anonymous sign-in failed). */
  function ReadUsed(first: LeaderboardRead, guest: Option<LeaderboardRead>, signedIn: bool): LeaderboardRead {
    if first.error.Some? && !signedIn && guest.Some? then guest.value else first
  }

  /** `loadLeaderboard`: today's rows, fastest first, the first twenty,
      enriched, sorted again and numbered. A guest sees the cached rows
      instead when the query failed or returned no row of today and rows
      are cached; otherwise a failed query shows its error. */
  function LoadLeaderboard(first: LeaderboardRead, guest: Option<LeaderboardRead>, today: string,
                           parse: DateParser, signedIn: bool, cached: seq<LeaderboardEntry>,
                           users: Option<seq<UserRow>>, resolve: AvatarResolver): (r: LeaderboardView)
    ensures var read := ReadUsed(first, guest, signedIn);
      r.LoadFailed? <==> read.error.Some? && (signedIn || cached == [])
    ensures var read := ReadUsed(first, guest, signedIn);
      r.LoadFailed? ==> r.error == ToApiError(read.error.value, LoadErrorMessage)
    ensures r.Rows? && r.rows != cached ==> |r.rows| <= LeaderboardSize
  {
    var read := ReadUsed(first, guest, signedIn);
    if read.error.Some? then
      if !signedIn && cached != [] then Rows(cached) else LoadFailed(ToApiError(read.error.value, LoadErrorMessage))
    else
      var base := TopToday(read.data.GetOr([]), today, parse, LeaderboardSize);
      if !signedIn && base == [] && cached != [] then Rows(cached)
      else Rows(Ranked(SortBySpeed(Enrich(base, users, resolve))))
  }

  /** Enrichment keeps the speeds, so the second sort changes nothing: the
      loaded ranking is the enriched first twenty of today, fastest first,
      numbered from 1. */
  lemma LoadedRanking(data: seq<LeaderboardEntry>, today: string, parse: DateParser, signedIn: bool,
                      cached: seq<LeaderboardEntry>, users: Option<seq<UserRow>>, resolve: AvatarResolver)
    requires signedIn || TopToday(data, today, parse, LeaderboardSize) != [] || cached == []
    ensures var r := LoadLeaderboard(LeaderboardRead(Some(data), None), None, today, parse, signedIn, cached, users, resolve);
      r == Rows(Ranked(Enrich(TopToday(data, today, parse, LeaderboardSize), users, resolve)))
      && |r.rows| <= LeaderboardSize && SortedDesc(r.rows)
  {
    var base := TopToday(data, today, parse, LeaderboardSize);
    var enriched := Enrich(base, users, resolve);
    assert SortedDesc(enriched) by {
      forall i, j | 0 <= i < j < |enriched| ensures Speed(enriched[i]) >= Speed(enriched[j]) {
        assert Speed(base[i]) >= Speed(base[j]);
      }
    }
    SortSortedIdentity(enriched);
    var r := Ranked(enriched);
    forall i, j | 0 <= i < j < |r| ensures Speed(r[i]) >= Speed(r[j]) {
      assert Speed(enriched[i]) >= Speed(enriched[j]);
    }
  }

  // ---------------------------------------------------------------------
  // The signed-in rider's own row

  /** The rider's name from the profile form, the stored profile and the
      stored first and last names, or "" when none is set. */
  function ProfileName(profileDisplayName: string, profile: Option<UserRow>): (r: string)
    ensures r == [] || (!IsSpace(r[0]) && !IsSpace(r[|r| - 1]))
    ensures Trim(profileDisplayName) != "" ==> r == Trim(profileDisplayName)
    ensures r == "" ==> Trim(profileDisplayName) == "" && (profile.None? || TrimmedOrEmpty(profile.value.display_name) == "")
    ensures Trim(profileDisplayName) == "" && profile.None? ==> r == ""
    ensures Trim(profileDisplayName) == "" && profile.Some? && TrimmedOrEmpty(profile.value.display_name) != "" ==>
      r == TrimmedOrEmpty(profile.value.display_name)
    ensures Trim(profileDisplayName) == "" && profile.Some? && TrimmedOrEmpty(profile.value.display_name) == "" ==>
      r == FullName(profile.value.vorname, profile.value.nachname)
  {
    var formName := Trim(profileDisplayName);
    if formName != "" then formName
    else if profile.None? then ""
    else
      var storedName := TrimmedOrEmpty(profile.value.display_name);
      if storedName != "" then storedName
      else FullName(profile.value.vorname, profile.value.nachname)
  }

  /** `profileAvatarCandidate || storedAvatar || null`. */
  function ProfileAvatarCandidate(profileAvatarUrl: string, profile: Option<UserRow>): (r: Option<string>)
    ensures Trim(profileAvatarUrl) != "" ==> r == Some(Trim(profileAvatarUrl))
    ensures r.Some? ==> r.value != ""
    ensures Trim(profileAvatarUrl) == "" && profile.Some? && TrimmedOrEmpty(profile.value.avatar_url) != "" ==>
      r == Some(TrimmedOrEmpty(profile.value.avatar_url))
    ensures r.None? <==> Trim(profileAvatarUrl) == "" && (profile.None? || TrimmedOrEmpty(profile.value.avatar_url) == "")
  {
    var stored := if profile.Some? then TrimmedOrEmpty(profile.value.avatar_url) else "";
    var candidate := OrString(Trim(profileAvatarUrl), stored);
    if candidate != "" then Some(candidate) else None
  }

  /** The index of the first row of the given user (`findIndex`), or -1. */
  function FirstUserIndex(rows: seq<LeaderboardEntry>, user: string): (i: int)
    ensures -1 <= i < |rows|
    ensures i >= 0 ==> rows[i].user_id == Some(user)
    ensures forall j :: 0 <= j < |rows| && (i < 0 || j < i) ==> rows[j].user_id != Some(user)
  {
    if rows == [] then -1
    else if rows[0].user_id == Some(user) then 0
    else
      var i := FirstUserIndex(rows[1..], user);
      assert forall j :: 1 <= j < |rows| ==> rows[j] == rows[1..][j - 1];
      if i < 0 then -1 else i + 1
  }

  /** The index a left-to-right scan stops at is the one `findIndex`
      reports. */
  lemma FirstUserIndexAt(rows: seq<LeaderboardEntry>, user: string, i: nat)
    requires i <= |rows|
    requires forall j :: 0 <= j < i ==> rows[j].user_id != Some(user)
    requires i < |rows| ==> rows[i].user_id == Some(user)
    ensures FirstUserIndex(rows, user) == if i < |rows| then i else -1
  {
  }

  /** A truthy optional string: present and not empty. */
  predicate Truthy(o: Option<string>) {
    o.Some? && o.value != ""
  }

  /** The rider's existing row with today's best speed folded in: the
      larger speed, and the rider's name and avatar where the row has none. */
  function OwnRowPatched(row: LeaderboardEntry, todaySpeed: real, name: string, avatar: Option<string>): (r: LeaderboardEntry)
    ensures Speed(r) >= todaySpeed && Speed(r) >= Speed(row)
    ensures Speed(r) == todaySpeed || Speed(r) == Speed(row)
    ensures Truthy(row.display_name) ==> r.display_name == row.display_name
    ensures !Truthy(row.display_name) ==> r.display_name == Some(name)
    ensures Truthy(row.avatar_url) ==> r.avatar_url == row.avatar_url
    ensures !Truthy(row.avatar_url) ==> r.avatar_url == avatar
    ensures r.(speed_kmh := row.speed_kmh, display_name := row.display_name, avatar_url := row.avatar_url) == row
  {
    row.(speed_kmh := Some(Max(Speed(row), todaySpeed)),
         display_name := if Truthy(row.display_name) then row.display_name else Some(name),
         avatar_url := if Truthy(row.avatar_url) then row.avatar_url else avatar)
  }

  /** The row shown for a rider who has a speed today but no ranking row. */
  function LocalRow(user: string, todayKey: string, parkId: string, name: string, avatar: Option<string>,
                    speed: real, now: string): LeaderboardEntry
  {
    LeaderboardEntry("local-" + user + "-" + todayKey, Some(user), Some(parkId), Some(name), avatar,
                     Some(speed), None, Some(todayKey), Some(now), None)
  }

  /** The signed-in rider's view of the loaded rows before sorting: with a
      speed today, the rider's first row carries it, or a local row is
      appended. */
  function Overlaid(rows: seq<LeaderboardEntry>, user: Option<string>, todaySpeed: Option<real>, name: string,
                    avatar: Option<string>, todayKey: string, parkId: string, now: string): (r: seq<LeaderboardEntry>)
    ensures user.None? || todaySpeed.None? ==> r == rows
    ensures user.Some? && todaySpeed.Some? && FirstUserIndex(rows, user.value) >= 0 ==>
      var i := FirstUserIndex(rows, user.value);
      |r| == |rows| && r[i] == OwnRowPatched(rows[i], todaySpeed.value, name, avatar)
      && forall j :: 0 <= j < |rows| && j != i ==> r[j] == rows[j]
    ensures user.Some? && todaySpeed.Some? && FirstUserIndex(rows, user.value) < 0 ==>
      r == rows + [LocalRow(user.value, todayKey, parkId, name, avatar, todaySpeed.value, now)]
  {
    if user.None? || todaySpeed.None? then rows
    else
      var i := FirstUserIndex(rows, user.value);
      if i >= 0 then rows[i := OwnRowPatched(rows[i], todaySpeed.value, name, avatar)]
      else rows + [LocalRow(user.value, todayKey, parkId, name, avatar, todaySpeed.value, now)]
  }

  /** The rider's own row in the overlaid rows: it belongs to the rider and
      is at least as fast as today's best. */
  function OwnRow(rows: seq<LeaderboardEntry>, user: string, todaySpeed: real, name: string,
                  avatar: Option<string>, todayKey: string, parkId: string, now: string): (r: LeaderboardEntry)
    ensures r in Overlaid(rows, Some(user), Some(todaySpeed), name, avatar, todayKey, parkId, now)
    ensures r.user_id == Some(user) && Speed(r) >= todaySpeed
  {
    var i := FirstUserIndex(rows, user);
    var o := Overlaid(rows, Some(user), Some(todaySpeed), name, avatar, todayKey, parkId, now);
    if i >= 0 then
      assert o[i] == OwnRowPatched(rows[i], todaySpeed, name, avatar);
      o[i]
    else
      assert o[|rows|] == LocalRow(user, todayKey, parkId, name, avatar, todaySpeed, now);
      o[|rows|]
  }

  /** The overlay step of `effectiveLeaderboardEntries`: `findIndex` for
      the rider's row, then patch it in place or push a local row. */
  method OverlayOwnRow(entries: seq<LeaderboardEntry>, user: Option<string>, todaySpeed: Option<real>,
                       name: string, avatar: Option<string>, todayKey: string, parkId: string, now: string)
    returns (rows: seq<LeaderboardEntry>)
    ensures rows == Overlaid(entries, user, todaySpeed, name, avatar, todayKey, parkId, now)
  {
    rows := entries;
    if user.Some? && todaySpeed.Some? {
      var currentIndex := 0;
      while currentIndex < |rows| && rows[currentIndex].user_id != user
        invariant 0 <= currentIndex <= |rows|
        invariant forall j :: 0 <= j < currentIndex ==> rows[j].user_id != user
      {
        currentIndex := currentIndex + 1;
      }
      FirstUserIndexAt(rows, user.value, currentIndex);
      if currentIndex < |rows| {
        rows := rows[currentIndex := OwnRowPatched(rows[currentIndex], todaySpeed.value, name, avatar)];
      } else {
        rows := rows + [LocalRow(user.value, todayKey, parkId, name, avatar, todaySpeed.value, now)];
      }
    }
  }

  /** `effectiveLeaderboardEntries`: the loaded rows with the rider's own
      row overlaid, sorted by descending speed, cut to twenty and numbered. */
  method EffectiveLeaderboard(entries: seq<LeaderboardEntry>, user: Option<string>, todaySpeed: Option<real>,
                              profileDisplayName: string, profileAvatarUrl: string, profile: Option<UserRow>,
                              resolve: AvatarResolver, todayKey: string, parkId: string, now: string)
    returns (effective: seq<LeaderboardEntry>)
    ensures effective == Ranked(Take(SortBySpeed(Overlaid(entries, user, todaySpeed,
      OrString(ProfileName(profileDisplayName, profile), FallbackName),
      resolve(ProfileAvatarCandidate(profileAvatarUrl, profile)), todayKey, parkId, now)), LeaderboardSize))
  {
    var currentDisplayName := OrString(ProfileName(profileDisplayName, profile), FallbackName);
    var currentAvatar := resolve(ProfileAvatarCandidate(profileAvatarUrl, profile));
    var rows := OverlayOwnRow(entries, user, todaySpeed, currentDisplayName, currentAvatar, todayKey, parkId, now);
    rows := SortBySpeed(rows);
    rows := Take(rows, LeaderboardSize);
    effective := Ranked(rows);
  }

  /** A row left out of the first `cap` of a sorted list is outrun by every
      row kept, and `cap` rows are kept. */
  lemma TakeSortedKeepsFastest(s: seq<LeaderboardEntry>, cap: nat, e: LeaderboardEntry)
    requires e in s && e !in Take(SortBySpeed(s), cap)
    ensures |Take(SortBySpeed(s), cap)| == cap
    ensures forall k :: 0 <= k < cap ==> Speed(Take(SortBySpeed(s), cap)[k]) >= Speed(e)
  {
    var sorted := SortBySpeed(s);
    assert e in multiset(s);
    assert e in sorted;
    var j :| 0 <= j < |sorted| && sorted[j] == e;
    assert j >= cap;
  }

  /** `leaderboardOwnTopSpeed`: the speed of the rider's first row in the
      effective ranking, when it is a number. */
  function LeaderboardOwnTopSpeed(effective: seq<LeaderboardEntry>, user: Option<string>): (r: Option<real>)
    ensures user.None? ==> r.None?
    ensures r.Some? ==> exists i :: 0 <= i < |effective| && effective[i].user_id == user && effective[i].speed_kmh == r
    ensures user.Some? && (forall i :: 0 <= i < |effective| ==> effective[i].user_id != user) ==> r.None?
    ensures user.Some? ==> forall i ::
      (0 <= i < |effective| && effective[i].user_id == user
       && (forall k :: 0 <= k < i ==> effective[k].user_id != user)) ==> r == effective[i].speed_kmh
  {
    if user.None? then None
    else
      var i := FirstUserIndex(effective, user.value);
      if i < 0 then None else effective[i].speed_kmh
  }

  /** In a sorted list, the rider's first row is at least as fast as any
      row of the rider. */
  lemma FirstOwnRowFastest(kept: seq<LeaderboardEntry>, user: string, j: nat)
    requires SortedDesc(kept) && j < |kept| && kept[j].user_id == Some(user)
    ensures LeaderboardOwnTopSpeed(Ranked(kept), Some(user)).GetOr(0.0) >= Speed(kept[j])
  {
    var ranked := Ranked(kept);
    assert ranked[j].(rank_position := kept[j].rank_position) == kept[j];
    var i := FirstUserIndex(ranked, user);
    assert 0 <= i <= j;
    assert ranked[i].(rank_position := kept[i].rank_position) == kept[i];
  }

  /** Once the rider has a speed today, the ranking reports for the rider a
      speed at least as high (a row whose speed is not a number counting as
      0), unless twenty rows at least as fast push the rider's row out. */
  lemma OwnTopSpeedAtLeastToday(rows: seq<LeaderboardEntry>, user: string, todaySpeed: real,
                                name: string, avatar: Option<string>, todayKey: string,
                                parkId: string, now: string)
    ensures var overlaid := Overlaid(rows, Some(user), Some(todaySpeed), name, avatar, todayKey, parkId, now);
      var kept := Take(SortBySpeed(overlaid), LeaderboardSize);
      LeaderboardOwnTopSpeed(Ranked(kept), Some(user)).GetOr(0.0) >= todaySpeed
      || (|kept| == LeaderboardSize && forall k :: 0 <= k < |kept| ==> Speed(kept[k]) >= todaySpeed)
  {
    var overlaid := Overlaid(rows, Some(user), Some(todaySpeed), name, avatar, todayKey, parkId, now);
    var sorted := SortBySpeed(overlaid);
    var kept := Take(sorted, LeaderboardSize);
    var own := OwnRow(rows, user, todaySpeed, name, avatar, todayKey, parkId, now);
    if own in kept {
      var j :| 0 <= j < |kept| && kept[j] == own;
      assert SortedDesc(kept) by {
        forall a, b | 0 <= a < b < |kept| ensures Speed(kept[a]) >= Speed(kept[b]) {
          assert kept[a] == sorted[a] && kept[b] == sorted[b];
        }
      }
      FirstOwnRowFastest(kept, user, j);
    } else {
      TakeSortedKeepsFastest(overlaid, LeaderboardSize, own);
    }
  }

  // ---------------------------------------------------------------------
  // Synchronising the rider's best speed into the ranking table

  /** An error of the backend, with its message when that is a string. */
  datatype DbError = DbError(message: Option<string>)

  /** The rider's stored ranking row of today, as the sync reads it. */
  datatype ExistingRow = ExistingRow(id: Option<string>, speed_kmh: Option<real>,
                                     display_name: Option<string>, avatar_url: Option<string>)

  /** What one read of the rider's stored row returned. */
  datatype ReadResponse = ReadResponse(rows: Option<seq<ExistingRow>>, error: Option<DbError>, status: int)

  /** The columns of an update or insert: a `None` field is not sent. */
  datatype Payload = Payload(speed_kmh: Option<real>, display_name: Option<Option<string>>,
                             avatar_url: Option<string>, photo_id: Option<string>)

  /** What the sync does once it has read the stored row. */
  datatype SyncPlan =
    | Settled
    | UpdateRow(rowId: string, nextSpeed: real, payload: Payload)
    | InsertRow(speed: real, payload: Payload)
    | NothingToInsert

  /** An error saying that the profile columns of the ranking table are
      missing: its message mentions `display_name` or `avatar_url`. */
  predicate MentionsProfileColumns(error: Option<DbError>) {
    error.Some? && error.value.message.Some?
    && (Contains(error.value.message.value, "display_name") || Contains(error.value.message.value, "avatar_url"))
  }

  /** `displayName || null`. */
  function NullIfEmpty(s: string): (r: Option<string>)
    ensures r.None? <==> s == ""
    ensures r.Some? ==> r.value == s
  {
    if s == "" then None else Some(s)
  }

  /** The speed to store: the larger of the stored one and today's best. */
  function NextSpeed(existingSpeed: real, todaySpeed: Option<real>): (r: real)
    ensures r >= existingSpeed
    ensures todaySpeed.None? ==> r == existingSpeed
    ensures todaySpeed.Some? ==> r >= todaySpeed.value && (r == existingSpeed || r == todaySpeed.value)
  {
    if todaySpeed.Some? then Max(existingSpeed, todaySpeed.value) else existingSpeed
  }

  function SnapshotPayload(speed: Option<real>, photoId: Option<string>, displayName: string, avatarUrl: string,
                           canPersist: bool): Payload
  {
    Payload(speed,
            if canPersist then Some(NullIfEmpty(displayName)) else None,
            if canPersist then Some(avatarUrl) else None,
            if Truthy(photoId) then photoId else None)
  }

  /** The first row read, if any. */
  function FirstRow(rows: Option<seq<ExistingRow>>): Option<ExistingRow> {
    if rows.Some? && |rows.value| > 0 then Some(rows.value[0]) else None
  }

  /** The decision of `syncTodayLeaderboardEntry` once the stored row is
      known: leave a row that is up to date alone, update a row whose speed
      or profile is behind, insert a row only when there is a speed. */
  function PlanSync(existing: Option<ExistingRow>, todaySpeed: Option<real>, photoId: Option<string>,
                    displayName: string, avatarUrl: string, canPersist: bool): (r: SyncPlan)
    ensures var stored := existing.Some? && existing.value.id.Some?;
      (r.Settled? <==> stored && NextSpeed(existing.value.speed_kmh.GetOr(0.0), todaySpeed) == existing.value.speed_kmh.GetOr(0.0)
                        && TrimmedOrEmpty(existing.value.display_name) == displayName
                        && TrimmedOrEmpty(existing.value.avatar_url) == avatarUrl)
      && (r.UpdateRow? ==> stored && r.rowId == existing.value.id.value
                           && r.nextSpeed == NextSpeed(existing.value.speed_kmh.GetOr(0.0), todaySpeed)
                           && (r.payload.speed_kmh.Some? <==> r.nextSpeed != existing.value.speed_kmh.GetOr(0.0))
                           && (r.payload.speed_kmh.Some? ==> r.payload.speed_kmh.value == r.nextSpeed))
      && (r.InsertRow? <==> !stored && todaySpeed.Some?)
      && (r.NothingToInsert? <==> !stored && todaySpeed.None?)
    ensures r.InsertRow? ==> r.speed == todaySpeed.value && r.payload.speed_kmh == Some(r.speed)
    ensures r.UpdateRow? || r.InsertRow? ==>
      (r.payload.display_name.Some? <==> canPersist) && (r.payload.avatar_url.Some? <==> canPersist)
      && (r.payload.display_name.Some? ==> r.payload.display_name.value == NullIfEmpty(displayName))
      && (r.payload.photo_id.Some? <==> Truthy(photoId)) && (r.payload.photo_id.Some? ==> r.payload.photo_id == photoId)
  {
    if existing.Some? && existing.value.id.Some? then
      var row := existing.value;
      var existingSpeed := row.speed_kmh.GetOr(0.0);
      var nextSpeed := NextSpeed(existingSpeed, todaySpeed);
      var shouldUpdateProfile := TrimmedOrEmpty(row.display_name) != displayName || TrimmedOrEmpty(row.avatar_url) != avatarUrl;
      if nextSpeed == existingSpeed && !shouldUpdateProfile then Settled
      else
        UpdateRow(row.id.value, nextSpeed,
                  SnapshotPayload(if nextSpeed != existingSpeed then Some(nextSpeed) else None,
                                  photoId, displayName, avatarUrl, canPersist))
    else if todaySpeed.None? then NothingToInsert
    else InsertRow(todaySpeed.value, SnapshotPayload(todaySpeed, photoId, displayName, avatarUrl, canPersist))
  }

  /** What the sync knows about the rider: the id, the park day, the
      change key, today's best speed and its photo, the name and avatar URL
      to store, and the current time. */
  datatype SyncInput = SyncInput(userId: string, todayKey: string, parkId: string, key: string,
                                 todaySpeed: Option<real>, photoId: Option<string>,
                                 displayName: string, avatarUrl: string, now: string)

  /** The backend's answers: the read with the profile columns, the read
      without them, and the error of the update or insert. */
  datatype Backend = Backend(withColumns: ReadResponse, withoutColumns: ReadResponse, writeError: Option<DbError>)

  /** The storefront state the sync changes: the last synchronised key, what
      is known about the profile columns, and the loaded ranking rows. */
  datatype SyncState = SyncState(syncKey: string, profileColumns: Option<bool>, entries: seq<LeaderboardEntry>)

  /** The local rows after a successful update of the row `rowId`. */
  function PatchEntries(entries: seq<LeaderboardEntry>, rowId: string, nextSpeed: real, inp: SyncInput,
                        canPersist: bool): (r: seq<LeaderboardEntry>)
    ensures |r| == |entries|
    ensures forall i :: 0 <= i < |r| && entries[i].id != rowId ==> r[i] == entries[i]
    ensures forall i :: 0 <= i < |r| && entries[i].id == rowId ==> r[i].speed_kmh == Some(nextSpeed)
    ensures forall i :: 0 <= i < |r| && entries[i].id == rowId ==>
      r[i].photo_id == (if inp.photoId.Some? then inp.photoId else entries[i].photo_id)
    ensures forall i :: 0 <= i < |r| && entries[i].id == rowId && canPersist ==>
      r[i].display_name == (if inp.displayName == "" then None else Some(inp.displayName))
      && r[i].avatar_url == Some(inp.avatarUrl)
    ensures forall i :: 0 <= i < |r| && entries[i].id == rowId && !canPersist ==>
      r[i].display_name == entries[i].display_name && r[i].avatar_url == entries[i].avatar_url
    ensures forall i :: 0 <= i < |r| ==>
      r[i].id == entries[i].id && r[i].user_id == entries[i].user_id && r[i].park_id == entries[i].park_id
      && r[i].rank_position == entries[i].rank_position && r[i].ride_date == entries[i].ride_date
      && r[i].created_at == entries[i].created_at
  {
    seq(|entries|, i requires 0 <= i < |entries| =>
      var e := entries[i];
      if e.id != rowId then e
      else e.(speed_kmh := Some(nextSpeed), photo_id := inp.photoId.OrElse(e.photo_id),
              display_name := if canPersist then NullIfEmpty(inp.displayName) else e.display_name,
              avatar_url := if canPersist then Some(inp.avatarUrl) else e.avatar_url))
  }

  /** The local row put in front after a successful insert. */
  function InsertedRow(inp: SyncInput, speed: real, canPersist: bool): LeaderboardEntry {
    LeaderboardEntry("local-db-" + inp.userId + "-" + inp.todayKey, Some(inp.userId), Some(inp.parkId),
                     if canPersist then NullIfEmpty(inp.displayName) else None,
                     if canPersist then Some(inp.avatarUrl) else None,
                     Some(speed), None, Some(inp.todayKey), Some(inp.now), inp.photoId)
  }

  /** One run of `syncTodayLeaderboardEntry` (`ready`: a backend client and
      a signed-in rider exist). */
  function SyncStep(s: SyncState, ready: bool, inp: SyncInput, db: Backend): (r: SyncState)
    ensures !ready || s.syncKey == inp.key ==> r == s
    ensures r.syncKey == s.syncKey || r.syncKey == inp.key
    ensures r.syncKey != s.syncKey ==> db.writeError.None? || r.entries == s.entries
    ensures r.entries == s.entries
      || (|r.entries| == |s.entries| && r.syncKey == inp.key)
      || (inp.todaySpeed.Some? && r.syncKey == inp.key && |r.entries| == |s.entries| + 1
          && r.entries[1..] == s.entries && r.entries[0].speed_kmh == inp.todaySpeed
          && r.entries[0].user_id == Some(inp.userId))
    ensures r.profileColumns != s.profileColumns ==>
      r.profileColumns == Some(true) || MentionsProfileColumns(db.withColumns.error) || MentionsProfileColumns(db.writeError)
  {
    if !ready || s.syncKey == inp.key then s
    else
      var prefer := s.profileColumns != Some(false);
      var first := if prefer then db.withColumns else db.withoutColumns;
      var fallback := prefer && MentionsProfileColumns(first.error);
      var read := if fallback then db.withoutColumns else first;
      var canPersist := prefer && !fallback;
      var columns := if fallback then Some(false) else s.profileColumns;
      if read.error.Some? && read.status != 406 then s.(profileColumns := columns)
      else
        match PlanSync(FirstRow(read.rows), inp.todaySpeed, inp.photoId, inp.displayName, inp.avatarUrl, canPersist)
        case Settled => SyncState(inp.key, columns, s.entries)
        case NothingToInsert => s.(profileColumns := columns)
        case UpdateRow(rowId, nextSpeed, _) =>
          if db.writeError.None? then SyncState(inp.key, columns, PatchEntries(s.entries, rowId, nextSpeed, inp, canPersist))
          else if canPersist && MentionsProfileColumns(db.writeError) then s.(profileColumns := Some(false))
          else s.(profileColumns := columns)
        case InsertRow(speed, _) =>
          if db.writeError.None? then
            SyncState(inp.key, if canPersist then Some(true) else columns, [InsertedRow(inp, speed, canPersist)] + s.entries)
          else if canPersist && MentionsProfileColumns(db.writeError) then s.(profileColumns := Some(false))
          else s.(profileColumns := columns)
  }

  /** A speed today above the stored one is sent to the stored row and, once
      the update succeeds, shown on every local row with that id. */
  lemma SyncUpdateRaisesSpeed(s: SyncState, inp: SyncInput, db: Backend, row: ExistingRow, i: nat)
    requires s.syncKey != inp.key && s.profileColumns == Some(true)
    requires db.withColumns == ReadResponse(Some([row]), None, 200)
    requires row.id.Some? && db.writeError.None?
    requires inp.todaySpeed.Some? && inp.todaySpeed.value > row.speed_kmh.GetOr(0.0)
    requires i < |s.entries| && s.entries[i].id == row.id.value
    ensures var r := SyncStep(s, true, inp, db);
      |r.entries| == |s.entries| && r.syncKey == inp.key
      && r.entries[i].speed_kmh == inp.todaySpeed
  {
    assert FirstRow(db.withColumns.rows) == Some(row);
    var plan := PlanSync(Some(row), inp.todaySpeed, inp.photoId, inp.displayName, inp.avatarUrl, true);
    assert plan.UpdateRow? && plan.nextSpeed == inp.todaySpeed.value;
    var r := SyncStep(s, true, inp, db);
    assert r.entries == PatchEntries(s.entries, row.id.value, plan.nextSpeed, inp, true);
  }

  /** With no stored row, a rider without a speed today gets no row, and a
      rider with one gets exactly one row in front, carrying that speed. */
  lemma SyncInsertsOnlyWithSpeed(s: SyncState, inp: SyncInput, db: Backend)
    requires s.syncKey != inp.key && s.profileColumns == Some(true)
    requires db.withColumns == ReadResponse(Some([]), None, 200)
    ensures var r := SyncStep(s, true, inp, db);
      (inp.todaySpeed.None? ==> r == s)
      && (inp.todaySpeed.Some? && db.writeError.None? ==>
            |r.entries| == |s.entries| + 1 && r.entries[1..] == s.entries
            && r.entries[0].speed_kmh == inp.todaySpeed && r.entries[0].user_id == Some(inp.userId)
            && r.syncKey == inp.key)
  {
    assert FirstRow(db.withColumns.rows) == None;
  }

  /** The storefront's ranking state and the two references the sync keeps
      between runs. */
  class LeaderboardSync {
    /** `leaderboardSyncKeyRef`: the key of the last completed sync. */
    var syncKey: string
    /** `leaderboardProfileColumnsRef`: whether the ranking table has the
        profile columns (`None` while unknown). */
    var profileColumns: Option<bool>
    /** `leaderboardEntries`: the loaded ranking rows. */
    var entries: seq<LeaderboardEntry>

    function State(): SyncState
      reads this
    {
      SyncState(syncKey, profileColumns, entries)
    }

    constructor(loaded: seq<LeaderboardEntry>)
      ensures syncKey == "" && profileColumns == None && entries == loaded
    {
      syncKey := "";
      profileColumns := None;
      entries := loaded;
    }

    /** `syncTodayLeaderboardEntry`. */
    method Sync(ready: bool, inp: SyncInput, db: Backend)
      modifies this
      ensures State() == SyncStep(old(State()), ready, inp, db)
    {
      if !ready || syncKey == inp.key {
        return;
      }
      var preferProfileColumns := profileColumns != Some(false);
      var read := if preferProfileColumns then db.withColumns else db.withoutColumns;
      var canPersistProfileSnapshot := preferProfileColumns;
      if preferProfileColumns && MentionsProfileColumns(read.error) {
        profileColumns := Some(false);
        canPersistProfileSnapshot := false;
        read := db.withoutColumns;
      }
      if read.error.Some? && read.status != 406 {
        return;
      }
      var plan := PlanSync(FirstRow(read.rows), inp.todaySpeed, inp.photoId, inp.displayName, inp.avatarUrl,
                           canPersistProfileSnapshot);
      match plan {
        case Settled =>
          syncKey := inp.key;
        case NothingToInsert =>
        case UpdateRow(rowId, nextSpeed, _) =>
          if db.writeError.None? {
            entries := PatchEntries(entries, rowId, nextSpeed, inp, canPersistProfileSnapshot);
            syncKey := inp.key;
          } else if canPersistProfileSnapshot && MentionsProfileColumns(db.writeError) {
            profileColumns := Some(false);
          }
        case InsertRow(speed, _) =>
          if db.writeError.None? {
            entries := [InsertedRow(inp, speed, canPersistProfileSnapshot)] + entries;
            syncKey := inp.key;
            if canPersistProfileSnapshot {
              profileColumns := Some(true);
            }
          } else if canPersistProfileSnapshot && MentionsProfileColumns(db.writeError) {
            profileColumns := Some(false);
          }
      }
    }
  }
}
