/** Which photos a signed-in user may download, and the user's own speeds
    (src/components/PhotoShopSection.tsx:1962-2057, 2335-2341). */
module Entitlement {
  import opened JsValues
  import opened ShopTypes
  import opened ShopUtils

  /** An unlock row without a photo id unlocks a whole day (a day pass). */
  predicate IsDayPassRow(row: UnlockedPhoto) {
    row.photo_id.None? || row.photo_id.value == ""
  }

  /** `unlockedPhotoIds`: the non-empty photo ids of the unlock rows. */
  function UnlockedPhotoIds(unlocked: seq<UnlockedPhoto>): (ids: set<string>)
    ensures forall id :: id in ids <==> id != "" && exists r :: r in unlocked && r.photo_id == Some(id)
  {
    set r | r in unlocked && r.photo_id.Some? && r.photo_id.value != "" :: r.photo_id.value
  }

  /** `purchasedPhotoIds`. */
  function PurchasedPhotoIds(purchased: seq<Photo>): (ids: set<string>)
    ensures forall id :: id in ids <==> exists p :: p in purchased && p.id == id
  {
    set p | p in purchased :: p.id
  }

  /** `unlockedDayKeys`: the day keys of the day-pass rows. */
  function UnlockedDayKeys(unlocked: seq<UnlockedPhoto>, parse: DateParser): (keys: set<string>)
    ensures forall k :: k in keys <==>
      exists r :: r in unlocked && IsDayPassRow(r) && UnlockedDayKey(r, parse) == Some(k)
  {
    set r | r in unlocked && IsDayPassRow(r) && UnlockedDayKey(r, parse).Some? :: UnlockedDayKey(r, parse).value
  }

  /** `isPhotoUnlocked`. */
  predicate IsPhotoUnlocked(photo: Photo, purchased: seq<Photo>, unlocked: seq<UnlockedPhoto>, parse: DateParser)
    ensures (exists p :: p in purchased && p.id == photo.id) ==> IsPhotoUnlocked(photo, purchased, unlocked, parse)
    ensures (exists r :: r in unlocked && r.photo_id == Some(photo.id)) && photo.id != "" ==>
      IsPhotoUnlocked(photo, purchased, unlocked, parse)
  {
    photo.id in PurchasedPhotoIds(purchased)
    || photo.id in UnlockedPhotoIds(unlocked)
    || (PhotoDayKey(photo, parse).Some? && PhotoDayKey(photo, parse).value in UnlockedDayKeys(unlocked, parse))
  }

  /** A photo is unlocked exactly when it was bought, when an unlock row
      names it, or when a day pass covers the day it was taken. */
  lemma IsPhotoUnlockedIff(photo: Photo, purchased: seq<Photo>, unlocked: seq<UnlockedPhoto>, parse: DateParser)
    ensures IsPhotoUnlocked(photo, purchased, unlocked, parse) <==>
      (exists p :: p in purchased && p.id == photo.id)
      || (photo.id != "" && exists r :: r in unlocked && r.photo_id == Some(photo.id))
      || (exists r :: r in unlocked && IsDayPassRow(r) && PhotoDayKey(photo, parse).Some?
                     && UnlockedDayKey(r, parse) == PhotoDayKey(photo, parse))
  {
    var day := PhotoDayKey(photo, parse);
    if day.Some? {
      assert day.value in UnlockedDayKeys(unlocked, parse) <==>
        exists r :: r in unlocked && IsDayPassRow(r) && UnlockedDayKey(r, parse) == Some(day.value);
    }
  }

  /** More purchases and more unlock rows never lock a photo again. */
  lemma UnlockMonotone(photo: Photo, purchased: seq<Photo>, unlocked: seq<UnlockedPhoto>,
                       morePurchased: seq<Photo>, moreUnlocked: seq<UnlockedPhoto>, parse: DateParser)
    requires IsPhotoUnlocked(photo, purchased, unlocked, parse)
    ensures IsPhotoUnlocked(photo, purchased + morePurchased, unlocked + moreUnlocked, parse)
  {
    assert PurchasedPhotoIds(purchased) <= PurchasedPhotoIds(purchased + morePurchased);
    assert UnlockedPhotoIds(unlocked) <= UnlockedPhotoIds(unlocked + moreUnlocked);
    assert UnlockedDayKeys(unlocked, parse) <= UnlockedDayKeys(unlocked + moreUnlocked, parse);
  }

  /** `hasTodayDayPass`: some day-pass row's day is today. */
  predicate HasTodayDayPass(unlocked: seq<UnlockedPhoto>, today: string, parse: DateParser)
    ensures HasTodayDayPass(unlocked, today, parse) <==> today in UnlockedDayKeys(unlocked, parse)
  {
    exists r :: r in unlocked && IsDayPassRow(r) && UnlockedDayKey(r, parse) == Some(today)
  }

  /** With today's day pass, every photo taken today is unlocked. */
  lemma DayPassUnlocksToday(photo: Photo, purchased: seq<Photo>, unlocked: seq<UnlockedPhoto>,
                            today: string, parse: DateParser)
    requires HasTodayDayPass(unlocked, today, parse)
    requires PhotoDayKey(photo, parse) == Some(today)
    ensures IsPhotoUnlocked(photo, purchased, unlocked, parse)
  {
    assert today in UnlockedDayKeys(unlocked, parse);
  }

  // ---------------------------------------------------------------------
  // The user's own speeds

  /** The speeds of the purchased photos that have one, in order. */
  function PurchasedSpeeds(purchased: seq<Photo>): (speeds: seq<real>)
    ensures |speeds| <= |purchased|
    ensures forall s :: s in speeds <==> exists p :: p in purchased && PhotoSpeedKmh(p) == Some(s)
  {
    if purchased == [] then []
    else
      var rest := PurchasedSpeeds(purchased[1..]);
      assert forall p :: p in purchased <==> p == purchased[0] || p in purchased[1..];
      match PhotoSpeedKmh(purchased[0])
      case None => rest
      case Some(s) => [s] + rest
  }

  /** `Math.max(...speeds)` over a non-empty list. */
  function MaxOf(speeds: seq<real>): (m: real)
    requires speeds != []
    ensures m in speeds
    ensures forall s :: s in speeds ==> s <= m
  {
    if |speeds| == 1 then speeds[0]
    else
      assert forall s :: s in speeds <==> s == speeds[0] || s in speeds[1..];
      Max(speeds[0], MaxOf(speeds[1..]))
  }

  /** `myTopSpeed`: the highest speed among the purchased photos. */
  function MyTopSpeed(purchased: seq<Photo>): (r: Option<real>)
    ensures r.None? <==> forall p :: p in purchased ==> PhotoSpeedKmh(p).None?
    ensures r.Some? ==> exists p :: p in purchased && PhotoSpeedKmh(p) == r
    ensures r.Some? ==> forall p :: p in purchased && PhotoSpeedKmh(p).Some? ==> PhotoSpeedKmh(p).value <= r.value
  {
    var speeds := PurchasedSpeeds(purchased);
    if speeds == [] then None
    else
      var m := MaxOf(speeds);
      assert forall p :: p in purchased && PhotoSpeedKmh(p).Some? ==> PhotoSpeedKmh(p).value in speeds;
      Some(m)
  }

  datatype SpeedCandidate = SpeedCandidate(photoId: string, speed: real)

  /** The index of the last photo with the given id. */
  function LastIndexWithId(purchased: seq<Photo>, id: string): (r: Option<nat>)
    ensures r.Some? ==> r.value < |purchased| && purchased[r.value].id == id
    ensures r.Some? ==> forall k :: r.value < k < |purchased| ==> purchased[k].id != id
    ensures r.None? ==> forall k :: 0 <= k < |purchased| ==> purchased[k].id != id
  {
    if purchased == [] then None
    else if purchased[|purchased| - 1].id == id then Some(|purchased| - 1)
    else LastIndexWithId(purchased[..|purchased| - 1], id)
  }

  /** `photoById.get(id)` for the Map built from the purchased photos: a
      later photo with the same id replaces an earlier one. */
  function PhotoById(purchased: seq<Photo>, id: string): (r: Option<Photo>)
    ensures r.Some? ==> r.value in purchased && r.value.id == id
    ensures r.None? <==> forall p :: p in purchased ==> p.id != id
  {
    match LastIndexWithId(purchased, id)
    case None => None
    case Some(i) => Some(purchased[i])
  }

  /** `c` is what the candidate list makes of the unlock row `row`. */
  predicate IsTodayCandidate(c: SpeedCandidate, row: UnlockedPhoto, purchased: seq<Photo>, today: string,
                             parse: DateParser) {
    row.photo_id == Some(c.photoId) && c.photoId != ""
    && UnlockedDayKey(row, parse) == Some(today)
    && PhotoById(purchased, c.photoId).Some?
    && PhotoSpeedKmh(PhotoById(purchased, c.photoId).value) == Some(c.speed)
  }

  /** What the candidate list makes of one unlock row: its photo id and the
      speed of the purchased photo with that id, when the row has a
      non-empty photo id, was unlocked today, and that photo exists and has a
      speed. */
  function RowCandidate(row: UnlockedPhoto, purchased: seq<Photo>, today: string,
                        parse: DateParser): (r: Option<SpeedCandidate>)
    ensures r.Some? ==> IsTodayCandidate(r.value, row, purchased, today, parse)
  {
    var photoId := if row.photo_id.Some? then row.photo_id.value else "";
    if photoId == "" || UnlockedDayKey(row, parse) != Some(today) then None
    else match PhotoById(purchased, photoId)
      case None => None
      case Some(photo) =>
        match PhotoSpeedKmh(photo)
        case None => None
        case Some(speed) => Some(SpeedCandidate(photoId, speed))
  }

  /** A row that qualifies gives exactly its candidate. */
  lemma RowCandidateComplete(row: UnlockedPhoto, purchased: seq<Photo>, today: string, parse: DateParser,
                             c: SpeedCandidate)
    requires IsTodayCandidate(c, row, purchased, today, parse)
    ensures RowCandidate(row, purchased, today, parse) == Some(c)
  {
  }

  /** The present values of a list of optional values, in order. */
  function Somes<T(==)>(opts: seq<Option<T>>): (r: seq<T>)
    ensures |r| <= |opts|
    ensures forall i :: 0 <= i < |opts| && opts[i].Some? ==> opts[i].value in r
    ensures forall x :: x in r ==> exists i :: 0 <= i < |opts| && opts[i] == Some(x)
  {
    if opts == [] then []
    else
      var rest := Somes(opts[1..]);
      assert forall i :: 1 <= i < |opts| ==> opts[i] == opts[1..][i - 1];
      (if opts[0].Some? then [opts[0].value] else []) + rest
  }

  lemma {:induction false} SomesAppend<T>(a: seq<Option<T>>, b: seq<Option<T>>)
    ensures Somes(a + b) == Somes(a) + Somes(b)
  {
    if a != [] {
      assert (a + b)[1..] == a[1..] + b;
      SomesAppend(a[1..], b);
    } else {
      assert a + b == b;
    }
  }

  /** `f` applied to every element, in order. */
  function MapSeq<A, B>(s: seq<A>, f: A -> B): (r: seq<B>)
    ensures |r| == |s|
    ensures forall i :: 0 <= i < |s| ==> r[i] == f(s[i])
  {
    seq(|s|, i requires 0 <= i < |s| => f(s[i]))
  }

  lemma MapSeqAppend<A, B>(a: seq<A>, b: seq<A>, f: A -> B)
    ensures MapSeq(a + b, f) == MapSeq(a, f) + MapSeq(b, f)
  {
    var l := MapSeq(a + b, f);
    forall i | 0 <= i < |l|
      ensures l[i] == (MapSeq(a, f) + MapSeq(b, f))[i]
    {
      if i < |a| {
        assert (a + b)[i] == a[i];
      } else {
        assert (a + b)[i] == b[i - |a|];
      }
    }
  }

  /** `RowCandidate` for fixed photos, day and date parser. */
  function RowCandidateOf(purchased: seq<Photo>, today: string, parse: DateParser): (f: UnlockedPhoto -> Option<SpeedCandidate>)
    ensures forall row :: f(row) == RowCandidate(row, purchased, today, parse)
  {
    row => RowCandidate(row, purchased, today, parse)
  }

  /** The photo-unlock rows of today, each paired with the speed of its
      purchased photo, in row order: every candidate comes from a row, and
      every row that qualifies gives its candidate. */
  function TodayCandidates(unlocked: seq<UnlockedPhoto>, purchased: seq<Photo>, today: string,
                           parse: DateParser): (cands: seq<SpeedCandidate>)
    ensures |cands| <= |unlocked|
    ensures forall i :: 0 <= i < |unlocked| && RowCandidate(unlocked[i], purchased, today, parse).Some? ==>
      RowCandidate(unlocked[i], purchased, today, parse).value in cands
    ensures forall c :: c in cands ==>
      exists i :: 0 <= i < |unlocked| && RowCandidate(unlocked[i], purchased, today, parse) == Some(c)
  {
    Somes(MapSeq(unlocked, RowCandidateOf(purchased, today, parse)))
  }

  /** Every candidate is what its unlock row makes of it. */
  lemma TodayCandidatesSound(unlocked: seq<UnlockedPhoto>, purchased: seq<Photo>, today: string, parse: DateParser)
    ensures forall c :: c in TodayCandidates(unlocked, purchased, today, parse) ==>
      exists r :: r in unlocked && IsTodayCandidate(c, r, purchased, today, parse)
  {
    forall c | c in TodayCandidates(unlocked, purchased, today, parse)
      ensures exists r :: r in unlocked && IsTodayCandidate(c, r, purchased, today, parse)
    {
      var i :| 0 <= i < |unlocked| && RowCandidate(unlocked[i], purchased, today, parse) == Some(c);
      assert unlocked[i] in unlocked;
    }
  }

  /** The candidates of two runs of rows are the two lists joined, so the
      candidates keep the order of their rows. */
  lemma TodayCandidatesAppend(a: seq<UnlockedPhoto>, b: seq<UnlockedPhoto>, purchased: seq<Photo>,
                              today: string, parse: DateParser)
    ensures TodayCandidates(a + b, purchased, today, parse)
         == TodayCandidates(a, purchased, today, parse) + TodayCandidates(b, purchased, today, parse)
  {
    var f := RowCandidateOf(purchased, today, parse);
    MapSeqAppend(a, b, f);
    SomesAppend(MapSeq(a, f), MapSeq(b, f));
  }

  /** A single row gives its candidate, or nothing. */
  lemma TodayCandidatesOfRow(row: UnlockedPhoto, purchased: seq<Photo>, today: string, parse: DateParser)
    ensures TodayCandidates([row], purchased, today, parse)
         == (match RowCandidate(row, purchased, today, parse) case None => [] case Some(c) => [c])
  {
    var l := MapSeq([row], RowCandidateOf(purchased, today, parse));
    assert l[1..] == [];
  }

  /** `candidates.reduce((p, c) => c.speed > p.speed ? c : p)`, as the
      index of the candidate kept: the first one with the highest speed. */
  function BestIndex(cands: seq<SpeedCandidate>): (i: nat)
    requires cands != []
    ensures i < |cands|
    ensures forall k :: 0 <= k < |cands| ==> cands[k].speed <= cands[i].speed
    ensures forall k :: 0 <= k < i ==> cands[k].speed < cands[i].speed
  {
    if |cands| == 1 then 0
    else
      var previous := BestIndex(cands[..|cands| - 1]);
      if cands[|cands| - 1].speed > cands[previous].speed then |cands| - 1 else previous
  }

  datatype TodayBest = TodayBest(speed: Option<real>, photoId: Option<string>)

  /** `myTodayBest`: among today's unlocked photos that were purchased and
      have a speed, the first fastest. */
  function MyTodayBest(unlocked: seq<UnlockedPhoto>, purchased: seq<Photo>, today: string,
                       parse: DateParser): (r: TodayBest)
    ensures r.speed.None? <==> r.photoId.None?
    ensures r.speed.None? <==> TodayCandidates(unlocked, purchased, today, parse) == []
    ensures r.speed.Some? ==> SpeedCandidate(r.photoId.value, r.speed.value) in TodayCandidates(unlocked, purchased, today, parse)
    ensures r.speed.Some? ==>
      forall c :: c in TodayCandidates(unlocked, purchased, today, parse) ==> c.speed <= r.speed.value
    ensures r.speed.Some? ==>
      exists i :: 0 <= i < |TodayCandidates(unlocked, purchased, today, parse)|
        && TodayCandidates(unlocked, purchased, today, parse)[i] == SpeedCandidate(r.photoId.value, r.speed.value)
        && forall k :: 0 <= k < i ==> TodayCandidates(unlocked, purchased, today, parse)[k].speed < r.speed.value
  {
    var cands := TodayCandidates(unlocked, purchased, today, parse);
    if cands == [] then TodayBest(None, None)
    else
      var best := cands[BestIndex(cands)];
      TodayBest(Some(best.speed), Some(best.photoId))
  }

  /** There is no best of today exactly when no unlock row qualifies. */
  lemma TodayBestNoneIffNoRow(unlocked: seq<UnlockedPhoto>, purchased: seq<Photo>, today: string, parse: DateParser)
    ensures MyTodayBest(unlocked, purchased, today, parse).speed.None? <==>
      forall i :: 0 <= i < |unlocked| ==> RowCandidate(unlocked[i], purchased, today, parse).None?
  {
    var cands := TodayCandidates(unlocked, purchased, today, parse);
    if cands != [] {
      assert cands[0] in cands;
    }
  }

  /** Today's best comes from a qualifying unlock row and is at least the
      speed of every qualifying row. */
  lemma TodayBestOverRows(unlocked: seq<UnlockedPhoto>, purchased: seq<Photo>, today: string, parse: DateParser)
    ensures var best := MyTodayBest(unlocked, purchased, today, parse);
      best.speed.Some? ==>
        (exists i :: 0 <= i < |unlocked|
           && RowCandidate(unlocked[i], purchased, today, parse) == Some(SpeedCandidate(best.photoId.value, best.speed.value)))
        && forall i :: 0 <= i < |unlocked| && RowCandidate(unlocked[i], purchased, today, parse).Some? ==>
             RowCandidate(unlocked[i], purchased, today, parse).value.speed <= best.speed.value
  {
    var best := MyTodayBest(unlocked, purchased, today, parse);
    if best.speed.Some? {
      var cands := TodayCandidates(unlocked, purchased, today, parse);
      assert SpeedCandidate(best.photoId.value, best.speed.value) in cands;
    }
  }

  /** Today's best is never above the overall best of the purchases. */
  lemma TodayBestBelowTopSpeed(unlocked: seq<UnlockedPhoto>, purchased: seq<Photo>, today: string, parse: DateParser)
    ensures var today := MyTodayBest(unlocked, purchased, today, parse);
      today.speed.Some? ==> MyTopSpeed(purchased).Some? && today.speed.value <= MyTopSpeed(purchased).value
  {
    var best := MyTodayBest(unlocked, purchased, today, parse);
    if best.speed.Some? {
      var c := SpeedCandidate(best.photoId.value, best.speed.value);
      var cands := TodayCandidates(unlocked, purchased, today, parse);
      assert c in cands;
      TodayCandidatesSound(unlocked, purchased, today, parse);
      var photo := PhotoById(purchased, c.photoId).value;
      assert photo in purchased && PhotoSpeedKmh(photo) == Some(c.speed);
    }
  }

  /** `dashboardTopSpeed`: the highest of the user's overall best, today's
      best and the own leaderboard row, ignoring missing ones. */
  function DashboardTopSpeed(myTop: Option<real>, myToday: Option<real>, leaderboardOwn: Option<real>): (r: Option<real>)
    ensures r.None? <==> myTop.None? && myToday.None? && leaderboardOwn.None?
    ensures r.Some? ==> r == myTop || r == myToday || r == leaderboardOwn
    ensures r.Some? ==>
      (myTop.Some? ==> myTop.value <= r.value) && (myToday.Some? ==> myToday.value <= r.value)
      && (leaderboardOwn.Some? ==> leaderboardOwn.value <= r.value)
  {
    var candidates := (if myTop.Some? then [myTop.value] else [])
      + (if myToday.Some? then [myToday.value] else [])
      + (if leaderboardOwn.Some? then [leaderboardOwn.value] else []);
    if candidates == [] then None
    else
      var m := MaxOf(candidates);
      assert myTop.Some? ==> myTop.value in candidates;
      assert myToday.Some? ==> myToday.value in candidates;
      assert leaderboardOwn.Some? ==> leaderboardOwn.value in candidates;
      Some(m)
  }
}
