/** The purchased photos of a rider and the pending-checkout marker
    (src/components/PhotoShopSection.tsx:1347-1408): photos from unlocks and
    from purchase items are merged without repeating an id, and a marker
    left by a checkout in progress is removed, kept or rewritten with the
    ids still unconfirmed. */
module Purchases {
  import opened JsValues
  import opened ShopTypes
  import opened ShopHelpers

  /** The ids of some photos. */
  function Ids(photos: seq<Photo>): set<string> {
    set p | p in photos :: p.id
  }

  predicate NoDuplicateIds(photos: seq<Photo>) {
    forall i, j :: 0 <= i < j < |photos| ==> photos[i].id != photos[j].id
  }

  lemma IdsAppend(s: seq<Photo>, p: Photo)
    ensures Ids(s + [p]) == Ids(s) + {p.id}
  {
    assert forall q :: q in s + [p] <==> q in s || q == p;
  }

  lemma IdsCons(p: Photo, s: seq<Photo>)
    ensures Ids([p] + s) == {p.id} + Ids(s)
  {
    assert forall q :: q in [p] + s <==> q == p || q in s;
  }

  /** `acc` followed by each of `photos` whose id is not yet present, in
      order: the `seenPhotoIds` loop. */
  function DedupeOnto(acc: seq<Photo>, photos: seq<Photo>): (r: seq<Photo>)
    decreases |photos|
  {
    if photos == [] then acc
    else
      var p := photos[0];
      DedupeOnto(if p.id in Ids(acc) then acc else acc + [p], photos[1..])
  }

  /** The merge keeps every id and adds no other. */
  lemma {:induction false} DedupeOntoIds(acc: seq<Photo>, photos: seq<Photo>)
    ensures Ids(DedupeOnto(acc, photos)) == Ids(acc) + Ids(photos)
    decreases |photos|
  {
    if photos != [] {
      var p := photos[0];
      var next := if p.id in Ids(acc) then acc else acc + [p];
      IdsAppend(acc, p);
      DedupeOntoIds(next, photos[1..]);
      assert photos == [p] + photos[1..];
      IdsCons(p, photos[1..]);
    }
  }

  /** The merge never repeats an id. */
  lemma {:induction false} DedupeOntoNoDuplicates(acc: seq<Photo>, photos: seq<Photo>)
    requires NoDuplicateIds(acc)
    ensures NoDuplicateIds(DedupeOnto(acc, photos))
    decreases |photos|
  {
    if photos != [] {
      var p := photos[0];
      if p.id !in Ids(acc) {
        var next := acc + [p];
        forall i, j | 0 <= i < j < |next| ensures next[i].id != next[j].id {
          if j == |acc| {
            assert next[i] in acc;
          } else {
            assert next[i] == acc[i] && next[j] == acc[j];
          }
        }
        DedupeOntoNoDuplicates(next, photos[1..]);
      } else {
        DedupeOntoNoDuplicates(acc, photos[1..]);
      }
    }
  }

  /** The merge keeps `acc` in front and takes its photos from `photos`. */
  lemma {:induction false} DedupeOntoFrom(acc: seq<Photo>, photos: seq<Photo>)
    ensures var r := DedupeOnto(acc, photos);
      |r| >= |acc| && r[..|acc|] == acc && forall q :: q in r ==> q in acc || q in photos
    decreases |photos|
  {
    if photos != [] {
      var p := photos[0];
      var next := if p.id in Ids(acc) then acc else acc + [p];
      DedupeOntoFrom(next, photos[1..]);
      var r := DedupeOnto(acc, photos);
      assert r[..|acc|] == r[..|next|][..|acc|];
      assert forall q :: q in photos[1..] ==> q in photos;
    }
  }

  /** The first photo with each id, in order. */
  function Dedupe(photos: seq<Photo>): (r: seq<Photo>)
    ensures NoDuplicateIds(r)
    ensures Ids(r) == Ids(photos)
    ensures forall p :: p in r ==> p in photos
  {
    DedupeOntoIds([], photos);
    DedupeOntoNoDuplicates([], photos);
    DedupeOntoFrom([], photos);
    assert Ids([]) == {};
    DedupeOnto([], photos)
  }

  /** The loop that pushes each photo whose id was not seen yet. */
  method PushUnseen(unique0: seq<Photo>, photos: seq<Photo>) returns (unique: seq<Photo>, seen: set<string>)
    ensures unique == DedupeOnto(unique0, photos)
    ensures seen == Ids(unique)
  {
    unique := unique0;
    seen := Ids(unique0);
    var i := 0;
    while i < |photos|
      invariant 0 <= i <= |photos|
      invariant DedupeOnto(unique, photos[i..]) == DedupeOnto(unique0, photos)
      invariant seen == Ids(unique)
    {
      var photo := photos[i];
      assert photos[i..][1..] == photos[i + 1..];
      if photo.id !in seen {
        IdsAppend(unique, photo);
        seen := seen + {photo.id};
        unique := unique + [photo];
      }
      i := i + 1;
    }
    assert photos[i..] == [];
  }

  // ---------------------------------------------------------------------
  // The pending-checkout marker

  /** How long a marker stays fresh: two hours, in milliseconds. */
  const PendingLifetimeMs: real := 7200000.0

  /** The marker as read from storage: text that is not JSON, or the parsed
      object with its `photoIds` (when an array) and `createdAt` as
      `Number()` turns it into a number. */
  datatype RawMarker = Unparseable | Parsed(photoIds: Option<seq<Loose>>, createdAt: Num)

  /** What happens to the stored marker. */
  datatype MarkerAction = KeepMarker | RemoveMarker | RewriteMarker(photoIds: seq<string>, createdAt: real)

  /** The marker's photo ids: its strings that are not empty. */
  function PendingIds(photoIds: Option<seq<Loose>>): (r: seq<string>)
    ensures forall id :: id in r ==> id != ""
    ensures photoIds.None? ==> r == []
    ensures photoIds.Some? ==> forall s :: s != "" && StrVal(s) in photoIds.value ==> s in r
    ensures photoIds.Some? ==> forall id :: id in r ==> StrVal(id) in photoIds.value
    ensures photoIds.Some? ==> |r| <= |photoIds.value|
    decreases if photoIds.Some? then |photoIds.value| else 0
  {
    if photoIds.None? || photoIds.value == [] then []
    else
      var rest := PendingIds(Some(photoIds.value[1..]));
      assert forall x :: x in photoIds.value ==> x == photoIds.value[0] || x in photoIds.value[1..];
      match photoIds.value[0]
      case StrVal(s) => if s != "" then [s] + rest else rest
      case _ => rest
  }

  /** The filter keeps order and repeats: the ids of two runs of values are
      the two id lists joined. */
  lemma {:induction false} PendingIdsAppend(a: seq<Loose>, b: seq<Loose>)
    ensures PendingIds(Some(a + b)) == PendingIds(Some(a)) + PendingIds(Some(b))
  {
    if a == [] {
      assert a + b == b;
    } else {
      assert (a + b)[0] == a[0];
      assert (a + b)[1..] == a[1..] + b;
      PendingIdsAppend(a[1..], b);
    }
  }

  /** One value gives its id when it is a non-empty string, and nothing
      otherwise. */
  lemma PendingIdsOfOne(x: Loose)
    ensures PendingIds(Some([x])) == if x.StrVal? && x.s != "" then [x.s] else []
  {
    assert [x][1..] == [];
  }

  /** The ids of a list not among the confirmed ones, in order. */
  function Unconfirmed(ids: seq<string>, confirmed: set<string>): (r: seq<string>)
    ensures forall id :: id in r <==> id in ids && id !in confirmed
    ensures |r| <= |ids|
  {
    if ids == [] then []
    else
      var rest := Unconfirmed(ids[1..], confirmed);
      assert forall x :: x in ids <==> x == ids[0] || x in ids[1..];
      if ids[0] in confirmed then rest else [ids[0]] + rest
  }

  /** `isFresh`: a finite creation time less than two hours before now. */
  predicate IsFresh(createdAt: Num, now: real) {
    createdAt.Finite? && now - createdAt.v < PendingLifetimeMs
  }

  /** The marker decision, given the confirmed photo ids and whether the
      query for the still-missing photos succeeded. */
  function MarkerActionFor(marker: Option<RawMarker>, confirmed: set<string>, now: real, fetchOk: bool): (r: MarkerAction)
    ensures marker.None? ==> r == KeepMarker
    ensures marker == Some(Unparseable) ==> r == RemoveMarker
    ensures marker.Some? && marker.value.Parsed? && !IsFresh(marker.value.createdAt, now) ==> r == RemoveMarker
    ensures r.RewriteMarker? ==>
      (marker.Some? && marker.value.Parsed? && IsFresh(marker.value.createdAt, now)
       && r.createdAt == marker.value.createdAt.v && fetchOk
       && r.photoIds == Unconfirmed(PendingIds(marker.value.photoIds), confirmed) && r.photoIds != [])
    ensures r == RemoveMarker && marker.Some? && marker.value.Parsed? && IsFresh(marker.value.createdAt, now) ==>
      PendingIds(marker.value.photoIds) != [] && forall id :: id in PendingIds(marker.value.photoIds) ==> id in confirmed
    ensures marker.Some? && marker.value.Parsed? && IsFresh(marker.value.createdAt, now) && PendingIds(marker.value.photoIds) == [] ==>
      r == KeepMarker
  {
    match marker
    case None => KeepMarker
    case Some(Unparseable) => RemoveMarker
    case Some(Parsed(rawIds, createdAt)) =>
      var photoIds := PendingIds(rawIds);
      var isFresh := IsFresh(createdAt, now);
      if isFresh && photoIds != [] then
        var missing := Unconfirmed(photoIds, confirmed);
        if missing == [] then RemoveMarker
        else if !fetchOk then KeepMarker
        else
          var unresolved := Unconfirmed(missing, confirmed);
          UnconfirmedTwice(photoIds, confirmed);
          if unresolved == [] then RemoveMarker else RewriteMarker(unresolved, createdAt.v)
      else if !isFresh then RemoveMarker
      else KeepMarker
  }

  /** Filtering the unconfirmed ids again changes nothing: the ids re-checked
      after the missing photos are fetched are exactly the missing ones. */
  lemma {:induction false} UnconfirmedTwice(ids: seq<string>, confirmed: set<string>)
    ensures Unconfirmed(Unconfirmed(ids, confirmed), confirmed) == Unconfirmed(ids, confirmed)
  {
    if ids != [] {
      UnconfirmedTwice(ids[1..], confirmed);
    }
  }

  /** A fresh marker whose ids are all confirmed is removed; otherwise, once
      the missing photos are fetched, it keeps exactly the unconfirmed ids
      and its creation time. */
  lemma FreshMarkerReconciled(rawIds: Option<seq<Loose>>, createdAt: real, confirmed: set<string>, now: real)
    requires now - createdAt < PendingLifetimeMs && PendingIds(rawIds) != []
    ensures var r := MarkerActionFor(Some(Parsed(rawIds, Finite(createdAt))), confirmed, now, true);
      (r == RemoveMarker <==> forall id :: id in PendingIds(rawIds) ==> id in confirmed)
      && (r != RemoveMarker ==> r == RewriteMarker(Unconfirmed(PendingIds(rawIds), confirmed), createdAt))
  {
    var missing := Unconfirmed(PendingIds(rawIds), confirmed);
    if missing != [] {
      assert missing[0] in PendingIds(rawIds) && missing[0] !in confirmed;
    }
  }

  /** The photos a rider owns and the marker decision: the photos from
      unlocks and from purchase items without repeated ids, followed by the
      missing photos of a fresh marker when their query succeeds
      (`pendingFetch` is `None` when it fails), normalised for the shop. */
  method ReconcilePurchased(fromUnlocks: seq<Photo>, fromPurchaseItems: seq<Photo>, marker: Option<RawMarker>,
                            now: real, pendingFetch: Option<seq<Photo>>, demoPriceId: string)
    returns (purchased: seq<Photo>, action: MarkerAction)
    ensures action == MarkerActionFor(marker, Ids(fromUnlocks + fromPurchaseItems), now, pendingFetch.Some?)
    ensures purchased == DedupeOnto(Dedupe(fromUnlocks + fromPurchaseItems),
                                    PendingPhotos(marker, Ids(fromUnlocks + fromPurchaseItems), now, pendingFetch, demoPriceId))
    ensures NoDuplicateIds(purchased)
    ensures Ids(fromUnlocks + fromPurchaseItems) <= Ids(purchased)
  {
    var uniquePurchasedPhotos, seenPhotoIds := PushUnseen([], fromUnlocks + fromPurchaseItems);
    var confirmedPhotoIds := seenPhotoIds;
    action := KeepMarker;
    if marker.Some? {
      match marker.value {
        case Unparseable =>
          action := RemoveMarker;
        case Parsed(rawIds, createdAt) =>
          var photoIds := PendingIds(rawIds);
          var isFresh := createdAt.Finite? && now - createdAt.v < PendingLifetimeMs;
          if isFresh && photoIds != [] {
            var missingPendingPhotoIds := Unconfirmed(photoIds, confirmedPhotoIds);
            if missingPendingPhotoIds == [] {
              action := RemoveMarker;
            } else if pendingFetch.Some? {
              var normalized := ShopPhotos(pendingFetch.value, demoPriceId);
              uniquePurchasedPhotos, seenPhotoIds := PushUnseen(uniquePurchasedPhotos, normalized);
              var unresolvedPendingIds := Unconfirmed(missingPendingPhotoIds, confirmedPhotoIds);
              if unresolvedPendingIds == [] {
                action := RemoveMarker;
              } else {
                action := RewriteMarker(unresolvedPendingIds, createdAt.v);
              }
            }
          } else if !isFresh {
            action := RemoveMarker;
          }
      }
    }
    purchased := uniquePurchasedPhotos;
    DedupeOntoNoDuplicates(Dedupe(fromUnlocks + fromPurchaseItems),
                           PendingPhotos(marker, confirmedPhotoIds, now, pendingFetch, demoPriceId));
    DedupeOntoIds(Dedupe(fromUnlocks + fromPurchaseItems),
                  PendingPhotos(marker, confirmedPhotoIds, now, pendingFetch, demoPriceId));
  }

  /** Each photo normalised for the shop. */
  function ShopPhotos(photos: seq<Photo>, demoPriceId: string): (r: seq<Photo>)
    ensures |r| == |photos|
    ensures forall i :: 0 <= i < |r| ==> r[i] == ShopPhoto(photos[i], demoPriceId)
  {
    seq(|photos|, i requires 0 <= i < |photos| => ShopPhoto(photos[i], demoPriceId))
  }

  /** The fetched photos of a fresh marker's missing ids, normalised, or none
      when nothing was fetched. */
  function PendingPhotos(marker: Option<RawMarker>, confirmed: set<string>, now: real,
                         pendingFetch: Option<seq<Photo>>, demoPriceId: string): seq<Photo>
  {
    if marker.Some? && marker.value.Parsed? && IsFresh(marker.value.createdAt, now)
       && PendingIds(marker.value.photoIds) != [] && Unconfirmed(PendingIds(marker.value.photoIds), confirmed) != []
       && pendingFetch.Some?
    then ShopPhotos(pendingFetch.value, demoPriceId)
    else []
  }
}
