/** Turning what a photo row stores into something fetchable
    (src/components/PhotoShopSection.tsx:113-213): making relative storage
    URLs absolute, choosing a photo's display URL, and splitting a stored
    path or object-storage URL into a bucket and an object path. */
module StorageRefs {
  import opened JsValues
  import opened Text
  import opened ShopTypes

  /** `decodeURIComponent`: percent-decoding as in section 2.1 of RFC 3986,
      or `None` where the runtime throws a URIError (a malformed escape or
      an invalid UTF-8 sequence). Supplied by the caller. */
  type UriDecoder = string -> Option<string>

  predicate IsHttpUrl(s: string) {
    StartsWith(s, "http://") || StartsWith(s, "https://")
  }

  // ---------------------------------------------------------------------
  // normalizeToAbsoluteUrl / directPhotoUrl / resolvePhotoUrl

  /** `normalizeToAbsoluteUrl` with the configured project URL `baseUrl`
      (empty when none is configured): root-relative and `storage/v1/`
      paths are prefixed with it, anything else is kept. */
  function NormalizeToAbsoluteUrl(value: Option<string>, baseUrl: string): (r: Option<string>)
    ensures r.None? <==> value.None? || value.value == ""
    ensures r.Some? ==> |r.value| >= |value.value| && r.value[|r.value| - |value.value|..] == value.value
    ensures r.Some? && IsHttpUrl(value.value) ==> r == value
    ensures r.Some? && baseUrl == "" ==> r == value
    ensures r.Some? && !IsHttpUrl(value.value) && baseUrl != "" ==>
      if StartsWith(value.value, "/") then r.value == baseUrl + value.value
      else if StartsWith(value.value, "storage/v1/") then r.value == baseUrl + "/" + value.value
      else r == value
  {
    if value.None? || value.value == "" then None
    else
      var v := value.value;
      if IsHttpUrl(v) then Some(v)
      else if baseUrl == "" then Some(v)
      else if StartsWith(v, "/") then Some(baseUrl + v)
      else if StartsWith(v, "storage/v1/") then Some(baseUrl + "/" + v)
      else Some(v)
  }

  lemma HttpPrefixKept(base: string, rest: string)
    requires IsHttpUrl(base)
    ensures IsHttpUrl(base + rest)
  {
    if StartsWith(base, "http://") {
      assert (base + rest)[..7] == base[..7];
    } else {
      assert (base + rest)[..8] == base[..8];
    }
  }

  /** With an http(s) project URL (or none), normalising twice is
      normalising once. */
  lemma NormalizeIdempotent(value: Option<string>, baseUrl: string)
    requires baseUrl == "" || IsHttpUrl(baseUrl)
    ensures NormalizeToAbsoluteUrl(NormalizeToAbsoluteUrl(value, baseUrl), baseUrl)
         == NormalizeToAbsoluteUrl(value, baseUrl)
  {
    if value.Some? && value.value != "" && baseUrl != "" && !IsHttpUrl(value.value) {
      var v := value.value;
      if StartsWith(v, "/") {
        HttpPrefixKept(baseUrl, v);
      } else if StartsWith(v, "storage/v1/") {
        HttpPrefixKept(baseUrl, "/" + v);
        assert baseUrl + "/" + v == baseUrl + ("/" + v);
      }
    }
  }

  /** `directPhotoUrl`: `image_url ?? thumbnail_url ?? url`, normalised. An
      empty `image_url` is not nullish, so it hides the other two. */
  function DirectPhotoUrl(photo: Photo, baseUrl: string): (r: Option<string>)
    ensures photo.image_url.Some? ==> r == NormalizeToAbsoluteUrl(photo.image_url, baseUrl)
    ensures photo.image_url == Some("") ==> r.None?
    ensures photo.image_url.None? && photo.thumbnail_url.Some? ==>
      r == NormalizeToAbsoluteUrl(photo.thumbnail_url, baseUrl)
    ensures photo.image_url.None? && photo.thumbnail_url.None? ==>
      r == NormalizeToAbsoluteUrl(photo.url, baseUrl)
    ensures r.Some? ==> r.value != ""
  {
    NormalizeToAbsoluteUrl(photo.image_url.OrElse(photo.thumbnail_url).OrElse(photo.url), baseUrl)
  }

  /** `resolvePhotoUrl`: an already resolved URL, else the direct URL, else
      a storage path that is itself an http(s) URL. */
  function ResolvePhotoUrl(photo: Photo, resolvedUrl: Option<string>, baseUrl: string): (r: Option<string>)
    ensures resolvedUrl.Some? && resolvedUrl.value != "" ==> r == resolvedUrl
    ensures r.Some? ==> r.value != ""
    ensures r.Some? ==> r == resolvedUrl || r == DirectPhotoUrl(photo, baseUrl) || r == photo.storage_path
    ensures r.None? ==>
      (DirectPhotoUrl(photo, baseUrl).None? && (photo.storage_path.None? || !IsHttpUrl(photo.storage_path.value)))
    ensures !(resolvedUrl.Some? && resolvedUrl.value != "") && DirectPhotoUrl(photo, baseUrl).Some? ==>
      r == DirectPhotoUrl(photo, baseUrl)
    ensures !(resolvedUrl.Some? && resolvedUrl.value != "") && DirectPhotoUrl(photo, baseUrl).None? ==>
      (r.Some? <==> photo.storage_path.Some? && IsHttpUrl(photo.storage_path.value))
      && (r.Some? ==> r == photo.storage_path)
  {
    if resolvedUrl.Some? && resolvedUrl.value != "" then resolvedUrl
    else
      var direct := DirectPhotoUrl(photo, baseUrl);
      if direct.Some? then direct
      else if photo.storage_path.None? || photo.storage_path.value == "" then None
      else if IsHttpUrl(photo.storage_path.value) then photo.storage_path
      else None
  }

  // ---------------------------------------------------------------------
  // The object-storage URL pattern
  //   /\/storage\/v1\/object\/(?:public|sign)\/([^/?#]+)\/(.+?)(?:\?|$)/i

  const ObjectPrefix: string := "/storage/v1/object/"

  /** The pattern's literal text occurs at `i`, ignoring ASCII case. */
  predicate LiteralAt(s: string, i: nat, lit: string) {
    i + |lit| <= |s| && forall k :: 0 <= k < |lit| ==> LowerChar(s[i + k]) == lit[k]
  }

  predicate IsLineTerminator(c: char) {
    c == '\n' || c == '\r' || c == '\U{2028}' || c == '\U{2029}'
  }

  /** `[^/?#]` */
  predicate IsBucketChar(c: char) {
    c != '/' && c != '?' && c != '#'
  }

  /** The end of the run of bucket characters that starts at `j`. */
  function BucketEnd(s: string, j: nat): (k: nat)
    requires j <= |s|
    ensures j <= k <= |s|
    ensures forall m :: j <= m < k ==> IsBucketChar(s[m])
    ensures k < |s| ==> !IsBucketChar(s[k])
    decreases |s| - j
  {
    if j == |s| || !IsBucketChar(s[j]) then j else BucketEnd(s, j + 1)
  }

  /** The first index at or after `j` holding '?', or the end. */
  function QueryEnd(s: string, j: nat): (k: nat)
    requires j <= |s|
    ensures j <= k <= |s|
    ensures forall m :: j <= m < k ==> s[m] != '?'
    ensures k < |s| ==> s[k] == '?'
    decreases |s| - j
  {
    if j == |s| || s[j] == '?' then j else QueryEnd(s, j + 1)
  }

  predicate NoLineTerminator(s: string) {
    forall m :: 0 <= m < |s| ==> !IsLineTerminator(s[m])
  }

  /** Where the bucket group starts when the pattern's literal part matches
      at `i`. */
  function GroupStart(s: string, i: nat): Option<nat> {
    if !LiteralAt(s, i, ObjectPrefix) then None
    else if LiteralAt(s, i + |ObjectPrefix|, "public/") then Some(i + |ObjectPrefix| + 7)
    else if LiteralAt(s, i + |ObjectPrefix|, "sign/") then Some(i + |ObjectPrefix| + 5)
    else None
  }

  /** The two groups of the pattern when a match starts at `i`: the bucket
      (the whole run of `[^/?#]`, which must be followed by '/') and the
      shortest non-empty run of non-line-terminators followed by '?' or the
      end. */
  function MatchAt(s: string, i: nat): (r: Option<(string, string)>)
  {
    match GroupStart(s, i)
    case None => None
    case Some(j) =>
      if j > |s| then None
      else
        var k := BucketEnd(s, j);
        if k == j || k == |s| || s[k] != '/' || k + 1 == |s| then None
        else
          var p := k + 1;
          var q := QueryEnd(s, p + 1);
          if NoLineTerminator(s[p..q]) then Some((s[j..k], s[p..q]))
          else None
  }

  /** The bucket group is a non-empty run of `[^/?#]`; the path group is
      non-empty, has no line terminator and no '?' after its first
      character. */
  lemma MatchAtGroups(s: string, i: nat)
    requires MatchAt(s, i).Some?
    ensures var (bucket, path) := MatchAt(s, i).value;
      && bucket != "" && (forall m :: 0 <= m < |bucket| ==> IsBucketChar(bucket[m]))
      && path != "" && NoLineTerminator(path)
      && forall m :: 1 <= m < |path| ==> path[m] != '?'
  {
    var j := GroupStart(s, i).value;
    var k := BucketEnd(s, j);
    var p := k + 1;
    var q := QueryEnd(s, p + 1);
    assert forall m :: 1 <= m < q - p ==> s[p..q][m] == s[p + m];
  }

  /** The first `Some` that `f` gives at an index in `[from, end)`: the
      left-to-right scan `String.prototype.match` performs. */
  function FirstFound<T>(f: nat -> Option<T>, from: nat, end: nat): Option<T>
    decreases end - from
  {
    if from >= end then None
    else if f(from).Some? then f(from)
    else FirstFound(f, from + 1, end)
  }

  /** What the scan finds comes from the first index that gives something. */
  lemma {:induction false} FirstFoundLeftmost<T>(f: nat -> Option<T>, from: nat, end: nat)
    requires FirstFound(f, from, end).Some?
    ensures exists i :: (from <= i < end && f(i) == FirstFound(f, from, end)
                         && forall j :: from <= j < i ==> f(j).None?)
    decreases end - from
  {
    if f(from).None? {
      FirstFoundLeftmost(f, from + 1, end);
      var i :| from + 1 <= i < end && f(i) == FirstFound(f, from + 1, end)
        && forall j :: from + 1 <= j < i ==> f(j).None?;
      assert from <= i < end && f(i) == FirstFound(f, from, end);
    } else {
      assert from <= from < end && f(from) == FirstFound(f, from, end);
    }
  }

  /** A scan that finds nothing saw nothing at any index. */
  lemma {:induction false} FirstFoundNone<T>(f: nat -> Option<T>, from: nat, end: nat)
    requires FirstFound(f, from, end).None?
    ensures forall i :: from <= i < end ==> f(i).None?
    decreases end - from
  {
    if from < end {
      FirstFoundNone(f, from + 1, end);
    }
  }

  /** An index that gives something, with nothing before it, is what the
      scan finds. */
  lemma {:induction false} FirstFoundAt<T>(f: nat -> Option<T>, from: nat, end: nat, i: nat)
    requires from <= i < end && f(i).Some?
    requires forall j :: from <= j < i ==> f(j).None?
    ensures FirstFound(f, from, end) == f(i)
    decreases i - from
  {
    if from < i {
      FirstFoundAt(f, from + 1, end, i);
    }
  }

  /** The leftmost match at or after `from`, as `String.prototype.match`
      finds it. */
  function FindStorageMatch(s: string, from: nat): (r: Option<(string, string)>)
  {
    FirstFound(MatchesIn(s), from, |s|)
  }

  /** The match, if any, at each index of `s`. */
  function MatchesIn(s: string): nat -> Option<(string, string)> {
    (i: nat) => MatchAt(s, i)
  }

  /** When the search finds something, it is the match at the first index
      where one starts. */
  lemma FindStorageMatchLeftmost(s: string, from: nat)
    requires FindStorageMatch(s, from).Some?
    ensures exists i :: (from <= i < |s| && MatchAt(s, i) == FindStorageMatch(s, from)
                         && forall j :: from <= j < i ==> MatchAt(s, j).None?)
  {
    var f := MatchesIn(s);
    FirstFoundLeftmost(f, from, |s|);
    var i :| from <= i < |s| && f(i) == FirstFound(f, from, |s|)
      && forall j :: from <= j < i ==> f(j).None?;
    forall j | from <= j < i ensures MatchAt(s, j).None? {
      assert f(j) == MatchAt(s, j);
    }
    assert f(i) == MatchAt(s, i);
  }

  /** When the search finds nothing, no index has a match. */
  lemma FindStorageMatchNone(s: string, from: nat)
    requires FindStorageMatch(s, from).None?
    ensures forall i :: from <= i < |s| ==> MatchAt(s, i).None?
  {
    var f := MatchesIn(s);
    FirstFoundNone(f, from, |s|);
    forall i | from <= i < |s| ensures MatchAt(s, i).None? {
      assert f(i).None?;
    }
  }

  /** The literal part `/storage/v1/object/public/` read at `i`. */
  lemma PublicGroupStart(s: string, i: nat, lit: string)
    requires lit == ObjectPrefix + "public/"
    requires i + |lit| <= |s| && s[i..i + |lit|] == lit
    ensures GroupStart(s, i) == Some(i + |lit|)
  {
    assert |lit| == 26 && |ObjectPrefix| == 19;
    assert forall k :: 0 <= k < 26 ==> s[i + k] == lit[k];
    assert forall k :: 0 <= k < 26 ==> LowerChar(lit[k]) == lit[k];
    forall k | 0 <= k < 19 ensures LowerChar(s[i + k]) == ObjectPrefix[k] {
      assert ObjectPrefix[k] == lit[k];
    }
    forall k | 0 <= k < 7 ensures LowerChar(s[i + 19 + k]) == "public/"[k] {
      assert "public/"[k] == lit[19 + k];
      assert s[i + 19 + k] == lit[19 + k];
    }
    assert LiteralAt(s, i, ObjectPrefix);
    assert LiteralAt(s, i + |ObjectPrefix|, "public/");
  }

  /** What the pattern extracts at `|pre|` from a URL laid out as
      `<pre>/storage/v1/object/public/<bucket>/<path>[?<query>]`. */
  lemma MatchOfComposedUrl(s: string, pre: string, lit: string, bucket: string, path: string, rest: string)
    requires lit == ObjectPrefix + "public/"
    requires bucket != "" && forall m :: 0 <= m < |bucket| ==> IsBucketChar(bucket[m])
    requires path != "" && NoLineTerminator(path) && forall m :: 1 <= m < |path| ==> path[m] != '?'
    requires rest == "" || rest[0] == '?'
    requires s == pre + lit + bucket + "/" + path + rest
    ensures MatchAt(s, |pre|) == Some((bucket, path))
  {
    ComposedSlices(pre, lit, bucket, path, rest);
    MatchOfLayout(s, |pre|, lit, bucket, path);
  }

  lemma Reassociated(a: string, b: string, c: string, d: string)
    ensures a + b + c + d == a + (b + c) + d
  {
  }

  /** The match at `i` when the public-object literal, a bucket, a '/' and
      a path are found there in that order. */
  lemma MatchOfLayout(s: string, i: nat, lit: string, bucket: string, path: string)
    requires lit == ObjectPrefix + "public/"
    requires bucket != "" && forall m :: 0 <= m < |bucket| ==> IsBucketChar(bucket[m])
    requires path != "" && NoLineTerminator(path) && forall m :: 1 <= m < |path| ==> path[m] != '?'
    requires var g := i + |lit|;
      var k := g + |bucket|;
      var q := k + 1 + |path|;
      && q <= |s| && s[i..g] == lit && s[g..k] == bucket && s[k] == '/'
      && s[k + 1..q] == path && (q == |s| || s[q] == '?')
    ensures MatchAt(s, i) == Some((bucket, path))
  {
    var g := i + |lit|;
    var k := g + |bucket|;
    var q := k + 1 + |path|;
    PublicGroupStart(s, i, lit);
    BucketEndAt(s, g, k);
    QueryEndAt(s, k + 2, q);
    MatchFromParts(s, i, g, k, q);
  }

  /** Where the pieces of a composed URL sit. */
  lemma ComposedSlices(pre: string, lit: string, bucket: string, path: string, rest: string)
    requires path != "" && (rest == "" || rest[0] == '?')
    ensures var s := pre + lit + bucket + "/" + path + rest;
      var g := |pre| + |lit|;
      var k := g + |bucket|;
      var q := k + 1 + |path|;
      && q <= |s| && s[|pre|..g] == lit && s[g..k] == bucket && s[k] == '/'
      && s[k + 1..q] == path && (q == |s| || s[q] == '?')
  {
    var s := pre + lit + bucket + "/" + path + rest;
    var head := pre + lit;
    assert s == pre + lit + (bucket + "/" + path + rest);
    Middle(pre, lit, bucket + "/" + path + rest);
    assert s == head + bucket + ("/" + path + rest);
    Middle(head, bucket, "/" + path + rest);
    assert s == head + bucket + "/" + path + rest;
    assert s == (head + bucket + "/") + path + rest;
    Middle(head + bucket + "/", path, rest);
  }

  /** The match at `i` read off the positions where its pieces end. */
  lemma MatchFromParts(s: string, i: nat, g: nat, k: nat, q: nat)
    requires GroupStart(s, i) == Some(g) && g < k < |s|
    requires BucketEnd(s, g) == k && s[k] == '/'
    requires k + 2 <= q <= |s| && QueryEnd(s, k + 2) == q
    requires NoLineTerminator(s[k + 1..q])
    ensures MatchAt(s, i) == Some((s[g..k], s[k + 1..q]))
  {
  }

  /** The middle piece of a concatenation, sliced back out. */
  lemma Middle(a: string, b: string, c: string)
    ensures (a + b + c)[|a|..|a| + |b|] == b
  {
  }

  lemma {:induction false} BucketEndAt(s: string, j: nat, k: nat)
    requires j <= k < |s| && !IsBucketChar(s[k])
    requires forall m :: j <= m < k ==> IsBucketChar(s[m])
    ensures BucketEnd(s, j) == k
    decreases k - j
  {
    if j < k { BucketEndAt(s, j + 1, k); }
  }

  lemma {:induction false} QueryEndAt(s: string, j: nat, k: nat)
    requires j <= k <= |s| && (k == |s| || s[k] == '?')
    requires forall m :: j <= m < k ==> s[m] != '?'
    ensures QueryEnd(s, j) == k
    decreases k - j
  {
    if j < k { QueryEndAt(s, j + 1, k); }
  }

  /** No match can start inside `https://<host>` when the host has no '/'. */
  lemma NoMatchInOrigin(s: string, origin: string, host: string)
    requires origin == "https://" + host && '/' !in host
    requires StartsWith(s, origin + ObjectPrefix)
    ensures forall i :: 0 <= i < |origin| ==> MatchAt(s, i).None?
  {
    var t := origin + ObjectPrefix;
    assert forall m :: 0 <= m < |t| ==> s[m] == t[m];
    forall i | 0 <= i < |origin| ensures !LiteralAt(s, i, ObjectPrefix) {
      if i == 6 {
        assert s[7] == '/';
        Mismatch(s, i, ObjectPrefix, 1);
      } else if i == 7 {
        if |host| >= 8 {
          assert s[15] == host[7];
          Mismatch(s, i, ObjectPrefix, 8);
        } else if |host| == 7 {
          assert s[16] == t[16] == ObjectPrefix[1];
          Mismatch(s, i, ObjectPrefix, 9);
        } else {
          assert s[8 + |host|] == t[8 + |host|] == ObjectPrefix[0];
          Mismatch(s, i, ObjectPrefix, 1 + |host|);
        }
      } else {
        assert i < 6 || s[i] == host[i - 8];
        Mismatch(s, i, ObjectPrefix, 0);
      }
    }
  }

  /** One differing character rules the literal out. */
  lemma Mismatch(s: string, i: nat, lit: string, k: nat)
    requires k < |lit| && i + k < |s| && LowerChar(s[i + k]) != lit[k]
    ensures !LiteralAt(s, i, lit)
  {
  }

  // ---------------------------------------------------------------------
  // extractStorageRef

  datatype StorageRef = StorageRef(bucket: string, objectPath: string)

  /** The outcome of `extractStorageRef`: a reference, `null`, or the
      URIError that `decodeURIComponent` throws out of it. */
  datatype RefOutcome = Found(ref: StorageRef) | NotFound | DecodeThrew

  /** The http(s) branch: the two groups of the object-storage pattern,
      percent-decoded and trimmed. */
  function RefFromUrl(url: string, decode: UriDecoder): (r: RefOutcome)
    ensures FindStorageMatch(url, 0).None? ==> r == NotFound
    ensures r.Found? ==> r.ref.bucket != "" && r.ref.objectPath != ""
    ensures r.Found? ==>
      (exists g1, g2 :: FindStorageMatch(url, 0) == Some((g1, g2))
        && decode(g1).Some? && r.ref.bucket == Trim(decode(g1).value)
        && decode(g2).Some? && r.ref.objectPath == Trim(decode(g2).value))
    ensures FindStorageMatch(url, 0).Some? ==>
      var g1 := FindStorageMatch(url, 0).value.0;
      var g2 := FindStorageMatch(url, 0).value.1;
      (r.DecodeThrew? <==> decode(g1).None? || decode(g2).None?)
      && (decode(g1).Some? && decode(g2).Some? ==>
            (r.Found? <==> Trim(decode(g1).value) != "" && Trim(decode(g2).value) != "")
            && (r.Found? ==> r.ref == StorageRef(Trim(decode(g1).value), Trim(decode(g2).value))))
  {
    match FindStorageMatch(url, 0)
    case None => NotFound
    case Some((g1, g2)) =>
      match decode(g1)
      case None => DecodeThrew
      case Some(b) =>
        match decode(g2)
        case None => DecodeThrew
        case Some(p) =>
          var bucket := Trim(b);
          var objectPath := Trim(p);
          if bucket == "" || objectPath == "" then NotFound
          else Found(StorageRef(bucket, objectPath))
  }

  /** The relative-path branch: a configured bucket with its own prefix
      stripped once, or else the first path segment as the bucket. */
  function RefFromPath(rawPath: string, explicitBucket: string): (r: RefOutcome)
    ensures !r.DecodeThrew?
    ensures r.Found? ==> r.ref.bucket != "" && r.ref.objectPath != ""
    ensures explicitBucket != "" && r.Found? ==> r.ref.bucket == explicitBucket
    ensures explicitBucket != "" ==>
      var path := StripLeadingSlashes(rawPath);
      var prefix := explicitBucket + "/";
      var rest := if StartsWith(path, prefix) then path[|prefix|..] else path;
      (r.Found? <==> rest != "") && (r.Found? ==> r.ref.objectPath == rest)
    ensures explicitBucket != "" && r.Found? ==>
      var path := StripLeadingSlashes(rawPath);
      path == r.ref.objectPath || path == explicitBucket + "/" + r.ref.objectPath
    ensures explicitBucket == "" ==>
      var segs := Segments(StripLeadingSlashes(rawPath));
      (r.Found? <==> |segs| >= 2)
      && (r.Found? ==> r.ref.bucket == segs[0] && r.ref.objectPath == Join(segs[1..], '/'))
  {
    var normalizedPath := StripLeadingSlashes(rawPath);
    if explicitBucket != "" then RefInBucket(normalizedPath, explicitBucket)
    else RefFromSegments(normalizedPath)
  }

  /** A path read as an object of the configured bucket, that bucket's own
      name and '/' in front stripped once. */
  function RefInBucket(path: string, bucket: string): (r: RefOutcome)
    requires bucket != ""
    ensures r.NotFound? || r.Found?
    ensures r.Found? ==> r.ref.bucket == bucket && r.ref.objectPath != ""
    ensures var prefix := bucket + "/";
      var rest := if StartsWith(path, prefix) then path[|prefix|..] else path;
      (r.Found? <==> rest != "") && (r.Found? ==> r.ref.objectPath == rest)
    ensures r.Found? ==> path == r.ref.objectPath || path == bucket + "/" + r.ref.objectPath
  {
    var prefix := bucket + "/";
    if StartsWith(path, prefix) then
      var rest := path[|prefix|..];
      assert path == prefix + rest;
      if rest == "" then NotFound else Found(StorageRef(bucket, rest))
    else if path == "" then NotFound
    else Found(StorageRef(bucket, path))
  }

  /** A path read as `<bucket>/<object>` from its non-empty segments. */
  function RefFromSegments(path: string): (r: RefOutcome)
    ensures r.NotFound? || r.Found?
    ensures r.Found? ==> r.ref.bucket != "" && r.ref.objectPath != ""
    ensures var segs := Segments(path);
      (r.Found? <==> |segs| >= 2)
      && (r.Found? ==> r.ref.bucket == segs[0] && r.ref.objectPath == Join(segs[1..], '/'))
  {
    var parts := Segments(path);
    if |parts| < 2 then NotFound
    else
      assert Join(parts[1..], '/') != "" by { assert parts[1..][0] == parts[1]; }
      Found(StorageRef(parts[0], Join(parts[1..], '/')))
  }

  /** `extractStorageRef`. */
  function ExtractStorageRef(photo: Photo, decode: UriDecoder): (r: RefOutcome)
    ensures TrimmedOrEmpty(photo.storage_path) == "" ==> r == NotFound
    ensures r.Found? ==> r.ref.bucket != "" && r.ref.objectPath != ""
    ensures r.DecodeThrew? ==> IsHttpUrl(TrimmedOrEmpty(photo.storage_path))
    ensures IsHttpUrl(TrimmedOrEmpty(photo.storage_path)) ==>
      r == RefFromUrl(TrimmedOrEmpty(photo.storage_path), decode)
    ensures TrimmedOrEmpty(photo.storage_path) != "" && !IsHttpUrl(TrimmedOrEmpty(photo.storage_path)) ==>
      r == RefFromPath(TrimmedOrEmpty(photo.storage_path), TrimmedOrEmpty(photo.storage_bucket))
  {
    var rawPath := TrimmedOrEmpty(photo.storage_path);
    if rawPath == "" then NotFound
    else if IsHttpUrl(rawPath) then RefFromUrl(rawPath, decode)
    else RefFromPath(rawPath, TrimmedOrEmpty(photo.storage_bucket))
  }

  // ---------------------------------------------------------------------
  // Round trips

  /** A path of non-empty, space-free segments. */
  predicate IsPlainPath(p: string) {
    p != "" && NoSpace(p) && p[0] != '/' && p[|p| - 1] != '/'
    && forall m :: 0 <= m < |p| - 1 ==> !(p[m] == '/' && p[m + 1] == '/')
  }

  /** A bucket name that is one space-free segment. */
  predicate IsPlainBucket(b: string) {
    b != "" && NoSpace(b) && '/' !in b
  }

  function PathPhoto(bucket: Option<string>, path: string): Photo {
    Photo("", None, None, bucket, Some(path), None, None, None, None, Absent, None, None, None, None, None)
  }

  lemma NotHttpWithPlainBucket(b: string, p: string)
    requires IsPlainBucket(b) && IsPlainPath(p)
    ensures !IsHttpUrl(b + "/" + p)
  {
    var s := b + "/" + p;
    if |s| >= 7 {
      NoDoubleSlash(b, p, 5);
      assert s[..7][5] == s[5] && s[..7][6] == s[6];
    }
    if |s| >= 8 {
      NoDoubleSlash(b, p, 6);
      assert s[..8][6] == s[6] && s[..8][7] == s[7];
    }
  }

  /** `<bucket>/<path>` never has two '/' in a row. */
  lemma NoDoubleSlash(b: string, p: string, j: nat)
    requires IsPlainBucket(b) && IsPlainPath(p)
    requires j + 1 < |b + "/" + p|
    ensures var s := b + "/" + p; !(s[j] == '/' && s[j + 1] == '/')
  {
    var s := b + "/" + p;
    if j < |b| {
      assert s[j] == b[j];
    } else if j == |b| {
      assert s[j + 1] == p[0];
    } else {
      assert s[j] == p[j - |b| - 1] && s[j + 1] == p[j - |b|];
    }
  }

  /** Splitting a plain path keeps every segment, and joining gives it back. */
  lemma SegmentsOfPlainPath(p: string)
    requires IsPlainPath(p)
    ensures Segments(p) == Split(p, '/')
    ensures Join(Segments(p), '/') == p
  {
    SplitPartsNonEmpty(p, '/');
    KeepNonEmpty(Split(p, '/'));
    JoinSplit(p, '/');
  }

  /** Splitting `b/p` where `b` has no '/' gives `b` followed by the parts
      of `p`. */
  lemma {:induction false} SplitHead(b: string, p: string)
    requires '/' !in b
    ensures Split(b + "/" + p, '/') == [b] + Split(p, '/')
  {
    if b == [] {
      assert b + "/" + p == ['/'] + p;
      assert (['/'] + p)[1..] == p;
    } else {
      assert (b + "/" + p)[1..] == b[1..] + "/" + p;
      SplitHead(b[1..], p);
      assert [b[0]] + b[1..] == b;
    }
  }

  lemma StripSlashes(slashes: string, s: string)
    requires forall m :: 0 <= m < |slashes| ==> slashes[m] == '/'
    requires s != [] && s[0] != '/'
    ensures StripLeadingSlashes(slashes + s) == s
    decreases |slashes|
  {
    if slashes != [] {
      assert (slashes + s)[1..] == slashes[1..] + s;
      StripSlashes(slashes[1..], s);
    } else {
      assert slashes + s == s;
    }
  }

  /** `<bucket>/<path>` with no '//' inside is itself a plain path. */
  lemma ComposedIsPlain(bucket: string, path: string)
    requires IsPlainBucket(bucket) && IsPlainPath(path)
    ensures IsPlainPath(bucket + "/" + path)
  {
    var c := bucket + "/" + path;
    forall m | 0 <= m < |c| - 1 ensures !(c[m] == '/' && c[m + 1] == '/') {
      if m < |bucket| {
        assert c[m] == bucket[m];
      } else if m == |bucket| {
        assert c[m + 1] == path[0];
      } else {
        assert c[m] == path[m - |bucket| - 1];
      }
    }
    assert NoSpace(c) by {
      forall m | 0 <= m < |c| ensures !IsSpace(c[m]) {
        if m < |bucket| { assert c[m] == bucket[m]; }
        else if m > |bucket| { assert c[m] == path[m - |bucket| - 1]; }
      }
    }
  }

  /** The relative-path branch reads `<bucket>/<path>` back, with any
      number of leading '/'. */
  lemma RefFromComposedPath(bucket: string, path: string, slashes: string)
    requires IsPlainBucket(bucket) && IsPlainPath(path)
    requires forall m :: 0 <= m < |slashes| ==> slashes[m] == '/'
    ensures RefFromPath(slashes + bucket + "/" + path, "") == Found(StorageRef(bucket, path))
  {
    var composed := bucket + "/" + path;
    assert slashes + bucket + "/" + path == slashes + composed;
    ComposedIsPlain(bucket, path);
    StripSlashes(slashes, composed);
    SegmentsOfPlainPath(composed);
    SegmentsOfPlainPath(path);
    SplitHead(bucket, path);
  }

  /** A stored `<bucket>/<path>`, with any number of leading '/', has no
      whitespace and is not an http(s) URL, so `extractStorageRef` takes the
      relative-path branch with it unchanged. */
  lemma ComposedPathIsRelative(bucket: string, path: string, slashes: string)
    requires IsPlainBucket(bucket) && IsPlainPath(path)
    requires forall m :: 0 <= m < |slashes| ==> slashes[m] == '/'
    ensures NoSpace(slashes + bucket + "/" + path)
    ensures !IsHttpUrl(slashes + bucket + "/" + path)
  {
    var c := bucket + "/" + path;
    var raw := slashes + bucket + "/" + path;
    assert raw == slashes + c;
    ComposedIsPlain(bucket, path);
    forall m | 0 <= m < |raw| ensures !IsSpace(raw[m]) {
      if m >= |slashes| { assert raw[m] == c[m - |slashes|]; }
    }
    if slashes == [] {
      assert raw == c;
      NotHttpWithPlainBucket(bucket, path);
    } else {
      assert raw[0] == '/';
    }
  }

  /** With a configured bucket, a path stored with or without that bucket
      as its first segment is read back as the bucket and the path. */
  lemma RefFromPathWithBucket(bucket: string, path: string, stored: string)
    requires IsPlainBucket(bucket) && IsPlainPath(path)
    requires stored == bucket + "/" + path || (stored == path && !StartsWith(path, bucket + "/"))
    ensures RefFromPath(stored, bucket) == Found(StorageRef(bucket, path))
  {
    assert stored[0] != '/';
    assert StripLeadingSlashes(stored) == stored;
    if stored == bucket + "/" + path {
      assert StartsWith(stored, bucket + "/");
      assert stored[|bucket + "/"|..] == path;
    }
  }

  /** A public object URL `https://<host>/storage/v1/object/public/<b>/<p>`
      (optionally followed by a query) is read back as the decoded bucket and
      path. */
  lemma RefFromPublicUrl(host: string, b: string, p: string, query: string, url: string, decode: UriDecoder)
    requires '/' !in host
    requires b != "" && forall m :: 0 <= m < |b| ==> IsBucketChar(b[m])
    requires p != "" && NoLineTerminator(p) && '?' !in p
    requires query == "" || query[0] == '?'
    requires url == "https://" + host + ObjectPrefix + "public/" + b + "/" + p + query
    requires decode(b).Some? && decode(p).Some?
    requires Trim(decode(b).value) != "" && Trim(decode(p).value) != ""
    ensures RefFromUrl(url, decode) == Found(StorageRef(Trim(decode(b).value), Trim(decode(p).value)))
  {
    PublicUrlMatch(host, b, p, query, url);
  }

  /** The same URL with a part that does not decode throws, and with a
      part that trims to nothing gives `null`. */
  lemma PublicUrlRejected(host: string, b: string, p: string, query: string, url: string, decode: UriDecoder)
    requires '/' !in host
    requires b != "" && forall m :: 0 <= m < |b| ==> IsBucketChar(b[m])
    requires p != "" && NoLineTerminator(p) && '?' !in p
    requires query == "" || query[0] == '?'
    requires url == "https://" + host + ObjectPrefix + "public/" + b + "/" + p + query
    ensures RefFromUrl(url, decode).DecodeThrew? <==> decode(b).None? || decode(p).None?
    ensures decode(b).Some? && decode(p).Some? && (Trim(decode(b).value) == "" || Trim(decode(p).value) == "")
      ==> RefFromUrl(url, decode) == NotFound
  {
    PublicUrlMatch(host, b, p, query, url);
  }

  /** The leftmost match in such a URL is the bucket and the path. */
  lemma PublicUrlMatch(host: string, b: string, p: string, query: string, url: string)
    requires '/' !in host
    requires b != "" && forall m :: 0 <= m < |b| ==> IsBucketChar(b[m])
    requires p != "" && NoLineTerminator(p) && '?' !in p
    requires query == "" || query[0] == '?'
    requires url == "https://" + host + ObjectPrefix + "public/" + b + "/" + p + query
    ensures FindStorageMatch(url, 0) == Some((b, p))
  {
    PublicUrlAt(host, b, p, query, url);
    PublicUrlOrigin(host, b + "/" + p + query, url);
    LeftmostAt(url, 8 + |host|, (b, p));
  }

  lemma LeftmostAt(url: string, n: nat, r: (string, string))
    requires MatchAt(url, n) == Some(r)
    requires forall i :: 0 <= i < n ==> MatchAt(url, i).None?
    ensures FindStorageMatch(url, 0) == Some(r)
  {
    FirstMatchAt(url, 0, n);
  }

  /** The pattern matches right after the origin. */
  lemma PublicUrlAt(host: string, b: string, p: string, query: string, url: string)
    requires b != "" && forall m :: 0 <= m < |b| ==> IsBucketChar(b[m])
    requires p != "" && NoLineTerminator(p) && '?' !in p
    requires query == "" || query[0] == '?'
    requires url == "https://" + host + ObjectPrefix + "public/" + b + "/" + p + query
    ensures MatchAt(url, 8 + |host|) == Some((b, p))
  {
    var origin := "https://" + host;
    var lit := ObjectPrefix + "public/";
    Reassociated(origin, ObjectPrefix, "public/", b + "/" + p + query);
    assert url == origin + lit + b + "/" + p + query;
    MatchOfComposedUrl(url, origin, lit, b, p, query);
  }

  /** The pattern matches nowhere inside the origin. */
  lemma PublicUrlOrigin(host: string, tail: string, url: string)
    requires '/' !in host
    requires url == "https://" + host + ObjectPrefix + "public/" + tail
    ensures forall i :: 0 <= i < 8 + |host| ==> MatchAt(url, i).None?
  {
    var origin := "https://" + host;
    assert url == (origin + ObjectPrefix) + ("public/" + tail);
    assert StartsWith(url, origin + ObjectPrefix);
    NoMatchInOrigin(url, origin, host);
  }

  /** A match at `i` with none before it is what the leftmost search finds. */
  lemma FirstMatchAt(s: string, from: nat, i: nat)
    requires from <= i && MatchAt(s, i).Some?
    requires forall j :: from <= j < i ==> MatchAt(s, j).None?
    ensures FindStorageMatch(s, from) == MatchAt(s, i)
  {
    var f := MatchesIn(s);
    MatchInside(s, i);
    FirstFoundAt(f, from, |s|, i);
  }

  /** A match starts inside the string. */
  lemma MatchInside(s: string, i: nat)
    requires MatchAt(s, i).Some?
    ensures i < |s|
  {
  }
}
