/** Person-name helpers of the storefront
    (src/components/PhotoShopSection.tsx:228-259): whitespace
    normalisation, splitting a display name into first and last name, and
    resolving the name a profile shows. */
module Names {
  import opened JsValues
  import opened Text
  import opened ShopTypes

  /** `s.replace(/\s+/g, ' ')`: every maximal whitespace run becomes one
      space. */
  function CollapseSpaces(s: string): (r: string)
    ensures r == [] <==> s == []
    ensures SingleSpaced(r)
    ensures s != [] && !IsSpace(s[0]) ==> r[0] == s[0]
    ensures s != [] && !IsSpace(s[|s| - 1]) ==> r[|r| - 1] == s[|s| - 1]
    ensures s != [] && IsSpace(s[|s| - 1]) ==> r[|r| - 1] == ' '
    decreases |s|
  {
    if s == [] then []
    else if IsSpace(s[0]) then
      var rest := TrimStart(s[1..]);
      var tail := CollapseSpaces(rest);
      ConsSingleSpaced(' ', tail);
      assert rest != [] ==> rest[|rest| - 1] == s[|s| - 1];
      [' '] + tail
    else
      var tail := CollapseSpaces(s[1..]);
      ConsSingleSpaced(s[0], tail);
      [s[0]] + tail
  }

  lemma ConsSingleSpaced(c: char, t: string)
    requires SingleSpaced(t)
    requires IsSpace(c) ==> c == ' ' && (t == [] || !IsSpace(t[0]))
    ensures SingleSpaced([c] + t)
  {
    var r := [c] + t;
    forall k: nat | k + 1 < |r| ensures !DoubleSpaceAt(r, k) {
      if k > 0 {
        assert !DoubleSpaceAt(t, k - 1);
      }
    }
  }

  /** Two whitespace characters in a row at `k`. */
  predicate DoubleSpaceAt(s: string, k: nat)
    requires k + 1 < |s|
  {
    IsSpace(s[k]) && IsSpace(s[k + 1])
  }

  /** The only whitespace is a plain space, and never two in a row. */
  predicate SingleSpaced(s: string) {
    (forall k :: 0 <= k < |s| && IsSpace(s[k]) ==> s[k] == ' ')
    && forall k: nat :: k + 1 < |s| ==> !DoubleSpaceAt(s, k)
  }

  /** Collapsing keeps the first piece between whitespace and, after it,
      the same words. */
  lemma {:induction false} CollapseKeepsPieces(s: string)
    ensures SplitAtSpaces(CollapseSpaces(s))[0] == SplitAtSpaces(s)[0]
    ensures NonEmptyParts(SplitAtSpaces(CollapseSpaces(s))[1..]) == NonEmptyParts(SplitAtSpaces(s)[1..])
    decreases |s|
  {
    if s != [] {
      var c := CollapseSpaces(s);
      if IsSpace(s[0]) {
        var t := TrimStart(s[1..]);
        var ct := CollapseSpaces(t);
        assert c == [' '] + ct;
        assert c[1..] == ct;
        assert SplitAtSpaces(c) == [""] + SplitAtSpaces(ct);
        assert SplitAtSpaces(s) == [""] + SplitAtSpaces(s[1..]);
        CollapseKeepsPieces(t);
        var q := SplitAtSpaces(ct);
        var p := SplitAtSpaces(t);
        assert q == [q[0]] + q[1..];
        assert p == [p[0]] + p[1..];
        assert NonEmptyParts(q) == NonEmptyParts(p);
        WordsTrimStart(s[1..]);
      } else {
        CollapseKeepsPieces(s[1..]);
        assert c[1..] == CollapseSpaces(s[1..]);
      }
    }
  }

  /** Collapsing whitespace runs keeps the words. */
  lemma CollapsePreservesWords(s: string)
    ensures Words(CollapseSpaces(s)) == Words(s)
  {
    CollapseKeepsPieces(s);
    var q := SplitAtSpaces(CollapseSpaces(s));
    var p := SplitAtSpaces(s);
    assert q == [q[0]] + q[1..];
    assert p == [p[0]] + p[1..];
  }

  /** A name in normal form is its words joined by single spaces. */
  lemma NormalNameIsJoinedWords(n: string)
    requires IsNormalName(n)
    ensures Join(Words(n), ' ') == n
  {
    SplitAtPlainSpaces(n);
    if n != [] {
      forall m | 0 <= m < |n| - 1 ensures !(n[m] == ' ' && n[m + 1] == ' ') {
        assert !DoubleSpaceAt(n, m);
      }
      SplitPartsNonEmpty(n, ' ');
      KeepNonEmpty(Split(n, ' '));
      JoinSplit(n, ' ');
    }
  }

  /** A name in normal form: single-spaced with no space at either end. */
  predicate IsNormalName(n: string) {
    SingleSpaced(n) && (n == [] || (!IsSpace(n[0]) && !IsSpace(n[|n| - 1])))
  }

  /** `normalizePersonName`: trimmed, whitespace runs collapsed; a value
      that is not a string gives "". */
  function NormalizePersonName(value: Option<string>): (r: string)
    ensures IsNormalName(r)
    ensures value.None? ==> r == ""
    ensures value.Some? ==> (r == "" <==> Trim(value.value) == "")
  {
    if value.None? then ""
    else
      var trimmed := Trim(value.value);
      CollapseTrimmed(trimmed);
      CollapseSpaces(trimmed)
  }

  /** The normal form of a name is its words joined by single spaces. */
  lemma NormalizeJoinsWords(s: string)
    ensures NormalizePersonName(Some(s)) == Join(Words(s), ' ')
  {
    var trimmed := Trim(s);
    CollapsePreservesWords(trimmed);
    WordsTrim(s);
    NormalNameIsJoinedWords(NormalizePersonName(Some(s)));
  }

  /** Collapsing a trimmed text gives a normal name, empty only when the
      text is. */
  lemma CollapseTrimmed(t: string)
    requires t == [] || (!IsSpace(t[0]) && !IsSpace(t[|t| - 1]))
    ensures IsNormalName(CollapseSpaces(t))
    ensures CollapseSpaces(t) == [] <==> t == []
  {
  }

  lemma {:induction false} CollapseSingleSpaced(s: string)
    requires SingleSpaced(s)
    ensures CollapseSpaces(s) == s
  {
    if s != [] {
      var t := s[1..];
      TailSingleSpaced(s);
      CollapseSingleSpaced(t);
      assert s == [s[0]] + t;
      if IsSpace(s[0]) {
        SpaceThenWord(s);
      }
    }
  }

  lemma TailSingleSpaced(s: string)
    requires SingleSpaced(s) && s != []
    ensures SingleSpaced(s[1..])
  {
    var t := s[1..];
    forall k: nat | k + 1 < |t| ensures !DoubleSpaceAt(t, k) {
      assert !DoubleSpaceAt(s, k + 1);
    }
  }

  /** In a single-spaced text a leading space is a plain one, followed by
      no whitespace. */
  lemma SpaceThenWord(s: string)
    requires SingleSpaced(s) && s != [] && IsSpace(s[0])
    ensures s[0] == ' ' && TrimStart(s[1..]) == s[1..]
  {
    if |s| > 1 {
      assert !DoubleSpaceAt(s, 0);
    }
  }

  /** Normalising a normal name changes nothing. */
  lemma NormalizeNormal(n: string)
    requires IsNormalName(n)
    ensures NormalizePersonName(Some(n)) == n
  {
    TrimOfTrimmed(n);
    CollapseSingleSpaced(n);
  }

  /** Normalisation is idempotent. */
  lemma NormalizeIdempotent(value: Option<string>)
    ensures NormalizePersonName(Some(NormalizePersonName(value))) == NormalizePersonName(value)
  {
    NormalizeNormal(NormalizePersonName(value));
  }

  datatype NameParts = NameParts(vorname: Option<string>, nachname: Option<string>)

  /** `splitDisplayNameIntoNameParts`. */
  function SplitDisplayNameIntoNameParts(displayName: string): (r: NameParts)
    ensures NormalizePersonName(Some(displayName)) == "" <==> r.vorname.None?
    ensures r.vorname.None? ==> r.nachname.None?
    ensures r.vorname.Some? ==> r.vorname.value != "" && NoSpace(r.vorname.value)
    ensures r.nachname.Some? ==> IsNormalName(r.nachname.value) && r.nachname.value != ""
    ensures r.nachname.None? <==> ' ' !in NormalizePersonName(Some(displayName))
  {
    var normalized := NormalizePersonName(Some(displayName));
    if normalized == "" then NameParts(None, None)
    else
      var parts := Split(normalized, ' ');
      NormalPartsFacts(normalized);
      if |parts| == 1 then NameParts(Some(parts[0]), None)
      else NameParts(Some(parts[0]), Some(Join(parts[1..], ' ')))
  }

  /** How a non-empty normal name splits on ' ': a non-empty, space-free
      first part and, when there is a space, a normal non-empty rest. */
  lemma NormalPartsFacts(n: string)
    requires IsNormalName(n) && n != ""
    ensures var parts := Split(n, ' ');
      parts[0] != "" && NoSpace(parts[0])
      && (|parts| == 1 <==> ' ' !in n)
      && (|parts| == 1 ==> parts[0] == n)
      && (|parts| >= 2 ==> n == parts[0] + " " + Join(parts[1..], ' '))
      && (|parts| >= 2 ==> IsNormalName(Join(parts[1..], ' ')) && Join(parts[1..], ' ') != "")
  {
    var parts := Split(n, ' ');
    JoinSplit(n, ' ');
    if |parts| == 1 {
      assert n == parts[0];
    } else {
      var rest := Join(parts[1..], ' ');
      assert n == parts[0] + [' '] + rest;
      var i := |parts[0]|;
      assert n[i] == ' ';
      assert ' ' in n;
      assert n[i + 1..] == rest;
      assert i + 1 < |n|;
      SuffixNormal(n, i + 1);
    }
    assert n[..|parts[0]|] == parts[0];
    assert NoSpace(parts[0]) by {
      forall k | 0 <= k < |parts[0]| ensures !IsSpace(parts[0][k]) {
        assert parts[0][k] == n[k];
      }
    }
    if |parts| == 1 {
      assert parts[0] == n;
    }
  }

  /** What follows a space inside a normal name is a normal name. */
  lemma SuffixNormal(n: string, i: nat)
    requires IsNormalName(n) && 0 < i < |n| && n[i - 1] == ' '
    ensures IsNormalName(n[i..]) && n[i..] != ""
  {
    assert !DoubleSpaceAt(n, i - 1);
    var t := n[i..];
    forall k: nat | k + 1 < |t| ensures !DoubleSpaceAt(t, k) {
      assert !DoubleSpaceAt(n, i + k);
    }
  }

  /** `resolveProfileDisplayName`: the normalised display name, else the
      normalised first and last names joined by a space and trimmed. */
  function ResolveProfileDisplayName(row: Option<UserRow>): (r: string)
    ensures row.None? ==> r == ""
    ensures row.Some? && NormalizePersonName(row.value.display_name) != "" ==>
      r == NormalizePersonName(row.value.display_name)
    ensures row.Some? && NormalizePersonName(row.value.display_name) == "" ==>
      r == Trim(NormalizePersonName(row.value.vorname) + " " + NormalizePersonName(row.value.nachname))
    ensures r == [] || (!IsSpace(r[0]) && !IsSpace(r[|r| - 1]))
  {
    if row.None? then ""
    else
      var displayName := NormalizePersonName(row.value.display_name);
      if displayName != "" then displayName
      else
        var firstName := NormalizePersonName(row.value.vorname);
        var lastName := NormalizePersonName(row.value.nachname);
        Trim(firstName + " " + lastName)
  }

  function NameRow(parts: NameParts): UserRow {
    UserRow(None, None, parts.vorname, parts.nachname, None, None)
  }

  /** Storing a display name as first and last name and resolving it again
      gives the normalised display name back. */
  lemma ResolveSplitName(n: string)
    ensures ResolveProfileDisplayName(Some(NameRow(SplitDisplayNameIntoNameParts(n))))
         == NormalizePersonName(Some(n))
  {
    var row := NameRow(SplitDisplayNameIntoNameParts(n));
    ResolveFromNameParts(row);
    StoredNameParts(n);
  }

  /** The first and last names stored for a display name, normalised
      again: both empty for a blank name, else the first word and the rest
      (empty when there is one word), which put back together give the
      normal form. */
  lemma StoredNameParts(n: string)
    ensures var normalized := NormalizePersonName(Some(n));
      var parts := SplitDisplayNameIntoNameParts(n);
      var first := NormalizePersonName(parts.vorname);
      var last := NormalizePersonName(parts.nachname);
      normalized == (if first != "" && last != "" then first + " " + last else if first != "" then first else last)
  {
    var normalized := NormalizePersonName(Some(n));
    if normalized != "" {
      var parts := Split(normalized, ' ');
      NormalPartsFacts(normalized);
      assert IsNormalName(parts[0]);
      NormalizeNormal(parts[0]);
      if |parts| > 1 {
        NormalizeNormal(Join(parts[1..], ' '));
      }
    }
  }

  /** Trimming `first + " " + last` for two normal names: the blank
      separator disappears when either side is empty. */
  lemma JoinedNames(first: string, last: string)
    requires IsNormalName(first) && IsNormalName(last)
    ensures first == "" && last == "" ==> Trim(first + " " + last) == ""
    ensures first != "" && last == "" ==> Trim(first + " " + last) == first
    ensures first == "" && last != "" ==> Trim(first + " " + last) == last
    ensures first != "" && last != "" ==> Trim(first + " " + last) == first + " " + last
  {
    var s := first + " " + last;
    if first == "" && last == "" {
      assert TrimStart(s) == TrimStart(s[1..]);
    } else if first == "" {
      assert s[1..] == last;
      assert TrimStart(s) == TrimStart(last) == last;
      TrimOfTrimmed(last);
    } else if first != "" && last == "" {
      assert TrimStart(s) == s;
      assert s[..|s| - 1] == first;
      assert TrimEnd(s) == TrimEnd(first);
      TrimOfTrimmed(first);
    } else if first != "" {
      TrimOfTrimmed(s);
    }
  }

  /** Without a display name, the resolved name is the first and last
      names: both joined by one space, or whichever one is set, or "". */
  lemma ResolveFromNameParts(row: UserRow)
    requires NormalizePersonName(row.display_name) == ""
    ensures var first := NormalizePersonName(row.vorname);
      var last := NormalizePersonName(row.nachname);
      ResolveProfileDisplayName(Some(row))
        == if first != "" && last != "" then first + " " + last
           else if first != "" then first
           else last
  {
    JoinedNames(NormalizePersonName(row.vorname), NormalizePersonName(row.nachname));
  }
}
