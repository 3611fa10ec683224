/** The checks that guard the account deletion request
    (src/components/PhotoShopSection.tsx:3289-3327): nothing happens
    without a backend and a signed-in user; then the e-mail code must have
    been verified, the typed e-mail must match the account's e-mail up to
    letter case, and the typed phrase must read DELETE up to letter case
    and surrounding whitespace. Only then is the request built. */
module Account {
  import opened JsValues
  import opened Text

  /** The body sent to the deletion endpoint. */
  datatype DeleteRequest = DeleteRequest(email: string, otp: string, reason: Option<string>)

  datatype DeleteGate =
    | Ignored                      // no backend client or nobody signed in
    | OtpRequired
    | EmailMismatch
    | ConfirmationPhrase
    | Proceed(request: DeleteRequest)

  /** The error code shown for each refusal, `None` when nothing is shown. */
  function ErrorCode(g: DeleteGate): (r: Option<string>)
    ensures r.Some? <==> g.OtpRequired? || g.EmailMismatch? || g.ConfirmationPhrase?
  {
    match g
    case OtpRequired => Some("otp_required")
    case EmailMismatch => Some("email_mismatch")
    case ConfirmationPhrase => Some("confirmation_phrase")
    case _ => None
  }

  /** `performAccountDelete` up to the request. `accountEmail` is the
      signed-in user's e-mail (`None` when nobody is signed in, `Some(None)`
      when the account has no e-mail); `deleteWord` is the literal
      "DELETE". */
  function DeleteAccountGate(clientConfigured: bool, accountEmail: Option<Option<string>>,
                             otpVerified: bool, emailConfirm: string, phrase: string,
                             otp: string, reason: string, deleteWord: string): (r: DeleteGate)
    requires deleteWord == "DELETE"
    ensures r.Ignored? <==> !clientConfigured || accountEmail.None?
    ensures r.OtpRequired? <==> clientConfigured && accountEmail.Some? && !otpVerified
    ensures r.EmailMismatch? <==> (clientConfigured && accountEmail.Some? && otpVerified
      && LowerAscii(emailConfirm) != LowerAscii(accountEmail.value.GetOr("")))
    ensures r.ConfirmationPhrase? <==> (clientConfigured && accountEmail.Some? && otpVerified
      && LowerAscii(emailConfirm) == LowerAscii(accountEmail.value.GetOr(""))
      && UpperAscii(Trim(phrase)) != deleteWord)
    ensures r.Proceed? ==> (
      && r.request.email == accountEmail.value.GetOr("")
      && r.request.otp == otp
      && (r.request.reason.None? <==> reason == "")
      && (r.request.reason.Some? ==> r.request.reason.value == reason))
  {
    if !clientConfigured || accountEmail.None? then Ignored
    else
      var expectedEmail := LowerAscii(accountEmail.value.GetOr(""));
      var confirmedEmail := LowerAscii(emailConfirm);
      if !otpVerified then OtpRequired
      else if confirmedEmail != expectedEmail then EmailMismatch
      else if UpperAscii(Trim(phrase)) != deleteWord then ConfirmationPhrase
      else Proceed(DeleteRequest(accountEmail.value.GetOr(""), otp,
                                 if reason == "" then None else Some(reason)))
  }

  /** Any spelling of "delete" in any letter case, with any whitespace
      around it, gets past the phrase gate once the other gates pass. */
  lemma AnyCaseDeletePasses(email: string, phrase: string, pre: string, word: string, post: string,
                            otp: string, reason: string, deleteWord: string)
    requires deleteWord == "DELETE"
    requires forall k :: 0 <= k < |pre| ==> IsSpace(pre[k])
    requires forall k :: 0 <= k < |post| ==> IsSpace(post[k])
    requires phrase == pre + word + post
    requires LowerAscii(word) == "delete"
    ensures DeleteAccountGate(true, Some(Some(email)), true, UpperAscii(email), phrase,
                              otp, reason, deleteWord).Proceed?
  {
    DeleteSpelled(word, deleteWord);
    LoweredDelete(word);
    UpperOfLowered(word[0], 'd');
    UpperOfLowered(word[5], 'e');
    TrimPadded(pre, word, post);
    UpperKeepsLowered(email);
  }

  /** A word that lower-cases to "delete" upper-cases to "DELETE" and has
      no whitespace at either end. */
  lemma DeleteSpelled(word: string, deleteWord: string)
    requires deleteWord == "DELETE"
    requires LowerAscii(word) == "delete"
    ensures UpperAscii(word) == deleteWord
  {
    LoweredDelete(word);
    UpperOfLowered(word[0], 'd');
    UpperOfLowered(word[1], 'e');
    UpperOfLowered(word[2], 'l');
    UpperOfLowered(word[3], 'e');
    UpperOfLowered(word[4], 't');
    UpperOfLowered(word[5], 'e');
    var uw := UpperAscii(word);
    assert uw[0] == 'D' && uw[1] == 'E' && uw[2] == 'L' && uw[3] == 'E' && uw[4] == 'T' && uw[5] == 'E';
    SpellsDelete(uw, deleteWord);
  }

  lemma LoweredDelete(word: string)
    requires LowerAscii(word) == "delete"
    ensures |word| == 6
    ensures LowerChar(word[0]) == 'd' && LowerChar(word[1]) == 'e' && LowerChar(word[2]) == 'l'
    ensures LowerChar(word[3]) == 'e' && LowerChar(word[4]) == 't' && LowerChar(word[5]) == 'e'
  {
    var lw := LowerAscii(word);
    assert lw[0] == 'd' && lw[1] == 'e' && lw[2] == 'l' && lw[3] == 'e' && lw[4] == 't' && lw[5] == 'e';
  }

  lemma SpellsDelete(s: string, deleteWord: string)
    requires deleteWord == "DELETE"
    requires |s| == 6
    requires s[0] == 'D' && s[1] == 'E' && s[2] == 'L' && s[3] == 'E' && s[4] == 'T' && s[5] == 'E'
    ensures s == deleteWord
  {
  }

  /** Upper-casing first does not change the lower-cased form. */
  lemma UpperKeepsLowered(s: string)
    ensures LowerAscii(UpperAscii(s)) == LowerAscii(s)
  {
    forall k | 0 <= k < |s|
      ensures LowerAscii(UpperAscii(s))[k] == LowerAscii(s)[k]
    {
      LowerOfUpper(s[k]);
    }
  }

  /** A character that lower-cases to a lower-case letter upper-cases to
      that letter's capital. */
  lemma UpperOfLowered(c: char, l: char)
    requires 'a' <= l <= 'z' && LowerChar(c) == l
    ensures UpperChar(c) == (l as int - 32) as char
    ensures 'A' <= c <= 'Z' || 'a' <= c <= 'z'
  {
  }

  lemma LowerOfUpper(c: char)
    ensures LowerChar(UpperChar(c)) == LowerChar(c)
  {
  }

  /** A request is only ever built for an account e-mail the user typed
      back (up to letter case) and a phrase that trims to "delete" in some
      letter case. */
  lemma ProceedConfirmed(clientConfigured: bool, accountEmail: Option<Option<string>>,
                         otpVerified: bool, emailConfirm: string, phrase: string,
                         otp: string, reason: string, deleteWord: string)
    requires deleteWord == "DELETE"
    requires DeleteAccountGate(clientConfigured, accountEmail, otpVerified, emailConfirm,
                               phrase, otp, reason, deleteWord).Proceed?
    ensures otpVerified && accountEmail.Some?
    ensures |emailConfirm| == |accountEmail.value.GetOr("")|
    ensures LowerAscii(Trim(phrase)) == "delete"
  {
    LoweredFromDelete(Trim(phrase), deleteWord, "delete");
  }

  /** What upper-cases to "DELETE" lower-cases to "delete". */
  lemma LoweredFromDelete(t: string, deleteWord: string, lowerWord: string)
    requires deleteWord == "DELETE" && lowerWord == "delete"
    requires UpperAscii(t) == deleteWord
    ensures LowerAscii(t) == lowerWord
  {
    var u := UpperAscii(t);
    assert |t| == 6;
    assert u[0] == 'D' && u[1] == 'E' && u[2] == 'L' && u[3] == 'E' && u[4] == 'T' && u[5] == 'E';
    LowerOfUppered(t[0], 'D');
    LowerOfUppered(t[1], 'E');
    LowerOfUppered(t[2], 'L');
    LowerOfUppered(t[3], 'E');
    LowerOfUppered(t[4], 'T');
    LowerOfUppered(t[5], 'E');
    var l := LowerAscii(t);
    assert l[0] == 'd' && l[1] == 'e' && l[2] == 'l' && l[3] == 'e' && l[4] == 't' && l[5] == 'e';
    SpellsLowerDelete(l, lowerWord);
  }

  lemma SpellsLowerDelete(s: string, lowerWord: string)
    requires lowerWord == "delete"
    requires |s| == 6
    requires s[0] == 'd' && s[1] == 'e' && s[2] == 'l' && s[3] == 'e' && s[4] == 't' && s[5] == 'e'
    ensures s == lowerWord
  {
  }

  /** A character that upper-cases to a capital letter lower-cases to that
      letter's small form. */
  lemma LowerOfUppered(c: char, u: char)
    requires 'A' <= u <= 'Z' && UpperChar(c) == u
    ensures LowerChar(c) == (u as int + 32) as char
  {
  }
}
