/**
 * Address helpers of the mailer: `extract_email`, which pulls the address
 * out of a `Name <address>` form with the pattern `<([^>]+)>`, and
 * `looks_like_gmail`, a case-folded suffix test.
 */
module Addresses {
  import opened Wrappers
  import opened Text

  /** The pattern `<([^>]+)>` matches `s[i..j + 1]`: a `<` at `i`, a `>` at
      `j`, at least one character between them and no `>` among those. */
  ghost predicate MatchAt(s: string, i: int, j: int) {
    0 <= i && i + 1 < j < |s| && s[i] == '<' && s[j] == '>' &&
    forall k :: i < k < j ==> s[k] != '>'
  }

  /** The index of the first `>` at or after `k`, or `|s|` if there is none:
      where the greedy `[^>]+` stops. */
  function CloseFrom(s: string, k: nat): (r: nat)
    requires k <= |s|
    ensures k <= r <= |s|
    ensures r < |s| ==> s[r] == '>'
    ensures forall m :: k <= m < r ==> s[m] != '>'
    decreases |s| - k
  {
    if k == |s| || s[k] == '>' then k else CloseFrom(s, k + 1)
  }

  /** Where a match can start: a `<` whose greedy `[^>]+` run is not empty
      and is followed by a `>`. */
  predicate MatchStartsAt(s: string, i: nat) {
    i < |s| && s[i] == '<' && i + 1 < CloseFrom(s, i + 1) < |s|
  }

  /** The pattern matches at `i` exactly when a match can start there, and
      it then ends at the first `>` after the `<`. */
  lemma MatchAtIff(s: string, i: nat, j: int)
    ensures MatchAt(s, i, j) <==> MatchStartsAt(s, i) && j == CloseFrom(s, i + 1)
  {
    if i < |s| {
      var e := CloseFrom(s, i + 1);
      if MatchAt(s, i, j) {
        assert e <= j;
        assert s[e] == '>';
      }
    }
  }

  /** `re.search` from position `i` on: the leftmost start at or after `i`
      where the pattern matches, with the end of that match. */
  function SearchFrom(s: string, i: nat): (r: Option<(nat, nat)>)
    requires i <= |s|
    ensures r.Some? ==> i <= r.value.0 && MatchStartsAt(s, r.value.0)
    ensures r.Some? ==> r.value.1 == CloseFrom(s, r.value.0 + 1)
    ensures r.Some? ==> forall a :: i <= a < r.value.0 ==> !MatchStartsAt(s, a)
    ensures r.None? ==> forall a :: i <= a ==> !MatchStartsAt(s, a)
    decreases |s| - i
  {
    if i == |s| then None
    else if MatchStartsAt(s, i) then Some((i, CloseFrom(s, i + 1)))
    else SearchFrom(s, i + 1)
  }

  /** `extract_email(addr)`: `""` for an empty or missing address; otherwise
      the text inside the first `<...>` if there is one, else the whole
      address, in both cases stripped of surrounding whitespace. */
  function ExtractEmail(addr: Option<string>): (r: string)
    ensures Trimmed(r)
    ensures |r| <= |addr.GetOr("")|
    ensures addr == None || addr == Some("") ==> r == ""
  {
    if addr == None || addr == Some("") then ""
    else
      var s := addr.value;
      match SearchFrom(s, 0)
      case Some((i, j)) => Strip(s[i + 1..j])
      case None => Strip(s)
  }

  /** When the pattern's leftmost match spans `s[i..j + 1]`, the result is
      its group stripped, and it holds no `>`. */
  lemma ExtractEmailFirstMatch(s: string, i: nat, j: nat)
    requires s != [] && MatchAt(s, i, j)
    requires forall a, b :: 0 <= a < i ==> !MatchAt(s, a, b)
    ensures ExtractEmail(Some(s)) == Strip(s[i + 1..j])
    ensures '>' !in ExtractEmail(Some(s))
  {
    SearchFindsFirst(s, i, j);
    GroupHasNoClose(s, i, j);
  }

  /** The group of a match, stripped, holds no `>`. */
  lemma GroupHasNoClose(s: string, i: nat, j: nat)
    requires MatchAt(s, i, j)
    ensures '>' !in Strip(s[i + 1..j])
  {
    var t := s[i + 1..j];
    assert forall k :: 0 <= k < |t| ==> t[k] == s[i + 1 + k];
    StripChars(t);
  }

  /** The search finds the leftmost match. */
  lemma SearchFindsFirst(s: string, i: nat, j: nat)
    requires MatchAt(s, i, j)
    requires forall a, b :: 0 <= a < i ==> !MatchAt(s, a, b)
    ensures SearchFrom(s, 0) == Some((i, j))
  {
    MatchAtIff(s, i, j);
    var r := SearchFrom(s, 0);
    MatchAtIff(s, r.value.0, r.value.1);
  }

  /** When the pattern matches nowhere, the result is the whole address
      stripped. */
  lemma ExtractEmailNoMatch(s: string)
    requires s != []
    requires forall a, b :: 0 <= a ==> !MatchAt(s, a, b)
    ensures ExtractEmail(Some(s)) == Strip(s)
  {
    var r := SearchFrom(s, 0);
    if r.Some? {
      MatchAtIff(s, r.value.0, r.value.1);
    }
  }

  /** A worked instance: the display-name form yields the bare address. */
  lemma ExtractEmailDisplayName()
    ensures ExtractEmail(Some("A <a@b> ")) == "a@b"
  {
    var s := "A <a@b> ";
    assert CloseFrom(s, 3) == 6 by {
      assert s[3] != '>' && s[4] != '>' && s[5] != '>' && s[6] == '>';
    }
    assert MatchStartsAt(s, 2);
    assert !MatchStartsAt(s, 0) && !MatchStartsAt(s, 1);
    var t := s[3..6];
    assert t == "a@b";
    assert Trimmed(t);
    StripUnique([], t, []);
    assert [] + t + [] == t;
  }

  const GmailSuffix := "@gmail.com"
  const GooglemailSuffix := "@googlemail.com"

  /** `looks_like_gmail(addr)`: the lower-cased address (`""` for a missing
      one) ends with `@gmail.com` or `@googlemail.com`. */
  function LooksLikeGmail(addr: Option<string>): (r: bool)
    ensures addr == None || addr == Some("") ==> !r
  {
    var a := Lower(addr.GetOr(""));
    EndsWith(a, GmailSuffix) || EndsWith(a, GooglemailSuffix)
  }

  /** The test looks only at the last 10 or 15 characters, with their case
      folded. */
  lemma LooksLikeGmailTail(s: string)
    ensures LooksLikeGmail(Some(s)) <==>
      (|s| >= 10 && Lower(s[|s| - 10..]) == GmailSuffix) ||
      (|s| >= 15 && Lower(s[|s| - 15..]) == GooglemailSuffix)
  {
    if |s| >= 10 { LowerSuffix(s, |s| - 10); }
    if |s| >= 15 { LowerSuffix(s, |s| - 15); }
  }

  /** Case-insensitive: the answer for an address and for its lower-cased
      form agree. */
  lemma LooksLikeGmailCaseInsensitive(s: string)
    ensures LooksLikeGmail(Some(Lower(s))) == LooksLikeGmail(Some(s))
  {
    LowerIdempotent(s);
  }

  /** Any local part followed by either suffix, in any case, is accepted. */
  lemma LooksLikeGmailAccepts(local: string, domain: string)
    requires Lower(domain) == GmailSuffix || Lower(domain) == GooglemailSuffix
    ensures LooksLikeGmail(Some(local + domain))
  {
    var s := local + domain;
    assert s[|s| - |domain|..] == domain;
    LowerSuffix(s, |s| - |domain|);
  }

  /** Mixed-case spellings of both domains are recognised. */
  lemma LooksLikeGmailMixedCase()
    ensures LooksLikeGmail(Some("Me@GMail.COM")) && LooksLikeGmail(Some("x@GoogleMail.COM"))
  {
    LooksLikeGmailMixedCaseGmail();
    LooksLikeGmailMixedCaseGooglemail();
  }

  /** `Me@GMail.COM` lowers to an address ending in `@gmail.com`. */
  lemma LooksLikeGmailMixedCaseGmail()
    ensures LooksLikeGmail(Some("Me@GMail.COM"))
  {
    var s := "Me@GMail.COM";
    assert s[2..] == "@GMail.COM";
    LowerSuffix(s, 2);
    LowerGmailDomain();
    assert Lower(s)[|s| - |GmailSuffix|..] == GmailSuffix;
  }

  /** `x@GoogleMail.COM` lowers to an address ending in `@googlemail.com`. */
  lemma LooksLikeGmailMixedCaseGooglemail()
    ensures LooksLikeGmail(Some("x@GoogleMail.COM"))
  {
    var s := "x@GoogleMail.COM";
    assert s[1..] == "@GoogleMail.COM";
    LowerSuffix(s, 1);
    LowerGooglemailDomain();
    assert Lower(s)[|s| - |GooglemailSuffix|..] == GooglemailSuffix;
  }

  /** Each capital of the domain becomes its own small letter. */
  lemma LowerGmailDomain()
    ensures Lower("@GMail.COM") == GmailSuffix
  {
  }

  /** Each capital of the domain becomes its own small letter. */
  lemma LowerGooglemailDomain()
    ensures Lower("@GoogleMail.COM") == GooglemailSuffix
  {
  }

  /** The display-name form `Name <x@gmail.com>` is not recognised: the
      address ends with `>`, which no suffix does. */
  lemma LooksLikeGmailRejectsAngleForm(s: string)
    requires s != [] && s[|s| - 1] == '>'
    ensures !LooksLikeGmail(Some(s))
  {
    assert Lower(s)[|s| - 1] == '>';
  }
}
