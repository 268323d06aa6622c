/** The brand card: the table of tracking links, the lookup that picks the
    link for a brand name, and the Claim button that depends on it. */
module BrandCard {
  import opened Wrappers
  import opened Text

  /** One entry of the redirect table: a lower-case brand key and the
      tracking URL a card whose name contains that key links to. */
  datatype Redirect = Redirect(key: string, url: string)

  /** The redirect table, in declaration order (the order in which the
      lookup tries the keys). */
  const Redirects: seq<Redirect> := [
    Redirect("doordash", "https://trkio.org/aff_c?offer_id=XXXX&aff_id=14999&source=doordash"),
    Redirect("crumbl", "https://trkio.org/aff_c?offer_id=XXXX&aff_id=14999&source=crumbl"),
    Redirect("apple", "https://trkio.org/aff_c?offer_id=XXXX&aff_id=14999&source=apple"),
    Redirect("sephora", "https://trkio.org/aff_c?offer_id=XXXX&aff_id=14999&source=sephora"),
    Redirect("costco", "https://glctrk.org/aff_c?offer_id=941&aff_id=14999&source=costco"),
    Redirect("zara", "https://trkio.org/aff_c?offer_id=XXXX&aff_id=14999&source=zara"),
    Redirect("target", "https://trkio.org/aff_c?offer_id=317&aff_id=14999&source=target"),
    Redirect("ticketmaster", "https://trkio.org/aff_c?offer_id=1326&aff_id=14999&source=ticket")
  ]

  /** Every entry of the table has a URL. */
  predicate UrlsNonEmpty(table: seq<Redirect>) {
    forall i :: 0 <= i < |table| ==> table[i].url != ""
  }

  lemma RedirectsUrlsNonEmpty()
    ensures UrlsNonEmpty(Redirects)
  {
  }

  // ---------------------------------------------------------------------
  // First-match lookup
  // ---------------------------------------------------------------------

  /** No key of the table occurs in name. */
  predicate NoMatch(table: seq<Redirect>, name: string) {
    forall j :: 0 <= j < |table| ==> !Contains(name, table[j].key)
  }

  /** Entry i is the first entry of the table whose key occurs in name. */
  predicate IsFirstMatch(table: seq<Redirect>, name: string, i: int) {
    0 <= i < |table| && Contains(name, table[i].key) &&
    forall j :: 0 <= j < i ==> !Contains(name, table[j].key)
  }

  /** The position of the first entry whose key occurs in name, if any. */
  function FirstMatch(table: seq<Redirect>, name: string): (r: Option<nat>)
    ensures r.Some? ==> IsFirstMatch(table, name, r.value)
    ensures r.None? ==> NoMatch(table, name)
  {
    if table == [] then None
    else if Contains(name, table[0].key) then Some(0)
    else match FirstMatch(table[1..], name)
      case Some(i) => Some(i + 1)
      case None => None
  }

  lemma FirstMatchUnique(table: seq<Redirect>, name: string, i: int, j: int)
    requires IsFirstMatch(table, name, i) && IsFirstMatch(table, name, j)
    ensures i == j
  {
  }

  /** The URL of the first entry whose key occurs in name, "" when none does.
      The result is "" or a URL of the table; with a table whose URLs are all
      non-empty it is "" exactly when no key occurs. */
  function Lookup(table: seq<Redirect>, name: string): (url: string)
    ensures url == "" || exists i :: 0 <= i < |table| && url == table[i].url
    ensures NoMatch(table, name) ==> url == ""
    ensures forall i :: IsFirstMatch(table, name, i) ==> url == table[i].url
    ensures UrlsNonEmpty(table) ==> (url == "" <==> NoMatch(table, name))
  {
    match FirstMatch(table, name)
    case Some(i) => table[i].url
    case None => ""
  }

  /** The key a brand name is looked up by: lower-cased, then trimmed. It
      holds no capital letter, and it neither starts nor ends with whitespace. */
  function Normalize(brandName: string): (key: string)
    ensures |key| <= |brandName|
    ensures forall i :: 0 <= i < |key| ==> !IsUpper(key[i])
    ensures key != [] ==> !IsWhitespace(key[0]) && !IsWhitespace(key[|key| - 1])
  {
    TrimNoUpper(Lower(brandName));
    Trim(Lower(brandName))
  }

  /** getRedirectForBrand as a value: the URL the card for brandName links
      to, "" when there is none. */
  function RedirectFor(brandName: string): (url: string)
    ensures url == "" || exists i :: 0 <= i < |Redirects| && url == Redirects[i].url
    ensures url == "" <==> NoMatch(Redirects, Normalize(brandName))
    ensures forall i :: IsFirstMatch(Redirects, Normalize(brandName), i) ==> url == Redirects[i].url
  {
    RedirectsUrlsNonEmpty();
    Lookup(Redirects, Normalize(brandName))
  }

  /** getRedirectForBrand: try the keys in table order and return the URL of
      the first one the normalised name contains. */
  method GetRedirectForBrand(brandName: string) returns (url: string)
    ensures url == RedirectFor(brandName)
  {
    var key := Trim(Lower(brandName));
    var i := 0;
    while i < |Redirects|
      invariant 0 <= i <= |Redirects|
      invariant forall j :: 0 <= j < i ==> !Contains(key, Redirects[j].key)
    {
      if Contains(key, Redirects[i].key) {
        assert IsFirstMatch(Redirects, key, i);
        return Redirects[i].url;
      }
      i := i + 1;
    }
    return "";
  }

  // ---------------------------------------------------------------------
  // The Claim button
  // ---------------------------------------------------------------------

  /** `isDisabled`: the button is greyed out when there is no redirect; a
      string is falsy in JavaScript exactly when it has no characters. */
  predicate IsDisabled(redirectUrl: string): (disabled: bool)
    ensures disabled <==> |redirectUrl| == 0
  {
    redirectUrl == ""
  }

  /** `handleClick`: the URL the browser is sent to, or None when the click
      does nothing. */
  function HandleClick(redirectUrl: string): (target: Option<string>)
    ensures target.Some? <==> !IsDisabled(redirectUrl)
    ensures target.Some? ==> target.value == redirectUrl
  {
    if redirectUrl == "" then None else Some(redirectUrl)
  }

  /** For the card of any brand: the button is disabled exactly when no key
      occurs in the normalised name, and a click navigates exactly when it is
      enabled, always to the URL of the earliest matching key. */
  lemma ClaimButton(brandName: string)
    ensures IsDisabled(RedirectFor(brandName)) <==> NoMatch(Redirects, Normalize(brandName))
    ensures HandleClick(RedirectFor(brandName)).Some? <==> !IsDisabled(RedirectFor(brandName))
    ensures HandleClick(RedirectFor(brandName)).Some? ==>
      exists i :: IsFirstMatch(Redirects, Normalize(brandName), i) &&
        HandleClick(RedirectFor(brandName)) == Some(Redirects[i].url)
  {
    var name := Normalize(brandName);
    match FirstMatch(Redirects, name)
    case Some(i) =>
      assert IsFirstMatch(Redirects, name, i);
    case None =>
  }

  // ---------------------------------------------------------------------
  // Names whose lower-cased form is already trimmed
  // ---------------------------------------------------------------------

  /** The keys of the table, in order. */
  lemma Keys()
    ensures |Redirects| == 8
    ensures Redirects[0].key == "doordash" && Redirects[1].key == "crumbl" &&
      Redirects[2].key == "apple" && Redirects[3].key == "sephora" &&
      Redirects[4].key == "costco" && Redirects[5].key == "zara" &&
      Redirects[6].key == "target" && Redirects[7].key == "ticketmaster"
  {
  }

  /** No key is empty or starts or ends with whitespace. */
  lemma KeysTrimmed()
    ensures forall i :: 0 <= i < |Redirects| ==>
      Redirects[i].key != [] && !IsWhitespace(Redirects[i].key[0]) &&
      !IsWhitespace(Redirects[i].key[|Redirects[i].key| - 1])
  {
  }

  /** When a brand name lower-cases to a string without surrounding
      whitespace, its URL is the one of the first key that string contains. */
  lemma RedirectAt(brandName: string, name: string, i: int)
    requires Lower(brandName) == name
    requires name != [] && !IsWhitespace(name[0]) && !IsWhitespace(name[|name| - 1])
    requires IsFirstMatch(Redirects, name, i)
    ensures RedirectFor(brandName) == Redirects[i].url
  {
    TrimUnpadded(name);
  }

  /** A brand name that lower-cases to one of the keys has a redirect. */
  lemma KeyResolves(brandName: string, i: int)
    requires 0 <= i < |Redirects| && Lower(brandName) == Redirects[i].key
    ensures RedirectFor(brandName) != ""
  {
    KeysTrimmed();
    var name := Redirects[i].key;
    TrimUnpadded(name);
  }

  lemma CrumblLower(brandName: string)
    requires brandName == "Crumbl Cookies"
    ensures Lower(brandName) == "crumbl cookies"
  {
    LowerOf(brandName, "crumbl cookies");
  }

  /** "crumbl cookies" contains "crumbl" and not "doordash". */
  lemma CrumblKeys(name: string)
    requires name == "crumbl cookies"
    ensures !Contains(name, "doordash") && Contains(name, "crumbl")
  {
    ContainsChars(name, "doordash", 'd');
    assert "crumbl" <= name;
  }

  lemma CrumblFirst(name: string)
    requires !Contains(name, "doordash") && Contains(name, "crumbl")
    ensures IsFirstMatch(Redirects, name, 1)
  {
    Keys();
  }

  /** The card "Crumbl Cookies" is sent to the crumbl link, although the name
      is not itself a key. */
  lemma CrumblCookies(brandName: string)
    requires brandName == "Crumbl Cookies"
    ensures Redirects[1].key == "crumbl"
    ensures RedirectFor(brandName) == Redirects[1].url
  {
    CrumblLower(brandName);
    var name := Lower(brandName);
    CrumblKeys(name);
    CrumblFirst(name);
    RedirectAt(brandName, name, 1);
  }

  lemma TargetAppleLower(brandName: string)
    requires brandName == "Target Apple"
    ensures Lower(brandName) == "target apple"
  {
    LowerOf(brandName, "target apple");
  }

  /** "target apple" contains "apple" and "target" but neither "doordash"
      nor "crumbl". */
  lemma TargetAppleKeys(name: string)
    requires name == "target apple"
    ensures !Contains(name, "doordash") && !Contains(name, "crumbl")
    ensures Contains(name, "apple") && Contains(name, "target")
  {
    ContainsChars(name, "doordash", 'd');
    ContainsChars(name, "crumbl", 'c');
    assert "target" <= name;
    assert OccursAt("apple", name, 7);
    ContainsIff(name, "apple");
  }

  lemma AppleFirst(name: string)
    requires !Contains(name, "doordash") && !Contains(name, "crumbl") && Contains(name, "apple")
    ensures IsFirstMatch(Redirects, name, 2)
  {
    Keys();
  }

  /** A name containing two keys gets the URL of the one declared first:
      "Target Apple" contains "target" and "apple", and goes to apple. */
  lemma EarliestKeyWins(brandName: string)
    requires brandName == "Target Apple"
    ensures Redirects[2].key == "apple" && Redirects[6].key == "target"
    ensures Contains(Normalize(brandName), Redirects[6].key)
    ensures RedirectFor(brandName) == Redirects[2].url
  {
    TargetAppleLower(brandName);
    var name := Lower(brandName);
    TargetAppleKeys(name);
    AppleFirst(name);
    RedirectAt(brandName, name, 2);
    Keys();
  }

  // ---------------------------------------------------------------------
  // Insensitivity to letter case and surrounding whitespace
  // ---------------------------------------------------------------------

  /** Names that differ only in the case of their letters normalise alike. */
  lemma NormalizeIgnoresCase(a: string, b: string)
    requires |a| == |b|
    requires forall i :: 0 <= i < |a| ==> ToLower(a[i]) == ToLower(b[i])
    ensures Normalize(a) == Normalize(b)
  {
    LowerOf(b, Lower(a));
  }

  /** Normalising is idempotent. */
  lemma NormalizeIdempotent(brandName: string)
    ensures Normalize(Normalize(brandName)) == Normalize(brandName)
  {
    var t := Normalize(brandName);
    // t has no capital letter, so it lower-cases to itself ...
    LowerOf(t, t);
    // ... and its ends are not whitespace
    if t != [] {
      TrimUnpadded(t);
    }
  }

  /** Whitespace around a name does not change its normal form. */
  lemma NormalizeIgnoresPadding(w1: string, brandName: string, w2: string)
    requires AllWhitespace(w1) && AllWhitespace(w2)
    ensures Normalize(w1 + brandName + w2) == Normalize(brandName)
  {
    LowerConcat(w1 + brandName, w2);
    LowerConcat(w1, brandName);
    LowerWhitespace(w1);
    LowerWhitespace(w2);
    TrimPadded(w1, Lower(brandName), w2);
  }

  /** Names that differ only in letter case get the same URL. */
  lemma RedirectIgnoresCase(a: string, b: string)
    requires |a| == |b|
    requires forall i :: 0 <= i < |a| ==> ToLower(a[i]) == ToLower(b[i])
    ensures RedirectFor(a) == RedirectFor(b)
  {
    NormalizeIgnoresCase(a, b);
  }

  /** Whitespace around a name does not change its URL. */
  lemma RedirectIgnoresPadding(w1: string, brandName: string, w2: string)
    requires AllWhitespace(w1) && AllWhitespace(w2)
    ensures RedirectFor(w1 + brandName + w2) == RedirectFor(brandName)
  {
    NormalizeIgnoresPadding(w1, brandName, w2);
  }
}
