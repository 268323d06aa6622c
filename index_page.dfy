/** The landing page: the static list of brand offers, the search filter over
    it, and the choice between the list of cards and the "no offers" message. */
module IndexPage {
  import opened Wrappers
  import opened Text
  import opened BrandCard

  /** One offer card of the page. The logo is the path of the imported asset. */
  datatype Brand = Brand(logo: string, brand: string, offer: string, usedToday: nat, timeLeft: nat)

  /** The page's static list of offers, in display order. */
  const Brands: seq<Brand> := [
    Brand("@/assets/doordash-logo.png", "DoorDash", "\U{1F354} Vday Discount - 95% Off", 167, 14),
    Brand("@/assets/crumblcookies-logo.png", "Crumbl Cookies", "\U{1F36A} Vday Discount - 90% Off", 324, 9),
    Brand("@/assets/apple-logo.png", "Apple", "\U{26A1} Vday Discount - 95% Off", 198, 23),
    Brand("@/assets/sephora-logo.png", "Sephora", "\U{1F484} Vday Discount - 80% Off", 209, 18),
    Brand("@/assets/costco-logo.png", "Costco", "\U{1F39F}\U{FE0F} Vday Discount - 85% Off", 185, 8),
    Brand("@/assets/zara-logo.png", "Zara", "\U{1F6CD}\U{FE0F} Vday Discount - 60% Off", 246, 11),
    Brand("@/assets/target-logo.png", "Target", "\U{1F3AF} Vday Discount - 75% Off", 260, 12)
  ]

  // ---------------------------------------------------------------------
  // The search filter
  // ---------------------------------------------------------------------

  /** `!searchQuery.trim()`: the query is empty or whitespace only. */
  predicate IsBlank(query: string): (blank: bool)
    ensures blank <==> AllWhitespace(query)
  {
    TrimEmptyIff(query);
    Trim(query) == ""
  }

  /** The lower-cased query, untrimmed, occurs in the lower-cased brand name or
      in the lower-cased offer text. */
  predicate Matches(b: Brand, query: string): (m: bool)
    ensures m <==> Occurs(Lower(query), Lower(b.brand)) || Occurs(Lower(query), Lower(b.offer))
  {
    var q, name, offer := Lower(query), Lower(b.brand), Lower(b.offer);
    ContainsIff(name, q);
    ContainsIff(offer, q);
    Contains(name, q) || Contains(offer, q)
  }

  /** `Array.prototype.filter`: the elements of s that keep accepts, in their
      original order. Nothing is added or duplicated, every kept element is
      accepted, and every accepted element is kept. */
  function Filter<T(==)>(s: seq<T>, keep: T -> bool): (r: seq<T>)
    ensures multiset(r) <= multiset(s)
    ensures forall x :: x in r ==> x in s && keep(x)
    ensures forall x :: x in s && keep(x) ==> x in r
  {
    if s == [] then []
    else
      var init, last := s[..|s| - 1], s[|s| - 1];
      assert s == init + [last];
      Filter(init, keep) + if keep(last) then [last] else []
  }

  /** The positions of the elements keep accepts, in increasing order. */
  function KeptPositions<T>(s: seq<T>, keep: T -> bool): (ps: seq<nat>)
    ensures forall k :: 0 <= k < |ps| ==> ps[k] < |s|
    ensures forall k, l :: 0 <= k < l < |ps| ==> ps[k] < ps[l]
    ensures forall i :: 0 <= i < |s| ==> (i in ps <==> keep(s[i]))
  {
    if s == [] then []
    else
      var n := |s| - 1;
      var ps := KeptPositions(s[..n], keep);
      assert forall i :: 0 <= i < n ==> s[..n][i] == s[i];
      ps + if keep(s[n]) then [n] else []
  }

  /** The filter keeps exactly the elements at the accepted positions, in the
      order of those positions: its result is a subsequence of s. */
  lemma {:induction false} FilterAtPositions<T>(s: seq<T>, keep: T -> bool)
    ensures |Filter(s, keep)| == |KeptPositions(s, keep)|
    ensures forall k :: 0 <= k < |Filter(s, keep)| ==>
      Filter(s, keep)[k] == s[KeptPositions(s, keep)[k]]
  {
    if s != [] {
      var n := |s| - 1;
      var init := s[..n];
      FilterAtPositions(init, keep);
      var f, ps := Filter(init, keep), KeptPositions(init, keep);
      var tail, tailPs := if keep(s[n]) then [s[n]] else [], if keep(s[n]) then [n] else [];
      assert Filter(s, keep) == f + tail;
      assert KeptPositions(s, keep) == ps + tailPs;
      forall k | 0 <= k < |f|
        ensures (f + tail)[k] == s[(ps + tailPs)[k]]
      {
        assert init[ps[k]] == s[ps[k]];
      }
    }
  }

  /** Filtering again with the same predicate changes nothing. */
  lemma {:induction false} FilterIdempotent<T>(s: seq<T>, keep: T -> bool)
    ensures Filter(Filter(s, keep), keep) == Filter(s, keep)
  {
    if s != [] {
      var n := |s| - 1;
      var f := Filter(s[..n], keep);
      FilterIdempotent(s[..n], keep);
      if keep(s[n]) {
        var g := f + [s[n]];
        assert Filter(s, keep) == g;
        assert g[..|g| - 1] == f && g[|g| - 1] == s[n];
        assert Filter(g, keep) == Filter(f, keep) + [s[n]];
      } else {
        assert Filter(s, keep) == f + [];
        assert f + [] == f;
      }
    }
  }

  /** `filteredBrands`: the whole list for a blank query, otherwise the
      brands that match the query, in their original order. */
  function FilteredBrands(brands: seq<Brand>, query: string): (r: seq<Brand>)
    ensures IsBlank(query) ==> r == brands
    ensures multiset(r) <= multiset(brands)
    ensures forall b :: b in r ==> b in brands
    ensures !IsBlank(query) ==> forall b :: b in r ==> Matches(b, query)
    ensures !IsBlank(query) ==> forall b :: b in brands && Matches(b, query) ==> b in r
  {
    if IsBlank(query) then brands else Filter(brands, b => Matches(b, query))
  }

  /** For a non-blank query the result is the list picked at the positions of
      the matching brands. */
  lemma FilteredAtPositions(brands: seq<Brand>, query: string)
    requires !IsBlank(query)
    ensures var r, ps := FilteredBrands(brands, query), KeptPositions(brands, b => Matches(b, query));
      |r| == |ps| && forall k :: 0 <= k < |r| ==> r[k] == brands[ps[k]]
  {
    FilterAtPositions(brands, b => Matches(b, query));
  }

  lemma FilteredBrandsIdempotent(brands: seq<Brand>, query: string)
    ensures FilteredBrands(FilteredBrands(brands, query), query) == FilteredBrands(brands, query)
  {
    if !IsBlank(query) {
      FilterIdempotent(brands, b => Matches(b, query));
    }
  }

  /** A non-blank query is matched as typed: surrounding whitespace is part of
      the text sought, and only blankness is decided on the trimmed query. */
  lemma UntrimmedQuery(brands: seq<Brand>, query: string)
    requires !IsBlank(query)
    ensures forall b :: b in FilteredBrands(brands, query) <==> b in brands && Matches(b, query)
  {
  }

  // ---------------------------------------------------------------------
  // The static list against the redirect table
  // ---------------------------------------------------------------------

  lemma BrandNames()
    ensures |Brands| == 7
    ensures Brands[0].brand == "DoorDash" && Brands[1].brand == "Crumbl Cookies" &&
      Brands[2].brand == "Apple" && Brands[3].brand == "Sephora" &&
      Brands[4].brand == "Costco" && Brands[5].brand == "Zara" && Brands[6].brand == "Target"
  {
  }

  /** The names of the static list, lower-cased, written out so that the
      lemmas below can name them. */
  const LoweredNames: seq<string> :=
    ["doordash", "crumbl cookies", "apple", "sephora", "costco", "zara", "target"]

  // Lower-casing the seven names is split into two lemmas of four and three
  // names only to keep each proof small.

  lemma LowerNamesLow(i: int, n: string)
    requires 0 <= i < 4 && n == Brands[i].brand
    ensures Lower(n) == LoweredNames[i]
  {
    BrandNames();
    if i == 0 { LowerOf(n, "doordash"); }
    else if i == 1 { LowerOf(n, "crumbl cookies"); }
    else if i == 2 { LowerOf(n, "apple"); }
    else { LowerOf(n, "sephora"); }
  }

  lemma LowerNamesHigh(i: int, n: string)
    requires 4 <= i < 7 && n == Brands[i].brand
    ensures Lower(n) == LoweredNames[i]
  {
    BrandNames();
    if i == 4 { LowerOf(n, "costco"); }
    else if i == 5 { LowerOf(n, "zara"); }
    else { LowerOf(n, "target"); }
  }

  /** Lower-casing the name of the i-th static brand. */
  lemma LowerName(i: int, n: string)
    requires 0 <= i < |Brands| && n == Brands[i].brand
    ensures i < |LoweredNames| && Lower(n) == LoweredNames[i]
  {
    if i < 4 { LowerNamesLow(i, n); } else { LowerNamesHigh(i, n); }
  }

  /** Every brand of the static list has a redirect: "Crumbl Cookies"
      through the key "crumbl", every other one because its lower-cased
      name is itself a key. */
  lemma StaticBrandsResolve()
    ensures forall i :: 0 <= i < |Brands| ==> RedirectFor(Brands[i].brand) != ""
  {
    forall i | 0 <= i < |Brands|
      ensures RedirectFor(Brands[i].brand) != ""
    {
      var n := Brands[i].brand;
      LowerName(i, n);
      Keys();
      if i == 1 {
        CrumblCookies(n);
      } else {
        KeyResolves(n, i);
      }
    }
  }

  /** Whatever the query, every card on the page has an enabled Claim button,
      and clicking it navigates to that brand's redirect. */
  lemma ShownCardsEnabled(brands: seq<Brand>, query: string)
    requires brands == Brands
    ensures forall b :: b in FilteredBrands(brands, query) ==>
      !IsDisabled(RedirectFor(b.brand)) && HandleClick(RedirectFor(b.brand)) == Some(RedirectFor(b.brand))
  {
    StaticBrandsResolve();
    forall b | b in FilteredBrands(brands, query)
      ensures RedirectFor(b.brand) != ""
    {
      var i :| 0 <= i < |brands| && brands[i] == b;
    }
  }

  // ---------------------------------------------------------------------
  // A padded query
  // ---------------------------------------------------------------------

  /** A query whose first character is not whitespace is not blank. */
  lemma NotBlank(query: string)
    requires query != [] && !IsWhitespace(query[0])
    ensures !IsBlank(query)
  {
    TrimEmptyIff(query);
  }

  lemma ZaraQueries(q: string, p: string)
    requires q == "zara" && p == "zara "
    ensures !IsBlank(q) && !IsBlank(p)
    ensures Lower(q) == q && Lower(p) == p
  {
    NotBlank(q);
    NotBlank(p);
    LowerOf(q, q);
    LowerOf(p, p);
  }

  lemma ZaraOffer(offer: string)
    requires offer == "\U{1F6CD}\U{FE0F} Vday Discount - 60% Off"
    ensures 'z' !in offer && 'Z' !in offer
  {
  }

  lemma ZaraOfferLower(offer: string)
    requires offer == Brands[5].offer
    ensures 'z' !in Lower(offer)
  {
    assert offer == "\U{1F6CD}\U{FE0F} Vday Discount - 60% Off";
    ZaraOffer(offer);
    LowerLacks(offer, 'z');
  }

  lemma ZaraTexts(b: Brand, q: string, p: string)
    requires b == Brands[5] && q == "zara" && p == "zara "
    ensures Contains(Lower(b.brand), q)
    ensures !Contains(Lower(b.brand), p) && !Contains(Lower(b.offer), p)
  {
    LowerName(5, b.brand);
    assert q <= Lower(b.brand);
    ContainsChars(Lower(b.brand), p, ' ');
    ZaraOfferLower(b.offer);
    ContainsChars(Lower(b.offer), p, 'z');
  }

  lemma ZaraMatches(b: Brand, q: string, p: string)
    requires b == Brands[5] && q == "zara" && p == "zara "
    ensures Matches(b, q) && !Matches(b, p)
  {
    ZaraQueries(q, p);
    ZaraTexts(b, q, p);
    ContainsIff(Lower(b.brand), q);
    ContainsIff(Lower(b.brand), p);
    ContainsIff(Lower(b.offer), p);
  }

  /** The query is searched for as typed: "zara" finds the Zara card, while
      "zara " with a trailing space, which is not blank, does not. */
  lemma PaddedQuery(q: string, p: string)
    requires q == "zara" && p == "zara "
    ensures Trim(p) != ""
    ensures Brands[5] in FilteredBrands(Brands, q)
    ensures Brands[5] !in FilteredBrands(Brands, p)
  {
    var b := Brands[5];
    ZaraQueries(q, p);
    ZaraMatches(b, q, p);
    TrimEmptyIff(p);
  }

  // ---------------------------------------------------------------------
  // What the page shows
  // ---------------------------------------------------------------------

  /** The main area: the cards of the filtered list, or the "no offers found"
      message quoting the query as typed. */
  datatype View = Cards(cards: seq<Brand>) | NoOffers(query: string)

  function Render(brands: seq<Brand>, query: string): (v: View)
    ensures v.Cards? ==> v.cards == FilteredBrands(brands, query) && v.cards != []
    ensures v.NoOffers? ==> v.query == query && FilteredBrands(brands, query) == []
  {
    var shown := FilteredBrands(brands, query);
    if |shown| > 0 then Cards(shown) else NoOffers(query)
  }

  /** The message appears exactly when the list is empty, or the query is not
      blank and no brand matches it; otherwise the cards are the filtered list. */
  lemma NoOffersIff(brands: seq<Brand>, query: string)
    ensures Render(brands, query).NoOffers? <==>
      brands == [] || (!IsBlank(query) && forall b :: b in brands ==> !Matches(b, query))
    ensures Render(brands, query).Cards? ==> Render(brands, query).cards == FilteredBrands(brands, query)
  {
    var shown := FilteredBrands(brands, query);
    if !IsBlank(query) && |shown| == 0 {
      forall b | b in brands
        ensures !Matches(b, query)
      {
        assert b !in shown;
      }
    }
    if |shown| > 0 && !IsBlank(query) {
      assert shown[0] in shown;
    }
  }
}
