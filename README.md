# Brand offers landing page: redirect lookup and search filter

This project is a Dafny model of the two pieces of logic in a small promotional
landing page. The page shows a list of brand offer cards.

- **The brand card** (`src/components/BrandCard.tsx`). A card looks up the
  tracking link for its brand name. The name is lower-cased, then trimmed. The
  keys of a fixed, ordered redirect table are tried in order, and the URL of
  the first key that occurs in the normalised name is returned. The result is
  `""` when no key occurs. The card's Claim button is disabled when there is no
  link. A click on an enabled button sends the browser to the link.
- **The landing page** (`src/pages/Index.tsx`). It holds the static list of
  seven offers. A blank search query (empty or whitespace only) shows the whole
  list. Any other query keeps, in order, the brands whose lower-cased name or
  offer text contains the lower-cased query, which is not trimmed. The page
  shows a "no offers found" message when that list is empty.

Layout:

- `wrappers.dfy` holds the `Option` datatype.
- `text.dfy` (module `Text`) models the three JavaScript string operations used:
  - `toLowerCase`, for ASCII letters;
  - `trim`, with the ECMAScript whitespace and line-terminator set;
  - `includes`, as a recursive prefix test that is proved equal to a positional definition.
- `brand_card.dfy` (module `BrandCard`) holds:
  - the redirect table;
  - the first-match search, as a specification function and as a `while` loop proved equal to it;
  - the button decision;
  - the lemmas about them.
- `index_page.dfy` (module `IndexPage`) holds:
  - the static list;
  - the filter, generic over the element type and predicate;
  - the choice between cards and the message;
  - the fact that every static brand has a link.

## Model

| member | source | states |
|---|---|---|
| BrandCard.RedirectsUrlsNonEmpty | src/components/BrandCard.tsx:16-25 | every URL of the table is non-empty |
| BrandCard.Keys | src/components/BrandCard.tsx:16-25 | proof helper: the table has eight entries, and their keys are doordash, crumbl, apple, sephora, costco, zara, target and ticketmaster, in that order |
| BrandCard.KeysTrimmed | src/components/BrandCard.tsx:16-25 | no key is empty, and no key starts or ends with whitespace |
| BrandCard.FirstMatch | src/components/BrandCard.tsx:30-33 | Some(i) means entry i's key occurs in the name and no earlier key does; None means no key occurs |
| BrandCard.FirstMatchUnique | src/components/BrandCard.tsx:30-31 | at most one position is the first match |
| BrandCard.Lookup | src/components/BrandCard.tsx:30-33 | the result is `""` or a URL of the table; it is `""` when no key occurs; it is the URL of the first matching key; with non-empty URLs it is `""` exactly when no key occurs |
| BrandCard.Normalize | src/components/BrandCard.tsx:28 | the lookup key of a name has no capital letter, does not start or end with whitespace, and is no longer than the name |
| BrandCard.RedirectFor | src/components/BrandCard.tsx:27-34 | the redirect of a brand name is `""` or one of the table's URLs; it is `""` if and only if no key occurs in the lower-cased, trimmed name; otherwise it is the URL of the earliest matching key |
| BrandCard.GetRedirectForBrand | src/components/BrandCard.tsx:27-34 | the loop over the keys with early return computes exactly `RedirectFor` |
| BrandCard.HandleClick | src/components/BrandCard.tsx:39-42 | a click navigates if and only if the button is not disabled, and then to the redirect itself |
| BrandCard.IsDisabled | src/components/BrandCard.tsx:44 | the button is disabled exactly when the redirect string has no characters, which is when `!redirectUrl` holds |
| BrandCard.ClaimButton | src/components/BrandCard.tsx:37-44 | for any brand name, the button is disabled if and only if no key occurs in the normalised name; a click navigates if and only if the button is enabled, and then to the URL of a first-matching key |
| BrandCard.NormalizeIgnoresCase | src/components/BrandCard.tsx:28 | names that differ only in letter case normalise to the same key |
| BrandCard.NormalizeIdempotent | src/components/BrandCard.tsx:28 | normalising a normalised name changes nothing |
| BrandCard.NormalizeIgnoresPadding | src/components/BrandCard.tsx:28 | whitespace before and after a name does not change its normal form |
| BrandCard.RedirectIgnoresCase | src/components/BrandCard.tsx:28 | names that differ only in letter case get the same redirect |
| BrandCard.RedirectIgnoresPadding | src/components/BrandCard.tsx:28 | whitespace before and after a name does not change its redirect |
| BrandCard.RedirectAt | src/components/BrandCard.tsx:27-34 | if a name lower-cases to a string with no whitespace at either end, its redirect is the URL of the first key occurring in that string |
| BrandCard.KeyResolves | src/components/BrandCard.tsx:27-34 | a name that lower-cases to one of the keys has a non-empty redirect |
| BrandCard.CrumblCookies | src/components/BrandCard.tsx:18-31 | "Crumbl Cookies" is not a key, yet it gets the URL of the key "crumbl", because it only has to contain the key |
| BrandCard.EarliestKeyWins | src/components/BrandCard.tsx:30-31 | "Target Apple" contains both "target" and "apple"; it gets the apple URL, because apple comes earlier in the table |
| Text.ToLower | src/components/BrandCard.tsx:28 | upper-case ASCII letters map to their lower-case forms; every other character is unchanged; the result is never an upper-case letter |
| Text.Lower | src/components/BrandCard.tsx:28 | lower-casing keeps the length and maps each character by `ToLower` |
| Text.LowerOf | src/components/BrandCard.tsx:28 | a string whose characters are the lower-cased characters of s is `Lower(s)` |
| Text.LowerIdempotent | src/components/BrandCard.tsx:28 | lower-casing twice is the same as lower-casing once |
| Text.LowerConcat | src/components/BrandCard.tsx:28 | lower-casing distributes over concatenation |
| Text.LowerWhitespace | src/components/BrandCard.tsx:28 | lower-casing leaves whitespace alone |
| Text.LowerLacks | src/pages/Index.tsx:99-100 | a lower-case letter is absent from a lower-cased string if neither it nor its capital was present |
| Text.TrimStart | src/components/BrandCard.tsx:28 | the result is a suffix of s; everything cut off is whitespace; the result does not start with whitespace |
| Text.TrimEnd | src/components/BrandCard.tsx:28 | the result is a prefix of s; everything cut off is whitespace; the result does not end with whitespace |
| Text.Trim | src/components/BrandCard.tsx:28 | the result begins where the leading whitespace ends; everything of s before it and after it is whitespace; when it is not empty, it starts and ends with a non-whitespace character |
| Text.TrimIsSlice | src/components/BrandCard.tsx:28 | the trimmed string is the contiguous slice of s between the cut ends |
| Text.TrimNoUpper | src/components/BrandCard.tsx:28 | trimming a string that has no capital letter leaves none |
| Text.TrimPadded | src/components/BrandCard.tsx:28 | extra whitespace on either side does not change the trimmed string |
| Text.TrimUnpadded | src/components/BrandCard.tsx:28 | a non-empty string with no whitespace at either end is its own trim |
| Text.TrimEmptyIff | src/pages/Index.tsx:95 | the trim is empty if and only if the string is all whitespace |
| Text.TrimStartPadded | src/components/BrandCard.tsx:28 | leading whitespace is dropped by the left trim |
| Text.TrimEndPadded | src/components/BrandCard.tsx:28 | trailing whitespace is dropped by the right trim |
| Text.TrimStartAppend | src/components/BrandCard.tsx:28 | whitespace appended to a string survives the left trim, unless the string is all whitespace |
| Text.Contains | src/components/BrandCard.tsx:31 | `includes`: a key that is a prefix of the string is contained, and a contained key is no longer than the string |
| Text.ContainsIff | src/components/BrandCard.tsx:31 | `Contains` holds if and only if the key occurs at some position of the string |
| Text.ContainsChars | src/components/BrandCard.tsx:31 | a string that contains k contains every character of k |
| IndexPage.BrandNames | src/pages/Index.tsx:42-92 | proof helper: the list has seven entries, and these are their names |
| IndexPage.LowerName | src/pages/Index.tsx:42-92 | proof helper: the lower-cased names of the static list, in order |
| IndexPage.StaticBrandsResolve | src/pages/Index.tsx:42-92 | every brand of the static list has a non-empty redirect in the table of `BrandCard.tsx` (lines 16-25) |
| IndexPage.ShownCardsEnabled | src/pages/Index.tsx:119-128 | for any query, every card shown has an enabled button, and a click on it navigates to its redirect |
| IndexPage.Filter | src/pages/Index.tsx:97-101 | `Array.filter`: nothing is added or duplicated (multiset inclusion); every kept element passes the predicate; every element that passes it is kept |
| IndexPage.KeptPositions | src/pages/Index.tsx:97-101 | the positions of the accepted elements, strictly increasing; a position is listed if and only if its element passes |
| IndexPage.FilterAtPositions | src/pages/Index.tsx:97-101 | the filter's result is the input picked at those increasing positions, so it is an order-preserving subsequence |
| IndexPage.FilterIdempotent | src/pages/Index.tsx:97-101 | filtering twice with the same predicate is filtering once |
| IndexPage.FilteredBrands | src/pages/Index.tsx:94-102 | a blank query returns the whole list; the result is a sub-multiset of the list; for a non-blank query, every brand returned matches (soundness) and every matching brand is returned (completeness) |
| IndexPage.IsBlank | src/pages/Index.tsx:95 | a query is blank exactly when every character of it is whitespace |
| IndexPage.Matches | src/pages/Index.tsx:98-100 | a brand matches exactly when the lower-cased query occurs at some position of its lower-cased name or of its lower-cased offer text |
| IndexPage.FilteredAtPositions | src/pages/Index.tsx:97-101 | for a non-blank query, the result is the list picked at the increasing positions of the matching brands |
| IndexPage.FilteredBrandsIdempotent | src/pages/Index.tsx:94-102 | filtering the filtered list again with the same query changes nothing |
| IndexPage.UntrimmedQuery | src/pages/Index.tsx:95-100 | for a non-blank query, a brand is shown if and only if it is in the list and the untrimmed, lower-cased query occurs in its lower-cased name or offer |
| IndexPage.NotBlank | src/pages/Index.tsx:95 | a query whose first character is not whitespace is not blank |
| IndexPage.ZaraMatches | src/pages/Index.tsx:98-100 | the Zara brand matches "zara" and does not match "zara " |
| IndexPage.PaddedQuery | src/pages/Index.tsx:95-100 | "zara" shows the Zara card; "zara " is not blank and does not show it, because the trailing space is part of the text sought |
| IndexPage.Render | src/pages/Index.tsx:119-135 | the page shows either cards, which are then the filtered list and not empty, or the "no offers" message with the query as typed, which appears only when the filtered list is empty |
| IndexPage.NoOffersIff | src/pages/Index.tsx:119-135 | the "no offers" message appears if and only if the list is empty, or the query is not blank and no brand matches it; otherwise the cards shown are exactly the filtered list |

## Left out

- JSX markup, CSS classes, icons, the logo `alt` text and layout. These are display only.
- `window.location.assign`: this browser navigation is a foreign call. `HandleClick` returns the URL it would be called with.
- React hooks (`useState`, `useMemo`, `useCallback`): the memoised functions are modelled as the plain functions they wrap. The search query is a parameter.
- Image imports and `preloadImages`: asset loading. A logo is kept as the import path string.
- `useIsMobile` and the `MobileOnlyScreen` gate: environment detection, and the gate is switched off by a constant `false`.
- `src/components/ChristmasTheme.tsx`: a visual effect driven by random floating-point numbers. It is not part of this model.
- Text.ToLower: only ASCII letters are lower-cased. Full Unicode case mapping changes other letters too and can change a string's length; it is not modelled. Every string that the static data and the table contain is unaffected by this difference.
- Strings are sequences of Unicode scalar values, not of UTF-16 code units. Code-unit positions would only differ for the emoji in the offers, and no key or query position depends on them.
- `usedToday` and `timeLeft` are carried in `Brand` but only displayed, so nothing is stated about them.
- IndexPage.FilteredBrands: the list is a parameter. The facts specific to the page's own list are `StaticBrandsResolve`, `ShownCardsEnabled` and `PaddedQuery`.
