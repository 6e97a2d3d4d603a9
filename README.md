# Pokedex catalog list page — a Dafny model

This project models the catalog list page of a small Pokedex web application
(`src/app/page.tsx`). The page keeps six pieces of state:

- the loaded records (`pokemons`);
- the pagination cursor (`offset`) and the page size (`limit`, fixed at 50);
- a `loading` flag;
- the search text and the selected type.

It fetches one window of records whenever the cursor changes and appends each array
response to what it already has. When the viewport nears the bottom and no request is in
flight, it moves the cursor one page further. It shows only the records whose name contains
the search text, ignoring case, and, when a type is selected, whose type list contains that type.

Files:

- `text.dfy` (module `Text`): ASCII `toLowerCase` and `String.prototype.includes`. `includes` is
  proved equal to "the needle occurs at some position".
- `pokemon_filter.dfy` (module `PokemonFilter`): the `Pokemon` record, the name and type tests, and
  the filter. The lemmas say:
  - the filter picks an order-preserving subsequence made of exactly the passing positions;
  - it splits over concatenation;
  - it is idempotent;
  - it keeps everything when both criteria are empty;
  - the search ignores case, and the type test does not.
- `list_page.dfy` (module `ListPage`): the page state as a class.
  - `BeginFetch` and `CompleteFetch` are the two halves of `fetchPokemons`; `FetchPokemons` is both
    together.
  - `OnScroll` is the scroll handler.
  - `ScrollThenFetch` is a scroll event followed by the fetch that the cursor change triggers.
  - The class invariant `Valid()` says the page size stays 50 and the cursor is a non-negative
    multiple of it.

The initial fetch on mount is the constructor followed by `FetchPokemons`. At that point the
cursor is 0.

The type test is an exact, case-sensitive match of the selected type against the record's
type list (`src/app/page.tsx:62`). `PokemonFilter.TypeTestIsCaseSensitive` proves that a type
name in the list selects the record while its lower-cased form, when not in the list, does not;
`PokemonFilter.FireIsNotFire` is the instance "fire" against a record of type "Fire".

## Model

| member | source | states |
|---|---|---|
| `Text.ToLower` | src/app/page.tsx:61 | lower-casing keeps the length and lower-cases each character in place (an ASCII capital maps to the matching lower-case letter, 32 code points up; other characters are kept) |
| `Text.LowerChar` | src/app/page.tsx:61 | the result is never an ASCII capital; it is the character itself, or the capital moved 32 code points up to its lower-case letter |
| `Text.Includes` | src/app/page.tsx:61 | a needle that starts the haystack is found, and a needle longer than the haystack never is (the full meaning is `Text.IncludesIffOccurs`) |
| `Text.ToLowerIdempotent` | src/app/page.tsx:61 | lower-casing an already lower-cased string changes nothing |
| `Text.IncludesIffOccurs` | src/app/page.tsx:61 | `includes` is true exactly when the needle occurs as a contiguous slice at some position of the haystack (both directions) |
| `Text.IncludesEmptyNeedle` | src/app/page.tsx:61 | every string includes the empty string, so an empty search passes every name |
| `PokemonFilter.MatchesName` | src/app/page.tsx:61 | the name test holds iff the lower-cased search text occurs at some position of the lower-cased name (both directions) |
| `PokemonFilter.Keep` | src/app/page.tsx:61-63 | a record is kept iff the lower-cased search occurs in its lower-cased name and it passes the type test `MatchesType`, which is: the selected type is empty, or it is exactly (case-sensitively) an entry of `types` (page.tsx:62). Both directions; with empty search and no type every record is kept |
| `PokemonFilter.Filter` | src/app/page.tsx:60-64 | the shown list is no longer than the loaded list; a record is in it iff it is loaded, its lower-cased name contains the lower-cased search, and the selected type is empty or among its types |
| `PokemonFilter.FilterSelectsKeptPositions` | src/app/page.tsx:60-64 | the shown list is a subsequence of the loaded list in the original order, and the positions it picks are exactly the positions of passing records |
| `PokemonFilter.FilterAppend` | src/app/page.tsx:60-64 | filtering a concatenation is the concatenation of the filtered parts |
| `PokemonFilter.FilterKeepsAllPassing` | src/app/page.tsx:60-64 | a list whose every record passes comes back unchanged |
| `PokemonFilter.EmptyCriteriaShowEverything` | src/app/page.tsx:61-62 | with empty search and no selected type the shown list equals the loaded list |
| `PokemonFilter.FilterIdempotent` | src/app/page.tsx:60-64 | filtering the shown list again with the same criteria returns it unchanged |
| `PokemonFilter.SearchIgnoresCase` | src/app/page.tsx:61 | the name test gives the same answer for the search text and its lower-cased form |
| `PokemonFilter.CharFindsCharmander` | src/app/page.tsx:61 | both "char" and "CHAR" find a record named "Charmander" |
| `PokemonFilter.TypeTestIsCaseSensitive` | src/app/page.tsx:62 | for every record and selected type: a type in the record's list whose lower-cased form is not in the list selects the record, and the lower-cased form does not |
| `PokemonFilter.FireIsNotFire` | src/app/page.tsx:62 | "Fire" selects a record of types ["Fire"], and "fire" does not |
| `ListPage.Merge` | src/app/page.tsx:32-36 | on an array response the old list is a prefix of the new one, the rest is exactly the response, and the length grows by its size; on any other response the list is unchanged |
| `ListPage.PokemonListPage.Filtered` | src/app/page.tsx:60-64 | the shown list is no longer than the loaded one, holds exactly the loaded records that pass the filter, and is the whole loaded list when search and type are empty |
| `ListPage.PokemonListPage.constructor` | src/app/page.tsx:15-20 | the page starts with no records, cursor 0, page size 50, not loading, empty search and no type, and satisfies the invariant |
| `ListPage.PokemonListPage.BeginFetch` | src/app/page.tsx:25-27 | loading is true once a fetch begins, and the request asks for the current cursor and page size; nothing else changes; the invariant is kept |
| `ListPage.PokemonListPage.CompleteFetch` | src/app/page.tsx:32-41 | loading is false afterwards whatever the outcome. An array response is appended; a malformed or failed one leaves the records unchanged. The shown list grows by exactly the filtered response. The invariant is kept |
| `ListPage.PokemonListPage.FetchPokemons` | src/app/page.tsx:24-42 | a whole fetch requests the current window, applies the outcome as above and ends not loading; the invariant is kept |
| `ListPage.PokemonListPage.OnScroll` | src/app/page.tsx:50-53 | the cursor advances by one page iff `NearBottom` (the comparison at page.tsx:51: viewport height plus scroll position at least the document height minus 500) holds and nothing is loading; otherwise nothing changes. The cursor never decreases and stays a non-negative multiple of the page size 50 |
| `ListPage.PokemonListPage.ScrollThenFetch` | src/app/page.tsx:44-53 | a request is issued iff the scroll was near the bottom while not loading. Then the cursor becomes the old cursor plus 50, the request asks for that window with limit 50, and its outcome is applied. Otherwise records, cursor and flag are unchanged. The invariant is kept |
| `ListPage.PokemonListPage.SetSearch` | src/app/page.tsx:74 | the search box replaces the search text and nothing else; the invariant is kept |
| `ListPage.PokemonListPage.SetTypeFilter` | src/app/page.tsx:77 | the type selector replaces the selected type and nothing else; the invariant is kept |

## Left out

- The network call, JSON decoding and the remote API (`src/app/page.tsx:27-28`) are foreign I/O. A
  request's outcome is the `Response` parameter: an array of records, a non-array payload, or a
  thrown error. An array whose elements are not well-formed records is not modelled.
- The model follows the list page's own record type, where `types` is a list of type-name strings
  (`src/app/page.tsx:11`). The detail page declares `types` as objects with a `name` and an
  `image` (`src/app/pokedex/[id]/page.tsx:23`) and keys its colours by French names such as
  "Feu" and "Eau" (lines 29-42). If listing records carried those objects, no entry would equal a
  selected string such as "Fire" (`src/app/page.tsx:62`, options at lines 79-82), and choosing any
  type would leave the list empty. That payload shape is not modelled.
- Console logging (`src/app/page.tsx:29, 35, 38`) has no observable state.
- Rendering, JSX, styling, the React key string and `router.push` navigation
  (`src/app/page.tsx:66-112`) are presentation and framework calls.
- The fixed options of the type dropdown (`src/app/page.tsx:78-82`) are static UI data. Any string
  may be selected in the model.
- Registering and removing the scroll listener (`src/app/page.tsx:56-57`) is browser event plumbing.
- Scroll positions are integers. Fractional pixel values of `window.scrollY` are not modelled.
- `ScrollThenFetch` runs each fetch to completion before the next scroll event, so the model
  does not capture stale scroll handlers or overlapping fetches (`src/app/page.tsx:44-58`). The
  scroll handler reads the `loading` value of the render in which it was registered. When several
  scroll events arrive before the re-render that raises `loading`, each still sees `loading`
  false and advances the cursor, so the cursor can jump by 100 or more and fetches can overlap,
  with responses appended in whatever order they resolve. If two such cursor updates land in
  the same render, the effect that watches the cursor (`src/app/page.tsx:44-46`) runs once, for
  the final cursor only, and the window between the old and the final cursor is never requested.
  Concurrency and React's closure
  semantics are outside this sequential model.
- Lower-casing is ASCII only. Full Unicode `toLowerCase` is not modelled.
- A record whose `types` is missing is not modelled. The record type declares `types` as a
  required array.
- `src/app/404.tsx` and the detail page `src/app/pokedex/[id]/page.tsx` are not part of this model.
  The first is a static page; the second is a separate view.
