# Facility finder page: a Dafny model

The page (`app/page.tsx`) is a single React component. It lists healthcare facilities, with a
detail screen per facility whose specialties can be filtered by category, and a small store of
medical products. This project models the logic inside the component:

- **Specialty filter** (`Specialties`). `getSpecialtyCategories` yields the filter buttons:
  `All`, then the distinct specialty categories in the order a JavaScript `Set` enumerates them,
  i.e. first occurrence. `getFilteredSpecialties` yields the specialties a filter value selects.
- **Ranking after the location lookup** (`Ranking`). On success every catalog facility gets its
  distance from the user. The list is then sorted by `distance || 0` with a stable sort, as
  ECMAScript requires of `Array.prototype.sort`. The sort works in place on a fresh array. It is
  specified as a stable sorted permutation, with a ghost index map saying where each element came
  from. The distance formula is a parameter `dist: (Coordinate, Coordinate) -> real`.
- **Page state and handlers** (`HomePage.PageState`). The state is `userLocation`, `hospitals`,
  `loading`, `permissionDenied`, `activeTab`, `selectedHospital`, `selectedProduct` and
  `specialtyFilter`. There is one method per event handler, and `Render` picks the rendered screen
  in the component's fixed order. `Valid()` is the invariant every reachable state keeps:
  - at most one detail screen is open, and it belongs to the tab it was opened from;
  - the filter is one of the open facility's buttons;
  - the lookup resolves once.
- **Display rules** (`Display`): the first three service tags and the `+n more` tag; the Out of
  Stock, Sale and Save badges.

Handlers that are reachable only from one screen require that screen. The facility card exists
only on the home screen and the product card only on the store screen. The category buttons,
"Back to List" and the facility screen's own Home/Store/Profile buttons (`HospitalScreenNav`)
exist only on the facility screen. "Back to Store" and the product screen's own navigation
buttons (`ProductScreenNav`) exist only on the product screen. The buttons that only set the tab
(`SelectTab`) exist only when no detail screen is open. The geolocation
callbacks require `loading`, because the lookup is issued once on mount and answers once.

The category buttons keep first-seen order, because a JavaScript `Set` enumerates values in
insertion order (app/page.tsx:375-376). `calculateDistance` does not clamp the haversine term
(app/page.tsx:72-77), and `|| 0` in the comparator maps a NaN distance to 0 (app/page.tsx:349), so
such a facility would sort as if at the user's position. The model takes the distance as an opaque
real.

## Model

| member | source | states |
|---|---|---|
| `Specialties.Distinct` | app/page.tsx:375 | the values of the `Set` have no duplicates and are exactly the values of the list |
| `Specialties.DistinctFirstSeenOrder` | app/page.tsx:375 | the `Set` enumerates values in the order of their first occurrence in the list |
| `Specialties.SpecialtyCategories` | app/page.tsx:374-377 | `All` comes first; after it each category of the facility's specialties appears exactly once, and nothing else does |
| `Specialties.CategoriesFirstSeenOrder` | app/page.tsx:374-377 | the buttons after `All` stand in the order their categories first occur among the specialties, the tag list `CategoryTags` of line 375 (`specialties.map(s => s.category)`) |
| `Specialties.SpecialtiesIn` | app/page.tsx:384 | the `.filter` result is an ordered subsequence of the specialties; all of its entries have the category; every matching specialty is in it as often as in the list; it is empty exactly when nothing matches |
| `Specialties.FilteredSpecialties` | app/page.tsx:380-385 | `All` returns the list unchanged; any other value returns exactly the matching specialties in order, and the result is empty only when none match |
| `Specialties.ButtonsNeverSelectNothing` | app/page.tsx:484-534 | a filter button of the facility selects nothing only when the facility has no specialties at all |
| `SpecialtiesExample.SampleButtons` | app/page.tsx:374-377 | categories Cardiology, Cardiology, Emergency give the buttons All, Cardiology, Emergency |
| `SpecialtiesExample.SampleCardiology` | app/page.tsx:384 | the Cardiology filter returns both cardiology records in list order |
| `SpecialtiesExample.SampleNoMatch` | app/page.tsx:384 | a value matching no category returns the empty list, not an error |
| `Ranking.WithDistance` | app/page.tsx:341-348 | the spread copy has the distance set and every other field equal to the catalog record |
| `Ranking.StableSortByKey` | app/page.tsx:349 | the in-place sort leaves a stable sort of the old contents: a permutation, keys nondecreasing, elements with equal keys in their original order; the key is `SortKey`, the comparator's `distance \|\| 0` |
| `Ranking.RankByDistance` | app/page.tsx:341-349 | the ranked list is a stable nearest-first sort of the annotated catalog (`Annotated`, the `.map` spread of lines 341-348); each entry is a catalog record with only its distance added, and its key is its distance from the user |
| `Ranking.StableSortOfSortedIsIdentity` | app/page.tsx:349 | a list already in key order comes out of the stable sort unchanged |
| `Ranking.RankedHeadIsNearest` | app/page.tsx:341-351 | the first facility of the ranking is at most as far from the user as any catalog facility |
| `Ranking.TwoFacilitiesNearerFirst` | app/page.tsx:341-349 | facilities at 0 km and 1.47 km, in that order, are ranked in that order with the distances attached |
| `Ranking.EqualDistancesKeepCatalogOrder` | app/page.tsx:349 | when all facilities are equally far, the ranking is the catalog order |
| `Display.ShownServices` | app/page.tsx:991 | the card shows the first `min(3, n)` service tags, a prefix of the list |
| `Display.MoreServicesTag` | app/page.tsx:999-1003 | the `+n more` tag appears exactly when tags are left out, and `n` plus the shown tags is the number of services |
| `Display.ShowsSale` | app/page.tsx:1091 | the store card shows Sale exactly when the product's screen shows a Save badge and no Out of Stock badge (`ShowsOutOfStock`, lines 608 and 1086); its body is `HasOriginalPrice` and `inStock` |
| `Display.SaveAmount` | app/page.tsx:613-615 | the Save badge shows exactly when the original price is truthy (`HasOriginalPrice`, the `originalPrice &&` test of lines 613, 641, 1091 and 1116: present and not zero), and price plus the amount is the original price |
| `Display.SaleImpliesSave` | app/page.tsx:1091 | a card with the Sale badge opens a product screen whose Save badge shows `originalPrice - price` |
| `HomePage.PageState.constructor` | app/page.tsx:58-65 | the first render is locating, with an empty list, the home tab, nothing selected and filter `All` |
| `HomePage.PageState.Render` | app/page.tsx:388-1175 | the screen is the facility detail if a facility is selected, else the product detail if a product is, else the screen of the active tab; the facility screen shows the filtered specialties and the buttons, and the "no specialties" state exactly when the filtered list is empty; the product screen shows the selected product; the home screen shows the list with the locating and denied notices, and it is headed "Nearby Facilities, sorted by distance" exactly when a position is known (lines 904-911) |
| `HomePage.PageState.LocationFound` | app/page.tsx:333-353 | on success the position is stored, the list becomes a stable nearest-first ranking of the catalog with every distance attached, and loading ends; navigation is unchanged |
| `HomePage.PageState.LocationUnavailable` | app/page.tsx:354-365 | on error or without geolocation the list is the catalog in its order with no distances, the denied notice is set, loading ends and no position is stored |
| `HomePage.PageState.HospitalClick` | app/page.tsx:368-371 | the facility is selected and the filter reset to `All`, nothing else changes, and its screen lists all its specialties |
| `HomePage.PageState.SelectSpecialtyFilter` | app/page.tsx:488 | the filter becomes the clicked category and the screen lists what it selects |
| `HomePage.PageState.BackToList` | app/page.tsx:397-405 | on the facility screen, only the facility selection is cleared, which returns to the home list |
| `HomePage.PageState.HospitalScreenNav` | app/page.tsx:541-561 | the facility selection is cleared and the tab set, showing that tab's screen |
| `HomePage.PageState.BackToStore` | app/page.tsx:582-590 | on the product screen, only the product selection is cleared, which returns to the store |
| `HomePage.PageState.ProductScreenNav` | app/page.tsx:692-712 | Home and Profile clear the product and set the tab; Store clears the product and keeps the tab |
| `HomePage.PageState.SelectTab` | app/page.tsx:1024-1044 | a tab button sets only the tab and shows its screen (likewise at lines 739, 1140-1160 and 1244-1264) |
| `HomePage.PageState.SelectProduct` | app/page.tsx:1076 | a store card (or its View Details button, line 1125) opens that product's screen |
| `HomePage.NoResultsOnlyWithoutSpecialties` | app/page.tsx:529-534 | in every reachable state the "no specialties found" message shows only for a facility without specialties |

## Left out

- `calculateDistance` (app/page.tsx:68-78): floating-point trigonometry. The distance is a parameter of the ranking, applied to the user's and the facility's coordinates.
- NaN distances (keyed as 0 by `|| 0`): the model's distances are reals, so this case cannot arise.
- The browser geolocation API and React's effect scheduling: the two outcomes are the methods `LocationFound` and `LocationUnavailable`. The error value logged by `console.error` (I/O) is not modelled.
- The sort algorithm of the JavaScript engine: `StableSortByKey` is an insertion sort with the same contract (stable, ascending by the comparator's key).
- JSX markup, styling, images, `toFixed(1)` formatting and the "Doctor"/"Doctors" label: presentation only. The home screen's cards are represented by the hospital list they are drawn from.
- The static facility and product catalogs (app/page.tsx:81-174, 177-327): data. A few specialty records serve as test data.
- Prices are exact reals, so `originalPrice - price` has no rounding. A zero `originalPrice` hides the Sale and Save badges and the struck-through price, as its falsiness does. React would then print a literal `0` where each of those stands, on the store card (app/page.tsx:1091, 1116) and on the product screen (app/page.tsx:613, 641). That stray text is not modelled. No catalog product has a zero `originalPrice`.
