# Fee quote of the "Empowering the Nation" course app

The app lists seven skills-training courses and offers a "Calculate Fees"
screen. On that screen the user taps courses to select or deselect them and
then asks for a quote. The quote adds up the selected courses' fees, takes
off a discount that depends on how many courses are selected, and adds 15%
VAT on the discounted amount.

This project models that logic in Dafny:

- `catalog.dfy` (module `Catalog`): the `Course` record, the constant
  seven-course catalog, and lookup by id. Lookup returns the first course with
  that id, as `Array.prototype.find` does, or `None`.
- `selection.dfy` (module `Selection`): the selection as a list of ids and the
  toggle that a tap performs. A present id is filtered out (every occurrence).
  An absent id is appended at the end. `Run` replays a whole sequence of taps
  starting from the empty list the screen starts with.
- `fees.dfy` (module `Fees`): the subtotal (a left fold over the selection
  in which ids that resolve to no course add 0), the discount tier chosen by
  the selection's length, and the VAT-inclusive total.

Amounts are exact rationals (`real`), so the discount factors are exactly
95/100, 90/100 and 85/100 and the VAT factor is exactly 115/100. The screen's
state lives in React hooks; here it is an explicit input and output of pure
functions.

Two modelling choices follow the code closely:

- A selection behaves like a set of courses, but the code keeps a list
  (App.tsx:109, 115-121) and reads the discount tier from the list's length
  (App.tsx:130-133). The model keeps the list. `Selection.Run` proves that
  every list reachable from the empty one by taps is duplicate-free, and
  `Selection.NoDupCard` proves that on such a list the length equals the
  number of distinct ids. `Fees.QuoteAfterTaps` restates the quote of a
  reachable list in terms of its distinct ids.
- Every id the screen can add comes from the catalog (App.tsx:165-172), yet
  the quote tolerates ids that resolve to nothing: they add 0 to the
  subtotal but still count towards the discount tier (App.tsx:126,
  130-133). The model keeps that behaviour (`Fees.UnknownIdAddsNothing`,
  `Fees.UnknownIdStillCountsForTier`).

## Model

| member | source | states |
|---|---|---|
| `Catalog.Find` | App.tsx:125 | the lookup returns nothing exactly when no course has the id; otherwise it returns a catalog course with that id |
| `Catalog.FindFirstMatch` | App.tsx:125 | the lookup returns the earliest course with the id, whatever comes after it |
| `Catalog.FindResolvesUniquely` | App.tsx:125 | in a catalog with unique ids, every catalog id resolves to exactly its own course |
| `Catalog.CatalogShape` | App.tsx:23-31 | the shipped catalog has seven courses with ids 1 to 7 in order; ids are unique; fees are 1500 for the first four and 750 for the last three, so none is negative |
| `Selection.Remove` | App.tsx:118 | filtering out an id removes every occurrence of it; every other id keeps its membership and its number of occurrences |
| `Selection.RemoveKeepsOrder` | App.tsx:118 | after filtering, the remaining ids keep their original relative order |
| `Selection.RemoveAbsent` | App.tsx:118 | filtering out an id that is not in the list returns the list unchanged |
| `Selection.RemoveNoDup` | App.tsx:118 | filtering a duplicate-free list keeps it duplicate-free and, when the id was present, shortens it by exactly one |
| `Selection.Toggle` | App.tsx:115-121 | the tapped id's membership flips and no other id's membership changes; an absent id is appended after the unchanged old list (length + 1); a present id is removed everywhere and the rest keep their order; duplicate-freedom is preserved |
| `Selection.ToggleTwice` | App.tsx:116-120 | tapping the same id twice restores the set of selected ids; if the id was absent, the list itself comes back; if it was present, it comes back at the end |
| `Selection.Run` | App.tsx:109-121 | any sequence of taps starting from the empty selection leaves a duplicate-free list |
| `Selection.NoDupCard` | App.tsx:130-133 | on a duplicate-free list, such as every list the taps can produce, the length that picks the discount tier equals the number of distinct selected ids |
| `Selection.RunParity` | App.tsx:109-121 | after a sequence of taps from the empty selection, an id is selected exactly when it was tapped an odd number of times |
| `Fees.FeeOf` | App.tsx:125-126 | an id that matches no course contributes 0; with unique catalog ids, a matching id contributes that course's fee; contributions are non-negative when fees are |
| `Fees.Subtotal` | App.tsx:124-128 | the subtotal is non-negative whenever every catalog fee is |
| `Fees.SubtotalAppend` | App.tsx:124-128 | the subtotal of two lists joined end to end is the sum of their subtotals |
| `Fees.SubtotalOrderFree` | App.tsx:124-128 | swapping two runs of picks does not change the subtotal |
| `Fees.SubtotalIsCatalogSum` | App.tsx:124-128 | for a duplicate-free selection over a catalog with unique ids, the subtotal equals the sum of the fees of exactly those catalog courses whose id is selected |
| `Fees.UnknownIdAddsNothing` | App.tsx:125-126 | appending an id that matches no course leaves the subtotal unchanged and causes no failure |
| `Fees.DiscountRate` | App.tsx:130-133 | the discount rate is always between 0 and 0.15 |
| `Fees.DiscountRateClosedForm` | App.tsx:130-133 | the rate is 0 for 0 or 1 courses, 0.05 for 2, 0.10 for 3 and 0.15 for any larger count |
| `Fees.DiscountRateMonotone` | App.tsx:130-133 | a longer selection never gets a smaller discount, and from four courses on the rate stays the same |
| `Fees.Quote` | App.tsx:135-136 | for a non-negative subtotal, the quote lies between subtotal × 0.85 × 1.15 and subtotal × 1.15, so it is non-negative; a zero subtotal gives 0 |
| `Fees.Total` | App.tsx:123-136 | an empty selection is quoted 0; the total lies between subtotal × 0.85 × 1.15 and subtotal × 1.15; it is non-negative whenever every catalog fee is |
| `Fees.TotalByTier` | App.tsx:130-136 | the total is subtotal × 1.15 for 0 or 1 entries, × 0.95 × 1.15 for 2, × 0.90 × 1.15 for 3 and × 0.85 × 1.15 for 4 or more: VAT is charged on the discounted amount |
| `Fees.UnknownIdStillCountsForTier` | App.tsx:124-133 | an unresolved id adds nothing to the subtotal but still counts towards the length that picks the discount tier |
| `Fees.QuoteAfterTaps` | App.tsx:115-136 | after any taps from the empty selection, the list's length equals its number of distinct ids, and the total is the sum of the fees of the selected catalog courses, discounted by the tier for the number of distinct selected ids, plus VAT |
| `Fees.FeeOfCatalog` | App.tsx:24-30 | looking up id 1 to 4 in the shipped catalog yields 1500 and id 5 to 7 yields 750 |
| `Fees.SubtotalFirstAidAndChildMinding` | App.tsx:124-128 | First Aid and Child Minding together cost 2250 before discount and VAT |
| `Fees.QuoteFirstAidAndChildMinding` | App.tsx:123-136 | First Aid and Child Minding are quoted 2458.125 (2250 less 5%, plus 15% VAT) |
| `Fees.SubtotalFullSelection` | App.tsx:124-128 | any duplicate-free selection that contains all seven course ids costs 8250 before discount and VAT |
| `Fees.QuoteFullSelection` | App.tsx:123-136 | any duplicate-free selection that contains all seven course ids is quoted 8064.375 (8250 less 15%, plus VAT), in any order and with or without unknown ids |
| `Fees.QuoteAllCourses` | App.tsx:123-136 | selecting the seven courses in catalog order is quoted 8064.375 |

## Left out

- Screen rendering, the stack navigator and routing between the five screens (App.tsx:33-106, 142-211): presentation with no rule structure.
- The `Alert.alert` pop-up and the `toFixed(2)` formatting of the total (App.tsx:139): a platform side effect and a float-to-string conversion. The model keeps the exact total; 2458.125 and 8064.375 above are exact values, not displayed strings.
- `useState` / `setSelectedCourses` / `setTotalFee` mechanics (App.tsx:109-113, 116, 138): state is passed in and returned explicitly instead.
- The name, phone and email inputs (App.tsx:110-112, 145-164): never validated and never used by the quote.
- The `styles` blocks (App.tsx:213-314): presentation only.
- JavaScript floating point: fees, rates and totals are exact rationals, so the rounding of `1 - 0.05` or `× 1.15` in IEEE doubles is not modelled. For all seven courses the exact total is 8064.375, while the double-precision product 8250 × (1 − 0.15) × 1.15 comes out just below it, so the app's two-decimal display would read R8064.37 rather than R8064.38. Course ids are unbounded integers rather than JavaScript numbers.
- Fees.Total: the two-sided bound `subtotal × 0.85 × 1.15 <= total <= subtotal × 1.15` is stated only for a non-negative subtotal, because with a negative subtotal the inequalities reverse; the shipped catalog has only positive fees.
- Fees.SubtotalIsCatalogSum: stated for duplicate-free selections, the only ones the screen can reach. For lists with repeats, `Fees.SubtotalAppend` still describes the fold.
