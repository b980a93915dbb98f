# MemStorage in Dafny

This project models `MemStorage`, the in-memory store behind the template marketplace. It holds four collections:

- **users:** registration with a case-insensitive duplicate check.
- **templates:** the catalog. Create, partial update, delete, filtered and sorted listing, and lookup by id or by slug.
- **carts:** created lazily. They support add with merge, set quantity or remove a line, remove, clear, and a recomputed subtotal.
- **orders:** checkout of a non-empty cart into a paid order, the newest-first order list, and the admin statistics.

The store is the class `Storage.MemStorage` (`storage.dfy`). It is specified by pure functions in the other modules:

| module | file | content |
|---|---|---|
| `Common` | `common.dfy` | `Option`, `Result` and the store's error messages |
| `Schema` | `schema.dfy` | the records and enumerations of the shared schema |
| `Text` | `text.dfy` | ASCII `toLowerCase`, `trim`, `includes`, code-point order and decimal rendering |
| `Sorting` | `sorting.dfy` | the comparator sort, as insertion sort over a total preorder |
| `Slug` | `slug.dfy` | `slugify`, checked against the words of the title joined by hyphens, and the numbered candidates tried by `ensureUniqueSlug` |
| `Catalog` | `catalog.dfy` | price and status normalisation, list sanitising, the record built by create and by update, filters and sort orders |
| `CartLines` | `cartlines.dfy` | cart line merge, removal and subtotal |
| `Orders` | `orders.dfy` | revenue, newest-first order and the statistics projection |

Modelling choices:

- **Money:** all amounts are integer cents, so `Math.round(x * 100) / 100` is exact. A price as the store receives it is an exact decimal `num / den` or not-a-number.
- **Insertion order:** a JavaScript `Map` iterates in insertion order. That order decides which user `find` returns and the tie order of every stable sort. So the class keeps the key order of users, templates and orders beside each map (`userIds`, `templateIds`, `orderIds`). `Valid()` states that each key order lists its map's keys exactly once.
- **Invariants:** `Valid()` also states these invariants:
  - each record is filed under its own id;
  - user names are unique ignoring case;
  - template slugs are pairwise distinct;
  - every cart's subtotal is the sum of its lines;
  - no two lines of a cart share a template or a line id;
  - every order is a paid, non-empty snapshot whose total is the sum of its lines.

  Every method that changes the store keeps `Valid()` and states its whole new state.
- **Ids and timestamps:** fresh ids (`randomUUID`) and timestamps (`new Date().toISOString()`) are parameters. Freshness is a precondition: the new id is not yet a key.
- **Carts:** a cart is a value in `carts`. The source mutates the cart object that the map holds, and the model reassigns the map entry instead. Templates, carts and orders leave the store only as clones, so for them nothing observable is lost. Users are the exception: `getUser` and `getUserByUsername` return the stored object itself (see "Left out").
- **`getCartRecord`:** it runs before the error checks of `addCartItem`, `updateCartItem` and `createOrderFromCart`. So a failing call still files an empty cart under an unknown id, and the model does the same (`WithCart`).

## Model

| member | source | states |
|---|---|---|
| Schema.ParseStatus | shared/schema.ts:65-71 | a string parses to a template status exactly when it is that status's name |
| Text.Lower | server/storage.ts:95-98 | lower-casing keeps the length |
| Text.LowerChars | server/storage.ts:95-98 | after lower-casing no ASCII capital is left; each character is kept or is a capital mapped to its small letter |
| Text.LowerIdempotent | server/storage.ts:310-317 | lower-casing twice is lower-casing once |
| Text.Trim | server/storage.ts:379-381 | the result has no white space at either end, is empty exactly when the input is all white space, and is the input with only leading and trailing white space removed |
| Text.TrimIdempotent | server/storage.ts:379-381 | trimming a trimmed string changes nothing |
| Text.Includes | server/storage.ts:319 | `includes` holds exactly when the query occurs at some index |
| Text.StrLeTotal | server/storage.ts:345-349 | the string order behind `localeCompare` (code-point order) is total |
| Text.StrLeTransitive | server/storage.ts:345-349 | that order is transitive |
| Text.StrLeAntisymmetric | server/storage.ts:345-349 | that order is antisymmetric |
| Text.ParseShowNat | server/storage.ts:406 | reading back the printed counter gives the counter |
| Text.ShowNatInjective | server/storage.ts:406 | distinct counters print differently |
| Sorting.Insert | server/storage.ts:337-349 | inserting into a sorted sequence gives a sorted permutation with one more element |
| Sorting.SortBy | server/storage.ts:332-353 | the sort yields a permutation of its input, sorted by the comparator |
| Slug.DashRuns | server/storage.ts:388 | replacing runs of other characters by one hyphen leaves only `[a-z0-9-]` and never lengthens |
| Slug.DashRunsAlnumPrefix | server/storage.ts:388 | letters and digits pass through unchanged |
| Slug.DashRunsSeparator | server/storage.ts:388 | a maximal run of other characters, before a letter, a digit or the end, becomes exactly one hyphen |
| Slug.DashRunsKeepsAlnums | server/storage.ts:388 | that replacement keeps the letters and digits in order |
| Slug.TrimHyphens | server/storage.ts:389 | the hyphens at both ends are removed, and only those: the result is an infix of the input with nothing but hyphens around it |
| Slug.TrimHyphensKeepsAlnums | server/storage.ts:389 | trimming hyphens keeps the letters and digits |
| Slug.CollapseHyphens | server/storage.ts:390 | collapsing leaves no two adjacent hyphens and keeps the first and last character |
| Slug.CollapseKeepsAlnums | server/storage.ts:390 | collapsing removes hyphens only |
| Slug.CollapseKeepsSingleHyphens | server/storage.ts:390 | a string without a hyphen run is left as it is |
| Slug.CollapseNoHyphenPrefix | server/storage.ts:390 | characters other than hyphens pass through unchanged |
| Slug.CollapseHyphenRun | server/storage.ts:390 | a whole run of hyphens, however long, becomes exactly one hyphen |
| Slug.SlugBody | server/storage.ts:384-390 | the slug before the cap: slug characters only, no double hyphen, no hyphen at either end |
| Slug.Words | server/storage.ts:388 | the reference for the slug: the maximal runs of letters and digits, in order, each non-empty |
| Slug.DashRunsJoinsWords | server/storage.ts:388-389 | from the first letter or digit on, the hyphenated string without its trailing hyphen is the words joined by single hyphens |
| Slug.SlugBodyJoinsWords | server/storage.ts:384-390 | the slug body is exactly the words of the lower-cased value joined by single hyphens |
| Slug.Slugify | server/storage.ts:384-393 | the slug is non-empty, at most 80 characters of `[a-z0-9-]`, does not start with a hyphen, has no `--`, and ends with a hyphen only when cut at 80 |
| Slug.SlugifyJoinsWords | server/storage.ts:384-393 | the slug is the words of the lower-cased value joined by single hyphens, cut at 80 characters, or "template" when there is no word |
| Slug.SlugifyKeepsAlnums | server/storage.ts:384-393 | without letters or digits the slug is "template"; otherwise its letters and digits are a prefix of the input's, and all of them when the input fits 80 characters |
| Slug.SlugifyKeepsCleanSlug | server/storage.ts:384-393 | a well-formed slug is a fixed point of `slugify` |
| Slug.SlugifyDemoSite | server/storage.ts:384-393 | "Demo Site" becomes "demo-site" |
| Slug.Candidate | server/storage.ts:404-407 | the slugs tried in turn: the base, then the base followed by a hyphen and the counter 1, 2, ... |
| Slug.CandidateInjective | server/storage.ts:404-407 | different counters give different candidates |
| Slug.TriedStep | server/storage.ts:404-407 | each loop turn removes one taken slug from the untried ones, so the loop terminates |
| Slug.FirstFreeUnique | server/storage.ts:395-410 | at most one slug is the first free candidate |
| Slug.FirstFreeIsBaseWhenFree | server/storage.ts:395-410 | the base itself is chosen exactly when nobody else holds it |
| Slug.SecondDemoSiteSlug | server/storage.ts:395-410 | with "demo-site" taken, the slug chosen is "demo-site-1" |
| Catalog.NormalizePrice | server/storage.ts:356-363 | not-a-number and negative prices give 0; otherwise the result is the price in cents rounded half up |
| Catalog.NormalizePriceKeepsCents | server/storage.ts:356-363 | a price already in whole cents is kept |
| Catalog.NormalizePriceIdempotent | server/storage.ts:356-363 | normalising a normalised price changes nothing |
| Catalog.NormalizePriceRoundsHalfUp | server/storage.ts:356-363 | 49.995 is stored as 50.00 |
| Catalog.NormalizeTemplateStatus | server/storage.ts:365-372 | a valid status name gives that status; anything else, absence included, gives draft |
| Catalog.TrimNonEmpty | server/storage.ts:379-381 | every kept entry is trimmed and non-empty, and there are no more entries than before |
| Catalog.TrimNonEmptyMembers | server/storage.ts:374-382 | the kept entries are exactly the non-empty trimmed inputs |
| Catalog.TrimNonEmptySingle | server/storage.ts:379-381 | one entry is kept trimmed, or dropped when it is only white space |
| Catalog.TrimNonEmptyConcat | server/storage.ts:379-381 | sanitising works entry by entry: the kept entries stay in order, repeated entries stay repeated |
| Catalog.SanitizeStringArray | server/storage.ts:374-382 | a missing list gives an empty list, and a given one its trimmed non-empty entries |
| Catalog.TrimNonEmptyIdempotent | server/storage.ts:374-382 | sanitising a sanitised list changes nothing |
| Catalog.NewTemplate | server/storage.ts:179-209 | the created record: the id, slug and times given; the price normalised and non-negative; the status normalised, draft when none is given; tags and features sanitised; the hero is the given one, else the first gallery image, else the default; the gallery is the sanitised one, or the hero alone when that is empty |
| Catalog.UpdatedHero | server/storage.ts:251-259 | the new hero is never empty: a given non-empty hero; the default for a given empty one; otherwise the first image of the new sanitised gallery, else of the kept gallery, else the old hero, with the default for an empty choice |
| Catalog.MergeFields | server/storage.ts:220-245 | id, slug, creation time and images are kept, the modification time is refreshed, and a supplied title replaces the old one |
| Catalog.MergeFieldsTakesSupplied | server/storage.ts:220-245 | each supplied field replaces the old one after the same normalisation as at creation: the price normalised, the status checked, tags and features trimmed with empties dropped |
| Catalog.MergeFieldsKeepsAbsent | server/storage.ts:220-245 | each absent field keeps its old value |
| Catalog.MergeTemplate | server/storage.ts:220-263 | the merge touches the images only when a hero or a gallery is supplied; then the hero is `UpdatedHero`, a given non-empty sanitised gallery is used, and an empty gallery becomes the hero alone |
| Catalog.MergeEmptyUpdate | server/storage.ts:211-272 | an update that supplies nothing only refreshes the modification time |
| Catalog.SearchIgnoresQueryCase | server/storage.ts:310-323 | the search does not depend on the case of the query |
| Catalog.PriceBoundsInclusive | server/storage.ts:302-308 | a price equal to both bounds passes the price filters |
| Catalog.MatchesFilters | server/storage.ts:278-326 | a template passes when no filter rejects it: category and status unless "all", inclusive price bounds, and a case-insensitive search over title, description, tags and features |
| Catalog.OpenFiltersMatchAll | server/storage.ts:282-310 | absent filters, the "all" choices, no price bounds and an empty search let every template through |
| Catalog.FilterTemplates | server/storage.ts:158-160 | each template is kept as often as it occurs when it passes the filters, and dropped otherwise |
| Catalog.SortOrderIsTotalPreorder | server/storage.ts:332-353 | each sort key orders templates by a total preorder |
| Catalog.Precedes | server/storage.ts:334-351 | the comparator of each sort key: price ascending or descending, title, oldest or newest creation time |
| Catalog.SortTemplates | server/storage.ts:328-354 | the result is a permutation ordered by the chosen key, newest first by default |
| Catalog.Summary | server/storage.ts:412-422 | the summary keeps the id, slug, title, category, price, status and hero image |
| CartLines.LinesTotal | server/storage.ts:540-547 | the subtotal: unit price times quantity summed over the lines, in cents |
| CartLines.LinesTotalConcat | server/storage.ts:540-547 | the subtotal of two line lists is the sum of their subtotals |
| CartLines.LinesTotalAppend | server/storage.ts:540-547 | appending a line adds its amount |
| CartLines.LinesTotalUpdate | server/storage.ts:540-547 | replacing a line changes the subtotal by the difference of the amounts |
| CartLines.LinesTotalDelete | server/storage.ts:540-547 | deleting a line subtracts its amount |
| CartLines.FindByTemplate | server/storage.ts:467-469 | the first line for the template, or none exactly when no line has it |
| CartLines.FindById | server/storage.ts:496 | the first line with the id, or none exactly when no line has it |
| CartLines.AddLine | server/storage.ts:466-484 | a line for the template gets the added quantity and the current price and summary, keeping its id and time, with every other line unchanged; otherwise a new line is appended |
| CartLines.AddLineKeepsDistinctTemplates | server/storage.ts:467-484 | adding never gives two lines for one template |
| CartLines.AddLineKeepsDistinctIds | server/storage.ts:476-484 | with a fresh line id, line ids stay distinct |
| CartLines.AddLineKeepsPositive | server/storage.ts:466-484 | adding a positive quantity keeps every quantity positive |
| CartLines.AddLineHasOneLine | server/storage.ts:467-484 | afterwards the template has a line |
| CartLines.AddLineTotal | server/storage.ts:466-486 | the new subtotal is the old one with the merged line's amount replaced, or with the new line's amount added |
| CartLines.RemoveById | server/storage.ts:514 | never more lines than before, and the lines unchanged when no line has the id |
| CartLines.RemoveByIdMembers | server/storage.ts:514 | the remaining lines are exactly the old lines whose id differs |
| CartLines.RemoveByIdIdempotent | server/storage.ts:512-517 | removing the same id twice is removing it once |
| CartLines.RemoveByIdConcat | server/storage.ts:514 | removal distributes over concatenation |
| CartLines.RemoveByIdDeletesLine | server/storage.ts:502-503 | with distinct ids, removing the id of line i deletes exactly line i |
| CartLines.SetQuantityKeepsDistinct | server/storage.ts:504-506 | setting a quantity keeps ids and templates distinct |
| CartLines.DeleteKeepsDistinct | server/storage.ts:502-503 | deleting a line keeps ids and templates distinct and quantities positive |
| Orders.Revenue | server/storage.ts:602-604 | the sum of the totals of the paid orders, in cents |
| Orders.RevenueConcat | server/storage.ts:602-604 | revenue over two order lists is the sum |
| Orders.RevenueAppendPaid | server/storage.ts:602-604 | a new paid order raises revenue by its total |
| Orders.RevenueIgnoresUnpaid | server/storage.ts:603 | an order that is not paid adds nothing |
| Orders.RevenuePermutation | server/storage.ts:602-604 | revenue does not depend on the order of the orders |
| Orders.NewerFirstIsTotalPreorder | server/storage.ts:596 | newest-first is a total preorder |
| Orders.SortNewestFirst | server/storage.ts:594-598 | the orders, permuted, newest first |
| Orders.Project | server/storage.ts:606-614 | the projections of the first n orders, one by one |
| Orders.CountPublished | server/storage.ts:618-620 | the number of published templates: at most all, all exactly when every one is published, none exactly when none is |
| Orders.CountPublishedCounts | server/storage.ts:618-620 | the count is exactly the number of positions holding a published template |
| Orders.RecentOrders | server/storage.ts:606-614 | at most five projections, newest first, each of an existing order |
| Orders.RecentOrdersArePrefix | server/storage.ts:606-614 | the recent orders are the projections of the first five of a newest-first permutation of the orders, so none is shown twice unless stored twice |
| Orders.Stats | server/storage.ts:600-625 | the template and order counts, the published count, revenue over the paid orders, and the recent orders |
| Orders.StatsShowNewest | server/storage.ts:606-614 | no order left out of the recent orders is newer than one shown |
| Storage.KeyOrderSize | server/storage.ts:617 | a map and its key order have the same size |
| Storage.KeyOrderAppend | server/storage.ts:114 | filing a new key appends it to the key order and its record to the listing |
| Storage.RemoveKey | server/storage.ts:275 | deleting a key drops it from the key order, keeps the order distinct, leaves the order as it was when the key is absent, and otherwise removes exactly its one position, the other keys keeping their order |
| Storage.Values | server/storage.ts:158 | `Array.from(map.values())`: one record per key, in key order |
| Storage.ValuesMembers | server/storage.ts:96 | the insertion-order listing holds exactly the map's records |
| Storage.UsersOkInsert | server/storage.ts:101-116 | filing a user whose name is free ignoring case keeps the user invariant |
| Storage.TemplatesOkInsert | server/storage.ts:179-209 | filing a template under a free slug keeps slugs unique |
| Storage.TemplatesOkReplace | server/storage.ts:265-270 | replacing a template by one whose slug no other holds keeps slugs unique |
| Storage.TemplatesOkRemove | server/storage.ts:274-276 | deleting a template keeps the template invariant |
| Storage.CartsOkUpdate | server/storage.ts:540-547 | filing a consistent cart keeps every cart consistent |
| Storage.OrdersOkInsert | server/storage.ts:577-586 | filing a paid order keeps the order invariant and raises revenue by its total |
| Storage.SlugsExceptHolds | server/storage.ts:399-402 | every template other than the ignored one holds a taken slug |
| Storage.WithCart | server/storage.ts:526-538 | afterwards the cart exists with its old lines, and no other cart changes |
| Storage.FindUsername | server/storage.ts:94-99 | a listed user whose name matches ignoring case, or none exactly when no listed user matches |
| Storage.FindSlug | server/storage.ts:171-177 | a listed template with the slug, or none exactly when no listed template has it |
| Storage.MemStorage.constructor | server/storage.ts:76-84 | an empty, valid store |
| Storage.MemStorage.UserList | server/storage.ts:96 | the users in insertion order, position by position, and exactly the stored ones |
| Storage.MemStorage.TemplateList | server/storage.ts:158 | the templates in insertion order, position by position, and exactly the stored ones |
| Storage.MemStorage.OrderList | server/storage.ts:601 | the orders in insertion order, position by position, and exactly the stored ones |
| Storage.MemStorage.GetUser | server/storage.ts:90-92 | the user filed under the id, or none exactly when there is none |
| Storage.MemStorage.GetUserByUsername | server/storage.ts:94-99 | a stored user whose name matches ignoring case, or none exactly when none matches |
| Storage.MemStorage.CreateUser | server/storage.ts:101-116 | fails with "Username already exists" exactly when a name matches ignoring case, changing nothing; otherwise files the new user under the fresh id |
| Storage.MemStorage.GetTemplate | server/storage.ts:166-169 | the template filed under the id, or none exactly when there is none |
| Storage.MemStorage.GetTemplateBySlug | server/storage.ts:171-177 | the template whose slug is the lower-cased argument, or none exactly when none has it; there is at most one |
| Storage.MemStorage.ListTemplates | server/storage.ts:157-164 | exactly the stored templates that pass the filters, each as often as stored, ordered by the sort key |
| Storage.MemStorage.IsSlugTaken | server/storage.ts:399-402 | holds exactly when a template other than the ignored one has the slug |
| Storage.MemStorage.EnsureUniqueSlug | server/storage.ts:395-410 | the lower-cased base if free, otherwise base-k for the least free k of at least 1; never a slug another template holds |
| Storage.MemStorage.CreateTemplate | server/storage.ts:179-209 | files the record `NewTemplate` builds under the fresh id, with the first free slug for the slugified slug or title, distinct from every other slug; nothing else changes |
| Storage.MemStorage.UpdateTemplate | server/storage.ts:211-272 | none and no change for an unknown id; otherwise the merged record, with the slug re-resolved, ignoring the template itself, only when a slug or title is supplied |
| Storage.MemStorage.DeleteTemplate | server/storage.ts:274-276 | reports whether the id was present and removes it from the map and the key order |
| Storage.MemStorage.GetOrCreateCart | server/storage.ts:440-456 | an existing cart for a non-empty id is returned unchanged; otherwise an empty cart is filed under the given id, even the empty one, or else under the fresh id |
| Storage.MemStorage.GetCartRecord | server/storage.ts:526-538 | files an empty cart under an unknown id and changes nothing else |
| Storage.MemStorage.AddCartItem | server/storage.ts:458-488 | fails with "Template not found" exactly for an unknown template, after creating the cart; otherwise the cart's lines are `AddLine` with default quantity 1, and the subtotal is their total |
| Storage.MemStorage.UpdateCartItem | server/storage.ts:490-510 | fails with "Cart item not found" exactly when no line has the id; a quantity of at most 0 deletes just that line, any other sets its quantity; the subtotal is recomputed |
| Storage.MemStorage.RemoveCartItem | server/storage.ts:512-517 | drops the lines with that id, keeps every other line, changes nothing when none has it, and recomputes the subtotal |
| Storage.MemStorage.ClearCart | server/storage.ts:519-524 | the cart has no lines and subtotal 0 |
| Storage.MemStorage.CreateOrderFromCart | server/storage.ts:564-592 | fails with "Cart is empty" exactly for an empty cart, adding no order; otherwise adds one paid order with the cart's lines and subtotal, empties the cart and raises revenue by the total |
| Storage.MemStorage.ListOrders | server/storage.ts:594-598 | every stored order, each once, newest first |
| Storage.MemStorage.GetAdminStats | server/storage.ts:600-625 | exactly `Orders.Stats` of the stored templates and orders in insertion order: the counts, the published count, revenue over the paid orders, and at most five recent orders, newest first, each of a stored order |

## Left out

- Password hashing and `verifyUserCredentials` (`scryptSync`, `timingSafeEqual`) are foreign crypto. `createUser` takes the already hashed password as a parameter.
- The seed data, `seedInitialData` and `ensureAdminUser` are fixed fixtures. The constructor models an empty store.
- `cloneTemplate`, `cloneCart` and `cloneOrder` are left out: records are values in Dafny, so every result is already a copy.
- **Floating point:**
  - Prices and totals are exact integer cents. The `Math.round(x * 100) / 100` in `recalculateCart` and `getAdminStats` is therefore the identity.
  - Binary rounding error, infinities and prices beyond the decimal model are not represented.
  - A price filter bound is an exact decimal.
- **Text:**
  - `localeCompare` is modelled as lexicographic order on characters. A Dafny `char` is a Unicode scalar value, so this is code-point order. It agrees with UTF-16 code-unit order only on strings without characters above U+FFFF, and locale-specific collation is not modelled.
  - `toLowerCase` is modelled for ASCII letters only.
- Sorting.SortBy: stability (equal keys keep insertion order) is a property of the insertion sort used, but it is not stated as a contract.
- Storage.MemStorage.AddCartItem:
  - The quantity is not validated by the store.
  - Positive quantities are therefore not part of `Valid()`.
  - `CartLines.AddLineKeepsPositive` and `CartLines.DeleteKeepsDistinct` state that positivity is preserved when the caller supplies positive quantities.
- Storage.MemStorage.AddCartItem: the new line id is required to be fresh within the cart. `randomUUID` is assumed not to collide.
- In-place mutation of a stored cart or template object (`item.quantity = …`, `merged.slug = …`) is modelled as replacing the map entry. Aliasing is not modelled.
- Storage.MemStorage.GetUser and Storage.MemStorage.GetUserByUsername: the source returns the stored user object itself, not a copy, so a caller that mutates it changes the store. The model returns a value and does not capture that aliasing.
- Storage.MemStorage.GetTemplateBySlug: lower-cases only the query, as the code does, so the lookup is case-insensitive only because every stored slug comes out of `slugify` and `ensureUniqueSlug` in lower case. That stored slugs are lower case is not part of `Valid()`.
- The HTTP routes (`server/routes.ts`), including the check that rejects a minimum price above the maximum, the database-backed user service, the zod URL checks of `shared/schema.ts` and the client are not part of this model.
- `server/storage.ts` has no JSON-file persistence, write queue or stats broadcasting; the model follows the code.
