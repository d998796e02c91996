# Selection logic of the order-editing dialogs

This project models, in Dafny, the selection state behind two dialogs of the
order editor of an e-commerce administration dashboard, and proves what they
promise.

- **Assign variant dialog** (`AssignVariant`, `assign_variant_dialog.dfy`). The
  user ticks product variants, one at a time or a whole product at once, and
  confirms. The selection is a flat list of variants compared by `id`. Which
  products count as "fully selected" is recomputed from that list on every
  render. The pure helpers are functions: `isVariantSelected`,
  `hasAllVariantsSelected` (a left fold from `true`), `productChoices` and the
  two checkbox grids. The `variants` state is the field of the class
  `AssignVariantDialog`, and its handlers are methods. The handlers replace the
  field with what the pure toggles `ProductAssign` and `VariantAssign` compute.
- **Change warehouse dialog** (`OrderChangeWarehouse`,
  `order_change_warehouse_dialog.dfy`). This is a single choice among the
  warehouses the search returned. `selectedWarehouseId` is the field of the
  class `WarehouseSelector`. It starts as `null` (`None`). The effect on the
  `currentWarehouse` prop seeds it, and the radio group's change handler
  replaces it. `selectedWarehouse` resolves it by id in the current results.
  The Select button is disabled exactly when that lookup fails. Submit makes
  two callbacks, `onConfirm` and then `onClose`, which the method returns as an
  ordered list. Each warehouse row gets three annotations: whether its radio is
  checked, the unavailable-lines note (none, one product's name, or a count),
  and the "current selection" marker.
- **Shared list primitives** (`Lists`, `lists.dfy`). These are JavaScript's
  `filter` (`Filter`) and `find` (`Find`). Both dialogs use `find` with
  `getById(id)`. `getById` and `getByUnmatchingId` come from
  `src/orders/components/OrderReturnPage/utils`, which is not part of this
  model. They are modelled as the predicates `x.id == id` and `x.id != id`, as
  their names and every use in the two dialogs indicate. This is an
  assumption of the model.

Modelling choices:
- The availability helper `isLineAvailableInWarehouse` is not part of this
  model. It is a parameter `isAvailable: (OrderLine, Warehouse) -> bool`.
- The warehouse results (`mapEdgesToItems` of the search answer) are an
  `Option<seq<Warehouse>>`, because the list is undefined until the search
  answers.
- An absent `products` list (`products?.filter(...) || []`) and an absent
  `lines` list (`lines?.filter(...)`, with `undefined?.length > 0` false)
  behave exactly like empty lists, so both are plain sequences.
- The seeding effect is an explicit "the `currentWarehouse` prop changed"
  event, `OnCurrentWarehouseChange`. React re-runs the effect whenever the prop
  object changes. The code therefore re-seeds even when the new object has the
  same id as before. The model follows the code. It does not implement
  "re-seed only when the id changes". A prop that does not change runs no
  effect, so after the user picks another warehouse the selection stays as it
  is (`SeedThenChooseScenario`). React also runs the effect once when the
  dialog mounts. In the model that first run is an explicit call to
  `OnCurrentWarehouseChange` right after the constructor, as that scenario
  makes it.
- A `null` selection is looked up as `""`. If some warehouse had the empty id,
  it would resolve and enable Select. `NoSelectionDisablesSubmit` states when
  it does not.
- A product with no variants counts as fully selected, because the fold starts
  from `true`. `productChoices` removes such products before any toggle can
  see them.

## Model

| member | source | states |
|---|---|---|
| Lists.Find | src/components/AssignVariantDialog/AssignVariantDialog.tsx:56 | `find(getById(id))` yields none iff no element has the id; otherwise it yields an element with the id, and no earlier element has that id |
| Lists.Filter | src/components/AssignVariantDialog/AssignVariantDialog.tsx:68-71 | `filter` keeps exactly the elements that pass the predicate and never lengthens the list |
| Lists.FilterAppend | src/components/AssignVariantDialog/AssignVariantDialog.tsx:68-71 | `filter` keeps order: filtering `xs + ys` is filtering `xs` followed by filtering `ys` |
| Lists.FilterKeepsAll | src/components/AssignVariantDialog/AssignVariantDialog.tsx:68-71 | a filter that every element passes returns its input unchanged |
| Lists.FilterDropsAll | src/components/AssignVariantDialog/AssignVariantDialog.tsx:75-77 | a filter that no element passes returns the empty list |
| AssignVariant.IsVariantSelected | src/components/AssignVariantDialog/AssignVariantDialog.tsx:52-57 | a variant is selected iff the selection holds an entry with the variant's id |
| AssignVariant.AllSelectedFrom | src/components/AssignVariantDialog/AssignVariantDialog.tsx:96-100 | the `reduce` with accumulator `acc` yields `acc` and "every remaining variant's id is selected" |
| AssignVariant.HasAllVariantsSelected | src/components/AssignVariantDialog/AssignVariantDialog.tsx:92-101 | a product is fully selected iff all of its variant ids are selected ids; one without variants is fully selected |
| AssignVariant.HasVariants | src/components/AssignVariantDialog/AssignVariantDialog.tsx:125 | a product qualifies as a choice iff it has at least one variant |
| AssignVariant.ProductChoices | src/components/AssignVariantDialog/AssignVariantDialog.tsx:124-125 | the product choices are exactly the products with at least one variant |
| AssignVariant.ProductChoicesAppend | src/components/AssignVariantDialog/AssignVariantDialog.tsx:124-125 | the product choices keep the products' original order |
| AssignVariant.ProductChoicesKeepsNonEmpty | src/components/AssignVariantDialog/AssignVariantDialog.tsx:124-125 | when every product has a variant, the choices are the products themselves |
| AssignVariant.VariantFlags | src/components/AssignVariantDialog/AssignVariantDialog.tsx:128-130 | a product's row of the grid has one flag per variant; flag j is set iff variant j's id is selected |
| AssignVariant.SelectedVariantsGrid | src/components/AssignVariantDialog/AssignVariantDialog.tsx:127-131 | the grid has one row per product choice and one entry per variant; entry [i][j] is set iff that variant's id is selected |
| AssignVariant.ProductsWithAllVariantsSelected | src/components/AssignVariantDialog/AssignVariantDialog.tsx:133-137 | there is one flag per product choice; flag i is set iff all of product i's variant ids are selected |
| AssignVariant.ProductFlagMatchesGrid | src/components/AssignVariantDialog/AssignVariantDialog.tsx:127-137 | a product's checkbox is ticked iff every variant checkbox in its row is ticked |
| AssignVariant.ProductAssign | src/components/AssignVariantDialog/AssignVariantDialog.tsx:59-78 | when fully selected: the entries left are exactly those whose id is none of the product's; otherwise: the old selection is a prefix, followed by the product's variants whose ids were not selected, filtered in the product's order |
| AssignVariant.NotAmong | src/components/AssignVariantDialog/AssignVariantDialog.tsx:70 | the predicate holds of an entry iff its id is none of the given variants' ids |
| AssignVariant.UnmatchingId | src/components/AssignVariantDialog/AssignVariantDialog.tsx:89 | `getByUnmatchingId(id)` holds of an entry iff its id differs from `id` |
| AssignVariant.ToggleProduct | src/components/AssignVariantDialog/AssignVariantDialog.tsx:195-205 | the product checkbox, with the flag the grid shows: when fully selected, exactly the entries without one of the product's ids remain; otherwise the old selection is a prefix, followed by the product's unselected variants in the product's order |
| AssignVariant.ToggleProductAddsInOrder | src/components/AssignVariantDialog/AssignVariantDialog.tsx:73-78 | selecting a product appends its missing variants piecewise in the product's own order |
| AssignVariant.ToggleVariant | src/components/AssignVariantDialog/AssignVariantDialog.tsx:227-241 | the variant checkbox, with the grid entry: a selected variant leaves exactly the entries with other ids; an unselected one is appended to the unchanged selection |
| AssignVariant.VariantAssign | src/components/AssignVariantDialog/AssignVariantDialog.tsx:80-90 | when selected: the entries left are exactly those with another id; otherwise: the variant is appended after the unchanged selection |
| AssignVariant.ToggleProductIds | src/components/AssignVariantDialog/AssignVariantDialog.tsx:66-78 | a product toggle leaves the selected ids minus the product's ids when it was fully selected, and plus them otherwise |
| AssignVariant.ToggleProductSelectsAll | src/components/AssignVariantDialog/AssignVariantDialog.tsx:73-78 | toggling a product that is not fully selected makes it fully selected, even when it was partly selected |
| AssignVariant.ToggleProductDeselectsAll | src/components/AssignVariantDialog/AssignVariantDialog.tsx:66-72 | toggling a fully selected product leaves none of its variants selected |
| AssignVariant.ToggleProductKeepsOthers | src/components/AssignVariantDialog/AssignVariantDialog.tsx:66-72 | deselecting a product filters the selection piecewise, so the remaining entries keep their order |
| AssignVariant.ToggleProductNoDuplicateIds | src/components/AssignVariantDialog/AssignVariantDialog.tsx:73-78 | a product toggle introduces no duplicate ids when the selection and the product's variant ids are each duplicate-free |
| AssignVariant.ToggleProductRoundTrip | src/components/AssignVariantDialog/AssignVariantDialog.tsx:59-78 | toggling a product with no selected variants twice gives back exactly the original selection |
| AssignVariant.ToggleProductTwiceKeepsIds | src/components/AssignVariantDialog/AssignVariantDialog.tsx:59-78 | toggling a fully selected product twice keeps the set of selected ids |
| AssignVariant.ToggleVariantIds | src/components/AssignVariantDialog/AssignVariantDialog.tsx:80-90 | a variant toggle flips whether the variant is selected, and removes or adds exactly its id |
| AssignVariant.ToggleVariantKeepsOthers | src/components/AssignVariantDialog/AssignVariantDialog.tsx:89 | removing a variant filters the selection piecewise, so the other entries keep their order |
| AssignVariant.ToggleVariantNoDuplicateIds | src/components/AssignVariantDialog/AssignVariantDialog.tsx:80-90 | a variant toggle keeps a duplicate-free selection duplicate-free |
| AssignVariant.ToggleVariantTwiceUnselected | src/components/AssignVariantDialog/AssignVariantDialog.tsx:80-90 | ticking an unselected variant and then unticking it gives back exactly the original list |
| AssignVariant.ToggleVariantTwiceSelected | src/components/AssignVariantDialog/AssignVariantDialog.tsx:80-90 | unticking a selected variant and then ticking it again keeps the set of selected ids |
| AssignVariant.SelectRemainingVariantsScenario | src/components/AssignVariantDialog/AssignVariantDialog.tsx:73-78 | with p1 = [v1, v2] and selection [v1], p1 is not fully selected, and toggling it gives [v1, v2] |
| AssignVariant.DeselectProductScenario | src/components/AssignVariantDialog/AssignVariantDialog.tsx:66-72 | with p1 = [v1, v2] and selection [v1, v2], p1 is fully selected, and toggling it gives [] |
| AssignVariant.AssignVariantDialog.constructor | src/components/AssignVariantDialog/AssignVariantDialog.tsx:122 | the selection starts empty |
| AssignVariant.AssignVariantDialog.HandleProductAssign | src/components/AssignVariantDialog/AssignVariantDialog.tsx:193-206 | the product checkbox replaces the selection with the product toggle, using the flag the grid shows; it keeps a duplicate-free selection duplicate-free when the product's variant ids are distinct |
| AssignVariant.AssignVariantDialog.HandleVariantAssign | src/components/AssignVariantDialog/AssignVariantDialog.tsx:225-242 | the variant checkbox replaces the selection with the variant toggle, using the grid entry; it keeps the selection duplicate-free |
| AssignVariant.AssignVariantDialog.HandleSubmit | src/components/AssignVariantDialog/AssignVariantDialog.tsx:139 | submit hands over the current selection unchanged; the empty selection is allowed |
| OrderChangeWarehouse.LookupKey | src/orders/components/OrderChangeWarehouseDialog/OrderChangeWarehouseDialog.tsx:81 | the id looked up is the selected id when there is one, and "" when the selection is `null` |
| OrderChangeWarehouse.ResolveSelection | src/orders/components/OrderChangeWarehouseDialog/OrderChangeWarehouseDialog.tsx:78-82 | `selectedWarehouse` is the first result whose id is the selected id, with `null` looked up as ""; it is none if no result matches or there are no results |
| OrderChangeWarehouse.SubmitDisabled | src/orders/components/OrderChangeWarehouseDialog/OrderChangeWarehouseDialog.tsx:199-204 | Select is enabled iff the results contain a warehouse with the looked-up id |
| OrderChangeWarehouse.NoSelectionDisablesSubmit | src/orders/components/OrderChangeWarehouseDialog/OrderChangeWarehouseDialog.tsx:80-82 | with no warehouse carrying the empty id, a `null` selection keeps Select disabled |
| OrderChangeWarehouse.ChosenIdResolves | src/orders/components/OrderChangeWarehouseDialog/OrderChangeWarehouseDialog.tsx:80-86 | choosing an id that some result carries enables Select and resolves to a warehouse with that id |
| OrderChangeWarehouse.ResolveUnique | src/orders/components/OrderChangeWarehouseDialog/OrderChangeWarehouseDialog.tsx:80-82 | with distinct result ids, the selection resolves to the one warehouse with that id |
| OrderChangeWarehouse.Unavailable | src/orders/components/OrderChangeWarehouseDialog/OrderChangeWarehouseDialog.tsx:150 | a line counts as unavailable in a warehouse iff the availability predicate fails for that line and warehouse |
| OrderChangeWarehouse.UnavailableLines | src/orders/components/OrderChangeWarehouseDialog/OrderChangeWarehouseDialog.tsx:149-151 | the unavailable lines are exactly the order lines that fail the availability predicate for that warehouse |
| OrderChangeWarehouse.UnavailableLinesAppend | src/orders/components/OrderChangeWarehouseDialog/OrderChangeWarehouseDialog.tsx:149-151 | the unavailable lines keep the order lines' order |
| OrderChangeWarehouse.NoteFor | src/orders/components/OrderChangeWarehouseDialog/OrderChangeWarehouseDialog.tsx:164-177 | there is no note iff no line is unavailable; one unavailable line gives its product's name; otherwise the note gives the count, which is at least 2 |
| OrderChangeWarehouse.RowNote | src/orders/components/OrderChangeWarehouseDialog/OrderChangeWarehouseDialog.tsx:152-178 | there is no note iff every line is available; with exactly one unavailable line the note names that line's product; otherwise it shows the count, which is at least 2 |
| OrderChangeWarehouse.RowFor | src/orders/components/OrderChangeWarehouseDialog/OrderChangeWarehouseDialog.tsx:148-190 | a warehouse's row shows that warehouse; its radio is checked iff its id is the selected id; the "current selection" marker shows iff its id is the current warehouse's id; its note is the one for its unavailable lines, and is absent iff every line is available there |
| OrderChangeWarehouse.WarehouseRows | src/orders/components/OrderChangeWarehouseDialog/OrderChangeWarehouseDialog.tsx:147-187 | there is one row per result, in order; a radio is checked iff its id is the selected id; the marker shows iff the row's id is the current warehouse's id; the note is the one for that warehouse's unavailable lines |
| OrderChangeWarehouse.AtMostOneChecked | src/orders/components/OrderChangeWarehouseDialog/OrderChangeWarehouseDialog.tsx:147-157 | with distinct result ids, at most one radio is checked |
| OrderChangeWarehouse.WarehouseSelector.constructor | src/orders/components/OrderChangeWarehouseDialog/OrderChangeWarehouseDialog.tsx:61-63 | the selection starts as `null` |
| OrderChangeWarehouse.WarehouseSelector.OnCurrentWarehouseChange | src/orders/components/OrderChangeWarehouseDialog/OrderChangeWarehouseDialog.tsx:65-69 | a current warehouse with a non-empty id becomes the selection; otherwise the selection is unchanged |
| OrderChangeWarehouse.WarehouseSelector.HandleChange | src/orders/components/OrderChangeWarehouseDialog/OrderChangeWarehouseDialog.tsx:84-86 | the chosen id replaces the selection, so it never accumulates |
| OrderChangeWarehouse.WarehouseSelector.SelectedWarehouse | src/orders/components/OrderChangeWarehouseDialog/OrderChangeWarehouseDialog.tsx:80-82 | `selectedWarehouse` is a result that carries the looked-up selected id; it is absent exactly when Select is disabled |
| OrderChangeWarehouse.WarehouseSelector.HandleSubmit | src/orders/components/OrderChangeWarehouseDialog/OrderChangeWarehouseDialog.tsx:87-90 | submit calls `onConfirm` with the resolved warehouse and then `onClose`; when Select is enabled, the confirmed warehouse is a result that carries the selected id |
| OrderChangeWarehouse.SeedThenChooseScenario | src/orders/components/OrderChangeWarehouseDialog/OrderChangeWarehouseDialog.tsx:65-90 | seeding with W1 and then choosing W2 leaves W2 selected, and submit confirms W2 and then closes |

## Left out

- Rendering: the JSX markup, Material-UI and macaw-ui components, styles, thumbnails and prices (`channelListings[0].price`).
- Message formatting with `react-intl`: only the choice between no note, the one-product message and the count message is modelled, not the text.
- Search: `useSearchQuery`, the `Debounce` component and `useWarehouseSearch` run on timers and the network, and their code is not part of this model. The search results are inputs.
- Scrolling: `InfiniteScroll`, `useElementScroll`, the scroll shadows and the `loadMore` effect (`OrderChangeWarehouseDialog.tsx:92-96`) are event plumbing around external fetching.
- `isLineAvailableInWarehouse` and `mapEdgesToItems` are not part of this model. The first is an abstract predicate parameter, and the second yields an abstract optional list.
- `getById` and `getByUnmatchingId` are not part of this model. They are taken to test `id` equality and inequality.
- React's effect-dependency comparison (object identity of `currentWarehouse`) is not modelled. A prop change is an explicit call to `OnCurrentWarehouseChange`.
- The `loading` flag, which disables the checkboxes while a search runs, is not modelled. The handlers model what a click does when one is allowed.
- Null entries inside the `products` list (`product?.variants`) are not modelled. Products are always present values.
