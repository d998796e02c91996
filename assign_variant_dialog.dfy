/**
  The selection logic of the "assign variant" dialog: the user ticks product
  variants (one by one, or a whole product at a time) and confirms the list.
  The selection is a flat list of variants compared by `id`; which products
  are "fully selected" is recomputed from it on every render.
 */
module AssignVariant {
  import opened Lists

  datatype Variant = Variant(id: string, name: string, sku: string)

  datatype Product = Product(id: string, name: string, variants: seq<Variant>)

  function VariantId(v: Variant): (id: string) { v.id }

  /** The ids carried by a list of variants. */
  function Ids(vs: seq<Variant>): (ids: set<string>)
  {
    set v | v in vs :: v.id
  }

  /** No two entries of the list share an id. */
  predicate NoDuplicateIds(vs: seq<Variant>)
  {
    forall i, j :: 0 <= i < j < |vs| ==> vs[i].id != vs[j].id
  }

  lemma IdsAppend(xs: seq<Variant>, ys: seq<Variant>)
    ensures Ids(xs + ys) == Ids(xs) + Ids(ys)
  {}

  lemma IdsAt(vs: seq<Variant>, i: int)
    requires 0 <= i < |vs|
    ensures vs[i].id in Ids(vs)
  {}

  /** Membership of an id in Ids, by index. */
  lemma IdsIndex(vs: seq<Variant>, id: string)
    ensures id in Ids(vs) <==> exists i :: 0 <= i < |vs| && vs[i].id == id
  {}

  /**
    `isVariantSelected`: whether the selection holds an entry with the
    variant's id.
   */
  function IsVariantSelected(variant: Variant, selection: seq<Variant>): (r: bool)
    ensures r <==> variant.id in Ids(selection)
  {
    IdsIndex(selection, variant.id);
    Find(selection, VariantId, variant.id).Some?
  }

  /**
    The `reduce` inside `hasAllVariantsSelected`: `acc` folded with "is
    selected" over the remaining variants.
   */
  function AllSelectedFrom(acc: bool, productVariants: seq<Variant>, selection: seq<Variant>): (r: bool)
    ensures r <==> acc && Ids(productVariants) <= Ids(selection)
  {
    if |productVariants| == 0 then acc
    else
      IdsAppend([productVariants[0]], productVariants[1..]);
      assert [productVariants[0]] + productVariants[1..] == productVariants;
      assert Ids([productVariants[0]]) == {productVariants[0].id};
      AllSelectedFrom(acc && IsVariantSelected(productVariants[0], selection), productVariants[1..], selection)
  }

  /**
    `hasAllVariantsSelected`: every variant of the product has its id in the
    selection. The fold starts from `true`, so a product with no variants
    counts as fully selected.
   */
  function HasAllVariantsSelected(productVariants: seq<Variant>, selection: seq<Variant>): (r: bool)
    ensures r <==> Ids(productVariants) <= Ids(selection)
    ensures |productVariants| == 0 ==> r
  {
    AllSelectedFrom(true, productVariants, selection)
  }

  /** `product => product?.variants?.length > 0` */
  function HasVariants(product: Product): (r: bool)
    ensures r <==> exists v :: v in product.variants
  {
    if |product.variants| > 0 then
      assert product.variants[0] in product.variants;
      true
    else false
  }

  /** `productChoices`: the products that have at least one variant. */
  function ProductChoices(products: seq<Product>): (choices: seq<Product>)
    ensures forall p :: p in choices <==> p in products && |p.variants| > 0
    ensures forall i :: 0 <= i < |choices| ==> |choices[i].variants| > 0
  {
    Filter(products, HasVariants)
  }

  /** `productChoices` keeps the products' order: it maps concatenation to concatenation. */
  lemma ProductChoicesAppend(xs: seq<Product>, ys: seq<Product>)
    ensures ProductChoices(xs + ys) == ProductChoices(xs) + ProductChoices(ys)
  {
    FilterAppend(xs, ys, HasVariants);
  }

  /** `productChoices` on a list whose every product has a variant is that list. */
  lemma ProductChoicesKeepsNonEmpty(products: seq<Product>)
    requires forall p :: p in products ==> |p.variants| > 0
    ensures ProductChoices(products) == products
  {
    FilterKeepsAll(products, HasVariants);
  }

  /** One row of `selectedVariantsToProductsMap`: a flag per variant of the product. */
  function VariantFlags(product: Product, selection: seq<Variant>): (row: seq<bool>)
    ensures |row| == |product.variants|
    ensures forall j :: 0 <= j < |row| ==> (row[j] <==> product.variants[j].id in Ids(selection))
  {
    seq(|product.variants|, j requires 0 <= j < |product.variants| =>
      IsVariantSelected(product.variants[j], selection))
  }

  /**
    `selectedVariantsToProductsMap`: entry [i][j] says whether variant j of
    product choice i is selected.
   */
  function SelectedVariantsGrid(choices: seq<Product>, selection: seq<Variant>): (grid: seq<seq<bool>>)
    ensures |grid| == |choices|
    ensures forall i :: 0 <= i < |grid| ==> |grid[i]| == |choices[i].variants|
    ensures forall i, j :: 0 <= i < |grid| && 0 <= j < |grid[i]| ==>
              (grid[i][j] <==> choices[i].variants[j].id in Ids(selection))
  {
    seq(|choices|, i requires 0 <= i < |choices| => VariantFlags(choices[i], selection))
  }

  /**
    `productsWithAllVariantsSelected`: flag i says whether every variant of
    product choice i is selected.
   */
  function ProductsWithAllVariantsSelected(choices: seq<Product>, selection: seq<Variant>): (flags: seq<bool>)
    ensures |flags| == |choices|
    ensures forall i :: 0 <= i < |flags| ==> (flags[i] <==> Ids(choices[i].variants) <= Ids(selection))
  {
    seq(|choices|, i requires 0 <= i < |choices| => HasAllVariantsSelected(choices[i].variants, selection))
  }

  /** A product's checkbox is ticked exactly when all of its variants' checkboxes are. */
  lemma ProductFlagMatchesGrid(choices: seq<Product>, selection: seq<Variant>, i: int)
    requires 0 <= i < |choices|
    ensures ProductsWithAllVariantsSelected(choices, selection)[i] <==>
            forall j :: 0 <= j < |choices[i].variants| ==> SelectedVariantsGrid(choices, selection)[i][j]
  {
    var vs := choices[i].variants;
    var grid := SelectedVariantsGrid(choices, selection);
    if forall j :: 0 <= j < |vs| ==> grid[i][j] {
      forall id | id in Ids(vs) ensures id in Ids(selection) {
        IdsIndex(vs, id);
        var j :| 0 <= j < |vs| && vs[j].id == id;
        assert grid[i][j];
      }
    }
  }

  /** `v => !product.variants.find(getById(v.id))`: the entry's id is none of these variants' ids. */
  function NotAmong(productVariants: seq<Variant>): (keep: Variant -> bool)
    ensures forall v :: keep(v) <==> v.id !in Ids(productVariants)
  {
    (v: Variant) => !IsVariantSelected(v, productVariants)
  }

  /** `getByUnmatchingId(id)`: the entry's id differs from `id`. */
  function UnmatchingId(id: string): (keep: Variant -> bool)
    ensures forall v :: keep(v) <==> v.id != id
  {
    (v: Variant) => v.id != id
  }

  /**
    `handleProductAssign`, given the product's flag from the grid: a fully
    selected product has all its variants removed; otherwise the variants not
    yet selected are appended.
   */
  function ProductAssign(product: Product, allSelected: bool, variants: seq<Variant>): (r: seq<Variant>)
    ensures allSelected ==>
              forall v :: v in r <==> v in variants && v.id !in Ids(product.variants)
    ensures !allSelected ==>
              |variants| <= |r| && r[..|variants|] == variants &&
              forall v :: v in r[|variants|..] <==> v in product.variants && v.id !in Ids(variants)
    ensures !allSelected ==> r[|variants|..] == Filter(product.variants, NotAmong(variants))
  {
    if allSelected then
      Filter(variants, NotAmong(product.variants))
    else
      var added := Filter(product.variants, NotAmong(variants));
      assert (variants + added)[|variants|..] == added;
      variants + added
  }

  /**
    The product toggle as the dialog performs it, with the flag the grid
    shows: a fully selected product loses every entry carrying one of its ids;
    otherwise its not yet selected variants are appended in the product's order.
   */
  function ToggleProduct(product: Product, variants: seq<Variant>): (r: seq<Variant>)
    ensures HasAllVariantsSelected(product.variants, variants) ==>
              forall v :: v in r <==> v in variants && v.id !in Ids(product.variants)
    ensures !HasAllVariantsSelected(product.variants, variants) ==>
              |variants| <= |r| && r[..|variants|] == variants &&
              r[|variants|..] == Filter(product.variants, NotAmong(variants))
  {
    ProductAssign(product, HasAllVariantsSelected(product.variants, variants), variants)
  }

  /**
    `handleVariantAssign`, given the variant's flag from the grid: a selected
    variant is removed (every entry with its id), an unselected one appended.
   */
  function VariantAssign(variant: Variant, selected: bool, variants: seq<Variant>): (r: seq<Variant>)
    ensures selected ==> forall v :: v in r <==> v in variants && v.id != variant.id
    ensures !selected ==> |r| == |variants| + 1 && r[..|variants|] == variants && r[|variants|] == variant
  {
    if selected then Filter(variants, UnmatchingId(variant.id))
    else variants + [variant]
  }

  /**
    The variant toggle as the dialog performs it, with the flag the grid
    shows: a selected variant loses every entry with its id, an unselected one
    is appended.
   */
  function ToggleVariant(variant: Variant, variants: seq<Variant>): (r: seq<Variant>)
    ensures variant.id in Ids(variants) ==> forall v :: v in r <==> v in variants && v.id != variant.id
    ensures variant.id !in Ids(variants) ==> r == variants + [variant]
  {
    VariantAssign(variant, IsVariantSelected(variant, variants), variants)
  }

  // ---------------------------------------------------------------------
  // Properties of the toggles

  /**
    Toggling a product changes the selected ids to the old ones minus the
    product's ids when it was fully selected, and plus them otherwise.
   */
  lemma ToggleProductIds(product: Product, variants: seq<Variant>)
    ensures HasAllVariantsSelected(product.variants, variants) ==>
              Ids(ToggleProduct(product, variants)) == Ids(variants) - Ids(product.variants)
    ensures !HasAllVariantsSelected(product.variants, variants) ==>
              Ids(ToggleProduct(product, variants)) == Ids(variants) + Ids(product.variants)
  {}

  /** After toggling a product that was not fully selected, it is fully selected. */
  lemma ToggleProductSelectsAll(product: Product, variants: seq<Variant>)
    requires !HasAllVariantsSelected(product.variants, variants)
    ensures HasAllVariantsSelected(product.variants, ToggleProduct(product, variants))
  {}

  /** After toggling a fully selected product, none of its variants is selected. */
  lemma ToggleProductDeselectsAll(product: Product, variants: seq<Variant>)
    requires HasAllVariantsSelected(product.variants, variants)
    ensures forall v :: v in product.variants ==> !IsVariantSelected(v, ToggleProduct(product, variants))
  {}

  /** Removing entries keeps a duplicate-free list duplicate-free. */
  lemma FilterNoDuplicateIds(variants: seq<Variant>, keep: Variant -> bool)
    requires NoDuplicateIds(variants)
    ensures NoDuplicateIds(Filter(variants, keep))
    decreases |variants|
  {
    if |variants| > 0 {
      var rest := Filter(variants[1..], keep);
      FilterNoDuplicateIds(variants[1..], keep);
      if keep(variants[0]) {
        forall v | v in rest ensures v.id != variants[0].id {
          var k :| 0 <= k < |variants| - 1 && variants[1..][k] == v;
          assert variants[k + 1] == v;
        }
        NoDuplicateIdsCons(variants[0], rest);
      }
    }
  }

  lemma NoDuplicateIdsCons(head: Variant, tail: seq<Variant>)
    requires NoDuplicateIds(tail)
    requires forall v :: v in tail ==> v.id != head.id
    ensures NoDuplicateIds([head] + tail)
  {}

  /** Two duplicate-free lists with disjoint ids concatenate to a duplicate-free list. */
  lemma NoDuplicateIdsAppend(xs: seq<Variant>, ys: seq<Variant>)
    requires NoDuplicateIds(xs) && NoDuplicateIds(ys)
    requires Ids(xs) !! Ids(ys)
    ensures NoDuplicateIds(xs + ys)
  {
    var s := xs + ys;
    forall i, j | 0 <= i < j < |s| ensures s[i].id != s[j].id {
      if j >= |xs| {
        assert s[j] == ys[j - |xs|];
        IdsAt(ys, j - |xs|);
        if i < |xs| {
          IdsAt(xs, i);
        } else {
          assert s[i] == ys[i - |xs|];
        }
      }
    }
  }

  /**
    Toggling a product introduces no duplicate ids, given a duplicate-free
    selection and a product whose variants have distinct ids.
   */
  lemma ToggleProductNoDuplicateIds(product: Product, variants: seq<Variant>)
    requires NoDuplicateIds(variants) && NoDuplicateIds(product.variants)
    ensures NoDuplicateIds(ToggleProduct(product, variants))
  {
    if HasAllVariantsSelected(product.variants, variants) {
      FilterNoDuplicateIds(variants, NotAmong(product.variants));
    } else {
      var pick := NotAmong(variants);
      var added := Filter(product.variants, pick);
      FilterNoDuplicateIds(product.variants, pick);
      forall id | id in Ids(added) ensures id !in Ids(variants) {
        var v :| v in added && v.id == id;
      }
      NoDuplicateIdsAppend(variants, added);
    }
  }

  /**
    Selecting a product none of whose variants is selected, then toggling it
    again, gives back exactly the original selection.
   */
  lemma ToggleProductRoundTrip(product: Product, variants: seq<Variant>)
    requires Ids(variants) !! Ids(product.variants)
    ensures ToggleProduct(product, ToggleProduct(product, variants)) == variants
  {
    KeepsDisjoint(product.variants, variants);
    if HasAllVariantsSelected(product.variants, variants) {
      // Only a product without variants is fully selected here.
      assert ToggleProduct(product, variants) == variants;
    } else {
      ToggleProductSelectsAll(product, variants);
      RemoveAfterAdd(product, variants);
    }
  }

  /** The removal filter takes back exactly what the adding branch appended. */
  lemma RemoveAfterAdd(product: Product, variants: seq<Variant>)
    requires Filter(variants, NotAmong(product.variants)) == variants
    ensures ProductAssign(product, true, ProductAssign(product, false, variants)) == variants
  {
    var keep := NotAmong(product.variants);
    var added := Filter(product.variants, NotAmong(variants));
    assert ProductAssign(product, false, variants) == variants + added;
    FilterAppend(variants, added, keep);
    forall v | v in added ensures !keep(v) {
      assert v.id in Ids(product.variants);
    }
    FilterDropsAll(added, keep);
  }

  /** Entries whose ids are disjoint from the product's all survive its removal filter. */
  lemma KeepsDisjoint(productVariants: seq<Variant>, variants: seq<Variant>)
    requires Ids(variants) !! Ids(productVariants)
    ensures Filter(variants, NotAmong(productVariants)) == variants
  {}

  /** Toggling a fully selected product twice keeps the set of selected ids. */
  lemma ToggleProductTwiceKeepsIds(product: Product, variants: seq<Variant>)
    requires HasAllVariantsSelected(product.variants, variants)
    ensures Ids(ToggleProduct(product, ToggleProduct(product, variants))) == Ids(variants)
  {}

  /** Toggling a variant flips whether it is selected and adds or removes exactly its id. */
  lemma ToggleVariantIds(variant: Variant, variants: seq<Variant>)
    ensures IsVariantSelected(variant, variants) ==>
              Ids(ToggleVariant(variant, variants)) == Ids(variants) - {variant.id}
    ensures !IsVariantSelected(variant, variants) ==>
              Ids(ToggleVariant(variant, variants)) == Ids(variants) + {variant.id}
    ensures IsVariantSelected(variant, ToggleVariant(variant, variants)) == !IsVariantSelected(variant, variants)
  {}

  /** The variant toggle keeps a duplicate-free selection duplicate-free. */
  lemma ToggleVariantNoDuplicateIds(variant: Variant, variants: seq<Variant>)
    requires NoDuplicateIds(variants)
    ensures NoDuplicateIds(ToggleVariant(variant, variants))
  {
    if IsVariantSelected(variant, variants) {
      FilterNoDuplicateIds(variants, UnmatchingId(variant.id));
    } else {
      assert Ids([variant]) == {variant.id};
      NoDuplicateIdsAppend(variants, [variant]);
    }
  }

  /** Ticking an unselected variant and unticking it again restores the exact selection. */
  lemma ToggleVariantTwiceUnselected(variant: Variant, variants: seq<Variant>)
    requires !IsVariantSelected(variant, variants)
    ensures ToggleVariant(variant, ToggleVariant(variant, variants)) == variants
  {
    var keep := UnmatchingId(variant.id);
    ToggleVariantIds(variant, variants);
    FilterAppend(variants, [variant], keep);
    forall v | v in variants ensures keep(v) {
      IdsIndex(variants, v.id);
      var k :| 0 <= k < |variants| && variants[k] == v;
      IdsAt(variants, k);
    }
    FilterKeepsAll(variants, keep);
    FilterDropsAll([variant], keep);
  }

  /** Unticking a selected variant and ticking it again keeps the set of selected ids. */
  lemma ToggleVariantTwiceSelected(variant: Variant, variants: seq<Variant>)
    requires IsVariantSelected(variant, variants)
    ensures Ids(ToggleVariant(variant, ToggleVariant(variant, variants))) == Ids(variants)
  {}

  /** The variant toggle leaves every entry with another id in place, in order. */
  lemma ToggleVariantKeepsOthers(variant: Variant, xs: seq<Variant>, ys: seq<Variant>)
    requires IsVariantSelected(variant, xs + ys)
    ensures ToggleVariant(variant, xs + ys) ==
            Filter(xs, UnmatchingId(variant.id)) + Filter(ys, UnmatchingId(variant.id))
  {
    FilterAppend(xs, ys, UnmatchingId(variant.id));
  }

  /** Deselecting a product leaves every entry of other products in place, in order. */
  lemma ToggleProductKeepsOthers(product: Product, xs: seq<Variant>, ys: seq<Variant>)
    requires HasAllVariantsSelected(product.variants, xs + ys)
    ensures ToggleProduct(product, xs + ys) ==
            Filter(xs, NotAmong(product.variants)) + Filter(ys, NotAmong(product.variants))
  {
    FilterAppend(xs, ys, NotAmong(product.variants));
  }

  /**
    Selecting a product appends its missing variants in the product's own
    order: the product's variant list splits into the same pieces.
   */
  lemma ToggleProductAddsInOrder(product: Product, variants: seq<Variant>, xs: seq<Variant>, ys: seq<Variant>)
    requires product.variants == xs + ys
    requires !HasAllVariantsSelected(product.variants, variants)
    ensures ToggleProduct(product, variants) ==
            variants + Filter(xs, NotAmong(variants)) + Filter(ys, NotAmong(variants))
  {
    var r := ToggleProduct(product, variants);
    FilterAppend(xs, ys, NotAmong(variants));
    assert r == r[..|variants|] + r[|variants|..];
  }

  // ---------------------------------------------------------------------
  // The two scenarios the dialog is expected to follow

  lemma SelectRemainingVariantsScenario()
    ensures var v1, v2 := Variant("v1", "", ""), Variant("v2", "", "");
            var p := Product("p1", "", [v1, v2]);
            !HasAllVariantsSelected(p.variants, [v1]) && ToggleProduct(p, [v1]) == [v1, v2]
  {
    var v1, v2 := Variant("v1", "", ""), Variant("v2", "", "");
    var p := Product("p1", "", [v1, v2]);
    assert IsVariantSelected(v1, [v1]) && !IsVariantSelected(v2, [v1]) by {
      assert Ids([v1]) == {"v1"};
    }
    assert [v1, v2][1..] == [v2];
    assert Filter([v2], NotAmong([v1])) == [v2] by {
      assert [v2][1..] == [];
    }
    assert Filter(p.variants, NotAmong([v1])) == [v2];
  }

  lemma DeselectProductScenario()
    ensures var v1, v2 := Variant("v1", "", ""), Variant("v2", "", "");
            var p := Product("p1", "", [v1, v2]);
            HasAllVariantsSelected(p.variants, [v1, v2]) && ToggleProduct(p, [v1, v2]) == []
  {
    var v1, v2 := Variant("v1", "", ""), Variant("v2", "", "");
    var p := Product("p1", "", [v1, v2]);
    assert HasAllVariantsSelected(p.variants, [v1, v2]);
    assert IsVariantSelected(v1, p.variants) && IsVariantSelected(v2, p.variants);
    FilterDropsAll([v1, v2], NotAmong(p.variants));
  }

  // ---------------------------------------------------------------------
  // The dialog's state

  /** The dialog component: its only state is the selection, `variants`. */
  class AssignVariantDialog {
    var variants: seq<Variant>

    /** The selection starts empty. */
    constructor ()
      ensures variants == []
    {
      variants := [];
    }

    /**
      The product row's checkbox handler, for the `productIndex`-th product
      choice of the `products` currently shown.
     */
    method HandleProductAssign(products: seq<Product>, productIndex: nat)
      requires productIndex < |ProductChoices(products)|
      modifies this
      ensures variants == ToggleProduct(ProductChoices(products)[productIndex], old(variants))
      ensures NoDuplicateIds(old(variants)) && NoDuplicateIds(ProductChoices(products)[productIndex].variants) ==>
                NoDuplicateIds(variants)
    {
      var choices := ProductChoices(products);
      var flags := ProductsWithAllVariantsSelected(choices, variants);
      if NoDuplicateIds(variants) && NoDuplicateIds(choices[productIndex].variants) {
        ToggleProductNoDuplicateIds(choices[productIndex], variants);
      }
      variants := ProductAssign(choices[productIndex], flags[productIndex], variants);
    }

    /**
      The variant row's checkbox handler, for variant `variantIndex` of the
      `productIndex`-th product choice.
     */
    method HandleVariantAssign(products: seq<Product>, productIndex: nat, variantIndex: nat)
      requires productIndex < |ProductChoices(products)|
      requires variantIndex < |ProductChoices(products)[productIndex].variants|
      modifies this
      ensures variants == ToggleVariant(ProductChoices(products)[productIndex].variants[variantIndex], old(variants))
      ensures NoDuplicateIds(old(variants)) ==> NoDuplicateIds(variants)
    {
      var choices := ProductChoices(products);
      var variant := choices[productIndex].variants[variantIndex];
      var grid := SelectedVariantsGrid(choices, variants);
      if NoDuplicateIds(variants) {
        ToggleVariantNoDuplicateIds(variant, variants);
      }
      variants := VariantAssign(variant, grid[productIndex][variantIndex], variants);
    }

    /**
      `handleSubmit`: the confirm button is never disabled, so any selection,
      the empty one included, is handed to `onSubmit` as it stands.
     */
    method HandleSubmit() returns (submitted: seq<Variant>)
      ensures submitted == variants
    {
      submitted := variants;
    }
  }
}
