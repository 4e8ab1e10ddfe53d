/**
 The products tab of the controller: adding and deleting products, listing
 the materials a product uses, and associating or disassociating a material.
 */
module Products {
  import opened Store

  /** `productos_agregar_producto`: a description is required and must not be
      in use already (compared exactly); otherwise one new row is inserted. */
  function AddProduct(s: Store, description: string): (r: Step)
    ensures description == "" ==> r.outcome == Refused(EmptyDescription)
    ensures description != "" && HasProductNamed(s.products, description) ==> r.outcome == Refused(Duplicate)
    ensures r.outcome == Done <==> description != "" && !HasProductNamed(s.products, description)
    ensures r.outcome.Refused? ==> r.store == s
    ensures r.outcome == Done ==>
              var id := FreshId(s.products.Keys);
              && id !in s.products
              && r.store.products == s.products[id := description]
              && |r.store.products| == |s.products| + 1
    ensures r.store.materials == s.materials && r.store.bom == s.bom
  {
    if |description| == 0 then Step(s, Refused(EmptyDescription))
    else if HasProductNamed(s.products, description) then Step(s, Refused(Duplicate))
    else Step(s.(products := s.products[FreshId(s.products.Keys) := description]), Done)
  }

  /** `productos_eliminar_producto`: needs a selection and a confirmation; first
      the product's lines go, then the product row. */
  function DeleteProduct(s: Store, selected: Selection, confirm: bool): (r: Step)
    ensures selected.description == "" ==> r.outcome == Refused(NothingSelected)
    ensures r.outcome == Done <==> selected.description != "" && confirm
    ensures r.outcome.Refused? ==> r.store == s
    ensures r.outcome == Done ==>
              && r.store.products.Keys == s.products.Keys - {selected.id}
              && (forall id :: id in r.store.products ==> r.store.products[id] == s.products[id])
              && (forall l :: l in r.store.bom <==> l in s.bom && l.product != selected.id)
              && (forall l :: multiset(r.store.bom)[l] == if l.product == selected.id then 0 else multiset(s.bom)[l])
    ensures r.store.materials == s.materials
  {
    if selected.description == "" then Step(s, Refused(NothingSelected))
    else if !confirm then Step(s, Refused(NotConfirmed))
    else
      var lines := Filter(s.bom, NotOfProduct(selected.id));
      FilterCounts(s.bom, NotOfProduct(selected.id));
      Step(Store(s.materials, s.products - {selected.id}, lines), Done)
  }

  /** Deleting a product leaves the other products' lines in their original order. */
  lemma DeleteProductKeepsOrder(s: Store, selected: Selection, confirm: bool)
    requires DeleteProduct(s, selected, confirm).outcome == Done
    ensures var bom := DeleteProduct(s, selected, confirm).store.bom;
            var kept := KeptPositions(s.bom, NotOfProduct(selected.id));
            |bom| == |kept| && forall k :: 0 <= k < |kept| ==> bom[k] == s.bom[kept[k]]
  {
    FilterSelectsKeptPositions(s.bom, NotOfProduct(selected.id));
  }

  /* ---------------------------------------------------------------------- */
  /* The materials a product uses                                            */
  /* ---------------------------------------------------------------------- */

  /** One row of the product's material list: material id, its description, units per product. */
  datatype Listed = Listed(material: Id, description: string, quantity: int)

  /** `productos_mostrar_materiales_asociados`: the product's lines joined with their materials. */
  function AssociatedMaterials(s: Store, pid: Id): (r: seq<Listed>)
    ensures |r| == |ProductLines(s, pid)|
    ensures forall i :: 0 <= i < |r| ==>
              && r[i].material in s.materials
              && r[i].description == s.materials[r[i].material].description
              && Line(r[i].material, pid, r[i].quantity) in s.bom
    ensures forall l :: l in s.bom && l.product == pid && l.material in s.materials ==>
              Listed(l.material, s.materials[l.material].description, l.quantity) in r
  {
    var lines := ProductLines(s, pid);
    var r := seq(|lines|, i requires 0 <= i < |lines| =>
      Listed(lines[i].material, s.materials[lines[i].material].description, lines[i].quantity));
    assert forall i :: 0 <= i < |lines| ==> lines[i] in s.bom && lines[i] == Line(r[i].material, pid, r[i].quantity);
    assert forall l :: l in lines ==> exists i :: 0 <= i < |lines| && lines[i] == l && r[i] == Listed(l.material, s.materials[l.material].description, l.quantity);
    r
  }

  /** Some line of `pid` uses a material described `d`: what the duplicate check
      finds when it scans the product's material list. */
  predicate Uses(s: Store, pid: Id, d: string) {
    exists l :: l in s.bom && l.product == pid && l.material in s.materials && s.materials[l.material].description == d
  }

  lemma ListedIffUses(s: Store, pid: Id, d: string)
    ensures (exists i :: 0 <= i < |AssociatedMaterials(s, pid)| && AssociatedMaterials(s, pid)[i].description == d)
            <==> Uses(s, pid, d)
  {
    var listed := AssociatedMaterials(s, pid);
    if Uses(s, pid, d) {
      var l :| l in s.bom && l.product == pid && l.material in s.materials && s.materials[l.material].description == d;
      var x := Listed(l.material, d, l.quantity);
      assert x in listed;
      var i :| 0 <= i < |listed| && listed[i] == x;
    }
    if exists i :: 0 <= i < |listed| && listed[i].description == d {
      var i :| 0 <= i < |listed| && listed[i].description == d;
      var l := Line(listed[i].material, pid, listed[i].quantity);
      assert l in s.bom && l.material in s.materials && s.materials[l.material].description == d;
    }
  }

  /** The checks `productos_asociar_material` makes before it looks the material up. */
  predicate AssociateGetsToLookup(s: Store, product: Selection, material: Option<string>, quantity: int, confirm: bool) {
    product.description != "" && material.Some? && quantity != 0 && !Uses(s, product.id, material.value) && confirm
  }

  /** `productos_asociar_material` with `productos_asociar_material_a_producto`:
      a product and a material must be selected and the quantity non-zero; a
      material the product's list already shows (by description) is refused;
      after confirmation exactly one line is appended. */
  function AssociateMaterial(s: Store, product: Selection, material: Option<string>, quantity: int, confirm: bool): (r: Step)
    requires AssociateGetsToLookup(s, product, material, quantity, confirm) ==> HasMaterialNamed(s.materials, material.value)
    ensures product.description == "" || material.None? ==> r.outcome == Refused(NothingSelected)
    ensures product.description != "" && material.Some? && quantity != 0 && Uses(s, product.id, material.value) ==>
              r.outcome == Refused(AlreadyAssociated)
    ensures r.outcome == Done <==> AssociateGetsToLookup(s, product, material, quantity, confirm)
    ensures r.outcome.Refused? ==> r.store == s
    ensures r.outcome == Done ==>
              && r.store.bom == s.bom + [Line(MaterialIdOf(s.materials, material.value), product.id, quantity)]
              && s.materials[r.store.bom[|s.bom|].material].description == material.value
    ensures r.store.materials == s.materials && r.store.products == s.products
  {
    if product.description == "" || material.None? then Step(s, Refused(NothingSelected))
    else if quantity == 0 then Step(s, Refused(ZeroValue))
    else if Uses(s, product.id, material.value) then Step(s, Refused(AlreadyAssociated))
    else if !confirm then Step(s, Refused(NotConfirmed))
    else
      var mid := MaterialIdOf(s.materials, material.value);
      Step(s.(bom := s.bom + [Line(mid, product.id, quantity)]), Done)
  }

  /** `productos_desasociar_material` with `productos_desasociar_material_del_producto`:
      a material must be selected in the list; after confirmation every line
      pairing it with the product is deleted. */
  function DisassociateMaterial(s: Store, product: Selection, material: Option<string>, confirm: bool): (r: Step)
    requires material.Some? && confirm ==> HasMaterialNamed(s.materials, material.value)
    ensures material.None? ==> r.outcome == Refused(NothingSelected)
    ensures r.outcome == Done <==> material.Some? && confirm
    ensures r.outcome.Refused? ==> r.store == s
    ensures r.outcome == Done ==>
              var mid := MaterialIdOf(s.materials, material.value);
              && (forall l :: l in r.store.bom <==> l in s.bom && !(l.material == mid && l.product == product.id))
              && (forall l :: multiset(r.store.bom)[l] ==
                    if l.material == mid && l.product == product.id then 0 else multiset(s.bom)[l])
    ensures |r.store.bom| <= |s.bom|
    ensures r.store.materials == s.materials && r.store.products == s.products
  {
    if material.None? then Step(s, Refused(NothingSelected))
    else if !confirm then Step(s, Refused(NotConfirmed))
    else
      var mid := MaterialIdOf(s.materials, material.value);
      FilterCounts(s.bom, NotPair(mid, product.id));
      Step(s.(bom := Filter(s.bom, NotPair(mid, product.id))), Done)
  }

  /** Disassociating leaves every other line in its original order. */
  lemma DisassociateKeepsOrder(s: Store, product: Selection, material: Option<string>, confirm: bool)
    requires material.Some? && confirm ==> HasMaterialNamed(s.materials, material.value)
    requires DisassociateMaterial(s, product, material, confirm).outcome == Done
    ensures var bom := DisassociateMaterial(s, product, material, confirm).store.bom;
            var kept := KeptPositions(s.bom, NotPair(MaterialIdOf(s.materials, material.value), product.id));
            |bom| == |kept| && forall k :: 0 <= k < |kept| ==> bom[k] == s.bom[kept[k]]
  {
    FilterSelectsKeptPositions(s.bom, NotPair(MaterialIdOf(s.materials, material.value), product.id));
  }

  /* ---------------------------------------------------------------------- */
  /* Invariant                                                               */
  /* ---------------------------------------------------------------------- */

  lemma AddProductKeepsConsistent(s: Store, description: string)
    requires Consistent(s)
    ensures Consistent(AddProduct(s, description).store)
  {
    var r := AddProduct(s, description);
    if r.outcome == Done {
      var id := FreshId(s.products.Keys);
      var p := r.store.products;
      forall a, b | a in p && b in p && a != b ensures p[a] != p[b] {
        if a == id {
          assert p[b] == s.products[b];
        } else if b == id {
          assert p[a] == s.products[a];
        }
      }
      assert LinesResolve(r.store) by {
        forall i | 0 <= i < |s.bom| ensures s.bom[i].product in p {
        }
      }
    }
  }

  lemma DeleteProductKeepsConsistent(s: Store, selected: Selection, confirm: bool)
    requires Consistent(s)
    ensures Consistent(DeleteProduct(s, selected, confirm).store)
  {
    var r := DeleteProduct(s, selected, confirm);
    if r.outcome == Done {
      var keep := NotOfProduct(selected.id);
      var lines := Filter(s.bom, keep);
      assert r.store == Store(s.materials, s.products - {selected.id}, lines);
      FilterKeepsUniquePairs(s.bom, keep);
      forall i | 0 <= i < |lines|
        ensures lines[i].material in s.materials && lines[i].product in s.products - {selected.id}
      {
        assert keep(lines[i]) && lines[i] in s.bom;
      }
    }
  }

  /** Whatever the selected product id, the duplicate check keeps (material,
      product) pairs unique: a line already pairing the looked-up material with
      the product would show that description in the product's list. */
  lemma AssociateKeepsUniquePairs(s: Store, product: Selection, material: Option<string>, quantity: int, confirm: bool)
    requires UniquePairs(s.bom)
    requires AssociateGetsToLookup(s, product, material, quantity, confirm) ==> HasMaterialNamed(s.materials, material.value)
    ensures UniquePairs(AssociateMaterial(s, product, material, quantity, confirm).store.bom)
  {
    var r := AssociateMaterial(s, product, material, quantity, confirm);
    if r.outcome == Done {
      var added := r.store.bom[|s.bom|];
      forall i | 0 <= i < |s.bom| ensures !SamePair(s.bom[i], added) {
        assert s.bom[i] in s.bom;
      }
      assert forall i :: 0 <= i < |s.bom| ==> r.store.bom[i] == s.bom[i];
    }
  }

  /** With no product selected the form still holds id 0; a description typed
      into the product field gets past the selection check, and the new line
      then names a product that does not exist. */
  lemma AssociateWithoutProductLeavesDanglingLine()
    ensures var s := Store(map[1 := Material("Bolt", 5, 10, 3)], map[], []);
            && Consistent(s) && HasMaterialNamed(s.materials, "Bolt")
            && var r := AssociateMaterial(s, Selection(0, "typed"), Some("Bolt"), 2, true);
               r.outcome == Done && !LinesResolve(r.store)
  {
    var s := Store(map[1 := Material("Bolt", 5, 10, 3)], map[], []);
    assert s.materials[1].description == "Bolt";
    assert !Uses(s, 0, "Bolt");
  }

  lemma AssociateKeepsConsistent(s: Store, product: Selection, material: Option<string>, quantity: int, confirm: bool)
    requires Consistent(s)
    requires product.id in s.products
    requires AssociateGetsToLookup(s, product, material, quantity, confirm) ==> HasMaterialNamed(s.materials, material.value)
    ensures Consistent(AssociateMaterial(s, product, material, quantity, confirm).store)
  {
    var r := AssociateMaterial(s, product, material, quantity, confirm);
    if r.outcome == Done {
      var added := r.store.bom[|s.bom|];
      forall i | 0 <= i < |s.bom| ensures !SamePair(s.bom[i], added) {
        assert s.bom[i] in s.bom;
      }
      assert forall i :: 0 <= i < |s.bom| ==> r.store.bom[i] == s.bom[i];
    }
  }

  lemma DisassociateKeepsConsistent(s: Store, product: Selection, material: Option<string>, confirm: bool)
    requires Consistent(s)
    requires material.Some? && confirm ==> HasMaterialNamed(s.materials, material.value)
    ensures Consistent(DisassociateMaterial(s, product, material, confirm).store)
  {
    var r := DisassociateMaterial(s, product, material, confirm);
    if r.outcome == Done {
      var mid := MaterialIdOf(s.materials, material.value);
      FilterKeepsUniquePairs(s.bom, NotPair(mid, product.id));
      forall i | 0 <= i < |r.store.bom|
        ensures r.store.bom[i].material in r.store.materials && r.store.bom[i].product in r.store.products
      {
        var l := r.store.bom[i];
        assert l in s.bom;
        var k :| 0 <= k < |s.bom| && s.bom[k] == l;
      }
    }
  }

  /* ---------------------------------------------------------------------- */
  /* What the list shows afterwards, and round trips                         */
  /* ---------------------------------------------------------------------- */

  /** After an association the product's list shows the material with its quantity. */
  lemma AssociatedIsListed(s: Store, product: Selection, material: Option<string>, quantity: int, confirm: bool)
    requires AssociateGetsToLookup(s, product, material, quantity, confirm) ==> HasMaterialNamed(s.materials, material.value)
    requires AssociateMaterial(s, product, material, quantity, confirm).outcome == Done
    ensures Listed(MaterialIdOf(s.materials, material.value), material.value, quantity)
            in AssociatedMaterials(AssociateMaterial(s, product, material, quantity, confirm).store, product.id)
  {
    var s1 := AssociateMaterial(s, product, material, quantity, confirm).store;
    var l := s1.bom[|s.bom|];
    assert l in s1.bom;
  }

  /** When material descriptions are distinct, once a material is disassociated
      the product's list no longer shows it. With two materials of the same
      description only the first is looked up, and the other's line stays. */
  lemma DisassociatedIsNotListed(s: Store, product: Selection, material: Option<string>, confirm: bool)
    requires DistinctMaterialNames(s.materials)
    requires material.Some? && confirm ==> HasMaterialNamed(s.materials, material.value)
    requires DisassociateMaterial(s, product, material, confirm).outcome == Done
    ensures !Uses(DisassociateMaterial(s, product, material, confirm).store, product.id, material.value)
  { }

  /** Once a product is deleted, no line of it is left and its material list is empty. */
  lemma DeletedProductHasNoLines(s: Store, selected: Selection, confirm: bool)
    requires DeleteProduct(s, selected, confirm).outcome == Done
    ensures ProductLines(DeleteProduct(s, selected, confirm).store, selected.id) == []
    ensures AssociatedMaterials(DeleteProduct(s, selected, confirm).store, selected.id) == []
  {
    var s1 := DeleteProduct(s, selected, confirm).store;
    assert forall l :: l in s1.bom ==> l.product != selected.id;
    FilterNoneKept(s1.bom, JoinsProduct(s1.materials, selected.id));
  }

  /** Deleting a product right after adding it restores the products and removes
      only lines that name the new id; when no line does, which holds for every
      line of an existing product or of product 0, the store is as it was. */
  lemma AddThenDeleteProduct(s: Store, description: string)
    requires AddProduct(s, description).outcome == Done
    ensures var id := FreshId(s.products.Keys);
            var r := DeleteProduct(AddProduct(s, description).store, Selection(id, description), true);
            && r.outcome == Done && r.store.products == s.products && r.store.materials == s.materials
            && (forall l :: l in r.store.bom <==> l in s.bom && l.product != id)
    ensures (forall i :: 0 <= i < |s.bom| ==> s.bom[i].product != FreshId(s.products.Keys)) ==>
              DeleteProduct(AddProduct(s, description).store, Selection(FreshId(s.products.Keys), description), true)
              == Step(s, Done)
    ensures (forall i :: 0 <= i < |s.bom| ==> s.bom[i].product in s.products || s.bom[i].product == 0) ==>
              DeleteProduct(AddProduct(s, description).store, Selection(FreshId(s.products.Keys), description), true)
              == Step(s, Done)
  {
    var id := FreshId(s.products.Keys);
    assert s.products[id := description] - {id} == s.products;
    if forall i :: 0 <= i < |s.bom| ==> s.bom[i].product != id {
      FilterKeepsAll(s.bom, NotOfProduct(id));
    }
  }

  /** Disassociating a material right after associating it gives back the store as it was. */
  lemma AssociateThenDisassociate(s: Store, product: Selection, d: string, quantity: int)
    requires HasMaterialNamed(s.materials, d)
    requires AssociateMaterial(s, product, Some(d), quantity, true).outcome == Done
    ensures DisassociateMaterial(AssociateMaterial(s, product, Some(d), quantity, true).store, product, Some(d), true)
            == Step(s, Done)
  {
    var s1 := AssociateMaterial(s, product, Some(d), quantity, true).store;
    var mid := MaterialIdOf(s.materials, d);
    var keep := NotPair(mid, product.id);
    var added := Line(mid, product.id, quantity);
    forall i | 0 <= i < |s.bom| ensures keep(s.bom[i]) {
      assert s.bom[i] in s.bom;
    }
    FilterKeepsAll(s.bom, keep);
    FilterAppend(s.bom, [added], keep);
    assert Filter([added], keep) == [];
  }
}
