/**
 The materials tab of the controller: adding a material from the form and
 deleting the selected one.
 */
module Materials {
  import opened Store
  import opened Validation

  /** `materiales_agregar_material`: check the form, refuse a description already
      in use (compared exactly, case included), otherwise insert one new row. */
  function AddMaterial(s: Store, f: MaterialForm): (r: Step)
    ensures r.outcome == Done <==> CheckMaterialForm(f) == Done && !HasMaterialNamed(s.materials, f.description)
    ensures CheckMaterialForm(f).Refused? ==> r.outcome == CheckMaterialForm(f)
    ensures CheckMaterialForm(f) == Done && HasMaterialNamed(s.materials, f.description) ==>
              r.outcome == Refused(Duplicate)
    ensures r.outcome.Refused? ==> r.store == s
    ensures r.outcome == Done ==>
              var id := FreshId(s.materials.Keys);
              && id !in s.materials
              && r.store.materials ==
                   s.materials[id := Material(f.description, f.stock.value, f.reorderLevel.value, f.leadTime.value)]
              && |r.store.materials| == |s.materials| + 1
    ensures r.store.products == s.products && r.store.bom == s.bom
  {
    var checked := CheckMaterialForm(f);
    if checked.Refused? then Step(s, checked)
    else if HasMaterialNamed(s.materials, f.description) then Step(s, Refused(Duplicate))
    else
      var id := FreshId(s.materials.Keys);
      var row := Material(f.description, f.stock.value, f.reorderLevel.value, f.leadTime.value);
      Step(s.(materials := s.materials[id := row]), Done)
  }

  /** `materiales_eliminar_material`: needs a selection, refuses while any line
      references the material, asks for confirmation, then deletes that row. */
  function DeleteMaterial(s: Store, selected: Selection, confirm: bool): (r: Step)
    ensures selected.description == "" ==> r.outcome == Refused(NothingSelected)
    ensures selected.description != "" && (exists i :: 0 <= i < |s.bom| && s.bom[i].material == selected.id) ==>
              r.outcome == Refused(InUse)
    ensures r.outcome == Done <==>
              selected.description != "" && confirm
              && forall i :: 0 <= i < |s.bom| ==> s.bom[i].material != selected.id
    ensures r.outcome.Refused? ==> r.store == s
    ensures r.outcome == Done ==>
              && r.store.materials.Keys == s.materials.Keys - {selected.id}
              && (forall id :: id in r.store.materials ==> r.store.materials[id] == s.materials[id])
    ensures r.store.products == s.products && r.store.bom == s.bom
  {
    if selected.description == "" then Step(s, Refused(NothingSelected))
    else if CountUses(s.bom, selected.id) > 0 then Step(s, Refused(InUse))
    else if !confirm then Step(s, Refused(NotConfirmed))
    else Step(s.(materials := s.materials - {selected.id}), Done)
  }

  /* ---------------------------------------------------------------------- */
  /* Invariant and round trip                                                */
  /* ---------------------------------------------------------------------- */

  lemma AddMaterialKeepsConsistent(s: Store, f: MaterialForm)
    requires Consistent(s)
    ensures Consistent(AddMaterial(s, f).store)
  {
    var r := AddMaterial(s, f);
    if r.outcome == Done {
      var id := FreshId(s.materials.Keys);
      var m := r.store.materials;
      forall a, b | a in m && b in m && a != b
        ensures m[a].description != m[b].description
      {
        if a == id {
          assert m[b] == s.materials[b];
        } else if b == id {
          assert m[a] == s.materials[a];
        }
      }
    }
  }

  /** A material the form lets through has a description and no zero field. */
  lemma AddedMaterialPassedTheForm(s: Store, f: MaterialForm)
    requires AddMaterial(s, f).outcome == Done
    ensures var m := AddMaterial(s, f).store.materials[FreshId(s.materials.Keys)];
            && m.description != "" && m.stock != 0 && m.reorderLevel != 0 && m.leadTime != 0
            && !HasMaterialNamed(s.materials, m.description)
  {
  }

  lemma DeleteMaterialKeepsConsistent(s: Store, selected: Selection, confirm: bool)
    requires Consistent(s)
    ensures Consistent(DeleteMaterial(s, selected, confirm).store)
  {
  }

  /** Deleting a material right after adding it gives back the store as it was,
      unless some line already names the new id (which only a line pointing at a
      missing material can do); then the delete is refused as in use. */
  lemma AddThenDeleteMaterial(s: Store, f: MaterialForm)
    requires AddMaterial(s, f).outcome == Done
    ensures var id := FreshId(s.materials.Keys);
            var s1 := AddMaterial(s, f).store;
            DeleteMaterial(s1, Selection(id, f.description), true)
            == if exists i :: 0 <= i < |s.bom| && s.bom[i].material == id then Step(s1, Refused(InUse)) else Step(s, Done)
    ensures (forall i :: 0 <= i < |s.bom| ==> s.bom[i].material in s.materials) ==>
              DeleteMaterial(AddMaterial(s, f).store, Selection(FreshId(s.materials.Keys), f.description), true) == Step(s, Done)
  {
    var id := FreshId(s.materials.Keys);
    var s1 := AddMaterial(s, f).store;
    assert s1.bom == s.bom;
    assert s1.materials - {id} == s.materials;
  }
}
