/**
 The orders tab of the controller: processing an order for one unit of a
 product (stock check, delay estimate, stock consumption) and the bulk stock
 replenishment sweep.
 */
module Orders {
  import opened Store

  /* ---------------------------------------------------------------------- */
  /* The order join                                                          */
  /* ---------------------------------------------------------------------- */

  /** One row of the order query: a material the product needs, its stock when
      the query ran, the units one product takes, and the material's lead time. */
  datatype OrderRow = OrderRow(material: Id, stock: int, quantity: int, leadTime: int)

  /** Not enough stock of this row's material for one product. */
  predicate Short(row: OrderRow) {
    row.stock < row.quantity
  }

  /** The order query of `pedidos_procesar_pedido`: the product's lines joined
      with `materiales` and `productos`, in bill-of-materials order. */
  function OrderRows(s: Store, pid: Id): (rows: seq<OrderRow>)
    ensures pid !in s.products ==> rows == []
    ensures pid in s.products ==> |rows| == |ProductLines(s, pid)|
    ensures forall i :: 0 <= i < |rows| ==>
              && rows[i].material in s.materials
              && rows[i].stock == s.materials[rows[i].material].stock
              && rows[i].leadTime == s.materials[rows[i].material].leadTime
              && Line(rows[i].material, pid, rows[i].quantity) in s.bom
  {
    if pid !in s.products then []
    else
      var lines := ProductLines(s, pid);
      seq(|lines|, i requires 0 <= i < |lines| =>
        var m := s.materials[lines[i].material];
        OrderRow(lines[i].material, m.stock, lines[i].quantity, m.leadTime))
  }

  /** Every line of an existing product whose material exists yields a row. */
  lemma OrderRowsCoverLines(s: Store, pid: Id, l: Line)
    requires pid in s.products && l in s.bom && l.product == pid && l.material in s.materials
    ensures exists i :: 0 <= i < |OrderRows(s, pid)| && OrderRows(s, pid)[i].material == l.material
              && OrderRows(s, pid)[i].quantity == l.quantity
  {
    var lines := ProductLines(s, pid);
    assert l in lines;
    var i :| 0 <= i < |lines| && lines[i] == l;
    assert OrderRows(s, pid)[i].material == l.material;
  }

  /** When no (material, product) pair repeats, no material appears in two rows. */
  lemma OrderRowsDistinct(s: Store, pid: Id)
    requires UniquePairs(s.bom)
    ensures forall i, j :: 0 <= i < j < |OrderRows(s, pid)| ==> OrderRows(s, pid)[i].material != OrderRows(s, pid)[j].material
  {
    if pid in s.products {
      var lines := ProductLines(s, pid);
      FilterKeepsUniquePairs(s.bom, JoinsProduct(s.materials, pid));
      assert forall i :: 0 <= i < |lines| ==> OrderRows(s, pid)[i].material == lines[i].material;
    }
  }

  /* ---------------------------------------------------------------------- */
  /* Stock check                                                             */
  /* ---------------------------------------------------------------------- */

  /** Whether the order waits for replenishment, and for how many days. */
  datatype Assessment = Assessment(delayed: bool, maxDelay: int)

  /** The first loop of `pedidos_procesar_pedido`: the order is delayed when some
      row is short, and the delay is the largest lead time among short rows,
      starting from 0 (parallel replenishment: the slowest material decides). */
  function Assess(rows: seq<OrderRow>): (a: Assessment)
    ensures a.delayed <==> exists i :: 0 <= i < |rows| && Short(rows[i])
    ensures 0 <= a.maxDelay
    ensures forall i :: 0 <= i < |rows| && Short(rows[i]) ==> rows[i].leadTime <= a.maxDelay
    ensures a.maxDelay == 0 || exists i :: 0 <= i < |rows| && Short(rows[i]) && rows[i].leadTime == a.maxDelay
  {
    if |rows| == 0 then Assessment(false, 0)
    else
      var before := Assess(rows[..|rows| - 1]);
      var row := rows[|rows| - 1];
      assert forall i :: 0 <= i < |rows| - 1 ==> rows[..|rows| - 1][i] == rows[i];
      if Short(row) then
        Assessment(true, if before.maxDelay < row.leadTime then row.leadTime else before.maxDelay)
      else before
  }

  /* ---------------------------------------------------------------------- */
  /* Consumption                                                             */
  /* ---------------------------------------------------------------------- */

  /** Every later row that names the same material as row `i` fails its update,
      so row `i` makes the last write to that material. */
  predicate LastWriteFor(rows: seq<OrderRow>, failing: set<nat>, i: int)
    requires 0 <= i < |rows|
  {
    forall k :: i < k < |rows| && rows[k].material == rows[i].material ==> k in failing
  }

  /** The second loop of `pedidos_procesar_pedido`: each row sets its material's
      stock to the stock the query read minus the units needed, with no floor
      at zero. The UPDATE of a row whose position is in `failing` fails; the
      loop goes on. */
  function Consume(materials: map<Id, Material>, rows: seq<OrderRow>, failing: set<nat>): (m: map<Id, Material>)
    requires forall i :: 0 <= i < |rows| ==> rows[i].material in materials
    ensures m.Keys == materials.Keys
    ensures forall id :: id in materials ==> m[id] == materials[id].(stock := m[id].stock)
  {
    if |rows| == 0 then materials
    else
      var row := rows[|rows| - 1];
      var before := Consume(materials, rows[..|rows| - 1], failing);
      if |rows| - 1 in failing then before
      else before[row.material := before[row.material].(stock := row.stock - row.quantity)]
  }

  /** A material that no successful update reaches keeps its row. */
  lemma {:induction false} ConsumeLeavesOthers(materials: map<Id, Material>, rows: seq<OrderRow>, failing: set<nat>, id: Id)
    requires forall i :: 0 <= i < |rows| ==> rows[i].material in materials
    requires id in materials
    requires forall i :: 0 <= i < |rows| && rows[i].material == id ==> i in failing
    ensures Consume(materials, rows, failing)[id] == materials[id]
    decreases |rows|
  {
    if |rows| > 0 {
      var front := rows[..|rows| - 1];
      assert forall i :: 0 <= i < |front| ==> front[i] == rows[i];
      ConsumeLeavesOthers(materials, front, failing, id);
    }
  }

  /** A material that some update reached holds the value its last row wrote. */
  lemma {:induction false} ConsumeLastWrite(materials: map<Id, Material>, rows: seq<OrderRow>, failing: set<nat>, i: nat)
    requires forall k :: 0 <= k < |rows| ==> rows[k].material in materials
    requires i < |rows| && i !in failing && LastWriteFor(rows, failing, i)
    ensures Consume(materials, rows, failing)[rows[i].material].stock == rows[i].stock - rows[i].quantity
    decreases |rows|
  {
    var front := rows[..|rows| - 1];
    var row := rows[|rows| - 1];
    if i < |front| {
      assert forall k :: 0 <= k < |front| ==> front[k] == rows[k];
      assert LastWriteFor(front, failing, i);
      ConsumeLastWrite(materials, front, failing, i);
    }
  }

  /* ---------------------------------------------------------------------- */
  /* Processing an order                                                     */
  /* ---------------------------------------------------------------------- */

  /** The store after an order, what was reported, and the stock check shown to the user. */
  datatype OrderStep = OrderStep(store: Store, outcome: Outcome, delayed: bool, maxDelay: int)

  /** `pedidos_procesar_pedido`: a product must be chosen; its id is looked up by
      description; if the order is delayed the user sees the delay and may
      decline, which changes nothing; otherwise the stock of every material the
      product uses is decremented. */
  function ProcessOrder(s: Store, choice: Option<string>, acceptDelay: bool, failing: set<nat>): (r: OrderStep)
    requires choice.Some? ==> HasProductNamed(s.products, choice.value)
    ensures choice.None? ==> r == OrderStep(s, Refused(NothingSelected), false, 0)
    ensures r.outcome.Refused? ==> r.store == s
    ensures choice.Some? ==> (r.outcome == Refused(NotConfirmed) <==> r.delayed && !acceptDelay)
    ensures choice.Some? ==> (r.outcome == Done <==> !r.delayed || acceptDelay)
    ensures !r.delayed ==> r.maxDelay == 0
    ensures r.store.products == s.products && r.store.bom == s.bom
    ensures r.store.materials.Keys == s.materials.Keys
    ensures forall id :: id in s.materials ==>
              && r.store.materials[id].description == s.materials[id].description
              && r.store.materials[id].reorderLevel == s.materials[id].reorderLevel
              && r.store.materials[id].leadTime == s.materials[id].leadTime
  {
    match choice
    case None => OrderStep(s, Refused(NothingSelected), false, 0)
    case Some(name) =>
      var pid := ProductIdOf(s.products, name);
      var rows := OrderRows(s, pid);
      var a := Assess(rows);
      if a.delayed && !acceptDelay then OrderStep(s, Refused(NotConfirmed), true, a.maxDelay)
      else OrderStep(s.(materials := Consume(s.materials, rows, failing)), Done, a.delayed, a.maxDelay)
  }

  /** A line of product `pid` whose material's stock is below the line's quantity. */
  predicate ShortLine(s: Store, pid: Id, l: Line) {
    l in s.bom && l.product == pid && l.material in s.materials && s.materials[l.material].stock < l.quantity
  }

  /** Each short line of an existing product has a short row with its material's lead time. */
  lemma ShortLineHasShortRow(s: Store, pid: Id, l: Line)
    requires pid in s.products && ShortLine(s, pid, l)
    ensures exists i :: 0 <= i < |OrderRows(s, pid)| && Short(OrderRows(s, pid)[i])
              && OrderRows(s, pid)[i].leadTime == s.materials[l.material].leadTime
  {
    OrderRowsCoverLines(s, pid, l);
  }

  /** Each short row comes from a short line of the product. */
  lemma ShortRowHasShortLine(s: Store, pid: Id, i: nat)
    requires i < |OrderRows(s, pid)| && Short(OrderRows(s, pid)[i])
    ensures var row := OrderRows(s, pid)[i];
            ShortLine(s, pid, Line(row.material, pid, row.quantity))
            && s.materials[row.material].leadTime == row.leadTime
  {
  }

  /** The delay reported for a chosen product is decided by its lines alone: the
      order is delayed exactly when some line is short, the delay is at least
      the lead time of every short line's material, and it is 0 or one of them. */
  lemma OrderDelay(s: Store, name: string, acceptDelay: bool, failing: set<nat>)
    requires HasProductNamed(s.products, name)
    ensures var r := ProcessOrder(s, Some(name), acceptDelay, failing);
            var pid := ProductIdOf(s.products, name);
            && (r.delayed <==> exists l :: ShortLine(s, pid, l))
            && 0 <= r.maxDelay
            && (forall l :: ShortLine(s, pid, l) ==> s.materials[l.material].leadTime <= r.maxDelay)
            && (r.maxDelay == 0 || exists l :: ShortLine(s, pid, l) && s.materials[l.material].leadTime == r.maxDelay)
  {
    var pid := ProductIdOf(s.products, name);
    var rows := OrderRows(s, pid);
    var a := Assess(rows);
    var r := ProcessOrder(s, Some(name), acceptDelay, failing);
    assert r.delayed == a.delayed && r.maxDelay == a.maxDelay;
    forall l | ShortLine(s, pid, l) ensures a.delayed && s.materials[l.material].leadTime <= a.maxDelay {
      ShortLineHasShortRow(s, pid, l);
    }
    if a.delayed {
      var i :| 0 <= i < |rows| && Short(rows[i]);
      ShortRowHasShortLine(s, pid, i);
    }
    if a.maxDelay != 0 {
      var i :| 0 <= i < |rows| && Short(rows[i]) && rows[i].leadTime == a.maxDelay;
      ShortRowHasShortLine(s, pid, i);
    }
  }

  /** When some line of the product is short of stock and the user declines the
      delay, the order is refused, the delay is still reported and no stock changes. */
  lemma DeclinedOrderChangesNothing(s: Store, name: string, failing: set<nat>, l: Line)
    requires HasProductNamed(s.products, name)
    requires ShortLine(s, ProductIdOf(s.products, name), l)
    ensures var r := ProcessOrder(s, Some(name), false, failing);
            && r.outcome == Refused(NotConfirmed) && r.store == s
            && r.delayed && s.materials[l.material].leadTime <= r.maxDelay
  {
    OrderDelay(s, name, false, failing);
  }

  /** Helper: the materials after a placed order, as the consumption loop leaves them. */
  lemma PlacedOrderConsumes(s: Store, name: string, acceptDelay: bool, failing: set<nat>)
    requires HasProductNamed(s.products, name)
    requires ProcessOrder(s, Some(name), acceptDelay, failing).outcome == Done
    ensures ProcessOrder(s, Some(name), acceptDelay, failing).store.materials
            == Consume(s.materials, OrderRows(s, ProductIdOf(s.products, name)), failing)
  {
  }

  /** When no (material, product) pair repeats, a placed order takes each line's
      quantity off its material's stock as the query read it (which may go
      below zero), unless that material's update failed. */
  lemma OrderConsumption(s: Store, name: string, acceptDelay: bool, failing: set<nat>, l: Line)
    requires UniquePairs(s.bom)
    requires HasProductNamed(s.products, name)
    requires ProcessOrder(s, Some(name), acceptDelay, failing).outcome == Done
    requires l in s.bom && l.product == ProductIdOf(s.products, name) && l.material in s.materials
    requires var rows := OrderRows(s, ProductIdOf(s.products, name));
             forall i :: 0 <= i < |rows| && rows[i].material == l.material ==> i !in failing
    ensures var m := ProcessOrder(s, Some(name), acceptDelay, failing).store.materials;
            m[l.material].stock == s.materials[l.material].stock - l.quantity
  {
    var pid := ProductIdOf(s.products, name);
    var rows := OrderRows(s, pid);
    PlacedOrderConsumes(s, name, acceptDelay, failing);
    OrderRowsDistinct(s, pid);
    var k :| 0 <= k < |s.bom| && s.bom[k] == l;
    OrderRowsCoverLines(s, pid, l);
    var i :| 0 <= i < |rows| && rows[i].material == l.material && rows[i].quantity == l.quantity;
    assert LastWriteFor(rows, failing, i);
    ConsumeLastWrite(s.materials, rows, failing, i);
  }

  /** A placed order leaves untouched every material the product does not use,
      and every material all of whose updates failed. */
  lemma OrderLeavesOthers(s: Store, name: string, acceptDelay: bool, failing: set<nat>, id: Id)
    requires HasProductNamed(s.products, name)
    requires id in s.materials
    requires || (forall l :: l in s.bom && l.product == ProductIdOf(s.products, name) ==> l.material != id)
             || (var rows := OrderRows(s, ProductIdOf(s.products, name));
                 forall i :: 0 <= i < |rows| && rows[i].material == id ==> i in failing)
    ensures ProcessOrder(s, Some(name), acceptDelay, failing).store.materials[id] == s.materials[id]
  {
    var pid := ProductIdOf(s.products, name);
    var rows := OrderRows(s, pid);
    var r := ProcessOrder(s, Some(name), acceptDelay, failing);
    if r.outcome == Done {
      PlacedOrderConsumes(s, name, acceptDelay, failing);
      forall i | 0 <= i < |rows| && rows[i].material == id ensures i in failing {
        assert Line(rows[i].material, pid, rows[i].quantity) in s.bom;
      }
      ConsumeLeavesOthers(s.materials, rows, failing, id);
    }
  }

  lemma ProcessOrderKeepsConsistent(s: Store, choice: Option<string>, acceptDelay: bool, failing: set<nat>)
    requires Consistent(s)
    requires choice.Some? ==> HasProductNamed(s.products, choice.value)
    ensures Consistent(ProcessOrder(s, choice, acceptDelay, failing).store)
  {
    var m := ProcessOrder(s, choice, acceptDelay, failing).store.materials;
    forall a, b | a in m && b in m && a != b ensures m[a].description != m[b].description {
      assert m[a].description == s.materials[a].description;
      assert m[b].description == s.materials[b].description;
    }
  }

  /* ---------------------------------------------------------------------- */
  /* Stock replenishment                                                     */
  /* ---------------------------------------------------------------------- */

  /** The fixed number of units one sweep adds to a material below its reorder level. */
  const ReplenishUnits := 10

  predicate NeedsReplenishment(m: Material) {
    m.stock < m.reorderLevel
  }

  /** The store after a sweep, what was reported, and how many rows the update touched. */
  datatype SweepStep = SweepStep(store: Store, outcome: Outcome, updated: nat)

  /** The rows the sweep's `WHERE stock_actual < stock_reposicion` selects. */
  function Below(materials: map<Id, Material>): set<Id> {
    set id | id in materials && NeedsReplenishment(materials[id])
  }

  /** `pedidos_actualizar_stock`: after confirmation, every material strictly
      below its reorder level gains 10 units (not up to the level), the rest
      are untouched, and the count of updated rows is reported. */
  function ReplenishStock(s: Store, confirm: bool): (r: SweepStep)
    ensures !confirm ==> r == SweepStep(s, Refused(NotConfirmed), 0)
    ensures confirm ==> r.outcome == Done
    ensures r.store.products == s.products && r.store.bom == s.bom
    ensures r.store.materials.Keys == s.materials.Keys
    ensures confirm ==> forall id :: id in s.materials ==>
              var before := s.materials[id];
              var after := r.store.materials[id];
              && after.description == before.description
              && after.reorderLevel == before.reorderLevel
              && after.leadTime == before.leadTime
              && (NeedsReplenishment(before) ==> after.stock == before.stock + ReplenishUnits)
              && (!NeedsReplenishment(before) ==> after == before)
  {
    if !confirm then SweepStep(s, Refused(NotConfirmed), 0)
    else
      var m := map id | id in s.materials ::
        if NeedsReplenishment(s.materials[id])
        then s.materials[id].(stock := s.materials[id].stock + ReplenishUnits)
        else s.materials[id];
      SweepStep(s.(materials := m), Done, |Below(s.materials)|)
  }

  /** The reported count is the number of materials whose row the sweep changed,
      and it is 0 exactly when no material was below its reorder level. */
  lemma SweepCountsChangedRows(s: Store)
    ensures var r := ReplenishStock(s, true);
            && r.updated == |set id | id in s.materials && r.store.materials[id] != s.materials[id]|
            && (r.updated == 0 <==> forall id :: id in s.materials ==> !NeedsReplenishment(s.materials[id]))
  {
    var r := ReplenishStock(s, true);
    var changed := set id | id in s.materials && r.store.materials[id] != s.materials[id];
    assert changed == Below(s.materials);
    if r.updated == 0 {
      forall id | id in s.materials ensures !NeedsReplenishment(s.materials[id]) {
        assert id !in Below(s.materials);
      }
    }
  }

  /** `n` confirmed sweeps in a row. */
  function Sweeps(s: Store, n: nat): (t: Store)
    ensures t.materials.Keys == s.materials.Keys
  {
    if n == 0 then s else ReplenishStock(Sweeps(s, n - 1), true).store
  }

  /** After `n` sweeps a material has either reached its reorder level or
      gained 10 units per sweep. */
  lemma {:induction false} SweepsProgress(s: Store, n: nat, id: Id)
    requires id in s.materials
    ensures var after := Sweeps(s, n).materials[id];
            after.reorderLevel == s.materials[id].reorderLevel
            && (after.stock >= s.materials[id].reorderLevel || after.stock >= s.materials[id].stock + ReplenishUnits * n)
  {
    if n > 0 {
      SweepsProgress(s, n - 1, id);
    }
  }

  /** Enough sweeps bring any material up to its reorder level: one per
      10 units of shortfall, rounded up. */
  lemma SweepsReachReorderLevel(s: Store, n: nat, id: Id)
    requires id in s.materials
    requires ReplenishUnits * n >= s.materials[id].reorderLevel - s.materials[id].stock
    ensures !NeedsReplenishment(Sweeps(s, n).materials[id])
  {
    SweepsProgress(s, n, id);
  }

  /** A single sweep does not always suffice: a shortfall above 10 units survives it. */
  lemma OneSweepMayNotSuffice(s: Store, id: Id)
    requires id in s.materials
    requires s.materials[id].reorderLevel - s.materials[id].stock > ReplenishUnits
    ensures NeedsReplenishment(ReplenishStock(s, true).store.materials[id])
  {
  }

  lemma ReplenishKeepsConsistent(s: Store, confirm: bool)
    requires Consistent(s)
    ensures Consistent(ReplenishStock(s, confirm).store)
  {
    var m := ReplenishStock(s, confirm).store.materials;
    forall a, b | a in m && b in m && a != b ensures m[a].description != m[b].description {
      assert m[a].description == s.materials[a].description;
      assert m[b].description == s.materials[b].description;
    }
  }
}
