/**
 Worked examples: a widget built from bolts and nuts, ordered with and without
 enough stock, and one replenishment sweep over the same materials.
 */
module Scenarios {
  import opened Store
  import opened Orders

  const Bolt: Id := 1
  const Nut: Id := 2
  const Widget: Id := 1

  /** Bolts: 5 in stock, reorder level 10, 3 days' lead time; nuts: 20, 10, 1 day. */
  const Parts := map[Bolt := Material("Bolt", 5, 10, 3), Nut := Material("Nut", 20, 10, 1)]

  /** A widget takes `bolts` bolts and one nut. */
  function WidgetShop(bolts: int): (s: Store)
    ensures Consistent(s)
    ensures HasProductNamed(s.products, "Widget")
  {
    assert map[Widget := "Widget"][Widget] == "Widget";
    Store(Parts, map[Widget := "Widget"], [Line(Bolt, Widget, bolts), Line(Nut, Widget, 1)])
  }

  /** With two bolts per widget there is enough of everything: the order goes
      through without asking, leaving 3 bolts and 19 nuts. */
  lemma EnoughStockScenario()
    ensures var r := ProcessOrder(WidgetShop(2), Some("Widget"), false, {});
            && r.outcome == Done && !r.delayed && r.maxDelay == 0
            && r.store.materials[Bolt].stock == 3 && r.store.materials[Nut].stock == 19
  {
    var s := WidgetShop(2);
    assert ProductIdOf(s.products, "Widget") == Widget;
    assert forall l :: l in s.bom ==> l == s.bom[0] || l == s.bom[1];
    assert forall l :: !ShortLine(s, Widget, l);
    OrderDelay(s, "Widget", false, {});
    OrderConsumption(s, "Widget", false, {}, s.bom[0]);
    OrderConsumption(s, "Widget", false, {}, s.bom[1]);
  }

  /** With ten bolts per widget the bolts run short: a 3-day delay is reported;
      declining changes nothing, accepting leaves -5 bolts and 19 nuts. */
  lemma ShortStockScenario()
    ensures var declined := ProcessOrder(WidgetShop(10), Some("Widget"), false, {});
            && declined == OrderStep(WidgetShop(10), Refused(NotConfirmed), true, 3)
    ensures var accepted := ProcessOrder(WidgetShop(10), Some("Widget"), true, {});
            && accepted.outcome == Done && accepted.delayed && accepted.maxDelay == 3
            && accepted.store.materials[Bolt].stock == -5 && accepted.store.materials[Nut].stock == 19
  {
    var s := WidgetShop(10);
    assert ProductIdOf(s.products, "Widget") == Widget;
    assert s.bom[0] in s.bom && s.bom[1] in s.bom;
    assert ShortLine(s, Widget, s.bom[0]);
    assert forall l :: ShortLine(s, Widget, l) ==> l == s.bom[0];
    OrderDelay(s, "Widget", false, {});
    OrderDelay(s, "Widget", true, {});
    OrderConsumption(s, "Widget", true, {}, s.bom[0]);
    OrderConsumption(s, "Widget", true, {}, s.bom[1]);
  }

  /** One sweep lifts the bolts (5 < 10) to 15, leaves the nuts alone and reports one row. */
  lemma SweepScenario()
    ensures var r := ReplenishStock(WidgetShop(2), true);
            && r.updated == 1
            && r.store.materials[Bolt].stock == 15 && r.store.materials[Nut].stock == 20
  {
    var s := WidgetShop(2);
    assert Below(s.materials) == {Bolt};
  }
}
