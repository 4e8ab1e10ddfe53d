/**
 The abstract store that stands in for the application's SQLite database:
 the `materiales`, `productos` and `materiales_por_producto` tables, plus the
 helpers every controller operation shares (id generation, lookup of the first
 row with a given description, row filters and the consistency invariant the
 controller keeps).
 */
module Store {

  type Id = nat

  datatype Option<T> = None | Some(value: T)

  /** One row of the materials table; the id is the key it is stored under. */
  datatype Material = Material(description: string, stock: int, reorderLevel: int, leadTime: int)

  /** One bill-of-materials line: `quantity` units of `material` go into one `product`. */
  datatype Line = Line(material: Id, product: Id, quantity: int)

  datatype Store = Store(materials: map<Id, Material>, products: map<Id, string>, bom: seq<Line>)

  /** The id/description pair a form holds; an empty description means nothing is selected. */
  datatype Selection = Selection(id: Id, description: string)

  /** Why the controller abandoned an operation without touching the store. */
  datatype Refusal =
    | NothingSelected
    | MissingField
    | EmptyDescription
    | ZeroValue
    | Duplicate
    | InUse
    | AlreadyAssociated
    | NotConfirmed

  datatype Outcome = Done | Refused(why: Refusal)

  /** The store after an operation together with what the operation reported. */
  datatype Step = Step(store: Store, outcome: Outcome)

  /* ---------------------------------------------------------------------- */
  /* Ids                                                                     */
  /* ---------------------------------------------------------------------- */

  /** Every finite set of ids has an upper bound. */
  lemma {:induction false} UpperBound(s: set<Id>) returns (b: Id)
    ensures forall y :: y in s ==> y <= b
    decreases |s|
  {
    if s == {} {
      b := 0;
    } else {
      var a :| a in s;
      var rest := s - {a};
      var c := UpperBound(rest);
      b := if a <= c then c else a;
      forall y | y in s ensures y <= b {
        if y != a {
          assert y in rest;
        }
      }
    }
  }

  /** Counting down from an upper bound finds the largest element. */
  lemma {:induction false} MaxBelow(s: set<Id>, b: Id, w: Id)
    requires w in s && forall y :: y in s ==> y <= b
    ensures exists x :: x in s && forall y :: y in s ==> y <= x
    decreases b
  {
    if b !in s {
      assert w < b;
      MaxBelow(s, b - 1, w);
    }
  }

  /** Stepping down from any element finds the least one. */
  lemma {:induction false} MinFrom(s: set<Id>, w: Id)
    requires w in s
    ensures exists x :: x in s && forall y :: y in s ==> x <= y
    decreases w
  {
    if exists y :: y in s && y < w {
      var y :| y in s && y < w;
      MinFrom(s, y);
    }
  }

  lemma MaxExists(s: set<Id>)
    requires s != {}
    ensures exists x :: x in s && forall y :: y in s ==> y <= x
  {
    var w :| w in s;
    var b := UpperBound(s);
    MaxBelow(s, b, w);
  }

  lemma MinExists(s: set<Id>)
    requires s != {}
    ensures exists x :: x in s && forall y :: y in s ==> x <= y
  {
    var w :| w in s;
    MinFrom(s, w);
  }

  function MaxOf(s: set<Id>): (r: Id)
    requires s != {}
    ensures r in s
    ensures forall y :: y in s ==> y <= r
  {
    MaxExists(s);
    var x :| x in s && forall y :: y in s ==> y <= x; x
  }

  function MinOf(s: set<Id>): (r: Id)
    requires s != {}
    ensures r in s
    ensures forall y :: y in s ==> r <= y
  {
    MinExists(s);
    var x :| x in s && forall y :: y in s ==> x <= y; x
  }

  /** The id SQLite gives a new row of an INTEGER PRIMARY KEY table:
      one more than the largest id in use, or 1 in an empty table. */
  function FreshId(ids: set<Id>): (r: Id)
    ensures r !in ids
    ensures forall i :: i in ids ==> i < r
    ensures 1 <= r
  {
    if ids == {} then 1 else MaxOf(ids) + 1
  }

  /* ---------------------------------------------------------------------- */
  /* Lookup by description                                                   */
  /* ---------------------------------------------------------------------- */

  predicate HasMaterialNamed(materials: map<Id, Material>, d: string) {
    exists id :: id in materials && materials[id].description == d
  }

  predicate HasProductNamed(products: map<Id, string>, d: string) {
    exists id :: id in products && products[id] == d
  }

  /** `SELECT id FROM materiales WHERE descripcion = ?` followed by `[0][0]`:
      the first matching row of a table scan, i.e. the least matching id. */
  function MaterialIdOf(materials: map<Id, Material>, d: string): (id: Id)
    requires HasMaterialNamed(materials, d)
    ensures id in materials && materials[id].description == d
    ensures forall j :: j in materials && materials[j].description == d ==> id <= j
  {
    var named := set j | j in materials && materials[j].description == d;
    var w :| w in materials && materials[w].description == d;
    assert w in named;
    assert forall j :: j in materials && materials[j].description == d ==> j in named;
    MinOf(named)
  }

  /** `SELECT id FROM productos WHERE descripcion = ?` followed by `[0][0]`. */
  function ProductIdOf(products: map<Id, string>, d: string): (id: Id)
    requires HasProductNamed(products, d)
    ensures id in products && products[id] == d
    ensures forall j :: j in products && products[j] == d ==> id <= j
  {
    var named := set j | j in products && products[j] == d;
    var w :| w in products && products[w] == d;
    assert w in named;
    assert forall j :: j in products && products[j] == d ==> j in named;
    MinOf(named)
  }

  /* ---------------------------------------------------------------------- */
  /* Bill-of-materials rows                                                  */
  /* ---------------------------------------------------------------------- */

  /** The rows of `lines` that a `DELETE ... WHERE` with condition `!keep` leaves, in order. */
  function Filter(lines: seq<Line>, keep: Line -> bool): (r: seq<Line>)
    ensures |r| <= |lines|
    ensures forall l :: l in r <==> l in lines && keep(l)
    ensures forall i :: 0 <= i < |r| ==> keep(r[i])
  {
    if |lines| == 0 then []
    else (if keep(lines[0]) then [lines[0]] else []) + Filter(lines[1..], keep)
  }

  /** A filter keeps every copy of an accepted row and no copy of a rejected one. */
  lemma {:induction false} FilterCounts(lines: seq<Line>, keep: Line -> bool)
    ensures forall l :: multiset(Filter(lines, keep))[l] == if keep(l) then multiset(lines)[l] else 0
    decreases |lines|
  {
    if |lines| > 0 {
      assert lines == [lines[0]] + lines[1..];
      FilterCounts(lines[1..], keep);
    }
  }

  /** The positions of the rows `keep` accepts, in increasing order. */
  function KeptPositions(lines: seq<Line>, keep: Line -> bool): (p: seq<nat>)
    ensures forall k :: 0 <= k < |p| ==> p[k] < |lines| && keep(lines[p[k]])
    ensures forall k, m :: 0 <= k < m < |p| ==> p[k] < p[m]
  {
    if |lines| == 0 then []
    else KeptPositions(lines[..|lines| - 1], keep) + (if keep(lines[|lines| - 1]) then [|lines| - 1] else [])
  }

  /** No accepted row is missed. */
  lemma {:induction false} KeptPositionsCover(lines: seq<Line>, keep: Line -> bool, i: nat)
    requires i < |lines| && keep(lines[i])
    ensures i in KeptPositions(lines, keep)
    decreases |lines|
  {
    var front := lines[..|lines| - 1];
    if i < |front| {
      assert front[i] == lines[i];
      KeptPositionsCover(front, keep, i);
    }
  }

  /** Extending a selection of rows of `lines[..|lines| - 1]` by the last row, or not. */
  lemma ExtendSelection(lines: seq<Line>, f: seq<Line>, q: seq<nat>, b: bool)
    requires |lines| > 0 && |f| == |q|
    requires forall k :: 0 <= k < |q| ==> q[k] < |lines| - 1 && f[k] == lines[..|lines| - 1][q[k]]
    ensures var r := f + (if b then [lines[|lines| - 1]] else []);
            var p := q + (if b then [|lines| - 1] else []);
            |r| == |p| && forall k :: 0 <= k < |p| ==> r[k] == lines[p[k]]
  {
  }

  /** A filter keeps exactly the accepted rows, each once, in their original order. */
  lemma {:induction false} FilterSelectsKeptPositions(lines: seq<Line>, keep: Line -> bool)
    ensures var p := KeptPositions(lines, keep);
            |Filter(lines, keep)| == |p| && forall k :: 0 <= k < |p| ==> Filter(lines, keep)[k] == lines[p[k]]
    decreases |lines|
  {
    if |lines| > 0 {
      var front, last := lines[..|lines| - 1], lines[|lines| - 1];
      assert lines == front + [last];
      FilterAppend(front, [last], keep);
      FilterSelectsKeptPositions(front, keep);
      assert Filter([last], keep) == if keep(last) then [last] else [] by {
        assert [last][1..] == [];
      }
      ExtendSelection(lines, Filter(front, keep), KeptPositions(front, keep), keep(last));
    }
  }

  lemma {:induction false} FilterAppend(a: seq<Line>, b: seq<Line>, keep: Line -> bool)
    ensures Filter(a + b, keep) == Filter(a, keep) + Filter(b, keep)
    decreases |a|
  {
    if |a| == 0 {
      assert a + b == b;
    } else {
      assert (a + b)[1..] == a[1..] + b;
      FilterAppend(a[1..], b, keep);
    }
  }

  lemma {:induction false} FilterKeepsAll(lines: seq<Line>, keep: Line -> bool)
    requires forall i :: 0 <= i < |lines| ==> keep(lines[i])
    ensures Filter(lines, keep) == lines
    decreases |lines|
  {
    if |lines| > 0 {
      FilterKeepsAll(lines[1..], keep);
    }
  }

  /** Keeps the lines of product `pid` whose material exists: the inner join of
      `materiales` with `materiales_por_producto` on one product. */
  function JoinsProduct(materials: map<Id, Material>, pid: Id): Line -> bool {
    (l: Line) => l.product == pid && l.material in materials
  }

  /** Keeps every line that is not of product `pid`. */
  function NotOfProduct(pid: Id): Line -> bool {
    (l: Line) => l.product != pid
  }

  /** Keeps every line that does not pair `mid` with `pid`. */
  function NotPair(mid: Id, pid: Id): Line -> bool {
    (l: Line) => !(l.material == mid && l.product == pid)
  }

  /** The bill-of-materials lines of product `pid` that join with an existing material, in BOM order. */
  function ProductLines(s: Store, pid: Id): (r: seq<Line>)
    ensures forall l :: l in r <==> l in s.bom && l.product == pid && l.material in s.materials
    ensures forall i :: 0 <= i < |r| ==> r[i].product == pid && r[i].material in s.materials
  {
    Filter(s.bom, JoinsProduct(s.materials, pid))
  }

  lemma {:induction false} FilterNoneKept(lines: seq<Line>, keep: Line -> bool)
    requires forall i :: 0 <= i < |lines| ==> !keep(lines[i])
    ensures Filter(lines, keep) == []
    decreases |lines|
  {
    if |lines| > 0 {
      FilterNoneKept(lines[1..], keep);
    }
  }

  /** How many lines reference `material`: `SELECT COUNT(id_material) ... WHERE id_material = ?`. */
  function CountUses(lines: seq<Line>, material: Id): (n: nat)
    ensures n <= |lines|
    ensures n > 0 <==> exists i :: 0 <= i < |lines| && lines[i].material == material
  {
    if |lines| == 0 then 0
    else (if lines[0].material == material then 1 else 0) + CountUses(lines[1..], material)
  }

  predicate SamePair(a: Line, b: Line) {
    a.material == b.material && a.product == b.product
  }

  /** No (material, product) pair is listed twice. */
  predicate UniquePairs(lines: seq<Line>) {
    forall i, j :: 0 <= i < j < |lines| ==> !SamePair(lines[i], lines[j])
  }

  lemma {:induction false} FilterKeepsUniquePairs(lines: seq<Line>, keep: Line -> bool)
    requires UniquePairs(lines)
    ensures UniquePairs(Filter(lines, keep))
    decreases |lines|
  {
    if |lines| > 0 {
      var tail := lines[1..];
      assert UniquePairs(tail) by {
        forall i, j | 0 <= i < j < |tail| ensures !SamePair(tail[i], tail[j]) {
          assert tail[i] == lines[i + 1] && tail[j] == lines[j + 1];
        }
      }
      FilterKeepsUniquePairs(tail, keep);
      var rest := Filter(tail, keep);
      forall l | l in rest ensures !SamePair(lines[0], l) {
        var k :| 0 <= k < |tail| && tail[k] == l;
        assert l == lines[k + 1];
      }
    }
  }

  /* ---------------------------------------------------------------------- */
  /* The invariant the controller keeps                                      */
  /* ---------------------------------------------------------------------- */

  /** Every line refers to an existing material and product. */
  predicate LinesResolve(s: Store) {
    forall i :: 0 <= i < |s.bom| ==> s.bom[i].material in s.materials && s.bom[i].product in s.products
  }

  predicate DistinctMaterialNames(materials: map<Id, Material>) {
    forall a, b :: a in materials && b in materials && a != b ==> materials[a].description != materials[b].description
  }

  predicate DistinctProductNames(products: map<Id, string>) {
    forall a, b :: a in products && b in products && a != b ==> products[a] != products[b]
  }

  /** What the controller's checks keep true of the store while every
      association targets an existing product (the schema itself has no
      foreign keys or unique constraints). */
  predicate Consistent(s: Store) {
    && LinesResolve(s)
    && UniquePairs(s.bom)
    && DistinctMaterialNames(s.materials)
    && DistinctProductNames(s.products)
  }

  const Empty := Store(map[], map[], [])

  lemma EmptyIsConsistent()
    ensures Consistent(Empty)
  {
  }
}
