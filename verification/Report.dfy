/** The parity report's counts, and what they conserve. */
module Report {
  import opened TypeKeys

  const STATUSES := ["mapped", "adapted", "partial", "unmapped", "intentional"]

  /** One assessed declaration. */
  datatype Key = Key(ns: string, ty: string, group: string, member: string)

  datatype Leaf = Leaf(status: string, note: string)

  datatype Inputs = Inputs(rust: map<Key, Leaf>, go: map<Key, Leaf>, inventoryOnly: set<Key>)

  // --- the .NET types neither catalog lists --------------------------------------

  function TypeKey(clr: string, names: seq<string>): Key {
    var (ns, ty) := CatalogTypeKey(clr, names);
    Key(ns, ty, "type", "")
  }

  function Catalogued(rust: map<Key, Leaf>, go: map<Key, Leaf>): set<string> {
    set k | k in go.Keys + rust.Keys :: ClrTypeKey(k.ns, k.ty)
  }

  /** The inventory's types that no catalog lists; `types` gives each its generic parameters. */
  function InventoryOnly(types: map<string, seq<string>>, rust: map<Key, Leaf>, go: map<Key, Leaf>): set<Key> {
    KeysOf(types, types.Keys - Catalogued(rust, go))
  }

  function KeysOf(types: map<string, seq<string>>, names: set<string>): set<Key>
    requires names <= types.Keys
  {
    set clr | clr in names :: TypeKey(clr, types[clr])
  }

  predicate IsCanonicalInventory(types: map<string, seq<string>>) {
    forall clr :: clr in types ==> IsCanonicalClr(clr) && AreParamNames(types[clr])
  }

  ghost predicate IsDisjoint(inputs: Inputs) {
    inputs.inventoryOnly !! inputs.go.Keys && inputs.inventoryOnly !! inputs.rust.Keys
  }

  lemma AreTypes(types: map<string, seq<string>>, rust: map<Key, Leaf>, go: map<Key, Leaf>)
    ensures forall k :: k in InventoryOnly(types, rust, go) ==> k.group == "type" && k.member == ""
  {
  }

  /**
   An inventory-only key is in neither catalog, because its CLR name comes back from it;
   and each such type has a key of its own.
   */
  lemma InventoryOnlyIsDisjoint(types: map<string, seq<string>>, rust: map<Key, Leaf>, go: map<Key, Leaf>)
    requires IsCanonicalInventory(types)
    ensures IsDisjoint(Inputs(rust, go, InventoryOnly(types, rust, go)))
    ensures |InventoryOnly(types, rust, go)| == |types.Keys - Catalogued(rust, go)|
    ensures forall k :: k in InventoryOnly(types, rust, go) ==> k.group == "type" && k.member == ""
  {
    AreTypes(types, rust, go);
    hide TypeKey, Catalogued, IsCanonicalInventory;
    KeysAreDistinct(types, types.Keys - Catalogued(rust, go));
    forall k | k in InventoryOnly(types, rust, go)
      ensures k !in go.Keys + rust.Keys
    {
      var clr :| clr in types.Keys - Catalogued(rust, go) && k == TypeKey(clr, types[clr]);
      UncataloguedKey(types, rust, go, clr);
    }
  }

  lemma UncataloguedKey(types: map<string, seq<string>>, rust: map<Key, Leaf>, go: map<Key, Leaf>, clr: string)
    requires IsCanonicalInventory(types) && clr in types && clr !in Catalogued(rust, go)
    ensures TypeKey(clr, types[clr]) !in go.Keys + rust.Keys
  {
    hide CatalogTypeKey, ClrTypeKey, IsCanonicalClr;
    RoundTripExactly(clr, types[clr]);
    var k := TypeKey(clr, types[clr]);
    assert ClrTypeKey(k.ns, k.ty) == clr;
  }

  /**
   Disjointness whatever the catalogs list needs every inventory name canonical: a name
   that does not come back is still listed as unreviewed once a catalog has its key.
   */
  lemma DisjointExactly(types: map<string, seq<string>>)
    requires forall clr :: clr in types ==> AreParamNames(types[clr])
    ensures (forall rust, go :: IsDisjoint(Inputs(rust, go, InventoryOnly(types, rust, go))))
       <==> IsCanonicalInventory(types)
  {
    hide TypeKey, Catalogued, InventoryOnly, IsCanonicalClr;
    if IsCanonicalInventory(types) {
      forall rust: map<Key, Leaf>, go: map<Key, Leaf>
        ensures IsDisjoint(Inputs(rust, go, InventoryOnly(types, rust, go)))
      {
        InventoryOnlyIsDisjoint(types, rust, go);
      }
    } else {
      var clr :| clr in types && !IsCanonicalClr(clr);
      var go := map[TypeKey(clr, types[clr]) := Leaf("mapped", "")];
      ListedTwice(types, clr);
      assert !IsDisjoint(Inputs(map[], go, InventoryOnly(types, map[], go)));
    }
  }

  lemma ListedTwice(types: map<string, seq<string>>, clr: string)
    requires clr in types && AreParamNames(types[clr]) && !IsCanonicalClr(clr)
    ensures TypeKey(clr, types[clr])
         in InventoryOnly(types, map[], map[TypeKey(clr, types[clr]) := Leaf("mapped", "")])
  {
    var k := TypeKey(clr, types[clr]);
    var go := map[k := Leaf("mapped", "")];
    RoundTripExactly(clr, types[clr]);
    hide CatalogTypeKey, ClrTypeKey, IsCanonicalClr;
    assert ClrTypeKey(k.ns, k.ty) != clr;
    assert go.Keys == {k};
    assert clr !in Catalogued(map[], go);
  }

  lemma {:induction false} KeysAreDistinct(types: map<string, seq<string>>, names: set<string>)
    requires IsCanonicalInventory(types) && names <= types.Keys
    ensures |KeysOf(types, names)| == |names|
    decreases |names|
  {
    hide TypeKey, IsCanonicalClr;
    if names != {} {
      var one :| one in names;
      KeysAreDistinct(types, names - {one});
      forall clr | clr in names - {one}
        ensures TypeKey(clr, types[clr]) != TypeKey(one, types[one])
      {
        TwoKeysDiffer(types, clr, one);
      }
      assert KeysOf(types, names) == KeysOf(types, names - {one}) + {TypeKey(one, types[one])};
    } else {
      assert KeysOf(types, names) == {};
    }
  }

  lemma TwoKeysDiffer(types: map<string, seq<string>>, a: string, b: string)
    requires IsCanonicalInventory(types) && a in types && b in types && a != b
    ensures TypeKey(a, types[a]) != TypeKey(b, types[b])
  {
    if TypeKey(a, types[a]) == TypeKey(b, types[b]) {
      CatalogKeyInjective(a, b, types[a], types[b]);
    }
  }

  // --- the counts ----------------------------------------------------------------

  datatype Row = Row(go: map<string, nat>, rust: map<string, nat>, unreviewed: nat, rustOnly: nat)

  const EMPTY_ROW := Row(map[], map[], 0, 0)

  function RowOf(rows: map<string, Row>, ns: string): Row {
    if ns in rows then rows[ns] else EMPTY_ROW
  }

  function Count(counts: map<string, nat>, status: string): nat {
    if status in counts then counts[status] else 0
  }

  function Bump(counts: map<string, nat>, status: string): map<string, nat> {
    counts[status := Count(counts, status) + 1]
  }

  function InNamespace(keys: set<Key>, ns: string): set<Key> {
    set k | k in keys && k.ns == ns
  }

  function WithStatus(keys: set<Key>, leaves: map<Key, Leaf>, ns: string, status: string): set<Key> {
    set k | k in keys && k in leaves && k.ns == ns && leaves[k].status == status
  }

  /** The Rust leaves counted once the Go keys `g` and the Rust keys `r` have been visited. */
  function CountedRust(inputs: Inputs, g: set<Key>, r: set<Key>): set<Key> {
    set k | k in inputs.rust && (k in g || (k in r && k !in inputs.go))
  }

  ghost predicate GoCells(rows: map<string, Row>, leaves: map<Key, Leaf>, keys: set<Key>) {
    forall ns, s :: Count(RowOf(rows, ns).go, s) == |WithStatus(keys, leaves, ns, s)|
  }

  ghost predicate RustCells(rows: map<string, Row>, leaves: map<Key, Leaf>, keys: set<Key>) {
    forall ns, s :: Count(RowOf(rows, ns).rust, s) == |WithStatus(keys, leaves, ns, s)|
  }

  ghost predicate UnreviewedCells(rows: map<string, Row>, inGo: set<Key>, inInventory: set<Key>) {
    forall ns :: RowOf(rows, ns).unreviewed == |InNamespace(inGo, ns)| + |InNamespace(inInventory, ns)|
  }

  ghost predicate RustOnlyCells(rows: map<string, Row>, keys: set<Key>) {
    forall ns :: RowOf(rows, ns).rustOnly == |InNamespace(keys, ns)|
  }

  /** Every cell counts the keys visited so far that belong in it. */
  ghost predicate Tallied(inputs: Inputs, rows: map<string, Row>, g: set<Key>, r: set<Key>, v: set<Key>) {
    && GoCells(rows, inputs.go, g)
    && RustCells(rows, inputs.rust, CountedRust(inputs, g, r))
    && UnreviewedCells(rows, g - inputs.rust.Keys, v)
    && RustOnlyCells(rows, r - inputs.go.Keys)
  }

  lemma WithStatusAdd(keys: set<Key>, leaves: map<Key, Leaf>, key: Key, ns: string, status: string)
    requires key !in keys
    ensures |WithStatus(keys + {key}, leaves, ns, status)| == |WithStatus(keys, leaves, ns, status)|
         + if key in leaves && key.ns == ns && leaves[key].status == status then 1 else 0
  {
    if key in leaves && key.ns == ns && leaves[key].status == status {
      assert WithStatus(keys + {key}, leaves, ns, status) == WithStatus(keys, leaves, ns, status) + {key};
    } else {
      assert WithStatus(keys + {key}, leaves, ns, status) == WithStatus(keys, leaves, ns, status);
    }
  }

  lemma InNamespaceAdd(keys: set<Key>, key: Key, ns: string)
    requires key !in keys
    ensures |InNamespace(keys + {key}, ns)| == |InNamespace(keys, ns)| + if key.ns == ns then 1 else 0
  {
    if key.ns == ns {
      assert InNamespace(keys + {key}, ns) == InNamespace(keys, ns) + {key};
    } else {
      assert InNamespace(keys + {key}, ns) == InNamespace(keys, ns);
    }
  }

  /** The row of `key`'s namespace once its Go leaf is counted. */
  function GoRow(inputs: Inputs, row: Row, key: Key): Row
    requires key in inputs.go
  {
    var counted := row.(go := Bump(row.go, inputs.go[key].status));
    if key in inputs.rust then counted.(rust := Bump(row.rust, inputs.rust[key].status))
    else counted.(unreviewed := row.unreviewed + 1)
  }

  /** The row once a Rust leaf that Go's catalog does not list is counted. */
  function RustRow(inputs: Inputs, row: Row, key: Key): Row
    requires key in inputs.rust
  {
    if key in inputs.go then row
    else row.(rust := Bump(row.rust, inputs.rust[key].status), rustOnly := row.rustOnly + 1)
  }

  method Tally(inputs: Inputs) returns (rows: map<string, Row>)
    ensures Tallied(inputs, rows, inputs.go.Keys, inputs.rust.Keys, inputs.inventoryOnly)
  {
    hide Tallied, GoRow, RustRow;
    rows := map[];
    TallyStarts(inputs);
    var todo := inputs.go.Keys;
    while todo != {}
      invariant todo <= inputs.go.Keys
      invariant Tallied(inputs, rows, inputs.go.Keys - todo, {}, {})
      decreases |todo|
    {
      var key :| key in todo;
      TallyGo(inputs, rows, inputs.go.Keys - todo, key);
      TakeOne(inputs.go.Keys, todo, key);
      rows := rows[key.ns := GoRow(inputs, RowOf(rows, key.ns), key)];
      todo := todo - {key};
    }
    TakenAll(inputs.go.Keys);
    rows := TallyBeyondGo(inputs, rows);
    rows := TallyInventoryOnly(inputs, rows);
  }

  /** The second loop of `Tally`. */
  method TallyBeyondGo(inputs: Inputs, before: map<string, Row>) returns (rows: map<string, Row>)
    requires Tallied(inputs, before, inputs.go.Keys, {}, {})
    ensures Tallied(inputs, rows, inputs.go.Keys, inputs.rust.Keys, {})
  {
    hide Tallied, GoRow, RustRow, RowOf;
    rows := before;
    var todo := inputs.rust.Keys;
    TakenAll(todo);
    while todo != {}
      invariant todo <= inputs.rust.Keys
      invariant Tallied(inputs, rows, inputs.go.Keys, inputs.rust.Keys - todo, {})
      decreases |todo|
    {
      var key :| key in todo;
      TallyRust(inputs, rows, inputs.rust.Keys - todo, key);
      TakeOne(inputs.rust.Keys, todo, key);
      if key !in inputs.go {
        rows := rows[key.ns := RustRow(inputs, RowOf(rows, key.ns), key)];
      }
      todo := todo - {key};
    }
    NoneLeft(inputs.rust.Keys, todo);
  }

  /** The third loop of `Tally`. */
  method TallyInventoryOnly(inputs: Inputs, before: map<string, Row>) returns (rows: map<string, Row>)
    requires Tallied(inputs, before, inputs.go.Keys, inputs.rust.Keys, {})
    ensures Tallied(inputs, rows, inputs.go.Keys, inputs.rust.Keys, inputs.inventoryOnly)
  {
    hide Tallied, RowOf;
    rows := before;
    var todo := inputs.inventoryOnly;
    TakenAll(todo);
    while todo != {}
      invariant todo <= inputs.inventoryOnly
      invariant Tallied(inputs, rows, inputs.go.Keys, inputs.rust.Keys, inputs.inventoryOnly - todo)
      decreases |todo|
    {
      var key :| key in todo;
      TallyInventory(inputs, rows, inputs.inventoryOnly - todo, key);
      TakeOne(inputs.inventoryOnly, todo, key);
      var row := RowOf(rows, key.ns);
      rows := rows[key.ns := row.(unreviewed := row.unreviewed + 1)];
      todo := todo - {key};
    }
    NoneLeft(inputs.inventoryOnly, todo);
  }

  lemma NoneLeft(keys: set<Key>, todo: set<Key>)
    requires todo == {}
    ensures keys - todo == keys
  {
  }

  lemma TakeOne(keys: set<Key>, todo: set<Key>, key: Key)
    requires key in todo && todo <= keys
    ensures keys - (todo - {key}) == (keys - todo) + {key}
  {
  }

  lemma TakenAll(keys: set<Key>)
    ensures keys - {} == keys && keys - keys == {}
  {
  }

  lemma TallyStarts(inputs: Inputs)
    ensures Tallied(inputs, map[], inputs.go.Keys - inputs.go.Keys, {}, {})
  {
  }

  /** A row written back: its namespace's cells change, no other's. */
  lemma BumpCell(counts: map<string, nat>, status: string)
    ensures forall s :: Count(Bump(counts, status), s) == Count(counts, s) + if s == status then 1 else 0
  {
  }

  lemma GoCellsAdd(before: map<string, Row>, rows: map<string, Row>, leaves: map<Key, Leaf>, keys: set<Key>, key: Key)
    requires GoCells(before, leaves, keys) && key in leaves && key !in keys
    requires RowOf(rows, key.ns).go == Bump(RowOf(before, key.ns).go, leaves[key].status)
    requires forall ns :: ns != key.ns ==> RowOf(rows, ns) == RowOf(before, ns)
    ensures GoCells(rows, leaves, keys + {key})
  {
    hide WithStatus, RowOf, Count, Bump;
    BumpCell(RowOf(before, key.ns).go, leaves[key].status);
    forall ns, s
      ensures Count(RowOf(rows, ns).go, s) == |WithStatus(keys + {key}, leaves, ns, s)|
    {
      WithStatusAdd(keys, leaves, key, ns, s);
    }
  }

  lemma RustCellsAdd(before: map<string, Row>, rows: map<string, Row>, leaves: map<Key, Leaf>, keys: set<Key>, key: Key)
    requires RustCells(before, leaves, keys) && key in leaves && key !in keys
    requires RowOf(rows, key.ns).rust == Bump(RowOf(before, key.ns).rust, leaves[key].status)
    requires forall ns :: ns != key.ns ==> RowOf(rows, ns) == RowOf(before, ns)
    ensures RustCells(rows, leaves, keys + {key})
  {
    hide WithStatus, RowOf, Count, Bump;
    BumpCell(RowOf(before, key.ns).rust, leaves[key].status);
    forall ns, s
      ensures Count(RowOf(rows, ns).rust, s) == |WithStatus(keys + {key}, leaves, ns, s)|
    {
      WithStatusAdd(keys, leaves, key, ns, s);
    }
  }

  lemma UnreviewedCellsAdd(before: map<string, Row>, rows: map<string, Row>, a: set<Key>, b: set<Key>, key: Key)
    requires UnreviewedCells(before, a, b)
    requires RowOf(rows, key.ns).unreviewed == RowOf(before, key.ns).unreviewed + 1
    requires forall ns :: ns != key.ns ==> RowOf(rows, ns) == RowOf(before, ns)
    ensures key !in a ==> UnreviewedCells(rows, a + {key}, b)
    ensures key !in b ==> UnreviewedCells(rows, a, b + {key})
  {
    hide InNamespace, RowOf;
    forall ns
      ensures key !in a ==> |InNamespace(a + {key}, ns)| == |InNamespace(a, ns)| + if ns == key.ns then 1 else 0
      ensures key !in b ==> |InNamespace(b + {key}, ns)| == |InNamespace(b, ns)| + if ns == key.ns then 1 else 0
    {
      if key !in a {
        InNamespaceAdd(a, key, ns);
      }
      if key !in b {
        InNamespaceAdd(b, key, ns);
      }
    }
  }

  lemma RustOnlyCellsAdd(before: map<string, Row>, rows: map<string, Row>, keys: set<Key>, key: Key)
    requires RustOnlyCells(before, keys) && key !in keys
    requires RowOf(rows, key.ns).rustOnly == RowOf(before, key.ns).rustOnly + 1
    requires forall ns :: ns != key.ns ==> RowOf(rows, ns) == RowOf(before, ns)
    ensures RustOnlyCells(rows, keys + {key})
  {
    hide InNamespace, RowOf;
    forall ns
      ensures RowOf(rows, ns).rustOnly == |InNamespace(keys + {key}, ns)|
    {
      InNamespaceAdd(keys, key, ns);
    }
  }

  lemma TallyGo(inputs: Inputs, before: map<string, Row>, g: set<Key>, key: Key)
    requires Tallied(inputs, before, g, {}, {}) && key in inputs.go && key !in g
    ensures Tallied(inputs, before[key.ns := GoRow(inputs, RowOf(before, key.ns), key)], g + {key}, {}, {})
  {
    hide GoCells, RustCells, UnreviewedCells, RustOnlyCells, CountedRust, Bump;
    var rows := before[key.ns := GoRow(inputs, RowOf(before, key.ns), key)];
    GoCellsAdd(before, rows, inputs.go, g, key);
    CountedGo(inputs, g, key);
    if key in inputs.rust {
      RustCellsAdd(before, rows, inputs.rust, CountedRust(inputs, g, {}), key);
      assert g + {key} - inputs.rust.Keys == g - inputs.rust.Keys;
      SameCells(before, rows, inputs, g - inputs.rust.Keys, {}, {});
    } else {
      UnreviewedCellsAdd(before, rows, g - inputs.rust.Keys, {}, key);
      assert g + {key} - inputs.rust.Keys == g - inputs.rust.Keys + {key};
      SameCells(before, rows, inputs, {}, {}, CountedRust(inputs, g, {}));
    }
  }

  /** Cells whose counts are carried over unchanged. */
  lemma SameCells(before: map<string, Row>, rows: map<string, Row>, inputs: Inputs, a: set<Key>, b: set<Key>, counted: set<Key>)
    ensures (forall ns :: RowOf(rows, ns).go == RowOf(before, ns).go) ==>
              forall keys :: GoCells(before, inputs.go, keys) ==> GoCells(rows, inputs.go, keys)
    ensures (forall ns :: RowOf(rows, ns).unreviewed == RowOf(before, ns).unreviewed) && UnreviewedCells(before, a, b) ==>
              UnreviewedCells(rows, a, b)
    ensures (forall ns :: RowOf(rows, ns).rust == RowOf(before, ns).rust) && RustCells(before, inputs.rust, counted) ==>
              RustCells(rows, inputs.rust, counted)
    ensures (forall ns :: RowOf(rows, ns).rustOnly == RowOf(before, ns).rustOnly) ==>
              forall keys :: RustOnlyCells(before, keys) ==> RustOnlyCells(rows, keys)
  {
    hide WithStatus, InNamespace, RowOf, Count;
  }

  lemma CountedGo(inputs: Inputs, g: set<Key>, key: Key)
    requires key !in g && key in inputs.go
    ensures key !in CountedRust(inputs, g, {})
    ensures CountedRust(inputs, g + {key}, {})
         == if key in inputs.rust then CountedRust(inputs, g, {}) + {key} else CountedRust(inputs, g, {})
  {
  }

  lemma TallyRust(inputs: Inputs, before: map<string, Row>, r: set<Key>, key: Key)
    requires Tallied(inputs, before, inputs.go.Keys, r, {}) && key in inputs.rust && key !in r
    ensures Tallied(inputs, if key in inputs.go then before
                            else before[key.ns := RustRow(inputs, RowOf(before, key.ns), key)],
                    inputs.go.Keys, r + {key}, {})
  {
    hide GoCells, RustCells, UnreviewedCells, RustOnlyCells, CountedRust, Bump;
    CountedOnly(inputs, r, key);
    if key in inputs.go {
      assert r + {key} - inputs.go.Keys == r - inputs.go.Keys;
    } else {
      var rows := before[key.ns := RustRow(inputs, RowOf(before, key.ns), key)];
      RustCellsAdd(before, rows, inputs.rust, CountedRust(inputs, inputs.go.Keys, r), key);
      RustOnlyCellsAdd(before, rows, r - inputs.go.Keys, key);
      assert r + {key} - inputs.go.Keys == r - inputs.go.Keys + {key};
      SameCells(before, rows, inputs, inputs.go.Keys - inputs.rust.Keys, {}, {});
    }
  }

  lemma CountedOnly(inputs: Inputs, r: set<Key>, key: Key)
    requires key in inputs.rust && key !in r
    ensures key !in inputs.go ==> key !in CountedRust(inputs, inputs.go.Keys, r)
    ensures CountedRust(inputs, inputs.go.Keys, r + {key})
         == if key in inputs.go then CountedRust(inputs, inputs.go.Keys, r)
            else CountedRust(inputs, inputs.go.Keys, r) + {key}
  {
  }

  lemma TallyInventory(inputs: Inputs, before: map<string, Row>, v: set<Key>, key: Key)
    requires Tallied(inputs, before, inputs.go.Keys, inputs.rust.Keys, v) && key !in v
    ensures var row := RowOf(before, key.ns);
            Tallied(inputs, before[key.ns := row.(unreviewed := row.unreviewed + 1)],
                    inputs.go.Keys, inputs.rust.Keys, v + {key})
  {
    hide GoCells, RustCells, UnreviewedCells, RustOnlyCells, CountedRust;
    var row := RowOf(before, key.ns);
    var rows := before[key.ns := row.(unreviewed := row.unreviewed + 1)];
    UnreviewedCellsAdd(before, rows, inputs.go.Keys - inputs.rust.Keys, v, key);
    SameCells(before, rows, inputs, {}, {}, CountedRust(inputs, inputs.go.Keys, inputs.rust.Keys));
  }

  // --- the gap rows and the printed totals -----------------------------------------

  datatype GapRow = GapRow(key: Key, rust: string, go: string, note: string)

  const UNREVIEWED := "unreviewed"

  function AllKeys(inputs: Inputs): set<Key> {
    inputs.go.Keys + inputs.rust.Keys + inputs.inventoryOnly
  }

  function GapOf(inputs: Inputs, key: Key): GapRow {
    GapRow(key,
           if key in inputs.rust then inputs.rust[key].status else UNREVIEWED,
           if key in inputs.go then inputs.go[key].status else "-",
           if key in inputs.rust then inputs.rust[key].note else "")
  }

  predicate IsGap(row: GapRow) {
    row.rust in ["unmapped", "partial", UNREVIEWED]
  }

  ghost predicate DistinctKeys(rows: seq<GapRow>) {
    forall i, j :: 0 <= i < j < |rows| ==> rows[i].key != rows[j].key
  }

  /** Each row's key precedes those of the rows after it. */
  ghost predicate InKeyOrder(rows: seq<GapRow>) {
    forall i, j :: 0 <= i < j < |rows| ==> KeyPrecedes(rows[i].key, rows[j].key)
  }

  method GapRows(inputs: Inputs) returns (rows: seq<GapRow>)
    ensures InKeyOrder(rows) && DistinctKeys(rows)
    ensures forall row :: row in rows <==> IsListed(inputs, row)
  {
    hide GapOf, IsGap, KeyPrecedes, IsListed;
    ListedExactly(inputs);
    rows := [];
    var todo := AllKeys(inputs);
    while todo != {}
      invariant todo <= AllKeys(inputs)
      invariant InKeyOrder(rows)
      invariant forall row, k :: row in rows && k in todo ==> KeyPrecedes(row.key, k)
      invariant forall row :: row in rows <==>
                  row.key in AllKeys(inputs) - todo && row == GapOf(inputs, row.key) && IsGap(row)
      decreases |todo|
    {
      FirstExists(todo);
      var key :| key in todo && forall k :: k in todo - {key} ==> KeyPrecedes(key, k);
      var row := GapOf(inputs, key);
      GapKey(inputs, key);
      if IsGap(row) {
        assert forall i :: 0 <= i < |rows| ==> rows[i] in rows;
        rows := rows + [row];
      }
      todo := todo - {key};
    }
    OrderedIsDistinct(rows);
  }

  lemma OrderedIsDistinct(rows: seq<GapRow>)
    requires InKeyOrder(rows)
    ensures DistinctKeys(rows)
  {
    hide KeyPrecedes;
    forall i, j | 0 <= i < j < |rows|
      ensures rows[i].key != rows[j].key
    {
      KeyOrder(rows[i].key, rows[j].key, rows[j].key);
    }
  }

  // --- the order of keys -----------------------------------------------------------

  predicate Precedes(s: string, t: string) {
    t != "" && (s == "" || s[0] < t[0] || (s[0] == t[0] && Precedes(s[1..], t[1..])))
  }

  predicate KeyPrecedes(a: Key, b: Key) {
    || Precedes(a.ns, b.ns)
    || (a.ns == b.ns && (|| Precedes(a.ty, b.ty)
                         || (a.ty == b.ty && (|| Precedes(a.group, b.group)
                                              || (a.group == b.group && Precedes(a.member, b.member))))))
  }

  /** The order of texts is strict and total. */
  lemma {:induction false} TextOrder(s: string, t: string, u: string)
    ensures !(Precedes(s, t) && Precedes(t, s))
    ensures s != t ==> Precedes(s, t) || Precedes(t, s)
    ensures Precedes(s, t) && Precedes(t, u) ==> Precedes(s, u)
  {
    if s != "" && t != "" {
      TextOrder(s[1..], t[1..], if u == "" then u else u[1..]);
      assert s == [s[0]] + s[1..] && t == [t[0]] + t[1..];
    }
  }

  /** The order of keys is strict and total. */
  lemma KeyOrder(a: Key, b: Key, c: Key)
    ensures !(KeyPrecedes(a, b) && KeyPrecedes(b, a))
    ensures a != b ==> KeyPrecedes(a, b) || KeyPrecedes(b, a)
    ensures KeyPrecedes(a, b) && KeyPrecedes(b, c) ==> KeyPrecedes(a, c)
  {
    hide Precedes;
    TextOrder(a.ns, b.ns, c.ns);
    TextOrder(a.ty, b.ty, c.ty);
    TextOrder(a.group, b.group, c.group);
    TextOrder(a.member, b.member, c.member);
  }

  lemma {:induction false} FirstExists(keys: set<Key>)
    requires keys != {}
    ensures exists first :: first in keys && forall k :: k in keys - {first} ==> KeyPrecedes(first, k)
    decreases |keys|
  {
    hide KeyPrecedes;
    var key :| key in keys;
    var rest := keys - {key};
    if rest == {} {
      assert forall k :: k in keys - {key} ==> KeyPrecedes(key, k);
    } else {
      FirstExists(rest);
      var first :| first in rest && forall k :: k in rest - {first} ==> KeyPrecedes(first, k);
      KeyOrder(first, key, key);
      if KeyPrecedes(first, key) {
        assert forall k :: k in keys - {first} ==> KeyPrecedes(first, k);
      } else {
        forall k | k in keys - {key}
          ensures KeyPrecedes(key, k)
        {
          KeyOrder(key, first, k);
        }
      }
    }
  }

  /**
   A row for a declaration Rust does not have in full: one it assesses as partial or unmapped,
   with its note, or one that Go or .NET has and Rust has not reviewed.
   */
  predicate IsListed(inputs: Inputs, row: GapRow) {
    && (row.key in inputs.go || row.key in inputs.rust || row.key in inputs.inventoryOnly)
    && (if row.key in inputs.rust then
          && row.rust == inputs.rust[row.key].status && row.note == inputs.rust[row.key].note
          && row.rust in {"partial", "unmapped", "unreviewed"}
        else row.rust == "unreviewed" && row.note == "")
    && row.go == if row.key in inputs.go then inputs.go[row.key].status else "-"
  }

  lemma ListedExactly(inputs: Inputs)
    ensures forall row :: IsListed(inputs, row) <==> row.key in AllKeys(inputs) && row == GapOf(inputs, row.key) && IsGap(row)
  {
  }

  lemma GapKey(inputs: Inputs, key: Key)
    ensures GapOf(inputs, key).key == key
  {
  }

  /** The rows that satisfy `keep`, in order. */
  function Filter(rows: seq<GapRow>, keep: GapRow -> bool): (r: seq<GapRow>)
    ensures forall row :: row in r <==> row in rows && keep(row)
    ensures |r| <= |rows|
  {
    if rows == [] then []
    else (if keep(rows[0]) then [rows[0]] else []) + Filter(rows[1..], keep)
  }

  predicate IsKnownStatus(status: string) {
    status in {"mapped", "adapted", "partial", "unmapped", "intentional"}
  }

  predicate KnownStatuses(inputs: Inputs) {
    && (forall k :: k in inputs.go ==> IsKnownStatus(inputs.go[k].status))
    && (forall k :: k in inputs.rust ==> IsKnownStatus(inputs.rust[k].status))
  }

  /** The keys Rust has not reviewed. */
  function UnreviewedKeys(inputs: Inputs): set<Key> {
    inputs.go.Keys + inputs.inventoryOnly - inputs.rust.Keys
  }

  function KeysOfRows(rows: seq<GapRow>): set<Key> {
    set row | row in rows :: row.key
  }

  lemma FirstIsDistinct(rows: seq<GapRow>)
    requires rows != [] && DistinctKeys(rows)
    ensures DistinctKeys(rows[1..]) && forall row :: row in rows[1..] ==> row.key != rows[0].key
  {
    forall row | row in rows[1..]
      ensures row.key != rows[0].key
    {
      var i :| 0 <= i < |rows[1..]| && rows[1..][i] == row;
      assert rows[i + 1] == row;
    }
  }

  lemma {:induction false} DistinctSize(rows: seq<GapRow>)
    requires DistinctKeys(rows)
    ensures |KeysOfRows(rows)| == |rows|
    decreases |rows|
  {
    hide DistinctKeys, KeysOfRows;
    if rows == [] {
      NoKeys();
    } else {
      FirstIsDistinct(rows);
      DistinctSize(rows[1..]);
      KeysStep(rows);
    }
  }

  lemma NoKeys()
    ensures KeysOfRows([]) == {}
  {
  }

  lemma KeysStep(rows: seq<GapRow>)
    requires rows != [] && forall row :: row in rows[1..] ==> row.key != rows[0].key
    ensures |KeysOfRows(rows)| == 1 + |KeysOfRows(rows[1..])|
  {
    assert rows == [rows[0]] + rows[1..];
    assert KeysOfRows(rows) == {rows[0].key} + KeysOfRows(rows[1..]);
  }

  lemma DistinctCount(rows: seq<GapRow>, keys: set<Key>)
    requires DistinctKeys(rows)
    requires forall k :: k in keys <==> exists row :: row in rows && row.key == k
    ensures |rows| == |keys|
  {
    hide DistinctKeys;
    DistinctSize(rows);
    assert keys == KeysOfRows(rows);
  }

  /** Splitting a list of rows in two loses and repeats none. */
  lemma {:induction false} FilterSplits(rows: seq<GapRow>, keep: GapRow -> bool, drop: GapRow -> bool)
    requires forall row :: keep(row) <==> !drop(row)
    ensures |Filter(rows, keep)| + |Filter(rows, drop)| == |rows|
  {
    if rows != [] {
      FilterSplits(rows[1..], keep, drop);
    }
  }

  lemma {:induction false} FilterDistinct(rows: seq<GapRow>, keep: GapRow -> bool)
    requires DistinctKeys(rows)
    ensures DistinctKeys(Filter(rows, keep))
    decreases |rows|
  {
    hide DistinctKeys;
    if rows == [] {
      NoRowsDistinct();
    } else {
      FirstIsDistinct(rows);
      FilterDistinct(rows[1..], keep);
      var rest := Filter(rows[1..], keep);
      if keep(rows[0]) {
        DistinctCons(rows[0], rest);
      } else {
        assert [] + rest == rest;
      }
    }
  }

  lemma NoRowsDistinct()
    ensures DistinctKeys([])
  {
  }

  lemma DistinctCons(row: GapRow, rows: seq<GapRow>)
    requires DistinctKeys(rows) && forall r :: r in rows ==> r.key != row.key
    ensures DistinctKeys([row] + rows)
  {
  }

  /** The keys of some namespaces. */
  function InNamespaces(keys: set<Key>, names: set<string>): set<Key> {
    set k | k in keys && k.ns in names
  }

  lemma InNamespacesAdd(keys: set<Key>, names: set<string>, ns: string)
    requires ns !in names
    ensures |InNamespaces(keys, names + {ns})| == |InNamespaces(keys, names)| + |InNamespace(keys, ns)|
  {
    assert InNamespaces(keys, names + {ns}) == InNamespaces(keys, names) + InNamespace(keys, ns);
    assert InNamespaces(keys, names) !! InNamespace(keys, ns);
  }

  /** The loop of the report that adds up the rows' unreviewed cells. */
  method SumUnreviewed(inputs: Inputs, rows: map<string, Row>) returns (total: nat)
    requires Tallied(inputs, rows, inputs.go.Keys, inputs.rust.Keys, inputs.inventoryOnly)
    ensures total == |inputs.go.Keys - inputs.rust.Keys| + |inputs.inventoryOnly|
  {
    ghost var a, b := inputs.go.Keys - inputs.rust.Keys, inputs.inventoryOnly;
    EveryNamespace(inputs, rows);
    hide InNamespaces, InNamespace, Tallied;
    total := 0;
    var todo := rows.Keys;
    NoNamespaces(a);
    NoNamespaces(b);
    TakenNames(rows.Keys);
    while todo != {}
      invariant todo <= rows.Keys
      invariant total == |InNamespaces(a, rows.Keys - todo)| + |InNamespaces(b, rows.Keys - todo)|
      decreases |todo|
    {
      var ns :| ns in todo;
      InNamespacesAdd(a, rows.Keys - todo, ns);
      InNamespacesAdd(b, rows.Keys - todo, ns);
      TakeName(rows.Keys, todo, ns);
      total := total + rows[ns].unreviewed;
      todo := todo - {ns};
    }
  }

  lemma NoNamespaces(keys: set<Key>)
    ensures InNamespaces(keys, {}) == {}
  {
  }

  lemma TakenNames(names: set<string>)
    ensures names - {} == names && names - names == {}
  {
  }

  lemma TakeName(names: set<string>, todo: set<string>, ns: string)
    requires ns in todo && todo <= names
    ensures names - (todo - {ns}) == (names - todo) + {ns}
  {
  }

  /** Every unreviewed key's namespace has a row. */
  lemma EveryNamespace(inputs: Inputs, rows: map<string, Row>)
    requires Tallied(inputs, rows, inputs.go.Keys, inputs.rust.Keys, inputs.inventoryOnly)
    ensures InNamespaces(inputs.go.Keys - inputs.rust.Keys, rows.Keys) == inputs.go.Keys - inputs.rust.Keys
    ensures InNamespaces(inputs.inventoryOnly, rows.Keys) == inputs.inventoryOnly
    ensures forall ns :: ns in rows ==>
              rows[ns].unreviewed == |InNamespace(inputs.go.Keys - inputs.rust.Keys, ns)| + |InNamespace(inputs.inventoryOnly, ns)|
  {
    var a, b := inputs.go.Keys - inputs.rust.Keys, inputs.inventoryOnly;
    forall ns | ns in rows
      ensures rows[ns].unreviewed == |InNamespace(a, ns)| + |InNamespace(b, ns)|
    {
      assert RowOf(rows, ns) == rows[ns];
    }
    forall k: Key | k in a + b
      ensures k.ns in rows
    {
      assert RowOf(rows, k.ns).unreviewed == |InNamespace(a, k.ns)| + |InNamespace(b, k.ns)|;
      assert k in a ==> k in InNamespace(a, k.ns);
      assert k in b ==> k in InNamespace(b, k.ns);
    }
  }

  /**
   The report's printed sections. Every gap row lands in exactly one, and the printed
   total is the number of unreviewed rows exactly when inventory-only keys are in
   neither catalog.
   */
  method Sections(inputs: Inputs) returns (total: nat, gaps: seq<GapRow>, assessed: seq<GapRow>, inGo: seq<GapRow>, dotnetOnly: seq<GapRow>)
    requires KnownStatuses(inputs)
    ensures forall row :: row in gaps <==> IsListed(inputs, row)
    ensures |assessed| + |inGo| + |dotnetOnly| == |gaps|
    ensures forall row :: row in assessed <==> row in gaps && row.rust != UNREVIEWED
    ensures forall row :: row in inGo <==> row in gaps && row.rust == UNREVIEWED && row.key !in inputs.inventoryOnly
    ensures forall row :: row in dotnetOnly <==> row in gaps && row.rust == UNREVIEWED && row.key in inputs.inventoryOnly
    ensures |inGo| + |dotnetOnly| == |UnreviewedKeys(inputs)|
    ensures total == |inGo| + |dotnetOnly| <==> IsDisjoint(inputs)
  {
    hide GapOf, IsGap, IsListed, Tallied;
    var rows := Tally(inputs);
    total := SumUnreviewed(inputs, rows);
    gaps := GapRows(inputs);
    ListedExactly(inputs);
    assessed := Filter(gaps, (row: GapRow) => row.rust != UNREVIEWED);
    var unreviewed := Filter(gaps, (row: GapRow) => row.rust == UNREVIEWED);
    FilterSplits(gaps, (row: GapRow) => row.rust != UNREVIEWED, (row: GapRow) => row.rust == UNREVIEWED);
    FilterDistinct(gaps, (row: GapRow) => row.rust == UNREVIEWED);
    dotnetOnly := Filter(unreviewed, (row: GapRow) => row.key in inputs.inventoryOnly);
    inGo := Filter(unreviewed, (row: GapRow) => row.key !in inputs.inventoryOnly);
    FilterSplits(unreviewed, (row: GapRow) => row.key in inputs.inventoryOnly, (row: GapRow) => row.key !in inputs.inventoryOnly);
    UnreviewedRows(inputs, gaps, unreviewed);
    DistinctCount(unreviewed, UnreviewedKeys(inputs));
    TotalIsExact(inputs);
  }

  lemma UnreviewedRows(inputs: Inputs, gaps: seq<GapRow>, unreviewed: seq<GapRow>)
    requires KnownStatuses(inputs)
    requires forall row :: row in gaps <==> row.key in AllKeys(inputs) && row == GapOf(inputs, row.key) && IsGap(row)
    requires forall row :: row in unreviewed <==> row in gaps && row.rust == UNREVIEWED
    ensures forall k :: k in UnreviewedKeys(inputs) <==> exists row :: row in unreviewed && row.key == k
  {
    forall k | k in UnreviewedKeys(inputs)
      ensures exists row :: row in unreviewed && row.key == k
    {
      assert GapOf(inputs, k) in gaps;
      assert GapOf(inputs, k) in unreviewed;
    }
  }

  lemma TotalIsExact(inputs: Inputs)
    ensures |inputs.go.Keys - inputs.rust.Keys| + |inputs.inventoryOnly| == |UnreviewedKeys(inputs)| <==> IsDisjoint(inputs)
  {
    hide UnreviewedKeys, IsDisjoint;
    UnreviewedSize(inputs);
    DisjointFromCatalogs(inputs);
    DifferenceSize(inputs.inventoryOnly, inputs.go.Keys + inputs.rust.Keys);
  }

  lemma UnreviewedSize(inputs: Inputs)
    ensures |UnreviewedKeys(inputs)|
         == |inputs.go.Keys - inputs.rust.Keys| + |inputs.inventoryOnly - (inputs.go.Keys + inputs.rust.Keys)|
  {
    var (a, b, c) := (inputs.go.Keys - inputs.rust.Keys, inputs.inventoryOnly, inputs.go.Keys + inputs.rust.Keys);
    SameUnion(a, b, c, UnreviewedKeys(inputs));
    hide UnreviewedKeys;
    DisjointSizes(a, b - c);
  }

  lemma DisjointFromCatalogs(inputs: Inputs)
    ensures IsDisjoint(inputs) <==> inputs.inventoryOnly !! inputs.go.Keys + inputs.rust.Keys
  {
  }

  lemma SameUnion(a: set<Key>, b: set<Key>, c: set<Key>, all: set<Key>)
    requires a <= c && forall k :: k in all <==> k in a || k in b - c
    ensures all == a + (b - c)
  {
  }

  lemma DifferenceSize(b: set<Key>, c: set<Key>)
    ensures |b - c| == |b| <==> b !! c
  {
    if |b - c| == |b| {
      SubsetSameSize(b - c, b);
      assert forall k :: k in b ==> k in b - c;
    }
    if b !! c {
      assert b - c == b;
    }
  }

  lemma DisjointSizes(a: set<Key>, b: set<Key>)
    requires a !! b
    ensures |a + b| == |a| + |b|
  {
  }

  lemma SubsetSameSize(a: set<Key>, b: set<Key>)
    requires a <= b && |a| == |b|
    ensures a == b
  {
    assert |b - a| == |b| - |a|;
  }

  // --- the rows conserve the keys --------------------------------------------------

  function CountsOf(counts: map<string, nat>, statuses: seq<string>): (r: seq<nat>)
    ensures |r| == |statuses|
    ensures forall i :: 0 <= i < |r| ==> r[i] == Count(counts, statuses[i])
  {
    seq(|statuses|, i requires 0 <= i < |statuses| => Count(counts, statuses[i]))
  }

  /** The numbers one cell prints, in status order. */
  function Counts(counts: map<string, nat>): seq<nat> {
    CountsOf(counts, STATUSES)
  }

  function Sum(numbers: seq<nat>): nat {
    if numbers == [] then 0 else numbers[0] + Sum(numbers[1..])
  }

  function WithStatuses(keys: set<Key>, leaves: map<Key, Leaf>, ns: string, statuses: seq<string>): set<Key> {
    set k | k in keys && k in leaves && k.ns == ns && leaves[k].status in statuses
  }

  lemma {:induction false} CountsAddUp(counts: map<string, nat>, keys: set<Key>, leaves: map<Key, Leaf>, ns: string, statuses: seq<string>)
    requires forall i, j :: 0 <= i < j < |statuses| ==> statuses[i] != statuses[j]
    requires forall s :: Count(counts, s) == |WithStatus(keys, leaves, ns, s)|
    ensures Sum(CountsOf(counts, statuses)) == |WithStatuses(keys, leaves, ns, statuses)|
    decreases |statuses|
  {
    hide WithStatus, Count;
    if statuses == [] {
      NoStatuses(keys, leaves, ns);
    } else {
      CountsAddUp(counts, keys, leaves, ns, statuses[1..]);
      assert CountsOf(counts, statuses)[1..] == CountsOf(counts, statuses[1..]);
      FirstStatus(keys, leaves, ns, statuses);
    }
  }

  lemma NoStatuses(keys: set<Key>, leaves: map<Key, Leaf>, ns: string)
    ensures WithStatuses(keys, leaves, ns, []) == {}
  {
  }

  lemma FirstStatus(keys: set<Key>, leaves: map<Key, Leaf>, ns: string, statuses: seq<string>)
    requires statuses != [] && statuses[0] !in statuses[1..]
    ensures |WithStatuses(keys, leaves, ns, statuses)|
         == |WithStatus(keys, leaves, ns, statuses[0])| + |WithStatuses(keys, leaves, ns, statuses[1..])|
  {
    var first, rest := WithStatus(keys, leaves, ns, statuses[0]), WithStatuses(keys, leaves, ns, statuses[1..]);
    assert statuses == [statuses[0]] + statuses[1..];
    assert WithStatuses(keys, leaves, ns, statuses) == first + rest;
    assert first !! rest;
  }

  /**
   Conservation: in every namespace the Go cells add up to Go's keys, and the Rust cells
   with the unreviewed ones to every key there is, exactly when inventory-only keys are
   in neither catalog.
   */
  lemma RowsConserveKeys(inputs: Inputs, rows: map<string, Row>)
    requires KnownStatuses(inputs)
    requires Tallied(inputs, rows, inputs.go.Keys, inputs.rust.Keys, inputs.inventoryOnly)
    ensures forall ns :: Sum(Counts(RowOf(rows, ns).go)) == |InNamespace(inputs.go.Keys, ns)|
    ensures forall ns :: RowOf(rows, ns).rustOnly == |InNamespace(inputs.rust.Keys - inputs.go.Keys, ns)|
    ensures (forall ns :: Sum(Counts(RowOf(rows, ns).rust)) + RowOf(rows, ns).unreviewed == |InNamespace(AllKeys(inputs), ns)|)
       <==> IsDisjoint(inputs)
  {
    var shared := inputs.inventoryOnly * (inputs.go.Keys + inputs.rust.Keys);
    SharedKeys(inputs);
    hide InNamespace, IsDisjoint, RowOf, Counts, Sum;
    forall ns
      ensures Sum(Counts(RowOf(rows, ns).go)) == |InNamespace(inputs.go.Keys, ns)|
      ensures Sum(Counts(RowOf(rows, ns).rust)) + RowOf(rows, ns).unreviewed
           == |InNamespace(AllKeys(inputs), ns)| + |InNamespace(shared, ns)|
    {
      GoConserves(inputs, rows, ns);
      RustConserves(inputs, rows, ns);
      UnionSize(inputs.go.Keys + inputs.rust.Keys, inputs.inventoryOnly, ns);
    }
    NoneShared(shared);
    assert shared == {} <==> IsDisjoint(inputs);
  }

  lemma SharedKeys(inputs: Inputs)
    ensures inputs.inventoryOnly * (inputs.go.Keys + inputs.rust.Keys) == {} <==> IsDisjoint(inputs)
  {
    var shared := inputs.inventoryOnly * (inputs.go.Keys + inputs.rust.Keys);
    assert forall k :: k in shared <==> k in inputs.inventoryOnly && (k in inputs.go || k in inputs.rust);
  }

  lemma NoneShared(shared: set<Key>)
    ensures (forall ns :: |InNamespace(shared, ns)| == 0) <==> shared == {}
  {
    if shared != {} {
      var k :| k in shared;
      assert k in InNamespace(shared, k.ns);
    } else {
      assert forall ns :: InNamespace(shared, ns) == {};
    }
  }

  lemma UnionSize(a: set<Key>, b: set<Key>, ns: string)
    ensures |InNamespace(a, ns)| + |InNamespace(b, ns)| == |InNamespace(a + b, ns)| + |InNamespace(b * a, ns)|
  {
    assert InNamespace(a + b, ns) == InNamespace(a, ns) + InNamespace(b, ns);
    assert InNamespace(b * a, ns) == InNamespace(a, ns) * InNamespace(b, ns);
  }

  lemma GoConserves(inputs: Inputs, rows: map<string, Row>, ns: string)
    requires KnownStatuses(inputs) && GoCells(rows, inputs.go, inputs.go.Keys)
    ensures Sum(Counts(RowOf(rows, ns).go)) == |InNamespace(inputs.go.Keys, ns)|
  {
    hide WithStatus, Count, RowOf, Sum;
    StatusesDiffer();
    CountsAddUp(RowOf(rows, ns).go, inputs.go.Keys, inputs.go, ns, STATUSES);
    AllKnown(inputs.go, ns);
  }

  lemma RustConserves(inputs: Inputs, rows: map<string, Row>, ns: string)
    requires KnownStatuses(inputs)
    requires Tallied(inputs, rows, inputs.go.Keys, inputs.rust.Keys, inputs.inventoryOnly)
    ensures Sum(Counts(RowOf(rows, ns).rust)) + RowOf(rows, ns).unreviewed
         == |InNamespace(inputs.go.Keys + inputs.rust.Keys, ns)| + |InNamespace(inputs.inventoryOnly, ns)|
  {
    hide WithStatus, CountedRust, Count, RowOf, Sum, GoCells, RustOnlyCells;
    AllCounted(inputs);
    StatusesDiffer();
    CountsAddUp(RowOf(rows, ns).rust, inputs.rust.Keys, inputs.rust, ns, STATUSES);
    AllKnown(inputs.rust, ns);
    hide STATUSES, WithStatuses;
    NamespaceUnion(inputs.go.Keys, inputs.rust.Keys, ns);
  }

  lemma NamespaceUnion(go: set<Key>, rust: set<Key>, ns: string)
    ensures |InNamespace(go + rust, ns)| == |InNamespace(rust, ns)| + |InNamespace(go - rust, ns)|
  {
    assert InNamespace(go + rust, ns) == InNamespace(rust, ns) + InNamespace(go - rust, ns);
    DisjointSizes(InNamespace(rust, ns), InNamespace(go - rust, ns));
  }

  lemma StatusesDiffer()
    ensures forall i, j :: 0 <= i < j < |STATUSES| ==> STATUSES[i] != STATUSES[j]
  {
    assert STATUSES[0][2] == 'p' && STATUSES[1][0] == 'a' && STATUSES[2][0] == 'p' && STATUSES[3][0] == 'u';
  }

  lemma AllCounted(inputs: Inputs)
    ensures CountedRust(inputs, inputs.go.Keys, inputs.rust.Keys) == inputs.rust.Keys
  {
  }

  lemma AllKnown(leaves: map<Key, Leaf>, ns: string)
    requires forall k :: k in leaves ==> leaves[k].status in STATUSES
    ensures WithStatuses(leaves.Keys, leaves, ns, STATUSES) == InNamespace(leaves.Keys, ns)
  {
  }
}
