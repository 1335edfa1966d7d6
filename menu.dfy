/** The menu normaliser of js/parser.js: the allergen columns of a row
    (`getAllergens`, `getAllergenKeys`) and `processMenuData`, which keeps the
    active rows, groups them into categories in first-seen order and sorts the
    categories by the order the categories table gives them. */
module Menu {
  import opened Collections
  import opened Text
  import opened Values
  import opened Utils

  // ------------------------------------------------------------ allergens

  /** What the allergen catalog says about one allergen: its display number and
      its other fields (icon, names), carried along unchanged. */
  datatype AllergenInfo = AllergenInfo(number: real, fields: map<string, Json>)

  /** The allergen catalog in object order: column key and its entry. */
  type AllergenCatalog = seq<(string, AllergenInfo)>

  /** `{ ...info, colKey }`. */
  datatype Allergen = Allergen(colKey: string, info: AllergenInfo)

  function AllergenNumber(a: Allergen): real {
    a.info.number
  }

  /** The columns a row flags (in the sense of `IsTruthyIn(words, _)`). */
  function FlaggedColumns(row: Record, words: set<string>): (cols: set<string>)
    ensures forall col :: col in cols <==> IsTruthyIn(words, Get(row, col))
  {
    var cols := set col | col in row && IsTruthyIn(words, row[col]);
    assert forall col | col !in row :: Get(row, col) == [];
    cols
  }

  /** The catalog entries whose column is in `cols`, in catalog order. */
  function FlaggedBy(catalog: AllergenCatalog, cols: set<string>): (r: seq<Allergen>)
    ensures |r| <= |catalog|
  {
    if |catalog| == 0 then []
    else
      var e := catalog[|catalog| - 1];
      FlaggedBy(catalog[..|catalog| - 1], cols) + (if e.0 in cols then [Allergen(e.0, e.1)] else [])
  }

  /** The catalog's column keys that are in `cols`, in catalog order. */
  function KeysBy(catalog: AllergenCatalog, cols: set<string>): seq<string> {
    if |catalog| == 0 then []
    else
      var col := catalog[|catalog| - 1].0;
      KeysBy(catalog[..|catalog| - 1], cols) + (if col in cols then [col] else [])
  }

  function Flagged(catalog: AllergenCatalog, row: Record, words: set<string>): seq<Allergen> {
    FlaggedBy(catalog, FlaggedColumns(row, words))
  }

  /** `getAllergens`: the flagged entries sorted by number (stably). */
  function GetAllergens(catalog: AllergenCatalog, row: Record, words: set<string>): seq<Allergen> {
    SortBy(Flagged(catalog, row, words), AllergenNumber)
  }

  /** `getAllergenKeys`: the flagged column keys in catalog order. */
  function GetAllergenKeys(catalog: AllergenCatalog, row: Record, words: set<string>): seq<string> {
    KeysBy(catalog, FlaggedColumns(row, words))
  }

  /** Every allergen selected comes from a catalog entry whose column is in `cols`. */
  lemma {:induction false} FlaggedSound(catalog: AllergenCatalog, cols: set<string>, k: nat)
    requires k < |FlaggedBy(catalog, cols)|
    ensures var a := FlaggedBy(catalog, cols)[k];
      a.colKey in cols && exists i :: 0 <= i < |catalog| && catalog[i] == (a.colKey, a.info)
  {
    var n := |catalog| - 1;
    var f := FlaggedBy(catalog[..n], cols);
    var a := FlaggedBy(catalog, cols)[k];
    if k < |f| {
      assert a == f[k];
      FlaggedSound(catalog[..n], cols, k);
      var i :| 0 <= i < n && catalog[..n][i] == (a.colKey, a.info);
      assert catalog[i] == (a.colKey, a.info);
    } else {
      assert catalog[n] == (a.colKey, a.info);
    }
  }

  /** Every catalog entry whose column is in `cols` is selected. */
  lemma {:induction false} FlaggedComplete(catalog: AllergenCatalog, cols: set<string>, i: nat)
    requires i < |catalog| && catalog[i].0 in cols
    ensures Allergen(catalog[i].0, catalog[i].1) in FlaggedBy(catalog, cols)
  {
    var n := |catalog| - 1;
    if i < n {
      assert catalog[..n][i] == catalog[i];
      FlaggedComplete(catalog[..n], cols, i);
    }
  }

  /** `getAllergens` reports an allergen exactly when the catalog lists it and
      the row flags its column. */
  lemma GetAllergensMembers(catalog: AllergenCatalog, row: Record, words: set<string>, a: Allergen)
    ensures a in GetAllergens(catalog, row, words) <==>
              IsTruthyIn(words, Get(row, a.colKey)) && exists i :: 0 <= i < |catalog| && catalog[i] == (a.colKey, a.info)
  {
    var cols := FlaggedColumns(row, words);
    var f := FlaggedBy(catalog, cols);
    assert a in GetAllergens(catalog, row, words) <==> a in f by {
      SortByMembers(f, AllergenNumber);
    }
    if a in f {
      var k :| 0 <= k < |f| && f[k] == a;
      FlaggedSound(catalog, cols, k);
    }
    if IsTruthyIn(words, Get(row, a.colKey)) && exists i :: 0 <= i < |catalog| && catalog[i] == (a.colKey, a.info) {
      var i :| 0 <= i < |catalog| && catalog[i] == (a.colKey, a.info);
      FlaggedComplete(catalog, cols, i);
    }
  }

  /** `getAllergens` lists the flagged allergens (each as often as the catalog
      does) in ascending order of number, equal numbers in catalog order. */
  lemma GetAllergensSorted(catalog: AllergenCatalog, row: Record, words: set<string>)
    ensures SortedBy(GetAllergens(catalog, row, words), AllergenNumber)
    ensures multiset(GetAllergens(catalog, row, words)) == multiset(Flagged(catalog, row, words))
    ensures forall v :: WithKey(GetAllergens(catalog, row, words), AllergenNumber, v)
                     == WithKey(Flagged(catalog, row, words), AllergenNumber, v)
  {
    SortBySorted(Flagged(catalog, row, words), AllergenNumber);
    SortByPermutes(Flagged(catalog, row, words), AllergenNumber);
    forall v ensures WithKey(GetAllergens(catalog, row, words), AllergenNumber, v)
                  == WithKey(Flagged(catalog, row, words), AllergenNumber, v) {
      SortByStable(Flagged(catalog, row, words), AllergenNumber, v);
    }
  }

  /** The keys selected are the column keys of the entries selected, in catalog order. */
  lemma {:induction false} KeysFlagged(catalog: AllergenCatalog, cols: set<string>)
    ensures |KeysBy(catalog, cols)| == |FlaggedBy(catalog, cols)|
    ensures forall i :: 0 <= i < |FlaggedBy(catalog, cols)| ==>
              KeysBy(catalog, cols)[i] == FlaggedBy(catalog, cols)[i].colKey
  {
    if |catalog| > 0 {
      KeysFlagged(catalog[..|catalog| - 1], cols);
    }
  }

  /** `getAllergenKeys` lists the column keys of the allergens `getAllergens`
      reports, in catalog order rather than by number. */
  lemma AllergenKeysFlagged(catalog: AllergenCatalog, row: Record, words: set<string>)
    ensures |GetAllergenKeys(catalog, row, words)| == |Flagged(catalog, row, words)|
    ensures forall i :: 0 <= i < |Flagged(catalog, row, words)| ==>
              GetAllergenKeys(catalog, row, words)[i] == Flagged(catalog, row, words)[i].colKey
  {
    KeysFlagged(catalog, FlaggedColumns(row, words));
  }

  // ------------------------------------------------------------ items and categories

  datatype Item = Item(nameIt: string, nameEn: string, descIt: string, descEn: string,
                       price: Price, order: real, allergens: seq<Allergen>,
                       allergenKeys: seq<string>, tipo: string, noGlutenOption: bool)

  datatype Category = Category(id: string, nameIt: string, nameEn: string, order: real, items: seq<Item>)

  datatype MenuData = MenuData(categories: seq<Category>, lastSheetUpdate: Option<string>)

  function CategoryOrder(c: Category): real {
    c.order
  }

  /** `parseFloat(x) || 999`: a missing, unreadable or zero order is 999. */
  function OrderValue(s: string): (r: real)
    ensures r != 0.0
    ensures ParseFloat(s).Some? && ParseFloat(s).value != 0.0 ==> r == ParseFloat(s).value
    ensures ParseFloat(s).None? || ParseFloat(s).value == 0.0 ==> r == 999.0
  {
    match ParseFloat(s)
    case Some(x) => if x != 0.0 then x else 999.0
    case None => 999.0
  }

  /** The raw `cat.id` used as a property name (`undefined` when the column is absent). */
  function RawId(cat: Record): string {
    if "id" in cat then cat["id"] else "undefined"
  }

  function OrderEntries(cats: seq<Record>): (r: seq<(string, real)>)
    ensures |r| == |cats|
    ensures forall i :: 0 <= i < |cats| ==> r[i] == (RawId(cats[i]), OrderValue(Get(cats[i], "order")))
  {
    seq(|cats|, i requires 0 <= i < |cats| => (RawId(cats[i]), OrderValue(Get(cats[i], "order"))))
  }

  /** `categoryOrderMap`, keyed by the raw `id`; a later row wins. */
  function OrderMap(cats: seq<Record>): map<string, real> {
    LastWins(OrderEntries(cats))
  }

  /** The normalised id a categories row labels: `category_id`, else `id`. */
  function LabelId(cat: Record): string {
    Key(Or(Get(cat, "category_id"), Get(cat, "id")))
  }

  function LabelEntry(cat: Record): (string, (string, string)) {
    var id := LabelId(cat);
    (id, (Or(Get(cat, "label_it"), id), Or(Get(cat, "label_en"), id)))
  }

  function LabelEntries(cats: seq<Record>): (r: seq<(string, (string, string))>)
    ensures |r| == |cats|
    ensures forall i :: 0 <= i < |cats| ==> r[i] == LabelEntry(cats[i])
  {
    seq(|cats|, i requires 0 <= i < |cats| => LabelEntry(cats[i]))
  }

  /** `categoryLabelMap`: normalised id to (Italian, English) label; a later row wins. */
  function LabelMap(cats: seq<Record>): map<string, (string, string)> {
    LastWins(LabelEntries(cats))
  }

  /** `categoryOrderMap[catId] || 999`. */
  function OrderFor(om: map<string, real>, id: string): real {
    if id in om && om[id] != 0.0 then om[id] else 999.0
  }

  /** `categoryLabelMap[catId] || { label_it: catId, label_en: catId }`. */
  function LabelsFor(lm: map<string, (string, string)>, id: string): (string, string) {
    if id in lm then lm[id] else (id, id)
  }

  /** The rows `processMenuData` keeps: `active` is truthy. */
  function Active(rows: seq<Record>): (r: seq<Record>)
    ensures |r| <= |rows|
    ensures forall i :: 0 <= i < |r| ==> r[i] in rows && IsTruthy(Get(r[i], "active"))
  {
    if |rows| == 0 then []
    else
      var last := rows[|rows| - 1];
      Active(rows[..|rows| - 1]) + (if IsTruthy(Get(last, "active")) then [last] else [])
  }

  /** A row `processMenuData` keeps. */
  predicate IsActive(row: Record) {
    IsTruthy(Get(row, "active"))
  }

  /** `Active` is `filter(row => isTruthy(row.active))`: every row with a
      truthy `active` is kept, nothing else is, and the input order is kept. */
  lemma {:induction false} ActiveFilter(rows: seq<Record>)
    ensures Active(rows) == Filter(rows, IsActive)
    ensures forall x :: x in Active(rows) <==> x in rows && IsTruthy(Get(x, "active"))
  {
    if |rows| > 0 {
      ActiveFilter(rows[..|rows| - 1]);
    }
    forall x ensures x in Active(rows) <==> x in rows && IsTruthy(Get(x, "active")) {
      FilterMembers(rows, IsActive, x);
    }
  }

  /** The trimmed `col` of every row. */
  function Stamps(rows: seq<Record>, col: string): (r: seq<string>)
    ensures |r| == |rows|
    ensures forall i :: 0 <= i < |rows| ==> r[i] == Trim(Get(rows[i], col))
  {
    seq(|rows|, i requires 0 <= i < |rows| => Trim(Get(rows[i], col)))
  }

  /** The last non-empty text. */
  function LastNonBlank(vs: seq<string>): Option<string> {
    if |vs| == 0 then None
    else if vs[|vs| - 1] != [] then Some(vs[|vs| - 1])
    else LastNonBlank(vs[..|vs| - 1])
  }

  /** The last non-blank trimmed `col` over all rows. */
  function LastUpdate(rows: seq<Record>, col: string): Option<string> {
    LastNonBlank(Stamps(rows, col))
  }

  /** The normalised category of a row, `other` when blank. */
  function CatIdOf(row: Record): string {
    Key(Or(Get(row, "category"), "other"))
  }

  /** The item built from the `index`-th active row. */
  function MakeItem(row: Record, index: nat, catalog: AllergenCatalog): (r: Item)
    ensures r.order == index as real
  {
    Item(Get(row, "name_it"), Or(Get(row, "name_en"), Get(row, "name_it")),
         Get(row, "description_it"), Or(Get(row, "description_en"), Get(row, "description_it")),
         ParsePrice(Get(row, "price"), "us"), index as real,
         GetAllergens(catalog, row, TruthyWords), GetAllergenKeys(catalog, row, TruthyWords),
         Key(Or(Get(row, "type"), "standard")), IsTruthy(Get(row, "no_gluten_option")))
  }

  /** The position of the category with this id, if any. */
  function FindCat(cats: seq<Category>, id: string): (r: Option<nat>)
    ensures r.Some? ==> r.value < |cats| && cats[r.value].id == id
    ensures r.None? ==> forall k :: 0 <= k < |cats| ==> cats[k].id != id
  {
    if |cats| == 0 then None
    else if cats[|cats| - 1].id == id then Some(|cats| - 1)
    else FindCat(cats[..|cats| - 1], id)
  }

  /** The categories dictionary after one more item of category `id`: the
      category is created on first sight, then the item is appended to it. */
  function AddItem(cats: seq<Category>, id: string, item: Item, om: map<string, real>,
                   lm: map<string, (string, string)>): seq<Category>
  {
    match FindCat(cats, id)
    case None =>
      var labels := LabelsFor(lm, id);
      cats + [Category(id, labels.0, labels.1, OrderFor(om, id), [item])]
    case Some(p) => cats[p := cats[p].(items := cats[p].items + [item])]
  }

  /** The categories dictionary, in insertion order, after the items `items`
      of categories `ids`. */
  function GroupBy(ids: seq<string>, items: seq<Item>, om: map<string, real>,
                   lm: map<string, (string, string)>): seq<Category>
    requires |ids| == |items|
  {
    if |ids| == 0 then []
    else
      var n := |ids| - 1;
      AddItem(GroupBy(ids[..n], items[..n], om, lm), ids[n], items[n], om, lm)
  }

  lemma GroupBySnoc(ids: seq<string>, items: seq<Item>, i: nat, om: map<string, real>,
                    lm: map<string, (string, string)>)
    requires |ids| == |items| && i < |ids|
    ensures GroupBy(ids[..i + 1], items[..i + 1], om, lm) == AddItem(GroupBy(ids[..i], items[..i], om, lm), ids[i], items[i], om, lm)
  {
    PrefixSnoc(ids, i);
    PrefixSnoc(items, i);
  }

  function RowIds(rows: seq<Record>): (r: seq<string>)
    ensures |r| == |rows|
    ensures forall i :: 0 <= i < |rows| ==> r[i] == CatIdOf(rows[i])
  {
    seq(|rows|, i requires 0 <= i < |rows| => CatIdOf(rows[i]))
  }

  /** The item of every row, numbered by position. */
  function RowItems(rows: seq<Record>, catalog: AllergenCatalog): (r: seq<Item>)
    ensures |r| == |rows|
    ensures forall i :: 0 <= i < |rows| ==> r[i] == MakeItem(rows[i], i, catalog)
  {
    seq(|rows|, i requires 0 <= i < |rows| => MakeItem(rows[i], i, catalog))
  }

  /** The categories dictionary after all active rows. */
  function Group(rows: seq<Record>, om: map<string, real>, lm: map<string, (string, string)>,
                 catalog: AllergenCatalog): seq<Category>
  {
    GroupBy(RowIds(rows), RowItems(rows, catalog), om, lm)
  }

  /** The whole of `processMenuData`. */
  function ProcessMenu(raw: seq<Record>, catRows: seq<Record>, catalog: AllergenCatalog): MenuData {
    var g := Group(Active(raw), OrderMap(catRows), LabelMap(catRows), catalog);
    MenuData(SortBy(g, CategoryOrder), LastUpdate(raw, "last_updated"))
  }

  // ------------------------------------------------------------ its properties

  /** Item `i` is numbered `i`. */
  ghost predicate Numbered(items: seq<Item>) {
    forall i :: 0 <= i < |items| ==> items[i].order == i as real
  }

  /** `item` is the item numbered `i` and that item is of category `id`. */
  ghost predicate FromRow(ids: seq<string>, items: seq<Item>, item: Item, id: string)
    requires |ids| == |items|
  {
    var i := item.order.Floor;
    0 <= i < |items| && item == items[i] && ids[i] == id
  }

  /** What the categories dictionary looks like: distinct ids; every category
      non-empty, with the order and labels the lookups give its id; every item
      of a category one of the items of that category; items in row order. */
  ghost predicate Grouped(ids: seq<string>, items: seq<Item>, g: seq<Category>,
                          om: map<string, real>, lm: map<string, (string, string)>)
    requires |ids| == |items|
  {
    (forall k, l :: 0 <= k < l < |g| ==> g[k].id != g[l].id) &&
    (forall k :: 0 <= k < |g| ==>
       |g[k].items| > 0 && g[k].order == OrderFor(om, g[k].id) &&
       g[k].nameIt == LabelsFor(lm, g[k].id).0 && g[k].nameEn == LabelsFor(lm, g[k].id).1) &&
    (forall k, j :: 0 <= k < |g| && 0 <= j < |g[k].items| ==> FromRow(ids, items, g[k].items[j], g[k].id)) &&
    (forall k, j, j' :: 0 <= k < |g| && 0 <= j < j' < |g[k].items| ==> g[k].items[j].order < g[k].items[j'].order)
  }

  /** Every item is in the category of its id. */
  ghost predicate Complete(ids: seq<string>, items: seq<Item>, g: seq<Category>)
    requires |ids| == |items|
  {
    forall i :: 0 <= i < |items| ==> exists k :: 0 <= k < |g| && g[k].id == ids[i] && items[i] in g[k].items
  }

  lemma FromRowGrow(ids: seq<string>, items: seq<Item>, id: string, x: Item, item: Item, cat: string)
    requires |ids| == |items| && FromRow(ids, items, item, cat)
    ensures FromRow(ids + [id], items + [x], item, cat)
  {
    var i := item.order.Floor;
    assert (items + [x])[i] == items[i];
    assert (ids + [id])[i] == ids[i];
  }

  lemma GroupedGrow(ids: seq<string>, items: seq<Item>, id: string, x: Item, g: seq<Category>,
                    om: map<string, real>, lm: map<string, (string, string)>)
    requires |ids| == |items| && Grouped(ids, items, g, om, lm)
    ensures forall k, j :: 0 <= k < |g| && 0 <= j < |g[k].items| ==>
              FromRow(ids + [id], items + [x], g[k].items[j], g[k].id) && g[k].items[j].order < |items| as real
  {
    forall k, j | 0 <= k < |g| && 0 <= j < |g[k].items|
      ensures FromRow(ids + [id], items + [x], g[k].items[j], g[k].id) && g[k].items[j].order < |items| as real
    {
      FromRowGrow(ids, items, id, x, g[k].items[j], g[k].id);
    }
  }

  lemma AddItemNew(ids: seq<string>, items: seq<Item>, id: string, x: Item, g: seq<Category>,
                   om: map<string, real>, lm: map<string, (string, string)>)
    requires |ids| == |items| && Numbered(items + [x])
    requires Grouped(ids, items, g, om, lm) && Complete(ids, items, g)
    requires FindCat(g, id).None?
    ensures Grouped(ids + [id], items + [x], AddItem(g, id, x, om, lm), om, lm)
    ensures Complete(ids + [id], items + [x], AddItem(g, id, x, om, lm))
  {
    var labels := LabelsFor(lm, id);
    var c := Category(id, labels.0, labels.1, OrderFor(om, id), [x]);
    assert AddItem(g, id, x, om, lm) == g + [c];
    NewGrouped(ids, items, id, x, g, om, lm, c);
    NewComplete(ids, items, id, x, g, c);
  }

  lemma NewGrouped(ids: seq<string>, items: seq<Item>, id: string, x: Item, g: seq<Category>,
                   om: map<string, real>, lm: map<string, (string, string)>, c: Category)
    requires |ids| == |items| && Numbered(items + [x])
    requires Grouped(ids, items, g, om, lm)
    requires FindCat(g, id).None?
    requires c == Category(id, LabelsFor(lm, id).0, LabelsFor(lm, id).1, OrderFor(om, id), [x])
    ensures Grouped(ids + [id], items + [x], g + [c], om, lm)
  {
    var ids', items' := ids + [id], items + [x];
    var n := |items|;
    GroupedGrow(ids, items, id, x, g, om, lm);
    assert items'[n] == x && ids'[n] == id;
    assert x.order == n as real;
    assert FromRow(ids', items', x, id);
  }

  lemma NewComplete(ids: seq<string>, items: seq<Item>, id: string, x: Item, g: seq<Category>, c: Category)
    requires |ids| == |items| && Complete(ids, items, g)
    requires c.id == id && c.items == [x]
    ensures Complete(ids + [id], items + [x], g + [c])
  {
    var ids', items', g' := ids + [id], items + [x], g + [c];
    var n := |items|;
    forall i | 0 <= i < |items'|
      ensures exists k :: 0 <= k < |g'| && g'[k].id == ids'[i] && items'[i] in g'[k].items
    {
      if i < n {
        assert items'[i] == items[i] && ids'[i] == ids[i];
        var k :| 0 <= k < |g| && g[k].id == ids[i] && items[i] in g[k].items;
        assert g'[k] == g[k];
        assert g'[k].id == ids'[i] && items'[i] in g'[k].items;
      } else {
        assert g'[|g|] == c && items'[i] == x && ids'[i] == id;
        assert g'[|g|].id == ids'[i] && items'[i] in g'[|g|].items;
      }
    }
    assert forall i :: 0 <= i < |items'| ==> exists k :: 0 <= k < |g'| && g'[k].id == ids'[i] && items'[i] in g'[k].items;
  }

  lemma AddItemOld(ids: seq<string>, items: seq<Item>, id: string, x: Item, g: seq<Category>,
                   om: map<string, real>, lm: map<string, (string, string)>, p: nat)
    requires |ids| == |items| && Numbered(items + [x])
    requires Grouped(ids, items, g, om, lm) && Complete(ids, items, g)
    requires FindCat(g, id) == Some(p)
    ensures Grouped(ids + [id], items + [x], AddItem(g, id, x, om, lm), om, lm)
    ensures Complete(ids + [id], items + [x], AddItem(g, id, x, om, lm))
  {
    assert AddItem(g, id, x, om, lm) == g[p := g[p].(items := g[p].items + [x])];
    OldGrouped(ids, items, id, x, g, om, lm, p);
    OldComplete(ids, items, id, x, g, p);
  }

  lemma OldGrouped(ids: seq<string>, items: seq<Item>, id: string, x: Item, g: seq<Category>,
                   om: map<string, real>, lm: map<string, (string, string)>, p: nat)
    requires |ids| == |items| && Numbered(items + [x])
    requires Grouped(ids, items, g, om, lm)
    requires p < |g| && g[p].id == id
    ensures Grouped(ids + [id], items + [x], g[p := g[p].(items := g[p].items + [x])], om, lm)
  {
    var ids', items' := ids + [id], items + [x];
    var n := |items|;
    var g' := g[p := g[p].(items := g[p].items + [x])];
    GroupedGrow(ids, items, id, x, g, om, lm);
    assert items'[n] == x && ids'[n] == id;
    assert x.order == n as real;
    assert FromRow(ids', items', x, id);
    forall k, j | 0 <= k < |g'| && 0 <= j < |g'[k].items|
      ensures FromRow(ids', items', g'[k].items[j], g'[k].id)
    {
      if k == p && j == |g[p].items| {
        assert g'[k].items[j] == x;
      } else {
        assert g'[k].items[j] == g[k].items[j];
      }
    }
    forall k, j, j' | 0 <= k < |g'| && 0 <= j < j' < |g'[k].items|
      ensures g'[k].items[j].order < g'[k].items[j'].order
    {
      if k == p && j' == |g[p].items| {
        assert g'[k].items[j] == g[k].items[j];
      }
    }
  }

  lemma OldComplete(ids: seq<string>, items: seq<Item>, id: string, x: Item, g: seq<Category>, p: nat)
    requires |ids| == |items| && Complete(ids, items, g)
    requires p < |g| && g[p].id == id
    ensures Complete(ids + [id], items + [x], g[p := g[p].(items := g[p].items + [x])])
  {
    var ids', items' := ids + [id], items + [x];
    var n := |items|;
    var g' := g[p := g[p].(items := g[p].items + [x])];
    forall i | 0 <= i < |items'|
      ensures exists k :: 0 <= k < |g'| && g'[k].id == ids'[i] && items'[i] in g'[k].items
    {
      if i < n {
        assert items'[i] == items[i] && ids'[i] == ids[i];
        var k :| 0 <= k < |g| && g[k].id == ids[i] && items[i] in g[k].items;
        assert g'[k].items[..|g[k].items|] == g[k].items;
        assert g'[k].id == ids'[i] && items'[i] in g'[k].items;
      } else {
        assert items'[i] == x && ids'[i] == id;
        assert g'[p].items == g[p].items + [x];
        assert g'[p].id == ids'[i] && items'[i] in g'[p].items;
      }
    }
    assert forall i :: 0 <= i < |items'| ==> exists k :: 0 <= k < |g'| && g'[k].id == ids'[i] && items'[i] in g'[k].items;
  }

  /** The category ids of the dictionary, in insertion order. */
  function CatIds(g: seq<Category>): (ids: seq<string>)
    ensures |ids| == |g| && forall k :: 0 <= k < |g| ==> ids[k] == g[k].id
  {
    seq(|g|, k requires 0 <= k < |g| => g[k].id)
  }

  /** The ids among `ids` whose categories-table order is `v`, in order. */
  function IdsWithOrder(ids: seq<string>, om: map<string, real>, v: real): (r: seq<string>)
    ensures forall i :: 0 <= i < |r| ==> r[i] in ids && OrderFor(om, r[i]) == v
  {
    if |ids| == 0 then []
    else
      var n := |ids| - 1;
      IdsWithOrder(ids[..n], om, v) + (if OrderFor(om, ids[n]) == v then [ids[n]] else [])
  }

  /** The dictionary holds one category per distinct id, in the order the ids
      are first seen, each with the order the categories table gives its id. */
  lemma {:induction false} GroupByIds(ids: seq<string>, items: seq<Item>,
                                      om: map<string, real>, lm: map<string, (string, string)>)
    requires |ids| == |items|
    ensures CatIds(GroupBy(ids, items, om, lm)) == Dedupe(ids)
    ensures forall k :: 0 <= k < |GroupBy(ids, items, om, lm)| ==>
              GroupBy(ids, items, om, lm)[k].order == OrderFor(om, GroupBy(ids, items, om, lm)[k].id)
  {
    if |ids| > 0 {
      var n := |ids| - 1;
      // the shape facts first, before the invariant's quantifiers are in scope
      assert ids == ids[..n] + [ids[n]];
      DedupeSnoc(ids[..n], ids[n]);
      assert GroupBy(ids, items, om, lm) == AddItem(GroupBy(ids[..n], items[..n], om, lm), ids[n], items[n], om, lm);
      GroupByIds(ids[..n], items[..n], om, lm);
      AddItemIds(GroupBy(ids[..n], items[..n], om, lm), ids[n], items[n], om, lm);
    }
  }

  /** One more item extends the ids exactly when its id is new, and keeps
      every category's order the one its id is given. */
  lemma AddItemIds(g: seq<Category>, id: string, x: Item, om: map<string, real>, lm: map<string, (string, string)>)
    requires forall k :: 0 <= k < |g| ==> g[k].order == OrderFor(om, g[k].id)
    ensures CatIds(AddItem(g, id, x, om, lm)) == if id in CatIds(g) then CatIds(g) else CatIds(g) + [id]
    ensures forall k :: 0 <= k < |AddItem(g, id, x, om, lm)| ==>
              AddItem(g, id, x, om, lm)[k].order == OrderFor(om, AddItem(g, id, x, om, lm)[k].id)
  {
    match FindCat(g, id)
    case None =>
      var labels := LabelsFor(lm, id);
      var c := Category(id, labels.0, labels.1, OrderFor(om, id), [x]);
      assert id !in CatIds(g);
      assert CatIds(g + [c]) == CatIds(g) + [id];
    case Some(p) =>
      assert CatIds(g)[p] == id;
      assert CatIds(g[p := g[p].(items := g[p].items + [x])]) == CatIds(g);
  }

  lemma CatIdsConcat(a: seq<Category>, b: seq<Category>)
    ensures CatIds(a + b) == CatIds(a) + CatIds(b)
  {
  }

  /** Picking the categories of one order picks their ids among all ids. */
  lemma {:induction false} WithOrderIds(g: seq<Category>, om: map<string, real>, v: real)
    requires forall k :: 0 <= k < |g| ==> g[k].order == OrderFor(om, g[k].id)
    ensures CatIds(WithKey(g, CategoryOrder, v)) == IdsWithOrder(CatIds(g), om, v)
  {
    if |g| > 0 {
      var n := |g| - 1;
      assert g == g[..n] + [g[n]];
      assert g[n].order == OrderFor(om, g[n].id);
      WithOrderIds(g[..n], om, v);
      WithOrderStep(g[..n], g[n], om, v);
    }
  }

  lemma WithOrderStep(h: seq<Category>, c: Category, om: map<string, real>, v: real)
    requires c.order == OrderFor(om, c.id)
    requires CatIds(WithKey(h, CategoryOrder, v)) == IdsWithOrder(CatIds(h), om, v)
    ensures CatIds(WithKey(h + [c], CategoryOrder, v)) == IdsWithOrder(CatIds(h + [c]), om, v)
  {
    var w := WithKey(h, CategoryOrder, v);
    var last := if CategoryOrder(c) == v then [c] else [];
    assert (h + [c])[..|h|] == h;
    assert WithKey(h + [c], CategoryOrder, v) == w + last;
    assert CatIds(h + [c])[..|h|] == CatIds(h);
    CatIdsConcat(w, last);
  }

  /** The categories dictionary is `Grouped` and `Complete` after any numbered items. */
  lemma {:induction false} GroupInvariant(ids: seq<string>, items: seq<Item>,
                                          om: map<string, real>, lm: map<string, (string, string)>)
    requires |ids| == |items| && Numbered(items)
    ensures Grouped(ids, items, GroupBy(ids, items, om, lm), om, lm)
    ensures Complete(ids, items, GroupBy(ids, items, om, lm))
  {
    if |ids| > 0 {
      var n := |ids| - 1;
      GroupInvariant(ids[..n], items[..n], om, lm);
      assert ids == ids[..n] + [ids[n]];
      assert items == items[..n] + [items[n]];
      var g := GroupBy(ids[..n], items[..n], om, lm);
      match FindCat(g, ids[n])
      case None => AddItemNew(ids[..n], items[..n], ids[n], items[n], g, om, lm);
      case Some(p) => AddItemOld(ids[..n], items[..n], ids[n], items[n], g, om, lm, p);
    }
  }

  /** Sorting the dictionary's categories leaves them ascending by order, with
      ties in first-seen order. */
  lemma SortedGroupsOrder(ids: seq<string>, items: seq<Item>, om: map<string, real>, lm: map<string, (string, string)>)
    requires |ids| == |items|
    ensures var out := SortBy(GroupBy(ids, items, om, lm), CategoryOrder);
      SortedBy(out, CategoryOrder) &&
      (forall v :: WithKey(out, CategoryOrder, v) == WithKey(GroupBy(ids, items, om, lm), CategoryOrder, v)) &&
      forall v :: CatIds(WithKey(out, CategoryOrder, v)) == IdsWithOrder(Dedupe(ids), om, v)
  {
    var g := GroupBy(ids, items, om, lm);
    GroupByIds(ids, items, om, lm);
    forall v ensures CatIds(WithKey(g, CategoryOrder, v)) == IdsWithOrder(Dedupe(ids), om, v) {
      WithOrderIds(g, om, v);
    }
    SortBySorted(g, CategoryOrder);
    forall v ensures WithKey(SortBy(g, CategoryOrder), CategoryOrder, v) == WithKey(g, CategoryOrder, v) {
      SortByStable(g, CategoryOrder, v);
    }
  }

  /** After sorting, each category is non-empty, has the order and labels the
      lookups give its id, and holds in order only items of its id. */
  lemma SortedGroupsSound(ids: seq<string>, items: seq<Item>, om: map<string, real>, lm: map<string, (string, string)>)
    requires |ids| == |items| && Numbered(items)
    ensures var out := SortBy(GroupBy(ids, items, om, lm), CategoryOrder);
      forall c | c in out ::
        |c.items| > 0 && c.order == OrderFor(om, c.id) && (c.nameIt, c.nameEn) == LabelsFor(lm, c.id) &&
        (forall j :: 0 <= j < |c.items| ==> FromRow(ids, items, c.items[j], c.id)) &&
        (forall j, j' :: 0 <= j < j' < |c.items| ==> c.items[j].order < c.items[j'].order)
  {
    var g := GroupBy(ids, items, om, lm);
    var out := SortBy(g, CategoryOrder);
    GroupInvariant(ids, items, om, lm);
    forall c | c in out
      ensures |c.items| > 0 && c.order == OrderFor(om, c.id) && (c.nameIt, c.nameEn) == LabelsFor(lm, c.id)
      ensures forall j :: 0 <= j < |c.items| ==> FromRow(ids, items, c.items[j], c.id)
      ensures forall j, j' :: 0 <= j < j' < |c.items| ==> c.items[j].order < c.items[j'].order
    {
      SortByMembers(g, CategoryOrder);
      var k :| 0 <= k < |g| && g[k] == c;
    }
  }

  /** After sorting, every item is in a category of its id. */
  lemma SortedGroupsComplete(ids: seq<string>, items: seq<Item>, om: map<string, real>, lm: map<string, (string, string)>)
    requires |ids| == |items| && Numbered(items)
    ensures var out := SortBy(GroupBy(ids, items, om, lm), CategoryOrder);
      forall i :: 0 <= i < |items| ==> exists c :: c in out && c.id == ids[i] && items[i] in c.items
  {
    var g := GroupBy(ids, items, om, lm);
    var out := SortBy(g, CategoryOrder);
    GroupInvariant(ids, items, om, lm);
    forall i | 0 <= i < |items|
      ensures exists c :: c in out && c.id == ids[i] && items[i] in c.items
    {
      var k :| 0 <= k < |g| && g[k].id == ids[i] && items[i] in g[k].items;
      SortByMembers(g, CategoryOrder);
    }
  }

  /** `processMenuData`'s categories are the sorted groups of the items of the
      active rows, the `i`-th active row giving the item numbered `i`. */
  lemma MenuCategories(raw: seq<Record>, catRows: seq<Record>, catalog: AllergenCatalog)
    ensures var active := Active(raw);
      var ids, items := RowIds(active), RowItems(active, catalog);
      Numbered(items) &&
      ProcessMenu(raw, catRows, catalog).categories ==
        SortBy(GroupBy(ids, items, OrderMap(catRows), LabelMap(catRows)), CategoryOrder)
  {
  }

  /** Every row of the sheet with a truthy `active` reaches the menu: its item,
      numbered by its position among the active rows, is in the category of
      its id. */
  lemma ActiveRowShown(raw: seq<Record>, catRows: seq<Record>, catalog: AllergenCatalog, j: nat)
    requires j < |raw| && IsTruthy(Get(raw[j], "active"))
    ensures exists c, i :: c in ProcessMenu(raw, catRows, catalog).categories &&
              0 <= i < |Active(raw)| && Active(raw)[i] == raw[j] &&
              c.id == CatIdOf(raw[j]) && MakeItem(raw[j], i, catalog) in c.items
  {
    var active := Active(raw);
    var ids, items := RowIds(active), RowItems(active, catalog);
    ActiveFilter(raw);
    assert raw[j] in active;
    var i :| 0 <= i < |active| && active[i] == raw[j];
    MenuCategories(raw, catRows, catalog);
    SortedGroupsComplete(ids, items, OrderMap(catRows), LabelMap(catRows));
    var c :| c in ProcessMenu(raw, catRows, catalog).categories && c.id == ids[i] && items[i] in c.items;
  }

  /** The last non-empty text is the one after which all are empty. */
  lemma {:induction false} LastNonBlankLatest(vs: seq<string>)
    ensures LastNonBlank(vs).None? <==> forall i :: 0 <= i < |vs| ==> vs[i] == []
    ensures LastNonBlank(vs).Some? ==>
              exists i :: 0 <= i < |vs| && LastNonBlank(vs).value == vs[i] != [] &&
                forall j :: i < j < |vs| ==> vs[j] == []
  {
    if |vs| > 0 {
      var n := |vs| - 1;
      LastNonBlankLatest(vs[..n]);
      if vs[n] == [] {
        assert forall i :: 0 <= i < n ==> vs[..n][i] == vs[i];
        if LastNonBlank(vs).Some? {
          var i :| 0 <= i < n && LastNonBlank(vs[..n]).value == vs[..n][i] != [] &&
                  forall j :: i < j < n ==> vs[..n][j] == [];
          assert forall j :: i < j < |vs| ==> vs[j] == [];
        }
      }
    }
  }

  /** `lastSheetUpdate` is the trimmed `col` (`last_updated`) of the last row
      where it is not blank, and null when it is blank everywhere. */
  lemma LastUpdateLatest(rows: seq<Record>, col: string)
    ensures LastUpdate(rows, col).None? <==>
              forall i :: 0 <= i < |rows| ==> Trim(Get(rows[i], col)) == []
    ensures LastUpdate(rows, col).Some? ==>
              exists i :: 0 <= i < |rows| && LastUpdate(rows, col).value == Trim(Get(rows[i], col)) != [] &&
                forall j :: i < j < |rows| ==> Trim(Get(rows[j], col)) == []
  {
    LastNonBlankLatest(Stamps(rows, col));
  }

  /** A row with a blank `type` is a `standard` item. */
  lemma BlankTypeStandard(row: Record, index: nat, catalog: AllergenCatalog)
    requires Get(row, "type") == []
    ensures MakeItem(row, index, catalog).tipo == "standard"
  {
    assert Lower("standard") == "standard";
    TrimNoop("standard");
  }

  /** The order recorded for a categories row under its raw `id`, when no later
      row has the same `id`. */
  lemma OrderMapValue(cats: seq<Record>, i: nat)
    requires i < |cats| && forall j :: i < j < |cats| ==> RawId(cats[j]) != RawId(cats[i])
    ensures RawId(cats[i]) in OrderMap(cats)
    ensures OrderMap(cats)[RawId(cats[i])] == OrderValue(Get(cats[i], "order"))
  {
    LastWinsValue(OrderEntries(cats), i);
  }

  /** The loop filling `categoryOrderMap`. */
  method BuildOrderMap(catRows: seq<Record>) returns (orderMap: map<string, real>)
    ensures orderMap == OrderMap(catRows)
  {
    ghost var es := OrderEntries(catRows);
    orderMap := map[];
    var i := 0;
    while i < |catRows|
      invariant 0 <= i <= |catRows|
      invariant orderMap == LastWins(es[..i])
    {
      PrefixSnoc(es, i);
      LastWinsSnoc(es[..i], es[i]);
      orderMap := orderMap[RawId(catRows[i]) := OrderValue(Get(catRows[i], "order"))];
      i := i + 1;
    }
    assert es[..|catRows|] == es;
  }

  /** The loop filling `categoryLabelMap`. */
  method BuildLabelMap(catRows: seq<Record>) returns (labelMap: map<string, (string, string)>)
    ensures labelMap == LabelMap(catRows)
  {
    ghost var es := LabelEntries(catRows);
    labelMap := map[];
    var i := 0;
    while i < |catRows|
      invariant 0 <= i <= |catRows|
      invariant labelMap == LastWins(es[..i])
    {
      PrefixSnoc(es, i);
      LastWinsSnoc(es[..i], es[i]);
      var e := LabelEntry(catRows[i]);
      assert e == es[i];
      labelMap := labelMap[e.0 := e.1];
      i := i + 1;
    }
    assert es[..|catRows|] == es;
  }

  /** The loop tracking `lastSheetUpdate`. */
  method LatestUpdate(raw: seq<Record>, col: string) returns (lastSheetUpdate: Option<string>)
    ensures lastSheetUpdate == LastUpdate(raw, col)
  {
    ghost var stamps := Stamps(raw, col);
    lastSheetUpdate := None;
    var i := 0;
    while i < |raw|
      invariant 0 <= i <= |raw|
      invariant lastSheetUpdate == LastNonBlank(stamps[..i])
    {
      PrefixSnoc(stamps, i);
      var v := Trim(Get(raw[i], col));
      assert v == stamps[i];
      if v != [] {
        lastSheetUpdate := Some(v);
      }
      i := i + 1;
    }
    assert stamps[..|raw|] == stamps;
  }

  /** Creating the category on first sight, then pushing the item into it. */
  method PushItem(categories: seq<Category>, catId: string, item: Item, orderMap: map<string, real>,
                  labelMap: map<string, (string, string)>) returns (result: seq<Category>)
    ensures result == AddItem(categories, catId, item, orderMap, labelMap)
  {
    var pos := FindCat(categories, catId);
    if pos.None? {
      var labels := LabelsFor(labelMap, catId);
      result := categories + [Category(catId, labels.0, labels.1, OrderFor(orderMap, catId), [item])];
    } else {
      var p := pos.value;
      result := categories[p := categories[p].(items := categories[p].items + [item])];
    }
  }

  /** The categories dictionary after the first `n` active rows. */
  function GroupPrefix(active: seq<Record>, n: nat, om: map<string, real>,
                       lm: map<string, (string, string)>, catalog: AllergenCatalog): seq<Category>
    requires n <= |active|
  {
    GroupBy(RowIds(active)[..n], RowItems(active, catalog)[..n], om, lm)
  }

  /** One turn of the grouping loop: the `index`-th active row joins its category. */
  method GroupRow(active: seq<Record>, index: nat, categories: seq<Category>, orderMap: map<string, real>,
                  labelMap: map<string, (string, string)>, catalog: AllergenCatalog)
    returns (next: seq<Category>)
    requires index < |active| && categories == GroupPrefix(active, index, orderMap, labelMap, catalog)
    ensures next == GroupPrefix(active, index + 1, orderMap, labelMap, catalog)
  {
    ghost var ids, items := RowIds(active), RowItems(active, catalog);
    GroupBySnoc(ids, items, index, orderMap, labelMap);
    var row := active[index];
    var catId := CatIdOf(row);
    assert catId == ids[index];
    var item := MakeItem(row, index, catalog);
    assert item == items[index];
    next := PushItem(categories, catId, item, orderMap, labelMap);
  }

  lemma GroupPrefixAll(active: seq<Record>, om: map<string, real>,
                       lm: map<string, (string, string)>, catalog: AllergenCatalog)
    ensures GroupPrefix(active, |active|, om, lm, catalog) == Group(active, om, lm, catalog)
  {
    assert RowIds(active)[..|active|] == RowIds(active);
    assert RowItems(active, catalog)[..|active|] == RowItems(active, catalog);
  }

  /** The loop filling the `categories` dictionary from the active rows. */
  method GroupRows(active: seq<Record>, orderMap: map<string, real>,
                   labelMap: map<string, (string, string)>, catalog: AllergenCatalog)
    returns (categories: seq<Category>)
    ensures categories == Group(active, orderMap, labelMap, catalog)
  {
    categories := [];
    var index := 0;
    while index < |active|
      invariant 0 <= index <= |active|
      invariant categories == GroupPrefix(active, index, orderMap, labelMap, catalog)
    {
      categories := GroupRow(active, index, categories, orderMap, labelMap, catalog);
      index := index + 1;
    }
    GroupPrefixAll(active, orderMap, labelMap, catalog);
  }

  /** `processMenuData`. */
  method ProcessMenuData(raw: seq<Record>, catRows: seq<Record>, catalog: AllergenCatalog)
    returns (result: MenuData)
    ensures result == ProcessMenu(raw, catRows, catalog)
  {
    var orderMap := BuildOrderMap(catRows);
    var active := Active(raw);
    var lastSheetUpdate := LatestUpdate(raw, "last_updated");
    var labelMap := BuildLabelMap(catRows);
    var categories := GroupRows(active, orderMap, labelMap, catalog);
    result := MenuData(SortBy(categories, CategoryOrder), lastSheetUpdate);
  }
}
