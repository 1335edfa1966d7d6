/** The data side of the legacy single-file app (app.js): its CSV reader, its
    keyword test without `vero`, its price reading, its allergen columns, its
    `processMenuData` (categories named by the Italian `categoria` column,
    ordered by their first row, items sorted by `ordine_prodotto`), its
    filter with the Italian diet words and its two-step translation lookups.
    Where the legacy code does what the module code does, the module's
    definitions are reused and a lemma says how the two relate. */
module Legacy {
  import opened Collections
  import opened Text
  import opened Values
  import opened Utils
  import opened Csv
  import opened Keywords
  import opened Parser
  import opened Menu
  import opened I18n
  import opened Render

  // ------------------------------------------------------------ isTruthy

  /** The spellings the legacy `isTruthy` accepts: the module list without
      `vero`. */
  const LegacyWords: set<string> := {"true", "1", "x", "si", "sì", "yes"}

  predicate LegacyTruthy(v: string) {
    IsTruthyIn(LegacyWords, v)
  }

  /** The legacy test accepts exactly what the module test accepts, except
      the Italian `vero`. */
  lemma LegacyTruthyVero(v: string)
    ensures LegacyTruthy(v) <==> IsTruthy(v) && Key(v) != "vero"
  {
    LegacyWordsVero(Key(v));
  }

  lemma LegacyWordsVero(k: string)
    ensures k in LegacyWords <==> k in TruthyWords && k != "vero"
  {
    assert TruthyWords == LegacyWords + {"vero"};
  }

  // ------------------------------------------------------------ parseCSV

  /** The legacy reader has no keyword catalog. */
  const NoKeywords: CsvKeywords := CsvKeywords([], [], [], [])

  /** `parseCSV`: the same scanner as the module reader, the lower-cased and
      trimmed first row as header names, then one record per later row with
      more than one cell, a short row's missing cells read as ''. That is the
      module reader outside Italian mode. */
  method ParseCsv(text: string) returns (records: seq<Record>)
    ensures records == CsvRecords(Grid(text), "en", NoKeywords)
    ensures |Grid(text)| == 0 ==> records == []
    ensures |Grid(text)| > 0 ==> |records| == CountDataRows(Grid(text)[1..])
    ensures |Grid(text)| > 0 ==>
              forall r | r in records :: forall k :: k in r <==> k in KeyRow(Grid(text)[0])
  {
    records := Parser.ParseCsv(text, "en", NoKeywords);
    if |Grid(text)| > 0 {
      CsvRecordsShape(text, "en", NoKeywords);
    }
  }

  // ------------------------------------------------------------ parsePrice

  /** `parsePrice`: nothing for an empty cell; otherwise the first comma
      becomes a dot, without trimming, and a text that does not start with a
      number is kept in that form. */
  function ParseLegacyPrice(v: string): (r: Price)
    ensures v == [] <==> r.NoPrice?
    ensures r.Unparsed? ==> ParseFloat(r.text).None? && |r.text| == |v|
    ensures r.Amount? ==> ParseFloat(ReplaceFirst(v, ",", ".")) == Some(r.value)
  {
    if v == [] then NoPrice
    else
      var s := ReplaceFirst(v, ",", ".");
      match ParseFloat(s)
      case None => Unparsed(s)
      case Some(n) => Amount(n)
  }

  /** On a cell without surrounding white space and without a comma the
      legacy reading agrees with the module reading in Italian format. */
  lemma LegacyPriceAgrees(v: string)
    requires Trim(v) == v && !Contains(v, ",")
    ensures ParseLegacyPrice(v) == ParsePrice(v, "it")
  {
  }

  // ------------------------------------------------------------ allergens

  /** `getAllergens` reports an allergen exactly when the catalog lists it and
      the row flags its column with one of the legacy words. */
  lemma LegacyAllergens(catalog: AllergenCatalog, row: Record, a: Allergen)
    ensures a in GetAllergens(catalog, row, LegacyWords) <==>
              LegacyTruthy(Get(row, a.colKey)) && exists i :: 0 <= i < |catalog| && catalog[i] == (a.colKey, a.info)
  {
    GetAllergensMembers(catalog, row, LegacyWords, a);
  }

  /** `getAllergenKeys` lists the column keys of the flagged allergens in
      catalog order. */
  lemma LegacyAllergenKeys(catalog: AllergenCatalog, row: Record)
    ensures |GetAllergenKeys(catalog, row, LegacyWords)| == |Flagged(catalog, row, LegacyWords)|
    ensures forall i :: 0 <= i < |Flagged(catalog, row, LegacyWords)| ==>
              GetAllergenKeys(catalog, row, LegacyWords)[i] == Flagged(catalog, row, LegacyWords)[i].colKey
  {
    AllergenKeysFlagged(catalog, row, LegacyWords);
  }

  /** A column marked `vero` flags an allergen for the module code but not
      for the legacy code. */
  lemma VeroNotFlagged(row: Record, col: string)
    requires Key(Get(row, col)) == "vero"
    ensures col in FlaggedColumns(row, TruthyWords) && col !in FlaggedColumns(row, LegacyWords)
  {
    LegacyTruthyVero(Get(row, col));
  }

  // ------------------------------------------------------------ processMenuData

  /** `row.attivo`, in the legacy sense. */
  predicate Attivo(row: Record) {
    LegacyTruthy(Get(row, "attivo"))
  }

  /** `row.categoria || 'Altro'`: the category name, taken as written. */
  function CatName(row: Record): (r: string)
    ensures r != []
    ensures Get(row, "categoria") == [] ==> r == "Altro"
    ensures Get(row, "categoria") != [] ==> r == row["categoria"]
  {
    Or(Get(row, "categoria"), "Altro")
  }

  /** `parseFloat(row.ordine_categoria) || 999`. */
  function CatOrder(row: Record): real {
    OrderValue(Get(row, "ordine_categoria"))
  }

  /** The legacy item of a row. Its category is the `Category` it is put in;
      it has no gluten-free flag (false here). */
  function LegacyItem(row: Record, catalog: AllergenCatalog): Item {
    Item(Get(row, "nome_it"), Or(Get(row, "nome_en"), Get(row, "nome_it")),
         Get(row, "descrizione_it"), Or(Get(row, "descrizione_en"), Get(row, "descrizione_it")),
         ParseLegacyPrice(Get(row, "prezzo")), OrderValue(Get(row, "ordine_prodotto")),
         GetAllergens(catalog, row, LegacyWords), GetAllergenKeys(catalog, row, LegacyWords),
         Key(Or(Get(row, "tipo"), "standard")), false)
  }

  /** The `categories` dictionary after one more row: a category met for the
      first time is created with that row's order; the item is appended. A
      legacy category is named by its `categoria` text, kept in all three
      name fields. */
  function AddLegacy(g: seq<Category>, k: string, x: Item, order: real): seq<Category> {
    match FindCat(g, k)
    case None => g + [Category(k, k, k, order, [x])]
    case Some(p) => g[p := g[p].(items := g[p].items + [x])]
  }

  /** The dictionary, in insertion order, after rows of categories `keys`
      with items `items` and category orders `orders`. */
  function Gather(keys: seq<string>, items: seq<Item>, orders: seq<real>): seq<Category>
    requires |keys| == |items| == |orders|
  {
    if |keys| == 0 then []
    else
      var n := |keys| - 1;
      AddLegacy(Gather(keys[..n], items[..n], orders[..n]), keys[n], items[n], orders[n])
  }

  /** The items of category `k`, in row order. */
  function Bucket(keys: seq<string>, items: seq<Item>, k: string): seq<Item>
    requires |keys| == |items|
  {
    if |keys| == 0 then []
    else
      var n := |keys| - 1;
      Bucket(keys[..n], items[..n], k) + (if keys[n] == k then [items[n]] else [])
  }

  /** The order the first row of category `k` gives, if there is one. */
  function FirstOrder(keys: seq<string>, orders: seq<real>, k: string): Option<real>
    requires |keys| == |orders|
  {
    if |keys| == 0 then None
    else
      var n := |keys| - 1;
      var f := FirstOrder(keys[..n], orders[..n], k);
      if f.Some? then f else if keys[n] == k then Some(orders[n]) else None
  }

  function RowNames(rows: seq<Record>): (r: seq<string>)
    ensures |r| == |rows|
    ensures forall i :: 0 <= i < |rows| ==> r[i] == CatName(rows[i])
  {
    seq(|rows|, i requires 0 <= i < |rows| => CatName(rows[i]))
  }

  function RowOrders(rows: seq<Record>): (r: seq<real>)
    ensures |r| == |rows|
    ensures forall i :: 0 <= i < |rows| ==> r[i] == CatOrder(rows[i])
  {
    seq(|rows|, i requires 0 <= i < |rows| => CatOrder(rows[i]))
  }

  function LegacyItems(rows: seq<Record>, catalog: AllergenCatalog): (r: seq<Item>)
    ensures |r| == |rows|
    ensures forall i :: 0 <= i < |rows| ==> r[i] == LegacyItem(rows[i], catalog)
  {
    seq(|rows|, i requires 0 <= i < |rows| => LegacyItem(rows[i], catalog))
  }

  function ItemOrder(x: Item): real {
    x.order
  }

  /** `c.items.sort((a, b) => a.order - b.order)`. */
  function SortItems(c: Category): Category {
    c.(items := SortBy(c.items, ItemOrder))
  }

  function SortAllItems(g: seq<Category>): (r: seq<Category>)
    ensures |r| == |g|
    ensures forall p :: 0 <= p < |g| ==> r[p] == SortItems(g[p])
  {
    seq(|g|, p requires 0 <= p < |g| => SortItems(g[p]))
  }

  /** The categories of rows `keys`, `items`, `orders`: gathered, each one's
      items sorted, then sorted by order. */
  function Arrange(keys: seq<string>, items: seq<Item>, orders: seq<real>): seq<Category>
    requires |keys| == |items| == |orders|
  {
    SortBy(SortAllItems(Gather(keys, items, orders)), CategoryOrder)
  }

  /** The whole of the legacy `processMenuData`. */
  function LegacyMenu(raw: seq<Record>, catalog: AllergenCatalog): MenuData {
    var active := Filter(raw, Attivo);
    MenuData(Arrange(RowNames(active), LegacyItems(active, catalog), RowOrders(active)),
             LastUpdate(raw, "ultimo_aggiornamento"))
  }

  // ------------------------------------------------------------ its properties

  /** What the dictionary holds after the rows `keys`: one category per
      distinct name, holding the items of that name in row order and the
      order of its first row, and every name met has its category. */
  ghost predicate Gathered(keys: seq<string>, items: seq<Item>, orders: seq<real>, g: seq<Category>)
    requires |keys| == |items| == |orders|
  {
    Buckets(keys, items, orders, g)
    && (forall p, q :: 0 <= p < q < |g| ==> g[p].id != g[q].id)
    && Found(keys, g)
  }

  /** Each category is named by its name in both languages and holds the
      items and the first order of the rows of that name. */
  ghost predicate Buckets(keys: seq<string>, items: seq<Item>, orders: seq<real>, g: seq<Category>)
    requires |keys| == |items| == |orders|
  {
    forall p :: 0 <= p < |g| ==>
      g[p].nameIt == g[p].id && g[p].nameEn == g[p].id
      && g[p].items == Bucket(keys, items, g[p].id)
      && FirstOrder(keys, orders, g[p].id) == Some(g[p].order)
  }

  /** Every name of the rows has its category. */
  ghost predicate Found(keys: seq<string>, g: seq<Category>) {
    forall i :: 0 <= i < |keys| ==> FindCat(g, keys[i]).Some?
  }

  lemma {:induction false} BucketAbsent(keys: seq<string>, items: seq<Item>, k: string)
    requires |keys| == |items| && k !in keys
    ensures Bucket(keys, items, k) == []
  {
    if |keys| > 0 {
      var n := |keys| - 1;
      assert k !in keys[..n];
      BucketAbsent(keys[..n], items[..n], k);
    }
  }

  lemma {:induction false} FirstOrderAbsent(keys: seq<string>, orders: seq<real>, k: string)
    requires |keys| == |orders| && k !in keys
    ensures FirstOrder(keys, orders, k) == None
  {
    if |keys| > 0 {
      var n := |keys| - 1;
      assert k !in keys[..n];
      FirstOrderAbsent(keys[..n], orders[..n], k);
    }
  }

  /** The lookup only looks at the names. */
  lemma {:induction false} FindCatIds(g: seq<Category>, h: seq<Category>, k: string)
    requires |g| == |h| && forall p :: 0 <= p < |g| ==> g[p].id == h[p].id
    ensures FindCat(g, k) == FindCat(h, k)
  {
    if |g| > 0 {
      var n := |g| - 1;
      FindCatIds(g[..n], h[..n], k);
    }
  }

  /** The lookup finds a category appended at the end, and still finds every
      category it found before. */
  lemma FindCatAppend(g: seq<Category>, c: Category, k: string)
    requires FindCat(g, k).Some? || c.id == k
    ensures FindCat(g + [c], k).Some?
  {
    assert (g + [c])[..|g|] == g;
  }

  /** A row of a new name adds a category at the end. */
  lemma GatherNew(keys: seq<string>, items: seq<Item>, orders: seq<real>, g: seq<Category>,
                  k: string, x: Item, o: real)
    requires |keys| == |items| == |orders| && Gathered(keys, items, orders, g)
    requires FindCat(g, k).None?
    ensures Gathered(keys + [k], items + [x], orders + [o], g + [Category(k, k, k, o, [x])])
  {
    forall i | 0 <= i < |keys| ensures keys[i] != k {
      assert FindCat(g, keys[i]).Some?;
    }
    NewBuckets(keys, items, orders, g, k, x, o);
    NewFound(keys, g, k, Category(k, k, k, o, [x]));
  }

  lemma NewBuckets(keys: seq<string>, items: seq<Item>, orders: seq<real>, g: seq<Category>,
                   k: string, x: Item, o: real)
    requires |keys| == |items| == |orders| && Buckets(keys, items, orders, g)
    requires k !in keys && forall p :: 0 <= p < |g| ==> g[p].id != k
    ensures Buckets(keys + [k], items + [x], orders + [o], g + [Category(k, k, k, o, [x])])
  {
    var keys', items', orders' := keys + [k], items + [x], orders + [o];
    var g' := g + [Category(k, k, k, o, [x])];
    assert keys'[..|keys|] == keys && items'[..|keys|] == items && orders'[..|keys|] == orders;
    BucketAbsent(keys, items, k);
    FirstOrderAbsent(keys, orders, k);
    assert Bucket(keys', items', k) == [x];
    forall p | 0 <= p < |g'|
      ensures g'[p].items == Bucket(keys', items', g'[p].id)
      ensures FirstOrder(keys', orders', g'[p].id) == Some(g'[p].order)
    {
      if p < |g| {
        assert g'[p] == g[p] && g[p].id != k;
      }
    }
  }

  lemma NewFound(keys: seq<string>, g: seq<Category>, k: string, c: Category)
    requires Found(keys, g) && c.id == k
    ensures Found(keys + [k], g + [c])
  {
    var keys' := keys + [k];
    forall i | 0 <= i < |keys'| ensures FindCat(g + [c], keys'[i]).Some? {
      if i < |keys| {
        assert keys'[i] == keys[i];
        FindCatAppend(g, c, keys[i]);
      } else {
        FindCatAppend(g, c, k);
      }
    }
  }

  /** A row of a name already met appends its item to that category. */
  lemma GatherOld(keys: seq<string>, items: seq<Item>, orders: seq<real>, g: seq<Category>,
                  k: string, x: Item, o: real, p: nat)
    requires |keys| == |items| == |orders| && Gathered(keys, items, orders, g)
    requires p < |g| && g[p].id == k
    ensures Gathered(keys + [k], items + [x], orders + [o], g[p := g[p].(items := g[p].items + [x])])
  {
    FirstOrderFirst(keys, orders, k);
    OldBuckets(keys, items, orders, g, k, x, o, p);
    OldFound(keys, g, k, p, g[p].(items := g[p].items + [x]));
  }

  lemma OldBuckets(keys: seq<string>, items: seq<Item>, orders: seq<real>, g: seq<Category>,
                   k: string, x: Item, o: real, p: nat)
    requires |keys| == |items| == |orders| && Buckets(keys, items, orders, g)
    requires p < |g| && g[p].id == k && k in keys
    requires forall q :: 0 <= q < |g| && q != p ==> g[q].id != k
    ensures Buckets(keys + [k], items + [x], orders + [o], g[p := g[p].(items := g[p].items + [x])])
  {
    var keys', items', orders' := keys + [k], items + [x], orders + [o];
    var g' := g[p := g[p].(items := g[p].items + [x])];
    assert keys'[..|keys|] == keys && items'[..|keys|] == items && orders'[..|keys|] == orders;
    forall q | 0 <= q < |g'|
      ensures g'[q].items == Bucket(keys', items', g'[q].id)
      ensures FirstOrder(keys', orders', g'[q].id) == Some(g'[q].order)
    {
      if q != p {
        assert g'[q] == g[q] && g[q].id != k;
      }
    }
  }

  lemma OldFound(keys: seq<string>, g: seq<Category>, k: string, p: nat, c: Category)
    requires Found(keys, g) && p < |g| && g[p].id == k && c.id == k
    ensures Found(keys + [k], g[p := c])
  {
    var keys' := keys + [k];
    forall i | 0 <= i < |keys'| ensures FindCat(g[p := c], keys'[i]).Some? {
      FindCatIds(g, g[p := c], keys'[i]);
      if i < |keys| {
        assert keys'[i] == keys[i];
      } else {
        assert FindCat(g, k).Some?;
      }
    }
  }

  /** The dictionary always holds what `Gathered` says. */
  lemma {:induction false} GatherSpec(keys: seq<string>, items: seq<Item>, orders: seq<real>)
    requires |keys| == |items| == |orders|
    ensures Gathered(keys, items, orders, Gather(keys, items, orders))
  {
    if |keys| > 0 {
      var n := |keys| - 1;
      var ks, xs, os := keys[..n], items[..n], orders[..n];
      // the shape facts first, before the invariant's quantifiers are in scope
      assert keys == ks + [keys[n]] && items == xs + [items[n]] && orders == os + [orders[n]];
      assert Gather(keys, items, orders) == AddLegacy(Gather(ks, xs, os), keys[n], items[n], orders[n]);
      GatherSpec(ks, xs, os);
      GatherStep(ks, xs, os, Gather(ks, xs, os), keys[n], items[n], orders[n]);
    }
  }

  /** One row added to a dictionary that holds what `Gathered` says. */
  lemma GatherStep(keys: seq<string>, items: seq<Item>, orders: seq<real>, g: seq<Category>,
                   k: string, x: Item, o: real)
    requires |keys| == |items| == |orders| && Gathered(keys, items, orders, g)
    ensures Gathered(keys + [k], items + [x], orders + [o], AddLegacy(g, k, x, o))
  {
    match FindCat(g, k)
    case None =>
      GatherNew(keys, items, orders, g, k, x, o);
    case Some(p) =>
      GatherOld(keys, items, orders, g, k, x, o, p);
  }

  /** An item is in the bucket of `k` exactly when some row of name `k`
      carries it. */
  lemma {:induction false} BucketMembers(keys: seq<string>, items: seq<Item>, k: string, x: Item)
    requires |keys| == |items|
    ensures x in Bucket(keys, items, k) <==> exists i :: 0 <= i < |keys| && keys[i] == k && items[i] == x
  {
    if |keys| > 0 {
      var n := |keys| - 1;
      BucketMembers(keys[..n], items[..n], k, x);
      if x in Bucket(keys[..n], items[..n], k) {
        var i :| 0 <= i < n && keys[..n][i] == k && items[..n][i] == x;
        assert keys[i] == k && items[i] == x;
      }
      if exists i :: 0 <= i < |keys| && keys[i] == k && items[i] == x {
        var i :| 0 <= i < |keys| && keys[i] == k && items[i] == x;
        if i < n {
          assert keys[..n][i] == k && items[..n][i] == x;
        }
      }
    }
  }

  /** The order of a category is the one of the first row of that name. */
  lemma {:induction false} FirstOrderFirst(keys: seq<string>, orders: seq<real>, k: string)
    requires |keys| == |orders|
    ensures FirstOrder(keys, orders, k).Some? <==> k in keys
    ensures FirstOrder(keys, orders, k).Some? ==>
              exists i :: 0 <= i < |keys| && keys[i] == k && orders[i] == FirstOrder(keys, orders, k).value
                          && forall j :: 0 <= j < i ==> keys[j] != k
  {
    if |keys| > 0 {
      var n := |keys| - 1;
      FirstOrderFirst(keys[..n], orders[..n], k);
      assert keys == keys[..n] + [keys[n]];
      if FirstOrder(keys[..n], orders[..n], k).Some? {
        var i :| 0 <= i < n && keys[..n][i] == k && orders[..n][i] == FirstOrder(keys[..n], orders[..n], k).value
                 && forall j :: 0 <= j < i ==> keys[..n][j] != k;
        assert keys[i] == k && orders[i] == orders[..n][i];
        assert forall j :: 0 <= j < i ==> keys[j] == keys[..n][j];
      } else if keys[n] == k {
        assert k !in keys[..n];
        assert forall j :: 0 <= j < n ==> keys[j] == keys[..n][j];
      }
    }
  }

  /** The arranged categories: in ascending order, one per distinct name,
      each holding its rows' items as a permutation sorted by item order, with
      the order of its first row; and every name has its category. */
  lemma ArrangeSpec(keys: seq<string>, items: seq<Item>, orders: seq<real>)
    requires |keys| == |items| == |orders|
    ensures var cats := Arrange(keys, items, orders);
            SortedBy(cats, CategoryOrder)
            && (forall c :: c in cats ==> Arranged(keys, items, orders, c))
            && (forall i :: 0 <= i < |keys| ==> exists c :: c in cats && c.id == keys[i])
  {
    SortBySorted(SortAllItems(Gather(keys, items, orders)), CategoryOrder);
    ArrangeArranged(keys, items, orders);
    ArrangeCovers(keys, items, orders);
  }

  lemma ArrangeArranged(keys: seq<string>, items: seq<Item>, orders: seq<real>)
    requires |keys| == |items| == |orders|
    ensures forall c :: c in Arrange(keys, items, orders) ==> Arranged(keys, items, orders, c)
  {
    var g := Gather(keys, items, orders);
    GatherSpec(keys, items, orders);
    var s := SortAllItems(g);
    ArrangedAll(keys, items, orders, g);
    SortByMembers(s, CategoryOrder);
    forall c | c in SortBy(s, CategoryOrder) ensures Arranged(keys, items, orders, c) {
      assert c in s;
      var p :| 0 <= p < |s| && s[p] == c;
    }
  }

  lemma ArrangeCovers(keys: seq<string>, items: seq<Item>, orders: seq<real>)
    requires |keys| == |items| == |orders|
    ensures forall i :: 0 <= i < |keys| ==> exists c :: c in Arrange(keys, items, orders) && c.id == keys[i]
  {
    var g := Gather(keys, items, orders);
    GatherSpec(keys, items, orders);
    var s := SortAllItems(g);
    SortByMembers(s, CategoryOrder);
    forall i | 0 <= i < |keys| ensures exists c :: c in SortBy(s, CategoryOrder) && c.id == keys[i] {
      GatheredFind(keys, items, orders, g, i);
      var p := FindCat(g, keys[i]).value;
      assert s[p] == SortItems(g[p]);
      assert s[p] in s;
    }
  }

  /** Category `c` holds its rows' items sorted and with the order of its
      first row. */
  ghost predicate Arranged(keys: seq<string>, items: seq<Item>, orders: seq<real>, c: Category)
    requires |keys| == |items| == |orders|
  {
    SortedBy(c.items, ItemOrder)
    && multiset(c.items) == multiset(Bucket(keys, items, c.id))
    && FirstOrder(keys, orders, c.id) == Some(c.order)
  }

  /** Before the final sort every category is arranged. */
  lemma ArrangedAll(keys: seq<string>, items: seq<Item>, orders: seq<real>, g: seq<Category>)
    requires |keys| == |items| == |orders|
    requires Gathered(keys, items, orders, g)
    ensures forall p :: 0 <= p < |g| ==> Arranged(keys, items, orders, SortAllItems(g)[p])
  {
    forall p | 0 <= p < |g| ensures Arranged(keys, items, orders, SortAllItems(g)[p]) {
      SortBySorted(g[p].items, ItemOrder);
      SortByPermutes(g[p].items, ItemOrder);
    }
  }

  /** Every name met has its category in the dictionary. */
  lemma GatheredFind(keys: seq<string>, items: seq<Item>, orders: seq<real>, g: seq<Category>, i: nat)
    requires |keys| == |items| == |orders|
    requires Gathered(keys, items, orders, g) && i < |keys|
    ensures FindCat(g, keys[i]).Some?
  {
  }

  /** The arranged categories have distinct names. */
  lemma ArrangeDistinct(keys: seq<string>, items: seq<Item>, orders: seq<real>, c: Category, d: Category)
    requires |keys| == |items| == |orders|
    requires c in Arrange(keys, items, orders) && d in Arrange(keys, items, orders) && c.id == d.id
    ensures c == d
  {
    GatherIds(keys, items, orders);
    SortedIds(Gather(keys, items, orders));
    ArrangePermutes(keys, items, orders);
    UniqueIds(SortAllItems(Gather(keys, items, orders)), Arrange(keys, items, orders), c, d);
  }

  lemma ArrangePermutes(keys: seq<string>, items: seq<Item>, orders: seq<real>)
    requires |keys| == |items| == |orders|
    ensures multiset(Arrange(keys, items, orders)) == multiset(SortAllItems(Gather(keys, items, orders)))
  {
    SortByPermutes(SortAllItems(Gather(keys, items, orders)), CategoryOrder);
  }

  /** No two categories share a name. */
  ghost predicate DistinctIds(g: seq<Category>) {
    forall p, q :: 0 <= p < |g| && 0 <= q < |g| && g[p].id == g[q].id ==> p == q
  }

  /** Sorting each category's items keeps the names distinct. */
  lemma SortedIds(g: seq<Category>)
    requires DistinctIds(g)
    ensures DistinctIds(SortAllItems(g))
  {
    var s := SortAllItems(g);
    forall p, q | 0 <= p < |s| && 0 <= q < |s| && s[p].id == s[q].id ensures p == q {
      assert s[p] == SortItems(g[p]) && s[q] == SortItems(g[q]);
    }
  }

  /** Categories drawn from a sequence of distinct names are equal when
      their names are. */
  lemma UniqueIds(s: seq<Category>, cats: seq<Category>, c: Category, d: Category)
    requires DistinctIds(s)
    requires multiset(cats) == multiset(s) && c in cats && d in cats && c.id == d.id
    ensures c == d
  {
    assert c in multiset(s) && d in multiset(s);
    var p :| 0 <= p < |s| && s[p] == c;
    var q :| 0 <= q < |s| && s[q] == d;
  }

  lemma GatherIds(keys: seq<string>, items: seq<Item>, orders: seq<real>)
    requires |keys| == |items| == |orders|
    ensures DistinctIds(Gather(keys, items, orders))
  {
    GatherSpec(keys, items, orders);
  }

  /** Every arranged category is named by some row. */
  lemma ArrangeNames(keys: seq<string>, items: seq<Item>, orders: seq<real>, c: Category)
    requires |keys| == |items| == |orders| && c in Arrange(keys, items, orders)
    ensures exists i :: 0 <= i < |keys| && keys[i] == c.id
  {
    ArrangeSpec(keys, items, orders);
    FirstOrderFirst(keys, orders, c.id);
  }

  /** An item is in a category exactly when some row of that name carries it. */
  lemma ArrangeItems(keys: seq<string>, items: seq<Item>, orders: seq<real>, c: Category, x: Item)
    requires |keys| == |items| == |orders| && c in Arrange(keys, items, orders)
    ensures x in c.items <==> exists i :: 0 <= i < |keys| && keys[i] == c.id && items[i] == x
  {
    ArrangeSpec(keys, items, orders);
    assert x in c.items <==> x in multiset(c.items);
    assert x in Bucket(keys, items, c.id) <==> x in multiset(Bucket(keys, items, c.id));
    BucketMembers(keys, items, c.id, x);
  }

  lemma LegacyMenuCategories(raw: seq<Record>, catalog: AllergenCatalog)
    ensures var active := Filter(raw, Attivo);
            LegacyMenu(raw, catalog).categories == Arrange(RowNames(active), LegacyItems(active, catalog), RowOrders(active))
  {
  }

  /** The legacy menu's categories are in ascending order. */
  lemma LegacyMenuSorted(raw: seq<Record>, catalog: AllergenCatalog)
    ensures SortedBy(LegacyMenu(raw, catalog).categories, CategoryOrder)
  {
    var active := Filter(raw, Attivo);
    LegacyMenuCategories(raw, catalog);
    ArrangeSpec(RowNames(active), LegacyItems(active, catalog), RowOrders(active));
  }

  /** Every active row's name `categoria || 'Altro'` has its category. */
  lemma LegacyMenuCovers(raw: seq<Record>, catalog: AllergenCatalog, row: Record)
    requires row in Filter(raw, Attivo)
    ensures exists c :: c in LegacyMenu(raw, catalog).categories && c.id == CatName(row)
  {
    var active := Filter(raw, Attivo);
    var keys := RowNames(active);
    LegacyMenuCategories(raw, catalog);
    ArrangeSpec(keys, LegacyItems(active, catalog), RowOrders(active));
    var i :| 0 <= i < |active| && active[i] == row;
    assert keys[i] == CatName(row);
  }

  /** Every category of the legacy menu is the name of an active row. */
  lemma LegacyMenuNamed(raw: seq<Record>, catalog: AllergenCatalog, c: Category)
    requires c in LegacyMenu(raw, catalog).categories
    ensures exists row :: row in Filter(raw, Attivo) && CatName(row) == c.id
  {
    var active := Filter(raw, Attivo);
    var keys := RowNames(active);
    LegacyMenuCategories(raw, catalog);
    ArrangeNames(keys, LegacyItems(active, catalog), RowOrders(active), c);
    var i :| 0 <= i < |keys| && keys[i] == c.id;
    assert active[i] in active;
  }

  /** Only active rows make items. */
  lemma LegacyOnlyActive(raw: seq<Record>, row: Record)
    requires row in Filter(raw, Attivo)
    ensures row in raw && LegacyTruthy(Get(row, "attivo"))
  {
    FilterMembers(raw, Attivo, row);
  }

  // ------------------------------------------------------------ the loops

  /** Creating the category on first sight, then pushing the item. */
  method PushLegacyItem(categories: seq<Category>, catName: string, item: Item, order: real)
    returns (result: seq<Category>)
    ensures result == AddLegacy(categories, catName, item, order)
  {
    var pos := FindCat(categories, catName);
    if pos.None? {
      result := categories + [Category(catName, catName, catName, order, [item])];
    } else {
      var p := pos.value;
      result := categories[p := categories[p].(items := categories[p].items + [item])];
    }
  }

  /** The `forEach` over the active rows: the dictionary filled row by row. */
  method GatherRows(keys: seq<string>, items: seq<Item>, orders: seq<real>) returns (categories: seq<Category>)
    requires |keys| == |items| == |orders|
    ensures categories == Gather(keys, items, orders)
  {
    categories := [];
    var i := 0;
    while i < |keys|
      invariant 0 <= i <= |keys|
      invariant categories == Gather(keys[..i], items[..i], orders[..i])
    {
      PrefixSnoc(keys, i);
      PrefixSnoc(items, i);
      PrefixSnoc(orders, i);
      categories := PushLegacyItem(categories, keys[i], items[i], orders[i]);
      i := i + 1;
    }
    assert keys[..i] == keys && items[..i] == items && orders[..i] == orders;
  }

  /** Each category's items sorted in place, one category at a time. */
  method SortEachCategory(g: seq<Category>) returns (categories: seq<Category>)
    ensures categories == SortAllItems(g)
  {
    categories := g;
    var j := 0;
    while j < |categories|
      invariant 0 <= j <= |categories| == |g|
      invariant forall p :: 0 <= p < j ==> categories[p] == SortItems(g[p])
      invariant forall p :: j <= p < |g| ==> categories[p] == g[p]
    {
      categories := categories[j := categories[j].(items := SortBy(categories[j].items, ItemOrder))];
      j := j + 1;
    }
  }

  /** `processMenuData`: the active rows, the last update stamp, the
      dictionary filled row by row, each category's items sorted, then the
      categories sorted. The category name, item and category order of each
      row are read before the dictionary loop. */
  method ProcessMenuData(raw: seq<Record>, catalog: AllergenCatalog) returns (data: MenuData)
    ensures data == LegacyMenu(raw, catalog)
  {
    var activeItems := Filter(raw, Attivo);
    var lastSheetUpdate := LatestUpdate(raw, "ultimo_aggiornamento");
    var categories := GatherRows(RowNames(activeItems), LegacyItems(activeItems, catalog), RowOrders(activeItems));
    categories := SortEachCategory(categories);
    data := MenuData(SortBy(categories, CategoryOrder), lastSheetUpdate);
  }

  // ------------------------------------------------------------ applyFiltersToData

  /** The `tipo` spellings app.js compares with. */
  const ItalianTokens: DietTokens := DietTokens("vegano", "vegetariano")

  /** With the vegan diet every legacy item shown is `vegano`. */
  lemma LegacyFilterVegan(cats: seq<Category>, f: Filters, c: Category, x: Item)
    requires f.diet == "vegan" && c in ApplyFilters(cats, f, ItalianTokens) && x in c.items
    ensures x.tipo == "vegano"
  {
    ApplyFiltersVegan(cats, f, ItalianTokens, c, x);
  }

  /** With the vegetarian diet a legacy item is shown exactly when it is in
      some category, is `vegetariano` or `vegano`, and carries no excluded
      allergen. */
  lemma LegacyFilterVegetarian(cats: seq<Category>, f: Filters, x: Item)
    requires f.diet == "vegetarian"
    ensures (exists c :: c in ApplyFilters(cats, f, ItalianTokens) && x in c.items)
        <==> (exists c :: c in cats && x in c.items)
             && (x.tipo == "vegetariano" || x.tipo == "vegano")
             && !HasExcluded(x.allergenKeys, f.excludeAllergens)
  {
    ApplyFiltersItems(cats, f, ItalianTokens, x);
  }

  /** The legacy filter is idempotent too. */
  lemma LegacyFilterIdempotent(cats: seq<Category>, f: Filters)
    ensures ApplyFilters(ApplyFilters(cats, f, ItalianTokens), f, ItalianTokens) == ApplyFilters(cats, f, ItalianTokens)
  {
    ApplyFiltersIdempotent(cats, f, ItalianTokens);
  }

  // ------------------------------------------------------------ t / tAllergen

  /** `TRANSLATIONS[lang][key] || TRANSLATIONS['it'][key] || key`: a plain
      property lookup (a dotted key is not a path), then Italian, then the
      key. Both tables must exist (the lookup throws otherwise). */
  function LegacyT(tr: Translations, lang: string, key: string): Json
    requires lang in tr && "it" in tr
  {
    Either(Member(Some(tr[lang]), key), Either(Member(Some(tr["it"]), key), JStr(key)))
  }

  /** `TRANSLATIONS[lang].allergens[key] || TRANSLATIONS['it'].allergens[key] || key`. */
  function LegacyTAllergen(tr: Translations, lang: string, key: string): Json
    requires lang in tr && "it" in tr
  {
    Either(Member(Member(Some(tr[lang]), "allergens"), key),
           Either(Member(Member(Some(tr["it"]), "allergens"), key), JStr(key)))
  }

  /** A key without dots is a single lookup. */
  lemma NestedPlain(v: Option<Json>, key: string)
    requires key != [] && '.' !in key
    ensures NestedValue(v, key) == Member(v, key)
  {
    if Truthy(v) {
      SplitPlain(key, '.');
      assert [key][1..] == [];
      assert Follow(v, [key]) == Follow(Member(v, key), []);
    }
  }

  /** For a key without dots the legacy `t` is the module `t` with Italian
      as the fallback language. */
  lemma LegacyTIsT(tr: Translations, lang: string, key: string)
    requires lang in tr && "it" in tr && key != [] && '.' !in key
    ensures LegacyT(tr, lang, key) == T(tr, lang, "it", key)
  {
    NestedPlain(Some(tr[lang]), key);
    NestedPlain(Some(tr["it"]), key);
  }

  /** The legacy `tAllergen` is the module `tAllergen` with Italian as the
      fallback language, and never gives a falsy text for a non-empty key. */
  lemma LegacyTAllergenIs(tr: Translations, lang: string, key: string)
    requires lang in tr && "it" in tr
    ensures LegacyTAllergen(tr, lang, key) == TAllergen(tr, lang, "it", key)
    ensures key != [] ==> Truthy(Some(LegacyTAllergen(tr, lang, key)))
  {
  }
}
