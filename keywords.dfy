/** The spreadsheet keyword catalog (`TRANSLATIONS.csvKeywords`): for each of
    the column, content-type, boolean-value and weekday vocabularies, entries
    from the English keyword to its Italian spelling. A catalog is kept as its
    list of entries in object order, so that both the forward lookup (a later
    duplicate key wins) and the inverted lookup that `parseUnifiedCSV` builds
    (a later duplicate Italian spelling wins) are determined. */
module Keywords {
  import opened Collections

  /** (English keyword, Italian spelling) pairs in object order; an absent
      catalog is the empty list. */
  type Catalog = seq<(string, string)>

  datatype CsvKeywords = CsvKeywords(columns: Catalog, types: Catalog, values: Catalog, days: Catalog)

  /** The catalog read as an object: English keyword to Italian spelling. */
  function Forward(c: Catalog): map<string, string> {
    LastWins(c)
  }

  function Swap(c: Catalog): (r: Catalog)
    ensures |r| == |c|
    ensures forall i :: 0 <= i < |c| ==> r[i] == (c[i].1, c[i].0)
  {
    if |c| == 0 then [] else Swap(c[..|c| - 1]) + [(c[|c| - 1].1, c[|c| - 1].0)]
  }

  lemma SwapSnoc(c: Catalog, x: (string, string))
    ensures Swap(c + [x]) == Swap(c) + [(x.1, x.0)]
  {
    assert (c + [x])[..|c|] == c;
  }

  /** The inverted catalog: Italian spelling to English keyword. */
  function Inverse(c: Catalog): map<string, string> {
    LastWins(Swap(c))
  }

  /** The loop `Object.entries(c).forEach(([en, it]) => reverse[it] = en)`. */
  method BuildReverse(c: Catalog) returns (reverse: map<string, string>)
    ensures reverse == Inverse(c)
  {
    reverse := map[];
    var i := 0;
    while i < |c|
      invariant 0 <= i <= |c|
      invariant reverse == Inverse(c[..i])
    {
      var (en, it) := c[i];
      InverseStep(c, i);
      reverse := reverse[it := en];
      i := i + 1;
    }
    assert c[..|c|] == c;
  }

  /** One more entry sets its spelling to its keyword. */
  lemma InverseStep(c: Catalog, i: nat)
    requires i < |c|
    ensures Inverse(c[..i + 1]) == Inverse(c[..i])[c[i].1 := c[i].0]
  {
    assert c[..i + 1] == c[..i] + [c[i]];
    SwapSnoc(c[..i], c[i]);
    LastWinsSnoc(Swap(c[..i]), (c[i].1, c[i].0));
  }

  /** `m[k]` when it is present and non-empty (a truthy lookup). */
  function Lookup(m: map<string, string>, k: string): (r: Option<string>)
    ensures r.Some? <==> k in m && m[k] != []
    ensures r.Some? ==> r.value == m[k]
  {
    if k in m && m[k] != [] then Some(m[k]) else None
  }

  /** `m[k] || k`. */
  function Translate(m: map<string, string>, k: string): (r: string)
    ensures k in m && m[k] != [] ==> r == m[k]
    ensures !(k in m && m[k] != []) ==> r == k
  {
    if k in m && m[k] != [] then m[k] else k
  }

  /** Every Italian spelling that occurs is a key of the inverse, and each key of
      the inverse is an Italian spelling of some entry. */
  lemma InverseKeys(c: Catalog)
    ensures forall i :: 0 <= i < |c| ==> c[i].1 in Inverse(c)
    ensures forall k | k in Inverse(c) :: exists i :: 0 <= i < |c| && c[i].1 == k
  {
    var s := Swap(c);
    forall k | k in Inverse(c) ensures exists i :: 0 <= i < |c| && c[i].1 == k {
      var i :| 0 <= i < |s| && s[i].0 == k;
      assert c[i].1 == k;
    }
  }

  /** An Italian spelling used once inverts to its own English keyword. */
  lemma InverseValue(c: Catalog, i: nat)
    requires i < |c|
    requires forall j :: i < j < |c| ==> c[j].1 != c[i].1
    ensures c[i].1 in Inverse(c) && Inverse(c)[c[i].1] == c[i].0
  {
    LastWinsValue(Swap(c), i);
  }

  predicate Injective(c: Catalog) {
    forall i, j :: 0 <= i < j < |c| ==> c[i].0 != c[j].0 && c[i].1 != c[j].1
  }

  lemma InverseForward(c: Catalog, it: string)
    requires Injective(c) && it in Inverse(c)
    ensures Inverse(c)[it] in Forward(c) && Forward(c)[Inverse(c)[it]] == it
  {
    InverseKeys(c);
    var i :| 0 <= i < |c| && c[i].1 == it;
    InverseValue(c, i);
    LastWinsValue(c, i);
  }

  lemma ForwardInverse(c: Catalog, en: string)
    requires Injective(c) && en in Forward(c)
    ensures Forward(c)[en] in Inverse(c) && Inverse(c)[Forward(c)[en]] == en
  {
    var i :| 0 <= i < |c| && c[i].0 == en;
    InverseValue(c, i);
    LastWinsValue(c, i);
  }

  /** For a catalog without duplicate keys or spellings, inverting and then
      looking up forward gives back the Italian spelling, and looking up forward
      and then inverting gives back the English keyword. */
  lemma RoundTrip(c: Catalog)
    requires Injective(c)
    ensures forall it | it in Inverse(c) :: Inverse(c)[it] in Forward(c) && Forward(c)[Inverse(c)[it]] == it
    ensures forall en | en in Forward(c) :: Forward(c)[en] in Inverse(c) && Inverse(c)[Forward(c)[en]] == en
  {
    forall it | it in Inverse(c) ensures Inverse(c)[it] in Forward(c) && Forward(c)[Inverse(c)[it]] == it {
      InverseForward(c, it);
    }
    forall en | en in Forward(c) ensures Forward(c)[en] in Inverse(c) && Inverse(c)[Forward(c)[en]] == en {
      ForwardInverse(c, en);
    }
  }
}
