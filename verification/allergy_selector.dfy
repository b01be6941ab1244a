/** The allergy panel: two fixed allergen catalogs, a list of selected ids
    that checking appends to and unchecking filters, a clear button and a save
    button that closes the panel and hands the selection to the parent. */
module AllergySelector {
  import opened Wrappers

  /** One allergen of a catalog: its id and its Japanese name. */
  datatype Allergen = Allergen(id: string, name: string)

  /** The eight allergens whose labelling is mandatory. */
  const Mandatory: seq<Allergen> := [
    Allergen("egg", "卵"),
    Allergen("milk", "乳"),
    Allergen("wheat", "小麦"),
    Allergen("buckwheat", "そば"),
    Allergen("peanut", "落花生"),
    Allergen("shrimp", "えび"),
    Allergen("crab", "かに"),
    Allergen("soybean", "大豆")]

  /** The twenty allergens whose labelling is recommended. */
  const Recommended: seq<Allergen> := [
    Allergen("abalone", "あわび"),
    Allergen("squid", "いか"),
    Allergen("salmon-roe", "いくら"),
    Allergen("orange", "オレンジ"),
    Allergen("kiwi", "キウイフルーツ"),
    Allergen("beef", "牛肉"),
    Allergen("walnut", "くるみ"),
    Allergen("salmon", "さけ"),
    Allergen("mackerel", "さば"),
    Allergen("chicken", "鶏肉"),
    Allergen("banana", "バナナ"),
    Allergen("pork", "豚肉"),
    Allergen("matsutake", "まつたけ"),
    Allergen("peach", "もも"),
    Allergen("yam", "やまいも"),
    Allergen("apple", "りんご"),
    Allergen("gelatin", "ゼラチン"),
    Allergen("cashew", "カシューナッツ"),
    Allergen("sesame", "ごま"),
    Allergen("almond", "アーモンド")]

  /** `[...mandatoryAllergens, ...recommendedAllergens]` */
  const Catalog: seq<Allergen> := Mandatory + Recommended

  /** The ids of a list of allergens, in order. */
  function Ids(items: seq<Allergen>): (ids: seq<string>)
    ensures |ids| == |items|
    ensures forall i :: 0 <= i < |items| ==> ids[i] == items[i].id
  {
    seq(|items|, i requires 0 <= i < |items| => items[i].id)
  }

  /** No value occurs twice. */
  predicate NoDuplicates(s: seq<string>) {
    forall i, j :: 0 <= i < j < |s| ==> s[i] != s[j]
  }

  lemma MandatoryDistinct()
    ensures NoDuplicates(Ids(Mandatory))
  {
    assert Ids(Mandatory) == ["egg", "milk", "wheat", "buckwheat", "peanut", "shrimp", "crab", "soybean"];
  }

  /** Length, first and last character of an id. */
  function Signature(s: string): (int, char, char) {
    if |s| == 0 then (0, ' ', ' ') else (|s|, s[0], s[|s| - 1])
  }

  /** Ids whose signatures differ are distinct. */
  lemma DistinctSignatures(s: seq<string>)
    requires forall i, j :: 0 <= i < j < |s| ==> Signature(s[i]) != Signature(s[j])
    ensures NoDuplicates(s)
  {
  }

  /** The signatures of the recommended catalog, in order. */
  const RecommendedSignatures: seq<(int, char, char)> := [
    (7, 'a', 'e'), (5, 's', 'd'), (10, 's', 'e'), (6, 'o', 'e'), (4, 'k', 'i'),
    (4, 'b', 'f'), (6, 'w', 't'), (6, 's', 'n'), (8, 'm', 'l'), (7, 'c', 'n'),
    (6, 'b', 'a'), (4, 'p', 'k'), (9, 'm', 'e'), (5, 'p', 'h'), (3, 'y', 'm'),
    (5, 'a', 'e'), (7, 'g', 'n'), (6, 'c', 'w'), (6, 's', 'e'), (6, 'a', 'd')]

  lemma RecommendedSignaturesDistinct()
    ensures forall i, j :: 0 <= i < j < |RecommendedSignatures| ==> RecommendedSignatures[i] != RecommendedSignatures[j]
  {
  }

  lemma RecommendedSignaturesMatch()
    ensures |RecommendedSignatures| == |Recommended|
    ensures forall i :: 0 <= i < |Recommended| ==> Signature(Recommended[i].id) == RecommendedSignatures[i]
  {
  }

  lemma RecommendedDistinct()
    ensures NoDuplicates(Ids(Recommended))
  {
    RecommendedSignaturesDistinct();
    RecommendedSignaturesMatch();
    DistinctSignatures(Ids(Recommended));
  }

  lemma CatalogsDisjoint()
    ensures forall i, j :: 0 <= i < |Mandatory| && 0 <= j < |Recommended| ==> Mandatory[i].id != Recommended[j].id
  {
  }

  /** The catalogs hold 8 and 20 allergens, 28 in all, and no id occurs twice. */
  lemma CatalogShape()
    ensures |Mandatory| == 8 && |Recommended| == 20 && |Catalog| == 28
    ensures NoDuplicates(Ids(Catalog))
  {
    MandatoryDistinct();
    RecommendedDistinct();
    CatalogsDisjoint();
    var ids := Ids(Catalog);
    forall i, j | 0 <= i < j < |ids|
      ensures ids[i] != ids[j]
    {
      if j < 8 {
        assert Ids(Mandatory)[i] != Ids(Mandatory)[j];
      } else if i >= 8 {
        assert Ids(Recommended)[i - 8] != Ids(Recommended)[j - 8];
      } else {
        assert Mandatory[i].id != Recommended[j - 8].id;
      }
    }
  }

  /** `selected.filter((item) => item !== id)` */
  function Without(selected: seq<string>, id: string): (r: seq<string>)
    ensures id !in r
    ensures |r| <= |selected|
    ensures forall x :: x in r ==> x in selected
    ensures forall x :: x in selected && x != id ==> x in r
  {
    if |selected| == 0 then []
    else if selected[|selected| - 1] == id then Without(selected[..|selected| - 1], id)
    else Without(selected[..|selected| - 1], id) + [selected[|selected| - 1]]
  }

  /** Filtering keeps the count of every other id and keeps the order of what
      it keeps: it distributes over concatenation. */
  lemma {:induction false} WithoutAppend(a: seq<string>, b: seq<string>, id: string)
    ensures Without(a + b, id) == Without(a, id) + Without(b, id)
    decreases |b|
  {
    if |b| == 0 {
      assert a + b == a;
    } else {
      var b' := b[..|b| - 1];
      assert (a + b)[..|a + b| - 1] == a + b';
      WithoutAppend(a, b', id);
    }
  }

  /** Removing an id that is not there changes nothing. */
  lemma {:induction false} WithoutAbsent(selected: seq<string>, id: string)
    requires id !in selected
    ensures Without(selected, id) == selected
    decreases |selected|
  {
    if |selected| > 0 {
      WithoutAbsent(selected[..|selected| - 1], id);
      assert selected[..|selected| - 1] + [selected[|selected| - 1]] == selected;
    }
  }

  /** Every other id occurs as often after the filter as before it. */
  lemma {:induction false} WithoutCounts(selected: seq<string>, id: string)
    ensures multiset(Without(selected, id))[id] == 0
    ensures forall x :: x != id ==> multiset(Without(selected, id))[x] == multiset(selected)[x]
    decreases |selected|
  {
    if |selected| > 0 {
      var init := selected[..|selected| - 1];
      WithoutCounts(init, id);
      assert selected == init + [selected[|selected| - 1]];
    }
  }

  /** `handleAllergyChange(id, checked)`: checking appends the id at the end,
      with no test for a duplicate; unchecking removes every occurrence. */
  function Change(selected: seq<string>, id: string, checked: bool): (r: seq<string>)
    ensures checked ==> |r| == |selected| + 1 && r[..|selected|] == selected && r[|selected|] == id
    ensures !checked ==> r == Without(selected, id)
  {
    if checked then selected + [id] else Without(selected, id)
  }

  /** `selectedAllergies.includes(id)`: the checkbox state. */
  predicate IsChecked(selected: seq<string>, id: string): (b: bool)
    ensures b <==> multiset(selected)[id] > 0
  {
    id in selected
  }

  /** A click on a checkbox: it reports the state opposite to the one shown. */
  function Click(selected: seq<string>, id: string): (r: seq<string>)
    ensures IsChecked(r, id) <==> !IsChecked(selected, id)
    ensures forall x :: x != id ==> (IsChecked(r, x) <==> IsChecked(selected, x))
  {
    Change(selected, id, !IsChecked(selected, id))
  }

  /** Filtering a list without duplicates leaves none. */
  lemma {:induction false} WithoutKeepsNoDuplicates(selected: seq<string>, id: string)
    requires NoDuplicates(selected)
    ensures NoDuplicates(Without(selected, id))
    decreases |selected|
  {
    if |selected| > 0 {
      var init := selected[..|selected| - 1];
      var last := selected[|selected| - 1];
      assert NoDuplicates(init) by {
        forall i, j | 0 <= i < j < |init|
          ensures init[i] != init[j]
        {
          assert init[i] == selected[i] && init[j] == selected[j];
        }
      }
      WithoutKeepsNoDuplicates(init, id);
      if last != id {
        assert last !in init by {
          forall i | 0 <= i < |init|
            ensures init[i] != last
          {
            assert init[i] == selected[i];
          }
        }
        var w := Without(init, id);
        forall i, j | 0 <= i < j < |w| + 1
          ensures (w + [last])[i] != (w + [last])[j]
        {
          if j == |w| {
            assert (w + [last])[i] == w[i];
            assert w[i] in init;
          }
        }
      }
    }
  }

  /** Clicks keep the selection free of duplicates. */
  lemma ClickKeepsNoDuplicates(selected: seq<string>, id: string)
    requires NoDuplicates(selected)
    ensures NoDuplicates(Click(selected, id))
  {
    if !IsChecked(selected, id) {
      var r := Click(selected, id);
      forall i, j | 0 <= i < j < |r|
        ensures r[i] != r[j]
      {
        if j == |selected| {
          assert r[i] == selected[i];
        }
      }
    } else {
      WithoutKeepsNoDuplicates(selected, id);
    }
  }

  /** Checking an absent id and unchecking it again restores the selection. */
  lemma ClickTwiceRestores(selected: seq<string>, id: string)
    requires !IsChecked(selected, id)
    ensures Click(Click(selected, id), id) == selected
  {
    WithoutAppend(selected, [id], id);
    WithoutAbsent(selected, id);
    assert Without([id], id) == [];
  }

  /** The panel: the selection and whether it is expanded. */
  datatype Panel = Panel(selected: seq<string>, open: bool)

  /** `clearAllergies`: the empty selection; the panel stays as it is. */
  function Clear(p: Panel): (r: Panel)
    ensures r.selected == [] && r.open == p.open
  {
    p.(selected := [])
  }

  /** The clear button and the badge row are shown exactly when something is
      selected. */
  predicate ShowsSelection(p: Panel) {
    |p.selected| > 0
  }

  /** What `handleSave` leaves behind: the closed panel and what the parent's
      `onSave` received, if the parent passed one. */
  datatype Saved = Saved(panel: Panel, delivered: Option<seq<string>>)

  function Save(p: Panel, hasOnSave: bool): (r: Saved)
    ensures !r.panel.open && r.panel.selected == p.selected
    ensures r.delivered.Some? <==> hasOnSave
    ensures r.delivered.Some? ==> r.delivered.value == p.selected
  {
    Saved(p.(open := false), if hasOnSave then Some(p.selected) else None)
  }

  /** `catalog.find((a) => a.id === id)?.name`: the name of the first allergen
      with the id, or `None` for `undefined`. */
  function NameOf(catalog: seq<Allergen>, id: string): (r: Option<string>)
    ensures r.None? <==> id !in Ids(catalog)
    ensures r.Some? ==> exists i :: 0 <= i < |catalog| && catalog[i].id == id && catalog[i].name == r.value
  {
    if |catalog| == 0 then None
    else if catalog[0].id == id then Some(catalog[0].name)
    else
      var r := NameOf(catalog[1..], id);
      assert Ids(catalog) == [catalog[0].id] + Ids(catalog[1..]);
      r
  }

  /** One badge per selected id, in the order of selection. */
  function Badges(selected: seq<string>): (r: seq<Option<string>>)
    ensures |r| == |selected|
    ensures forall i :: 0 <= i < |selected| ==> r[i] == NameOf(Catalog, selected[i])
  {
    seq(|selected|, i requires 0 <= i < |selected| => NameOf(Catalog, selected[i]))
  }

  /** In a catalog whose ids are distinct, the badge of an allergen's id shows
      that allergen's name. */
  lemma {:induction false} NameOfCatalogEntry(catalog: seq<Allergen>, k: nat)
    requires k < |catalog| && NoDuplicates(Ids(catalog))
    ensures NameOf(catalog, catalog[k].id) == Some(catalog[k].name)
    decreases k
  {
    if k > 0 {
      var rest := catalog[1..];
      assert Ids(catalog)[0] != Ids(catalog)[k];
      assert NoDuplicates(Ids(rest)) by {
        forall i, j | 0 <= i < j < |rest|
          ensures Ids(rest)[i] != Ids(rest)[j]
        {
          assert Ids(rest)[i] == Ids(catalog)[i + 1] && Ids(rest)[j] == Ids(catalog)[j + 1];
        }
      }
      NameOfCatalogEntry(rest, k - 1);
      assert rest[k - 1] == catalog[k];
    }
  }

  /** Every allergen of the two catalogs gets its own name on its badge. */
  lemma CatalogBadge(k: nat)
    requires k < |Catalog|
    ensures Badges([Catalog[k].id]) == [Some(Catalog[k].name)]
  {
    CatalogShape();
    NameOfCatalogEntry(Catalog, k);
  }
}
