/** Worked scenarios of the component on a three-product catalog. */
module Scenarios {
  import opened Text
  import opened Catalog
  import opened SearchFilter
  import opened CategoryAggregation
  import opened HeaderView

  function Sample(): (r: seq<Product>) {
    [ Product(1, "Red Shirt", 20.0, "clothing"),
      Product(2, "Blue Hat", 10.0, "accessories"),
      Product(3, "Green Shirt", 25.0, "clothing") ]
  }

  lemma SampleLowered()
    ensures Lower("shirt") == "shirt" && Lower("SHIRT") == "shirt"
    ensures Lower("Red Shirt") == "red shirt" && Lower("clothing") == "clothing"
    ensures Lower("Blue Hat") == "blue hat" && Lower("accessories") == "accessories"
    ensures Lower("Green Shirt") == "green shirt"
  {
  }

  lemma SampleMatchesShirt()
    ensures Matches(Sample()[0], "shirt")
    ensures !Matches(Sample()[1], "shirt")
    ensures Matches(Sample()[2], "shirt")
  {
    RedShirtMatches();
    BlueHatDoesNotMatch();
    GreenShirtMatches();
  }

  lemma RedShirtMatches()
    ensures Matches(Sample()[0], "shirt")
  {
    var p := Sample()[0];
    assert p.title == "Red Shirt";
    SampleLowered();
    assert Contains("red shirt", "shirt");
  }

  lemma BlueHatDoesNotMatch()
    ensures !Matches(Sample()[1], "shirt")
  {
    var p := Sample()[1];
    assert p.title == "Blue Hat" && p.category == "accessories";
    SampleLowered();
    NoShirtInBlueHat();
  }

  lemma NoShirtInBlueHat()
    ensures !Contains("blue hat", "shirt")
    ensures !Contains("accessories", "shirt")
  {
    MissingCharNotContained("blue hat", "shirt", 0);
    MissingCharNotContained("accessories", "shirt", 1);
  }

  lemma GreenShirtMatches()
    ensures Matches(Sample()[2], "shirt")
  {
    var p := Sample()[2];
    assert p.title == "Green Shirt";
    SampleLowered();
    assert Contains("green shirt", "shirt");
  }

  /** Searching "shirt" keeps the two shirts, in catalog order. */
  lemma ShirtSearch()
    ensures FilterProducts(Sample(), "shirt") == [Sample()[0], Sample()[2]]
  {
    var ps := Sample();
    SampleMatchesShirt();
    assert ps[1..][1..][1..] == [];
    assert FilterProducts(ps[1..][1..], "shirt") == [ps[2]];
  }

  /** The search is case-insensitive: "SHIRT" finds the same two shirts. */
  lemma UpperCaseShirtSearch()
    ensures FilterProducts(Sample(), "SHIRT") == [Sample()[0], Sample()[2]]
  {
    SampleLowered();
    FilterCaseInsensitive(Sample(), "SHIRT", "shirt");
    ShirtSearch();
  }

  /** Both shirts are clothing, so the chart has a single bar of height two. */
  lemma ShirtSearchCounts()
    ensures CategoryCounts([Sample()[0], Sample()[2]]) == [CategoryCount("clothing", 2)]
  {
    assert Labels([Sample()[0], Sample()[2]]) == ["clothing", "clothing"];
    assert Distinct(["clothing", "clothing"]) == ["clothing"];
  }

  /** The empty search keeps all three; clothing is seen first, then accessories. */
  lemma EmptySearchCounts()
    ensures FilterProducts(Sample(), "") == Sample()
    ensures CategoryCounts(Sample()) == [CategoryCount("clothing", 2), CategoryCount("accessories", 1)]
  {
    FilterEmptyTerm(Sample());
    var labels := ["clothing", "accessories", "clothing"];
    assert Labels(Sample()) == labels;
    assert labels[..2] == ["clothing", "accessories"];
    assert labels[..2][..1] == ["clothing"];
    assert labels[..2][..1][..0] == [];
    assert Distinct(["clothing"]) == ["clothing"];
    assert Distinct(labels[..2]) == ["clothing", "accessories"];
    assert Distinct(labels) == ["clothing", "accessories"];
    assert multiset(labels)["clothing"] == 2;
  }

  lemma SampleCategoriesArePlain()
    ensures PlainCategories(Sample())
    ensures PlainCategories([Sample()[0], Sample()[2]])
  {
    assert !('0' <= "clothing"[0] <= '9');
    assert !('0' <= "accessories"[0] <= '9');
  }

  /** Mount, receive the sample catalog, type "shirt", then render, click,
      render, click, render: the rows never change, the chart appears with the
      clothing bar and disappears again. */
  method ChartToggleScenario() returns (hidden: View, shown: View, hiddenAgain: View)
    ensures hidden.rows == shown.rows == hiddenAgain.rows == [Sample()[0], Sample()[2]]
    ensures hidden.buttonLabel == SHOW_CHART_LABEL && hidden.chart == None
    ensures shown.buttonLabel == HIDE_CHART_LABEL && shown.chart == Some([CategoryCount("clothing", 2)])
    ensures hiddenAgain == hidden
  {
    var header := new Header();
    header.OnCatalogResponse(Some(Sample()));
    header.OnSearchInput("shirt");
    ShirtSearch();
    ShirtSearchCounts();
    SampleCategoriesArePlain();
    hidden := header.Render();
    header.OnChartButtonClick();
    shown := header.Render();
    header.OnChartButtonClick();
    hiddenAgain := header.Render();
  }

  /** When the catalog request fails, the table stays empty whatever is typed. */
  method FetchFailureScenario(term: string) returns (view: View)
    ensures view.rows == [] && view.chart == None
    ensures view.buttonLabel == SHOW_CHART_LABEL
  {
    var header := new Header();
    header.OnCatalogResponse(None);
    header.OnSearchInput(term);
    view := header.Render();
  }
}
