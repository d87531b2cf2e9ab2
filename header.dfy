/** The Header component: its three pieces of state, the handlers that change
    them, and what one render derives from them. */
module HeaderView {
  import opened Text
  import opened Catalog
  import opened SearchFilter
  import opened CategoryAggregation

  datatype Option<T> = None | Some(value: T)

  const SHOW_CHART_LABEL: string := "Ver Gráfica"
  const HIDE_CHART_LABEL: string := "Ocultar Gráfica"

  /** The text of the chart button: it names the action a click performs. */
  function ChartButtonLabel(showChart: bool): (text: string)
    ensures text == HIDE_CHART_LABEL <==> showChart
    ensures text == SHOW_CHART_LABEL <==> !showChart
  {
    if showChart then HIDE_CHART_LABEL else SHOW_CHART_LABEL
  }

  /** What one render shows: the table rows, the button text, and the chart
      data when the chart is visible. */
  datatype View = View(rows: seq<Product>, buttonLabel: string, chart: Option<seq<CategoryCount>>)

  class Header {
    var products: seq<Product>
    var searchTerm: string
    var showChart: bool

    /** Mounting: no products yet, an empty search box, the chart hidden. */
    constructor ()
      ensures products == [] && searchTerm == "" && !showChart
    {
      products := [];
      searchTerm := "";
      showChart := false;
    }

    /** The catalog request settles: a parsed product list replaces the
        current one; a failure is only logged and changes nothing. */
    method OnCatalogResponse(response: Option<seq<Product>>)
      modifies this
      ensures products == if response.Some? then response.value else old(products)
      ensures searchTerm == old(searchTerm) && showChart == old(showChart)
    {
      if response.Some? {
        products := response.value;
      }
    }

    /** A keystroke in the search box stores the new text. */
    method OnSearchInput(value: string)
      modifies this
      ensures searchTerm == value
      ensures products == old(products) && showChart == old(showChart)
    {
      searchTerm := value;
    }

    /** A click on the chart button flips the visibility flag. */
    method OnChartButtonClick()
      modifies this
      ensures showChart == !old(showChart)
      ensures products == old(products) && searchTerm == old(searchTerm)
    {
      showChart := !showChart;
    }

    /** `filteredProducts` for the current state. */
    function FilteredProducts(): (r: seq<Product>)
      reads this
      ensures IsSubsequence(r, products)
      ensures forall p :: p in r <==> p in products && Matches(p, searchTerm)
    {
      FilterIsSubsequence(products, searchTerm);
      FilterMembership(products, searchTerm);
      FilterProducts(products, searchTerm)
    }

    /** One render: the table lists the filtered products, the button names
        the next action, and the chart, when shown, plots the aggregation of
        exactly the rows in the table. */
    method Render() returns (view: View)
      requires PlainCategories(FilteredProducts())
      ensures view.rows == FilterProducts(products, searchTerm)
      ensures view.buttonLabel == ChartButtonLabel(showChart)
      ensures view.chart == if showChart then Some(CategoryCounts(view.rows)) else None
    {
      var rows := FilteredProducts();
      var categoryCount := CountByCategory(rows);
      view := View(rows, ChartButtonLabel(showChart), if showChart then Some(categoryCount) else None);
    }
  }
}
