/** The in-memory table every recorded request is priced from. */
module PriceTable {
  import opened Options
  import opened PriceList

  class PriceTable {
    var table: Option<RateTable>

    constructor ()
      ensures table == None
    {
      table := None;
    }

    /** The whole table is swapped at once. */
    method SetPrices(prices: seq<ModelPrice>)
      modifies this
      ensures table == Some(RatesOf(prices))
      ensures Distinct(prices) ==> forall i | 0 <= i < |prices| ::
                Price(prices[i].key.provider, prices[i].key.model) == Some(prices[i].rates)
      ensures forall provider, model | Key(provider, model) !in KeysOf(prices) :: Price(provider, model) == None
    {
      var m: RateTable := map[];
      for i := 0 to |prices|
        invariant m == RatesOf(prices[..i])
      {
        assert prices[..i + 1][..i] == prices[..i];
        m := m[prices[i].key := prices[i].rates];
      }
      assert prices[..|prices|] == prices;
      table := Some(m);
      if Distinct(prices) {
        forall i | 0 <= i < |prices| ensures Price(prices[i].key.provider,
            prices[i].key.model) == Some(prices[i].rates) {
          RatesAt(prices, i);
        }
      }
    }

    /** None before the first SetPrices, and for a model without a price. */
    function Price(provider: string, model: string): Option<Rates>
      reads this
    {
      if table.Some? && Key(provider, model) in table.value then Some(table.value[Key(provider, model)]) else None
    }
  }
}
