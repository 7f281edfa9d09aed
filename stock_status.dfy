/** The stock status a warehouse item's quantity and minimum stock determine. */
module StockStatus {

  datatype Status = InStock | LowStock | OutOfStock

  /**
   * calculateStockStatus: no stock at all is OUT_OF_STOCK, a quantity at or below the
   * minimum is LOW_STOCK, anything else is IN_STOCK. Each status is characterised in both
   * directions, so the three cases are exhaustive and disjoint.
   */
  function CalculateStockStatus(quantity: int, minimumStock: int): (s: Status)
    ensures s == OutOfStock <==> quantity == 0
    ensures s == LowStock <==> quantity != 0 && quantity <= minimumStock
    ensures s == InStock <==> quantity != 0 && quantity > minimumStock
  {
    if quantity == 0 then OutOfStock
    else if quantity <= minimumStock then LowStock
    else InStock
  }

  /** Over the non-negative quantities the ledger stores, LOW_STOCK means 0 < quantity <= minimumStock. */
  lemma LowStockBand(quantity: nat, minimumStock: int)
    ensures CalculateStockStatus(quantity, minimumStock) == LowStock <==> 0 < quantity <= minimumStock
    ensures quantity > 0 && quantity > minimumStock ==> CalculateStockStatus(quantity, minimumStock) == InStock
  {
  }
}
