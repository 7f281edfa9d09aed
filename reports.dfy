/**
 * The report service: the calendar window of a reporting period, the inventory and sales
 * overview computed over that window, and the order amounts per product category. Dates are
 * calendar fields with 0-based months (as JavaScript's Date has them) and money is integral.
 */
module Reports {
  import opened Wrappers
  import opened StockStatus
  import opened Inventory

  /** A local date and time to the millisecond, as a JavaScript Date holds it; `month` is 0 (January) to 11 (December). */
  datatype DateTime = DateTime(year: int, month: int, day: int, hour: int, minute: int, second: int, millisecond: int)

  datatype Period = Month | Quarter | Semester | Year | Unknown(name: string)

  /** `new Date(y, …)` reads a two-digit year (0 to 99) as 1900 + y. */
  function CalendarYear(y: int): int {
    if 0 <= y <= 99 then 1900 + y else y
  }

  predicate IsLeapYear(y: int) {
    (y % 4 == 0 && y % 100 != 0) || y % 400 == 0
  }

  function DaysInMonth(y: int, month: int): (n: int)
    requires 0 <= month < 12
    ensures 28 <= n <= 31
  {
    if month == 1 then (if IsLeapYear(y) then 29 else 28)
    else if month == 3 || month == 5 || month == 8 || month == 10 then 30
    else 31
  }

  /** `new Date(y, month, 1)`: midnight on the first of the month. */
  function FirstOf(y: int, month: int): DateTime
    requires 0 <= month < 12
  {
    DateTime(CalendarYear(y), month, 1, 0, 0, 0, 0)
  }

  /**
   * `new Date(y, next, 0, 23, 59, 59)`: day 0 of month `next` is the last day of the month
   * before it, at 23:59:59.000; `next` is 12 when that month is December.
   */
  function EndBefore(y: int, next: int): (d: DateTime)
    requires 1 <= next <= 12
    ensures d.month == next - 1 && d.day == DaysInMonth(CalendarYear(y), next - 1)
  {
    DateTime(CalendarYear(y), next - 1, DaysInMonth(CalendarYear(y), next - 1), 23, 59, 59, 0)
  }

  /** `a <= b` on dates. */
  predicate NotAfter(a: DateTime, b: DateTime) {
    if a.year != b.year then a.year < b.year
    else if a.month != b.month then a.month < b.month
    else if a.day != b.day then a.day < b.day
    else if a.hour != b.hour then a.hour < b.hour
    else if a.minute != b.minute then a.minute < b.minute
    else if a.second != b.second then a.second < b.second
    else a.millisecond <= b.millisecond
  }

  /**
   * getPeriodRange(period, year): `currentMonth` is the clock's month (0 to 11). The month,
   * quarter or semester containing it, or the whole year for 'year' and any other value.
   */
  function GetPeriodRange(period: Period, year: int, currentMonth: int): (r: (DateTime, DateTime))
    requires 0 <= currentMonth < 12
    ensures r.0.year == CalendarYear(year) && r.1.year == r.0.year
    ensures r.0.day == 1 && r.0.month <= currentMonth <= r.1.month
    ensures NotAfter(r.0, r.1)
  {
    match period
    case Month => (FirstOf(year, currentMonth), EndBefore(year, currentMonth + 1))
    case Quarter =>
      var quarter := currentMonth / 3;
      (FirstOf(year, quarter * 3), EndBefore(year, quarter * 3 + 3))
    case Semester =>
      var semester := if currentMonth < 6 then 0 else 6;
      (FirstOf(year, semester), EndBefore(year, semester + 6))
    case _ => (FirstOf(year, 0), DateTime(CalendarYear(year), 11, 31, 23, 59, 59, 0))
  }

  /** The first month, in the window's year, that a period covers. */
  function FirstMonth(period: Period, currentMonth: int): int {
    match period
    case Month => currentMonth
    case Quarter => 3 * (currentMonth / 3)
    case Semester => if currentMonth < 6 then 0 else 6
    case _ => 0
  }

  /** How many months a period covers. */
  function Length(period: Period): int {
    match period
    case Month => 1
    case Quarter => 3
    case Semester => 6
    case _ => 12
  }

  /**
   * Every window runs from midnight on the first day of its first month to 23:59:59 on the last
   * day of its last month, all in the requested year; it spans 1, 3, 6 or 12 whole months, it
   * contains the current month, and it starts before it ends.
   */
  lemma PeriodRangeFacts(period: Period, year: int, currentMonth: int)
    requires 0 <= currentMonth < 12
    ensures var (start, end) := GetPeriodRange(period, year, currentMonth);
      var first := FirstMonth(period, currentMonth);
      && start == DateTime(CalendarYear(year), first, 1, 0, 0, 0, 0)
      && 0 <= first && first + Length(period) <= 12
      && first <= currentMonth < first + Length(period)
      && end.year == CalendarYear(year) && end.month == first + Length(period) - 1
      && end.day == DaysInMonth(CalendarYear(year), end.month)
      && end.hour == 23 && end.minute == 59 && end.second == 59 && end.millisecond == 0
      && NotAfter(start, end)
  {
  }

  /** A date that falls within [start, end]. */
  predicate Within(d: DateTime, start: DateTime, end: DateTime) {
    NotAfter(start, d) && NotAfter(d, end)
  }

  /**
   * The window ends at 23:59:59.000 of its last day, so a row dated later in that last second
   * falls outside it.
   */
  lemma LastSecondExcluded(period: Period, year: int, currentMonth: int, d: DateTime)
    requires 0 <= currentMonth < 12
    requires var end := GetPeriodRange(period, year, currentMonth).1;
      d == end.(millisecond := d.millisecond) && d.millisecond > 0
    ensures !Within(d, GetPeriodRange(period, year, currentMonth).0, GetPeriodRange(period, year, currentMonth).1)
  {
    PeriodRangeFacts(period, year, currentMonth);
  }

  datatype OrderRecord = OrderRecord(status: string, orderDate: DateTime, totalAmount: int)
  datatype ExpenseRecord = ExpenseRecord(date: DateTime, amount: int, state: bool)
  datatype DiscountRecord = DiscountRecord(isActive: bool, startDate: DateTime, endDate: Option<DateTime>)

  /** The rows of a list whose status is LOW_STOCK, in order. */
  function LowStockItems(items: seq<WarehouseItem>): (r: seq<WarehouseItem>)
    ensures |r| <= |items|
    ensures forall x :: x in r <==> x in items && x.status == LowStock
  {
    if items == [] then []
    else (if items[0].status == LowStock then [items[0]] else []) + LowStockItems(items[1..])
  }

  /** `reduce((acc, i) => acc + i.quantity * i.price!, 0)`: a missing price multiplies as 0. */
  function InventoryValue(items: seq<WarehouseItem>): (r: int)
    ensures (forall i :: 0 <= i < |items| ==> items[i].quantity >= 0 && items[i].price.GetOr(0) >= 0) ==> r >= 0
    ensures (forall i :: 0 <= i < |items| ==> items[i].quantity == 0 || items[i].price.None?) ==> r == 0
  {
    if items == [] then 0 else items[0].quantity * items[0].price.GetOr(0) + InventoryValue(items[1..])
  }

  /** How many orders have this status and an order date inside the window (`count`). */
  function CountOrders(orders: seq<OrderRecord>, status: string, start: DateTime, end: DateTime): (n: nat)
    ensures n <= |orders|
  {
    if orders == [] then 0
    else (if orders[0].status == status && Within(orders[0].orderDate, start, end) then 1 else 0)
         + CountOrders(orders[1..], status, start, end)
  }

  /** `_sum.totalAmount` of the DELIVERED orders in the window: null when there are none. */
  function SalesSum(orders: seq<OrderRecord>, start: DateTime, end: DateTime): (r: Option<int>)
    ensures r.None? <==> CountOrders(orders, "DELIVERED", start, end) == 0
  {
    if orders == [] then None
    else
      var rest := SalesSum(orders[1..], start, end);
      if orders[0].status == "DELIVERED" && Within(orders[0].orderDate, start, end)
      then Some(orders[0].totalAmount + rest.GetOr(0))
      else rest
  }

  /** `_sum.amount` of the active expenses dated inside the window: null when there are none. */
  function ExpenseSum(expenses: seq<ExpenseRecord>, start: DateTime, end: DateTime): (r: Option<int>)
    ensures r.None? <==> forall i :: 0 <= i < |expenses| ==> !(expenses[i].state && Within(expenses[i].date, start, end))
  {
    if expenses == [] then None
    else
      var rest := ExpenseSum(expenses[1..], start, end);
      if expenses[0].state && Within(expenses[0].date, start, end)
      then Some(expenses[0].amount + rest.GetOr(0))
      else rest
  }

  /** Discounts active during the window: started by its end and not ended before its start. */
  function CountDiscounts(discounts: seq<DiscountRecord>, start: DateTime, end: DateTime): (n: nat)
    ensures n <= |discounts|
  {
    if discounts == [] then 0
    else
      var d := discounts[0];
      (if d.isActive && NotAfter(d.startDate, end) && (d.endDate.None? || NotAfter(start, d.endDate.value)) then 1 else 0)
      + CountDiscounts(discounts[1..], start, end)
  }

  function CountActive(warehouseStatuses: seq<string>): (n: nat)
    ensures n <= |warehouseStatuses|
  {
    if warehouseStatuses == [] then 0
    else (if warehouseStatuses[0] == "ACTIVE" then 1 else 0) + CountActive(warehouseStatuses[1..])
  }

  datatype Overview = Overview(
    period: Period, year: int, startDate: DateTime, endDate: DateTime,
    totalUnits: int, totalInventoryValue: int,
    pendingOrders: nat, finishedOrders: nat, warehousesInUse: nat, discounts: nat, lowStock: nat,
    totalSales: int, expenses: int, netProfit: int)

  /** getOverview(period) with the clock reading `now` (its year and month) and the tables it counts. */
  function GetOverview(period: Period, now: DateTime, items: seq<WarehouseItem>, orders: seq<OrderRecord>,
                       warehouseStatuses: seq<string>, discounts: seq<DiscountRecord>,
                       expenses: seq<ExpenseRecord>): (o: Overview)
    requires 0 <= now.month < 12
    ensures NotAfter(o.startDate, o.endDate) && o.startDate.month <= now.month <= o.endDate.month
    ensures o.pendingOrders + o.finishedOrders <= |orders| && o.lowStock <= |items|
    ensures o.warehousesInUse <= |warehouseStatuses| && o.discounts <= |discounts|
  {
    var (start, end) := GetPeriodRange(period, now.year, now.month);
    PendingPlusFinished(orders, start, end);
    var sales := SalesSum(orders, start, end);
    var spent := ExpenseSum(expenses, start, end);
    Overview(period, now.year, start, end,
             TotalUnits(items), InventoryValue(items),
             CountOrders(orders, "PENDING", start, end), CountOrders(orders, "DELIVERED", start, end),
             CountActive(warehouseStatuses), CountDiscounts(discounts, start, end),
             |LowStockItems(items)|,
             sales.GetOr(0), spent.GetOr(0), sales.GetOr(0) - spent.GetOr(0))
  }

  /**
   * The overview's figures: low stock is 0 exactly when no item is LOW_STOCK; with no delivered
   * order in the window, sales are 0 and the net profit is minus the expenses; pending plus
   * finished orders never exceed the orders there are; and total units are non-negative when
   * every row is.
   */
  lemma OverviewFigures(period: Period, now: DateTime, items: seq<WarehouseItem>, orders: seq<OrderRecord>,
                        warehouseStatuses: seq<string>, discounts: seq<DiscountRecord>,
                        expenses: seq<ExpenseRecord>)
    requires 0 <= now.month < 12
    ensures var o := GetOverview(period, now, items, orders, warehouseStatuses, discounts, expenses);
      && o.lowStock <= |items|
      && (o.lowStock == 0 <==> forall i :: 0 <= i < |items| ==> items[i].status != LowStock)
      && (o.finishedOrders == 0 ==> o.totalSales == 0 && o.netProfit == -o.expenses)
      && o.pendingOrders + o.finishedOrders <= |orders|
      && (NoNegativeStock(items) ==> o.totalUnits >= 0)
  {
    var (start, end) := GetPeriodRange(period, now.year, now.month);
    PendingPlusFinished(orders, start, end);
    var low := LowStockItems(items);
    if low != [] {
      assert low[0] in low;
    }
    if NoNegativeStock(items) {
      TotalUnitsNonNegative(items);
    }
  }

  /** An order is counted as pending or as delivered, never both. */
  lemma {:induction false} PendingPlusFinished(orders: seq<OrderRecord>, start: DateTime, end: DateTime)
    ensures CountOrders(orders, "PENDING", start, end) + CountOrders(orders, "DELIVERED", start, end) <= |orders|
  {
    if orders != [] {
      PendingPlusFinished(orders[1..], start, end);
    }
  }

  // ---------------------------------------------------------------------------------------
  // Order amounts per category
  // ---------------------------------------------------------------------------------------

  const Uncategorised: string := "Sin categoría"

  datatype Product = Product(category: Option<string>)

  /** An order line with its order's status and date and its product, when the product exists. */
  datatype OrderLine = OrderLine(orderStatus: string, orderDate: DateTime, product: Option<Product>, totalPrice: int)

  /** `item.product?.category || 'Sin categoría'`: a missing product or an empty category counts as uncategorised. */
  function CategoryOf(line: OrderLine): (c: string)
    ensures c != ""
    ensures c == Uncategorised || (line.product.Some? && line.product.value.category == Some(c))
    ensures line.product.None? ==> c == Uncategorised
  {
    if line.product.Some? && line.product.value.category.Some? && line.product.value.category.value != ""
    then line.product.value.category.value
    else Uncategorised
  }

  /** The dictionary the loop builds, one line after another. */
  function Totals(lines: seq<OrderLine>): (m: map<string, int>)
    ensures "" !in m
  {
    if lines == [] then map[]
    else
      var m := Totals(lines[..|lines| - 1]);
      var line := lines[|lines| - 1];
      var c := CategoryOf(line);
      m[c := (if c in m then m[c] else 0) + line.totalPrice]
  }

  /** The sum of totalPrice over the lines of category c. */
  function SumOf(lines: seq<OrderLine>, c: string): int {
    if lines == [] then 0
    else SumOf(lines[..|lines| - 1], c)
         + (if CategoryOf(lines[|lines| - 1]) == c then lines[|lines| - 1].totalPrice else 0)
  }

  /**
   * The dictionary has one entry per category that occurs, and each entry is the sum of
   * totalPrice over that category's lines.
   */
  lemma TotalsPerCategory(lines: seq<OrderLine>)
    ensures forall c :: c in Totals(lines) <==> exists i :: 0 <= i < |lines| && CategoryOf(lines[i]) == c
    ensures forall c :: c in Totals(lines) ==> Totals(lines)[c] == SumOf(lines, c)
  {
    TotalsKeys(lines);
    TotalsValues(lines);
  }

  /** The dictionary's keys are the categories that occur. */
  lemma {:induction false} TotalsKeys(lines: seq<OrderLine>)
    ensures forall c :: c in Totals(lines) <==> exists i :: 0 <= i < |lines| && CategoryOf(lines[i]) == c
  {
    if lines != [] {
      var prefix := lines[..|lines| - 1];
      TotalsKeys(prefix);
      forall c ensures (c in Totals(lines) <==> exists i :: 0 <= i < |lines| && CategoryOf(lines[i]) == c) {
        if exists i :: 0 <= i < |prefix| && CategoryOf(prefix[i]) == c {
          var i :| 0 <= i < |prefix| && CategoryOf(prefix[i]) == c;
          assert lines[i] == prefix[i];
        }
        if exists i :: 0 <= i < |lines| && CategoryOf(lines[i]) == c {
          var i :| 0 <= i < |lines| && CategoryOf(lines[i]) == c;
          if i < |prefix| {
            assert prefix[i] == lines[i];
          }
        }
      }
    }
  }

  /** Each key's value is the sum of totalPrice over that category's lines. */
  lemma {:induction false} TotalsValues(lines: seq<OrderLine>)
    ensures forall c :: c in Totals(lines) ==> Totals(lines)[c] == SumOf(lines, c)
  {
    if lines != [] {
      var prefix := lines[..|lines| - 1];
      TotalsValues(prefix);
      TotalsKeys(prefix);
      forall c | c !in Totals(prefix) ensures SumOf(prefix, c) == 0 {
        SumOfAbsent(prefix, c);
      }
    }
  }

  /** A category no line has sums to 0. */
  lemma {:induction false} SumOfAbsent(lines: seq<OrderLine>, c: string)
    requires forall i :: 0 <= i < |lines| ==> CategoryOf(lines[i]) != c
    ensures SumOf(lines, c) == 0
  {
    if lines != [] {
      var prefix := lines[..|lines| - 1];
      assert forall i :: 0 <= i < |prefix| ==> prefix[i] == lines[i];
      SumOfAbsent(prefix, c);
    }
  }

  /** The order lines the query returns: DELIVERED orders dated from Jan 1 of the year up to now. */
  function Selected(lines: seq<OrderLine>, start: DateTime, now: DateTime): (r: seq<OrderLine>)
    ensures forall l :: l in r <==> l in lines && l.orderStatus == "DELIVERED" && Within(l.orderDate, start, now)
  {
    if lines == [] then []
    else
      (if lines[0].orderStatus == "DELIVERED" && Within(lines[0].orderDate, start, now) then [lines[0]] else [])
      + Selected(lines[1..], start, now)
  }

  /**
   * getOrderAmountsByCategory(year): `year || now.getFullYear()` picks the year, the query picks
   * the lines, and the loop adds each line's totalPrice to its category's entry.
   */
  method GetOrderAmountsByCategory(lines: seq<OrderLine>, year: int, now: DateTime)
    returns (result: map<string, int>)
    ensures var currentYear := if year != 0 then year else now.year;
      result == Totals(Selected(lines, DateTime(CalendarYear(currentYear), 0, 1, 0, 0, 0, 0), now))
  {
    var currentYear := if year != 0 then year else now.year;
    var start := DateTime(CalendarYear(currentYear), 0, 1, 0, 0, 0, 0);
    var orderItems := Selected(lines, start, now);
    result := AddUpByCategory(orderItems);
  }

  /** The loop of getOrderAmountsByCategory: each line's totalPrice added to its category's entry. */
  method AddUpByCategory(orderItems: seq<OrderLine>) returns (result: map<string, int>)
    ensures result == Totals(orderItems)
  {
    result := map[];
    var i := 0;
    while i < |orderItems|
      invariant 0 <= i <= |orderItems|
      invariant result == Totals(orderItems[..i])
    {
      var item := orderItems[i];
      var category := CategoryOf(item);
      assert orderItems[..i + 1][..i] == orderItems[..i];
      result := result[category := (if category in result then result[category] else 0) + item.totalPrice];
      i := i + 1;
    }
    assert orderItems[..i] == orderItems;
  }
}
