/** The screen builder: turns an order record into the pages the display
    cycles through. Four fixed entries (order name, total, item count,
    customer) and one entry per line item are grouped two at a time; each
    group becomes one screen, its entries joined by a line break. */
module ScreenBuilder {
  import opened TextFormat

  /** One line item of an order; the quantity is whatever integer the order
      record carries. */
  datatype LineItem = LineItem(name: string, quantity: int)

  /** The order record as delivered to the display. The total price is kept in
      the text form it is formatted with. */
  datatype Order = Order(
    name: string,
    totalPrice: string,
    currency: string,
    customerFirstName: string,
    lineItems: seq<LineItem>)

  /** Entries per screen. */
  const LinesPerScreen: nat := 2

  /** Sum of the quantities of `items`. */
  function TotalItems(items: seq<LineItem>): int
  {
    if items == [] then 0 else items[0].quantity + TotalItems(items[1..])
  }

  /** The total of a concatenation is the sum of the totals: the quantity of
      every item counts once, whatever the split. */
  lemma {:induction false} TotalItemsAppend(a: seq<LineItem>, b: seq<LineItem>)
    ensures TotalItems(a + b) == TotalItems(a) + TotalItems(b)
  {
    if a == [] {
      assert a + b == b;
    } else {
      assert (a + b)[0] == a[0];
      assert (a + b)[1..] == a[1..] + b;
      TotalItemsAppend(a[1..], b);
    }
  }

  /** With no negative quantity, the total is at least every single quantity. */
  lemma {:induction false} TotalItemsBounds(items: seq<LineItem>)
    requires forall i :: 0 <= i < |items| ==> items[i].quantity >= 0
    ensures TotalItems(items) >= 0
    ensures forall i :: 0 <= i < |items| ==> items[i].quantity <= TotalItems(items)
  {
    if items != [] {
      TotalItemsBounds(items[1..]);
      forall i | 1 <= i < |items| ensures items[i].quantity <= TotalItems(items) {
        assert items[i] == items[1..][i - 1];
      }
    }
  }

  function ProductEntry(item: LineItem): string
  {
    "Product:\n" + item.name
  }

  /** One product entry per line item, in input order. */
  function ProductEntries(items: seq<LineItem>): (e: seq<string>)
    ensures |e| == |items|
  {
    if items == [] then [] else [ProductEntry(items[0])] + ProductEntries(items[1..])
  }

  lemma {:induction false} ProductEntriesAt(items: seq<LineItem>)
    ensures forall i :: 0 <= i < |items| ==> ProductEntries(items)[i] == ProductEntry(items[i])
  {
    if items != [] {
      ProductEntriesAt(items[1..]);
      forall i | 0 <= i < |items| ensures ProductEntries(items)[i] == ProductEntry(items[i]) {
        if i > 0 {
          assert items[i] == items[1..][i - 1];
        }
      }
    }
  }

  /** The ungrouped entries of an order, in display order. */
  function Entries(order: Order): (e: seq<string>)
    ensures |e| == 4 + |order.lineItems|
  {
    [ "Order " + order.name,
      "Total: " + order.totalPrice + " " + order.currency,
      "Items: " + IntToDecimal(TotalItems(order.lineItems)),
      "Customer:\n" + order.customerFirstName ]
    + ProductEntries(order.lineItems)
  }

  /** The four fixed entries come first (the order's name, its total with the
      currency, the sum of all quantities, the customer's first name), then
      one product entry per line item, in input order. */
  lemma EntriesLayout(order: Order)
    ensures var e := Entries(order);
      && |e| == 4 + |order.lineItems|
      && e[0] == "Order " + order.name
      && e[1] == "Total: " + order.totalPrice + " " + order.currency
      && e[2] == "Items: " + IntToDecimal(TotalItems(order.lineItems))
      && e[3] == "Customer:\n" + order.customerFirstName
      && forall i :: 0 <= i < |order.lineItems| ==> e[4 + i] == ProductEntry(order.lineItems[i])
  {
    ProductEntriesAt(order.lineItems);
  }

  /** Groups of `n` consecutive elements; the last group holds what is left. */
  function Chunks<T>(e: seq<T>, n: nat): seq<seq<T>>
    requires n > 0
    decreases |e|
  {
    if |e| == 0 then []
    else if |e| <= n then [e]
    else [e[..n]] + Chunks(e[n..], n)
  }

  function Flatten<T>(groups: seq<seq<T>>): seq<T>
  {
    if groups == [] then [] else groups[0] + Flatten(groups[1..])
  }

  /** Grouping loses, adds and reorders nothing, and every group holds
      between 1 and `n` elements. */
  lemma {:induction false} ChunksFlatten<T>(e: seq<T>, n: nat)
    requires n > 0
    ensures Flatten(Chunks(e, n)) == e
    ensures forall k :: 0 <= k < |Chunks(e, n)| ==> 0 < |Chunks(e, n)[k]| <= n
    decreases |e|
  {
    if |e| > n {
      var c := Chunks(e, n);
      assert c[1..] == Chunks(e[n..], n);
      ChunksFlatten(e[n..], n);
      assert e[..n] + e[n..] == e;
      forall k | 1 <= k < |c| ensures 0 < |c[k]| <= n {
        assert c[k] == Chunks(e[n..], n)[k - 1];
      }
    }
  }

  /** There are ceil(|e| / n) groups: just enough groups of `n` to hold `e`. */
  lemma {:induction false} ChunksCount<T>(e: seq<T>, n: nat)
    requires n > 0
    ensures |e| <= n * |Chunks(e, n)| < |e| + n
    decreases |e|
  {
    if |e| > n {
      var c := Chunks(e, n);
      ChunksCount(e[n..], n);
      assert |c| == 1 + |Chunks(e[n..], n)|;
      assert n * |c| == n + n * |Chunks(e[n..], n)|;
    }
  }

  /** Group `k` is the slice of `e` from `k*n` up to `k*n + n` or the end. */
  lemma {:induction false} ChunkAt<T>(e: seq<T>, n: nat, k: nat)
    requires n > 0
    requires k < |Chunks(e, n)|
    ensures k * n < |e|
    ensures Chunks(e, n)[k] == e[k * n .. if k * n + n <= |e| then k * n + n else |e|]
    decreases |e|
  {
    if |e| > n && k > 0 {
      var c := Chunks(e, n);
      assert c[k] == Chunks(e[n..], n)[k - 1];
      ChunkAt(e[n..], n, k - 1);
      assert (k - 1) * n + n == k * n;
    }
  }

  /** Appending one group's worth to a whole number of groups appends one
      group. */
  lemma {:induction false} ChunksAppend<T>(p: seq<T>, q: seq<T>, n: nat, groups: nat)
    requires n > 0
    requires |p| == groups * n
    requires 0 < |q| <= n
    ensures Chunks(p + q, n) == Chunks(p, n) + [q]
    decreases groups
  {
    if groups == 0 {
      assert p + q == q;
    } else {
      assert |p| >= n;
      var pq := p + q;
      assert pq[..n] == p[..n];
      assert pq[n..] == p[n..] + q;
      ChunksAppend(p[n..], q, n, groups - 1);
      if |p| == n {
        assert p[n..] == [];
        assert Chunks(p, n) == [p];
        assert p[..n] == p;
      }
    }
  }

  /** One screen per group, its entries joined by a line break. */
  function JoinEach(groups: seq<seq<string>>): seq<string>
  {
    seq(|groups|, k requires 0 <= k < |groups| => JoinLines(groups[k]))
  }

  function Paginate(entries: seq<string>, n: nat): seq<string>
    requires n > 0
  {
    JoinEach(Chunks(entries, n))
  }

  /** The screens the display shows for `order`. */
  function OrderScreens(order: Order): seq<string>
  {
    Paginate(Entries(order), LinesPerScreen)
  }

  /** With two entries per screen, screen `k` is entry `2k`, followed by a
      line break and entry `2k + 1` when there is one. */
  lemma PairScreenAt(e: seq<string>, k: nat)
    requires k < |Paginate(e, 2)|
    ensures 2 * k < |e|
    ensures Paginate(e, 2)[k] == if 2 * k + 1 < |e| then e[2 * k] + "\n" + e[2 * k + 1] else e[2 * k]
  {
    ChunkAt(e, 2, k);
    var g := Chunks(e, 2)[k];
    assert Paginate(e, 2)[k] == JoinLines(g);
    if 2 * k + 1 < |e| {
      assert g == [e[2 * k], e[2 * k + 1]];
      assert g[1..] == [e[2 * k + 1]];
      assert JoinLines(g) == g[0] + "\n" + JoinLines(g[1..]);
    } else {
      assert g == [e[2 * k]];
    }
  }

  /** Pages of two: there are ceil(|e| / 2) screens, screen `k` pairing
      entries `2k` and `2k + 1`. */
  lemma PairScreens(e: seq<string>)
    ensures |Paginate(e, 2)| == (|e| + 1) / 2
    ensures forall k :: 0 <= k < |Paginate(e, 2)| ==>
      Paginate(e, 2)[k] == if 2 * k + 1 < |e| then e[2 * k] + "\n" + e[2 * k + 1] else e[2 * k]
  {
    ChunksCount(e, 2);
    forall k | 0 <= k < |Paginate(e, 2)|
      ensures Paginate(e, 2)[k] == if 2 * k + 1 < |e| then e[2 * k] + "\n" + e[2 * k + 1] else e[2 * k]
    {
      PairScreenAt(e, k);
    }
  }

  /** An order with `L` line items has ceil((4 + L) / 2) screens. */
  lemma ScreenCount(order: Order)
    ensures |OrderScreens(order)| == (|order.lineItems| + 5) / 2
  {
    ChunksCount(Entries(order), LinesPerScreen);
  }

  /** The screens of an order: ceil((4 + L) / 2) of them for `L` line items,
      so never fewer than two and exactly two for an order without items;
      screen `k` pairs entries `2k` and `2k + 1`. */
  lemma ScreenLayout(order: Order)
    ensures var e, s := Entries(order), OrderScreens(order);
      && |s| == (|order.lineItems| + 5) / 2
      && |s| >= 2
      && (order.lineItems == [] ==> |s| == 2)
      && forall k :: 0 <= k < |s| ==>
           s[k] == if 2 * k + 1 < |e| then e[2 * k] + "\n" + e[2 * k + 1] else e[2 * k]
  {
    EntriesLayout(order);
    PairScreens(Entries(order));
  }

  /** An order "#1001" of 42.50 USD for Alice with two widgets has five
      entries ... */
  lemma ExampleOrderEntries()
    ensures Entries(Order("#1001", "42.50", "USD", "Alice", [LineItem("Widget", 2)])) ==
      ["Order #1001", "Total: 42.50 USD", "Items: 2", "Customer:\nAlice", "Product:\nWidget"]
  {
    var items := [LineItem("Widget", 2)];
    var order := Order("#1001", "42.50", "USD", "Alice", items);
    assert items[1..] == [];
    assert TotalItems(items) == 2;
    assert IntToDecimal(2) == "2";
    EntriesLayout(order);
    var e := Entries(order);
    assert e[0] == "Order #1001";
    assert e[1] == "Total: 42.50 USD";
    assert e[2] == "Items: 2";
    assert e[3] == "Customer:\nAlice";
    assert e[4] == "Product:\nWidget";
    assert e == [e[0], e[1], e[2], e[3], e[4]];
  }

  /** Five entries make three screens: two pairs and the last entry alone. */
  lemma FivePages(a: string, b: string, c: string, d: string, f: string)
    ensures Paginate([a, b, c, d, f], 2) == [a + "\n" + b, c + "\n" + d, f]
  {
    var e := [a, b, c, d, f];
    ChunksCount(e, 2);
    PairScreenAt(e, 0);
    PairScreenAt(e, 1);
    PairScreenAt(e, 2);
  }

  /** ... and shows them on three screens: name and total, item count and
      customer, then the product. */
  lemma ExampleOrderScreens()
    ensures OrderScreens(Order("#1001", "42.50", "USD", "Alice", [LineItem("Widget", 2)])) ==
      ["Order #1001\nTotal: 42.50 USD", "Items: 2\nCustomer:\nAlice", "Product:\nWidget"]
  {
    ExampleOrderEntries();
    FivePages("Order #1001", "Total: 42.50 USD", "Items: 2", "Customer:\nAlice", "Product:\nWidget");
    assert "Order #1001" + "\n" + "Total: 42.50 USD" == "Order #1001\nTotal: 42.50 USD";
    assert "Items: 2" + "\n" + "Customer:\nAlice" == "Items: 2\nCustomer:\nAlice";
  }

  /** Flushing a full or leftover buffer after a whole number of screens adds
      exactly the buffer's screen. */
  lemma PaginateFlush(done: seq<string>, temp: seq<string>, screens: nat)
    requires |done| == LinesPerScreen * screens
    requires 0 < |temp| <= LinesPerScreen
    ensures Paginate(done + temp, LinesPerScreen) == Paginate(done, LinesPerScreen) + [JoinLines(temp)]
  {
    ChunksAppend(done, temp, LinesPerScreen, screens);
    JoinEachAppend(Chunks(done, LinesPerScreen), temp);
  }

  lemma JoinEachAppend(groups: seq<seq<string>>, last: seq<string>)
    ensures JoinEach(groups + [last]) == JoinEach(groups) + [JoinLines(last)]
  {
    var l, r := JoinEach(groups + [last]), JoinEach(groups) + [JoinLines(last)];
    assert |l| == |r|;
    forall k | 0 <= k < |l| ensures l[k] == r[k] {
      if k < |groups| {
        assert (groups + [last])[k] == groups[k];
      } else {
        assert (groups + [last])[k] == last;
      }
    }
  }

  /** The grouping loop of the screen builder: entries are collected in a
      buffer that is flushed as one screen whenever it holds two, and a
      leftover entry becomes the last screen. */
  method GroupEntries(entries: seq<string>) returns (screens: seq<string>)
    ensures screens == Paginate(entries, LinesPerScreen)
    ensures |screens| == (|entries| + 1) / 2
  {
    screens := [];
    var temp: seq<string> := [];
    for i := 0 to |entries|
      invariant |temp| < LinesPerScreen
      invariant i - |temp| == LinesPerScreen * |screens|
      invariant temp == entries[i - |temp| .. i]
      invariant screens == Paginate(entries[..i - |temp|], LinesPerScreen)
    {
      temp := temp + [entries[i]];
      if |temp| == LinesPerScreen {
        var done := entries[..i + 1 - |temp|];
        assert entries[..i + 1] == done + temp;
        PaginateFlush(done, temp, |screens|);
        screens := screens + [JoinLines(temp)];
        temp := [];
      }
    }
    if temp != [] {
      var done := entries[..|entries| - |temp|];
      assert entries == done + temp;
      PaginateFlush(done, temp, |screens|);
      screens := screens + [JoinLines(temp)];
    } else {
      assert entries[..|entries|] == entries;
    }
  }

  /** Builds the screens for `order`: its entries, grouped two to a screen. */
  method CreateOrderScreens(order: Order) returns (screens: seq<string>)
    ensures screens == OrderScreens(order)
    ensures |screens| == (|order.lineItems| + 5) / 2
  {
    var entries := Entries(order);
    screens := GroupEntries(entries);
  }
}
