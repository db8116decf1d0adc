/**
 * `insert_rows`: the parameterised INSERT statement for a table and the
 * number of rows it reports as inserted.
 */
module Statements {
  import opened Wrappers
  import opened Strings
  import opened Schema

  /** One `?` parameter marker per column. */
  function Placeholders(n: nat): seq<string>
  {
    seq(n, _ => "?")
  }

  /** `", ".join(columns)`. */
  function ColumnList(columns: seq<string>): string
  {
    Join(columns, ", ")
  }

  /** `", ".join("?" for _ in columns)`. */
  function PlaceholderList(columns: seq<string>): string
  {
    Join(Placeholders(|columns|), ", ")
  }

  /** `f"INSERT INTO {table} ({column_list}) VALUES ({placeholders})"`. */
  function Statement(table: string, columns: seq<string>): string
  {
    "INSERT INTO " + table + " (" + ColumnList(columns) + ") VALUES (" + PlaceholderList(columns) + ")"
  }

  /** The statement `insert_rows` builds for table `t` from its declared columns. */
  function InsertQuery(t: TableName): string
  {
    Statement(Name(t), Columns(t))
  }

  lemma {:induction false} JoinAvoids(c: char, xs: seq<string>, sep: string)
    requires c !in sep
    requires forall k | 0 <= k < |xs| :: c !in xs[k]
    ensures c !in Join(xs, sep)
  {
    if |xs| > 1 {
      JoinAvoids(c, xs[1..], sep);
    }
  }

  /** A lower-case identifier: letters and underscores only. */
  predicate PlainName(s: string)
  {
    forall i | 0 <= i < |s| :: 'a' <= s[i] <= 'z' || s[i] == '_'
  }

  predicate PlainNames(names: seq<string>)
  {
    forall k | 0 <= k < |names| :: PlainName(names[k])
  }

  lemma CustomersColumnsArePlain()
    ensures PlainNames(Columns(Customers))
  {
    assert Columns(Customers) ==
        ["customer_id", "name", "email", "city", "state", "signup_date", "loyalty_tier"];
    assert PlainName("customer_id");
    assert PlainName("name");
    assert PlainName("email");
    assert PlainName("city");
    assert PlainName("state");
    assert PlainName("signup_date");
    assert PlainName("loyalty_tier");
  }

  lemma ProductsColumnsArePlain()
    ensures PlainNames(Columns(Products))
  {
    assert Columns(Products) ==
        ["product_id", "product_name", "category", "price", "cost", "currency", "stock_status"];
    assert PlainName("product_id");
    assert PlainName("product_name");
    assert PlainName("category");
    assert PlainName("price");
    assert PlainName("cost");
    assert PlainName("currency");
    assert PlainName("stock_status");
  }

  lemma OrdersColumnsArePlain()
    ensures PlainNames(Columns(Orders))
  {
    assert Columns(Orders) ==
        ["order_id", "customer_id", "order_date", "order_status", "payment_method",
         "order_total", "ship_city", "ship_state"];
    assert PlainName("order_id");
    assert PlainName("customer_id");
    assert PlainName("order_date");
    assert PlainName("order_status");
    assert PlainName("payment_method");
    assert PlainName("order_total");
    assert PlainName("ship_city");
    assert PlainName("ship_state");
  }

  lemma OrderItemsColumnsArePlain()
    ensures PlainNames(Columns(OrderItems))
  {
    assert Columns(OrderItems) ==
        ["order_id", "product_id", "quantity", "item_price", "item_discount"];
    assert PlainName("order_id");
    assert PlainName("product_id");
    assert PlainName("quantity");
    assert PlainName("item_price");
    assert PlainName("item_discount");
  }

  lemma ReviewsColumnsArePlain()
    ensures PlainNames(Columns(Reviews))
  {
    assert Columns(Reviews) ==
        ["review_id", "order_id", "customer_id", "product_id", "rating", "review_text",
         "review_date"];
    assert PlainName("review_id");
    assert PlainName("order_id");
    assert PlainName("customer_id");
    assert PlainName("product_id");
    assert PlainName("rating");
    assert PlainName("review_text");
    assert PlainName("review_date");
  }

  /** Every column name of every table is a plain identifier. */
  lemma ColumnNamesArePlain(t: TableName)
    ensures PlainNames(Columns(t))
  {
    match t
    case Customers => CustomersColumnsArePlain();
    case Products => ProductsColumnsArePlain();
    case Orders => OrdersColumnsArePlain();
    case OrderItems => OrderItemsColumnsArePlain();
    case Reviews => ReviewsColumnsArePlain();
  }

  /** A plain identifier holds neither a comma nor a parameter marker. */
  lemma PlainNameAvoids(s: string)
    requires PlainName(s)
    ensures ',' !in s && '?' !in s
  {
  }

  /** The marker list holds one `?` per column, and splitting it gives the markers back. */
  lemma PlaceholderListMarkers(columns: seq<string>)
    requires |columns| > 0
    ensures SplitList(PlaceholderList(columns)) == Placeholders(|columns|)
    ensures Count('?', PlaceholderList(columns)) == |columns|
  {
    var n := |columns|;
    forall k | 0 <= k < n ensures ',' !in Placeholders(n)[k] && Count('?', Placeholders(n)[k]) == 1 {
      assert Placeholders(n)[k] == "?";
    }
    SplitJoin(Placeholders(n));
    CountJoin('?', Placeholders(n), ", ");
  }

  /** The fixed text of the statement and a marker-free table name and column list add no marker. */
  lemma StatementMarkers(table: string, columnList: string, placeholders: string)
    requires '?' !in table && '?' !in columnList
    ensures Count('?', "INSERT INTO " + table + " (" + columnList + ") VALUES (" + placeholders + ")")
            == Count('?', placeholders)
  {
    var head := "INSERT INTO " + table + " (";
    var mid := ") VALUES (";
    CountAbsent('?', head);
    CountAbsent('?', columnList);
    CountAbsent('?', mid);
    CountAbsent('?', ")");
    CountAppend('?', head, columnList);
    CountAppend('?', head + columnList, mid);
    CountAppend('?', head + columnList + mid, placeholders);
    CountAppend('?', head + columnList + mid + placeholders, ")");
  }

  /**
   * For a table and a non-empty list of columns named by plain identifiers,
   * the statement lists the columns in the given order (splitting its column
   * list at `", "` gives them back) and carries exactly one `?` marker per
   * column, in a list of the same length.
   */
  lemma StatementMatchesColumns(table: string, columns: seq<string>)
    requires PlainName(table) && PlainNames(columns) && |columns| > 0
    ensures SplitList(ColumnList(columns)) == columns
    ensures SplitList(PlaceholderList(columns)) == Placeholders(|columns|)
    ensures Count('?', PlaceholderList(columns)) == |columns|
    ensures Count('?', Statement(table, columns)) == |columns|
  {
    forall k | 0 <= k < |columns| ensures ',' !in columns[k] && '?' !in columns[k] {
      PlainNameAvoids(columns[k]);
    }
    SplitJoin(columns);
    PlaceholderListMarkers(columns);
    JoinAvoids('?', columns, ", ");
    PlainNameAvoids(table);
    StatementMarkers(table, ColumnList(columns), PlaceholderList(columns));
  }

  lemma TableNameIsPlain(t: TableName)
    ensures PlainName(Name(t))
  {
  }

  /** The statement for each of the five tables names its declared columns, with one marker each. */
  lemma InsertQueryMatchesColumns(t: TableName)
    ensures SplitList(ColumnList(Columns(t))) == Columns(t)
    ensures Count('?', InsertQuery(t)) == |Columns(t)|
  {
    ColumnNamesArePlain(t);
    TableNameIsPlain(t);
    StatementMatchesColumns(Name(t), Columns(t));
  }

  /** What `insert_rows` does: the statement it executes, if any, and the count it returns. */
  datatype Insert = Insert(query: Option<string>, count: nat)

  /**
   * `insert_rows(conn, t, rows)`: an empty row list issues no statement and
   * reports 0; otherwise one statement with a marker per column is executed
   * for all rows and their number is reported.
   */
  function InsertRows(t: TableName, rows: seq<Row>): (r: Insert)
    ensures r.count == |rows|
    ensures r.query.None? <==> rows == []
    ensures r.query.Some? ==> Count('?', r.query.value) == |Columns(t)|
  {
    if rows == [] then Insert(None, 0)
    else
      InsertQueryMatchesColumns(t);
      Insert(Some(InsertQuery(t)), |rows|)
  }
}
