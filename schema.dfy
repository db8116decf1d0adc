/**
 * The schema registry of the loader: the five tables, their declared column
 * lists and coercion rules (`TABLE_CONFIGS`), the constraints their
 * `CREATE TABLE` statements declare (`SCHEMAS`), and the dependency order
 * they are loaded in (`LOAD_SEQUENCE`).
 */
module Schema {

  datatype TableName = Customers | Products | Orders | OrderItems | Reviews

  /** The SQL name of each table. */
  function Name(t: TableName): string
  {
    match t
    case Customers => "customers"
    case Products => "products"
    case Orders => "orders"
    case OrderItems => "order_items"
    case Reviews => "reviews"
  }

  const AllTables: set<TableName> := {Customers, Products, Orders, OrderItems, Reviews}

  /** `LOAD_SEQUENCE`: tables are created and loaded in this order and cleared in reverse. */
  const LoadSequence: seq<TableName> := [Customers, Products, Orders, OrderItems, Reviews]

  /** Where `t` stands in the load sequence. */
  function Position(t: TableName): (k: nat)
    ensures k < |LoadSequence| && LoadSequence[k] == t
  {
    match t
    case Customers => 0
    case Products => 1
    case Orders => 2
    case OrderItems => 3
    case Reviews => 4
  }

  /** The `k`-th table of the load sequence stands at position `k`. */
  lemma PositionInLoadSequence(k: nat)
    requires k < |LoadSequence|
    ensures Position(LoadSequence[k]) == k
  {
  }

  /** Every table appears in the load sequence exactly once. */
  lemma LoadSequenceListsEachTableOnce()
    ensures forall t :: t in LoadSequence
    ensures forall i, j | 0 <= i < j < |LoadSequence| :: LoadSequence[i] != LoadSequence[j]
    ensures forall k | 0 <= k < |LoadSequence| :: Position(LoadSequence[k]) == k
  {
    forall t ensures t in LoadSequence { assert LoadSequence[Position(t)] == t; }
  }

  /** A stored value: SQL NULL, TEXT, INTEGER or REAL. */
  datatype Value = Null | Text(text: string) | Integer(integer: int) | Decimal(decimal: real)

  type Row = seq<Value>

  /** How a non-empty field of a column is coerced. */
  datatype Kind = TextKind | IntegerKind | DecimalKind

  /** One entry of `TABLE_CONFIGS`. */
  datatype TableConfig = TableConfig(
    file: string,
    columns: seq<string>,
    floatFields: set<string>,
    intFields: set<string>)

  /** The kind of a column: the float list is consulted before the int list. */
  function KindOf(config: TableConfig, column: string): Kind
  {
    if column in config.floatFields then DecimalKind
    else if column in config.intFields then IntegerKind
    else TextKind
  }

  function Config(t: TableName): TableConfig
  {
    match t
    case Customers =>
      TableConfig("customers.csv",
        ["customer_id", "name", "email", "city", "state", "signup_date", "loyalty_tier"],
        {}, {})
    case Products =>
      TableConfig("products.csv",
        ["product_id", "product_name", "category", "price", "cost", "currency", "stock_status"],
        {"price", "cost"}, {})
    case Orders =>
      TableConfig("orders.csv",
        ["order_id", "customer_id", "order_date", "order_status", "payment_method",
         "order_total", "ship_city", "ship_state"],
        {"order_total"}, {})
    case OrderItems =>
      TableConfig("order_items.csv",
        ["order_id", "product_id", "quantity", "item_price", "item_discount"],
        {"item_price", "item_discount"}, {"quantity"})
    case Reviews =>
      TableConfig("reviews.csv",
        ["review_id", "order_id", "customer_id", "product_id", "rating", "review_text",
         "review_date"],
        {}, {"rating"})
  }

  /** Each table's float and int fields are declared columns, and no column is listed as both. */
  lemma CoercedFieldsAreColumns(t: TableName)
    ensures forall c | c in Config(t).floatFields :: c in Config(t).columns
    ensures forall c | c in Config(t).intFields :: c in Config(t).columns
    ensures Config(t).floatFields * Config(t).intFields == {}
  {
  }

  function Columns(t: TableName): seq<string>
  {
    Config(t).columns
  }

  /** `FOREIGN KEY (columns[column]) REFERENCES parent(columns[parentColumn])`. */
  datatype ForeignKey = ForeignKey(column: nat, parent: TableName, parentColumn: nat)

  /**
   * The constraints of one `CREATE TABLE` statement, by column position:
   * the NOT NULL columns, the PRIMARY KEY columns and the foreign keys.
   */
  datatype Constraints = Constraints(
    notNull: set<nat>,
    primaryKey: seq<nat>,
    foreignKeys: seq<ForeignKey>)

  function TableConstraints(t: TableName): Constraints
  {
    match t
    // customer_id PRIMARY KEY; name, email NOT NULL
    case Customers => Constraints({1, 2}, [0], [])
    // product_id PRIMARY KEY; product_name NOT NULL
    case Products => Constraints({1}, [0], [])
    // order_id PRIMARY KEY; customer_id NOT NULL REFERENCES customers
    case Orders => Constraints({1}, [0], [ForeignKey(1, Customers, 0)])
    // PRIMARY KEY (order_id, product_id), both NOT NULL, referencing orders and products
    case OrderItems =>
      Constraints({0, 1}, [0, 1], [ForeignKey(0, Orders, 0), ForeignKey(1, Products, 0)])
    // review_id PRIMARY KEY; order_id, customer_id, product_id NOT NULL and referencing
    case Reviews =>
      Constraints({1, 2, 3}, [0],
        [ForeignKey(1, Orders, 0), ForeignKey(2, Customers, 0), ForeignKey(3, Products, 0)])
  }

  function ForeignKeys(t: TableName): seq<ForeignKey>
  {
    TableConstraints(t).foreignKeys
  }

  /** `child` declares a foreign key into `parent`. */
  predicate References(child: TableName, parent: TableName)
  {
    exists k | 0 <= k < |ForeignKeys(child)| :: ForeignKeys(child)[k].parent == parent
  }

  /** `LOAD_SEQUENCE` is a topological order: every referenced table comes before each table referencing it. */
  lemma LoadSequenceIsTopological(child: TableName, parent: TableName)
    requires References(child, parent)
    ensures Position(parent) < Position(child)
  {
  }

  /** No table references itself, so inserting into a table never changes what its own rows refer to. */
  lemma NoSelfReference(t: TableName)
    ensures !References(t, t)
  {
    if References(t, t) { LoadSequenceIsTopological(t, t); }
  }

  /**
   * The declared constraints name real columns: every constrained position is
   * within the column list, each foreign key column has the same name as the
   * parent column it references, and that parent column is the parent's primary key.
   */
  lemma ConstraintsNameColumns(t: TableName)
    ensures forall c | c in TableConstraints(t).notNull :: c < |Columns(t)|
    ensures forall k | 0 <= k < |TableConstraints(t).primaryKey| ::
              TableConstraints(t).primaryKey[k] < |Columns(t)|
    ensures forall k | 0 <= k < |ForeignKeys(t)| ::
              var fk := ForeignKeys(t)[k];
              && fk.column < |Columns(t)|
              && fk.parentColumn < |Columns(fk.parent)|
              && Columns(t)[fk.column] == Columns(fk.parent)[fk.parentColumn]
              && TableConstraints(fk.parent).primaryKey == [fk.parentColumn]
  {
  }
}
