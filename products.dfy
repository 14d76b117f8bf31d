/** The product catalogue helpers over the `items` table. A query result is the sequence of
    rows the driver returns; the helpers scan or filter it in memory and, for the property
    edits, issue one UPDATE whose parameters are returned here. A properties map that
    Cassandra returns as `None` is the empty map: both are falsy and neither holds a key. */
module Products {
  import opened Wrappers
  import opened Uuids
  import opened Rows

  /** A row of `items`. Prices are whole numbers in this model. */
  datatype Product = Product(
    category: string, id: Uuid, name: string, price: int, manufacturer: string,
    properties: map<string, string>)

  /** `UPDATE items SET properties = %s WHERE category = %s AND price = %s AND id = %s`
      with its four parameters. */
  datatype PropertiesUpdate = PropertiesUpdate(
    properties: map<string, string>, category: string, price: int, id: Uuid)

  /** The properties map after `current_properties[name] = value`. */
  function WithProperty(props: map<string, string>, name: string, value: string): (r: map<string, string>)
    ensures name in r && r[name] == value
    ensures forall k :: k != name ==> (k in r <==> k in props)
    ensures forall k | k != name && k in props :: r[k] == props[k]
  {
    props[name := value]
  }

  /** The properties map after `del current_properties[name]`. */
  function WithoutProperty(props: map<string, string>, name: string): (r: map<string, string>)
    requires name in props
    ensures name !in r && |r| == |props| - 1
    ensures forall k :: k != name ==> (k in r <==> k in props)
    ensures forall k | k in r :: r[k] == props[k]
  {
    props - {name}
  }

  /** The two edits undo each other: removing a property just added to a map without it gives
      the map back, and adding back a removed value gives the map back. */
  lemma PropertyEditsInverse(props: map<string, string>, name: string, value: string)
    ensures name !in props ==> WithoutProperty(WithProperty(props, name, value), name) == props
    ensures name in props ==> WithProperty(WithoutProperty(props, name), name, props[name]) == props
  {
  }

  /** `get_product_by_id`: the first row of the category with the given id, if any. */
  method GetProductById(rows: seq<Product>, productId: Uuid) returns (r: Option<Product>)
    ensures r.None? <==> forall i | 0 <= i < |rows| :: rows[i].id != productId
    ensures r.Some? ==> exists k | 0 <= k < |rows| ::
      rows[k] == r.value && r.value.id == productId && forall j | 0 <= j < k :: rows[j].id != productId
  {
    r := FindFirst(rows, (p: Product) => p.id == productId);
  }

  /** `get_products_by_property_exists`: the rows whose properties map holds the key. */
  function ByPropertyExists(rows: seq<Product>, name: string): (r: seq<Product>)
    ensures forall i | 0 <= i < |r| :: name in r[i].properties
  {
    Filter(rows, (p: Product) => name in p.properties)
  }

  /** `get_products_by_property_value`: the rows whose property `name` equals `value`. */
  function ByPropertyValue(rows: seq<Product>, name: string, value: string): (r: seq<Product>)
    ensures forall i | 0 <= i < |r| :: name in r[i].properties && r[i].properties[name] == value
  {
    Filter(rows, (p: Product) => name in p.properties && p.properties[name] == value)
  }

  /** A row is kept by `ByPropertyExists` exactly when it is a row of the result holding the key. */
  lemma ByPropertyExistsMembers(rows: seq<Product>, name: string, p: Product)
    ensures p in ByPropertyExists(rows, name) <==> p in rows && name in p.properties
  {
    FilterMembers(rows, (p: Product) => name in p.properties, p);
  }

  /** A row is kept by `ByPropertyValue` exactly when it is a row whose property has that value. */
  lemma ByPropertyValueMembers(rows: seq<Product>, name: string, value: string, p: Product)
    ensures p in ByPropertyValue(rows, name, value) <==>
      p in rows && name in p.properties && p.properties[name] == value
  {
    FilterMembers(rows, (p: Product) => name in p.properties && p.properties[name] == value, p);
  }

  /** Both filters keep the order of the rows: the value filter is the key filter, then the
      value test on what it kept. */
  lemma ByPropertyValueRefines(rows: seq<Product>, name: string, value: string)
    ensures ByPropertyValue(rows, name, value) ==
      Filter(ByPropertyExists(rows, name), (p: Product) => name in p.properties ==> p.properties[name] == value)
  {
    var has := (p: Product) => name in p.properties;
    var equal := (p: Product) => name in p.properties ==> p.properties[name] == value;
    var both := (p: Product) => name in p.properties && p.properties[name] == value;
    assert forall p :: both(p) == (has(p) && equal(p));
    FilterFilter(rows, has, equal, both);
  }

  /** `add_product_property`: `False` with no statement when the product is missing;
      otherwise the UPDATE for that product's key carries its map with `name = value`. */
  method AddProperty(rows: seq<Product>, category: string, productId: Uuid, name: string, value: string)
    returns (ok: bool, update: Option<PropertiesUpdate>)
    ensures ok <==> exists i | 0 <= i < |rows| :: rows[i].id == productId
    ensures ok <==> update.Some?
    ensures ok ==> exists k | 0 <= k < |rows| :: (rows[k].id == productId
      && (forall j | 0 <= j < k :: rows[j].id != productId)
      && update.value == PropertiesUpdate(WithProperty(rows[k].properties, name, value), category, rows[k].price, productId))
  {
    var product := GetProductById(rows, productId);
    if product.None? {
      return false, None;
    }
    var current := product.value.properties;
    current := current[name := value];
    return true, Some(PropertiesUpdate(current, category, product.value.price, productId));
  }

  /** `remove_product_property`: `False` with no statement when the product is missing, holds
      no properties, or lacks the key; otherwise the UPDATE carries its map without `name`. */
  method RemoveProperty(rows: seq<Product>, category: string, productId: Uuid, name: string)
    returns (ok: bool, update: Option<PropertiesUpdate>)
    ensures ok <==> update.Some?
    ensures ok <==> exists k | 0 <= k < |rows| :: (rows[k].id == productId
      && (forall j | 0 <= j < k :: rows[j].id != productId)
      && name in rows[k].properties)
    ensures ok ==> exists k | 0 <= k < |rows| :: (rows[k].id == productId
      && (forall j | 0 <= j < k :: rows[j].id != productId)
      && name in rows[k].properties
      && update.value == PropertiesUpdate(WithoutProperty(rows[k].properties, name), category, rows[k].price, productId))
  {
    var product := GetProductById(rows, productId);
    if product.None? || product.value.properties == map[] {
      return false, None;
    }
    var current := product.value.properties;
    if name in current {
      current := current - {name};
      return true, Some(PropertiesUpdate(current, category, product.value.price, productId));
    }
    return false, None;
  }

  /** `update_product_properties`: `False` with no statement when the product is missing;
      otherwise the UPDATE replaces its whole map by `properties`. */
  method UpdateProperties(rows: seq<Product>, category: string, productId: Uuid, properties: map<string, string>)
    returns (ok: bool, update: Option<PropertiesUpdate>)
    ensures ok <==> exists i | 0 <= i < |rows| :: rows[i].id == productId
    ensures ok <==> update.Some?
    ensures ok ==> exists k | 0 <= k < |rows| :: (rows[k].id == productId
      && (forall j | 0 <= j < k :: rows[j].id != productId)
      && update.value == PropertiesUpdate(properties, category, rows[k].price, productId))
  {
    var product := GetProductById(rows, productId);
    if product.None? {
      return false, None;
    }
    return true, Some(PropertiesUpdate(properties, category, product.value.price, productId));
  }

  /** `product_exists`: `False` when the category's row count is zero; otherwise whether
      some row of the category has the name. */
  method ProductExists(count: int, rows: seq<Product>, name: string) returns (r: bool)
    ensures count == 0 ==> !r
    ensures count != 0 ==> (r <==> exists i | 0 <= i < |rows| :: rows[i].name == name)
  {
    if count == 0 {
      return false;
    }
    for i := 0 to |rows|
      invariant forall j | 0 <= j < i :: rows[j].name != name
    {
      if rows[i].name == name {
        return true;
      }
    }
    return false;
  }
}
