/**
 * The product repository over an in-memory table from id to product. The
 * database session becomes the `products` map and the id counter; the
 * uniqueness check, whose body is not part of this model, is a predicate
 * the repository is built with. A rejected check raises, so nothing is
 * committed by the call that made it.
 */
module Repository {
  import opened Wrappers

  datatype Producto = Producto(id: int, nombre: string, sku: string, descripcion: Option<string>, stock: int, stockMinimo: int)

  datatype ProductoCreate = ProductoCreate(nombre: string, sku: string, descripcion: Option<string>,
                                           stock: Option<int>, stockMinimo: Option<int>)

  datatype ProductoUpdate = ProductoUpdate(nombre: Option<string>, sku: Option<string>, descripcion: Option<string>,
                                           stock: Option<int>, stockMinimo: Option<int>)

  /** `check_unicidad_producto(db, nombre, sku)`: true when it lets the call through. */
  type UniquenessGuard = (map<int, Producto>, Option<string>, Option<string>) -> bool

  /** `x or 0` for an optional integer: None and 0 both give 0. */
  function OrZero(x: Option<int>): (r: int)
    ensures x.None? ==> r == 0
    ensures x.Some? ==> r == x.value
  {
    if x.Some? then x.value else 0
  }

  /** The product `create_producto` stores under `id`. */
  function Created(id: int, pin: ProductoCreate): (p: Producto)
    ensures p.id == id && p.nombre == pin.nombre && p.sku == pin.sku && p.descripcion == pin.descripcion
    ensures p.stock == 0 <==> pin.stock.None? || pin.stock == Some(0)
    ensures p.stockMinimo == 0 <==> pin.stockMinimo.None? || pin.stockMinimo == Some(0)
  {
    Producto(id, pin.nombre, pin.sku, pin.descripcion, OrZero(pin.stock), OrZero(pin.stockMinimo))
  }

  /** `producto_upd.nombre and producto_upd.nombre != producto.nombre` */
  predicate RenamesTo(newValue: Option<string>, current: string)
    ensures RenamesTo(newValue, current) ==> newValue.Some? && newValue.value != current
    ensures newValue.None? || newValue == Some("") || newValue == Some(current) ==> !RenamesTo(newValue, current)
  {
    newValue.Some? && newValue.value != "" && newValue.value != current
  }

  /** The product after `update_producto` has applied `u` to `p`. */
  function Merge(p: Producto, u: ProductoUpdate): (q: Producto)
    ensures q.id == p.id && q.stockMinimo == p.stockMinimo
    ensures q.nombre != p.nombre <==> RenamesTo(u.nombre, p.nombre)
    ensures RenamesTo(u.nombre, p.nombre) ==> q.nombre == u.nombre.value
    ensures q.sku != p.sku <==> RenamesTo(u.sku, p.sku)
    ensures RenamesTo(u.sku, p.sku) ==> q.sku == u.sku.value
    ensures q.descripcion == if u.descripcion.Some? then u.descripcion else p.descripcion
    ensures q.stock == if u.stock.Some? then u.stock.value else p.stock
  {
    var p1 := if RenamesTo(u.nombre, p.nombre) then p.(nombre := u.nombre.value) else p;
    var p2 := if RenamesTo(u.sku, p1.sku) then p1.(sku := u.sku.value) else p1;
    var p3 := if u.descripcion.Some? then p2.(descripcion := u.descripcion) else p2;
    if u.stock.Some? then p3.(stock := u.stock.value) else p3
  }

  /** Applying the same update twice changes nothing more. */
  lemma MergeIdempotent(p: Producto, u: ProductoUpdate)
    ensures Merge(Merge(p, u), u) == Merge(p, u)
  {
  }

  /** An update with every field left out changes nothing. */
  lemma MergeEmpty(p: Producto, stockMinimo: Option<int>)
    ensures Merge(p, ProductoUpdate(None, None, None, None, stockMinimo)) == p
  {
  }

  /** Some id of a non-empty set. */
  method Pick(s: set<int>) returns (x: int)
    requires s != {}
    ensures x in s
  {
    assert exists y :: y in s by {
      if forall y :: y !in s {
        assert false;
      }
    }
    x :| x in s;
  }

  /** `ProductoORM.stock < ProductoORM.stock_minimo` */
  predicate IsLowStock(p: Producto)
    ensures IsLowStock(p) ==> p.stockMinimo > p.stock
    ensures p.stock >= 0 && p.stockMinimo <= 0 ==> !IsLowStock(p)
  {
    p.stock < p.stockMinimo
  }

  const DemoProductos: seq<ProductoCreate> := [
    ProductoCreate("Hamburguesa Vegetal", "BIO001", Some("Hamburguesa hecha con proteína vegetal, aceite de girasol y especias naturales"), None, None),
    ProductoCreate("Leche de Almendra", "BIO002", Some("Bebida vegetal a base de almendras orgánicas, agua y un toque de vainilla"), None, None),
    ProductoCreate("Tofu Orgánico", "BIO003", Some("Bloque de tofu fermentado, alto en proteína, bajo en sodio"), None, None),
    ProductoCreate("Snack de Lentejas", "BIO004", Some("Crujientes snacks hechos con lentejas y especias naturales"), None, None),
    ProductoCreate("Yogur de Coco", "BIO005", Some("Yogur fermentado a base de leche de coco, sin azúcar añadida"), None, None),
    ProductoCreate("Aceite de Semilla de Chía", "BIO006", Some("Aceite prensado en frío, rico en omega 3 y antioxidantes"), None, None),
    ProductoCreate("Barrita Energética Vegana", "BIO007", Some("Barrita con avena, frutos secos y proteína vegetal"), None, None),
    ProductoCreate("Helado de Plátano y Cacao", "BIO008", Some("Helado 100% vegetal, sin lácteos, sabor natural a plátano y cacao"), None, None),
    ProductoCreate("Queso Vegano", "BIO009", Some("Queso a base de anacardos fermentados, textura cremosa"), None, None),
    ProductoCreate("Bebida Fermentada de Kombucha", "BIO010", Some("Té fermentado con probióticos naturales, sabor a frutas"), None, None)]

  /** The table `create_producto` builds from `pins`, in order, with ids from `start` on. */
  function Inserted(start: int, pins: seq<ProductoCreate>): (t: map<int, Producto>)
    ensures forall id :: id in t <==> start <= id < start + |pins|
    ensures forall id :: id in t ==> t[id] == Created(id, pins[id - start])
  {
    if pins == [] then map[]
    else
      var n := |pins| - 1;
      Inserted(start, pins[..n])[start + n := Created(start + n, pins[n])]
  }

  /** Creating the next product extends the inserted table by one entry. */
  lemma InsertedStep(before: map<int, Producto>, start: int, pins: seq<ProductoCreate>, i: nat)
    requires i < |pins|
    ensures (before + Inserted(start, pins[..i]))[start + i := Created(start + i, pins[i])]
            == before + Inserted(start, pins[..i + 1])
  {
    assert pins[..i + 1][..i] == pins[..i];
  }

  lemma EmptyUnion(t: map<int, Producto>)
    ensures map[] + t == t
  {
  }

  const DemoSkus: seq<string> := ["BIO001", "BIO002", "BIO003", "BIO004", "BIO005", "BIO006", "BIO007", "BIO008", "BIO009", "BIO010"]

  /** A complete seed stores the demo SKUs BIO001 to BIO010 in id order, all with zero stock figures. */
  lemma SeededSkus(start: int)
    ensures var t := Inserted(start, DemoProductos);
      forall id :: id in t <==> start <= id < start + |DemoSkus|
    ensures var t := Inserted(start, DemoProductos);
      forall id :: id in t ==> t[id].sku == DemoSkus[id - start]
    ensures var t := Inserted(start, DemoProductos);
      forall id :: id in t ==> t[id].stock == 0 && t[id].stockMinimo == 0
  {
    DemoSkusMatch();
    InsertedSkus(start, DemoProductos, DemoSkus);
  }

  lemma InsertedSkus(start: int, pins: seq<ProductoCreate>, skus: seq<string>)
    requires |pins| == |skus|
    requires forall k :: 0 <= k < |pins| ==> pins[k].sku == skus[k]
    requires forall k :: 0 <= k < |pins| ==> pins[k].stock.None? && pins[k].stockMinimo.None?
    ensures forall id :: id in Inserted(start, pins) ==> Inserted(start, pins)[id].sku == skus[id - start]
    ensures forall id :: id in Inserted(start, pins) ==> Inserted(start, pins)[id].stock == 0 && Inserted(start, pins)[id].stockMinimo == 0
  {
  }

  lemma DemoSkusMatch()
    ensures |DemoProductos| == |DemoSkus|
    ensures forall k :: 0 <= k < |DemoProductos| ==> DemoProductos[k].sku == DemoSkus[k]
    ensures forall k :: 0 <= k < |DemoProductos| ==> DemoProductos[k].stock.None? && DemoProductos[k].stockMinimo.None?
  {
  }

  class ProductoRepository {
    var products: map<int, Producto>
    /** The id the database assigns to the next insert. */
    var nextId: int
    const unique: UniquenessGuard

    ghost predicate Valid()
      reads this
    {
      && nextId >= 1
      && forall id :: id in products ==> products[id].id == id && 1 <= id < nextId
    }

    constructor(unique: UniquenessGuard)
      ensures Valid()
      ensures products == map[] && nextId == 1 && this.unique == unique
    {
      products := map[];
      nextId := 1;
      this.unique := unique;
    }

    /**
     * `create_producto`: the uniqueness check runs first and, when it
     * rejects, nothing is stored; otherwise the product gets a fresh id,
     * with missing stock figures stored as 0.
     */
    method CreateProducto(pin: ProductoCreate) returns (r: Result<Producto, string>)
      requires Valid()
      modifies this
      ensures Valid()
      ensures r.Failure? <==> !unique(old(products), Some(pin.nombre), Some(pin.sku))
      ensures r.Failure? ==> products == old(products) && nextId == old(nextId)
      ensures r.Success? ==>
        && r.value == Created(old(nextId), pin)
        && old(nextId) !in old(products)
        && products == old(products)[old(nextId) := r.value]
        && nextId == old(nextId) + 1
    {
      if !unique(products, Some(pin.nombre), Some(pin.sku)) {
        return Failure("producto duplicado");
      }
      var p := Created(nextId, pin);
      products := products[nextId := p];
      nextId := nextId + 1;
      return Success(p);
    }

    /** The stored products that satisfy `keep`, each once. */
    method CollectWhere(keep: Producto -> bool) returns (ps: seq<Producto>)
      requires Valid()
      ensures forall i :: 0 <= i < |ps| ==> ps[i].id in products && products[ps[i].id] == ps[i] && keep(ps[i])
      ensures forall id :: id in products && keep(products[id]) ==> products[id] in ps
      ensures forall i, j :: 0 <= i < j < |ps| ==> ps[i].id != ps[j].id
    {
      ps := [];
      var todo := products.Keys;
      while todo != {}
        invariant todo <= products.Keys
        invariant forall i :: 0 <= i < |ps| ==> ps[i].id in products && products[ps[i].id] == ps[i] && keep(ps[i])
        invariant forall i :: 0 <= i < |ps| ==> ps[i].id !in todo
        invariant forall id :: id in products && id !in todo && keep(products[id]) ==> products[id] in ps
        invariant forall i, j :: 0 <= i < j < |ps| ==> ps[i].id != ps[j].id
        decreases |todo|
      {
        var id := Pick(todo);
        if keep(products[id]) {
          ps := ps + [products[id]];
        }
        todo := todo - {id};
      }
    }

    /** `get_all_productos`: every stored product, once. */
    method GetAllProductos() returns (ps: seq<Producto>)
      requires Valid()
      ensures |ps| == |products|
      ensures forall i :: 0 <= i < |ps| ==> ps[i].id in products && products[ps[i].id] == ps[i]
      ensures forall id :: id in products ==> products[id] in ps
    {
      ps := CollectWhere(p => true);
      DistinctIdsCount(ps);
    }

    /** The ids of a list of stored products, each listed once, are a set of its size. */
    lemma DistinctIdsCount(ps: seq<Producto>)
      requires Valid()
      requires forall i :: 0 <= i < |ps| ==> ps[i].id in products && products[ps[i].id] == ps[i]
      requires forall id :: id in products ==> products[id] in ps
      requires forall i, j :: 0 <= i < j < |ps| ==> ps[i].id != ps[j].id
      ensures |ps| == |products|
    {
      var ids := set i | 0 <= i < |ps| :: ps[i].id;
      assert ids == products.Keys by {
        forall id | id in products
          ensures id in ids
        {
          var i :| 0 <= i < |ps| && ps[i] == products[id];
        }
      }
      IdsOfDistinct(ps);
    }

    lemma {:induction false} IdsOfDistinct(ps: seq<Producto>)
      requires forall i, j :: 0 <= i < j < |ps| ==> ps[i].id != ps[j].id
      ensures |set i | 0 <= i < |ps| :: ps[i].id| == |ps|
    {
      if ps != [] {
        var init := ps[..|ps| - 1];
        IdsOfDistinct(init);
        var last := ps[|ps| - 1].id;
        assert (set i | 0 <= i < |ps| :: ps[i].id) == (set i | 0 <= i < |init| :: init[i].id) + {last};
        assert last !in (set i | 0 <= i < |init| :: init[i].id);
      }
    }

    /** `get_producto_by_id`: None exactly when no product has that id. */
    method GetProductoById(id: int) returns (r: Option<Producto>)
      ensures r.None? <==> id !in products
      ensures r.Some? ==> r.value == products[id]
    {
      if id in products {
        return Some(products[id]);
      }
      return None;
    }

    /**
     * `update_producto`: None for an unknown id; otherwise the fields are
     * changed one by one, each rename passing the uniqueness check first,
     * and a rejection raises before anything is committed.
     */
    method UpdateProducto(id: int, u: ProductoUpdate) returns (r: Result<Option<Producto>, string>)
      requires Valid()
      modifies this
      ensures Valid() && nextId == old(nextId)
      ensures id !in old(products) ==> r == Success(None) && products == old(products)
      ensures id in old(products) ==>
        var p := old(products)[id];
        r.Failure? <==>
          (RenamesTo(u.nombre, p.nombre) && !unique(old(products), u.nombre, None))
          || (RenamesTo(u.sku, p.sku) && !unique(old(products), None, u.sku))
      ensures r.Failure? ==> products == old(products)
      ensures id in old(products) && r.Success? ==>
        && r.value == Some(Merge(old(products)[id], u))
        && products == old(products)[id := Merge(old(products)[id], u)]
    {
      if id !in products {
        return Success(None);
      }
      var p := products[id];
      if RenamesTo(u.nombre, p.nombre) {
        if !unique(products, u.nombre, None) {
          return Failure("nombre duplicado");
        }
        p := p.(nombre := u.nombre.value);
      }
      if RenamesTo(u.sku, p.sku) {
        if !unique(products, None, u.sku) {
          return Failure("sku duplicado");
        }
        p := p.(sku := u.sku.value);
      }
      if u.descripcion.Some? {
        p := p.(descripcion := u.descripcion);
      }
      if u.stock.Some? {
        p := p.(stock := u.stock.value);
      }
      products := products[id := p];
      return Success(Some(p));
    }

    /** `delete_producto`: False and no change for an unknown id; otherwise True and only that product goes. */
    method DeleteProducto(id: int) returns (deleted: bool)
      requires Valid()
      modifies this
      ensures Valid() && nextId == old(nextId)
      ensures deleted <==> id in old(products)
      ensures products == old(products) - {id}
    {
      if id !in products {
        return false;
      }
      products := products - {id};
      return true;
    }

    /** `get_low_stock_products`: exactly the products whose stock is below their minimum. */
    method GetLowStockProducts() returns (ps: seq<Producto>)
      requires Valid()
      ensures forall i :: 0 <= i < |ps| ==> ps[i].id in products && products[ps[i].id] == ps[i] && IsLowStock(ps[i])
      ensures forall id :: id in products && IsLowStock(products[id]) ==> products[id] in ps
      ensures forall i, j :: 0 <= i < j < |ps| ==> ps[i].id != ps[j].id
    {
      ps := CollectWhere(IsLowStock);
    }

    /**
     * `seed_productos`: nothing happens when the table has products;
     * otherwise the demo products are created in order.
     */
    method SeedProductos() returns (r: Result<(), string>)
      requires Valid()
      modifies this
      ensures Valid()
      ensures |old(products)| > 0 ==> r.Success? && products == old(products) && nextId == old(nextId)
      ensures |old(products)| == 0 ==>
        exists m :: 0 <= m <= |DemoProductos| && products == Inserted(old(nextId), DemoProductos[..m])
                    && nextId == old(nextId) + m && (r.Success? <==> m == |DemoProductos|)
                    && (m < |DemoProductos| ==>
                          !unique(Inserted(old(nextId), DemoProductos[..m]), Some(DemoProductos[m].nombre), Some(DemoProductos[m].sku)))
    {
      if |products| > 0 {
        return Success(());
      }
      var start := nextId;
      var created;
      r, created := CreateAll(DemoProductos);
      EmptyUnion(Inserted(start, DemoProductos[..created]));
    }

    /**
     * The loop of `seed_productos`: create each product in order; a rejected
     * check raises and stops the loop, the earlier ones already committed.
     */
    method CreateAll(pins: seq<ProductoCreate>) returns (r: Result<(), string>, created: nat)
      requires Valid()
      modifies this
      ensures Valid()
      ensures created <= |pins| && products == old(products) + Inserted(old(nextId), pins[..created])
      ensures nextId == old(nextId) + created && (r.Success? <==> created == |pins|)
      ensures created < |pins| ==>
        !unique(old(products) + Inserted(old(nextId), pins[..created]), Some(pins[created].nombre), Some(pins[created].sku))
    {
      var start := nextId;
      var i := 0;
      assert pins[..0] == [];
      while i < |pins|
        invariant 0 <= i <= |pins|
        invariant Valid() && nextId == start + i
        invariant products == old(products) + Inserted(start, pins[..i])
      {
        var one := CreateNext(old(products), start, pins, i);
        if one.Failure? {
          return Failure(one.error), i;
        }
        i := i + 1;
      }
      assert pins[..i] == pins;
      return Success(()), i;
    }

    /** One turn of that loop: create `pins[i]` on top of the `i` products already inserted. */
    method CreateNext(ghost base: map<int, Producto>, start: int, pins: seq<ProductoCreate>, i: nat)
      returns (one: Result<Producto, string>)
      requires Valid() && i < |pins| && nextId == start + i && products == base + Inserted(start, pins[..i])
      modifies this
      ensures Valid()
      ensures one.Failure? ==>
        && products == old(products) && nextId == old(nextId)
        && !unique(base + Inserted(start, pins[..i]), Some(pins[i].nombre), Some(pins[i].sku))
      ensures one.Success? ==> nextId == start + i + 1 && products == base + Inserted(start, pins[..i + 1])
    {
      one := CreateProducto(pins[i]);
      if one.Success? {
        InsertedStep(base, start, pins, i);
      }
    }
}
}
