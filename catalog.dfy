/**
 * The product catalog as values: its records, the counter that issues ids, and
 * each operation of the catalog as a function from the old catalog to the new
 * one. The class in store.dfy updates its fields exactly as these functions say.
 */
module ProductCatalog {
  import opened Wrappers
  import opened Text

  /** A stored product record. */
  datatype Product = Product(id: nat, title: string, description: string, price: real,
                             thumbnail: string, code: string, stock: int)

  /**
   * The six arguments of `addProduct` as the caller passes them; `None` is an
   * argument left `undefined` (or passed as `null`). Price and stock are
   * numbers, as the script passes them.
   */
  datatype AddRequest = AddRequest(title: Option<string>, description: Option<string>,
                                   price: Option<real>, thumbnail: Option<string>,
                                   code: Option<string>, stock: Option<real>)

  /** The conditions under which the catalog throws. */
  datatype Error =
    | MissingData                   // a required argument is missing or falsy
    | InvalidPrice                  // the price is not a positive number
    | InvalidStock                  // the stock is not a positive number
    | DuplicateCode(code: string)   // a stored product already has this code
    | DuplicateTitle(title: string) // a stored product already has this (normalised) title
    | NotFound(id: int)             // no stored product has this id

  /** The catalog: its records in insertion order and the next id to issue. */
  datatype Catalog = Catalog(products: seq<Product>, nextId: nat)

  /** The catalog a fresh store starts with: no products, first id 1. */
  const Empty := Catalog([], 1)

  // JavaScript truthiness of each argument: `undefined`, `null`, "" and 0 are falsy.
  predicate TruthyText(v: Option<string>) { v.Some? && v.value != "" }
  predicate TruthyReal(v: Option<real>) { v.Some? && v.value != 0.0 }

  /**
   * `parseInt` applied to a number written in plain decimal notation: the
   * digits before the point, that is, truncation toward zero.
   */
  function ParseInt(v: real): (r: int)
    ensures v >= 0.0 ==> r as real <= v < r as real + 1.0
    ensures v < 0.0 ==> r as real - 1.0 < v <= r as real
  {
    if v >= 0.0 then v.Floor else -((-v).Floor)
  }

  /** A whole number goes through `parseInt` unchanged; a fraction below one becomes 0. */
  lemma ParseIntWholeAndFraction(n: int, v: real)
    ensures ParseInt(n as real) == n
    ensures -1.0 < v < 1.0 ==> ParseInt(v) == 0
  {
  }

  /** Every argument of `addProduct` is present and truthy. */
  predicate AllPresent(req: AddRequest)
  {
    TruthyText(req.title) && TruthyText(req.description) && TruthyReal(req.price) &&
    TruthyText(req.thumbnail) && TruthyText(req.code) && TruthyReal(req.stock)
  }

  /** Some stored product has this code (compared exactly as passed). */
  predicate HasCode(ps: seq<Product>, code: string)
  {
    exists i :: 0 <= i < |ps| && ps[i].code == code
  }

  /** Some stored product has this title. */
  predicate HasTitle(ps: seq<Product>, title: string)
  {
    exists i :: 0 <= i < |ps| && ps[i].title == title
  }

  /** The record `addProduct` builds: strings normalised, except the code, which is kept as passed. */
  function NewProduct(id: nat, req: AddRequest): Product
    requires AllPresent(req)
  {
    Product(id, Normalize(req.title.value), Normalize(req.description.value), req.price.value,
            Normalize(req.thumbnail.value), req.code.value, ParseInt(req.stock.value))
  }

  /** Inputs that are already trimmed and lower case are recorded as passed (the stock through `parseInt`). */
  lemma NewProductKeepsNormalizedInputs(id: nat, req: AddRequest)
    requires AllPresent(req)
    requires Normalized(req.title.value) && Normalized(req.description.value) &&
             Normalized(req.thumbnail.value)
    ensures NewProduct(id, req) ==
      Product(id, req.title.value, req.description.value, req.price.value,
              req.thumbnail.value, req.code.value, ParseInt(req.stock.value))
  {
    NormalizedIsFixed(req.title.value);
    NormalizedIsFixed(req.description.value);
    NormalizedIsFixed(req.thumbnail.value);
  }

  /**
   * `addProduct`: the checks in the order the source makes them, then the new
   * record appended with the counter's value as its id.
   */
  function Add(c: Catalog, req: AddRequest): Result<Catalog, Error>
  {
    if !AllPresent(req) then Err(MissingData)
    else if req.price.value <= 0.0 then Err(InvalidPrice)
    else if ParseInt(req.stock.value) <= 0 then Err(InvalidStock)
    else if HasCode(c.products, req.code.value) then Err(DuplicateCode(req.code.value))
    else if HasTitle(c.products, Normalize(req.title.value))
      then Err(DuplicateTitle(Normalize(req.title.value)))
    else Ok(Catalog(c.products + [NewProduct(c.nextId, req)], c.nextId + 1))
  }

  /**
   * An add succeeds exactly when every argument is present and truthy, price and
   * stock are positive, and neither the code nor the normalised title is taken.
   */
  lemma AddSucceedsIff(c: Catalog, req: AddRequest)
    ensures Add(c, req).Ok? <==>
      AllPresent(req) && req.price.value > 0.0 && ParseInt(req.stock.value) > 0 &&
      !HasCode(c.products, req.code.value) && !HasTitle(c.products, Normalize(req.title.value))
  {
  }

  /** Which error a failed add reports: the first check that fails, in the source's order. */
  lemma AddFailure(c: Catalog, req: AddRequest)
    ensures !AllPresent(req) ==> Add(c, req) == Err(MissingData)
    ensures AllPresent(req) && req.price.value <= 0.0 ==> Add(c, req) == Err(InvalidPrice)
    ensures AllPresent(req) && req.price.value > 0.0 && ParseInt(req.stock.value) <= 0 ==>
      Add(c, req) == Err(InvalidStock)
    ensures (AllPresent(req) && req.price.value > 0.0 && ParseInt(req.stock.value) > 0 &&
             HasCode(c.products, req.code.value)) ==>
      Add(c, req) == Err(DuplicateCode(req.code.value))
    ensures (AllPresent(req) && req.price.value > 0.0 && ParseInt(req.stock.value) > 0 &&
             !HasCode(c.products, req.code.value) && HasTitle(c.products, Normalize(req.title.value))) ==>
      Add(c, req) == Err(DuplicateTitle(Normalize(req.title.value)))
  {
  }

  /**
   * A successful add appends exactly one record, whose id is the old counter,
   * leaves the earlier records as they were and advances the counter by one.
   */
  lemma AddAppends(c: Catalog, req: AddRequest)
    requires Add(c, req).Ok?
    ensures var c' := Add(c, req).value;
      c'.nextId == c.nextId + 1 &&
      |c'.products| == |c.products| + 1 &&
      c'.products[..|c.products|] == c.products &&
      c'.products[|c.products|] == NewProduct(c.nextId, req) &&
      c'.products[|c.products|].id == c.nextId
  {
    assert (c.products + [NewProduct(c.nextId, req)])[..|c.products|] == c.products;
  }

  /**
   * The presence check looks at the title before it is trimmed, so a title of
   * white space only passes it and is recorded as the empty string.
   */
  lemma BlankTitleRecordedEmpty(c: Catalog, req: AddRequest)
    requires Add(c, req).Ok?
    requires AllWhiteSpace(req.title.value)
    ensures Add(c, req).value.products[|c.products|].title == ""
  {
    AllWhiteSpaceNormalizesToEmpty(req.title.value);
    AddAppends(c, req);
  }

  /** Such an add does succeed: a title of three spaces on the empty catalog. */
  lemma BlankTitleAccepted()
    ensures Add(Empty, AddRequest(Some("   "), Some("d"), Some(1.0), Some("t"), Some("c"), Some(1.0))) ==
      Ok(Catalog([Product(1, "", "d", 1.0, "t", "c", 1)], 2))
  {
    var req := AddRequest(Some("   "), Some("d"), Some(1.0), Some("t"), Some("c"), Some(1.0));
    AllWhiteSpaceNormalizesToEmpty("   ");
    NormalizedIsFixed("d");
    NormalizedIsFixed("t");
    ParseIntWholeAndFraction(1, 0.0);
    assert AllPresent(req);
    assert NewProduct(1, req) == Product(1, "", "d", 1.0, "t", "c", 1);
    assert Empty.products + [NewProduct(1, req)] == [NewProduct(1, req)];
  }

  /**
   * Position of the first record with this id, as `find` scans them; `|ps|`
   * when there is none.
   */
  function IndexOfId(ps: seq<Product>, id: int): (k: nat)
    ensures k <= |ps|
    ensures forall j :: 0 <= j < k ==> ps[j].id != id
    ensures k < |ps| ==> ps[k].id == id
  {
    if ps == [] then 0
    else if ps[0].id == id then 0
    else 1 + IndexOfId(ps[1..], id)
  }

  /** `getProductById`: the first record with this id, or NotFound. */
  function FindById(ps: seq<Product>, id: int): Result<Product, Error>
  {
    var k := IndexOfId(ps, id);
    if k < |ps| then Ok(ps[k]) else Err(NotFound(id))
  }

  /** `products.filter(p => p.id !== id)`. */
  function WithoutId(ps: seq<Product>, id: int): (r: seq<Product>)
    ensures |r| <= |ps|
    ensures forall p :: p in r <==> p in ps && p.id != id
  {
    if ps == [] then []
    else (if ps[0].id == id then [] else [ps[0]]) + WithoutId(ps[1..], id)
  }

  /** `removeProduct(product)`: the counter is left alone. */
  function Remove(c: Catalog, id: int): Catalog
  {
    Catalog(WithoutId(c.products, id), c.nextId)
  }

  /** What every stored record satisfies. */
  predicate WellFormed(p: Product)
  {
    Normalized(p.title) && Normalized(p.description) && Normalized(p.thumbnail) &&
    p.code != "" && p.price > 0.0 && p.stock > 0
  }

  /**
   * The records' invariant relative to a counter: ids issued so far (from 1 up
   * to below the counter), strictly increasing in list order (hence distinct),
   * codes distinct, titles distinct.
   */
  predicate RecordsInv(ps: seq<Product>, nextId: nat)
  {
    (forall i :: 0 <= i < |ps| ==> Issued(ps[i], nextId)) &&
    (forall i, j :: 0 <= i < j < |ps| ==> Precedes(ps[i], ps[j]))
  }

  /** A well-formed record whose id the counter has already issued. */
  predicate Issued(p: Product, nextId: nat)
  {
    1 <= p.id < nextId && WellFormed(p)
  }

  /** Two records that may stand in this order: increasing ids, different codes and titles. */
  predicate Precedes(p: Product, q: Product)
  {
    p.id < q.id && p.code != q.code && p.title != q.title
  }

  predicate Inv(c: Catalog)
  {
    c.nextId >= 1 && RecordsInv(c.products, c.nextId)
  }

  lemma EmptyInv()
    ensures Inv(Empty)
  {
  }

  /** A successful add keeps the invariant. */
  lemma AddPreservesInv(c: Catalog, req: AddRequest)
    requires Inv(c)
    requires Add(c, req).Ok?
    ensures Inv(Add(c, req).value)
  {
    var p := NewProduct(c.nextId, req);
    NormalizeIsNormalized(req.title.value);
    NormalizeIsNormalized(req.description.value);
    NormalizeIsNormalized(req.thumbnail.value);
    assert WellFormed(p);
    var ps := c.products + [p];
    assert ps == Add(c, req).value.products;
    forall i, j | 0 <= i < j < |ps|
      ensures ps[i].id < ps[j].id && ps[i].code != ps[j].code && ps[i].title != ps[j].title
    {
      if j == |c.products| {
        assert ps[i] == c.products[i];
      }
    }
  }

  /** Filtering distributes over concatenation: the kept records stay in their order. */
  lemma {:induction false} WithoutIdAppend(a: seq<Product>, b: seq<Product>, id: int)
    ensures WithoutId(a + b, id) == WithoutId(a, id) + WithoutId(b, id)
  {
    if a == [] {
      assert a + b == b;
    } else {
      assert (a + b)[1..] == a[1..] + b;
      WithoutIdAppend(a[1..], b, id);
    }
  }

  /** Removing an id that no record has changes nothing. */
  lemma {:induction false} RemoveAbsentIsNoop(ps: seq<Product>, id: int)
    requires forall i :: 0 <= i < |ps| ==> ps[i].id != id
    ensures WithoutId(ps, id) == ps
  {
    if ps != [] {
      RemoveAbsentIsNoop(ps[1..], id);
      assert [ps[0]] + ps[1..] == ps;
    }
  }

  /** After a removal, looking the id up fails. */
  lemma RemoveThenFindFails(c: Catalog, id: int)
    ensures FindById(Remove(c, id).products, id) == Err(NotFound(id))
  {
  }

  /** Removal keeps the invariant. */
  lemma {:induction false} RemoveKeepsRecordsInv(ps: seq<Product>, nextId: nat, id: int)
    requires RecordsInv(ps, nextId)
    ensures RecordsInv(WithoutId(ps, id), nextId)
  {
    if ps != [] {
      RemoveKeepsRecordsInv(ps[1..], nextId, id);
      var rest := WithoutId(ps[1..], id);
      var r := WithoutId(ps, id);
      if ps[0].id != id {
        assert r == [ps[0]] + rest;
        assert forall q :: q in ps[1..] ==> Precedes(ps[0], q) by {
          forall q | q in ps[1..] ensures Precedes(ps[0], q) {
            var m :| 0 <= m < |ps[1..]| && ps[1..][m] == q;
            assert ps[m + 1] == q;
          }
        }
        forall j | 0 <= j < |rest| ensures Precedes(ps[0], rest[j]) {
          assert rest[j] in rest;
        }
      } else {
        assert r == rest;
      }
    }
  }

  lemma RemovePreservesInv(c: Catalog, id: int)
    requires Inv(c)
    ensures Inv(Remove(c, id))
  {
    RemoveKeepsRecordsInv(c.products, c.nextId, id);
  }

  /** With ids distinct, removing an id that is present removes exactly one record. */
  lemma {:induction false} RemovePresentDropsOne(ps: seq<Product>, nextId: nat, id: int)
    requires RecordsInv(ps, nextId)
    requires exists i :: 0 <= i < |ps| && ps[i].id == id
    ensures |WithoutId(ps, id)| == |ps| - 1
  {
    if ps[0].id == id {
      RemoveAbsentIsNoop(ps[1..], id);
    } else {
      var i :| 0 <= i < |ps| && ps[i].id == id;
      assert ps[1..][i - 1].id == id;
      RemovePresentDropsOne(ps[1..], nextId, id);
    }
  }

  /** Looking up in a list with one more record at the end. */
  lemma {:induction false} IndexOfIdAppend(ps: seq<Product>, p: Product, id: int)
    ensures IndexOfId(ps + [p], id) ==
      if IndexOfId(ps, id) < |ps| then IndexOfId(ps, id)
      else if p.id == id then |ps| else |ps| + 1
  {
    if ps != [] && ps[0].id != id {
      assert (ps + [p])[1..] == ps[1..] + [p];
      IndexOfIdAppend(ps[1..], p, id);
    }
  }

  /**
   * After a successful add, the new id finds the new record and every other
   * lookup answers as before.
   */
  lemma AddThenFind(c: Catalog, req: AddRequest, id: int)
    requires Inv(c)
    requires Add(c, req).Ok?
    ensures var ps := Add(c, req).value.products;
      FindById(ps, id) ==
        if id == c.nextId then Ok(NewProduct(c.nextId, req)) else FindById(c.products, id)
  {
    var p := NewProduct(c.nextId, req);
    IndexOfIdAppend(c.products, p, id);
    assert Add(c, req).value.products == c.products + [p];
  }

  /** The operations a client can run on the catalog. */
  datatype Op = AddOp(req: AddRequest) | RemoveOp(id: int)

  /** One operation; a failed add leaves the catalog as it was. */
  function Step(c: Catalog, op: Op): Catalog
  {
    match op
    case AddOp(req) => (match Add(c, req) case Ok(c') => c' case Err(_) => c)
    case RemoveOp(id) => Remove(c, id)
  }

  function Run(c: Catalog, ops: seq<Op>): Catalog
    decreases |ops|
  {
    if ops == [] then c else Run(Step(c, ops[0]), ops[1..])
  }

  /** One operation keeps the invariant, never lowers the counter and never issues an id below it. */
  lemma StepKeepsInv(c: Catalog, op: Op, k: int)
    requires Inv(c)
    requires k < c.nextId
    requires forall i :: 0 <= i < |c.products| ==> c.products[i].id != k
    ensures Inv(Step(c, op)) && Step(c, op).nextId >= c.nextId
    ensures forall i :: 0 <= i < |Step(c, op).products| ==> Step(c, op).products[i].id != k
  {
    var c' := Step(c, op);
    match op
    case AddOp(req) =>
      if Add(c, req).Ok? {
        AddPreservesInv(c, req);
        AddAppends(c, req);
        assert c' == Add(c, req).value;
        forall i | 0 <= i < |c'.products|
          ensures c'.products[i].id != k
        {
          if i < |c.products| {
            assert c'.products[i] == c.products[..|c.products|][i];
          }
        }
      }
    case RemoveOp(id) =>
      RemovePreservesInv(c, id);
      forall i | 0 <= i < |c'.products|
        ensures c'.products[i].id != k
      {
        assert c'.products[i] in c.products;
      }
  }

  /**
   * Once an issued id is absent from the catalog, no later sequence of adds and
   * removes brings it back: ids are never reused.
   */
  lemma {:induction false} RemovedIdNeverReturns(c: Catalog, ops: seq<Op>, k: int)
    requires Inv(c)
    requires k < c.nextId
    requires forall i :: 0 <= i < |c.products| ==> c.products[i].id != k
    ensures Inv(Run(c, ops)) && Run(c, ops).nextId >= c.nextId
    ensures forall i :: 0 <= i < |Run(c, ops).products| ==> Run(c, ops).products[i].id != k
    decreases |ops|
  {
    if ops != [] {
      StepKeepsInv(c, ops[0], k);
      RemovedIdNeverReturns(Step(c, ops[0]), ops[1..], k);
    }
  }
}
