/**
 * The catalog store of productManagement.js: an object holding the list of
 * products and the id counter, updated in place by its methods. Exceptions
 * become `Fail`/`Err` results; console output is not modelled.
 */
module Store {
  import opened Wrappers
  import opened Text
  import opened ProductCatalog

  class ProductManagement {
    var products: seq<Product>
    var autoIncrementId: nat

    /** The abstract value of the store. */
    function State(): Catalog
      reads this
    {
      Catalog(products, autoIncrementId)
    }

    ghost predicate Valid()
      reads this
    {
      Inv(State())
    }

    /** A new store: no products, first id 1. */
    constructor ()
      ensures Valid()
      ensures State() == Empty
    {
      autoIncrementId := 1;
      products := [];
    }

    /** `getAllProducts`: the products in insertion order. */
    method GetAllProducts() returns (all: seq<Product>)
      requires Valid()
      ensures all == products
      ensures RecordsInv(all, autoIncrementId)
    {
      all := products;
    }

    /**
     * `getProductById`: the first product with that id (the only one, since ids
     * are distinct), or NotFound when no product has it.
     */
    method GetProductById(id: int) returns (r: Result<Product, Error>)
      requires Valid()
      ensures r.Err? <==> forall i :: 0 <= i < |products| ==> products[i].id != id
      ensures r.Err? ==> r.error == NotFound(id)
      ensures r.Ok? ==> r.value.id == id && r.value in products
      ensures r.Ok? ==> forall i :: 0 <= i < |products| && products[i].id == id ==> products[i] == r.value
      ensures r == FindById(products, id)
    {
      var i := 0;
      while i < |products|
        invariant 0 <= i <= |products|
        invariant forall j :: 0 <= j < i ==> products[j].id != id
      {
        if products[i].id == id {
          return Ok(products[i]);
        }
        i := i + 1;
      }
      return Err(NotFound(id));
    }

    /**
     * `addProduct`: validate, normalise, check for duplicates, then append a
     * record with the counter's value as its id and advance the counter. On
     * failure neither the list nor the counter changes.
     */
    method AddProduct(title: Option<string>, description: Option<string>, price: Option<real>,
                      thumbnail: Option<string>, code: Option<string>, stock: Option<real>)
      returns (outcome: Outcome<Error>)
      requires Valid()
      modifies this
      ensures Valid()
      ensures outcome.Pass? <==> Add(old(State()), AddRequest(title, description, price, thumbnail, code, stock)).Ok?
      ensures outcome.Pass? ==>
        State() == Add(old(State()), AddRequest(title, description, price, thumbnail, code, stock)).value
      ensures outcome.Fail? ==>
        outcome.error == Add(old(State()), AddRequest(title, description, price, thumbnail, code, stock)).error &&
        State() == old(State())
    {
      ghost var req := AddRequest(title, description, price, thumbnail, code, stock);
      ghost var before := State();
      if !(TruthyText(title) && TruthyText(description) && TruthyReal(price) &&
           TruthyText(thumbnail) && TruthyText(code) && TruthyReal(stock)) {
        assert Add(before, req) == Err(MissingData);
        return Fail(MissingData);
      }
      assert AllPresent(req);
      var t := Normalize(title.value);
      var d := Normalize(description.value);
      var th := Normalize(thumbnail.value);
      var p := price.value;
      if p <= 0.0 {
        assert Add(before, req) == Err(InvalidPrice);
        return Fail(InvalidPrice);
      }
      var s := ParseInt(stock.value);
      if s <= 0 {
        assert Add(before, req) == Err(InvalidStock);
        return Fail(InvalidStock);
      }
      if HasCode(products, code.value) {
        assert Add(before, req) == Err(DuplicateCode(code.value));
        return Fail(DuplicateCode(code.value));
      }
      if HasTitle(products, t) {
        assert Add(before, req) == Err(DuplicateTitle(t));
        return Fail(DuplicateTitle(t));
      }
      var product := Product(autoIncrementId, t, d, p, th, code.value, s);
      assert product == NewProduct(autoIncrementId, req);
      assert Add(before, req) == Ok(Catalog(products + [product], autoIncrementId + 1));
      ghost var after := Catalog(products + [product], autoIncrementId + 1);
      AddPreservesInv(before, req);
      assert Inv(after);
      autoIncrementId := autoIncrementId + 1;
      products := products + [product];
      assert State() == after;
      return Pass;
    }

    /**
     * `removeProduct(product)`: drop every record with that product's id,
     * keeping the others in order; the counter is untouched, so the id is
     * never issued again.
     */
    method RemoveProduct(product: Product)
      requires Valid()
      modifies this
      ensures Valid()
      ensures State() == Remove(old(State()), product.id)
    {
      RemovePreservesInv(State(), product.id);
      products := WithoutId(products, product.id);
    }
  }

  /** The two products the script adds, as the store records them. */
  const first := Product(1, "producto prueba", "este es un producto de prueba", 200.0,
                         "sin imagen", "abc123", 25)
  const second := Product(2, "producto prueba 2", "este es un producto de prueba 2", 300.0,
                          "sin imagen", "abc124", 25)

  /** The arguments of the script's two calls to `addProduct`. */
  const firstRequest := AddRequest(Some("producto prueba"), Some("este es un producto de prueba"),
                                   Some(200.0), Some("sin imagen"), Some("abc123"), Some(25.0))
  const secondRequest := AddRequest(Some("producto prueba 2"), Some("este es un producto de prueba 2"),
                                    Some(300.0), Some("sin imagen"), Some("abc124"), Some(25.0))

  /** The script passes strings that are already trimmed and lower case. */
  lemma ScriptTextsNormalized()
    ensures Normalized("producto prueba") && Normalized("producto prueba 2")
    ensures Normalized("este es un producto de prueba")
    ensures Normalized("este es un producto de prueba 2")
    ensures Normalized("sin imagen")
  {
  }

  /** What the store records for the script's first call. */
  lemma FirstRecorded()
    ensures AllPresent(firstRequest) && NewProduct(1, firstRequest) == first
  {
    ScriptTextsNormalized();
    NewProductKeepsNormalizedInputs(1, firstRequest);
  }

  /** What the store records for the script's second call. */
  lemma SecondRecorded()
    ensures AllPresent(secondRequest) && NewProduct(2, secondRequest) == second
  {
    ScriptTextsNormalized();
    NewProductKeepsNormalizedInputs(2, secondRequest);
  }

  /** The script's first add succeeds on the empty catalog and records `first`. */
  lemma FirstAddSucceeds()
    ensures Add(Empty, firstRequest) == Ok(Catalog([first], 2))
  {
    FirstRecorded();
    assert Empty.products + [first] == [first];
  }

  /** The script's second add succeeds, its code and title being new, and records `second`. */
  lemma SecondAddSucceeds()
    ensures Add(Catalog([first], 2), secondRequest) == Ok(Catalog([first, second], 3))
  {
    SecondRecorded();
    assert !HasCode([first], "abc124");
    assert !HasTitle([first], "producto prueba 2");
    assert [first] + [second] == [first, second];
  }

  /**
   * The script at the end of productManagement.js: two adds that succeed, then
   * the list and a lookup of id 1, which finds the first product.
   */
  method Demo() returns (all: seq<Product>, found: Result<Product, Error>)
    ensures all == [first, second]
    ensures found == Ok(first)
  {
    var store := new ProductManagement();
    FirstAddSucceeds();
    var o1 := store.AddProduct(firstRequest.title, firstRequest.description, firstRequest.price,
                               firstRequest.thumbnail, firstRequest.code, firstRequest.stock);
    SecondAddSucceeds();
    var o2 := store.AddProduct(secondRequest.title, secondRequest.description, secondRequest.price,
                               secondRequest.thumbnail, secondRequest.code, secondRequest.stock);
    all := store.GetAllProducts();
    found := store.GetProductById(1);
    assert store.products[0] == first;
  }

  /** A catalog scenario: add a widget and a gadget, then remove the widget. */
  const widgetRequest := AddRequest(Some("Widget"), Some("desc"), Some(9.99), Some("thumb"), Some("W1"), Some(5.0))
  const gadgetRequest := AddRequest(Some("Gadget"), Some("desc2"), Some(19.5), Some("thumb2"), Some("W2"), Some(3.0))
  const gadget := Product(2, "gadget", "desc2", 19.5, "thumb2", "W2", 3)

  /** The capitalised titles are recorded in lower case. */
  lemma ScenarioTitlesLowered()
    ensures Normalize("Widget") == "widget" && Normalize("Gadget") == "gadget"
  {
    assert Trim("Widget") == "Widget";
    assert Trim("Gadget") == "Gadget";
  }

  /** The other texts of the scenario are already normalised. */
  lemma ScenarioTextsNormalized()
    ensures Normalized("desc") && Normalized("desc2") && Normalized("thumb") && Normalized("thumb2")
  {
  }

  /** After the two adds and the removal of id 1, only the gadget is left, with id 2. */
  lemma ScenarioLeavesGadget()
    ensures Run(Empty, [AddOp(widgetRequest), AddOp(gadgetRequest), RemoveOp(1)]) == Catalog([gadget], 3)
  {
    ScenarioTitlesLowered();
    ScenarioTextsNormalized();
    NormalizedIsFixed("desc");
    NormalizedIsFixed("desc2");
    NormalizedIsFixed("thumb");
    NormalizedIsFixed("thumb2");
    ParseIntWholeAndFraction(5, 0.0);
    ParseIntWholeAndFraction(3, 0.0);
    var widget := Product(1, "widget", "desc", 9.99, "thumb", "W1", 5);
    assert NewProduct(1, widgetRequest) == widget;
    assert NewProduct(2, gadgetRequest) == gadget;
    var c1 := Catalog([widget], 2);
    assert Empty.products + [widget] == [widget];
    assert Step(Empty, AddOp(widgetRequest)) == c1;
    assert !HasCode([widget], "W2");
    assert !HasTitle([widget], "gadget");
    var c2 := Catalog([widget, gadget], 3);
    assert [widget] + [gadget] == [widget, gadget];
    assert Step(c1, AddOp(gadgetRequest)) == c2;
    assert WithoutId([widget, gadget], 1) == [gadget] by {
      assert [widget, gadget][1..] == [gadget];
      assert [gadget][1..] == [];
    }
    assert Step(c2, RemoveOp(1)) == Catalog([gadget], 3);
    var ops := [AddOp(widgetRequest), AddOp(gadgetRequest), RemoveOp(1)];
    assert ops[1..] == [AddOp(gadgetRequest), RemoveOp(1)];
    assert ops[1..][1..] == [RemoveOp(1)];
    assert ops[1..][1..][1..] == [];
    assert Run(Catalog([gadget], 3), []) == Catalog([gadget], 3);
    assert Run(c2, [RemoveOp(1)]) == Catalog([gadget], 3);
    assert Run(c1, ops[1..]) == Catalog([gadget], 3);
  }
}
