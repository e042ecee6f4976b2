/**
  Vending machine, as in lld/python/vending-machine.py.

  The machine is in one of four states (idle, ready, dispense, return change) and
  delegates every public operation to its current state. Money is counted in whole
  cents. `reset_selected_product` sets the current state to None instead of clearing
  the selected product, so after it runs every public operation raises
  `AttributeError`; the model keeps that behaviour.
  The singleton, locks and printing are not modelled.
*/
module Vending {
  import opened Common

  datatype MachineState = Idle | Ready | Dispense | ReturnChange

  datatype Coin = Penny | Nickel | Dime | Quarter

  datatype Note = One | Five | Ten | Twenty

  /** The value of a coin, in cents. */
  function CoinValue(c: Coin): (v: nat)
    ensures 1 <= v <= 25
  {
    match c
    case Penny => 1
    case Nickel => 5
    case Dime => 10
    case Quarter => 25
  }

  /** The value of a note, in cents. */
  function NoteValue(n: Note): (v: nat)
    ensures 100 <= v <= 2000
  {
    match n
    case One => 100
    case Five => 500
    case Ten => 1000
    case Twenty => 2000
  }

  /** `AttributeError`: the current state is None, or no product is selected where
      its price is read. */
  datatype VendError = NoState | NoProduct

  class Product {
    const name: string
    /** In cents. */
    const price: int

    constructor (name: string, price: int)
      ensures this.name == name && this.price == price
    {
      this.name := name;
      this.price := price;
    }
  }

  // ---------------------------------------------------------------- inventory

  /** `Inventory.get_quantity`: the stock of a product, 0 when it is not listed. */
  function Quantity(stock: map<Product, int>, p: Product): int
  {
    if p in stock then stock[p] else 0
  }

  /** Setting a product's quantity (by `add_product` or `update_quantity`) is seen by
      `get_quantity`; removing a product makes its quantity 0; neither touches the
      quantity of any other product. */
  lemma InventoryLaws(stock: map<Product, int>, p: Product, q: int, other: Product)
    requires other != p
    ensures Quantity(stock[p := q], p) == q
    ensures Quantity(stock - {p}, p) == 0
    ensures Quantity(stock[p := q], other) == Quantity(stock, other)
    ensures Quantity(stock - {p}, other) == Quantity(stock, other)
  {
  }

  // ---------------------------------------------------------------- the machine as a value

  /** The machine's fields: the current state (None once `reset_selected_product` has
      run), the selected product, the payment so far and the inventory. */
  datatype Machine = Machine(state: Option<MachineState>, selected: Option<Product>, payment: int, stock: map<Product, int>)

  /** `select_product`: in the idle state an available product is selected and the
      machine becomes ready; every other case changes nothing. */
  function Select(m: Machine, p: Product): (Machine, Outcome<VendError>)
  {
    match m.state
    case None => (m, Fail(NoState))
    case Some(s) =>
      if s == Idle && Quantity(m.stock, p) > 0 then (m.(selected := Some(p), state := Some(Ready)), Pass)
      else (m, Pass)
  }

  /** `insert_coin` and `insert_note` with a coin or note worth `v` cents: in the
      ready state the payment grows by `v` and the machine moves on to dispensing
      once the payment covers the price; every other state changes nothing. */
  function Insert(m: Machine, v: int): (Machine, Outcome<VendError>)
  {
    match m.state
    case None => (m, Fail(NoState))
    case Some(s) =>
      if s != Ready then (m, Pass)
      else
        var paid := m.(payment := m.payment + v);
        if paid.selected.None? then (paid, Fail(NoProduct))
        else if paid.payment >= paid.selected.value.price then (paid.(state := Some(Dispense)), Pass)
        else (paid, Pass)
  }

  /** `ReadyState.return_change`: a positive payment is returned, the state is set to
      idle and then `reset_selected_product` sets it to None. */
  function ReturnFromReady(m: Machine): Machine
  {
    m.(payment := if m.payment > 0 then 0 else m.payment, state := None)
  }

  /** `dispense_product`: in the dispense state a product in stock loses exactly one
      unit and the machine goes on to return change; out of stock, the machine turns
      ready and returns the payment as the ready state does. Every other state
      changes nothing. */
  function DispenseStep(m: Machine): (Machine, Outcome<VendError>)
  {
    match m.state
    case None => (m, Fail(NoState))
    case Some(s) =>
      if s != Dispense then (m, Pass)
      else
        var q := if m.selected.Some? then Quantity(m.stock, m.selected.value) else 0;
        if q > 0 then (m.(stock := m.stock[m.selected.value := q - 1], state := Some(ReturnChange)), Pass)
        else (ReturnFromReady(m.(state := Some(Ready))), Pass)
  }

  /** `return_change`: from the ready state see `ReturnFromReady`; in the return
      change state the payment is zeroed and the machine goes back to idle, keeping
      its selected product. Every other state changes nothing. */
  function ReturnStep(m: Machine): (Machine, Outcome<VendError>)
  {
    match m.state
    case None => (m, Fail(NoState))
    case Some(s) =>
      if s == Ready then (ReturnFromReady(m), Pass)
      else if s != ReturnChange then (m, Pass)
      else if m.selected.None? then (m, Fail(NoProduct))
      else (m.(payment := 0, state := Some(Idle)), Pass)
  }

  /** A machine in a state past idle has a selected product, and the payment is never
      negative. */
  ghost predicate Consistent(m: Machine)
  {
    (m.state == Some(Ready) || m.state == Some(Dispense) || m.state == Some(ReturnChange) ==> m.selected.Some?)
    && m.payment >= 0
  }

  /** Every operation keeps the machine consistent, and on a consistent machine none
      raises unless the current state is None. */
  lemma ConsistentKept(m: Machine, p: Product, v: nat)
    requires Consistent(m)
    ensures Consistent(Select(m, p).0) && Consistent(Insert(m, v).0)
    ensures Consistent(DispenseStep(m).0) && Consistent(ReturnStep(m).0)
    ensures m.state.Some? ==>
      Select(m, p).1.Pass? && Insert(m, v).1.Pass? && DispenseStep(m).1.Pass? && ReturnStep(m).1.Pass?
  {
  }

  /** Once the current state is None, every operation raises and changes nothing. */
  lemma StuckWithoutState(m: Machine, p: Product, v: int)
    requires m.state.None?
    ensures Select(m, p) == (m, Fail(NoState)) && Insert(m, v) == (m, Fail(NoState))
    ensures DispenseStep(m) == (m, Fail(NoState)) && ReturnStep(m) == (m, Fail(NoState))
  {
  }

  /** Selecting: only the idle state reacts, and only to a product in stock, which
      becomes the selection; payment and stock are never touched. */
  lemma SelectSpec(m: Machine, p: Product)
    requires m.state.Some?
    ensures m.state != Some(Idle) || Quantity(m.stock, p) <= 0 ==> Select(m, p) == (m, Pass)
    ensures m.state == Some(Idle) && Quantity(m.stock, p) > 0 ==>
      Select(m, p).0.selected == Some(p) && Select(m, p).0.state == Some(Ready)
    ensures Select(m, p).0.payment == m.payment && Select(m, p).0.stock == m.stock
  {
  }

  /** Paying: in the ready state the payment grows by exactly the value inserted and
      the machine dispenses exactly when the new total covers the price. */
  lemma InsertSpec(m: Machine, v: int)
    requires m.state == Some(Ready) && m.selected.Some?
    ensures Insert(m, v).0.payment == m.payment + v
    ensures Insert(m, v).0.state == Some(Dispense) <==> m.payment + v >= m.selected.value.price
    ensures Insert(m, v).0.state != Some(Dispense) ==> Insert(m, v).0.state == Some(Ready)
    ensures Insert(m, v).0.stock == m.stock && Insert(m, v).0.selected == m.selected
  {
  }

  /** Dispensing takes exactly one unit of the selected product and no other; out of
      stock the inventory is untouched, the payment is returned and the machine is
      left without a state. */
  lemma DispenseSpec(m: Machine, other: Product)
    requires m.state == Some(Dispense) && m.selected.Some? && other != m.selected.value
    ensures Quantity(DispenseStep(m).0.stock, other) == Quantity(m.stock, other)
    ensures Quantity(m.stock, m.selected.value) > 0 ==>
      Quantity(DispenseStep(m).0.stock, m.selected.value) == Quantity(m.stock, m.selected.value) - 1
      && DispenseStep(m).0.state == Some(ReturnChange)
    ensures Quantity(m.stock, m.selected.value) <= 0 ==>
      DispenseStep(m).0.stock == m.stock && DispenseStep(m).0.state.None?
      && DispenseStep(m).0.payment <= 0
  {
  }

  /** Returning change from the return change state completes a sale: the machine is
      idle again with no payment. From the ready state (a cancelled sale) the
      payment is returned but the machine is left without a state. */
  lemma ReturnSpec(m: Machine)
    requires m.selected.Some?
    ensures m.state == Some(ReturnChange) ==>
      ReturnStep(m).0 == m.(payment := 0, state := Some(Idle))
    ensures m.state == Some(Ready) ==> ReturnStep(m).0.state.None? && ReturnStep(m).0.payment <= 0
  {
  }

  /** The first test of the demo: coke at 150 cents with 3 in stock, paid with six
      quarters, is dispensed, and the machine is idle again with 2 cokes left. */
  lemma DemoPurchase(coke: Product, pepsi: Product, water: Product)
    requires coke != pepsi && coke != water && pepsi != water && coke.price == 150
    ensures
      var start := Machine(Some(Idle), None, 0, map[coke := 3, pepsi := 2, water := 5]);
      var m1 := Select(start, coke).0;
      var m2 := Insert(Insert(Insert(m1, 25).0, 25).0, 25).0;
      var m3 := Insert(Insert(Insert(m2, 25).0, 25).0, 25).0;
      m2.state == Some(Ready) && m3.state == Some(Dispense)
      && ReturnStep(DispenseStep(m3).0).0 == Machine(Some(Idle), Some(coke), 0, map[coke := 2, pepsi := 2, water := 5])
  {
    var start := Machine(Some(Idle), None, 0, map[coke := 3, pepsi := 2, water := 5]);
    var m1 := Select(start, coke).0;
    assert m1 == Machine(Some(Ready), Some(coke), 0, start.stock);
    assert Insert(m1, 25).0 == Machine(Some(Ready), Some(coke), 25, start.stock);
    assert Insert(Insert(m1, 25).0, 25).0 == Machine(Some(Ready), Some(coke), 50, start.stock);
    var m2 := Insert(Insert(Insert(m1, 25).0, 25).0, 25).0;
    assert m2 == Machine(Some(Ready), Some(coke), 75, start.stock);
    assert Insert(m2, 25).0 == Machine(Some(Ready), Some(coke), 100, start.stock);
    assert Insert(Insert(m2, 25).0, 25).0 == Machine(Some(Ready), Some(coke), 125, start.stock);
    var m3 := Insert(Insert(Insert(m2, 25).0, 25).0, 25).0;
    assert m3 == Machine(Some(Dispense), Some(coke), 150, start.stock);
    assert DispenseStep(m3).0 == Machine(Some(ReturnChange), Some(coke), 150, map[coke := 2, pepsi := 2, water := 5]);
  }

  /** The second test: pepsi at 175 cents is not dispensed while only 125 cents are
      in, and is dispensed once two more quarters arrive. */
  lemma DemoTopUp(coke: Product, pepsi: Product, water: Product)
    requires coke != pepsi && coke != water && pepsi != water && pepsi.price == 175
    ensures
      var start := Machine(Some(Idle), Some(coke), 0, map[coke := 2, pepsi := 2, water := 5]);
      var m1 := Insert(Insert(Select(start, pepsi).0, 25).0, 100).0;
      var m2 := Insert(Insert(DispenseStep(m1).0, 25).0, 25).0;
      m1.state == Some(Ready) && DispenseStep(m1).0 == m1 && m2.state == Some(Dispense)
      && ReturnStep(DispenseStep(m2).0).0 == Machine(Some(Idle), Some(pepsi), 0, map[coke := 2, pepsi := 1, water := 5])
  {
    var start := Machine(Some(Idle), Some(coke), 0, map[coke := 2, pepsi := 2, water := 5]);
    var m1 := Insert(Insert(Select(start, pepsi).0, 25).0, 100).0;
    assert m1 == Machine(Some(Ready), Some(pepsi), 125, start.stock);
    var m2 := Insert(Insert(DispenseStep(m1).0, 25).0, 25).0;
    assert m2 == Machine(Some(Dispense), Some(pepsi), 175, start.stock);
    assert DispenseStep(m2).0 == Machine(Some(ReturnChange), Some(pepsi), 175, map[coke := 2, pepsi := 1, water := 5]);
  }

  /** The third test: water paid with a five-dollar note is dispensed; while the
      change is not collected, selecting, paying and dispensing again do nothing. */
  lemma DemoUncollectedChange(coke: Product, pepsi: Product, water: Product)
    requires coke != pepsi && coke != water && pepsi != water && water.price == 100
    ensures
      var start := Machine(Some(Idle), Some(pepsi), 0, map[coke := 2, pepsi := 1, water := 5]);
      var m1 := DispenseStep(Insert(Select(start, water).0, 500).0).0;
      var m2 := DispenseStep(Insert(Select(m1, water).0, 100).0).0;
      m1 == Machine(Some(ReturnChange), Some(water), 500, map[coke := 2, pepsi := 1, water := 4]) && m2 == m1
  {
    var start := Machine(Some(Idle), Some(pepsi), 0, map[coke := 2, pepsi := 1, water := 5]);
    assert Insert(Select(start, water).0, 500).0 == Machine(Some(Dispense), Some(water), 500, start.stock);
  }

  // ---------------------------------------------------------------- the machine as an object

  class Inventory {
    var products: map<Product, int>

    constructor ()
      ensures products == map[]
    {
      products := map[];
    }

    method AddProduct(product: Product, quantity: int)
      modifies this
      ensures products == old(products)[product := quantity]
    {
      products := products[product := quantity];
    }

    method RemoveProduct(product: Product)
      modifies this
      ensures products == old(products) - {product}
    {
      if product in products {
        products := products - {product};
      }
    }

    method UpdateQuantity(product: Product, quantity: int)
      modifies this
      ensures products == old(products)[product := quantity]
    {
      products := products[product := quantity];
    }

    method GetQuantity(product: Product) returns (q: int)
      ensures q == Quantity(products, product)
    {
      q := if product in products then products[product] else 0;
    }

    method IsAvailable(product: Product) returns (b: bool)
      ensures b <==> Quantity(products, product) > 0
    {
      var q := GetQuantity(product);
      b := q > 0;
    }
  }

  class VendingMachine {
    const inventory: Inventory
    var currentState: Option<MachineState>
    var selectedProduct: Option<Product>
    var totalPayment: int

    /** The machine's fields as a value. */
    function Snapshot(): Machine
      reads this, inventory
    {
      Machine(currentState, selectedProduct, totalPayment, inventory.products)
    }

    /** The first construction of the singleton: idle, nothing selected, nothing paid,
        an empty inventory. */
    constructor ()
      ensures fresh(inventory) && Snapshot() == Machine(Some(Idle), None, 0, map[])
    {
      inventory := new Inventory();
      currentState := Some(Idle);
      selectedProduct := None;
      totalPayment := 0;
    }

    method SetState(state: MachineState)
      modifies this`currentState
      ensures currentState == Some(state)
    {
      currentState := Some(state);
    }

    /** `reset_selected_product`, as written: it clears the current state and leaves
        the selected product. */
    method ResetSelectedProduct()
      modifies this`currentState
      ensures currentState == None
    {
      currentState := None;
    }

    /** `select_product`: see `Select`. */
    method SelectProduct(product: Product) returns (outcome: Outcome<VendError>)
      modifies this`currentState, this`selectedProduct
      ensures (Snapshot(), outcome) == Select(old(Snapshot()), product)
    {
      if currentState.None? {
        return Fail(NoState);
      }
      if currentState.value == Idle {
        var available := inventory.IsAvailable(product);
        if available {
          selectedProduct := Some(product);
          SetState(Ready);
        }
      }
      return Pass;
    }

    /** `insert_coin`: see `Insert`. */
    method InsertCoin(coin: Coin) returns (outcome: Outcome<VendError>)
      modifies this`currentState, this`totalPayment
      ensures (Snapshot(), outcome) == Insert(old(Snapshot()), CoinValue(coin))
    {
      outcome := InsertMoney(CoinValue(coin));
    }

    /** `insert_note`: see `Insert`. */
    method InsertNote(note: Note) returns (outcome: Outcome<VendError>)
      modifies this`currentState, this`totalPayment
      ensures (Snapshot(), outcome) == Insert(old(Snapshot()), NoteValue(note))
    {
      outcome := InsertMoney(NoteValue(note));
    }

    /** What every state does with inserted money; only the ready state takes it. */
    method InsertMoney(value: int) returns (outcome: Outcome<VendError>)
      modifies this`currentState, this`totalPayment
      ensures (Snapshot(), outcome) == Insert(old(Snapshot()), value)
    {
      if currentState.None? {
        return Fail(NoState);
      }
      if currentState.value != Ready {
        return Pass;
      }
      totalPayment := totalPayment + value;
      outcome := CheckPaymentStatus();
    }

    /** `ReadyState.check_payment_status`: a payment covering the price moves the
        machine on to dispensing. */
    method CheckPaymentStatus() returns (outcome: Outcome<VendError>)
      modifies this`currentState
      ensures selectedProduct.None? ==> outcome == Fail(NoProduct) && currentState == old(currentState)
      ensures selectedProduct.Some? ==>
        outcome == Pass
        && currentState == if totalPayment >= selectedProduct.value.price then Some(Dispense) else old(currentState)
    {
      if selectedProduct.None? {
        return Fail(NoProduct);
      }
      if totalPayment >= selectedProduct.value.price {
        SetState(Dispense);
      }
      return Pass;
    }

    /** `dispense_product`: see `DispenseStep`. */
    method DispenseProduct() returns (outcome: Outcome<VendError>)
      modifies this`currentState, this`totalPayment, inventory
      ensures (Snapshot(), outcome) == DispenseStep(old(Snapshot()))
    {
      if currentState.None? {
        return Fail(NoState);
      }
      if currentState.value != Dispense {
        return Pass;
      }
      var quantity := 0;
      if selectedProduct.Some? {
        quantity := inventory.GetQuantity(selectedProduct.value);
      }
      if quantity > 0 {
        inventory.UpdateQuantity(selectedProduct.value, quantity - 1);
        SetState(ReturnChange);
        return Pass;
      }
      SetState(Ready);
      outcome := ReturnChangeNow();
    }

    /** `return_change`: see `ReturnStep`. */
    method ReturnChangeNow() returns (outcome: Outcome<VendError>)
      modifies this`currentState, this`totalPayment
      ensures (Snapshot(), outcome) == ReturnStep(old(Snapshot()))
    {
      if currentState.None? {
        return Fail(NoState);
      }
      if currentState.value == Ready {
        ReadyReturnChange();
        return Pass;
      }
      if currentState.value != ReturnChange {
        return Pass;
      }
      if selectedProduct.None? {
        return Fail(NoProduct);
      }
      totalPayment := 0;
      ResetSelectedProduct();
      SetState(Idle);
      return Pass;
    }

    /** `ReadyState.return_change`: see `ReturnFromReady`. */
    method ReadyReturnChange()
      modifies this`currentState, this`totalPayment
      ensures Snapshot() == ReturnFromReady(old(Snapshot()))
    {
      if totalPayment > 0 {
        totalPayment := 0;
      }
      SetState(Idle);
      ResetSelectedProduct();
    }
  }
}
