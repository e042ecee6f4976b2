/**
  Pizza shop, as in lld/python/practice/pizza-shop.py.

  An order moves through its states (new, payment pending, in preparation, ready
  for delivery, delivered, cancelled) and notifies its observers after each
  `process_order` and `cancel_order`. Unlike lld/python/solutions/pizza-shop.py,
  every pizza starts with an empty toppings list and preparing an order goes
  straight to ready for delivery, without a kitchen. Pizzas come from a factory of
  two predefined kinds or from a builder, both behind a shop.
  Prices and costs (floating point), printing and the payment amount are not
  modelled; every payment strategy approves, so paying succeeds exactly when a
  strategy is set.
*/
module PizzaPractice {
  import opened Common

  datatype PizzaSize = Small | Medium | Large

  datatype PizzaBase = Thin | Thick | GlutenFree

  datatype Topping = Cheese | Pepperoni | Mushrooms | Olives | Anchovies

  datatype PaymentStrategy = CreditCardPayment | CashPayment | PayPalPayment

  /** The `ValueError` raised by the factory. */
  datatype PizzaError = InvalidPizzaType

  datatype OrderState = NewOrder | PaymentPending | InPreparation | ReadyForDelivery | Delivered | Cancelled

  class Pizza {
    const name: string
    /** In cents. */
    const basePrice: int
    var size: PizzaSize
    var base: PizzaBase
    var toppings: seq<Topping>

    /** A new pizza is medium, on a thick base, with no toppings. */
    constructor (name: string, basePrice: int)
      ensures this.name == name && this.basePrice == basePrice
      ensures size == Medium && base == Thick && toppings == []
    {
      this.name := name;
      this.basePrice := basePrice;
      size := Medium;
      base := Thick;
      toppings := [];
    }
  }

  // ---------------------------------------------------------------- order states

  /** `process_order` in state `s`, given whether a payment strategy is set. */
  function Process(s: OrderState, strategySet: bool): OrderState
  {
    match s
    case NewOrder => PaymentPending
    case PaymentPending => if strategySet then InPreparation else Cancelled
    case InPreparation => ReadyForDelivery
    case ReadyForDelivery => Delivered
    case Delivered => s
    case Cancelled => s
  }

  /** `cancel_order` in state `s`. */
  function Cancel(s: OrderState): OrderState
  {
    match s
    case NewOrder => Cancelled
    case PaymentPending => Cancelled
    case InPreparation => Cancelled
    case ReadyForDelivery => s
    case Delivered => s
    case Cancelled => s
  }

  /** The position of a state along the order's lifecycle. */
  function Stage(s: OrderState): nat
  {
    match s
    case NewOrder => 0
    case PaymentPending => 1
    case InPreparation => 2
    case ReadyForDelivery => 3
    case Delivered => 4
    case Cancelled => 4
  }

  /** Orders only move forward: delivered and cancelled orders never change, every
      other state is left by processing, cancelling works up to and including
      preparation and never later, and only an unpaid order is cancelled by
      processing. */
  lemma OrderLifecycle(s: OrderState, strategySet: bool)
    ensures Stage(Process(s, strategySet)) >= Stage(s) && Stage(Cancel(s)) >= Stage(s)
    ensures s == Delivered || s == Cancelled <==> Process(s, strategySet) == s
    ensures s == Delivered || s == Cancelled ==> Cancel(s) == s
    ensures Cancel(s) == Cancelled <==> s != ReadyForDelivery && s != Delivered
    ensures Process(s, strategySet) == Cancelled && s != Cancelled <==>
      s == PaymentPending && !strategySet
  {
  }

  /** The sequence of states a run of `process_order` calls goes through. */
  function Run(s: OrderState, strategySet: bool, steps: nat): OrderState
    decreases steps
  {
    if steps == 0 then s else Run(Process(s, strategySet), strategySet, steps - 1)
  }

  /** Four calls take a paid order from new to delivered, and four calls take an
      unpaid one to cancelled; either way the order then stays put. */
  lemma {:induction false} RunEnds(strategySet: bool, extra: nat)
    ensures Run(NewOrder, strategySet, 4 + extra) == if strategySet then Delivered else Cancelled
  {
    var last := if strategySet then Delivered else Cancelled;
    assert Run(NewOrder, strategySet, 4 + extra) == Run(Process(NewOrder, strategySet), strategySet, 3 + extra);
    assert Run(PaymentPending, strategySet, 3 + extra) == Run(Process(PaymentPending, strategySet), strategySet, 2 + extra);
    if strategySet {
      assert Run(InPreparation, strategySet, 2 + extra) == Run(ReadyForDelivery, strategySet, 1 + extra);
      assert Run(ReadyForDelivery, strategySet, 1 + extra) == Run(Delivered, strategySet, extra);
    } else {
      RunStays(Cancelled, strategySet, 2 + extra);
    }
    RunStays(last, strategySet, extra);
  }

  lemma {:induction false} RunStays(s: OrderState, strategySet: bool, steps: nat)
    requires s == Delivered || s == Cancelled
    ensures Run(s, strategySet, steps) == s
  {
    if steps > 0 {
      RunStays(s, strategySet, steps - 1);
    }
  }

  // ---------------------------------------------------------------- orders

  /** What `Customer.update` is told: which observer, and the order's new state. */
  datatype Notice = Notice(observer: string, state: OrderState)

  /** One notice per observer, in order, all carrying the same state. */
  function Notices(observers: seq<string>, s: OrderState): (r: seq<Notice>)
    ensures |r| == |observers|
    ensures forall i :: 0 <= i < |observers| ==> r[i] == Notice(observers[i], s)
  {
    seq(|observers|, i requires 0 <= i < |observers| => Notice(observers[i], s))
  }

  class Order {
    var state: OrderState
    var pizzas: seq<Pizza>
    const customer: string
    /** Observers by name; the customer is the first. */
    var observers: seq<string>
    var paymentStrategy: Option<PaymentStrategy>
    /** Every notification sent so far, oldest first. */
    var notices: seq<Notice>

    /** A new order has no pizzas, no strategy, and the customer as its only
        observer. */
    constructor (customer: string)
      ensures state == NewOrder && pizzas == [] && this.customer == customer
      ensures observers == [customer] && paymentStrategy == None && notices == []
    {
      state := NewOrder;
      pizzas := [];
      this.customer := customer;
      observers := [customer];
      paymentStrategy := None;
      notices := [];
    }

    method Attach(observer: string)
      modifies this`observers
      ensures observers == old(observers) + [observer]
    {
      observers := observers + [observer];
    }

    method AddPizza(pizza: Pizza)
      modifies this`pizzas
      ensures pizzas == old(pizzas) + [pizza]
    {
      pizzas := pizzas + [pizza];
    }

    method SetPaymentStrategy(strategy: PaymentStrategy)
      modifies this`paymentStrategy
      ensures paymentStrategy == Some(strategy)
    {
      paymentStrategy := Some(strategy);
    }

    /** `notify`: every observer is told the current state once, in order. */
    method Notify()
      modifies this`notices
      ensures notices == old(notices) + Notices(observers, state)
    {
      for i := 0 to |observers|
        invariant notices == old(notices) + Notices(observers[..i], state)
      {
        assert Notices(observers[..i + 1], state) == Notices(observers[..i], state) + [Notice(observers[i], state)];
        notices := notices + [Notice(observers[i], state)];
      }
      assert observers[..|observers|] == observers;
    }

    /** `process_payment`: false without a strategy; with one, every strategy pays. */
    method ProcessPayment() returns (paid: bool)
      ensures paid <==> paymentStrategy.Some?
    {
      return paymentStrategy.Some?;
    }

    /** `process_order`: the state moves as `Process` says and the observers are
        notified of the new state. */
    method ProcessOrder()
      modifies this`state, this`notices
      ensures state == Process(old(state), paymentStrategy.Some?)
      ensures notices == old(notices) + Notices(observers, state)
    {
      match state {
        case NewOrder =>
          state := PaymentPending;
        case PaymentPending =>
          var paid := ProcessPayment();
          state := if paid then InPreparation else Cancelled;
        case InPreparation =>
          state := ReadyForDelivery;
        case ReadyForDelivery =>
          state := Delivered;
        case Delivered =>
        case Cancelled =>
      }
      Notify();
    }

    /** `cancel_order`: the state moves as `Cancel` says and the observers are
        notified. */
    method CancelOrder()
      modifies this`state, this`notices
      ensures state == Cancel(old(state))
      ensures notices == old(notices) + Notices(observers, state)
    {
      match state {
        case NewOrder =>
          state := Cancelled;
        case PaymentPending =>
          state := Cancelled;
        case InPreparation =>
          state := Cancelled;
        case ReadyForDelivery =>
        case Delivered =>
        case Cancelled =>
      }
      Notify();
    }
  }

  /** The usage example: an order of two pizzas paid by card is processed four
      times, which delivers it, and the cancellation after that changes nothing;
      the customer hears of every one of the five steps. */
  method Demo() returns (order: Order)
    ensures order.state == Delivered
    ensures order.notices == Notices(["John Doe"], PaymentPending) + Notices(["John Doe"], InPreparation)
      + Notices(["John Doe"], ReadyForDelivery) + Notices(["John Doe"], Delivered)
      + Notices(["John Doe"], Delivered)
  {
    order := new Order("John Doe");
    var margherita := new Pizza("Margherita", 1000);
    margherita.toppings := margherita.toppings + [Cheese, Olives];
    order.AddPizza(margherita);
    var pepperoni := new Pizza("Pepperoni", 1200);
    pepperoni.size := Large;
    pepperoni.toppings := pepperoni.toppings + [Pepperoni];
    order.AddPizza(pepperoni);
    order.SetPaymentStrategy(CreditCardPayment);
    ghost var john := ["John Doe"];
    assert order.observers == john;
    order.ProcessOrder();
    assert order.state == PaymentPending && order.notices == Notices(john, PaymentPending);
    order.ProcessOrder();
    assert order.state == InPreparation;
    order.ProcessOrder();
    assert order.state == ReadyForDelivery;
    order.ProcessOrder();
    assert order.state == Delivered;
    order.CancelOrder();
  }

  // ---------------------------------------------------------------- creating pizzas

  /** `PizzaFactory.create_pizza`: the two known kinds with their toppings; any other
      name raises `ValueError`. */
  method CreatePizza(pizzaType: string) returns (r: Result<Pizza, PizzaError>)
    ensures pizzaType != "MARGHERITA" && pizzaType != "PEPPERONI" <==> r.Err?
    ensures r.Err? ==> r.error == InvalidPizzaType
    ensures r.Ok? ==> fresh(r.value) && r.value.size == Medium && r.value.base == Thick
    ensures pizzaType == "MARGHERITA" ==>
      r.Ok? && r.value.name == "Margherita" && r.value.basePrice == 1000
      && r.value.toppings == [Cheese, Olives]
    ensures pizzaType == "PEPPERONI" ==>
      r.Ok? && r.value.name == "Pepperoni" && r.value.basePrice == 1200
      && r.value.toppings == [Cheese, Pepperoni]
  {
    if pizzaType == "MARGHERITA" {
      var pizza := new Pizza("Margherita", 1000);
      pizza.toppings := [Cheese, Olives];
      return Ok(pizza);
    } else if pizzaType == "PEPPERONI" {
      var pizza := new Pizza("Pepperoni", 1200);
      pizza.toppings := [Cheese, Pepperoni];
      return Ok(pizza);
    }
    return Err(InvalidPizzaType);
  }

  /** `PizzaBuilder`: setters overwrite the size and the base, `add_topping` appends
      to the toppings, and `build` hands out the pizza. */
  class PizzaBuilder {
    const pizza: Pizza

    constructor (name: string, basePrice: int)
      ensures fresh(pizza) && pizza.name == name && pizza.basePrice == basePrice
      ensures pizza.size == Medium && pizza.base == Thick && pizza.toppings == []
    {
      pizza := new Pizza(name, basePrice);
    }

    method SetSize(size: PizzaSize)
      modifies pizza`size
      ensures pizza.size == size
    {
      pizza.size := size;
    }

    method SetBase(base: PizzaBase)
      modifies pizza`base
      ensures pizza.base == base
    {
      pizza.base := base;
    }

    method AddTopping(topping: Topping)
      modifies pizza`toppings
      ensures pizza.toppings == old(pizza.toppings) + [topping]
    {
      pizza.toppings := pizza.toppings + [topping];
    }

    method Build() returns (p: Pizza)
      ensures p == pizza
    {
      return pizza;
    }
  }

  /** `PizzaShop`: predefined pizzas come from the factory, custom ones start a
      builder. */
  class PizzaShop {
    constructor ()
    {
    }

    method OrderPredefined(pizzaType: string) returns (r: Result<Pizza, PizzaError>)
      ensures pizzaType != "MARGHERITA" && pizzaType != "PEPPERONI" <==> r.Err?
      ensures r.Ok? ==>
        fresh(r.value) && r.value.toppings == (if pizzaType == "MARGHERITA" then [Cheese, Olives] else [Cheese, Pepperoni])
    {
      r := CreatePizza(pizzaType);
    }

    method OrderCustom(name: string, basePrice: int) returns (builder: PizzaBuilder)
      ensures fresh(builder) && fresh(builder.pizza)
      ensures builder.pizza.name == name && builder.pizza.basePrice == basePrice
      ensures builder.pizza.size == Medium && builder.pizza.base == Thick && builder.pizza.toppings == []
    {
      builder := new PizzaBuilder(name, basePrice);
    }
  }

  /** The builder usage: a custom pizza ends up with the size and base set on it and
      the toppings added, in order. */
  method VeggieSpecial(shop: PizzaShop) returns (pizza: Pizza)
    ensures fresh(pizza) && pizza.name == "Veggie Special" && pizza.basePrice == 1100
    ensures pizza.size == Medium && pizza.base == Thick && pizza.toppings == [Mushrooms, Olives]
  {
    var builder := shop.OrderCustom("Veggie Special", 1100);
    builder.SetSize(Medium);
    builder.AddTopping(Mushrooms);
    builder.AddTopping(Olives);
    pizza := builder.Build();
  }
}
