/**
  Pizza shop, as in lld/python/solutions/pizza-shop.py.

  An order moves through its states (new, payment pending, in preparation, ready
  for delivery, delivered, cancelled) and notifies its observers after each
  `process_order` and `cancel_order`. Preparing an order queues a prepare command
  and a bake command per pizza in a kitchen, which runs them first in, first out
  and keeps the completed ones on an undo stack.
  In this copy `Pizza.__init__` never creates the `toppings` attribute: a pizza
  only has toppings once someone assigns the list (the factory does), and reading
  them before raises `AttributeError`. The model keeps that: a pizza's toppings are
  optional, and every step that reads them fails on a pizza without them.
  Prices and costs (floating point), printing and the payment amount are not
  modelled; every payment strategy approves, so paying succeeds exactly when a
  strategy is set.
*/
module PizzaSolutions {
  import opened Common

  datatype PizzaSize = Small | Medium | Large

  datatype PizzaBase = Thin | Thick | GlutenFree

  datatype Topping = Cheese | Pepperoni | Mushrooms | Olives | Anchovies

  datatype PaymentStrategy = CreditCardPayment | CashPayment | PayPalPayment

  datatype PizzaError =
    | MissingToppings    // AttributeError: the pizza has no `toppings` attribute
    | InvalidPizzaType   // ValueError raised by the factory

  datatype OrderState = NewOrder | PaymentPending | InPreparation | ReadyForDelivery | Delivered | Cancelled

  class Pizza {
    const name: string
    /** In cents. */
    const basePrice: int
    var size: PizzaSize
    var base: PizzaBase
    /** None until a list of toppings is assigned. */
    var toppings: Option<seq<Topping>>

    /** A new pizza is medium, on a thick base, and has no toppings attribute. */
    constructor (name: string, basePrice: int)
      ensures this.name == name && this.basePrice == basePrice
      ensures size == Medium && base == Thick && toppings == None
    {
      this.name := name;
      this.basePrice := basePrice;
      size := Medium;
      base := Thick;
      toppings := None;
    }
  }

  /** Every pizza of the list has its toppings attribute. */
  predicate AllTopped(pizzas: seq<Pizza>)
    reads pizzas
  {
    forall i :: 0 <= i < |pizzas| ==> pizzas[i].toppings.Some?
  }

  // ---------------------------------------------------------------- order states

  /** `process_order` in state `s`, given whether a payment strategy is set and
      whether every pizza has toppings: the new state and whether it raised.
      Paying reads the total cost and preparing lists each pizza's toppings, so
      both raise when a pizza has none, and the state then stays as it was. */
  function Process(s: OrderState, strategySet: bool, topped: bool): (OrderState, Outcome<PizzaError>)
  {
    match s
    case NewOrder => (PaymentPending, Pass)
    case PaymentPending =>
      if !strategySet then (Cancelled, Pass)
      else if !topped then (s, Fail(MissingToppings))
      else (InPreparation, Pass)
    case InPreparation =>
      if !topped then (s, Fail(MissingToppings)) else (ReadyForDelivery, Pass)
    case ReadyForDelivery => (Delivered, Pass)
    case Delivered => (s, Pass)
    case Cancelled => (s, Pass)
  }

  /** `cancel_order` in state `s`. */
  function Cancel(s: OrderState): OrderState
  {
    match s
    case NewOrder => Cancelled
    case PaymentPending => Cancelled
    case InPreparation => Cancelled
    case ReadyForDelivery => s
    case Delivered => s
    case Cancelled => s
  }

  /** The position of a state along the order's lifecycle. */
  function Stage(s: OrderState): nat
  {
    match s
    case NewOrder => 0
    case PaymentPending => 1
    case InPreparation => 2
    case ReadyForDelivery => 3
    case Delivered => 4
    case Cancelled => 4
  }

  /** Orders only move forward: delivered and cancelled orders never change, a
      successful step out of any other state changes it, cancelling works up to and
      including preparation and never later, and only an unpaid order is cancelled
      by processing. */
  lemma OrderLifecycle(s: OrderState, strategySet: bool, topped: bool)
    ensures Stage(Process(s, strategySet, topped).0) >= Stage(s) && Stage(Cancel(s)) >= Stage(s)
    ensures s == Delivered || s == Cancelled ==>
      Process(s, strategySet, topped) == (s, Pass) && Cancel(s) == s
    ensures s != Delivered && s != Cancelled && Process(s, strategySet, topped).1.Pass? ==>
      Process(s, strategySet, topped).0 != s
    ensures Cancel(s) == Cancelled <==> s != ReadyForDelivery && s != Delivered
    ensures Process(s, strategySet, topped).0 == Cancelled && s != Cancelled <==>
      s == PaymentPending && !strategySet
    ensures Process(s, strategySet, topped).1.Fail? <==>
      ((s == PaymentPending && strategySet) || s == InPreparation) && !topped
  {
  }

  /** With a strategy set and every pizza topped, four calls of `process_order` take
      a new order to delivered, and cancelling it then does nothing. */
  lemma HappyPath()
    ensures
      var s1 := Process(NewOrder, true, true).0;
      var s2 := Process(s1, true, true).0;
      var s3 := Process(s2, true, true).0;
      var s4 := Process(s3, true, true).0;
      [s1, s2, s3, s4] == [PaymentPending, InPreparation, ReadyForDelivery, Delivered]
      && Cancel(s4) == Delivered
  {
  }

  // ---------------------------------------------------------------- kitchen

  datatype Command = Prepare(pizza: Pizza) | Bake(pizza: Pizza)

  function Pizzas(commands: seq<Command>): set<Pizza>
  {
    set c | c in commands :: c.pizza
  }

  /** Whether running the command succeeds: preparing lists the pizza's toppings. */
  predicate Executes(c: Command)
    reads c.pizza
  {
    !(c.Prepare? && c.pizza.toppings.None?)
  }

  /** How many commands of the queue run before the first one that raises. */
  function Runs(commands: seq<Command>): nat
    reads Pizzas(commands)
  {
    if commands == [] then 0
    else if !Executes(commands[0]) then 0
    else 1 + Runs(commands[1..])
  }

  /** The first `Runs` commands all execute and the one after them does not. */
  lemma {:induction false} RunsSpec(commands: seq<Command>)
    ensures Runs(commands) <= |commands|
    ensures forall i :: 0 <= i < Runs(commands) ==> Executes(commands[i])
    ensures Runs(commands) < |commands| ==> !Executes(commands[Runs(commands)])
  {
    if commands != [] && Executes(commands[0]) {
      RunsSpec(commands[1..]);
      assert forall i :: 0 < i < |commands| ==> commands[i] == commands[1..][i - 1];
    }
  }

  /** The commands `InPreparationState.process_order` queues: prepare then bake, for
      each pizza in order. */
  function Plan(pizzas: seq<Pizza>): seq<Command>
  {
    if pizzas == [] then [] else [Prepare(pizzas[0]), Bake(pizzas[0])] + Plan(pizzas[1..])
  }

  lemma {:induction false} PlanAppend(pizzas: seq<Pizza>, p: Pizza)
    ensures Plan(pizzas + [p]) == Plan(pizzas) + [Prepare(p), Bake(p)]
  {
    if pizzas == [] {
      assert Plan([p]) == [Prepare(p), Bake(p)] + Plan([]);
    } else {
      assert (pizzas + [p])[1..] == pizzas[1..] + [p];
      PlanAppend(pizzas[1..], p);
    }
  }

  /** The whole plan runs exactly when every pizza has toppings. */
  lemma {:induction false} PlanRuns(pizzas: seq<Pizza>)
    ensures |Plan(pizzas)| == 2 * |pizzas|
    ensures Runs(Plan(pizzas)) == |Plan(pizzas)| <==> AllTopped(pizzas)
  {
    if pizzas != [] {
      PlanRuns(pizzas[1..]);
      var rest := Plan(pizzas[1..]);
      assert Plan(pizzas)[1..][1..] == rest;
      assert AllTopped(pizzas) <==> pizzas[0].toppings.Some? && AllTopped(pizzas[1..]) by {
        assert forall i :: 0 < i < |pizzas| ==> pizzas[i] == pizzas[1..][i - 1];
      }
    }
  }

  /** The command invoker: a queue of commands to run and the stack of those run. */
  class Kitchen {
    var commands: seq<Command>
    var completed: seq<Command>

    constructor ()
      ensures commands == [] && completed == []
    {
      commands := [];
      completed := [];
    }

    method AddCommand(command: Command)
      modifies this`commands
      ensures commands == old(commands) + [command]
    {
      commands := commands + [command];
    }

    /** `process_commands`: the queued commands run first in, first out, each moving
        to the completed stack, until the queue is empty or a command raises; the
        command that raised has already left the queue and is not completed. */
    method ProcessCommands() returns (outcome: Outcome<PizzaError>)
      modifies this
      ensures
        var n := old(Runs(commands));
        n <= |old(commands)|
        && completed == old(completed) + old(commands)[..n]
        && commands == (if n == |old(commands)| then [] else old(commands)[n + 1..])
        && outcome == (if n == |old(commands)| then Pass else Fail(MissingToppings))
    {
      RunsSpec(commands);
      ghost var all := commands;
      ghost var i := 0;
      while commands != []
        invariant 0 <= i <= |all| && commands == all[i..]
        invariant completed == old(completed) + all[..i]
        invariant old(Runs(all)) == i + old(Runs(all[i..]))
        decreases |commands|
      {
        var command := commands[0];
        assert old(Runs(all[i..])) == if old(Executes(command)) then 1 + old(Runs(all[i + 1..])) else 0 by {
          assert all[i..][1..] == all[i + 1..];
        }
        commands := commands[1..];
        if command.Prepare? && command.pizza.toppings.None? {
          return Fail(MissingToppings);
        }
        assert all[..i + 1] == all[..i] + [command];
        completed := completed + [command];
        i := i + 1;
      }
      return Pass;
    }

    /** `undo_last`: the most recently completed command is popped, if there is one. */
    method UndoLast() returns (undone: Option<Command>)
      modifies this`completed
      ensures old(completed) == [] ==> undone == None && completed == []
      ensures old(completed) != [] ==>
        undone.Some? && old(completed) == completed + [undone.value]
    {
      if completed == [] {
        return None;
      }
      undone := Some(completed[|completed| - 1]);
      completed := completed[..|completed| - 1];
    }
  }

  // ---------------------------------------------------------------- orders

  /** What `Customer.update` is told: which observer, and the order's new state. */
  datatype Notice = Notice(observer: string, state: OrderState)

  /** One notice per observer, in order, all carrying the same state. */
  function Notices(observers: seq<string>, s: OrderState): (r: seq<Notice>)
    ensures |r| == |observers|
    ensures forall i :: 0 <= i < |observers| ==> r[i] == Notice(observers[i], s)
  {
    seq(|observers|, i requires 0 <= i < |observers| => Notice(observers[i], s))
  }

  class Order {
    var state: OrderState
    var pizzas: seq<Pizza>
    const customer: string
    /** Observers by name; the customer is the first. */
    var observers: seq<string>
    var paymentStrategy: Option<PaymentStrategy>
    /** Every notification sent so far, oldest first. */
    var notices: seq<Notice>

    /** A new order has no pizzas, no strategy, and the customer as its only
        observer. */
    constructor (customer: string)
      ensures state == NewOrder && pizzas == [] && this.customer == customer
      ensures observers == [customer] && paymentStrategy == None && notices == []
    {
      state := NewOrder;
      pizzas := [];
      this.customer := customer;
      observers := [customer];
      paymentStrategy := None;
      notices := [];
    }

    method Attach(observer: string)
      modifies this`observers
      ensures observers == old(observers) + [observer]
    {
      observers := observers + [observer];
    }

    method AddPizza(pizza: Pizza)
      modifies this`pizzas
      ensures pizzas == old(pizzas) + [pizza]
    {
      pizzas := pizzas + [pizza];
    }

    method SetPaymentStrategy(strategy: PaymentStrategy)
      modifies this`paymentStrategy
      ensures paymentStrategy == Some(strategy)
    {
      paymentStrategy := Some(strategy);
    }

    /** `notify`: every observer is told the current state once, in order. */
    method Notify()
      modifies this`notices
      ensures notices == old(notices) + Notices(observers, state)
    {
      for i := 0 to |observers|
        invariant notices == old(notices) + Notices(observers[..i], state)
      {
        assert Notices(observers[..i + 1], state) == Notices(observers[..i], state) + [Notice(observers[i], state)];
        notices := notices + [Notice(observers[i], state)];
      }
      assert observers[..|observers|] == observers;
    }

    /** `process_payment`: false without a strategy; with one, the total cost is
        read (which raises on a pizza without toppings) and paid, and every
        strategy approves. */
    method ProcessPayment() returns (r: Result<bool, PizzaError>)
      ensures paymentStrategy.None? ==> r == Ok(false)
      ensures paymentStrategy.Some? ==> r == if AllTopped(pizzas) then Ok(true) else Err(MissingToppings)
    {
      if paymentStrategy.None? {
        return Ok(false);
      }
      if !AllTopped(pizzas) {
        return Err(MissingToppings);
      }
      return Ok(true);
    }

    /** `InPreparationState.process_order` up to the state change: a fresh kitchen
        is given the plan for the pizzas and runs it. */
    method Cook() returns (outcome: Outcome<PizzaError>)
      ensures outcome == if AllTopped(pizzas) then Pass else Fail(MissingToppings)
    {
      var kitchen := new Kitchen();
      for i := 0 to |pizzas|
        invariant kitchen.commands == Plan(pizzas[..i])
      {
        PlanAppend(pizzas[..i], pizzas[i]);
        assert pizzas[..i + 1] == pizzas[..i] + [pizzas[i]];
        kitchen.AddCommand(Prepare(pizzas[i]));
        kitchen.AddCommand(Bake(pizzas[i]));
      }
      assert pizzas[..|pizzas|] == pizzas;
      PlanRuns(pizzas);
      outcome := kitchen.ProcessCommands();
    }

    /** `process_order`: the state moves as `Process` says and, unless that raised,
        the observers are notified of the new state. */
    method ProcessOrder() returns (outcome: Outcome<PizzaError>)
      modifies this`state, this`notices
      ensures (state, outcome) == Process(old(state), paymentStrategy.Some?, AllTopped(pizzas))
      ensures notices == old(notices) + if outcome.Pass? then Notices(observers, state) else []
    {
      match state {
        case NewOrder =>
          state := PaymentPending;
        case PaymentPending =>
          var paid := ProcessPayment();
          if paid.Err? {
            return Fail(paid.error);
          }
          state := if paid.value then InPreparation else Cancelled;
        case InPreparation =>
          var prepared := Cook();
          if prepared.Fail? {
            return prepared;
          }
          state := ReadyForDelivery;
        case ReadyForDelivery =>
          state := Delivered;
        case Delivered =>
        case Cancelled =>
      }
      Notify();
      return Pass;
    }

    /** `cancel_order`: the state moves as `Cancel` says and the observers are
        notified. */
    method CancelOrder()
      modifies this`state, this`notices
      ensures state == Cancel(old(state))
      ensures notices == old(notices) + Notices(observers, state)
    {
      match state {
        case NewOrder =>
          state := Cancelled;
        case PaymentPending =>
          state := Cancelled;
        case InPreparation =>
          state := Cancelled;
        case ReadyForDelivery =>
        case Delivered =>
        case Cancelled =>
      }
      Notify();
    }
  }

  // ---------------------------------------------------------------- creating pizzas

  /** `PizzaFactory.create_pizza`: the two known kinds with their toppings; any other
      name raises `ValueError`. */
  method CreatePizza(pizzaType: string) returns (r: Result<Pizza, PizzaError>)
    ensures pizzaType != "MARGHERITA" && pizzaType != "PEPPERONI" <==> r.Err?
    ensures r.Err? ==> r.error == InvalidPizzaType
    ensures r.Ok? ==> fresh(r.value) && r.value.size == Medium && r.value.base == Thick
    ensures pizzaType == "MARGHERITA" ==>
      r.Ok? && r.value.name == "Margherita" && r.value.basePrice == 1000
      && r.value.toppings == Some([Cheese, Olives])
    ensures pizzaType == "PEPPERONI" ==>
      r.Ok? && r.value.name == "Pepperoni" && r.value.basePrice == 1200
      && r.value.toppings == Some([Cheese, Pepperoni])
  {
    if pizzaType == "MARGHERITA" {
      var pizza := new Pizza("Margherita", 1000);
      pizza.toppings := Some([Cheese, Olives]);
      return Ok(pizza);
    } else if pizzaType == "PEPPERONI" {
      var pizza := new Pizza("Pepperoni", 1200);
      pizza.toppings := Some([Cheese, Pepperoni]);
      return Ok(pizza);
    }
    return Err(InvalidPizzaType);
  }

  /** `PizzaBuilder`: setters overwrite the size and the base; `add_topping` appends
      to the toppings list, which a pizza built this way never has, so it raises. */
  class PizzaBuilder {
    const pizza: Pizza

    constructor (name: string, basePrice: int)
      ensures fresh(pizza) && pizza.name == name && pizza.basePrice == basePrice
      ensures pizza.size == Medium && pizza.base == Thick && pizza.toppings == None
    {
      pizza := new Pizza(name, basePrice);
    }

    method SetSize(size: PizzaSize)
      modifies pizza`size
      ensures pizza.size == size
    {
      pizza.size := size;
    }

    method SetBase(base: PizzaBase)
      modifies pizza`base
      ensures pizza.base == base
    {
      pizza.base := base;
    }

    method AddTopping(topping: Topping) returns (outcome: Outcome<PizzaError>)
      modifies pizza`toppings
      ensures old(pizza.toppings).None? ==> outcome == Fail(MissingToppings) && pizza.toppings == None
      ensures old(pizza.toppings).Some? ==>
        outcome == Pass && pizza.toppings == Some(old(pizza.toppings).value + [topping])
    {
      if pizza.toppings.None? {
        return Fail(MissingToppings);
      }
      pizza.toppings := Some(pizza.toppings.value + [topping]);
      return Pass;
    }

    method Build() returns (p: Pizza)
      ensures p == pizza
    {
      return pizza;
    }
  }

  /** The builder usage after the factory: the first `add_topping` on a freshly
      built pizza raises. */
  method CustomPizza() returns (outcome: Outcome<PizzaError>)
    ensures outcome == Fail(MissingToppings)
  {
    var builder := new PizzaBuilder("Custom", 900);
    builder.SetSize(Large);
    builder.SetBase(GlutenFree);
    outcome := builder.AddTopping(Mushrooms);
  }
}
