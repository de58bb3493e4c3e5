/**
 The loco functions of one row: momentary and latching buttons, and the FIFO of changes
 that the send threads drain. `Table` is the value a FunctionProcessing object stands for.
 */
module Functions {
  datatype FunctionState = FunctionState(number: int, isOn: bool)

  datatype Known = Known(pressed: bool, isMomentary: bool, on: bool)

  datatype Table = Table(known: map<int, Known>, queue: seq<FunctionState>)

  const EMPTY := Table(map[], [])

  /** A function that nobody mentioned yet is released, latching and off. */
  function Get(t: Table, n: int): Known {
    if n in t.known then t.known[n] else Known(false, false, false)
  }

  predicate On(t: Table, n: int) {
    Get(t, n).on
  }

  function Put(t: Table, n: int, k: Known): Table {
    t.(known := t.known[n := k])
  }

  lemma PutTwice(t: Table, n: int, k0: Known, k: Known)
    ensures Put(Put(t, n, k0), n, k) == Put(t, n, k)
  {
    assert Put(Put(t, n, k0), n, k).known == Put(t, n, k).known;
  }

  function SetNewState(t: Table, n: int, on: bool): Table {
    Put(t, n, Get(t, n).(on := on)).(queue := t.queue + [FunctionState(n, on)])
  }

  function InitializeAll(t: Table, states: seq<FunctionState>): Table {
    if states == [] then t
    else
      var rest := states[..|states| - 1];
      var last := states[|states| - 1];
      var t1 := InitializeAll(t, rest);
      Put(t1, last.number, Get(t1, last.number).(on := last.isOn))
  }

  datatype Event =
    | Key(number: int, pressed: bool)
    | Configure(number: int, momentary: bool)
    | Force(number: int, on: bool)
    | Initialize(states: seq<FunctionState>)
    | Dequeue

  /** A momentary function follows its button; a latching one toggles when pressed. */
  function ApplyKey(t: Table, n: int, pressed: bool): Table {
    var k := Get(t, n);
    if k.isMomentary then
      Table(t.known[n := Known(pressed, true, pressed)], t.queue + [FunctionState(n, pressed)])
    else if pressed then
      Table(t.known[n := Known(true, false, !k.on)], t.queue + [FunctionState(n, !k.on)])
    else
      Put(t, n, k.(pressed := false))
  }

  function Apply(t: Table, e: Event): Table {
    match e
    case Key(n, pressed) => ApplyKey(t, n, pressed)
    case Configure(n, momentary) => Put(t, n, Get(t, n).(isMomentary := momentary))
    case Force(n, on) => SetNewState(t, n, on)
    case Initialize(states) => InitializeAll(t, states)
    case Dequeue => if t.queue == [] then t else t.(queue := t.queue[1..])
  }

  function Run(t: Table, es: seq<Event>): Table {
    if es == [] then t else Apply(Run(t, es[..|es| - 1]), es[|es| - 1])
  }

  // ----- What a run must amount to -----

  /** The change, if any, that one event asks the command stations to make. */
  function ChangeOf(t: Table, e: Event): seq<FunctionState> {
    match e
    case Key(n, pressed) =>
      if Get(t, n).isMomentary then [FunctionState(n, pressed)]
      else if pressed then [FunctionState(n, !On(t, n))]
      else []
    case Force(n, on) => [FunctionState(n, on)]
    case _ => []
  }

  function Changes(t: Table, es: seq<Event>): seq<FunctionState> {
    if es == [] then []
    else
      var before := es[..|es| - 1];
      Changes(t, before) + ChangeOf(Run(t, before), es[|es| - 1])
  }

  /** The entry that one event takes out of the queue. */
  function TakenBy(t: Table, e: Event): seq<FunctionState> {
    if e.Dequeue? && t.queue != [] then [t.queue[0]] else []
  }

  /** Entries that the Dequeue events of a run hand out, in order. */
  function Taken(t: Table, es: seq<Event>): seq<FunctionState> {
    if es == [] then []
    else
      var before := es[..|es| - 1];
      Taken(t, before) + TakenBy(Run(t, before), es[|es| - 1])
  }

  /** What one event does to the states of functions: a change, or what the command station told us. */
  function WritesOf(t: Table, e: Event): seq<FunctionState> {
    if e.Initialize? then e.states else ChangeOf(t, e)
  }

  function Writes(t: Table, es: seq<Event>): seq<FunctionState> {
    if es == [] then []
    else
      var before := es[..|es| - 1];
      Writes(t, before) + WritesOf(Run(t, before), es[|es| - 1])
  }

  function LastWrite(ws: seq<FunctionState>, n: int, initial: bool): bool {
    if ws == [] then initial
    else if ws[|ws| - 1].number == n then ws[|ws| - 1].isOn
    else LastWrite(ws[..|ws| - 1], n, initial)
  }

  lemma {:induction false} InitializeWrites(t: Table, states: seq<FunctionState>, n: int)
    ensures On(InitializeAll(t, states), n) == LastWrite(states, n, On(t, n))
    ensures Get(InitializeAll(t, states), n).isMomentary == Get(t, n).isMomentary
    ensures InitializeAll(t, states).queue == t.queue
    ensures (forall s :: s in states ==> s.number != n) ==> Get(InitializeAll(t, states), n) == Get(t, n)
  {
    if states != [] {
      InitializeWrites(t, states[..|states| - 1], n);
    }
  }

  lemma {:induction false} LastWriteOfConcat(a: seq<FunctionState>, b: seq<FunctionState>, n: int, initial: bool)
    ensures LastWrite(a + b, n, initial) == LastWrite(b, n, LastWrite(a, n, initial))
  {
    if b == [] {
      assert a + b == a;
    } else {
      LastWriteOfConcat(a, b[..|b| - 1], n, initial);
      assert (a + b)[..|a + b| - 1] == a + b[..|b| - 1];
    }
  }

  /** Some of these entries are for function n. */
  predicate Mentions(ws: seq<FunctionState>, n: int) {
    exists k :: 0 <= k < |ws| && ws[k].number == n
  }

  /** Entries make two starting states of a function the same exactly when one of them is for this function. */
  lemma {:induction false} StartMattersUnlessMentioned(ws: seq<FunctionState>, n: int, x: bool, y: bool)
    ensures LastWrite(ws, n, x) == LastWrite(ws, n, y) <==> x == y || Mentions(ws, n)
  {
    if ws != [] {
      var less, last := ws[..|ws| - 1], |ws| - 1;
      StartMattersUnlessMentioned(less, n, x, y);
      if ws[last].number == n {
        assert Mentions(ws, n);
      } else {
        assert Mentions(ws, n) ==> Mentions(less, n) by {
          if Mentions(ws, n) {
            var k :| 0 <= k < |ws| && ws[k].number == n;
            assert less[k].number == n;
          }
        }
        if Mentions(less, n) {
          var k :| 0 <= k < |less| && less[k].number == n;
          assert ws[k].number == n;
        }
      }
    }
  }

  lemma StepIsFifo(t: Table, e: Event)
    ensures TakenBy(t, e) + Apply(t, e).queue == t.queue + ChangeOf(t, e)
  {
    if e.Initialize? { InitializeWrites(t, e.states, 0); }
  }

  /** No change is lost, duplicated or reordered on its way through the queue. */
  lemma {:induction false} QueueIsFifo(t: Table, es: seq<Event>)
    ensures Taken(t, es) + Run(t, es).queue == t.queue + Changes(t, es)
  {
    if es == [] {
    } else {
      var before, e := es[..|es| - 1], es[|es| - 1];
      var t1 := Run(t, before);
      QueueIsFifo(t, before);
      StepIsFifo(t1, e);
      Splice(Taken(t, before), TakenBy(t1, e), Apply(t1, e).queue, t1.queue, ChangeOf(t1, e), t.queue,
             Changes(t, before));
    }
  }

  lemma Splice<T>(a: seq<T>, b: seq<T>, c: seq<T>, q: seq<T>, d: seq<T>, x: seq<T>, y: seq<T>)
    requires a + q == x + y && b + c == q + d
    ensures (a + b) + c == x + (y + d)
  {
    assert (a + b) + c == a + (b + c);
    assert a + (q + d) == (a + q) + d;
    assert (x + y) + d == x + (y + d);
  }

  lemma {:induction false} TableInTwoParts(t: Table, a: seq<Event>, b: seq<Event>)
    ensures Run(t, a + b) == Run(Run(t, a), b)
  {
    hide Apply;
    if b == [] {
      assert a + b == a;
    } else {
      TableInTwoParts(t, a, b[..|b| - 1]);
      assert (a + b)[..|a + b| - 1] == a + b[..|b| - 1];
    }
  }

  /** A run in two parts asks for the changes of the first part and then for those of the second. */
  lemma {:induction false} RunInTwoParts(t: Table, a: seq<Event>, b: seq<Event>)
    ensures Run(t, a + b) == Run(Run(t, a), b)
    ensures Changes(t, a + b) == Changes(t, a) + Changes(Run(t, a), b)
  {
    hide Apply, ChangeOf, Run;
    TableInTwoParts(t, a, b);
    if b == [] {
      assert a + b == a;
    } else {
      var less, e := b[..|b| - 1], b[|b| - 1];
      assert (a + b)[..|a + b| - 1] == a + less;
      RunInTwoParts(t, a, less);
      var last := ChangeOf(Run(t, a + less), e);
      assert Changes(t, a + b) == Changes(t, a + less) + last;
      assert Changes(Run(t, a), b) == Changes(Run(t, a), less) + last;
    }
  }

  lemma StepWrites(t: Table, e: Event, n: int)
    ensures On(Apply(t, e), n) == LastWrite(WritesOf(t, e), n, On(t, n))
  {
    if e.Initialize? {
      InitializeWrites(t, e.states, n);
    } else {
      var ws := ChangeOf(t, e);
      if ws != [] { assert ws[..|ws| - 1] == []; }
    }
  }

  /** A function is in the state of its last change or command-station report. */
  lemma {:induction false} LastWriteWins(t: Table, es: seq<Event>, n: int)
    ensures On(Run(t, es), n) == LastWrite(Writes(t, es), n, On(t, n))
  {
    if es != [] {
      var before, e := es[..|es| - 1], es[|es| - 1];
      LastWriteWins(t, before, n);
      StepWrites(Run(t, before), e, n);
      LastWriteOfConcat(Writes(t, before), WritesOf(Run(t, before), e), n, On(t, n));
    }
  }

  /** The event is no command, other than a button event, for function n. */
  predicate LeavesToButtons(e: Event, n: int) {
    match e
    case Key(_, _) => true
    case Configure(m, _) => m != n
    case Force(m, _) => m != n
    case Initialize(states) => forall s :: s in states ==> s.number != n
    case Dequeue => true
  }

  predicate OnlyKeys(es: seq<Event>, n: int) {
    forall i :: 0 <= i < |es| ==> LeavesToButtons(es[i], n)
  }

  function Presses(es: seq<Event>, n: int): nat {
    if es == [] then 0
    else Presses(es[..|es| - 1], n) + if es[|es| - 1] == Key(n, true) then 1 else 0
  }

  function LastButton(es: seq<Event>, n: int, initial: bool): bool {
    if es == [] then initial
    else if es[|es| - 1].Key? && es[|es| - 1].number == n then es[|es| - 1].pressed
    else LastButton(es[..|es| - 1], n, initial)
  }

  lemma ButtonStep(t: Table, e: Event, n: int)
    requires LeavesToButtons(e, n)
    ensures var k, k' := Get(t, n), Get(Apply(t, e), n);
            && k'.isMomentary == k.isMomentary
            && (e.Key? && e.number == n ==>
                  k' == Known(e.pressed, k.isMomentary, if k.isMomentary then e.pressed else k.on != e.pressed))
            && (!(e.Key? && e.number == n) ==> k' == k)
  {
    if e.Initialize? { InitializeWrites(t, e.states, n); }
  }

  /** A latching function toggles on every press; a momentary one follows its button. */
  lemma {:induction false} ButtonsDecide(t: Table, es: seq<Event>, n: int)
    requires OnlyKeys(es, n)
    ensures Get(Run(t, es), n).isMomentary == Get(t, n).isMomentary
    ensures !Get(t, n).isMomentary ==> On(Run(t, es), n) == (On(t, n) != (Presses(es, n) % 2 == 1))
    ensures Get(t, n).isMomentary ==> On(Run(t, es), n) == LastButton(es, n, On(t, n))
    ensures Get(Run(t, es), n).pressed == LastButton(es, n, Get(t, n).pressed)
  {
    if es != [] {
      var before, e := es[..|es| - 1], es[|es| - 1];
      ButtonsDecide(t, before, n);
      ButtonStep(Run(t, before), e, n);
    }
  }

  /** Configuring sets how one function reacts to its button, and nothing else. */
  lemma ConfigureSetsKind(t: Table, n: int, momentary: bool, m: int)
    ensures var t1 := Apply(t, Configure(n, momentary));
            && Get(t1, n).isMomentary == momentary && On(t1, n) == On(t, n) && Get(t1, n).pressed == Get(t, n).pressed
            && (m != n ==> Get(t1, m) == Get(t, m)) && t1.queue == t.queue
  {
  }

  /** After it, until configured or forced again, a momentary function follows its button and any other toggles. */
  lemma ConfiguredButtons(t: Table, n: int, momentary: bool, es: seq<Event>)
    requires OnlyKeys(es, n)
    ensures On(Run(Apply(t, Configure(n, momentary)), es), n)
         == if momentary then LastButton(es, n, On(t, n)) else On(t, n) != (Presses(es, n) % 2 == 1)
  {
    ConfigureSetsKind(t, n, momentary, n);
    ButtonsDecide(Apply(t, Configure(n, momentary)), es, n);
  }

  /** A function that nobody mentioned yet is off, and toggles. */
  lemma UnknownFunctionToggles(t: Table, n: int, es: seq<Event>)
    requires n !in t.known && OnlyKeys(es, n)
    ensures On(Run(t, es), n) == (Presses(es, n) % 2 == 1)
  {
    ButtonsDecide(t, es, n);
  }

  /** Every change is queued as it is made, and forcing or pressing changes one function. */
  lemma ChangesAreQueued(t: Table, n: int, on: bool)
    ensures var t1 := Apply(t, Force(n, on));
            On(t1, n) == on && t1.queue == t.queue + [FunctionState(n, on)]
    ensures var t1 := Apply(t, Key(n, on));
            t1.queue == t.queue + if Get(t, n).isMomentary || on then [FunctionState(n, On(t1, n))] else []
  {
  }

  // ----- The objects -----

  class KnownFunction {
    const number: int
    var pressed: bool
    var isMomentary: bool
    var on: bool

    constructor (number: int)
      ensures this.number == number && !pressed && !isMomentary && !on
    {
      this.number := number;
      pressed, isMomentary, on := false, false, false;
    }

    ghost function Abs(): Known reads this { Known(pressed, isMomentary, on) }
  }

  class FunctionProcessing {
    var known: map<int, KnownFunction>
    var queue: seq<FunctionState>
    ghost var table: Table  // the value this object stands for

    ghost predicate Valid()
      reads this, known.Values
      ensures Valid() ==> QueueInStep()
    {
      && (forall n :: n in known ==> known[n].number == n)
      && table == Image()
    }

    /** The part of Valid that the send threads rely on. */
    ghost predicate QueueInStep() reads this {
      table.queue == queue
    }

    ghost function Image(): Table reads this, known.Values {
      Table(map n | n in known :: known[n].Abs(), queue)
    }

    /** When only f changed since `before`, so did only f's entry. */
    lemma OnlyOneChanged(before: Table, f: KnownFunction)
      requires f.number in known && known[f.number] == f
      requires forall n :: n in known ==> known[n].number == n
      requires known.Keys == before.known.Keys
      requires forall n :: n in known && known[n] != f ==> known[n].Abs() == before.known[n]
      ensures Image().known == before.known[f.number := f.Abs()]
    {
      forall n | n in known && n != f.number ensures Image().known[n] == before.known[n] {
        assert known[n].number == n;
      }
    }

    constructor ()
      ensures Valid() && table == EMPTY
      ensures known == map[]
    {
      known, queue, table := map[], [], EMPTY;
    }

    method SetFunctionKey(number: int, newButtonState: bool)
      requires Valid()
      modifies this, known.Values
      ensures Valid() && fresh(known.Values - old(known.Values))
      ensures table == Apply(old(table), Key(number, newButtonState))
    {
      var f := PerformFunctionProcessing(number);
      ghost var k0, table0 := f.Abs(), table;
      if f.isMomentary {
        SetState(f, newButtonState);
      } else if newButtonState {
        SetState(f, !f.on);
      }
      ghost var k1 := f.Abs();
      assert table.known == Put(table0, number, k1).known;
      Write(f, newButtonState, f.isMomentary, f.on);
      PutTwice(table0, number, k1, f.Abs());
      PutTwice(old(table), number, k0, f.Abs());
    }

    method SetMomentaryFunction(number: int, newMomentaryConfig: bool)
      requires Valid()
      modifies this, known.Values
      ensures Valid() && fresh(known.Values - old(known.Values))
      ensures table == Apply(old(table), Configure(number, newMomentaryConfig))
    {
      var f := PerformFunctionProcessing(number);
      PutTwice(old(table), number, f.Abs(), f.Abs().(isMomentary := newMomentaryConfig));
      Write(f, f.pressed, newMomentaryConfig, f.on);
    }

    method InitializeFromCommandStation(fromSlot: seq<FunctionState>)
      requires Valid()
      modifies this, known.Values
      ensures Valid() && fresh(known.Values - old(known.Values))
      ensures table == Apply(old(table), Initialize(fromSlot))
    {
      var i := 0;
      while i < |fromSlot|
        invariant i <= |fromSlot|
        invariant Valid() && fresh(known.Values - old(known.Values))
        invariant table == InitializeAll(old(table), fromSlot[..i])
      {
        ghost var before := table;
        var f := PerformFunctionProcessing(fromSlot[i].number);
        PutTwice(before, f.number, f.Abs(), f.Abs().(on := fromSlot[i].isOn));
        Write(f, f.pressed, f.isMomentary, fromSlot[i].isOn);
        assert fromSlot[..i + 1][..i] == fromSlot[..i];
        i := i + 1;
      }
      assert fromSlot[..i] == fromSlot;
    }

    method ForceFunction(number: int, newFunctionState: bool)
      requires Valid()
      modifies this, known.Values
      ensures Valid() && fresh(known.Values - old(known.Values))
      ensures table == Apply(old(table), Force(number, newFunctionState))
    {
      var f := PerformFunctionProcessing(number);
      PutTwice(old(table), number, f.Abs(), f.Abs().(on := newFunctionState));
      SetState(f, newFunctionState);
    }

    method SetState(f: KnownFunction, newState: bool)
      requires Valid() && f.number in known && known[f.number] == f
      modifies this`queue, this`table, f
      ensures Valid()
      ensures table == SetNewState(old(table), f.number, newState)
      ensures f.Abs() == old(f.Abs()).(on := newState)
    {
      f.on := newState;
      OnlyOneChanged(old(table), f);
      queue := queue + [FunctionState(f.number, f.on)];
      table := Image();
    }

    /** Assigns the fields of one function. */
    method Write(f: KnownFunction, pressed: bool, isMomentary: bool, on: bool)
      requires Valid() && f.number in known && known[f.number] == f
      modifies this`table, f
      ensures Valid() && f.Abs() == Known(pressed, isMomentary, on)
      ensures table == Put(old(table), f.number, Known(pressed, isMomentary, on))
    {
      f.pressed, f.isMomentary, f.on := pressed, isMomentary, on;
      OnlyOneChanged(old(table), f);
      table := Image();
    }

    /** Finds the function of this number, creating it on first use. */
    method PerformFunctionProcessing(number: int) returns (f: KnownFunction)
      requires Valid()
      modifies this`known, this`table
      ensures Valid() && fresh(known.Values - old(known.Values))
      ensures f.number == number && number in known && known[number] == f
      ensures table == Put(old(table), number, Get(old(table), number))
      ensures f.Abs() == Get(old(table), number)
    {
      if number in known {
        f := known[number];
      } else {
        f := new KnownFunction(number);
        known := known[number := f];
        table := Image();
      }
    }

    method TryDequeue() returns (found: bool, state: FunctionState)
      requires QueueInStep()
      modifies this`queue, this`table
      ensures QueueInStep() && (old(Valid()) ==> Valid())
      ensures table == Apply(old(table), Dequeue)
      ensures found == (old(queue) != [])
      ensures found ==> state == old(queue)[0]
    {
      found := queue != [];
      if found {
        state := queue[0];
        queue := queue[1..];
        table := table.(queue := queue);
      } else {
        state := FunctionState(0, false);
      }
    }
  }
}
