/** The event bus screens use to tell each other that expenses, incomes or
    travels changed: a map from event type to the set of subscribed callbacks.
    Callbacks are identified by an id; a set keeps its insertion order, so a
    listener set is a duplicate-free sequence. */
module Events {
  import opened Seqs

  datatype EventType = ExpenseUpdated | IncomeUpdated | TravelUpdated

  type Listener = int

  type Registry = map<EventType, seq<Listener>>

  /** What the provider keeps up: no listener set holds a callback twice, and
      no event type maps to an empty set. */
  predicate WellFormed(reg: Registry) {
    forall t | t in reg :: reg[t] != [] && NoDup(reg[t])
  }

  /** The listeners of `t`, none when `t` has no entry. */
  function ListenersOf(reg: Registry, t: EventType): seq<Listener> {
    if t in reg then reg[t] else []
  }

  /** `subscribeToEvent(t, cb)`: add `cb` to `t`'s set, creating the set when
      absent; adding a callback already there changes nothing. */
  function Subscribe(reg: Registry, t: EventType, cb: Listener): (r: Registry)
    ensures t in r && cb in r[t]
    ensures forall u | u != t :: (u in r <==> u in reg) && (u in reg ==> r[u] == reg[u])
    ensures cb in ListenersOf(reg, t) ==> r == reg[t := ListenersOf(reg, t)]
    ensures cb !in ListenersOf(reg, t) ==> r[t] == ListenersOf(reg, t) + [cb]
  {
    var current := ListenersOf(reg, t);
    reg[t := if cb in current then current else current + [cb]]
  }

  /** Every callback but `cb`. */
  function Other(cb: Listener): Listener -> bool {
    (x: Listener) => x != cb
  }

  /** The closure `subscribeToEvent` returns: remove `cb` from `t`'s set and
      drop the entry once the set is empty; nothing happens when `t` has no
      entry. */
  function Unsubscribe(reg: Registry, t: EventType, cb: Listener): (r: Registry)
    ensures t !in reg ==> r == reg
    ensures t in r ==> cb !in r[t]
    ensures forall u | u != t :: (u in r <==> u in reg) && (u in reg ==> r[u] == reg[u])
    ensures t in reg ==> forall x | x in reg[t] && x != cb :: t in r && x in r[t]
    ensures t in r ==> forall x | x in r[t] :: x in reg[t]
  {
    if t !in reg then reg
    else
      var rest := Filter(reg[t], Other(cb));
      if |rest| == 0 then reg - {t} else reg[t := rest]
  }

  /** Subscribing keeps the registry well formed. */
  lemma SubscribeKeepsWellFormed(reg: Registry, t: EventType, cb: Listener)
    requires WellFormed(reg)
    ensures WellFormed(Subscribe(reg, t, cb))
  {
  }

  /** Unsubscribing keeps the registry well formed: in particular, the entry
      of a set that becomes empty is removed. */
  lemma UnsubscribeKeepsWellFormed(reg: Registry, t: EventType, cb: Listener)
    requires WellFormed(reg)
    ensures WellFormed(Unsubscribe(reg, t, cb))
  {
    if t in reg {
      FilterNoDup(reg[t], Other(cb));
    }
  }

  /** Subscribing the same callback twice leaves a single copy. */
  lemma SubscribeIdempotent(reg: Registry, t: EventType, cb: Listener)
    ensures Subscribe(Subscribe(reg, t, cb), t, cb) == Subscribe(reg, t, cb)
  {
  }

  /** Removing a callback that is not subscribed changes nothing. */
  lemma UnsubscribeAbsent(reg: Registry, t: EventType, cb: Listener)
    requires WellFormed(reg)
    requires cb !in ListenersOf(reg, t)
    ensures Unsubscribe(reg, t, cb) == reg
  {
    if t in reg {
      FilterAllKept(reg[t], Other(cb));
    }
  }

  /** Filtering a new callback out of the set it was just added to gives the
      set back. */
  lemma FilterOutAdded(current: seq<Listener>, cb: Listener)
    requires cb !in current
    ensures Filter(current + [cb], Other(cb)) == current
  {
    FilterAppend(current, [cb], Other(cb));
    FilterAllKept(current, Other(cb));
    assert Filter([cb], Other(cb)) == [];
  }

  /** Subscribing a new callback and calling the closure it returns gives the
      registry back. */
  lemma UnsubscribeUndoesSubscribe(reg: Registry, t: EventType, cb: Listener)
    requires WellFormed(reg)
    requires cb !in ListenersOf(reg, t)
    ensures Unsubscribe(Subscribe(reg, t, cb), t, cb) == reg
  {
    var current := ListenersOf(reg, t);
    var s1 := Subscribe(reg, t, cb);
    FilterOutAdded(current, cb);
    var r := Unsubscribe(s1, t, cb);
    if t in reg {
      assert r == s1[t := current];
    } else {
      assert r == reg;
    }
  }

  /** `triggerEvent(t)`: call every listener of `t` in order; a callback in
      `throwing` raises, which is logged, and the remaining callbacks still
      run. Returns the callbacks called and those whose error was logged. */
  method Trigger(reg: Registry, t: EventType, throwing: set<Listener>) returns (called: seq<Listener>, failed: seq<Listener>)
    requires WellFormed(reg)
    ensures t !in reg ==> called == [] && failed == []
    ensures forall cb :: Count(called, cb) == (if cb in ListenersOf(reg, t) then 1 else 0)
    ensures called == ListenersOf(reg, t)
    ensures failed == Filter(called, (cb: Listener) => cb in throwing)
  {
    var listeners := ListenersOf(reg, t);
    var raises := (cb: Listener) => cb in throwing;
    called, failed := [], [];
    for i := 0 to |listeners|
      invariant called == listeners[..i]
      invariant failed == Filter(called, raises)
    {
      var cb := listeners[i];
      FilterAppend(called, [cb], raises);
      called := called + [cb];
      if cb in throwing {
        failed := failed + [cb];
      }
    }
    assert called == listeners;
    forall cb ensures Count(called, cb) == (if cb in listeners then 1 else 0) {
      NoDupCount(called, cb);
    }
  }
}
