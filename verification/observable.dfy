/** Observable values: a value with an ordered list of watchers that are told about every
    assignment, the property that adds an id, an initial value and a writable flag, and the
    date property that asks a validator first. Watchers are identified by number and what
    they are told is kept as a log of deliveries. */
module Observable {
  import opened Wrappers

  /** The `trigger` of an event: whoever caused the change, or null. */
  type Trigger = Option<nat>

  datatype ObservableEvent<T> = ObservableEvent(oldValue: T, newValue: T, trigger: Trigger)

  /** One call of one watcher with one event. */
  datatype Delivery<T> = Delivery(watcher: nat, event: ObservableEvent<T>)

  /** What `firePropertyChanged` does: every watcher in registration order gets the event. */
  function Deliveries<T>(watchers: seq<nat>, evt: ObservableEvent<T>): (ds: seq<Delivery<T>>)
    ensures |ds| == |watchers|
    ensures forall i :: 0 <= i < |watchers| ==> ds[i] == Delivery(watchers[i], evt)
  {
    if watchers == [] then [] else [Delivery(watchers[0], evt)] + Deliveries(watchers[1..], evt)
  }

  /** Deliveries to a list of watchers are the deliveries to its parts, in order. */
  lemma {:induction false} DeliveriesAppend<T>(ws1: seq<nat>, ws2: seq<nat>, evt: ObservableEvent<T>)
    ensures Deliveries(ws1 + ws2, evt) == Deliveries(ws1, evt) + Deliveries(ws2, evt)
  {
    if ws1 != [] {
      assert (ws1 + ws2)[1..] == ws1[1..] + ws2;
      DeliveriesAppend(ws1[1..], ws2, evt);
    }
  }

  /** How many times watcher `w` is in the list, and so how many calls it gets. */
  function Occurrences(ws: seq<nat>, w: nat): nat {
    if ws == [] then 0 else (if ws[0] == w then 1 else 0) + Occurrences(ws[1..], w)
  }

  function CallsTo<T>(ds: seq<Delivery<T>>, w: nat): nat {
    if ds == [] then 0 else (if ds[0].watcher == w then 1 else 0) + CallsTo(ds[1..], w)
  }

  /** A watcher registered once is called exactly once per change. */
  lemma {:induction false} CalledOncePerRegistration<T>(ws: seq<nat>, w: nat, evt: ObservableEvent<T>)
    ensures CallsTo(Deliveries(ws, evt), w) == Occurrences(ws, w)
  {
    if ws != [] {
      CalledOncePerRegistration(ws[1..], w, evt);
      assert Deliveries(ws, evt)[1..] == Deliveries(ws[1..], evt);
    }
  }

  /** `ObservableImpl`: the value, its watchers, and the deliveries made so far. */
  class ObservableImpl<T> {
    var mutableValue: T
    var watchers: seq<nat>
    var delivered: seq<Delivery<T>>

    constructor(initValue: T)
      ensures mutableValue == initValue && watchers == [] && delivered == []
    {
      mutableValue := initValue;
      watchers := [];
      delivered := [];
    }

    function Value(): (v: T)
      reads this
    {
      mutableValue
    }

    /** `set`: stores the value, then tells every watcher, whether or not it changed. */
    method Set(newValue: T, trigger: Trigger)
      modifies this
      ensures mutableValue == newValue && watchers == old(watchers)
      ensures delivered == old(delivered)
        + Deliveries(watchers, ObservableEvent(old(mutableValue), newValue, trigger))
    {
      var oldValue := mutableValue;
      mutableValue := newValue;
      FirePropertyChanged(oldValue, newValue, trigger);
    }

    /** Assigning `value`: `set` with a null trigger. */
    method SetValue(newValue: T)
      modifies this
      ensures mutableValue == newValue && watchers == old(watchers)
      ensures delivered == old(delivered)
        + Deliveries(watchers, ObservableEvent(old(mutableValue), newValue, None))
    {
      Set(newValue, None);
    }

    method AddWatcher(watcher: nat)
      modifies this
      ensures watchers == old(watchers) + [watcher]
      ensures mutableValue == old(mutableValue) && delivered == old(delivered)
    {
      watchers := watchers + [watcher];
    }

    method FirePropertyChanged(oldValue: T, newValue: T, trigger: Trigger)
      modifies this
      ensures mutableValue == old(mutableValue) && watchers == old(watchers)
      ensures delivered == old(delivered) + Deliveries(watchers, ObservableEvent(oldValue, newValue, trigger))
    {
      var evt := ObservableEvent(oldValue, newValue, trigger);
      var i := 0;
      while i < |watchers|
        invariant 0 <= i <= |watchers|
        invariant mutableValue == old(mutableValue) && watchers == old(watchers)
        invariant delivered == old(delivered) + Deliveries(watchers[..i], evt)
      {
        DeliveriesAppend(watchers[..i], [watchers[i]], evt);
        assert watchers[..i + 1] == watchers[..i] + [watchers[i]];
        delivered := delivered + [Delivery(watchers[i], evt)];
        i := i + 1;
      }
      assert watchers[..i] == watchers;
    }
  }

  /** `ObservableProperty`: an id, the initial value, the value itself and a writable flag,
      each observable. */
  class ObservableProperty<T(==)> {
    const id: string
    const initValue: T
    const delegate: ObservableImpl<T>
    const isWritable: ObservableImpl<bool>

    predicate Valid()
      reads this
    {
      delegate as object != isWritable as object
    }

    constructor(id: string, initValue: T)
      ensures Valid() && this.id == id && this.initValue == initValue
      ensures fresh(delegate) && fresh(isWritable)
      ensures delegate.mutableValue == initValue && delegate.watchers == [] && delegate.delivered == []
      ensures isWritable.mutableValue && isWritable.watchers == [] && isWritable.delivered == []
    {
      this.id := id;
      this.initValue := initValue;
      delegate := new ObservableImpl(initValue);
      isWritable := new ObservableImpl(true);
    }

    function Value(): T
      reads this, delegate
    {
      delegate.mutableValue
    }

    method Set(newValue: T, trigger: Trigger)
      requires Valid()
      modifies delegate
      ensures delegate.mutableValue == newValue && delegate.watchers == old(delegate.watchers)
      ensures delegate.delivered == old(delegate.delivered)
        + Deliveries(delegate.watchers, ObservableEvent(old(delegate.mutableValue), newValue, trigger))
      ensures unchanged(isWritable)
    {
      delegate.Set(newValue, trigger);
    }

    /** `setWritable`: an observable change of the writable flag. */
    method SetWritable(value: bool)
      requires Valid()
      modifies isWritable
      ensures isWritable.mutableValue == value && isWritable.watchers == old(isWritable.watchers)
      ensures isWritable.delivered == old(isWritable.delivered)
        + Deliveries(isWritable.watchers, ObservableEvent(old(isWritable.mutableValue), value, None))
      ensures unchanged(delegate)
    {
      isWritable.Set(value, None);
    }

    /** `ifChanged`: the argument `code` is called with, when the value differs from the
        initial one. */
    function IfChanged(): (arg: Option<T>)
      reads this, delegate
      ensures arg.Some? <==> Value() != initValue
      ensures arg.Some? ==> arg.value == Value()
    {
      if initValue != Value() then Some(Value()) else None
    }
  }

  /** A `LocalDate`, as a day number; a date property may also hold null. */
  type LocalDate = int

  /** Thrown `ValidationException`, with the validator's message. */
  datatype ValidationException = ValidationException(message: string)

  /** The default validator of a date property accepts anything. */
  function AcceptAll(evt: ObservableEvent<Option<LocalDate>>): (r: Result<Option<LocalDate>, string>)
    ensures r == Ok(evt.newValue)
  {
    Ok(evt.newValue)
  }

  /** `ObservableDate`: a date property whose changes a validator must approve. */
  class ObservableDate {
    const property: ObservableProperty<Option<LocalDate>>
    const validator: ObservableEvent<Option<LocalDate>> -> Result<Option<LocalDate>, string>

    constructor(id: string, initValue: Option<LocalDate>,
                validator: ObservableEvent<Option<LocalDate>> -> Result<Option<LocalDate>, string>)
      ensures property.Valid() && fresh(property) && fresh(property.delegate) && fresh(property.isWritable)
      ensures this.validator == validator && property.Value() == initValue
    {
      property := new ObservableProperty(id, initValue);
      this.validator := validator;
    }

    /** `set`: when the validator approves, the new value is stored and watchers are told;
        otherwise the validator's message is thrown and nothing changes. */
    method Set(newValue: Option<LocalDate>, trigger: Trigger) returns (thrown: Option<ValidationException>)
      requires property.Valid()
      modifies property.delegate
      ensures var evt := ObservableEvent(old(property.delegate.mutableValue), newValue, trigger);
        if validator(evt).Ok? then
          thrown.None? && property.delegate.mutableValue == newValue
          && property.delegate.delivered == old(property.delegate.delivered) + Deliveries(property.delegate.watchers, evt)
        else
          thrown == Some(ValidationException(validator(evt).error)) && unchanged(property.delegate)
      ensures property.delegate.watchers == old(property.delegate.watchers)
    {
      var evt := ObservableEvent(property.Value(), newValue, trigger);
      var verdict := validator(evt);
      if verdict.Ok? {
        property.Set(newValue, trigger);
        return None;
      } else {
        return Some(ValidationException(verdict.error));
      }
    }
  }

  /** With the default validator a date property takes every value. */
  method DefaultValidatorAccepts(d: ObservableDate, v: Option<LocalDate>) returns (thrown: Option<ValidationException>)
    requires d.property.Valid() && d.validator == AcceptAll
    modifies d.property.delegate
    ensures thrown.None? && d.property.delegate.mutableValue == v
  {
    thrown := d.Set(v, None);
  }
}
