/** The life cycle of a model inside its adapter: the model is initialized once its data are there,
    updated once its required data are there, and asked for an update of its own after that. */
module ModelAdapter {
  import opened Cells
  import opened AttributeValues

  /** A model may find out while initializing that it misses data. */
  datatype InitOutcome<+S> = NotReady(state: S) | Initialized(state: S)

  /** A major update carries no data; a cascading one may turn out empty. */
  datatype Input<+U> = Major | Empty | Cascading(upd: U)

  datatype Message<+U> =
    | NewTime(time: int)
    | Update(time: int, input: Input<U>)
    | Series(time: int, inputs: seq<Input<U>>)
    | Quit(dueToFailure: bool)

  /** The tracked state and the model, of which the adapter knows no more than these operations. */
  datatype Environment<!S, !U, !O> = Environment(
    autoReset: set<Flag>,
    ready: (S, Flag) -> bool,
    receive: (S, U) -> S,
    receiveInitial: (S, U) -> S,
    generate: S -> Option<O>,
    reset: (S, Flag) -> S,
    initialize: S -> InitOutcome<S>,
    update: (S, int) -> (S, Option<int>),
    newTime: (S, int) -> S)

  /** What happened to the model so far. */
  datatype Event<+S> =
    | TriedInitialize(before: S, succeeded: bool)
    | FoundReady(before: S)
    | Updated(before: S, time: int)
    | TimeAccepted(time: int)

  predicate WasInitialized<S>(log: seq<Event<S>>) {
    exists i :: 0 <= i < |log| && log[i].TriedInitialize? && log[i].succeeded
  }

  predicate WasFoundReady<S>(log: seq<Event<S>>) {
    exists i :: 0 <= i < |log| && log[i].FoundReady?
  }

  /** What may happen after a given past. */
  predicate Permitted<S, U, O>(env: Environment<S, U, O>, past: seq<Event<S>>, e: Event<S>) {
    match e
    case TriedInitialize(before, _) => env.ready(before, INITIALIZE) && !WasInitialized(past)
    case FoundReady(before) => env.ready(before, REQUIRED) && WasInitialized(past) && !WasFoundReady(past)
    case Updated(_, _) => WasInitialized(past) && WasFoundReady(past)
    case TimeAccepted(time) => time > 0 ==> WasInitialized(past) && WasFoundReady(past)
  }

  ghost predicate Lifecycle<S, U, O>(env: Environment<S, U, O>, log: seq<Event<S>>) {
    forall i :: 0 <= i < |log| ==> Permitted(env, log[..i], log[i])
  }

  lemma LifecycleExtends<S, U, O>(env: Environment<S, U, O>, log: seq<Event<S>>, e: Event<S>)
    requires Lifecycle(env, log) && Permitted(env, log, e)
    ensures Lifecycle(env, log + [e])
    ensures WasInitialized(log + [e]) <==> WasInitialized(log) || (e.TriedInitialize? && e.succeeded)
    ensures WasFoundReady(log + [e]) <==> WasFoundReady(log) || e.FoundReady?
  {
    var next := log + [e];
    assert next[|log|] == e && next[..|log|] == log;
    forall i | 0 <= i < |log|
      ensures next[i] == log[i] && next[..i] == log[..i]
    {
    }
    if WasInitialized(log) {
      var i :| 0 <= i < |log| && log[i].TriedInitialize? && log[i].succeeded;
      assert next[i] == log[i];
    }
    if WasFoundReady(log) {
      var i :| 0 <= i < |log| && log[i].FoundReady?;
      assert next[i] == log[i];
    }
  }

  lemma MayBeFoundReady<S, U, O>(env: Environment<S, U, O>, log: seq<Event<S>>, state: S)
    requires WasInitialized(log) && !WasFoundReady(log) && env.ready(state, REQUIRED)
    ensures Permitted(env, log, FoundReady(state))
  {
  }

  lemma MayUpdate<S, U, O>(env: Environment<S, U, O>, log: seq<Event<S>>, state: S, time: int)
    requires WasInitialized(log) && WasFoundReady(log)
    ensures Permitted(env, log, Updated(state, time))
  {
  }

  lemma MayAcceptTime<S, U, O>(env: Environment<S, U, O>, log: seq<Event<S>>, time: int)
    requires time > 0 ==> WasInitialized(log) && WasFoundReady(log)
    ensures Permitted(env, log, TimeAccepted(time))
  {
  }

  /** A model is initialized successfully at most once, and not tried again after that; it is only
      updated after that and after its required data were there, and so it is for every accepted time
      after 0. */
  lemma LifecycleMeans<S, U, O>(env: Environment<S, U, O>, log: seq<Event<S>>, i: nat)
    requires Lifecycle(env, log) && i < |log|
    ensures log[i].TriedInitialize? ==> forall j :: 0 <= j < i && log[j].TriedInitialize? ==> !log[j].succeeded
    ensures log[i].Updated? || (log[i].TimeAccepted? && log[i].time > 0) ==>
      exists j, k :: 0 <= j < k < i && log[j].TriedInitialize? && log[j].succeeded
                     && log[k].FoundReady? && env.ready(log[k].before, REQUIRED)
  {
    var past := log[..i];
    assert Permitted(env, past, log[i]);
    if log[i].TriedInitialize? {
      assert forall j :: 0 <= j < i ==> past[j] == log[j];
    }
    if log[i].Updated? || (log[i].TimeAccepted? && log[i].time > 0) {
      var k :| 0 <= k < |past| && past[k].FoundReady?;
      assert Permitted(env, log[..k], log[k]);
      var j :| 0 <= j < |log[..k]| && log[..k][j].TriedInitialize? && log[..k][j].succeeded;
      assert log[j] == log[..k][j];
    }
  }

  // ----- what a calculation does

  datatype Life<+S> = Life(state: S, initialized: bool, ready: bool, nextTime: Option<int>)

  function AfterInitialize<S, U, O>(env: Environment<S, U, O>, a: Life<S>): Life<S> {
    if a.initialized || !env.ready(a.state, INITIALIZE) then a
    else
      var outcome := env.initialize(a.state);
      a.(state := outcome.state, initialized := outcome.Initialized?)
  }

  /** The state after a calculation, the update to publish and the time at which the model wants to be
      called again. */
  function Calculate<S, U, O>(env: Environment<S, U, O>, a: Life<S>, time: int): (Life<S>, Option<O>, Option<int>) {
    var b := AfterInitialize(env, a);
    if !b.initialized then (b, None, None)
    else
      var ready := b.ready || env.ready(b.state, REQUIRED);
      var (state, next) := if ready then env.update(b.state, time) else (b.state, None);
      (Life(AutoReset(env, state, if ready then env.autoReset else env.autoReset - {SUBSCRIBE}), true, ready, next),
       env.generate(state), next)
  }

  /** What a calculation does, step by step: it initializes the model if that is still to be done and its data
      are there, and ends if the model is not initialized then; it updates the model if that is ready, or
      becomes so now; in any case it publishes the changes and resets what the model wants to be reset, but
      nothing subscribed without an update. */
  ghost predicate Calculated<S, U, O>(env: Environment<S, U, O>, a: Life<S>, time: int, b: Life<S>,
                                      update: Option<O>, next: Option<int>) {
    var tries := !a.initialized && env.ready(a.state, INITIALIZE);
    var begun := if tries then env.initialize(a.state).state else a.state;
    && (b.initialized <==> a.initialized || (tries && env.initialize(a.state).Initialized?))
    && (!b.initialized ==>
          b.state == begun && b.ready == a.ready && b.nextTime == a.nextTime && update == None && next == None)
    && (b.initialized ==>
          && (b.ready <==> a.ready || env.ready(begun, REQUIRED)) && b.nextTime == next
          && (b.ready ==>
                var (updated, wish) := env.update(begun, time);
                var received := if SUBSCRIBE in env.autoReset then env.reset(updated, SUBSCRIBE) else updated;
                && next == wish && update == env.generate(updated)
                && b.state == if PUBLISH in env.autoReset then env.reset(received, PUBLISH) else received)
          && (!b.ready ==>
                && next == None && update == env.generate(begun)
                && b.state == if PUBLISH in env.autoReset then env.reset(begun, PUBLISH) else begun))
  }

  /** What the log gains by a calculation: the attempt to initialize, the moment when the model is found ready
      and the update. */
  ghost function Happened<S, U, O>(env: Environment<S, U, O>, a: Life<S>, time: int, b: Life<S>): seq<Event<S>> {
    var tries := !a.initialized && env.ready(a.state, INITIALIZE);
    var begun := if tries then env.initialize(a.state).state else a.state;
    (if tries then [TriedInitialize(a.state, b.initialized)] else [])
    + (if b.initialized && b.ready && !a.ready then [FoundReady(begun)] else [])
    + (if b.initialized && b.ready then [Updated(begun, time)] else [])
  }

  /** Calculate does that. */
  lemma CalculateMeans<S, U, O>(env: Environment<S, U, O>, a: Life<S>, time: int)
    ensures var (b, update, next) := Calculate(env, a, time);
      Calculated(env, a, time, b, update, next)
  {
  }

  class TrackedModelAdapter<S, U, O> {
    const env: Environment<S, U, O>
    var state: S
    var modelInitialized: bool
    var modelReadyForUpdate: bool
    var nextTime: Option<int>
    ghost var log: seq<Event<S>>

    ghost predicate Valid()
      reads this
    {
      Lifecycle(env, log) && modelInitialized == WasInitialized(log) && modelReadyForUpdate == WasFoundReady(log)
    }

    ghost function Model(): Life<S>
      reads this
    {
      Life(state, modelInitialized, modelReadyForUpdate, nextTime)
    }

    constructor (env: Environment<S, U, O>, state: S)
      ensures Valid() && log == [] && this.env == env && this.state == state && nextTime == None
    {
      this.env, this.state := env, state;
      modelInitialized, modelReadyForUpdate, nextTime, log := false, false, None, [];
    }

    method TryInitialize()
      requires Valid()
      modifies this`state, this`modelInitialized, this`log
      ensures Valid() && old(log) <= log
      ensures Model() == AfterInitialize(env, old(Model()))
      ensures log == old(log) + if !old(modelInitialized) && env.ready(old(state), INITIALIZE)
                                then [TriedInitialize(old(state), modelInitialized)] else []
    {
      if !modelInitialized && env.ready(state, INITIALIZE) {
        var outcome := env.initialize(state);
        LifecycleExtends(env, log, TriedInitialize(state, outcome.Initialized?));
        log := log + [TriedInitialize(state, outcome.Initialized?)];
        state := outcome.state;
        modelInitialized := outcome.Initialized?;
      }
    }

    /** Receives data; whether the model should calculate. */
    method ProcessInput(input: Input<U>) returns (shouldCalculate: bool)
      modifies this`state
      ensures shouldCalculate == !input.Empty?
      ensures state == if input.Cascading? then env.receive(old(state), input.upd) else old(state)
    {
      match input
      case Major => shouldCalculate := true;
      case Cascading(upd) =>
        state := env.receive(state, upd);
        shouldCalculate := true;
      case Empty => shouldCalculate := false;
    }

    method TryCalculate(time: int, shouldCalculate: bool) returns (update: Option<O>, next: Option<int>)
      requires Valid()
      modifies this
      ensures Valid() && old(log) <= log
      ensures !shouldCalculate ==> Model() == old(Model()) && log == old(log) && update == None && next == old(nextTime)
      ensures shouldCalculate ==> (Model(), update, next) == Calculate(env, old(Model()), time)
      ensures shouldCalculate ==> Calculated(env, old(Model()), time, Model(), update, next)
      ensures shouldCalculate ==> log == old(log) + Happened(env, old(Model()), time, Model())
    {
      hide Lifecycle, Permitted, WasInitialized, WasFoundReady, Calculated, AutoReset;
      if !shouldCalculate {
        return None, nextTime;
      }
      CalculateMeans(env, Model(), time);
      TryInitialize();
      if !modelInitialized {
        return None, None;
      }
      FindReady();
      next := None;
      var modelUpdated := false;
      if modelReadyForUpdate {
        LogUpdate(time);
        var result := env.update(state, time);
        state, next := result.0, result.1;
        modelUpdated := true;
      }
      update := env.generate(state);
      ResetAfter(modelUpdated);
      nextTime := next;
    }

    /** A model that was initialized is ready from the moment on when its required data are there. */
    method FindReady()
      requires Valid() && modelInitialized
      modifies this`modelReadyForUpdate, this`log
      ensures Valid() && old(log) <= log
      ensures modelReadyForUpdate == (old(modelReadyForUpdate) || env.ready(state, REQUIRED))
      ensures log == old(log) + if modelReadyForUpdate && !old(modelReadyForUpdate) then [FoundReady(state)] else []
    {
      hide Lifecycle, Permitted, WasInitialized, WasFoundReady;
      if !modelReadyForUpdate && env.ready(state, REQUIRED) {
        MayBeFoundReady(env, log, state);
        LifecycleExtends(env, log, FoundReady(state));
        log := log + [FoundReady(state)];
        modelReadyForUpdate := true;
      }
    }

    ghost method LogUpdate(time: int)
      requires Valid() && modelInitialized && modelReadyForUpdate
      modifies this`log
      ensures Valid() && log == old(log) + [Updated(state, time)]
    {
      hide Lifecycle, Permitted, WasInitialized, WasFoundReady;
      MayUpdate(env, log, state, time);
      LifecycleExtends(env, log, Updated(state, time));
      log := log + [Updated(state, time)];
    }

    method ResetAfter(modelUpdated: bool)
      modifies this`state
      ensures state == AutoReset(env, old(state), if modelUpdated then env.autoReset else env.autoReset - {SUBSCRIBE})
    {
      if modelUpdated && SUBSCRIBE in env.autoReset {
        state := env.reset(state, SUBSCRIBE);
      }
      if PUBLISH in env.autoReset {
        state := env.reset(state, PUBLISH);
      }
    }

    method OnUpdate(time: int, input: Input<U>) returns (update: Option<O>, next: Option<int>)
      requires Valid()
      modifies this
      ensures Valid() && old(log) <= log
      ensures input.Empty? ==> Model() == old(Model()) && log == old(log) && update == None && next == old(nextTime)
      ensures !input.Empty? ==>
        (Model(), update, next) == Calculate(env, old(Model()).(state := ReceiveInputs(env, old(state), [input])), time)
      ensures !input.Empty? ==>
        var received := if input.Cascading? then env.receive(old(state), input.upd) else old(state);
        Calculated(env, old(Model()).(state := received), time, Model(), update, next)
    {
      assert ReceiveInputs(env, state, []) == state && [input][..0] == [];
      var shouldCalculate := ProcessInput(input);
      update, next := TryCalculate(time, shouldCalculate);
    }

    /** All inputs of a series are received before the model calculates, once. */
    method OnUpdateSeries(time: int, inputs: seq<Input<U>>) returns (update: Option<O>, next: Option<int>)
      requires Valid()
      modifies this
      ensures Valid() && old(log) <= log
      ensures (forall k :: 0 <= k < |inputs| ==> inputs[k].Empty?) ==>
        Model() == old(Model()) && log == old(log) && update == None && next == old(nextTime)
      ensures (exists k :: 0 <= k < |inputs| && !inputs[k].Empty?) ==>
        (Model(), update, next) == Calculate(env, old(Model()).(state := ReceiveInputs(env, old(state), inputs)), time)
        && Calculated(env, old(Model()).(state := ReceiveInputs(env, old(state), inputs)), time, Model(), update, next)
    {
      var shouldCalculate, k := false, 0;
      while k < |inputs|
        invariant 0 <= k <= |inputs| && Valid()
        invariant unchanged(`modelInitialized) && unchanged(`modelReadyForUpdate) && unchanged(`nextTime)
        invariant unchanged(`log)
        invariant shouldCalculate <==> exists j :: 0 <= j < k && !inputs[j].Empty?
        invariant state == ReceiveInputs(env, old(state), inputs[..k])
        invariant !shouldCalculate ==> state == old(state)
      {
        assert inputs[..k + 1][..k] == inputs[..k];
        var calculate := ProcessInput(inputs[k]);
        shouldCalculate := calculate || shouldCalculate;
        k := k + 1;
      }
      assert inputs[..k] == inputs;
      update, next := TryCalculate(time, shouldCalculate);
    }

    method OnNewTime(time: int) returns (r: Result<()>)
      requires Valid()
      modifies this
      ensures Valid() && old(log) <= log
      ensures state == env.newTime(old(state), time) && nextTime == old(nextTime)
      ensures modelInitialized == old(modelInitialized) && modelReadyForUpdate == old(modelReadyForUpdate)
      ensures r.Ok? <==> time <= 0 || (modelInitialized && modelReadyForUpdate)
      ensures r.Ok? ==> log == old(log) + [TimeAccepted(time)]
    {
      hide Lifecycle, Permitted, WasInitialized, WasFoundReady;
      state := env.newTime(state, time);
      if !(modelInitialized && modelReadyForUpdate) && time > 0 {
        return Err("model not ready");
      }
      MayAcceptTime(env, log, time);
      LifecycleExtends(env, log, TimeAccepted(time));
      log := log + [TimeAccepted(time)];
      return Ok(());
    }

    /** Receives the initial data and tries to initialize the model. */
    method Initialize(initData: seq<U>)
      requires Valid()
      modifies this
      ensures Valid() && old(log) <= log
      ensures Model() == AfterInitialize(env, old(Model()).(state := ReceiveAllInitial(env, old(state), initData)))
    {
      var k := 0;
      while k < |initData|
        invariant 0 <= k <= |initData| && Valid() && log == old(log)
        invariant Model() == old(Model()).(state := ReceiveAllInitial(env, old(state), initData[..k]))
      {
        assert initData[..k + 1][..k] == initData[..k];
        state := env.receiveInitial(state, initData[k]);
        k := k + 1;
      }
      assert initData[..k] == initData;
      TryInitialize();
    }

    method Close(dueToFailure: bool) returns (r: Result<()>)
      ensures r.Ok? <==> dueToFailure || (modelInitialized && modelReadyForUpdate)
    {
      if dueToFailure {
        return Ok(());
      }
      if !(modelInitialized && modelReadyForUpdate) {
        return Err("model not ready");
      }
      return Ok(());
    }

    method Handle(message: Message<U>) returns (r: Result<()>)
      requires Valid()
      modifies this
      ensures Valid() && old(log) <= log
      ensures r.Ok? && message.NewTime? ==> log == old(log) + [TimeAccepted(message.time)]
      ensures r.Ok? && message == Quit(false) ==> WasInitialized(log) && WasFoundReady(log)
    {
      r := Ok(());
      match message {
        case NewTime(time) => r := OnNewTime(time);
        case Update(time, input) => var _, _ := OnUpdate(time, input);
        case Series(time, inputs) => var _, _ := OnUpdateSeries(time, inputs);
        case Quit(dueToFailure) => r := Close(dueToFailure);
      }
    }

    /** Handles messages until one of them raises an error. */
    method Run(messages: seq<Message<U>>) returns (r: Result<()>)
      requires Valid()
      modifies this
      ensures Valid() && old(log) <= log
      ensures r.Ok? ==>
        forall k :: 0 <= k < |messages| && messages[k].NewTime? ==> TimeAccepted(messages[k].time) in log
      ensures r.Ok? && Quit(false) in messages ==> WasInitialized(log) && WasFoundReady(log)
    {
      hide Lifecycle, WasInitialized, WasFoundReady;
      var k := 0;
      while k < |messages|
        invariant 0 <= k <= |messages| && Valid() && old(log) <= log
        invariant forall j :: 0 <= j < k && messages[j].NewTime? ==> TimeAccepted(messages[j].time) in log
        invariant Quit(false) in messages[..k] ==> WasInitialized(log) && WasFoundReady(log)
      {
        ghost var before := log;
        r := Handle(messages[k]);
        if r.Err? {
          return;
        }
        StaysSo(before, log);
        k := k + 1;
      }
      return Ok(());
    }
  }

  /** What has happened has happened. */
  lemma StaysSo<S>(before: seq<Event<S>>, log: seq<Event<S>>)
    requires before <= log
    ensures WasInitialized(before) ==> WasInitialized(log)
    ensures WasFoundReady(before) ==> WasFoundReady(log)
    ensures forall e :: e in before ==> e in log
  {
    assert forall i :: 0 <= i < |before| ==> log[i] == before[i];
  }

  function ReceiveInputs<S, U, O>(env: Environment<S, U, O>, state: S, inputs: seq<Input<U>>): S {
    if inputs == [] then state
    else
      var n := |inputs| - 1;
      var received := ReceiveInputs(env, state, inputs[..n]);
      if inputs[n].Cascading? then env.receive(received, inputs[n].upd) else received
  }

  /** After an update the subscribed and the published attributes are reset, as far as the model wants. */
  function AutoReset<S, U, O>(env: Environment<S, U, O>, state: S, flags: set<Flag>): S {
    var s := if SUBSCRIBE in flags then env.reset(state, SUBSCRIBE) else state;
    if PUBLISH in flags then env.reset(s, PUBLISH) else s
  }

  /** The states in between: each input that carries data takes one state to the next. */
  lemma {:induction false} InputsInTurn<S, U, O>(env: Environment<S, U, O>, states: seq<S>, inputs: seq<Input<U>>)
    requires |states| == |inputs| + 1
    requires forall k :: 0 <= k < |inputs| ==>
      states[k + 1] == if inputs[k].Cascading? then env.receive(states[k], inputs[k].upd) else states[k]
    ensures ReceiveInputs(env, states[0], inputs) == states[|inputs|]
  {
    if inputs != [] {
      var n := |inputs| - 1;
      InputsInTurn(env, states[..n + 1], inputs[..n]);
    }
  }

  lemma {:induction false} InitialDataInTurn<S, U, O>(env: Environment<S, U, O>, states: seq<S>, data: seq<U>)
    requires |states| == |data| + 1
    requires forall k :: 0 <= k < |data| ==> states[k + 1] == env.receiveInitial(states[k], data[k])
    ensures ReceiveAllInitial(env, states[0], data) == states[|data|]
  {
    if data != [] {
      var n := |data| - 1;
      InitialDataInTurn(env, states[..n + 1], data[..n]);
    }
  }

  function ReceiveAllInitial<S, U, O>(env: Environment<S, U, O>, state: S, data: seq<U>): S {
    if data == [] then state
    else env.receiveInitial(ReceiveAllInitial(env, state, data[..|data| - 1]), data[|data| - 1])
  }
}
