/** A model's adapter at work on an entity group: a message that makes the model calculate is one cycle
    of the publish-subscribe protocol, and a series of updates is one merged update. */
module ModelRuns {
  import opened Cells
  import opened AttributeValues
  import opened EntityTable
  import opened EntityGroups
  import opened PublishSubscribe
  import A = ModelAdapter
  import M = MergeUpdates
  import T = TrackedStates
  import X = StateExchange

  /** A model that is initialized and ready, and writes what it likes when it is updated. */
  ghost function GroupEnvironment(autoReset: set<Flag>, writes: (Group, int) -> seq<Action>,
                                  next: (Group, int) -> Option<int>)
    : A.Environment<Group, EntityData, EntityData>
  {
    A.Environment(
      autoReset,
      (g: Group, flag: Flag) => true,
      (g: Group, u: EntityData) => if g.WellFormed() && Possible(g, Incoming(u)) then Act(g, Incoming(u)) else g,
      (g: Group, u: EntityData) => g,
      (g: Group) => if g.WellFormed() then Generated(g, PUBLISHED) else None,
      (g: Group, flag: Flag) => if g.WellFormed() then ResetFlagged(g, {flag}) else g,
      (g: Group) => A.Initialized(g),
      (g: Group, time: int) =>
        (if g.WellFormed() && AllPossible(g, writes(g, time)) then ActAll(g, writes(g, time)) else g, next(g, time)),
      (g: Group, time: int) => g)
  }

  function Incomings(inputs: seq<A.Input<EntityData>>): seq<Action> {
    if inputs == [] then []
    else
      var front, last := Incomings(inputs[..|inputs| - 1]), inputs[|inputs| - 1];
      if last.Cascading? then front + [Incoming(last.upd)] else front
  }

  lemma {:induction false} ActsCompose(g: Group, a: seq<Action>, b: seq<Action>)
    requires g.WellFormed()
    ensures AllPossible(g, a + b) <==> AllPossible(g, a) && AllPossible(ActAll(g, a), b)
    ensures AllPossible(g, a + b) ==> ActAll(g, a + b) == ActAll(ActAll(g, a), b)
    decreases |a|
  {
    hide Act, Possible, Group.WellFormed;
    if a == [] {
      assert a + b == b;
    } else {
      assert (a + b)[1..] == a[1..] + b && (a + b)[0] == a[0];
      if Possible(g, a[0]) {
        ActsCompose(Act(g, a[0]), a[1..], b);
      }
    }
  }

  lemma {:induction false} InputsAreActions(g: Group, inputs: seq<A.Input<EntityData>>,
                                            env: A.Environment<Group, EntityData, EntityData>)
    requires g.WellFormed() && AllPossible(g, Incomings(inputs))
    requires forall h: Group, u :: h.WellFormed() && Possible(h, Incoming(u)) ==>
      env.receive(h, u) == Act(h, Incoming(u))
    ensures A.ReceiveInputs(env, g, inputs) == ActAll(g, Incomings(inputs))
  {
    hide Act, Possible, Group.WellFormed;
    if inputs != [] {
      var front, last := inputs[..|inputs| - 1], inputs[|inputs| - 1];
      if last.Cascading? {
        ActsCompose(g, Incomings(front), [Incoming(last.upd)]);
        assert [Incoming(last.upd)][1..] == [];
        InputsAreActions(g, front, env);
        var h := ActAll(g, Incomings(front));
        assert AllPossible(h, [Incoming(last.upd)]);
        assert ActAll(h, [Incoming(last.upd)]) == ActAll(Act(h, Incoming(last.upd)), []);
      } else {
        InputsAreActions(g, front, env);
      }
    }
  }

  /** Resetting subscribed attributes first, or not, makes no difference to the published ones, and all that
      are not subscribed either are left alone. */
  lemma ResetTwice(g: Group, subscribed: bool)
    requires g.WellFormed()
    ensures forall name :: name in g.attrs ==>
      var r := ResetFlagged(if subscribed then ResetFlagged(g, {SUBSCRIBE}) else g, {PUBLISH});
      var reset := PUBLISH in g.attrs[name].flags || (subscribed && SUBSCRIBE in g.attrs[name].flags);
      r.attrs[name] == if reset then g.attrs[name].Reset() else g.attrs[name]
    ensures var r := ResetFlagged(if subscribed then ResetFlagged(g, {SUBSCRIBE}) else g, {PUBLISH});
      var once := ResetFlagged(g, PUBLISHED);
      && r.ids == once.ids && r.attrs.Keys == once.attrs.Keys
      && forall name :: g.Has(name, PUBLISHED) ==> r.attrs[name] == once.attrs[name]
  {
    hide Attribute.Reset, Attribute.WellFormed, Attribute.Rows;
    forall name | name in g.attrs
      ensures g.attrs[name].Reset().Reset() == g.attrs[name].Reset()
      ensures forall flag :: g.attrs[name].flags * {flag} != {} <==> flag in g.attrs[name].flags
    {
      ResetAgain(g.attrs[name]);
      HasOne(g.attrs[name].flags);
    }
  }

  lemma HasOne(flags: set<Flag>)
    ensures forall flag :: flags * {flag} != {} <==> flag in flags
  {
    forall flag | flag in flags
      ensures flag in flags * {flag}
    {
    }
  }

  lemma ResetAgain(a: Attribute)
    requires a.WellFormed()
    ensures a.Reset().Reset() == a.Reset()
  {
  }

  /** An update of a running model that has its published attributes reset, with the inputs it received and
      the writes it made, publishes what the cycle of these actions publishes, and leaves the published
      attributes and the index as that cycle leaves them. Attributes that are only subscribed are reset if
      the model has them reset, and no others are. */
  lemma MessageIsCycle(g: Group, inputs: seq<A.Input<EntityData>>, time: int, before: Option<int>, autoReset: set<Flag>,
                       writes: (Group, int) -> seq<Action>, next: (Group, int) -> Option<int>)
    requires PUBLISH in autoReset && g.WellFormed() && AllPossible(g, Incomings(inputs))
    requires AllPossible(g, Incomings(inputs) + writes(ActAll(g, Incomings(inputs)), time))
    ensures var env := GroupEnvironment(autoReset, writes, next);
      var acted := ActAll(g, Incomings(inputs) + writes(ActAll(g, Incomings(inputs)), time));
      var (after, update, wish) := A.Calculate(env, A.Life(A.ReceiveInputs(env, g, inputs), true, true, before), time);
      && update == Generated(acted, PUBLISHED)
      && wish == after.nextTime == next(ActAll(g, Incomings(inputs)), time)
      && after.state.ids == acted.ids
      && (forall name :: acted.Has(name, PUBLISHED) ==>
            name in after.state.attrs && after.state.attrs[name] == ResetFlagged(acted, PUBLISHED).attrs[name])
      && forall name :: name in acted.attrs ==>
        var flags, a := acted.attrs[name].flags, acted.attrs[name];
        var reset := PUBLISH in flags || (SUBSCRIBE in flags && SUBSCRIBE in autoReset);
        name in after.state.attrs && after.state.attrs[name] == if reset then a.Reset() else a
  {
    hide Act, Possible, Generated, ResetFlagged;
    var env := GroupEnvironment(autoReset, writes, next);
    var received := ActAll(g, Incomings(inputs));
    InputsAreActions(g, inputs, env);
    ActsCompose(g, Incomings(inputs), writes(received, time));
    ResetTwice(ActAll(received, writes(received, time)), SUBSCRIBE in autoReset);
  }

  // ----- a series of updates

  ghost predicate SeriesAcceptable(states: T.States, updates: seq<T.Update>, track: set<Flag>) {
    updates == [] ||
    (var n := |updates| - 1;
     var s := ReceiveSeries(states, updates[..n], track);
     && SeriesAcceptable(states, updates[..n], track)
     && T.Acceptable(s, updates[n]) && T.Receivable(s, updates[n], false, track))
  }

  ghost function ReceiveSeries(states: T.States, updates: seq<T.Update>, track: set<Flag>): (r: T.States)
    ensures T.AllWellFormed(states) ==> T.AllWellFormed(r)
  {
    if updates == [] then states
    else T.ReceiveStates(ReceiveSeries(states, updates[..|updates| - 1], track), updates[|updates| - 1],
                         false, track, false)
  }

  function DataOfAll(updates: seq<T.Update>): seq<M.World> {
    seq(|updates|, i requires 0 <= i < |updates| => X.DataOf(updates[i]))
  }

  lemma {:induction false} SeriesInTurn(states: T.States, updates: seq<T.Update>, track: set<Flag>)
    requires T.AllWellFormed(states) && SeriesAcceptable(states, updates, track)
    ensures M.AllWellFormed(DataOfAll(updates))
    ensures X.ValuesOf(ReceiveSeries(states, updates, track))
         == M.ReceiveInTurn(X.ValuesOf(states), DataOfAll(updates), track != {})
  {
    hide T.ReceiveStates, T.Acceptable, T.Receivable, X.DataOf, M.ReceiveUpdate;
    if updates != [] {
      var n := |updates| - 1;
      SeriesInTurn(states, updates[..n], track);
      X.ReceiveStatesValues(ReceiveSeries(states, updates[..n], track), updates[n], track, false);
      assert DataOfAll(updates)[..n] == DataOfAll(updates[..n]);
    }
  }

  /** Receiving a series of updates one by one leaves the values that receiving their merged update
      leaves. */
  lemma SeriesIsMerged(states: T.States, updates: seq<T.Update>, track: set<Flag>)
    requires T.AllWellFormed(states) && SeriesAcceptable(states, updates, track) && updates != []
    ensures M.AllWellFormed(DataOfAll(updates)) && M.Merge(DataOfAll(updates)).Some?
    ensures X.ValuesOf(ReceiveSeries(states, updates, track))
         == M.ReceiveUpdate(X.ValuesOf(states), M.Merge(DataOfAll(updates)).value, track != {}, false)
  {
    hide T.ReceiveStates, M.ReceiveUpdate, M.ReceiveInTurn;
    SeriesInTurn(states, updates, track);
    M.ReceiveMerged(X.ValuesOf(states), DataOfAll(updates), track != {});
  }
}
