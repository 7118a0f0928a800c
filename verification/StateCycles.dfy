/** Any number of cycles between whole states: what PublishSubscribe proves of one entity group holds for
    every group that the two states share. */
module StateCycles {
  import opened Cells
  import opened AttributeValues
  import opened EntityTable
  import opened EntityGroups
  import opened TrackedStates
  import M = MergeUpdates
  import P = PublishSubscribe
  import X = StateExchange

  datatype Worlds = Worlds(pub: States, sub: States)

  /** What happens to the groups of the publisher within a cycle. */
  type GroupActions = map<M.Key, seq<P.Action>>

  function ActionsOf(acts: GroupActions, key: M.Key): (r: seq<P.Action>)
    ensures key in acts ==> r == acts[key]
    ensures key !in acts ==> r == []
  {
    if key in acts then acts[key] else []
  }

  /** One group on both sides. */
  function GroupWorld(w: Worlds, key: M.Key): P.World {
    P.World(GroupAt(w.pub, key), GroupAt(w.sub, key))
  }

  ghost predicate Exchangeable(w: Worlds) {
    AllWellFormed(w.pub) && AllWellFormed(w.sub) && forall key :: key in w.pub ==> P.Ready(GroupWorld(w, key))
  }

  ghost predicate Possible(w: Worlds, acts: GroupActions)
    requires Exchangeable(w)
  {
    forall key :: key in w.pub ==> P.AllPossible(w.pub[key], ActionsOf(acts, key))
  }

  ghost function ActAll(w: Worlds, acts: GroupActions): (pub: States)
    requires Exchangeable(w) && Possible(w, acts)
    ensures AllWellFormed(pub) && pub.Keys == w.pub.Keys
  {
    map key | key in w.pub :: P.ActAll(w.pub[key], ActionsOf(acts, key))
  }

  function ResetPublished(pub: States): (r: States)
    requires AllWellFormed(pub)
    ensures AllWellFormed(r) && r.Keys == pub.Keys
  {
    map key | key in pub :: ResetFlagged(pub[key], P.PUBLISHED)
  }

  /** The publisher acts, publishes one update of all its groups and resets; the subscriber receives it. */
  ghost function Cycle(w: Worlds, acts: GroupActions, track: set<Flag>): (r: Worlds)
    requires Exchangeable(w) && Possible(w, acts)
    ensures AllWellFormed(r.pub) && AllWellFormed(r.sub) && r.pub.Keys == w.pub.Keys
  {
    hide Generated, P.ActAll, P.AllPossible, P.Ready, Updated, ResetFlagged;
    var acted := ActAll(w, acts);
    Worlds(ResetPublished(acted),
           ReceiveStates(w.sub, X.AsUpdate(GenerateStates(acted, P.PUBLISHED)), false, track, false))
  }

  /** The subscriber has the group, or takes every group that comes. */
  predicate SharesGroup(w: Worlds, track: set<Flag>, key: M.Key) {
    key in w.pub && Reached(w.sub, key, track)
  }

  lemma ReadyAfterActs(g: P.World, acts: seq<P.Action>)
    requires P.Ready(g) && P.AllPossible(g.pub, acts)
    ensures P.ShapedGroup(P.ActAll(g.pub, acts)) && P.KindsAgree(P.ActAll(g.pub, acts), g.sub)
  {
    hide Shaped, P.ActAll, P.AllPossible;
    P.ActsKeepBase(g.pub, acts);
  }

  /** In each group a cycle is a cycle of the protocol, or leaves the subscriber alone. */
  lemma GroupCycle(w: Worlds, acts: GroupActions, track: set<Flag>, key: M.Key)
    requires Exchangeable(w) && Possible(w, acts) && key in w.pub
    ensures P.Ready(GroupWorld(w, key)) && P.AllPossible(w.pub[key], ActionsOf(acts, key))
    ensures var cycle := P.Cycle(GroupWorld(w, key), ActionsOf(acts, key), track);
      GroupWorld(Cycle(w, acts, track), key)
      == if Reached(w.sub, key, track) then cycle else P.World(cycle.pub, GroupAt(w.sub, key))
  {
    hide Generated, P.ActAll, P.AllPossible, P.ShapedGroup, P.KindsAgree, P.Subscriber, Updated, ResetFlagged,
         GenerateStates, ReceiveStates, X.AsUpdate;
    ReadyAfterActs(GroupWorld(w, key), ActionsOf(acts, key));
    X.EveryGroupIsDelivered(ActAll(w, acts), w.sub, track, key);
  }

  lemma StillShared(w: Worlds, acts: GroupActions, track: set<Flag>, key: M.Key)
    requires Exchangeable(w) && Possible(w, acts) && SharesGroup(w, track, key)
    ensures SharesGroup(Cycle(w, acts, track), track, key)
  {
    hide Generated, P.ActAll, P.AllPossible, P.Ready, Updated, ResetFlagged, GenerateStates;
  }

  lemma CycleIsExchangeable(w: Worlds, acts: GroupActions, track: set<Flag>)
    requires Exchangeable(w) && Possible(w, acts)
    ensures Exchangeable(Cycle(w, acts, track))
  {
    hide Cycle, P.Cycle, P.AllPossible, Shaped, Group.WellFormed;
    var r := Cycle(w, acts, track);
    forall key | key in r.pub
      ensures P.Ready(GroupWorld(r, key))
    {
      GroupCycle(w, acts, track, key);
      KindsStay(GroupWorld(w, key), ActionsOf(acts, key), track);
    }
  }

  lemma KindsStay(g: P.World, acts: seq<P.Action>, track: set<Flag>)
    requires P.Ready(g) && P.AllPossible(g.pub, acts)
    ensures P.Ready(P.World(P.Cycle(g, acts, track).pub, g.sub))
  {
    hide Shaped, P.ActAll, P.AllPossible, Generated, P.Subscriber, ResetFlagged;
    P.ActsKeepBase(g.pub, acts);
    P.ResetSettles(P.ActAll(g.pub, acts));
  }

  // ----- any number of cycles

  ghost predicate Viable(w: Worlds, cycles: seq<GroupActions>, track: set<Flag>)
    requires Exchangeable(w)
    decreases |cycles|
  {
    CyclesKeepReady(w, track);
    cycles != [] ==> Possible(w, cycles[0]) && Viable(Cycle(w, cycles[0], track), cycles[1..], track)
  }

  lemma CyclesKeepReady(w: Worlds, track: set<Flag>)
    requires Exchangeable(w)
    ensures forall acts :: Possible(w, acts) ==> Exchangeable(Cycle(w, acts, track))
  {
    hide Exchangeable, Possible, Cycle;
    forall acts | Possible(w, acts)
      ensures Exchangeable(Cycle(w, acts, track))
    {
      CycleIsExchangeable(w, acts, track);
    }
  }

  ghost function Run(w: Worlds, cycles: seq<GroupActions>, track: set<Flag>): (r: Worlds)
    requires Exchangeable(w) && Viable(w, cycles, track)
    ensures Exchangeable(r)
    decreases |cycles|
  {
    CyclesKeepReady(w, track);
    if cycles == [] then w else Run(Cycle(w, cycles[0], track), cycles[1..], track)
  }

  /** The cycles as one group sees them. */
  function CyclesOf(cycles: seq<GroupActions>, key: M.Key): (r: seq<seq<P.Action>>)
    ensures |r| == |cycles|
  {
    seq(|cycles|, k requires 0 <= k < |cycles| => ActionsOf(cycles[k], key))
  }

  /** A run of whole states is, in each group that they share, a run of the protocol. */
  lemma {:induction false} GroupRun(w: Worlds, cycles: seq<GroupActions>, track: set<Flag>, key: M.Key)
    requires Exchangeable(w) && Viable(w, cycles, track) && SharesGroup(w, track, key)
    ensures P.Ready(GroupWorld(w, key)) && P.Viable(GroupWorld(w, key), CyclesOf(cycles, key), track)
    ensures GroupWorld(Run(w, cycles, track), key) == P.Run(GroupWorld(w, key), CyclesOf(cycles, key), track)
    ensures SharesGroup(Run(w, cycles, track), track, key)
    decreases |cycles|
  {
    hide Cycle, P.Cycle, P.AllPossible, P.Ready, Possible, ActionsOf;
    if cycles != [] {
      var next := Cycle(w, cycles[0], track);
      CycleIsExchangeable(w, cycles[0], track);
      GroupCycle(w, cycles[0], track, key);
      StillShared(w, cycles[0], track, key);
      GroupRun(next, cycles[1..], track, key);
      assert CyclesOf(cycles, key)[0] == ActionsOf(cycles[0], key);
      assert CyclesOf(cycles, key)[1..] == CyclesOf(cycles[1..], key);
    }
  }

  /** After any number of cycles the subscriber holds the publisher's rows of every exactly compared attribute
      of every group that they share, wherever these are defined, and, as long as the publisher unsets none,
      everywhere. */
  lemma StatesAgreeAfterEveryCycle(w: Worlds, cycles: seq<GroupActions>, track: set<Flag>, key: M.Key, name: string)
    requires Exchangeable(w) && Viable(w, cycles, track) && SharesGroup(w, track, key)
    requires P.Ready(GroupWorld(w, key)) && P.Shared(GroupWorld(w, key), track, name)
    requires w.pub[key].attrs[name].cmp == Exact && P.Settled(w.pub[key], name)
    requires P.HoldsDefined(GroupWorld(w, key), name)
    requires P.Viable(GroupWorld(w, key), CyclesOf(cycles, key), track)
      ==> P.FaithfulRun(GroupWorld(w, key), CyclesOf(cycles, key), track, name)
    ensures var r := Run(w, cycles, track);
      && SharesGroup(r, track, key) && P.Ready(GroupWorld(r, key)) && P.HoldsDefined(GroupWorld(r, key), name)
      && (&& P.InAgreement(GroupWorld(w, key), name)
          && (forall k :: 0 <= k < |cycles| ==> P.OnlyDefines(ActionsOf(cycles[k], key), name))
          ==> P.InAgreement(GroupWorld(r, key), name))
  {
    hide Run, Viable, P.Run, P.Viable, P.FaithfulRun, P.HoldsDefined, P.InAgreement, P.Ready, P.Settled, P.OnlyDefines,
         ActionsOf;
    GroupRun(w, cycles, track, key);
    P.AgreeAfterEveryCycle(GroupWorld(w, key), CyclesOf(cycles, key), track, name);
  }
}
