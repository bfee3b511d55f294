/** The services that a command selects, and those of them that have to wait. */
module Plan {
  import opened Prelude
  import opened Order
  import Graph

  datatype RestartPolicy = Never | OnFailure | Always | UnlessStopped

  datatype Service = Service(
    profiles: seq<string>, autostart: bool, dependsOn: seq<Name>, restart: RestartPolicy)

  datatype Config = Config(services: map<Name, Service>, startOrder: seq<Name>)

  /** What the user named. */
  datatype Selection = Selection(services: seq<Name>, profiles: seq<string>)

  /** Why nothing was planned. */
  datatype Reason = NotInProfiles | BehindProfiles | NoAutostart

  datatype PlanError =
    | UnknownProfile(profile: string)
    | UnknownService(name: Name)
    | NothingToStart(reason: Reason)

  function DepsOf(config: Config): Graph.Deps {
    map n <- config.services :: config.services[n].dependsOn
  }

  /** What loading a configuration guarantees about the graph and its order. */
  ghost predicate Loaded(config: Config) {
    Graph.IsStartOrder(DepsOf(config), config.startOrder)
  }

  predicate Enabled(sel: Selection, service: Service) {
    service.profiles == [] || exists p <- service.profiles :: p in sel.profiles
  }

  predicate Declared(config: Config, profile: string) {
    exists n <- config.services :: profile in config.services[n].profiles
  }

  /** A profile that no service lists. */
  lemma UndeclaredMeans(config: Config, profile: string)
    ensures Declared(config, profile) <==>
              exists n, i :: n in config.services && 0 <= i < |config.services[n].profiles|
                             && config.services[n].profiles[i] == profile
  {
    if Declared(config, profile) {
      var n :| n in config.services && profile in config.services[n].profiles;
      var i :| 0 <= i < |config.services[n].profiles| && config.services[n].profiles[i] == profile;
    }
  }

  /** The services asked for, before their dependencies are pulled in. */
  function Roots(config: Config, sel: Selection): set<Name> {
    if sel.services == [] then
      set n | n in config.services && config.services[n].autostart && Enabled(sel, config.services[n])
    else set n <- sel.services
  }

  /** Contains what its members depend on. */
  ghost predicate DepClosed(config: Config, s: set<Name>) {
    forall n <- s :: n in config.services ==> forall d <- config.services[n].dependsOn :: d in s
  }

  /** The least set of services that contains the roots and whatever its members depend on. */
  ghost predicate IsClosure(config: Config, roots: set<Name>, s: set<Name>) {
    && roots <= s && DepClosed(config, s)
    && forall t: set<Name> :: DepClosed(config, t) && roots <= t ==> s <= t
  }

  // ── Planning ──────────────────────────────────────────────────────────────

  /** Every member that is new compared with `before` brought its dependencies along. */
  ghost predicate NewAreClosed(config: Config, before: set<Name>, after: set<Name>) {
    forall n <- after :: n !in before && n in config.services ==>
      forall d <- config.services[n].dependsOn :: d in after
  }

  /**
   Add `name` and everything it depends on.  The visited set alone makes this
   end, whatever the graph: `universe` is any set the names come from.  A name
   that is already there is left alone, because whoever put it there is also
   the one who completes it.
   */
  method CollectWithDependencies(config: Config, name: Name, selected: set<Name>, ghost universe: set<Name>)
    returns (selected': set<Name>)
    requires name in universe && DepClosed(config, universe)
    ensures selected <= selected' && name in selected'
    ensures NewAreClosed(config, selected, selected')
    ensures forall t: set<Name> :: DepClosed(config, t) && selected <= t && name in t ==> selected' <= t
    decreases universe - selected, 0
  {
    if name in selected {
      return selected;
    }
    selected' := selected + {name};
    if name in config.services {
      var ds := config.services[name].dependsOn;
      for k := 0 to |ds|
        invariant selected + {name} <= selected'
        invariant NewAreClosed(config, selected + {name}, selected')
        invariant forall i :: 0 <= i < k ==> ds[i] in selected'
        invariant forall t: set<Name> :: DepClosed(config, t) && selected <= t && name in t ==> selected' <= t
      {
        assert ds[k] in config.services[name].dependsOn;
        assert name in universe - selected && name !in universe - selected';
        selected' := CollectWithDependencies(config, ds[k], selected', universe);
      }
    }
  }

  /** Collect several roots, one after the other, into a set that starts empty. */
  method CollectAll(config: Config, names: seq<Name>) returns (selected: set<Name>)
    ensures IsClosure(config, (set n <- names), selected)
  {
    ghost var universe := (set n <- names) + config.services.Keys
                          + (set n, d | n in config.services && d in config.services[n].dependsOn :: d);
    selected := {};
    for k := 0 to |names|
      invariant DepClosed(config, selected)
      invariant forall i :: 0 <= i < k ==> names[i] in selected
      invariant forall t: set<Name> :: DepClosed(config, t) && (forall n <- names :: n in t) ==> selected <= t
    {
      selected := CollectWithDependencies(config, names[k], selected, universe);
    }
  }

  function Filter(order: seq<Name>, keep: set<Name>): seq<Name> {
    if order == [] then []
    else
      var front := Filter(order[..|order| - 1], keep);
      if order[|order| - 1] in keep then front + [order[|order| - 1]] else front
  }

  /** The position of the first profile no service declares, or the number of profiles. */
  predicate FirstUnknownProfile(config: Config, sel: Selection, k: nat) {
    && k <= |sel.profiles|
    && (forall i :: 0 <= i < k ==> Declared(config, sel.profiles[i]))
    && (k < |sel.profiles| ==> !Declared(config, sel.profiles[k]))
  }

  predicate FirstUnknownService(config: Config, sel: Selection, k: nat) {
    && k <= |sel.services|
    && (forall i :: 0 <= i < k ==> sel.services[i] in config.services)
    && (k < |sel.services| ==> sel.services[k] !in config.services)
  }

  predicate AllKnown(config: Config, sel: Selection) {
    && (forall p <- sel.profiles :: Declared(config, p))
    && (forall n <- sel.services :: n in config.services)
  }

  /** A service that starts without being named: it starts on its own, and its profiles, if any, let it. */
  predicate StartsUnnamed(sel: Selection, service: Service) {
    service.autostart && (|service.profiles| == 0 || exists i, j ::
      0 <= i < |service.profiles| && 0 <= j < |sel.profiles| && service.profiles[i] == sel.profiles[j])
  }

  predicate AskedFor(config: Config, sel: Selection, n: Name) {
    if |sel.services| == 0 then n in config.services && StartsUnnamed(sel, config.services[n]) else n in sel.services
  }

  /** Every service asked for is planned, and every other planned one is needed by one planned after it. */
  ghost predicate PlannedAsAsked(config: Config, sel: Selection, plan: seq<Name>) {
    && (forall n :: AskedFor(config, sel, n) ==> n in plan)
    && (forall i :: 0 <= i < |plan| ==> AskedFor(config, sel, plan[i]) || NeededLater(config, plan, i))
  }

  predicate NeededLater(config: Config, plan: seq<Name>, i: nat)
    requires i < |plan|
  {
    exists j :: i < j < |plan| && plan[j] in config.services && plan[i] in config.services[plan[j]].dependsOn
  }

  lemma RootsAreAskedFor(config: Config, sel: Selection, n: Name)
    ensures n in Roots(config, sel) <==> AskedFor(config, sel, n)
  {
    if n in config.services {
      var service := config.services[n];
      if StartsUnnamed(sel, service) && service.profiles != [] {
        var i, j :| 0 <= i < |service.profiles| && 0 <= j < |sel.profiles| && service.profiles[i] == sel.profiles[j];
        assert service.profiles[i] in service.profiles && service.profiles[i] in sel.profiles;
      }
      if service.autostart && service.profiles != [] && Enabled(sel, service) {
        var p :| p in service.profiles && p in sel.profiles;
        var i :| 0 <= i < |service.profiles| && service.profiles[i] == p;
        var j :| 0 <= j < |sel.profiles| && sel.profiles[j] == p;
        assert StartsUnnamed(sel, service);
      }
    }
  }

  /** What the closure holds besides the roots is needed by something in it. */
  lemma ClosureIsNeeded(config: Config, roots: set<Name>, s: set<Name>, n: Name)
    requires IsClosure(config, roots, s) && n in s && n !in roots
    ensures exists m <- s :: m in config.services && n in config.services[m].dependsOn && m != n
  {
    var t := s - {n};
    assert roots <= t && !(s <= t);
    var m, d :| m in t && m in config.services && d in config.services[m].dependsOn && d !in t;
    assert d in s;
  }

  /** On a loaded configuration the filtered start order plans what is asked for, and what that needs. */
  lemma TheFilterPlansAsAsked(config: Config, sel: Selection, s: set<Name>)
    requires Loaded(config) && AllKnown(config, sel) && IsClosure(config, Roots(config, sel), s)
    ensures PlannedAsAsked(config, sel, Filter(config.startOrder, s))
  {
    var plan := Filter(config.startOrder, s);
    forall n | n in Roots(config, sel) ensures n in config.services {
    }
    ThePlanIsComplete(config, Roots(config, sel), s);
    forall n | AskedFor(config, sel, n) ensures n in plan {
      RootsAreAskedFor(config, sel, n);
    }
    forall i | 0 <= i < |plan| && !AskedFor(config, sel, plan[i]) ensures NeededLater(config, plan, i) {
      RootsAreAskedFor(config, sel, plan[i]);
      ClosureIsNeeded(config, Roots(config, sel), s, plan[i]);
      var m :| m in s && m in config.services && plan[i] in config.services[m].dependsOn && m != plan[i];
      var j :| 0 <= j < |plan| && plan[j] == m;
      assert plan[i] in DepsOf(config)[m];
      assert plan[i] in plan[..j];
      var k :| 0 <= k < j && plan[k] == plan[i];
      assert k == i;
    }
  }

  /**
   Build the start plan.  An unknown profile is reported before an unknown
   service, the first of each; otherwise the plan is the closure of the roots
   in start order, and an empty one is an error.
   */
  method PlanStack(config: Config, sel: Selection) returns (r: Result<seq<Name>, PlanError>)
    ensures r.Ok? <==> AllKnown(config, sel) && Roots(config, sel) != {}
    ensures r.Ok? ==> exists s :: IsClosure(config, Roots(config, sel), s) && r.value == Filter(config.startOrder, s)
    ensures Loaded(config) && r.Ok? ==> PlannedAsAsked(config, sel, r.value)
    ensures r.Err? && r.error.UnknownProfile? <==> exists p <- sel.profiles :: !Declared(config, p)
    ensures r.Err? && r.error.NothingToStart? ==> forall n :: !AskedFor(config, sel, n)
    ensures r.Err? && r.error.UnknownProfile? ==>
              exists k: nat :: FirstUnknownProfile(config, sel, k) && k < |sel.profiles| && sel.profiles[k] == r.error.profile
    ensures r.Err? && r.error.UnknownService? ==>
              exists k: nat :: FirstUnknownService(config, sel, k) && k < |sel.services| && sel.services[k] == r.error.name
    ensures r.Err? && r.error.NothingToStart? ==>
              Roots(config, sel) == {} && r.error.reason ==
                (if sel.profiles != [] then NotInProfiles
                 else if exists n <- config.services :: config.services[n].profiles != [] then BehindProfiles
                 else NoAutostart)
  {
    for k := 0 to |sel.profiles|
      invariant FirstUnknownProfile(config, sel, k) || (k < |sel.profiles| && forall i :: 0 <= i < k ==> Declared(config, sel.profiles[i]))
    {
      if !Declared(config, sel.profiles[k]) {
        assert FirstUnknownProfile(config, sel, k);
        return Err(UnknownProfile(sel.profiles[k]));
      }
    }
    var names: seq<Name>;
    if sel.services == [] {
      names := InOrder(Roots(config, sel));
    } else {
      names := sel.services;
      for k := 0 to |names|
        invariant forall i :: 0 <= i < k ==> names[i] in config.services
      {
        if names[k] !in config.services {
          assert FirstUnknownService(config, sel, k);
          return Err(UnknownService(names[k]));
        }
      }
    }
    assert (set n <- names) == Roots(config, sel);
    var selected := CollectAll(config, names);
    if selected == {} {
      forall n ensures !AskedFor(config, sel, n) {
        RootsAreAskedFor(config, sel, n);
      }
      return Err(NothingToStart(
        if sel.profiles != [] then NotInProfiles
        else if exists n <- config.services :: config.services[n].profiles != [] then BehindProfiles
        else NoAutostart));
    }
    if Roots(config, sel) == {} {
      assert DepClosed(config, {});
      assert false;
    }
    if Loaded(config) {
      TheFilterPlansAsAsked(config, sel, selected);
    }
    return Ok(Filter(config.startOrder, selected));
  }

  lemma {:induction false} FilterKeepsOrder(config: Config, order: seq<Name>, keep: set<Name>)
    requires Distinct(order) && Graph.DependenciesFirst(DepsOf(config), order) && DepClosed(config, keep)
    ensures
      var plan := Filter(order, keep);
      && Distinct(plan) && Graph.DependenciesFirst(DepsOf(config), plan)
      && forall n :: n in plan <==> n in order && n in keep
  {
    if order != [] {
      var front, last := order[..|order| - 1], order[|order| - 1];
      assert order == front + [last];
      assert forall i :: 0 <= i < |front| ==> order[..i] == front[..i];
      FilterKeepsOrder(config, front, keep);
      var before, plan := Filter(front, keep), Filter(order, keep);
      if last in keep {
        assert order[..|order| - 1] == front;
        forall i | 0 <= i < |plan|
          ensures plan[i] in config.services && forall d <- config.services[plan[i]].dependsOn :: d in plan[..i]
        {
          assert plan[..i] == before[..i];
          if i < |before| {
            assert before[i] in DepsOf(config);
          } else {
            assert before[..i] == before;
          }
        }
      }
    }
  }

  /**
   On a loaded configuration a plan lists exactly the closure, each service
   once, after everything it depends on: nothing is started without what it
   needs, and nothing is started that nobody asked for.
   */
  lemma ThePlanIsComplete(config: Config, roots: set<Name>, s: set<Name>)
    requires Loaded(config) && roots <= config.services.Keys && IsClosure(config, roots, s)
    ensures
      var plan := Filter(config.startOrder, s);
      && Distinct(plan) && Lists(plan, s) && Graph.DependenciesFirst(DepsOf(config), plan)
  {
    FilterKeepsOrder(config, config.startOrder, s);
    Graph.StartOrderMeansAcyclic(DepsOf(config), config.startOrder);
    assert DepClosed(config, config.services.Keys) by {
      forall n, d | n in config.services && d in config.services[n].dependsOn ensures d in config.services.Keys {
        assert d in DepsOf(config)[n];
      }
    }
  }

  // ── Holding back ──────────────────────────────────────────────────────────

  /** Whether a planned service depends directly on something held. */
  predicate DependsOnHeld(config: Config, held: set<Name>, n: Name) {
    n in config.services && exists d <- config.services[n].dependsOn :: d in held
  }

  /** One pass over the plan, in its order. */
  function Sweep(config: Config, plan: seq<Name>, held: set<Name>): set<Name> {
    if plan == [] then held
    else
      var before := Sweep(config, plan[..|plan| - 1], held);
      var n := plan[|plan| - 1];
      if DependsOnHeld(config, before, n) then before + {n} else before
  }

  function Planned(seeds: set<Name>, plan: seq<Name>): set<Name> {
    set n | n in seeds && n in plan
  }

  function WithDependents(config: Config, plan: seq<Name>, seeds: set<Name>): set<Name> {
    Sweep(config, plan, Planned(seeds, plan))
  }

  method ComputeWithDependents(config: Config, plan: seq<Name>, seeds: set<Name>) returns (held: set<Name>)
    ensures held == WithDependents(config, plan, seeds)
  {
    held := Planned(seeds, plan);
    for k := 0 to |plan|
      invariant held == Sweep(config, plan[..k], Planned(seeds, plan))
    {
      assert plan[..k + 1][..k] == plan[..k];
      if plan[k] !in config.services {
        continue;
      }
      if exists d <- config.services[plan[k]].dependsOn :: d in held {
        held := held + {plan[k]};
      }
    }
    assert plan[..|plan|] == plan;
  }

  /** Holds the planned seeds, and whatever in the plan depends on something it holds. */
  ghost predicate HeldClosed(config: Config, plan: seq<Name>, seeds: set<Name>, held: set<Name>) {
    && (forall n <- plan :: n in seeds ==> n in held)
    && (forall n <- plan :: DependsOnHeld(config, held, n) ==> n in held)
  }

  /** What a planned service depends on comes earlier, if it is planned at all. */
  ghost predicate PlannedInOrder(config: Config, plan: seq<Name>) {
    forall i :: 0 <= i < |plan| && plan[i] in config.services ==>
      forall d <- config.services[plan[i]].dependsOn :: d in plan ==> d in plan[..i]
  }

  lemma {:induction false} SweepIsForced(config: Config, plan: seq<Name>, held: set<Name>, t: set<Name>)
    requires held <= t && forall n <- plan :: DependsOnHeld(config, t, n) ==> n in t
    ensures held <= Sweep(config, plan, held) <= t
    ensures forall n <- Sweep(config, plan, held) :: n in held || n in plan
  {
    if plan != [] {
      assert plan == plan[..|plan| - 1] + [plan[|plan| - 1]];
      SweepIsForced(config, plan[..|plan| - 1], held, t);
    }
  }

  lemma {:induction false} SweepReachesAll(config: Config, plan: seq<Name>, k: nat, held: set<Name>)
    requires k <= |plan| && PlannedInOrder(config, plan) && forall n <- held :: n in plan
    ensures held <= Sweep(config, plan[..k], held)
    ensures forall n <- Sweep(config, plan[..k], held) :: n in held || n in plan[..k]
    ensures forall i :: 0 <= i < k && DependsOnHeld(config, Sweep(config, plan[..k], held), plan[i]) ==>
              plan[i] in Sweep(config, plan[..k], held)
  {
    if k > 0 {
      assert plan[..k][..k - 1] == plan[..k - 1];
      SweepReachesAll(config, plan, k - 1, held);
      var before, after := Sweep(config, plan[..k - 1], held), Sweep(config, plan[..k], held);
      forall i | 0 <= i < k && DependsOnHeld(config, after, plan[i]) ensures plan[i] in after {
      }
    }
  }

  /**
   On a plan in dependency order the single pass finds the least set that holds
   the seeds and everything that depends on something held.
   */
  lemma OnePassIsTheFixpoint(config: Config, plan: seq<Name>, seeds: set<Name>)
    requires PlannedInOrder(config, plan)
    ensures
      var held := WithDependents(config, plan, seeds);
      && HeldClosed(config, plan, seeds, held)
      && (forall n <- held :: n in plan)
      && (forall t: set<Name> :: HeldClosed(config, plan, seeds, t) ==> held <= t)
  {
    var start := Planned(seeds, plan);
    SweepReachesAll(config, plan, |plan|, start);
    assert plan[..|plan|] == plan;
    forall t: set<Name> | HeldClosed(config, plan, seeds, t) ensures WithDependents(config, plan, seeds) <= t {
      SweepIsForced(config, plan, start, t);
    }
    var held := WithDependents(config, plan, seeds);
    forall n | n in plan && DependsOnHeld(config, held, n) ensures n in held {
      var i :| 0 <= i < |plan| && plan[i] == n;
    }
  }

  /** Three services, each needing the one before it. */
  const Chain := Config(map[0 := Service([], true, [], Always), 1 := Service([], true, [0], Always),
                            2 := Service([], true, [1], Always)], [0, 1, 2])

  /** The order matters: out of order, one pass can leave a dependent of a held service free. */
  lemma OnePassNeedsTheOrder()
    ensures WithDependents(Chain, [0, 1, 2], {0}) == {0, 1, 2}
    ensures WithDependents(Chain, [0, 2, 1], {0}) == {0, 1}
  {
    assert Planned({0}, [0, 1, 2]) == {0} == Planned({0}, [0, 2, 1]);
    assert [0, 1, 2][..2] == [0, 1] && [0, 1][..1] == [0] && [0, 2, 1][..2] == [0, 2] && [0, 2][..1] == [0];
    assert [0][..0] == [];
    assert Chain.services[1].dependsOn[0] == 0 && Chain.services[2].dependsOn[0] == 1;
    assert Sweep(Chain, [0], {0}) == {0};
    assert Sweep(Chain, [0, 1], {0}) == {0, 1};
    assert Sweep(Chain, [0, 1, 2], {0}) == {0, 1, 2};
    assert Sweep(Chain, [0, 2], {0}) == {0};
    assert Sweep(Chain, [0, 2, 1], {0}) == {0, 1};
  }

  /** The planned services that were stopped by hand and ask to stay so. */
  function Seeds(config: Config, plan: seq<Name>, remembered: set<Name>): set<Name> {
    set n | n in plan && n in remembered && n in config.services && config.services[n].restart.UnlessStopped?
  }

  method HeldBack(config: Config, plan: seq<Name>, remembered: set<Name>) returns (held: set<Name>)
    ensures held == WithDependents(config, plan, Seeds(config, plan, remembered))
    ensures Seeds(config, plan, remembered) == {} ==> held == {}
  {
    var seeds := Seeds(config, plan, remembered);
    if seeds == {} {
      NothingHeld(config, plan);
      assert Planned(seeds, plan) == {};
      return {};
    }
    held := ComputeWithDependents(config, plan, seeds);
  }

  lemma {:induction false} NothingHeld(config: Config, plan: seq<Name>)
    ensures Sweep(config, plan, {}) == {}
  {
    if plan != [] {
      NothingHeld(config, plan[..|plan| - 1]);
    }
  }

  /**
   What is left of a plan after holding services back can still be started:
   nothing in it depends on a service that was held back.  What is held back
   was stopped by hand under `unless-stopped`, or needs something that was.
   */
  lemma TheRestCanStart(config: Config, plan: seq<Name>, remembered: set<Name>)
    requires Graph.DependenciesFirst(DepsOf(config), plan)
    ensures
      var held := WithDependents(config, plan, Seeds(config, plan, remembered));
      && (forall n <- plan :: n !in held ==>
            forall d <- config.services[n].dependsOn :: d in plan && d !in held)
      && (forall n <- plan :: n in remembered && config.services[n].restart.UnlessStopped? ==> n in held)
      && (forall n <- held :: n in plan && (
            || (n in remembered && config.services[n].restart == UnlessStopped)
            || exists d <- config.services[n].dependsOn :: d in held))
  {
    var seeds := Seeds(config, plan, remembered);
    var held := WithDependents(config, plan, seeds);
    forall i | 0 <= i < |plan| ensures plan[i] in config.services {
      assert plan[i] in DepsOf(config);
    }
    assert PlannedInOrder(config, plan) by {
      forall i, d | 0 <= i < |plan| && d in config.services[plan[i]].dependsOn ensures d in plan[..i] {
        assert d in DepsOf(config)[plan[i]];
      }
    }
    OnePassIsTheFixpoint(config, plan, seeds);
    forall n, d | n in plan && n !in held && d in config.services[n].dependsOn ensures d in plan && d !in held {
      var i :| 0 <= i < |plan| && plan[i] == n;
      assert d in DepsOf(config)[plan[i]];
      assert d in plan[..i];
    }
    SweepIsJustified(config, plan, Planned(seeds, plan));
  }

  lemma {:induction false} SweepIsJustified(config: Config, plan: seq<Name>, held: set<Name>)
    ensures held <= Sweep(config, plan, held)
    ensures forall n <- Sweep(config, plan, held) :: n in held || DependsOnHeld(config, Sweep(config, plan, held), n)
  {
    if plan != [] {
      SweepIsJustified(config, plan[..|plan| - 1], held);
    }
  }
}
