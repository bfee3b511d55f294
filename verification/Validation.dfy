/** The cross-service checks of a configuration, and what loading one guarantees. */
module Validation {
  import opened Prelude
  import opened Order
  import Graph
  import Plan

  datatype Condition = ServiceStarted | ServiceHealthy | ServiceCompletedSuccessfully

  /** One `depends_on` entry, its condition as written. */
  datatype Entry = Entry(dep: Name, condition: Option<string>)

  datatype RawService = RawService(entries: seq<Entry>, healthChecked: bool, service: Plan.Service)

  type Raw = map<Name, RawService>

  datatype Fault =
    | SelfDependency(name: Name)
    | UnknownDependency(name: Name, dep: Name)
    | DuplicateDependency(name: Name, dep: Name)
    | InvalidCondition(name: Name, dep: Name, value: string)
    | NotHealthChecked(name: Name, dep: Name)
    | NeverCompletes(name: Name, dep: Name)
    | DependencyCycle(names: seq<Name>)
    /** Something an earlier step found. */
    | Elsewhere(what: nat)

  function ParseCondition(value: string): Option<Condition> {
    if value == "service_started" then Some(ServiceStarted)
    else if value == "service_healthy" then Some(ServiceHealthy)
    else if value == "service_completed_successfully" then Some(ServiceCompletedSuccessfully)
    else None
  }

  predicate RestartsForEver(service: Plan.Service) {
    service.restart.Always? || service.restart.UnlessStopped?
  }

  // ── What a sound configuration is ─────────────────────────────────────────

  /** A condition that nothing in the dependency's configuration rules out. */
  predicate CanBeMet(target: RawService, condition: Option<string>) {
    condition.Some? ==>
      var c := ParseCondition(condition.value);
      && c.Some?
      && (c.value.ServiceHealthy? ==> target.healthChecked)
      && (c.value.ServiceCompletedSuccessfully? ==> !RestartsForEver(target.service))
  }

  predicate Repeats(entries: seq<Entry>, k: nat)
    requires k < |entries|
  {
    exists j :: 0 <= j < k && entries[j].dep == entries[k].dep
  }

  predicate SoundEntry(raw: Raw, name: Name, entries: seq<Entry>, k: nat)
    requires k < |entries|
  {
    var e := entries[k];
    e.dep != name && e.dep in raw && !Repeats(entries, k) && CanBeMet(raw[e.dep], e.condition)
  }

  predicate SoundEntries(raw: Raw, name: Name, entries: seq<Entry>, k: nat)
    requires k <= |entries|
  {
    forall j :: 0 <= j < k ==> SoundEntry(raw, name, entries, j)
  }

  predicate SoundService(raw: Raw, name: Name)
    requires name in raw
  {
    SoundEntries(raw, name, raw[name].entries, |raw[name].entries|)
  }

  predicate Sound(raw: Raw) {
    forall n <- raw :: SoundService(raw, n)
  }

  function Targets(entries: seq<Entry>): (deps: seq<Name>)
    ensures |deps| == |entries| && forall k :: 0 <= k < |entries| ==> deps[k] == entries[k].dep
  {
    if entries == [] then [] else [entries[0].dep] + Targets(entries[1..])
  }

  function DepsOf(raw: Raw): Graph.Deps {
    map n <- raw :: Targets(raw[n].entries)
  }

  // ── The checks ────────────────────────────────────────────────────────────

  function ConditionFaults(raw: Raw, name: Name, e: Entry): seq<Fault>
    requires e.dep in raw
  {
    if e.condition.None? then []
    else
      match ParseCondition(e.condition.value)
      case None => [InvalidCondition(name, e.dep, e.condition.value)]
      case Some(c) =>
        if c.ServiceHealthy? && !raw[e.dep].healthChecked then [NotHealthChecked(name, e.dep)]
        else if c.ServiceCompletedSuccessfully? && RestartsForEver(raw[e.dep].service) then [NeverCompletes(name, e.dep)]
        else []
  }

  /** What is reported of one entry: the first thing wrong with it, if anything. */
  function EntryFaults(raw: Raw, name: Name, entries: seq<Entry>, k: nat): seq<Fault>
    requires k < |entries|
  {
    var e := entries[k];
    if e.dep == name then [SelfDependency(name)]
    else if e.dep !in raw then [UnknownDependency(name, e.dep)]
    else if Repeats(entries, k) then [DuplicateDependency(name, e.dep)]
    else ConditionFaults(raw, name, e)
  }

  function EntriesFaults(raw: Raw, name: Name, entries: seq<Entry>, k: nat): seq<Fault>
    requires k <= |entries|
  {
    if k == 0 then [] else EntriesFaults(raw, name, entries, k - 1) + EntryFaults(raw, name, entries, k - 1)
  }

  function Faults(raw: Raw, names: seq<Name>): seq<Fault>
    requires forall n <- names :: n in raw
  {
    if names == [] then []
    else
      var last := names[|names| - 1];
      Faults(raw, names[..|names| - 1]) + EntriesFaults(raw, last, raw[last].entries, |raw[last].entries|)
  }

  method CheckService(raw: Raw, name: Name) returns (faults: seq<Fault>)
    requires name in raw
    ensures faults == EntriesFaults(raw, name, raw[name].entries, |raw[name].entries|)
  {
    faults := [];
    var seen: set<Name> := {};
    var entries := raw[name].entries;
    for k := 0 to |entries|
      invariant faults == EntriesFaults(raw, name, entries, k)
      invariant forall d :: d in seen <==> d != name && d in raw && exists j :: 0 <= j < k && entries[j].dep == d
    {
      var e := entries[k];
      assert e.dep in seen <==> e.dep != name && e.dep in raw && Repeats(entries, k);
      if e.dep == name {
        faults := faults + [SelfDependency(name)];
      } else if e.dep !in raw {
        faults := faults + [UnknownDependency(name, e.dep)];
      } else if e.dep in seen {
        faults := faults + [DuplicateDependency(name, e.dep)];
      } else {
        seen := seen + {e.dep};
        var found := CheckCondition(raw, name, e);
        faults := faults + found;
      }
    }
  }

  method CheckCondition(raw: Raw, name: Name, e: Entry) returns (faults: seq<Fault>)
    requires e.dep in raw
    ensures faults == ConditionFaults(raw, name, e)
  {
    if e.condition.None? {
      return [];
    }
    var c := ParseCondition(e.condition.value);
    if c.None? {
      return [InvalidCondition(name, e.dep, e.condition.value)];
    }
    if c.value.ServiceHealthy? && !raw[e.dep].healthChecked {
      return [NotHealthChecked(name, e.dep)];
    }
    if c.value.ServiceCompletedSuccessfully? && RestartsForEver(raw[e.dep].service) {
      return [NeverCompletes(name, e.dep)];
    }
    return [];
  }

  method CheckServices(raw: Raw, names: seq<Name>, earlier: seq<Fault>) returns (errors: seq<Fault>)
    requires forall n <- names :: n in raw
    ensures errors == earlier + Faults(raw, names)
  {
    errors := earlier;
    for k := 0 to |names|
      invariant errors == earlier + Faults(raw, names[..k])
    {
      assert names[..k + 1][..k] == names[..k] && names[k] in names;
      var found := CheckService(raw, names[k]);
      errors := errors + found;
    }
    assert names[..|names|] == names;
  }

  /** The dependency checks, the early return, and the sort. */
  method Validate(raw: Raw, earlier: seq<Fault>) returns (r: Result<seq<Name>, seq<Fault>>)
    ensures r.Ok? <==> earlier == [] && Sound(raw) && Graph.Acyclic(DepsOf(raw))
    ensures r.Ok? ==> Graph.IsStartOrder(DepsOf(raw), r.value) && Graph.Greedy(DepsOf(raw), r.value)
    ensures r.Err? && !(earlier == [] && Sound(raw)) ==> r.error == earlier + Faults(raw, InOrder(raw.Keys))
    ensures r.Err? && earlier == [] && Sound(raw) ==>
              |r.error| == 1 && r.error[0].DependencyCycle? && Graph.IsCycle(DepsOf(raw), r.error[0].names)
  {
    var names := InOrder(raw.Keys);
    var errors := CheckServices(raw, names, earlier);
    NoFaultsMeansSound(raw, names);
    if errors != [] {
      return Err(errors);
    }
    SoundIsClosed(raw);
    var sorted := Graph.TopologicalSort(DepsOf(raw));
    match sorted
    case Ok(order) => return Ok(order);
    case Err(trouble) => return Err([DependencyCycle(trouble.names)]);
  }

  lemma NoEntryFault(raw: Raw, name: Name, entries: seq<Entry>, k: nat)
    requires k < |entries|
    ensures EntryFaults(raw, name, entries, k) == [] <==> SoundEntry(raw, name, entries, k)
  {
  }

  /**
   What is said of an entry, in the order in which it is looked at: an entry
   for the service itself, for nobody, for somebody named before, and then a
   condition: the default and `service_started` are always fine, a health check
   has to be there, and a service that is restarted for ever never completes.
   */
  lemma WhatIsWrongWithAnEntry(raw: Raw, name: Name, entries: seq<Entry>, k: nat)
    requires k < |entries|
    ensures
      var e, faults := entries[k], EntryFaults(raw, name, entries, k);
      if e.dep == name then faults == [SelfDependency(name)]
      else if e.dep !in raw then faults == [UnknownDependency(name, e.dep)]
      else if exists j :: 0 <= j < k && entries[j].dep == e.dep then faults == [DuplicateDependency(name, e.dep)]
      else if e.condition in {None, Some("service_started")} then faults == []
      else if e.condition == Some("service_healthy") then
        faults == if raw[e.dep].healthChecked then [] else [NotHealthChecked(name, e.dep)]
      else if e.condition == Some("service_completed_successfully") then
        faults == if raw[e.dep].service.restart in {Plan.Always, Plan.UnlessStopped}
                  then [NeverCompletes(name, e.dep)] else []
      else faults == [InvalidCondition(name, e.dep, e.condition.value)]
  {
  }

  lemma OneMoreEntry(raw: Raw, name: Name, entries: seq<Entry>, k: nat)
    requires k < |entries|
    ensures SoundEntries(raw, name, entries, k + 1) <==>
              SoundEntries(raw, name, entries, k) && |EntryFaults(raw, name, entries, k)| == 0
  {
    NoEntryFault(raw, name, entries, k);
  }

  lemma {:induction false} NoEntryFaults(raw: Raw, name: Name, entries: seq<Entry>, k: nat)
    requires k <= |entries|
    ensures |EntriesFaults(raw, name, entries, k)| == 0 <==> SoundEntries(raw, name, entries, k)
  {
    if k > 0 {
      var before, last := EntriesFaults(raw, name, entries, k - 1), EntryFaults(raw, name, entries, k - 1);
      NoEntryFaults(raw, name, entries, k - 1);
      OneMoreEntry(raw, name, entries, k - 1);
      assert EntriesFaults(raw, name, entries, k) == before + last;
    }
  }

  lemma {:induction false} NoFaults(raw: Raw, names: seq<Name>)
    requires forall n <- names :: n in raw
    ensures Faults(raw, names) == [] <==> forall n <- names :: SoundService(raw, n)
  {
    if names != [] {
      var init, last := names[..|names| - 1], names[|names| - 1];
      NoFaults(raw, init);
      NoEntryFaults(raw, last, raw[last].entries, |raw[last].entries|);
      assert forall n :: n in names <==> n in init || n == last;
    }
  }

  /** Something is reported exactly when some entry is unsound. */
  lemma NoFaultsMeansSound(raw: Raw, names: seq<Name>)
    requires Lists(names, raw.Keys)
    ensures Faults(raw, names) == [] <==> Sound(raw)
  {
    NoFaults(raw, names);
  }

  /** Passing the checks is what the sort relies on: every dependency is a service. */
  lemma SoundIsClosed(raw: Raw)
    requires Sound(raw)
    ensures Graph.Closed(DepsOf(raw))
  {
    forall n, d | n in raw && d in DepsOf(raw)[n] ensures d in raw {
      var k :| 0 <= k < |raw[n].entries| && raw[n].entries[k].dep == d;
      assert SoundEntry(raw, n, raw[n].entries, k);
    }
  }

  // ── What a loaded configuration guarantees ────────────────────────────────

  /** The configuration that is built when nothing is wrong. */
  function Load(raw: Raw, order: seq<Name>): Plan.Config {
    Plan.Config(map n <- raw :: raw[n].service.(dependsOn := Targets(raw[n].entries)), order)
  }

  /**
   In the start order of a loaded configuration every service comes after each
   of its dependencies, depends on none of them twice and not on itself, and
   asks for health only of one that is checked for it and for completion only of
   one that is not restarted for ever.  Whether that one ever gets there is its
   own affair.
   */
  lemma DependenciesComeFirst(raw: Raw, order: seq<Name>, i: nat, k: nat)
    requires Sound(raw) && Graph.IsStartOrder(DepsOf(raw), order)
    requires i < |order| && k < |raw[order[i]].entries|
    ensures Plan.Loaded(Load(raw, order))
    ensures
      var e := raw[order[i]].entries[k];
      && e.dep in order[..i] && e.dep in raw
      && CanBeMet(raw[e.dep], e.condition)
      && !Repeats(raw[order[i]].entries, k)
  {
    assert Plan.DepsOf(Load(raw, order)) == DepsOf(raw);
    var n := order[i];
    assert n in order && SoundService(raw, n) && SoundEntry(raw, n, raw[n].entries, k);
    assert Targets(raw[n].entries)[k] in DepsOf(raw)[n];
  }
}
