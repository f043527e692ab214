/** The shared informer factory
    (pkg/generated/informers/externalversions/factory.go): what each method does to
    the fields that its lock guards. */
module InformerFactory {
  import opened Common

  /** The reflected type of an object, and the rest by identity. */
  type Type = nat
  type Duration = int

  datatype Informer = Informer(serial: nat, resync: Duration, transform: Option<nat>)

  datatype Entry = Entry(key: Type, informer: Informer)

  /** The guarded fields, and the informers run so far. */
  datatype View = View(
    informers: map<Type, Informer>,
    started: set<Type>,
    shuttingDown: bool,
    launches: seq<Entry>)

  // --------------------------------------------------------------- specification

  predicate Coherent(v: View) {
    && v.started <= v.informers.Keys
    && (forall t | t in v.started :: exists e :: e in v.launches && e.key == t)
    && (forall e | e in v.launches :: e.key in v.started && v.informers[e.key] == e.informer)
    && LaunchedOnce(v.launches)
  }

  predicate LaunchedOnce(launches: seq<Entry>) {
    forall i, j | 0 <= i < j < |launches| :: launches[i].key != launches[j].key
  }

  /** Start runs every informer not yet started, each once, and marks it; after
      Shutdown it does nothing. */
  predicate StartSpec(v: View, v': View) {
    if v.shuttingDown then v' == v
    else
      && v'.informers == v.informers && !v'.shuttingDown
      && v'.started == v.informers.Keys
      && v.launches <= v'.launches
      && LaunchesExactly(v.informers, v.informers.Keys - v.started, v'.launches[|v.launches|..])
  }

  predicate LaunchesExactly(informers: map<Type, Informer>, types: set<Type>, launches: seq<Entry>) {
    && LaunchedOnce(launches)
    && (forall e | e in launches :: e.key in types && e.key in informers && informers[e.key] == e.informer)
    && (forall t | t in types :: exists e :: e in launches && e.key == t)
  }

  /** InformerFor answers with the registered informer, registering one if need be. */
  function RegisterSpec(v: View, t: Type, made: Informer): View {
    if t in v.informers then v else v.(informers := v.informers[t := made])
  }

  function ShutdownSpec(v: View): View {
    v.(shuttingDown := true)
  }

  /** What WaitForCacheSync waits for: the started informers. */
  function StartedInformers(v: View): (m: map<Type, Informer>)
    ensures forall t :: t in m <==> t in v.informers && t in v.started
    ensures forall t | t in m :: m[t] == v.informers[t]
  {
    map t | t in v.informers && t in v.started :: v.informers[t]
  }

  // ----------------------------------------------------------------------- class

  class SharedInformerFactory {
    const defaultResync: Duration
    const customResync: map<Type, Duration>
    const transform: Option<nat>
    var informers: map<Type, Informer>
    var startedInformers: map<Type, bool>
    var wg: nat
    var shuttingDown: bool
    // the goroutines started, oldest first
    var launches: seq<Entry>

    function Contents(): View
      reads this
    {
      View(informers, (set t | t in startedInformers && startedInformers[t]), shuttingDown, launches)
    }

    predicate Valid()
      reads this
    {
      Coherent(Contents())
    }

    constructor (defaultResync: Duration, customResync: map<Type, Duration>, transform: Option<nat>)
      ensures Valid() && Contents() == View(map[], {}, false, []) && wg == 0
      ensures this.defaultResync == defaultResync && this.customResync == customResync && this.transform == transform
    {
      this.defaultResync := defaultResync;
      this.customResync := customResync;
      this.transform := transform;
      informers := map[];
      startedInformers := map[];
      wg := 0;
      shuttingDown := false;
      launches := [];
    }

    /** What newFunc makes of the resync period that applies to the type. */
    function Made(t: Type, newFunc: Duration -> Informer): Informer {
      var informer := newFunc(if t in customResync then customResync[t] else defaultResync);
      if transform.Some? then informer.(transform := transform) else informer
    }

    method InformerFor(t: Type, newFunc: Duration -> Informer) returns (informer: Informer)
      requires Valid()
      modifies this
      ensures Valid() && wg == old(wg)
      ensures Contents() == RegisterSpec(old(Contents()), t, Made(t, newFunc))
      ensures t in informers && informers[t] == informer
      // a registered informer is handed out again
      ensures t in old(informers) ==> informer == old(informers)[t] && Contents() == old(Contents())
      // a new one is made with the period that applies, and has the factory's transform
      ensures t !in old(informers) ==> Contents() == old(Contents()).(informers := old(informers)[t := informer])
      ensures t !in old(informers) && t in customResync ==>
                informer.serial == newFunc(customResync[t]).serial && informer.resync == newFunc(customResync[t]).resync
      ensures t !in old(informers) && t !in customResync ==>
                informer.serial == newFunc(defaultResync).serial && informer.resync == newFunc(defaultResync).resync
      ensures t !in old(informers) && transform.Some? ==> informer.transform == transform
      ensures t !in old(informers) && transform.None? && t in customResync ==> informer.transform == newFunc(customResync[t]).transform
      ensures t !in old(informers) && transform.None? && t !in customResync ==> informer.transform == newFunc(defaultResync).transform
    {
      if t in informers {
        return informers[t];
      }
      var resyncPeriod := defaultResync;
      if t in customResync { resyncPeriod := customResync[t]; }
      informer := newFunc(resyncPeriod);
      if transform.Some? { informer := informer.(transform := transform); }
      informers := informers[t := informer];
    }

    method StartWithContext()
      requires Valid()
      modifies this
      ensures Valid()
      ensures StartSpec(old(Contents()), Contents())
      ensures wg == old(wg) + |launches| - |old(launches)|
      ensures shuttingDown == old(shuttingDown) && informers == old(informers) && old(launches) <= launches
      ensures shuttingDown ==> launches == old(launches) && startedInformers == old(startedInformers)
      ensures !shuttingDown ==> forall t | t in informers :: t in startedInformers && startedInformers[t]
      ensures !shuttingDown ==>
                forall k | |old(launches)| <= k < |launches| ::
                  launches[k].key in informers && launches[k].informer == informers[launches[k].key]
                  && !(launches[k].key in old(startedInformers) && old(startedInformers)[launches[k].key])
    {
      if shuttingDown { return; }
      var todo := informers.Keys;
      while todo != {}
        invariant Valid() && !shuttingDown && informers == old(informers)
        invariant todo <= informers.Keys && informers.Keys - todo <= Contents().started
        invariant old(Contents()).started <= Contents().started
        invariant old(launches) <= launches && wg == old(wg) + |launches| - |old(launches)|
        decreases |todo|
      {
        var informerType :| informerType in todo;
        if !(informerType in startedInformers && startedInformers[informerType]) {
          StartOne(informerType);
        }
        todo := todo - {informerType};
      }
      StartedAll(old(Contents()), Contents());
    }

    method StartOne(t: Type)
      requires Valid() && t in informers && t !in Contents().started
      modifies this
      ensures Valid() && wg == old(wg) + 1
      ensures Contents() == Launch(old(Contents()), t)
    {
      LaunchIsCoherent(Contents(), t);
      wg := wg + 1;
      launches := launches + [Entry(t, informers[t])];
      startedInformers := startedInformers[t := true];
      assert Contents().started == old(Contents()).started + {t};
    }

    /** The part of Shutdown before it waits. */
    method Shutdown()
      requires Valid()
      modifies this
      ensures Valid() && wg == old(wg)
      ensures Contents() == ShutdownSpec(old(Contents()))
      ensures shuttingDown && informers == old(informers) && startedInformers == old(startedInformers) && launches == old(launches)
    {
      shuttingDown := true;
    }

    /** The part of WaitForCacheSync before it waits. */
    method SyncedInformers() returns (r: map<Type, Informer>)
      requires Valid()
      ensures r == StartedInformers(Contents())
      ensures forall t :: t in r <==> t in informers && t in startedInformers && startedInformers[t]
      ensures forall t | t in r :: r[t] == informers[t]
    {
      r := map[];
      var todo := informers.Keys;
      while todo != {}
        invariant todo <= informers.Keys
        invariant forall t :: t in r <==> t in informers && t !in todo && t in Contents().started
        invariant forall t | t in r :: r[t] == informers[t]
        decreases |todo|
      {
        var informerType :| informerType in todo;
        if informerType in startedInformers && startedInformers[informerType] {
          r := r[informerType := informers[informerType]];
        }
        todo := todo - {informerType};
      }
    }
  }

  /** What WaitForCacheSync reports once the wait is over, and whether with an error. */
  method SyncResult(informers: map<Type, Informer>, hasSynced: Informer -> bool) returns (synced: map<Type, bool>, failed: bool)
    ensures synced.Keys == informers.Keys
    ensures forall t | t in informers :: synced[t] == hasSynced(informers[t])
    ensures failed <==> exists t :: t in informers && !hasSynced(informers[t])
  {
    synced, failed := map[], false;
    var todo := informers.Keys;
    while todo != {}
      invariant todo <= informers.Keys && synced.Keys == informers.Keys - todo
      invariant forall t | t in synced :: synced[t] == hasSynced(informers[t])
      invariant failed <==> exists t :: t in synced && !synced[t]
      decreases |todo|
    {
      var informerType :| informerType in todo;
      var has := hasSynced(informers[informerType]);
      if !has { failed := true; }
      ghost var was := synced;
      synced := synced[informerType := has];
      assert forall t | t in was :: t in synced && synced[t] == was[t];
      assert informerType in synced;
      todo := todo - {informerType};
    }
  }

  function Launch(v: View, t: Type): View
    requires t in v.informers
  {
    v.(launches := v.launches + [Entry(t, v.informers[t])], started := v.started + {t})
  }

  lemma LaunchIsCoherent(v: View, t: Type)
    requires Coherent(v) && t in v.informers && t !in v.started
    ensures Coherent(Launch(v, t))
  {
    var v' := Launch(v, t);
    assert v'.launches[|v.launches|] == Entry(t, v.informers[t]);
    forall u | u in v'.started ensures exists e :: e in v'.launches && e.key == u {
      if u != t {
        var e :| e in v.launches && e.key == u;
        assert e in v'.launches;
      }
    }
    forall i | 0 <= i < |v.launches| ensures v.launches[i].key != t {
      assert v.launches[i] in v.launches;
    }
  }

  lemma LaunchedOnceSplit(before: seq<Entry>, added: seq<Entry>)
    requires LaunchedOnce(before + added)
    ensures LaunchedOnce(added)
    ensures forall d, e | d in before && e in added :: d.key != e.key
  {
    var all := before + added;
    forall i, j | 0 <= i < j < |added| ensures added[i].key != added[j].key {
      assert all[|before| + i] == added[i] && all[|before| + j] == added[j];
    }
    forall d, e | d in before && e in added ensures d.key != e.key {
      var j :| 0 <= j < |before| && before[j] == d;
      var i :| 0 <= i < |added| && added[i] == e;
      assert all[j] == d && all[|before| + i] == e;
    }
  }

  /** When every registered informer is marked as started, the ones launched since
      are exactly those that were not. */
  lemma StartedAll(v: View, v': View)
    requires Coherent(v) && Coherent(v') && !v.shuttingDown && !v'.shuttingDown
    requires v'.informers == v.informers && v.launches <= v'.launches && v'.started == v.informers.Keys
    ensures StartSpec(v, v')
  {
    hide LaunchedOnce;
    var added := v'.launches[|v.launches|..];
    var types := v.informers.Keys - v.started;
    assert v'.launches == v.launches + added;
    LaunchedOnceSplit(v.launches, added);
    forall e | e in added ensures e.key in types && e.key in v.informers && v.informers[e.key] == e.informer {
      assert e in v'.launches;
    }
    forall t | t in types ensures exists e :: e in added && e.key == t {
      var e :| e in v'.launches && e.key == t;
      assert e !in v.launches;
    }
  }
}
