/** The cache that keeps one built instance per configuration slot, with incremental sync and eviction by age. */
module InstanceCache {
  import opened Graphs
  import opened Wrappers
  import opened Sorting

  /** What the factory returns: the n-th instance ever built. */
  type Instance = nat

  /** A configuration, as far as the cache looks at it: its stable key and the hash of its other fields. */
  datatype Config = Config(stableKey: string, hash: string)

  datatype Entry = Entry(instance: Instance, hash: string, lastUsed: real)

  type Slots = map<string, map<string, Entry>>

  /** A namespace and a stable key in it. */
  type Place = (string, string)

  predicate Has(slots: Slots, p: Place) {
    p.0 in slots && p.1 in slots[p.0]
  }

  function At(slots: Slots, p: Place): Entry
    requires Has(slots, p)
  {
    slots[p.0][p.1]
  }

  function Put(slots: Slots, p: Place, e: Entry): Slots
    requires p.0 in slots
  {
    slots[p.0 := slots[p.0][p.1 := e]]
  }

  function Without(slots: Slots, p: Place): Slots
    requires Has(slots, p)
  {
    slots[p.0 := slots[p.0] - {p.1}]
  }

  ghost function Places(slots: Slots): (r: set<Place>)
    ensures forall p {:trigger p in r} {:trigger Has(slots, p)} :: p in r <==> Has(slots, p)
  {
    set ns, sk | ns in slots && sk in slots[ns] :: (ns, sk)
  }

  // ----- every instance is in one place or disposed, never both -----

  ghost predicate LiveAt(slots: Slots, p: Place, id: Instance) {
    Has(slots, p) && At(slots, p).instance == id
  }

  ghost predicate Live(slots: Slots, id: Instance) {
    exists p :: LiveAt(slots, p, id)
  }

  ghost predicate OnePlaceEach(slots: Slots) {
    forall p, q, id {:trigger LiveAt(slots, p, id), LiveAt(slots, q, id)} ::
      LiveAt(slots, p, id) && LiveAt(slots, q, id) ==> p == q
  }

  /** Of the `made` instances ever built, each is live in exactly one place or was disposed of exactly once. */
  ghost predicate Conserved(slots: Slots, closed: seq<Instance>, made: nat) {
    && OnePlaceEach(slots)
    && Distinct(closed)
    && (forall id: nat {:trigger Live(slots, id)} :: Live(slots, id) ==> id < made && id !in closed)
    && (forall id: nat {:trigger Live(slots, id)} {:trigger id in closed} :: id < made <==>
         Live(slots, id) || id in closed)
  }

  /** The same instances in the same places. */
  ghost predicate SameInstances(a: Slots, b: Slots) {
    forall p, id {:trigger LiveAt(a, p, id)} {:trigger LiveAt(b, p, id)} :: LiveAt(a, p, id) <==> LiveAt(b, p, id)
  }

  lemma SameConserved(a: Slots, b: Slots, closed: seq<Instance>, made: nat)
    requires SameInstances(a, b) && Conserved(a, closed, made)
    ensures Conserved(b, closed, made)
  {
    forall id ensures Live(a, id) <==> Live(b, id) {
      if Live(a, id) {
        var p :| LiveAt(a, p, id);
        assert LiveAt(b, p, id);
      }
      if Live(b, id) {
        var p :| LiveAt(b, p, id);
        assert LiveAt(a, p, id);
      }
    }
  }

  lemma BuildConserved(slots: Slots, closed: seq<Instance>, made: nat, p: Place, e: Entry)
    requires Conserved(slots, closed, made) && p.0 in slots && !Has(slots, p) && e.instance == made
    ensures Conserved(Put(slots, p, e), closed, made + 1)
  {
    var after := Put(slots, p, e);
    forall q, id ensures LiveAt(after, q, id) <==> LiveAt(slots, q, id) || (q == p && id == made) {
    }
    forall id ensures Live(after, id) <==> Live(slots, id) || id == made {
      if Live(slots, id) {
        var q :| LiveAt(slots, q, id);
        assert LiveAt(after, q, id);
      }
      if id == made {
        assert LiveAt(after, p, id);
      }
    }
    forall q, r, id | LiveAt(after, q, id) && LiveAt(after, r, id) ensures q == r {
      if id == made {
        assert !Live(slots, id);
        assert !LiveAt(slots, q, id) && !LiveAt(slots, r, id);
      }
    }
    assert !Live(slots, made) && made !in closed;
  }

  lemma DropConserved(slots: Slots, closed: seq<Instance>, made: nat, p: Place)
    requires Conserved(slots, closed, made) && Has(slots, p)
    ensures Conserved(Without(slots, p), closed + [At(slots, p).instance], made)
  {
    var after, gone := Without(slots, p), At(slots, p).instance;
    assert LiveAt(slots, p, gone);
    assert Live(slots, gone);
    forall q, id ensures LiveAt(after, q, id) <==> LiveAt(slots, q, id) && q != p {
    }
    forall id ensures Live(after, id) <==> Live(slots, id) && id != gone {
      if Live(after, id) {
        var q :| LiveAt(after, q, id);
        assert LiveAt(slots, q, id);
      }
      if Live(slots, id) && id != gone {
        var q :| LiveAt(slots, q, id);
        assert LiveAt(after, q, id);
      }
    }
  }

  /** What is left is as it was. */
  ghost predicate Subcache(a: Slots, b: Slots) {
    forall p {:trigger Has(a, p)} {:trigger At(a, p)} :: Has(a, p) ==> Has(b, p) && At(a, p) == At(b, p)
  }

  lemma PutAgain(slots: Slots, p: Place, e: Entry, f: Entry)
    requires p.0 in slots
    ensures Put(Put(slots, p, e), p, f) == Put(slots, p, f)
    ensures Has(slots, p) ==> Put(Without(slots, p), p, e) == Put(slots, p, e)
  {
    assert slots[p.0][p.1 := e][p.1 := f] == slots[p.0][p.1 := f];
    if Has(slots, p) {
      assert (slots[p.0] - {p.1})[p.1 := e] == slots[p.0][p.1 := e];
    }
  }

  // ----- counting and ageing -----

  ghost function PlacesIn(slots: Slots, names: set<string>): set<Place> {
    set ns, sk | ns in names && ns in slots && sk in slots[ns] :: (ns, sk)
  }

  lemma {:induction false} SlotSize(ns: string, keys: set<string>)
    ensures |set sk | sk in keys :: (ns, sk)| == |keys|
  {
    var places := set sk | sk in keys :: (ns, sk);
    if keys != {} {
      var k :| k in keys;
      SlotSize(ns, keys - {k});
      assert places == (set sk | sk in keys - {k} :: (ns, sk)) + {(ns, k)};
    } else {
      assert places == {};
    }
  }

  lemma PlacesGrow(slots: Slots, names: set<string>, ns: string)
    requires ns in slots && ns !in names
    ensures |PlacesIn(slots, names + {ns})| == |PlacesIn(slots, names)| + |slots[ns]|
  {
    var more := set sk | sk in slots[ns].Keys :: (ns, sk);
    SlotSize(ns, slots[ns].Keys);
    assert PlacesIn(slots, names + {ns}) == PlacesIn(slots, names) + more;
    assert PlacesIn(slots, names) !! more;
  }

  lemma WithoutSize(slots: Slots, p: Place)
    requires Has(slots, p)
    ensures |Places(Without(slots, p))| == |Places(slots)| - 1
    ensures forall q {:trigger Has(Without(slots, p), q)} ::
      Has(Without(slots, p), q) <==> Has(slots, q) && q != p
    ensures Subcache(Without(slots, p), slots)
  {
    assert Places(Without(slots, p)) == Places(slots) - {p};
  }

  function Age(slots: Slots, p: Place): real {
    if Has(slots, p) then At(slots, p).lastUsed else 0.0
  }

  class ConfigBoundInstanceCache {
    const capacity: Option<nat>
    const defaultNamespace: string
    /** Whether a reconfigure function was given. */
    const canReconfigure: bool
    var slots: Slots
    var made: nat
    ghost var closed: seq<Instance>

    ghost predicate Valid()
      reads this
    {
      Conserved(slots, closed, made)
    }

    constructor (capacity: Option<nat>, defaultNamespace: string, canReconfigure: bool)
      ensures Valid() && slots == map[] && made == 0 && closed == []
      ensures this.capacity == capacity && this.defaultNamespace == defaultNamespace
      ensures this.canReconfigure == canReconfigure
    {
      this.capacity, this.defaultNamespace, this.canReconfigure := capacity, defaultNamespace, canReconfigure;
      slots, made, closed := map[], 0, [];
    }

    function Resolve(namespace: Option<string>): (ns: string)
      ensures namespace == None || namespace == Some("") ==> ns == defaultNamespace
      ensures forall name :: namespace == Some(name) && name != "" ==> ns == name
    {
      if namespace.Some? && namespace.value != "" then namespace.value else defaultNamespace
    }

    /** The factory builds an instance for an empty place. */
    method Build(p: Place, hash: string, now: real)
      requires Valid() && p.0 in slots && !Has(slots, p)
      modifies this
      ensures Valid() && slots == Put(old(slots), p, Entry(old(made), hash, now))
      ensures made == old(made) + 1 && closed == old(closed)
    {
      BuildConserved(slots, closed, made, p, Entry(made, hash, now));
      slots := Put(slots, p, Entry(made, hash, now));
      made := made + 1;
    }

    /** Takes an entry out of its slot and disposes of its instance. */
    method Drop(p: Place)
      requires Valid() && Has(slots, p)
      modifies this
      ensures Valid() && slots == Without(old(slots), p)
      ensures made == old(made) && closed == old(closed) + [At(old(slots), p).instance]
    {
      DropConserved(slots, closed, made, p);
      closed := closed + [At(slots, p).instance];
      slots := Without(slots, p);
    }

    /** The first `n` of the listed entries go. */
    method DropAll(all: seq<Place>, n: nat)
      requires Valid() && n <= |all| && Distinct(all) && forall p :: p in all <==> Has(slots, p)
      modifies this
      ensures Valid() && made == old(made) && old(closed) <= closed && Evicted(old(slots), all[..n], slots)
    {
      for i := 0 to n
        invariant Valid() && made == old(made) && old(closed) <= closed
        invariant Evicted(old(slots), all[..i], slots)
      {
        assert all[i] in all;
        EvictNext(old(slots), all, i, slots);
        Drop(all[i]);
      }
    }

    /** An entry changes its hash or time of use, but not its instance. */
    method Mark(p: Place, hash: string, now: real)
      requires Valid() && Has(slots, p)
      modifies this
      ensures Valid() && slots == Put(old(slots), p, Entry(At(old(slots), p).instance, hash, now))
      ensures made == old(made) && closed == old(closed)
    {
      var after := Put(slots, p, Entry(At(slots, p).instance, hash, now));
      assert SameInstances(slots, after);
      SameConserved(slots, after, closed, made);
      slots := after;
    }

    /** The second step of a sync: entries no configuration asks for any more are disposed of. */
    method DropObsolete(ns: string, wanted: set<string>)
      requires Valid() && ns in slots
      modifies this
      ensures Valid() && made == old(made) && old(closed) <= closed
      ensures slots == old(slots)[ns := old(slots)[ns] - (old(slots)[ns].Keys - wanted)]
    {
      ghost var all := slots[ns].Keys - wanted;
      var obsolete := slots[ns].Keys - wanted;
      assert slots[ns] - (all - obsolete) == slots[ns];
      while obsolete != {}
        invariant Valid() && made == old(made) && old(closed) <= closed
        invariant obsolete <= all
        invariant slots == old(slots)[ns := old(slots)[ns] - (all - obsolete)]
        decreases obsolete
      {
        var sk :| sk in obsolete;
        Drop((ns, sk));
        assert all - (obsolete - {sk}) == (all - obsolete) + {sk};
        assert old(slots)[ns] - (all - (obsolete - {sk})) == old(slots)[ns] - (all - obsolete) - {sk};
        obsolete := obsolete - {sk};
      }
      assert all - {} == all;
    }

    /**
     The third step for one configuration: build, reconfigure in place or rebuild, and mark as used. `works`
     is what the reconfigure function answers if there is one and it is asked.
     */
    method Reconcile(ns: string, cfg: Config, works: bool, now: real) returns (inst: Instance)
      requires Valid() && ns in slots
      modifies this
      ensures Valid() && inst < made
      ensures slots == Put(old(slots), (ns, cfg.stableKey), Entry(inst, cfg.hash, now))
      ensures var p, ok := (ns, cfg.stableKey), canReconfigure && works;
        && Chosen(old(slots), old(made), p, cfg.hash, ok, inst)
        && made == old(made) + (if Has(old(slots), p) && !Rebuilds(old(slots), p, cfg.hash, ok) then 0 else 1)
        && closed == old(closed) +
             if Rebuilds(old(slots), p, cfg.hash, ok) then [At(old(slots), p).instance] else []
    {
      var p := (ns, cfg.stableKey);
      forall e, f ensures Put(Put(slots, p, e), p, f) == Put(slots, p, f) {
        PutAgain(slots, p, e, f);
      }
      if !Has(slots, p) {
        Build(p, cfg.hash, now);
      } else if At(slots, p).hash != cfg.hash {
        var ok := canReconfigure && works;
        if !ok {
          assert LiveAt(slots, p, At(slots, p).instance);
          Drop(p);
          Build(p, cfg.hash, now);
          PutAgain(old(slots), p, At(slots, p), At(slots, p));
        }
      }
      Mark(p, cfg.hash, now);
      inst := At(slots, p).instance;
      assert LiveAt(slots, p, inst) && Live(slots, inst);
    }

    /** The number of entries over all namespaces. */
    method TotalEntries() returns (total: nat)
      ensures total == |Places(slots)|
    {
      total := 0;
      var todo := slots.Keys;
      while todo != {}
        invariant todo <= slots.Keys
        invariant total == |PlacesIn(slots, slots.Keys - todo)|
        decreases todo
      {
        var ns :| ns in todo;
        PlacesGrow(slots, slots.Keys - todo, ns);
        assert slots.Keys - (todo - {ns}) == (slots.Keys - todo) + {ns};
        total := total + |slots[ns]|;
        todo := todo - {ns};
      }
      assert PlacesIn(slots, slots.Keys - {}) == Places(slots);
    }

    /** All entries, each once, in some order. */
    method AllEntries() returns (all: seq<Place>)
      ensures Distinct(all) && Elements(all) == Places(slots)
    {
      all := [];
      var names := slots.Keys;
      while names != {}
        invariant names <= slots.Keys
        invariant Distinct(all) && Elements(all) == PlacesIn(slots, slots.Keys - names)
        decreases names
      {
        var ns :| ns in names;
        ghost var before := all;
        var keys := slots[ns].Keys;
        while keys != {}
          invariant keys <= slots[ns].Keys
          invariant Distinct(all)
          invariant forall p :: p in Elements(all) <==>
            p in Elements(before) || (p.0 == ns && p.1 in slots[ns].Keys - keys)
          decreases keys
        {
          var sk :| sk in keys;
          assert (ns, sk) !in Elements(all);
          all := all + [(ns, sk)];
          keys := keys - {sk};
        }
        names := names - {ns};
      }
      assert PlacesIn(slots, slots.Keys - {}) == Places(slots);
    }

    /** Evicts the entries used longest ago until the capacity is met. */
    method EvictLruIfNeeded()
      requires Valid()
      modifies this
      ensures Valid() && made == old(made) && old(closed) <= closed
      ensures Subcache(slots, old(slots))
      ensures capacity == None || |Places(old(slots))| <= capacity.value ==>
        slots == old(slots) && closed == old(closed)
      ensures capacity.Some? && |Places(old(slots))| > capacity.value ==> |Places(slots)| == capacity.value
      ensures forall p, q {:trigger Has(slots, p), Has(old(slots), q)} ::
        Has(slots, p) && Has(old(slots), q) && !Has(slots, q) ==> At(old(slots), q).lastUsed <= At(slots, p).lastUsed
    {
      var total := TotalEntries();
      if capacity == None || total <= capacity.value {
        return;
      }
      var entries := AllEntries();
      var aged := slots;
      var all := Sorted((p: Place) => Age(aged, p), entries);
      AllCounted(slots, all);
      var toRemove := total - capacity.value;
      DropAll(all, toRemove);
      OldestGone(old(slots), all, toRemove, slots);
    }

    /** Steps one to three of a sync: afterwards the namespace holds exactly the configurations asked for. */
    method Reconciled(cfgs: seq<Config>, works: seq<bool>, ns: string, now: real) returns (insts: seq<Instance>)
      requires Valid() && |works| == |cfgs|
      modifies this
      ensures Valid() && old(made) <= made && old(closed) <= closed
      ensures ns in slots && slots[ns].Keys == Keys(cfgs)
      ensures forall p: Place {:trigger SameAt(old(slots), slots, p)} :: p.0 != ns ==> SameAt(old(slots), slots, p)
      ensures |insts| == |cfgs|
      ensures (slots, made, insts) ==
              Replay(Kept(old(slots), ns, Keys(cfgs)), old(made), ns, cfgs, canReconfigure, works, now)
      ensures DistinctKeys(cfgs) ==> forall i {:trigger insts[i]} :: 0 <= i < |cfgs| ==>
        Synced(old(slots), old(made), slots, ns, cfgs[i], canReconfigure && works[i], insts[i], now)
    {
      if ns !in slots {
        OpenNamespace(ns);
      }
      var desired := Keys(cfgs);
      DropObsolete(ns, desired);
      ghost var kept := slots;
      assert kept[ns] == Kept(old(slots), ns, Keys(cfgs))[ns];
      assert kept == Kept(old(slots), ns, Keys(cfgs));
      insts := ReconcileAll(cfgs, works, ns, now);
      SyncDone(old(slots), kept, old(made), ns, cfgs, canReconfigure, works, insts, slots, now);
    }

    /** The third step, in the order of the configurations. */
    method ReconcileAll(cfgs: seq<Config>, works: seq<bool>, ns: string, now: real) returns (insts: seq<Instance>)
      requires Valid() && ns in slots && |works| == |cfgs|
      modifies this
      ensures Valid() && old(made) <= made && old(closed) <= closed
      ensures SyncedUpTo(old(slots), old(made), ns, cfgs, canReconfigure, works, |cfgs|, insts, slots, now)
      ensures (slots, made, insts) == Replay(old(slots), old(made), ns, cfgs, canReconfigure, works, now)
    {
      insts := [];
      assert slots == slots[ns := slots[ns]];
      for i := 0 to |cfgs|
        invariant Valid() && old(made) <= made && old(closed) <= closed
        invariant SyncedUpTo(old(slots), old(made), ns, cfgs, canReconfigure, works, i, insts, slots, now)
        invariant (slots, made, insts) == Replay(old(slots), old(made), ns, cfgs[..i], canReconfigure, works, now)
      {
        ghost var before, count := slots, made;
        var inst := Reconcile(ns, cfgs[i], works[i], now);
        SyncStep(old(slots), old(made), ns, cfgs, canReconfigure, works, i, insts, before, count, inst, now);
        ReplayStep(old(slots), old(made), ns, cfgs, canReconfigure, works, i, insts, before, count, inst, now,
                   slots, made);
        insts := insts + [inst];
      }
      assert cfgs[..|cfgs|] == cfgs;
    }

    /** An empty namespace is added; nothing else changes. */
    method OpenNamespace(ns: string)
      requires Valid() && ns !in slots
      modifies this
      ensures Valid() && slots == old(slots)[ns := map[]] && made == old(made) && closed == old(closed)
    {
      assert SameInstances(slots, slots[ns := map[]]);
      SameConserved(slots, slots[ns := map[]], closed, made);
      slots := slots[ns := map[]];
    }

    /**
     Reconciles a namespace with a list of configurations and hands out one instance for each. With distinct
     keys, an instance still in the cache afterwards is current for its configuration; unchanged and reconfigured
     configurations keep their instance, the other changed ones get a new one and the old one is disposed of.
     `works` is what the reconfigure function answers for each, if there is one and it is asked. The capacity
     holds, eviction goes no further than the capacity, and if the capacity covers the list and every earlier
     use is strictly older, nothing handed out is evicted.
     */
    method SyncAndGet(cfgs: seq<Config>, works: seq<bool>, namespace: Option<string>, now: real)
      returns (insts: seq<Instance>)
      requires Valid() && |works| == |cfgs|
      modifies this
      ensures Valid() && old(made) <= made && old(closed) <= closed && |insts| == |cfgs|
      ensures var r := Replay(Kept(old(slots), Resolve(namespace), Keys(cfgs)), old(made), Resolve(namespace), cfgs,
                              canReconfigure, works, now);
              insts == r.2 && made == r.1 && Subcache(slots, r.0)
      ensures capacity.Some? ==> |Places(slots)| <= capacity.value
      ensures forall p {:trigger Has(slots, p)} :: Has(slots, p) ==>
        if p.0 == Resolve(namespace) then p.1 in Keys(cfgs) else SameAt(old(slots), slots, p)
      ensures DistinctKeys(cfgs) ==> Distinct(insts) && forall i {:trigger insts[i]} :: 0 <= i < |cfgs| ==>
        && Chosen(old(slots), old(made), PlaceOf(Resolve(namespace), cfgs[i]), cfgs[i].hash,
                  canReconfigure && works[i], insts[i])
        && CurrentIfThere(slots, PlaceOf(Resolve(namespace), cfgs[i]), Entry(insts[i], cfgs[i].hash, now))
      ensures DistinctKeys(cfgs) ==> forall i {:trigger works[i]} :: 0 <= i < |cfgs| ==>
        var p := PlaceOf(Resolve(namespace), cfgs[i]);
        Rebuilds(old(slots), p, cfgs[i].hash, canReconfigure && works[i]) ==>
          At(old(slots), p).instance in closed && At(old(slots), p).instance !in old(closed)
      ensures (capacity == None || |Places(slots)| < capacity.value) ==>
        && Resolve(namespace) in slots && slots[Resolve(namespace)].Keys == Keys(cfgs)
        && forall p: Place {:trigger SameAt(old(slots), slots, p)} :: p.0 != Resolve(namespace) ==>
           SameAt(old(slots), slots, p)
      ensures DistinctKeys(cfgs) && (capacity == None || (|cfgs| <= capacity.value && UsedBefore(old(slots), now))) ==>
        forall i {:trigger insts[i]} :: 0 <= i < |cfgs| ==>
          LiveAt(slots, PlaceOf(Resolve(namespace), cfgs[i]), insts[i])
    {
      var ns := Resolve(namespace);
      insts := Reconciled(cfgs, works, ns, now);
      ghost var synced := slots;
      if DistinctKeys(cfgs) {
        HandedOutOnce(slots, ns, cfgs, canReconfigure, works, insts, old(slots), old(made), now);
      }
      if capacity.Some? {
        EvictLruIfNeeded();
      }
      forall p: Place | Has(slots, p) ensures if p.0 == ns then p.1 in Keys(cfgs) else SameAt(old(slots), slots, p) {
        assert Has(synced, p) && At(synced, p) == At(slots, p);
        assert p.0 == ns || SameAt(old(slots), synced, p);
      }
      if DistinctKeys(cfgs) {
        CurrentAfterEviction(synced, slots, ns, cfgs, canReconfigure, works, insts, old(slots), old(made), now);
        forall i | 0 <= i < |cfgs| &&
          Rebuilds(old(slots), PlaceOf(ns, cfgs[i]), cfgs[i].hash, canReconfigure && works[i])
          ensures At(old(slots), PlaceOf(ns, cfgs[i])).instance in closed
          ensures At(old(slots), PlaceOf(ns, cfgs[i])).instance !in old(closed)
        {
          RebuiltIsGone(old(slots), old(made), synced, slots, ns, cfgs, canReconfigure, works, insts, now, i);
          assert LiveAt(old(slots), PlaceOf(ns, cfgs[i]), At(old(slots), PlaceOf(ns, cfgs[i])).instance);
          assert Live(old(slots), At(old(slots), PlaceOf(ns, cfgs[i])).instance);
        }
        if capacity == None || (|cfgs| <= capacity.value && UsedBefore(old(slots), now)) {
          NothingHandedOutEvicted(old(slots), synced, slots, capacity, ns, cfgs, canReconfigure, works, insts,
            old(made), now);
        }
      }
    }

    /** An existing instance, marked as used. */
    method GetExisting(stableKey: string, namespace: Option<string>, now: real) returns (inst: Option<Instance>)
      requires Valid()
      modifies this
      ensures Valid() && made == old(made) && closed == old(closed)
      ensures inst.Some? <==> Has(old(slots), (Resolve(namespace), stableKey))
      ensures inst == None ==> slots == old(slots)
      ensures inst.Some? ==> var p := (Resolve(namespace), stableKey);
                             inst.value == At(old(slots), p).instance &&
                             slots == Put(old(slots), p, At(old(slots), p).(lastUsed := now))
    {
      var p := (Resolve(namespace), stableKey);
      if !Has(slots, p) {
        return None;
      }
      Mark(p, At(slots, p).hash, now);
      inst := Some(At(slots, p).instance);
    }

    method Remove(stableKey: string, namespace: Option<string>)
      requires Valid()
      modifies this
      ensures Valid() && made == old(made)
      ensures var p := (Resolve(namespace), stableKey);
              if Has(old(slots), p) then slots == Without(old(slots), p) &&
                closed == old(closed) + [At(old(slots), p).instance]
              else slots == old(slots) && closed == old(closed)
    {
      var p := (Resolve(namespace), stableKey);
      if Has(slots, p) {
        Drop(p);
      }
    }

    /** Disposes of every entry of a namespace and forgets the namespace. */
    method ClearNamespace(namespace: Option<string>)
      requires Valid()
      modifies this
      ensures Valid() && made == old(made) && old(closed) <= closed
      ensures slots == old(slots) - {Resolve(namespace)}
    {
      var ns := Resolve(namespace);
      if ns in slots {
        DropObsolete(ns, {});
        CloseNamespace(ns);
      }
      assert slots == old(slots) - {ns};
    }

    /** An empty namespace is removed; nothing else changes. */
    method CloseNamespace(ns: string)
      requires Valid() && ns in slots && slots[ns] == map[]
      modifies this
      ensures Valid() && slots == old(slots) - {ns} && made == old(made) && closed == old(closed)
    {
      assert SameInstances(slots, slots - {ns});
      SameConserved(slots, slots - {ns}, closed, made);
      slots := slots - {ns};
    }

    /** Disposes of everything. */
    method ClearAll()
      requires Valid()
      modifies this
      ensures Valid() && slots == map[] && made == old(made)
      ensures forall id: nat :: id < made <==> id in closed
    {
      var names := slots.Keys;
      while names != {}
        invariant Valid() && made == old(made) && slots.Keys == names
        decreases names
      {
        var ns :| ns in names;
        DropObsolete(ns, {});
        CloseNamespace(ns);
        names := names - {ns};
      }
      forall id: nat, p: Place ensures !LiveAt(slots, p, id) {
      }
      assert forall id: nat :: !Live(slots, id);
    }

    /** Disposes of the entries not used since the cutoff and returns how many there were. */
    method PruneIdle(idleSeconds: real, now: real) returns (removed: nat)
      requires Valid()
      modifies this
      ensures Valid() && made == old(made) && old(closed) <= closed && |closed| == |old(closed)| + removed
      ensures Subcache(slots, old(slots))
      ensures forall p {:trigger Has(slots, p)} :: Has(slots, p) <==>
        Has(old(slots), p) && At(old(slots), p).lastUsed >= now - idleSeconds
    {
      var cutoff := now - idleSeconds;
      removed := 0;
      var names := slots.Keys;
      PrunedNone(slots, cutoff);
      while names != {}
        invariant Valid() && made == old(made) && old(closed) <= closed && |closed| == |old(closed)| + removed
        invariant names <= slots.Keys && PrunedOutside(old(slots), slots, names, cutoff)
        decreases names
      {
        var ns :| ns in names;
        ghost var before := slots;
        var count := PruneNamespace(ns, cutoff);
        removed := removed + count;
        PrunedOne(old(slots), before, slots, names, ns, cutoff);
        if slots[ns] == map[] {
          PrunedEmpty(old(slots), slots, names - {ns}, ns, cutoff);
          CloseNamespace(ns);
        }
        names := names - {ns};
      }
    }

    /** The entries of one namespace not used since the cutoff go. */
    method PruneNamespace(ns: string, cutoff: real) returns (removed: nat)
      requires Valid() && ns in slots
      modifies this
      ensures Valid() && made == old(made) && old(closed) <= closed && |closed| == |old(closed)| + removed
      ensures ns in slots && slots == old(slots)[ns := slots[ns]]
      ensures slots[ns] == map sk | sk in old(slots)[ns] && old(slots)[ns][sk].lastUsed >= cutoff :: old(slots)[ns][sk]
    {
      var keys := slots[ns].Keys;
      removed := 0;
      assert slots == slots[ns := slots[ns]];
      while keys != {}
        invariant Valid() && made == old(made) && old(closed) <= closed && |closed| == |old(closed)| + removed
        invariant keys <= old(slots)[ns].Keys && ns in slots && slots == old(slots)[ns := slots[ns]]
        invariant slots[ns] == map sk | sk in old(slots)[ns] && (sk in keys || old(slots)[ns][sk].lastUsed >= cutoff) ::
          old(slots)[ns][sk]
        decreases keys
      {
        var sk :| sk in keys;
        if slots[ns][sk].lastUsed < cutoff {
          Drop((ns, sk));
          removed := removed + 1;
        }
        keys := keys - {sk};
      }
    }
  }

  ghost predicate PrunedAt(before: Slots, after: Slots, p: Place, cutoff: real) {
    && (Has(after, p) <==> Has(before, p) && At(before, p).lastUsed >= cutoff)
    && (Has(after, p) ==> At(after, p) == At(before, p))
  }

  /** All namespaces but the listed ones have been pruned. */
  ghost predicate PrunedOutside(before: Slots, after: Slots, names: set<string>, cutoff: real) {
    forall p: Place {:trigger Has(after, p)} {:trigger Has(before, p)} ::
      if p.0 in names then SameAt(before, after, p) else PrunedAt(before, after, p, cutoff)
  }

  lemma PrunedNone(slots: Slots, cutoff: real)
    ensures PrunedOutside(slots, slots, slots.Keys, cutoff)
  {
    forall p: Place ensures if p.0 in slots.Keys then SameAt(slots, slots, p) else PrunedAt(slots, slots, p, cutoff) {
      assert Has(slots, p) ==> p.0 in slots.Keys;
    }
  }

  lemma PrunedEmpty(start: Slots, after: Slots, names: set<string>, ns: string, cutoff: real)
    requires PrunedOutside(start, after, names, cutoff) && ns in after && after[ns] == map[]
    ensures PrunedOutside(start, after - {ns}, names, cutoff)
  {
    forall p: Place
      ensures if p.0 in names then SameAt(start, after - {ns}, p) else PrunedAt(start, after - {ns}, p, cutoff)
    {
      assert Has(after, p) <==> Has(after - {ns}, p);
    }
  }

  lemma PrunedOne(start: Slots, before: Slots, after: Slots, names: set<string>, ns: string, cutoff: real)
    requires PrunedOutside(start, before, names, cutoff) && ns in names && ns in before
    requires ns in after && after == before[ns := after[ns]]
    requires after[ns] == map sk | sk in before[ns] && before[ns][sk].lastUsed >= cutoff :: before[ns][sk]
    ensures PrunedOutside(start, after, names - {ns}, cutoff)
  {
    forall p: Place ensures if p.0 in names - {ns} then SameAt(start, after, p) else PrunedAt(start, after, p, cutoff) {
      assert Has(before, p) || !Has(before, p);
    }
  }

  // ----- one sync -----

  /** Every entry was used strictly before `now`. */
  ghost predicate UsedBefore(slots: Slots, now: real) {
    forall p {:trigger Has(slots, p)} :: Has(slots, p) ==> At(slots, p).lastUsed < now
  }

  ghost predicate CurrentIfThere(slots: Slots, p: Place, e: Entry) {
    Has(slots, p) ==> At(slots, p) == e
  }

  lemma HandedOutOnce(slots: Slots, ns: string, cfgs: seq<Config>, can: bool, works: seq<bool>, insts: seq<Instance>,
                      before: Slots, made: nat, now: real)
    requires OnePlaceEach(slots) && DistinctKeys(cfgs) && |insts| == |works| == |cfgs|
    requires forall i {:trigger insts[i]} :: 0 <= i < |cfgs| ==>
      Synced(before, made, slots, ns, cfgs[i], can && works[i], insts[i], now)
    ensures Distinct(insts)
  {
    forall i, j | 0 <= i < j < |insts| ensures insts[i] != insts[j] {
      assert Synced(before, made, slots, ns, cfgs[i], can && works[i], insts[i], now) &&
        Synced(before, made, slots, ns, cfgs[j], can && works[j], insts[j], now);
      assert LiveAt(slots, PlaceOf(ns, cfgs[i]), insts[i]) && LiveAt(slots, PlaceOf(ns, cfgs[j]), insts[j]);
    }
  }

  lemma CurrentAfterEviction(synced: Slots, after: Slots, ns: string, cfgs: seq<Config>, can: bool, works: seq<bool>,
                             insts: seq<Instance>, before: Slots, made: nat, now: real)
    requires Subcache(after, synced) && |insts| == |works| == |cfgs|
    requires forall i {:trigger insts[i]} :: 0 <= i < |cfgs| ==>
      Synced(before, made, synced, ns, cfgs[i], can && works[i], insts[i], now)
    ensures forall i {:trigger insts[i]} :: 0 <= i < |cfgs| ==>
      && Chosen(before, made, PlaceOf(ns, cfgs[i]), cfgs[i].hash, can && works[i], insts[i])
      && CurrentIfThere(after, PlaceOf(ns, cfgs[i]), Entry(insts[i], cfgs[i].hash, now))
  {
    forall i | 0 <= i < |cfgs|
      ensures Chosen(before, made, PlaceOf(ns, cfgs[i]), cfgs[i].hash, can && works[i], insts[i])
      ensures CurrentIfThere(after, PlaceOf(ns, cfgs[i]), Entry(insts[i], cfgs[i].hash, now))
    {
      assert Synced(before, made, synced, ns, cfgs[i], can && works[i], insts[i], now);
    }
  }

  ghost function PlacesOf(ns: string, cfgs: seq<Config>): (r: seq<Place>)
    ensures |r| == |cfgs| && forall i :: 0 <= i < |cfgs| ==> r[i] == PlaceOf(ns, cfgs[i])
  {
    seq(|cfgs|, i requires 0 <= i < |cfgs| => PlaceOf(ns, cfgs[i]))
  }

  /** An eviction of something handed out would leave only handed-out entries, fewer than the capacity. */
  lemma NothingHandedOutEvicted(before: Slots, synced: Slots, after: Slots, capacity: Option<nat>, ns: string,
                                cfgs: seq<Config>, can: bool, works: seq<bool>,
                                insts: seq<Instance>, made: nat, now: real)
    requires |insts| == |works| == |cfgs| && (capacity == None || (|cfgs| <= capacity.value && UsedBefore(before, now)))
    requires forall i {:trigger insts[i]} :: 0 <= i < |cfgs| ==>
      Synced(before, made, synced, ns, cfgs[i], can && works[i], insts[i], now)
    requires ns in synced && synced[ns].Keys == Keys(cfgs)
    requires forall p: Place {:trigger SameAt(before, synced, p)} :: p.0 != ns ==> SameAt(before, synced, p)
    requires Subcache(after, synced)
    requires capacity == None || |Places(synced)| <= capacity.value ==> after == synced
    requires capacity.Some? && |Places(synced)| > capacity.value ==> |Places(after)| == capacity.value
    requires forall p, q {:trigger Has(after, p), Has(synced, q)} ::
      Has(after, p) && Has(synced, q) && !Has(after, q) ==> At(synced, q).lastUsed <= At(after, p).lastUsed
    ensures forall i {:trigger insts[i]} :: 0 <= i < |cfgs| ==> LiveAt(after, PlaceOf(ns, cfgs[i]), insts[i])
  {
    forall i | 0 <= i < |cfgs| ensures LiveAt(after, PlaceOf(ns, cfgs[i]), insts[i]) {
      assert Synced(before, made, synced, ns, cfgs[i], can && works[i], insts[i], now);
      var p := PlaceOf(ns, cfgs[i]);
      if !Has(after, p) {
        forall q | Has(after, q) ensures q in Elements(PlacesOf(ns, cfgs)) - {p} {
          assert Has(synced, q) && At(synced, q).lastUsed >= now;
          assert q.0 == ns by {
            assert SameAt(before, synced, q) || q.0 == ns;
          }
          assert q.1 in Keys(cfgs);
          var k :| 0 <= k < |cfgs| && cfgs[k].stableKey == q.1;
          assert PlacesOf(ns, cfgs)[k] == q;
        }
        assert PlacesOf(ns, cfgs)[i] == p;
        ElementsSize(PlacesOf(ns, cfgs));
        SubsetSize(Places(after), Elements(PlacesOf(ns, cfgs)) - {p});
      }
    }
  }

  ghost function PlaceOf(ns: string, cfg: Config): Place {
    (ns, cfg.stableKey)
  }

  function Keys(cfgs: seq<Config>): set<string> {
    set cfg | cfg in cfgs :: cfg.stableKey
  }

  ghost predicate DistinctKeys(cfgs: seq<Config>) {
    forall i, j :: 0 <= i < j < |cfgs| ==> cfgs[i].stableKey != cfgs[j].stableKey
  }

  ghost predicate HoldsEntry(slots: Slots, p: Place, e: Entry) {
    Has(slots, p) && At(slots, p) == e
  }

  ghost predicate SameAt(a: Slots, b: Slots, p: Place) {
    (Has(a, p) <==> Has(b, p)) && (Has(a, p) ==> At(a, p) == At(b, p))
  }

  /** The configuration's place holds the chosen instance, current and just used. */
  ghost predicate Synced(before: Slots, made: nat, slots: Slots, ns: string, cfg: Config, ok: bool, inst: Instance,
                         now: real) {
    && HoldsEntry(slots, PlaceOf(ns, cfg), Entry(inst, cfg.hash, now))
    && Chosen(before, made, PlaceOf(ns, cfg), cfg.hash, ok, inst)
  }

  /** The first `n` configurations have been dealt with. */
  ghost predicate SyncedUpTo(kept: Slots, made: nat, ns: string, cfgs: seq<Config>, can: bool, works: seq<bool>, n: nat,
                             insts: seq<Instance>, slots: Slots, now: real) {
    && n <= |cfgs| == |works| && |insts| == n
    && ns in kept && ns in slots && slots == kept[ns := slots[ns]]
    && slots[ns].Keys == kept[ns].Keys + Keys(cfgs[..n])
    && (DistinctKeys(cfgs) ==>
      && (forall k {:trigger insts[k]} :: 0 <= k < n ==>
           Synced(kept, made, slots, ns, cfgs[k], can && works[k], insts[k], now))
      && (forall k {:trigger cfgs[k]} :: n <= k < |cfgs| ==> SameAt(kept, slots, PlaceOf(ns, cfgs[k]))))
  }

  lemma SyncStep(kept: Slots, made: nat, ns: string, cfgs: seq<Config>, can: bool, works: seq<bool>, i: nat,
                 insts: seq<Instance>, before: Slots, count: nat, inst: Instance, now: real)
    requires i < |cfgs| == |works| && made <= count &&
      SyncedUpTo(kept, made, ns, cfgs, can, works, i, insts, before, now)
    requires Chosen(before, count, PlaceOf(ns, cfgs[i]), cfgs[i].hash, can && works[i], inst)
    ensures SyncedUpTo(kept, made, ns, cfgs, can, works, i + 1, insts + [inst],
      Put(before, PlaceOf(ns, cfgs[i]), Entry(inst, cfgs[i].hash, now)), now)
  {
    var after := Put(before, PlaceOf(ns, cfgs[i]), Entry(inst, cfgs[i].hash, now));
    assert cfgs[..i + 1] == cfgs[..i] + [cfgs[i]];
    assert Keys(cfgs[..i + 1]) == Keys(cfgs[..i]) + {cfgs[i].stableKey};
    assert after == kept[ns := after[ns]];
    if DistinctKeys(cfgs) {
      assert SameAt(kept, before, PlaceOf(ns, cfgs[i])) by {
        assert cfgs[i] == cfgs[i];
      }
      forall k | 0 <= k < i + 1
        ensures Synced(kept, made, after, ns, cfgs[k], can && works[k], (insts + [inst])[k], now)
      {
        if k < i {
          assert Synced(kept, made, before, ns, cfgs[k], can && works[k], insts[k], now);
        }
      }
      forall k | i + 1 <= k < |cfgs| ensures SameAt(kept, after, PlaceOf(ns, cfgs[k])) {
        assert SameAt(kept, before, PlaceOf(ns, cfgs[k])) by {
          assert cfgs[k] == cfgs[k];
        }
      }
    }
  }

  lemma SyncDone(before: Slots, kept: Slots, made: nat, ns: string, cfgs: seq<Config>, can: bool, works: seq<bool>,
                 insts: seq<Instance>, slots: Slots, now: real)
    requires SyncedUpTo(kept, made, ns, cfgs, can, works, |cfgs|, insts, slots, now)
    requires kept.Keys == before.Keys + {ns} && forall m :: m in before && m != ns ==> kept[m] == before[m]
    requires kept[ns] == (if ns in before then before[ns] - (before[ns].Keys - Keys(cfgs)) else map[])
    ensures slots[ns].Keys == Keys(cfgs)
    ensures forall p: Place {:trigger SameAt(before, slots, p)} :: p.0 != ns ==> SameAt(before, slots, p)
    ensures DistinctKeys(cfgs) ==> forall i {:trigger insts[i]} :: 0 <= i < |cfgs| ==>
      Synced(before, made, slots, ns, cfgs[i], can && works[i], insts[i], now)
  {
    assert cfgs[..|cfgs|] == cfgs;
    if DistinctKeys(cfgs) {
      forall i | 0 <= i < |cfgs| ensures Synced(before, made, slots, ns, cfgs[i], can && works[i], insts[i], now) {
        assert Synced(kept, made, slots, ns, cfgs[i], can && works[i], insts[i], now);
        assert cfgs[i].stableKey in Keys(cfgs);
        assert SameAt(before, kept, PlaceOf(ns, cfgs[i]));
      }
    }
  }

  /** `after` lacks exactly the listed places, each of them once. */
  ghost predicate Evicted(before: Slots, gone: seq<Place>, after: Slots) {
    && Subcache(after, before)
    && |Places(after)| + |gone| == |Places(before)|
    && forall q {:trigger Has(after, q)} {:trigger q in gone} :: Has(after, q) <==> Has(before, q) && q !in gone
  }

  lemma EvictNext(before: Slots, all: seq<Place>, i: nat, slots: Slots)
    requires i < |all| && Distinct(all) && Evicted(before, all[..i], slots) && Has(before, all[i])
    ensures Has(slots, all[i]) && Evicted(before, all[..i + 1], Without(slots, all[i]))
  {
    assert all[i] !in all[..i];
    assert all[..i + 1] == all[..i] + [all[i]];
    WithoutSize(slots, all[i]);
  }

  lemma AllCounted(slots: Slots, all: seq<Place>)
    requires Distinct(all) && Elements(all) == Places(slots)
    ensures |all| == |Places(slots)| && forall p :: p in all <==> Has(slots, p)
  {
    ElementsSize(all);
    assert forall p :: p in all <==> p in Elements(all);
  }

  lemma OldestGone(before: Slots, all: seq<Place>, n: nat, after: Slots)
    requires n <= |all| && Ascending((p: Place) => Age(before, p), all) && Evicted(before, all[..n], after)
    requires forall p :: p in all <==> Has(before, p)
    ensures forall p, q {:trigger Has(after, p), Has(before, q)} ::
      Has(after, p) && Has(before, q) && !Has(after, q) ==> At(before, q).lastUsed <= At(after, p).lastUsed
  {
    forall p, q | Has(after, p) && Has(before, q) && !Has(after, q)
      ensures At(before, q).lastUsed <= At(after, p).lastUsed
    {
      var i :| 0 <= i < n && all[..n][i] == q;
      assert p in all;
      var j :| 0 <= j < |all| && all[j] == p;
      forall k | 0 <= k < n ensures all[k] != p {
        assert all[..n][k] == all[k];
      }
      assert Age(before, all[i]) <= Age(before, all[j]);
    }
  }

  /**
   The instance a sync hands out: the one already there if its configuration did not change or it could be
   reconfigured, else a new one.
   */
  ghost predicate Chosen(before: Slots, made: nat, p: Place, hash: string, ok: bool, inst: Instance) {
    if Has(before, p) && (At(before, p).hash == hash || ok) then inst == At(before, p).instance else inst >= made
  }

  /** The namespace without the entries nobody asks for any more; a new one is empty. */
  ghost function Kept(slots: Slots, ns: string, wanted: set<string>): (r: Slots)
    ensures ns in r
  {
    slots[ns := if ns in slots then slots[ns] - (slots[ns].Keys - wanted) else map[]]
  }

  /** The cache, the number of instances built and the instances handed out after one configuration after the other. */
  ghost function Replay(slots: Slots, made: nat, ns: string, cfgs: seq<Config>, can: bool, works: seq<bool>, now: real):
    (r: (Slots, nat, seq<Instance>))
    requires ns in slots && |cfgs| <= |works|
    ensures ns in r.0
  {
    if cfgs == [] then (slots, made, []) else
      var k := |cfgs| - 1;
      var before := Replay(slots, made, ns, cfgs[..k], can, works, now);
      var p := PlaceOf(ns, cfgs[k]);
      var keeps := Has(before.0, p) && !Rebuilds(before.0, p, cfgs[k].hash, can && works[k]);
      var inst := if keeps then At(before.0, p).instance else before.1;
      (Put(before.0, p, Entry(inst, cfgs[k].hash, now)), if keeps then before.1 else before.1 + 1, before.2 + [inst])
  }

  lemma ReplayStep(slots: Slots, made: nat, ns: string, cfgs: seq<Config>, can: bool, works: seq<bool>, i: nat,
                   insts: seq<Instance>, before: Slots, count: nat, inst: Instance, now: real,
                   after: Slots, more: nat)
    requires i < |cfgs| == |works| && ns in slots
    requires (before, count, insts) == Replay(slots, made, ns, cfgs[..i], can, works, now)
    requires var p, ok := PlaceOf(ns, cfgs[i]), can && works[i];
      && Chosen(before, count, p, cfgs[i].hash, ok, inst) && inst < more
      && more == count + (if Has(before, p) && !Rebuilds(before, p, cfgs[i].hash, ok) then 0 else 1)
      && after == Put(before, p, Entry(inst, cfgs[i].hash, now))
    ensures (after, more, insts + [inst]) == Replay(slots, made, ns, cfgs[..i + 1], can, works, now)
  {
    assert cfgs[..i + 1][..i] == cfgs[..i];
  }

  /** The place holds an instance whose configuration changed and which could not be reconfigured. */
  ghost predicate Rebuilds(before: Slots, p: Place, hash: string, ok: bool) {
    Has(before, p) && At(before, p).hash != hash && !ok
  }

  /** An instance that was rebuilt is not left anywhere. */
  lemma RebuiltIsGone(before: Slots, made: nat, synced: Slots, after: Slots, ns: string, cfgs: seq<Config>, can: bool,
                      works: seq<bool>, insts: seq<Instance>, now: real, i: nat)
    requires |insts| == |works| == |cfgs| && DistinctKeys(cfgs) && i < |cfgs|
    requires OnePlaceEach(before) && forall id: nat :: Live(before, id) ==> id < made
    requires forall k {:trigger insts[k]} :: 0 <= k < |cfgs| ==>
      Synced(before, made, synced, ns, cfgs[k], can && works[k], insts[k], now)
    requires ns in synced && synced[ns].Keys == Keys(cfgs) && Subcache(after, synced)
    requires forall p: Place {:trigger SameAt(before, synced, p)} :: p.0 != ns ==> SameAt(before, synced, p)
    requires Rebuilds(before, PlaceOf(ns, cfgs[i]), cfgs[i].hash, can && works[i])
    ensures !Live(after, At(before, PlaceOf(ns, cfgs[i])).instance)
  {
    var p := PlaceOf(ns, cfgs[i]);
    var id := At(before, p).instance;
    assert LiveAt(before, p, id);
    assert Live(before, id);
    forall q | Has(after, q) ensures At(after, q).instance != id {
      var x := At(after, q).instance;
      if q.0 == ns {
        assert q.1 in Keys(cfgs);
        var k :| 0 <= k < |cfgs| && cfgs[k].stableKey == q.1;
        assert Synced(before, made, synced, ns, cfgs[k], can && works[k], insts[k], now);
        if x < made {
          assert LiveAt(before, q, x);
        }
      } else {
        assert SameAt(before, synced, q);
        assert LiveAt(before, q, x);
      }
    }
  }
}
