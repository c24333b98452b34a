/** The same merge for the overrides of job definitions. */
module JobOverrides {
  import opened Basics
  import opened VersionedCache

  datatype Override = Override(
    enabled: Option<bool>, schedule: Option<string>, timeoutMs: Option<int>, maxAttempts: Option<int>)

  class Definitions {
    var overrides: Option<Snapshot<Override>>

    ghost function View(): Snapshot<Override>
      reads this
    {
      if overrides.Some? then overrides.value else map[]
    }

    constructor ()
      ensures View() == map[]
    {
      overrides := None;
    }

    /** replaceOverrides. */
    method ReplaceOverrides(loaded: Snapshot<Override>)
      modifies this
      ensures View() == Merge(old(View()), loaded)
    {
      var next := loaded;
      if overrides.Some? {
        var cur := overrides.value;
        var names := cur.Keys;
        while names != {}
          invariant names <= cur.Keys
          invariant next.Keys == loaded.Keys + (cur.Keys - names)
          invariant forall k | k in next && (k in names || k !in cur) :: next[k] == loaded[k]
          invariant forall k | k in cur && k !in names :: next[k] == Merge(cur, loaded)[k]
          decreases names
        {
          var name :| name in names;
          if name !in next || cur[name].version > next[name].version {
            next := next[name := cur[name]];
          }
          names := names - {name};
        }
      }
      overrides := Some(next);
      assert next == Merge(old(View()), loaded);
    }

    /** applyOverride. */
    method ApplyOverride(name: string, o: Entry<Override>)
      modifies this
      ensures View() == Merge(old(View()), map[name := o])
    {
      if overrides.Some? && name in overrides.value && overrides.value[name].version > o.version {
        assert overrides.value == Merge(overrides.value, map[name := o]);
        return;
      }
      var next := if overrides.Some? then overrides.value else map[];
      next := next[name := o];
      overrides := Some(next);
      assert next == Merge(old(View()), map[name := o]);
    }

    /**
     Any deliveries, of one override or of a whole reload, leave for each job the newest override that arrived or was
     known before.
     */
    method DeliverAll(arrivals: seq<Delivery>)
      modifies this
      ensures View() == MergeAll(old(View()), Reads(arrivals))
      ensures forall name :: name in View() <==> Known(name, old(View()), Reads(arrivals))
      ensures forall name | name in View() :: NewestOf(View()[name], name, old(View()), Reads(arrivals))
    {
      for i := 0 to |arrivals|
        invariant View() == MergeAll(old(View()), Reads(arrivals[..i]))
      {
        assert arrivals[..i + 1][..i] == arrivals[..i];
        ReadsMore(arrivals[..i], arrivals[i]);
        assert arrivals[..i + 1] == arrivals[..i] + [arrivals[i]];
        match arrivals[i] {
          case One(name, o) => ApplyOverride(name, o);
          case All(loaded) => ReplaceOverrides(loaded);
        }
      }
      assert arrivals[..|arrivals|] == arrivals;
      forall name
        ensures name in View() <==> Known(name, old(View()), Reads(arrivals))
        ensures name in View() ==> NewestOf(View()[name], name, old(View()), Reads(arrivals))
      {
        MergeAllKeepsNewest(old(View()), Reads(arrivals), name);
      }
    }
  }

  /** What a notification's read, or a reload, brings. */
  datatype Delivery = One(name: string, o: Entry<Override>) | All(loaded: Snapshot<Override>)

  function Read(d: Delivery): Snapshot<Override> {
    match d
    case One(name, o) => map[name := o]
    case All(loaded) => loaded
  }

  function Reads(ds: seq<Delivery>): seq<Snapshot<Override>> {
    seq(|ds|, i requires 0 <= i < |ds| => Read(ds[i]))
  }

  lemma ReadsMore(ds: seq<Delivery>, d: Delivery)
    ensures Reads(ds + [d])[..|ds|] == Reads(ds) && Reads(ds + [d])[|ds|] == Read(d)
  {
  }
}
