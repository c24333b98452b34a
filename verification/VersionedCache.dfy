/**
 The merge behind every in-memory copy of versioned rows: an entry gives way only to one that is not
 older. Flags and job overrides both use it, one entry at a time and for whole reloads.
 */
module VersionedCache {
  datatype Entry<V> = Entry(value: V, version: int)

  type Snapshot<V> = map<string, Entry<V>>

  /** The copy after a read was merged into it. */
  function Merge<V>(cur: Snapshot<V>, read: Snapshot<V>): (r: Snapshot<V>)
    ensures r.Keys == cur.Keys + read.Keys
  {
    map k | k in cur.Keys + read.Keys ::
      if k in read && !(k in cur && cur[k].version > read[k].version) then read[k] else cur[k]
  }

  /** Reads merged in the order they arrive. */
  function MergeAll<V>(cur: Snapshot<V>, arrivals: seq<Snapshot<V>>): Snapshot<V> {
    if arrivals == [] then cur else Merge(MergeAll(cur, arrivals[..|arrivals| - 1]), arrivals[|arrivals| - 1])
  }

  /** What each version of each key really is. */
  ghost predicate Agrees<V(!new)>(m: Snapshot<V>, truth: (string, int) -> V) {
    forall k | k in m :: m[k].value == truth(k, m[k].version)
  }

  /** On copies of one truth the merge is a join: idempotent, commutative and associative. */
  lemma MergeIsJoin<V(!new)>(a: Snapshot<V>, b: Snapshot<V>, c: Snapshot<V>, truth: (string, int) -> V)
    requires Agrees(a, truth) && Agrees(b, truth) && Agrees(c, truth)
    ensures Agrees(Merge(a, b), truth)
    ensures Merge(a, a) == a
    ensures Merge(a, b) == Merge(b, a)
    ensures Merge(Merge(a, b), c) == Merge(a, Merge(b, c))
  {
    var ab, ba := Merge(a, b), Merge(b, a);
    forall k | k in ab
      ensures k in ba && ab[k] == ba[k]
    {
      if k in a && k in b && a[k].version == b[k].version {
        assert a[k].value == truth(k, a[k].version) && b[k].value == truth(k, b[k].version);
      }
    }
    assert ab.Keys == ba.Keys;
    MergeAssociates(a, b, c);
  }

  lemma MergeAssociates<V>(a: Snapshot<V>, b: Snapshot<V>, c: Snapshot<V>)
    ensures Merge(Merge(a, b), c) == Merge(a, Merge(b, c))
  {
    var l, r := Merge(Merge(a, b), c), Merge(a, Merge(b, c));
    assert l.Keys == r.Keys;
    assert forall k | k in l :: l[k] == r[k];
  }

  /** The newest entry a key has among the reads and the copy they arrive at. */
  ghost predicate NewestOf<V(!new)>(e: Entry<V>, k: string, cur: Snapshot<V>, arrivals: seq<Snapshot<V>>) {
    && ((k in cur && cur[k] == e) || exists r: Snapshot<V> | r in arrivals :: k in r && r[k] == e)
    && (k in cur ==> cur[k].version <= e.version)
    && (forall r: Snapshot<V> | r in arrivals && k in r :: r[k].version <= e.version)
  }

  predicate Known<V>(k: string, cur: Snapshot<V>, arrivals: seq<Snapshot<V>>) {
    k in cur || exists i | 0 <= i < |arrivals| :: k in arrivals[i]
  }

  lemma {:induction false} MergeAllKeepsNewest<V(!new)>(cur: Snapshot<V>, arrivals: seq<Snapshot<V>>, k: string)
    ensures k in MergeAll(cur, arrivals) <==> Known(k, cur, arrivals)
    ensures k in MergeAll(cur, arrivals) ==> NewestOf(MergeAll(cur, arrivals)[k], k, cur, arrivals)
  {
    if arrivals != [] {
      var n := |arrivals| - 1;
      var before, last := arrivals[..n], arrivals[n];
      MergeAllKeepsNewest(cur, before, k);
      assert arrivals == before + [last];
      assert Known(k, cur, arrivals) <==> Known(k, cur, before) || k in last by {
        if Known(k, cur, before) && k !in cur {
          var i :| 0 <= i < |before| && k in before[i];
          assert k in arrivals[i];
        }
      }
      assert forall r :: r in arrivals <==> r in before || r == last;
    }
  }

  /**
   Lost, duplicated and reordered reads do not matter beyond which ones arrive: from one copy, any two
   sequences of deliveries of the same reads of one truth end in the same copy.
   */
  lemma DeliveryOrderIsIrrelevant<V(!new)>(
    cur: Snapshot<V>, xs: seq<Snapshot<V>>, ys: seq<Snapshot<V>>, truth: (string, int) -> V)
    requires Agrees(cur, truth) && forall r | r in xs :: Agrees(r, truth)
    requires forall r :: r in xs <==> r in ys
    ensures MergeAll(cur, xs) == MergeAll(cur, ys)
  {
    var mx, my := MergeAll(cur, xs), MergeAll(cur, ys);
    forall k
      ensures k in mx <==> k in my
      ensures k in mx ==> mx[k] == my[k]
    {
      MergeAllKeepsNewest(cur, xs, k);
      MergeAllKeepsNewest(cur, ys, k);
      KnownAlike(k, cur, xs, ys);
      KnownAlike(k, cur, ys, xs);
      if k in mx {
        assert NewestOf(mx[k], k, cur, xs) && NewestOf(my[k], k, cur, ys);
        assert mx[k].version == my[k].version;
        assert mx[k].value == truth(k, mx[k].version) && my[k].value == truth(k, my[k].version);
      }
    }
  }

  lemma KnownAlike<V(!new)>(k: string, cur: Snapshot<V>, xs: seq<Snapshot<V>>, ys: seq<Snapshot<V>>)
    requires forall r :: r in xs ==> r in ys
    ensures Known(k, cur, xs) ==> Known(k, cur, ys)
  {
    if Known(k, cur, xs) && k !in cur {
      var i :| 0 <= i < |xs| && k in xs[i];
      assert xs[i] in ys;
      var j :| 0 <= j < |ys| && ys[j] == xs[i];
    }
  }
}
