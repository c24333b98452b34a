/**
 Go's string order and what slices.Sort, slices.Compact and slices.BinarySearch do with it. Strings
 are compared byte by byte; a proper prefix comes first.
 */
module Ordering {

  predicate Less(a: string, b: string) {
    b != [] && (a == [] || a[0] < b[0] || (a[0] == b[0] && Less(a[1..], b[1..])))
  }

  lemma {:induction false} LessIrreflexive(a: string)
    ensures !Less(a, a)
  {
    if a != [] { LessIrreflexive(a[1..]); }
  }

  lemma {:induction false} LessTransitive(a: string, b: string, c: string)
    requires Less(a, b) && Less(b, c)
    ensures Less(a, c)
  {
    if a != [] && a[0] == b[0] == c[0] { LessTransitive(a[1..], b[1..], c[1..]); }
  }

  lemma {:induction false} LessTotal(a: string, b: string)
    ensures Less(a, b) || a == b || Less(b, a)
    ensures !(Less(a, b) && Less(b, a))
  {
    if a != [] && b != [] && a[0] == b[0] {
      LessTotal(a[1..], b[1..]);
      assert a == [a[0]] + a[1..] && b == [b[0]] + b[1..];
    }
  }

  /** No element comes before an earlier one. */
  predicate Sorted(s: seq<string>) {
    forall i, j | 0 <= i < j < |s| :: !Less(s[j], s[i])
  }

  predicate StrictlySorted(s: seq<string>) {
    forall i, j | 0 <= i < j < |s| :: Less(s[i], s[j])
  }

  function Elements(s: seq<string>): set<string> { set x | x in s }

  function Insert(x: string, s: seq<string>): seq<string> {
    if s == [] || !Less(s[0], x) then [x] + s else [s[0]] + Insert(x, s[1..])
  }

  /** slices.Sort: the sorted arrangement of the same strings. */
  function Sort(s: seq<string>): seq<string> {
    if s == [] then [] else Insert(s[0], Sort(s[1..]))
  }

  /** slices.Compact: equal neighbours once. */
  function Compact(s: seq<string>): seq<string> {
    if |s| < 2 then s
    else if s[0] == s[1] then Compact(s[1..])
    else [s[0]] + Compact(s[1..])
  }

  lemma ConsElements(x: string, s: seq<string>)
    ensures Elements([x] + s) == {x} + Elements(s)
  {
    assert forall y :: y in [x] + s <==> y == x || y in s;
  }

  lemma ElementsEmpty(s: seq<string>)
    ensures Elements(s) == {} <==> s == []
  {
    if s != [] {
      assert s[0] in Elements(s);
    }
  }

  lemma {:induction false} InsertElements(x: string, s: seq<string>)
    ensures multiset(Insert(x, s)) == multiset(s) + multiset{x}
    ensures Elements(Insert(x, s)) == Elements(s) + {x}
  {
    if s == [] || !Less(s[0], x) {
      ConsElements(x, s);
    } else {
      InsertElements(x, s[1..]);
      ConsElements(s[0], Insert(x, s[1..]));
      ConsElements(s[0], s[1..]);
      assert s == [s[0]] + s[1..];
    }
  }

  predicate AtMost(x: string, s: seq<string>) {
    forall k | 0 <= k < |s| :: !Less(s[k], x)
  }

  lemma ConsSorted(x: string, s: seq<string>)
    requires Sorted(s) && AtMost(x, s)
    ensures Sorted([x] + s)
  {
  }

  lemma {:induction false} InsertSorted(x: string, s: seq<string>)
    requires Sorted(s)
    ensures Sorted(Insert(x, s))
  {
    if s == [] {
    } else if !Less(s[0], x) {
      forall k | 0 <= k < |s|
        ensures !Less(s[k], x)
      {
        LessTotal(s[0], x);
        if k > 0 && Less(s[k], x) && Less(x, s[0]) { LessTransitive(s[k], x, s[0]); }
      }
      ConsSorted(x, s);
    } else {
      var rest := Insert(x, s[1..]);
      InsertSorted(x, s[1..]);
      InsertElements(x, s[1..]);
      LessTotal(s[0], x);
      forall k | 0 <= k < |rest|
        ensures !Less(rest[k], s[0])
      {
        assert rest[k] in Elements(rest);
      }
      ConsSorted(s[0], rest);
    }
  }

  /** Sorting gives a sorted permutation. */
  lemma {:induction false} SortIsSorted(s: seq<string>)
    ensures Sorted(Sort(s)) && multiset(Sort(s)) == multiset(s) && Elements(Sort(s)) == Elements(s)
  {
    if s != [] {
      SortIsSorted(s[1..]);
      InsertSorted(s[0], Sort(s[1..]));
      InsertElements(s[0], Sort(s[1..]));
      ConsElements(s[0], s[1..]);
      assert s == [s[0]] + s[1..];
    }
  }

  /** Compacting a sorted list keeps its elements, each once. */
  lemma {:induction false} CompactIsStrict(s: seq<string>)
    requires Sorted(s)
    ensures StrictlySorted(Compact(s)) && Elements(Compact(s)) == Elements(s)
    ensures s != [] ==> Compact(s) != [] && Compact(s)[0] == s[0]
  {
    if |s| >= 2 {
      CompactIsStrict(s[1..]);
      ConsElements(s[0], s[1..]);
      ConsElements(s[0], Compact(s[1..]));
      assert s == [s[0]] + s[1..] && s[1] in s[1..];
      if s[0] != s[1] {
        var rest := Compact(s[1..]);
        var r := [s[0]] + rest;
        LessTotal(s[0], s[1]);
        forall i, j | 0 <= i < j < |r|
          ensures Less(r[i], r[j])
        {
          if i == 0 && j > 1 {
            assert Less(rest[0], rest[j - 1]);
            LessTransitive(s[0], s[1], r[j]);
          }
        }
      }
    }
  }

  /** A strictly sorted list is determined by its elements. */
  lemma {:induction false} StrictIsCanonical(a: seq<string>, b: seq<string>)
    requires StrictlySorted(a) && StrictlySorted(b) && Elements(a) == Elements(b)
    ensures a == b
  {
    ElementsEmpty(a);
    ElementsEmpty(b);
    if a != [] {
      assert a[0] in Elements(a) && b[0] in Elements(b);
      assert a[0] == b[0] by {
        var i :| 0 <= i < |b| && b[i] == a[0];
        var j :| 0 <= j < |a| && a[j] == b[0];
        LessTotal(a[0], b[0]);
      }
      assert Elements(a[1..]) == Elements(a) - {a[0]} by { TailElements(a); }
      assert Elements(b[1..]) == Elements(b) - {b[0]} by { TailElements(b); }
      StrictIsCanonical(a[1..], b[1..]);
      assert a == [a[0]] + a[1..] && b == [b[0]] + b[1..];
    }
  }

  lemma TailElements(a: seq<string>)
    requires a != [] && StrictlySorted(a)
    ensures Elements(a[1..]) == Elements(a) - {a[0]}
  {
    LessIrreflexive(a[0]);
    assert a == [a[0]] + a[1..];
  }

  /** Sorted and without duplicates. */
  function Normal(s: seq<string>): seq<string> { Compact(Sort(s)) }

  lemma NormalIsCanonical(s: seq<string>)
    ensures StrictlySorted(Normal(s)) && Elements(Normal(s)) == Elements(s)
    ensures forall x :: x in Normal(s) <==> x in s
    ensures StrictlySorted(s) ==> Normal(s) == s
  {
    SortIsSorted(s);
    CompactIsStrict(Sort(s));
    assert forall x :: x in Normal(s) <==> x in Elements(Normal(s));
    assert forall x :: x in s <==> x in Elements(s);
    if StrictlySorted(s) {
      StrictIsCanonical(Normal(s), s);
    }
  }

  /** slices.BinarySearch on a sorted list finds a string exactly when it is there. */
  method BinarySearch(s: seq<string>, target: string) returns (at: nat, found: bool)
    requires Sorted(s)
    ensures at <= |s|
    ensures found <==> target in s
    ensures found ==> at < |s| && s[at] == target
    ensures forall k | 0 <= k < at :: Less(s[k], target)
    ensures forall k | at <= k < |s| :: !Less(s[k], target)
  {
    var i, j := 0, |s|;
    while i < j
      invariant 0 <= i <= j <= |s|
      invariant forall k | 0 <= k < i :: Less(s[k], target)
      invariant forall k | j <= k < |s| :: !Less(s[k], target)
    {
      var h := (i + j) / 2;
      if Less(s[h], target) {
        forall k | 0 <= k <= h
          ensures Less(s[k], target)
        {
          if k < h {
            LessTotal(s[k], s[h]);
            if s[k] != s[h] { LessTransitive(s[k], s[h], target); }
          }
        }
        i := h + 1;
      } else {
        forall k | h <= k < |s|
          ensures !Less(s[k], target)
        {
          if k > h && Less(s[k], target) {
            LessTotal(s[h], s[k]);
            if s[h] != s[k] { LessTransitive(s[h], s[k], target); }
          }
        }
        j := h;
      }
    }
    LessIrreflexive(target);
    found := i < |s| && s[i] == target;
    if !found && target in s {
      ghost var k :| 0 <= k < |s| && s[k] == target;
      LessTotal(s[i], target);
    }
    at := i;
  }
}
