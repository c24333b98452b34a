/**
 Address filtering by CIDR ranges (section 3.1 of RFC 4632). An address is a number of its family; a
 range is an address and how many of its leading bits count. IPv4 addresses written as IPv4-mapped IPv6
 addresses (section 2.5.5.2 of RFC 4291) are unmapped before anything is compared.
 */
module IpFilter {
  import opened Basics

  // ---- Arithmetic of blocks ----

  function Pow2(k: nat): (p: nat)
    ensures p >= 1
  {
    if k == 0 then 1 else 2 * Pow2(k - 1)
  }

  lemma {:induction false} Pow2Adds(i: nat, j: nat)
    ensures Pow2(i + j) == Pow2(i) * Pow2(j)
  {
    if i > 0 {
      Pow2Adds(i - 1, j);
      assert 2 * (Pow2(i - 1) * Pow2(j)) == (2 * Pow2(i - 1)) * Pow2(j);
    }
  }

  lemma Scale(a: int, b: int, d: int)
    requires a <= b && d >= 0
    ensures a * d <= b * d
  {
  }

  lemma DivBounds(x: int, d: int)
    requires d > 0
    ensures x / d * d <= x < x / d * d + d
  {
  }

  lemma DivUnique(x: int, d: int, q: int)
    requires d > 0 && q * d <= x < q * d + d
    ensures x / d == q
  {
    DivBounds(x, d);
    var r := x / d;
    if r < q {
      Scale(r + 1, q, d);
    } else if r > q {
      Scale(q + 1, r, d);
    }
  }

  /** The first address of the block of `x`. */
  function Floor(x: nat, s: nat): (r: nat)
    requires s > 0
    ensures r <= x < r + s && r / s == x / s && r == x / s * s
  {
    DivBounds(x, s);
    Scale(0, x / s, s);
    DivUnique(x / s * s, s, x / s);
    x / s * s
  }

  /** Blocks of s*m are made of whole blocks of s. */
  lemma DivDiv(x: nat, s: nat, m: nat)
    requires s > 0 && m > 0
    ensures s * m > 0 && x / (s * m) == (x / s) / m
  {
    var y := x / s;
    var q := y / m;
    DivBounds(x, s);
    DivBounds(y, m);
    Scale(1, m, s);
    Scale(q * m, y, s);
    Scale(y + 1, q * m + m, s);
    Regroup(q, m, s);
    DivUnique(x, s * m, q);
  }

  lemma Regroup(q: int, m: int, s: int)
    ensures q * m * s == q * (s * m) && (q * m + m) * s == q * (s * m) + s * m
    ensures 1 * s == s && m * s == s * m
  {
  }

  // ---- Addresses and ranges ----

  datatype Addr = V4(n: nat) | V6(n: nat)

  function Width(a: Addr): nat { if a.V4? then 32 else 128 }

  predicate ValidAddr(a: Addr) { a.n < Pow2(Width(a)) }

  predicate SameFamily(a: Addr, b: Addr) { a.V4? == b.V4? }

  /** A range; netip marks one with too few or too many bits invalid. */
  datatype Range = Range(addr: Addr, bits: int)

  predicate IsValid(p: Range) { ValidAddr(p.addr) && 0 <= p.bits <= Width(p.addr) }

  /** How many addresses a range covers. */
  function Size(p: Range): nat
    requires IsValid(p)
  {
    Pow2(Width(p.addr) - p.bits)
  }

  /** netip.Prefix.Contains: the leading bits agree; other families never. */
  predicate Contains(p: Range, a: Addr)
    requires IsValid(p)
  {
    SameFamily(p.addr, a) && a.n / Size(p) == p.addr.n / Size(p)
  }

  function Masked(p: Range): Range
    requires IsValid(p)
  {
    var lo := Floor(p.addr.n, Size(p));
    Range(if p.addr.V4? then V4(lo) else V6(lo), p.bits)
  }

  lemma MaskedKeeps(p: Range)
    requires IsValid(p)
    ensures IsValid(Masked(p)) && Masked(p).addr.n <= p.addr.n && SameFamily(Masked(p).addr, p.addr)
    ensures Masked(p).addr.n / Size(p) == p.addr.n / Size(p) && Size(Masked(p)) == Size(p)
    ensures forall a :: Contains(Masked(p), a) == Contains(p, a)
  {
    var lo := Floor(p.addr.n, Size(p));
  }

  // ---- Nesting ----

  /** A range as a set of addresses. */
  ghost predicate Within(p: Range, q: Range)
    requires IsValid(p) && IsValid(q)
  {
    forall a | ValidAddr(a) && Contains(p, a) :: Contains(q, a)
  }

  ghost predicate Apart(p: Range, q: Range)
    requires IsValid(p) && IsValid(q)
  {
    forall a | ValidAddr(a) && Contains(p, a) :: !Contains(q, a)
  }

  /** Two addresses of one block of the finer range are in one block of the coarser. */
  lemma CoarserAgrees(fine: Range, coarse: Range, a: Addr, b: Addr)
    requires IsValid(fine) && IsValid(coarse) && SameFamily(fine.addr, coarse.addr) && coarse.bits <= fine.bits
    requires a.n / Size(fine) == b.n / Size(fine)
    ensures a.n / Size(coarse) == b.n / Size(coarse)
  {
    var extra := fine.bits - coarse.bits;
    Pow2Adds(Width(fine.addr) - fine.bits, extra);
    DivDiv(a.n, Size(fine), Pow2(extra));
    DivDiv(b.n, Size(fine), Pow2(extra));
  }

  /** Two ranges of a family are nested or disjoint. */
  lemma NestedOrDisjoint(p: Range, q: Range)
    requires IsValid(p) && IsValid(q) && SameFamily(p.addr, q.addr)
    ensures Within(p, q) || Within(q, p) || Apart(p, q)
  {
    if p.bits >= q.bits {
      NestedOrApart(p, q);
    } else {
      NestedOrApart(q, p);
    }
  }

  lemma NestedOrApart(fine: Range, coarse: Range)
    requires IsValid(fine) && IsValid(coarse) && SameFamily(fine.addr, coarse.addr) && coarse.bits <= fine.bits
    ensures if Contains(coarse, fine.addr) then Within(fine, coarse) else Apart(fine, coarse) && Apart(coarse, fine)
  {
    forall a | ValidAddr(a) && Contains(fine, a)
      ensures Contains(coarse, a) == Contains(coarse, fine.addr)
    {
      CoarserAgrees(fine, coarse, a, fine.addr);
    }
  }

  /** A coarser range has two addresses in different blocks of a finer one. */
  lemma CoarserIsLarger(coarse: Range, fine: Range)
    requires IsValid(fine) && IsValid(coarse) && SameFamily(fine.addr, coarse.addr) && coarse.bits < fine.bits
    ensures exists a :: ValidAddr(a) && Contains(coarse, a) && !Contains(fine, a)
  {
    var s, t := Size(fine), Size(coarse);
    var lo := Floor(coarse.addr.n, t);
    BlockFits(coarse);
    SizeDoubles(coarse, fine);
    DivUnique(lo + s, t, coarse.addr.n / t);
    NextBlock(lo, s);
    var a, b := AddrOf(coarse, lo), AddrOf(coarse, lo + s);
    assert ValidAddr(a) && ValidAddr(b) && Contains(coarse, a) && Contains(coarse, b);
    assert !Contains(fine, a) || !Contains(fine, b);
  }

  function AddrOf(p: Range, n: nat): Addr { if p.addr.V4? then V4(n) else V6(n) }

  lemma NextBlock(x: nat, s: nat)
    requires s > 0
    ensures (x + s) / s == x / s + 1
  {
    DivBounds(x, s);
    DivUnique(x + s, s, x / s + 1);
  }

  lemma SizeDoubles(coarse: Range, fine: Range)
    requires IsValid(fine) && IsValid(coarse) && SameFamily(fine.addr, coarse.addr) && coarse.bits < fine.bits
    ensures Size(coarse) >= 2 * Size(fine)
  {
    var extra := fine.bits - coarse.bits;
    Pow2Adds(extra, Width(fine.addr) - fine.bits);
    assert Pow2(extra) == 2 * Pow2(extra - 1);
    Scale(2, Pow2(extra), Size(fine));
  }

  /** A range's block ends within its family. */
  lemma BlockFits(p: Range)
    requires IsValid(p)
    ensures Floor(p.addr.n, Size(p)) + Size(p) <= Pow2(Width(p.addr))
  {
    Pow2Adds(p.bits, Width(p.addr) - p.bits);
    BlockEnds(p.addr.n, Size(p), Pow2(p.bits));
  }

  lemma BlockEnds(x: nat, s: nat, k: nat)
    requires s > 0 && x < k * s
    ensures Floor(x, s) + s <= k * s
  {
    DivBounds(x, s);
    if x / s >= k {
      Scale(k, x / s, s);
    }
    Scale(x / s + 1, k, s);
  }

  /** The pair New refuses: exactly an allow range inside a deny range. */
  predicate NeverMatches(allow: Range, deny: Range)
    requires IsValid(allow) && IsValid(deny)
  {
    deny.bits <= allow.bits && Contains(deny, allow.addr)
  }

  lemma RefusedIsSubset(allow: Range, deny: Range)
    requires IsValid(allow) && IsValid(deny)
    ensures NeverMatches(allow, deny) <==> Within(allow, deny)
  {
    assert Contains(allow, allow.addr);
    if SameFamily(allow.addr, deny.addr) {
      if deny.bits <= allow.bits {
        NestedOrApart(allow, deny);
      } else {
        CoarserIsLarger(allow, deny);
      }
    }
  }

  // ---- Mapped addresses ----

  const MAPPED := 0xffff
  const V4_SPACE := 0x1_0000_0000

  predicate Is4In6(a: Addr) { a.V6? && a.n / V4_SPACE == MAPPED }

  /** The IPv4-mapped IPv6 form of an IPv4 address. */
  function MapTo6(a: Addr): Addr
    requires a.V4?
  {
    V6(MAPPED * V4_SPACE + a.n)
  }

  function Unmap(a: Addr): Addr {
    if Is4In6(a) then V4(a.n % V4_SPACE) else a
  }

  /** Addresses as requests arrive: unmapped. */
  predicate RequestAddr(a: Addr) { ValidAddr(a) && !Is4In6(a) }

  lemma Pow2Of32()
    ensures Pow2(32) == V4_SPACE
  {
    assert Pow2(8) == 256;
    Pow2Adds(8, 8);
    assert Pow2(16) == 65536;
    Pow2Adds(16, 16);
  }

  lemma UnmapIsRequestAddr(a: Addr)
    requires ValidAddr(a)
    ensures RequestAddr(Unmap(a)) && (a.V4? ==> Unmap(a) == a && Unmap(MapTo6(a)) == a)
    ensures Is4In6(a) <==> a.V6? && 0xffff_0000_0000 <= a.n < 0x1_0000_0000_0000
    ensures Is4In6(a) ==> Unmap(a) == V4(a.n - 0xffff_0000_0000)
  {
    Pow2Of32();
    if a.V4? {
      DivUnique(MapTo6(a).n, V4_SPACE, MAPPED);
    }
  }

  /** canonicalPrefix: masked, mapped ranges as IPv4; None is an error. */
  function Canonical(p: Range): (c: Option<Range>) {
    if !IsValid(p) then None
    else if Is4In6(p.addr) then
      if p.bits < 96 then None
      else
        var q := Range(V4(p.addr.n % V4_SPACE), p.bits - 96);
        if IsValid(q) then Some(Masked(q)) else None
    else Some(Masked(p))
  }

  lemma MappedBlocks(x: nat, y: nat, s: nat, m: nat)
    requires s > 0 && m > 0 && s * m == V4_SPACE
    requires x / V4_SPACE == MAPPED
    ensures x / s == (MAPPED * V4_SPACE + y) / s && y < V4_SPACE <==> (x % V4_SPACE) / s == y / s && y < V4_SPACE
  {
    var base := MAPPED * m;
    assert MAPPED * V4_SPACE == base * s;
    ShiftBlock(x % V4_SPACE, s, base);
    ShiftBlock(y, s, base);
    assert x == MAPPED * V4_SPACE + x % V4_SPACE;
  }

  lemma ShiftBlock(x: nat, s: nat, base: nat)
    requires s > 0
    ensures (base * s + x) / s == base + x / s
  {
    var q := x / s;
    assert q * s <= x < q * s + s;
    assert (base + q) * s == base * s + q * s;
    DivUnique(base * s + x, s, base + q);
  }

  /**
   Canonicalising keeps the membership of every request address: an ordinary range holds the same ones, and a
   mapped range becomes the IPv4 range of exactly the addresses whose mapped forms it holds. It fails exactly
   for an invalid range and for a mapped one shorter than /96, which mixes families.
   */
  lemma CanonicalKeepsMembership(p: Range, a: Addr)
    requires RequestAddr(a)
    ensures Canonical(p).Some? <==> IsValid(p) && (Is4In6(p.addr) ==> p.bits >= 96)
    ensures Canonical(p).Some? ==>
      && IsValid(Canonical(p).value)
      && !Is4In6(Canonical(p).value.addr)
      && (Contains(Canonical(p).value, a) <==>
            if Is4In6(p.addr) then a.V4? && Contains(p, MapTo6(a)) else Contains(p, a))
  {
    if IsValid(p) {
      if !Is4In6(p.addr) {
        MaskedKeeps(p);
        MaskedNotMapped(p);
      } else if p.bits >= 96 {
        Pow2Of32();
        var q := Range(V4(p.addr.n % V4_SPACE), p.bits - 96);
        assert IsValid(q);
        MaskedKeeps(q);
        Pow2Adds(128 - p.bits, p.bits - 96);
        if a.V4? {
          MappedBlocks(p.addr.n, a.n, Size(p), Pow2(p.bits - 96));
        }
      }
    }
  }

  /** Masking never turns an ordinary address into a mapped one: a block of fewer bits starts with more zeros. */
  lemma MaskedNotMapped(p: Range)
    requires IsValid(p) && !Is4In6(p.addr)
    ensures !Is4In6(Masked(p).addr)
  {
    if p.addr.V6? {
      MaskedKeeps(p);
      Pow2Of32();
      var s, lo := Size(p), Masked(p).addr.n;
      if p.bits >= 96 {
        Pow2Adds(128 - p.bits, p.bits - 96);
        DivDiv(lo, s, Pow2(p.bits - 96));
        DivDiv(p.addr.n, s, Pow2(p.bits - 96));
      } else {
        Pow2Adds(32, 96 - p.bits);
        assert Pow2(96 - p.bits) == 2 * Pow2(95 - p.bits);
        StartsEven(p.addr.n, s, Pow2(95 - p.bits));
      }
    }
  }

  /** A block of more than one mapped-sized part starts at an even part, and the mapped part is odd. */
  lemma StartsEven(x: nat, s: nat, half: nat)
    requires s == V4_SPACE * (2 * half) && half > 0
    ensures Floor(x, s) / V4_SPACE % 2 == 0
  {
    var q := x / s;
    assert q * (V4_SPACE * (2 * half)) == (2 * (q * half)) * V4_SPACE;
    DivUnique(Floor(x, s), V4_SPACE, 2 * (q * half));
  }

  // ---- The middleware ----

  datatype NewError = InvalidRange | DenyAll | AllowInsideDeny

  /** canonicalPrefixes. */
  method CanonicalPrefixes(ranges: seq<Range>) returns (out: Option<seq<Range>>)
    ensures out.Some? <==> forall p | p in ranges :: Canonical(p).Some?
    ensures out.Some? ==> |out.value| == |ranges| && forall i | 0 <= i < |ranges| :: Canonical(ranges[i]) == Some(out.value[i])
  {
    var list: seq<Range> := [];
    for i := 0 to |ranges|
      invariant |list| == i && forall k | 0 <= k < i :: Canonical(ranges[k]) == Some(list[k])
    {
      var c := Canonical(ranges[i]);
      if c.None? {
        assert ranges[i] in ranges;
        return None;
      }
      list := list + [c.value];
    }
    return Some(list);
  }

  /** contains: some range holds the address. */
  method ContainsAny(ranges: seq<Range>, a: Addr) returns (found: bool)
    requires forall p | p in ranges :: IsValid(p)
    ensures found <==> exists p | p in ranges :: Contains(p, a)
  {
    for i := 0 to |ranges|
      invariant forall k | 0 <= k < i :: !Contains(ranges[k], a)
    {
      assert ranges[i] in ranges;
      if Contains(ranges[i], a) {
        return true;
      }
    }
    return false;
  }

  datatype Filter = Filter(allow: seq<Range>, deny: seq<Range>)

  /** What New promises of the lists it accepts. */
  ghost predicate Accepted(f: Filter) {
    && (forall p | p in f.allow + f.deny :: IsValid(p))
    && (forall d | d in f.deny :: d.bits > 0)
    && (forall d, a | d in f.deny && a in f.allow :: !Within(a, d))
  }

  /** What New refuses: an unusable range, a deny range over a whole family, an allow range inside a deny range. */
  ghost predicate Refusable(allow: seq<Range>, deny: seq<Range>) {
    || (exists p | p in allow + deny :: Canonical(p).None?)
    || (exists d | d in deny :: Canonical(d).Some? && Canonical(d).value.bits == 0)
    || (exists a, d | a in allow && d in deny :: InsideCanonical(a, d))
  }

  ghost predicate InsideCanonical(a: Range, d: Range) {
    && Canonical(a).Some? && Canonical(d).Some?
    && IsValid(Canonical(a).value) && IsValid(Canonical(d).value)
    && Within(Canonical(a).value, Canonical(d).value)
  }

  method New(allow: seq<Range>, deny: seq<Range>) returns (f: Option<Filter>, err: NewError)
    ensures f.None? <==> Refusable(allow, deny)
    ensures f.None? && err == InvalidRange <==> exists p | p in allow + deny :: Canonical(p).None?
    ensures f.Some? ==>
      && Accepted(f.value)
      && |f.value.allow| == |allow| && |f.value.deny| == |deny|
      && (forall i | 0 <= i < |allow| :: Canonical(allow[i]) == Some(f.value.allow[i]))
      && (forall i | 0 <= i < |deny| :: Canonical(deny[i]) == Some(f.value.deny[i]))
    ensures f.None? && err == DenyAll ==> exists d | d in deny :: Canonical(d).Some? && Canonical(d).value.bits == 0
    ensures f.None? && err == AllowInsideDeny ==>
      exists a, d | a in allow && d in deny :: InsideCanonical(a, d)
  {
    err := InvalidRange;
    var allowed := CanonicalPrefixes(allow);
    if allowed.None? {
      assert exists p | p in allow + deny :: Canonical(p).None?;
      return None, InvalidRange;
    }
    var denied := CanonicalPrefixes(deny);
    if denied.None? {
      assert exists p | p in allow + deny :: Canonical(p).None?;
      return None, InvalidRange;
    }
    var as_, ds := allowed.value, denied.value;
    CanonicalAllValid(allow, as_);
    CanonicalAllValid(deny, ds);
    var bad, i, j := CheckPairs(as_, ds);
    if bad == Some(DenyAll) {
      assert deny[i] in deny && Canonical(deny[i]) == Some(ds[i]);
      return None, DenyAll;
    }
    if bad.Some? {
      assert allow[j] in allow && deny[i] in deny && InsideCanonical(allow[j], deny[i]);
      return None, AllowInsideDeny;
    }
    AcceptedIsFine(allow, deny, Filter(as_, ds));
    f := Some(Filter(as_, ds));
  }

  /** The two tests of New on canonical lists, with the culprits. */
  method CheckPairs(allow: seq<Range>, deny: seq<Range>) returns (bad: Option<NewError>, i: nat, j: nat)
    requires (forall i | 0 <= i < |allow| :: IsValid(allow[i])) && forall i | 0 <= i < |deny| :: IsValid(deny[i])
    ensures bad.None? ==> forall i | 0 <= i < |deny| :: deny[i].bits > 0
    ensures bad.None? ==> forall i, j | 0 <= i < |deny| && 0 <= j < |allow| :: !Within(allow[j], deny[i])
    ensures bad.Some? ==> bad.value != InvalidRange && i < |deny|
    ensures bad == Some(DenyAll) ==> deny[i].bits == 0
    ensures bad == Some(AllowInsideDeny) ==> j < |allow| && Within(allow[j], deny[i])
  {
    i, j := 0, 0;
    while i < |deny|
      invariant 0 <= i <= |deny|
      invariant forall k | 0 <= k < i :: deny[k].bits > 0
      invariant forall k, n | 0 <= k < i && 0 <= n < |allow| :: !Within(allow[n], deny[k])
    {
      if deny[i].bits == 0 {
        return Some(DenyAll), i, 0;
      }
      var inside := FirstInside(allow, deny[i]);
      if inside.Some? {
        return Some(AllowInsideDeny), i, inside.value;
      }
      i := i + 1;
    }
    bad := None;
  }

  /** Lists whose canonical forms pass every test are not refusable. */
  lemma AcceptedIsFine(allow: seq<Range>, deny: seq<Range>, f: Filter)
    requires |f.allow| == |allow| && forall i | 0 <= i < |allow| :: Canonical(allow[i]) == Some(f.allow[i])
    requires |f.deny| == |deny| && forall i | 0 <= i < |deny| :: Canonical(deny[i]) == Some(f.deny[i])
    requires forall i | 0 <= i < |f.allow| :: IsValid(f.allow[i])
    requires forall i | 0 <= i < |f.deny| :: IsValid(f.deny[i]) && f.deny[i].bits > 0
    requires forall i, j | 0 <= i < |f.deny| && 0 <= j < |f.allow| :: !Within(f.allow[j], f.deny[i])
    ensures Accepted(f) && !Refusable(allow, deny)
  {
    assert forall p | p in allow :: exists i :: 0 <= i < |allow| && allow[i] == p;
    assert forall p | p in deny :: exists i :: 0 <= i < |deny| && deny[i] == p;
    forall a, d | a in allow && d in deny
      ensures !InsideCanonical(a, d)
    {
      var j :| 0 <= j < |allow| && allow[j] == a;
      var i :| 0 <= i < |deny| && deny[i] == d;
      assert !Within(f.allow[j], f.deny[i]);
    }
  }

  /** The first allow range inside a deny range, if any. */
  method FirstInside(allow: seq<Range>, d: Range) returns (inside: Option<nat>)
    requires IsValid(d) && forall i | 0 <= i < |allow| :: IsValid(allow[i])
    ensures inside.Some? ==> inside.value < |allow| && Within(allow[inside.value], d)
    ensures inside.None? ==> forall i | 0 <= i < |allow| :: !Within(allow[i], d)
  {
    for j := 0 to |allow|
      invariant forall n | 0 <= n < j :: !Within(allow[n], d)
    {
      RefusedIsSubset(allow[j], d);
      if d.bits <= allow[j].bits && Contains(d, allow[j].addr) {
        return Some(j);
      }
    }
    return None;
  }

  lemma CanonicalAllValid(ranges: seq<Range>, out: seq<Range>)
    requires |out| == |ranges| && forall i | 0 <= i < |ranges| :: Canonical(ranges[i]) == Some(out[i])
    ensures forall i | 0 <= i < |out| :: IsValid(out[i])
  {
    forall i | 0 <= i < |out|
      ensures IsValid(out[i])
    {
      Pow2Of32();
      CanonicalKeepsMembership(ranges[i], V4(0));
    }
  }

  /** The request decision: deny wins, and a non-empty allow list must hold the address. */
  method Refuses(f: Filter, a: Option<Addr>) returns (refused: bool)
    requires Accepted(f)
    ensures refused <==>
      || a.None?
      || (exists d | d in f.deny :: Contains(d, a.value))
      || (f.allow != [] && forall p | p in f.allow :: !Contains(p, a.value))
  {
    assert forall p | p in f.allow :: p in f.allow + f.deny;
    assert forall p | p in f.deny :: p in f.allow + f.deny;
    if a.None? {
      return true;
    }
    var denied := ContainsAny(f.deny, a.value);
    var allowed := ContainsAny(f.allow, a.value);
    return denied || (|f.allow| > 0 && !allowed);
  }

  /** What a configured range means for a request: its own addresses, or the IPv4 ones it writes in mapped form. */
  predicate Covers(p: Range, a: Addr) {
    IsValid(p) && if Is4In6(p.addr) then a.V4? && Contains(p, MapTo6(a)) else Contains(p, a)
  }

  lemma CoveredAlike(ranges: seq<Range>, out: seq<Range>, a: Addr)
    requires |out| == |ranges| && forall i | 0 <= i < |ranges| :: Canonical(ranges[i]) == Some(out[i])
    requires RequestAddr(a)
    ensures forall i | 0 <= i < |out| :: IsValid(out[i]) && (Contains(out[i], a) <==> Covers(ranges[i], a))
  {
    forall i | 0 <= i < |out|
      ensures IsValid(out[i]) && (Contains(out[i], a) <==> Covers(ranges[i], a))
    {
      CanonicalKeepsMembership(ranges[i], a);
    }
  }

  /**
   The middleware end to end, on the ranges as configured and the address as the connection shows it: a request is
   refused exactly when its address, unmapped, is covered by a deny range or, with allow ranges, by none of them.
   */
  method Serve(allow: seq<Range>, deny: seq<Range>, remote: Option<Addr>) returns (refused: Option<bool>)
    requires remote.Some? ==> ValidAddr(remote.value)
    ensures refused.Some? ==> (forall p | p in allow + deny :: Canonical(p).Some?)
    ensures refused.None? <==> Refusable(allow, deny)
    ensures refused.Some? && remote.Some? ==>
      var a := Unmap(remote.value);
      refused.value <==>
        || (exists d | d in deny :: Covers(d, a))
        || (allow != [] && forall p | p in allow :: !Covers(p, a))
    ensures refused.Some? && remote.None? ==> refused.value == (allow != [] || deny != [])
  {
    var f, err := New(allow, deny);
    if f.None? {
      return None;
    }
    if f.value.allow == [] && f.value.deny == [] {
      return Some(false);
    }
    var a := if remote.Some? then Some(Unmap(remote.value)) else None;
    if remote.Some? {
      UnmapIsRequestAddr(remote.value);
      CoveredAlike(allow, f.value.allow, a.value);
      CoveredAlike(deny, f.value.deny, a.value);
    }
    var r := Refuses(f.value, a);
    return Some(r);
  }
}
