/**
 A feature flag's state, how it is normalised, checked and compiled, and how it decides for an actor.
 */
module FlagState {
  import opened Basics
  import opened Ordering
  import opened Actors

  const MAX_TARGETS := 1000
  const MAX_ID_LEN := 100

  datatype Targets = Targets(allow: seq<string>, deny: seq<string>)

  datatype State = State(
    enabled: bool,
    default_: bool,
    orgs: Targets,
    users: Targets,
    percentage: Option<int>
  )

  function NormalTargets(t: Targets): Targets { Targets(Normal(t.allow), Normal(t.deny)) }

  /** normalize: every list sorted and without duplicates. */
  function Normalize(s: State): State {
    s.(orgs := NormalTargets(s.orgs), users := NormalTargets(s.users))
  }

  /** Visible ASCII, 1 to 100 characters. */
  predicate ValidId(id: string) {
    1 <= |id| <= MAX_ID_LEN && forall c | c in id :: ' ' < c <= '~'
  }

  predicate ValidList(ids: seq<string>) {
    |ids| <= MAX_TARGETS && forall id | id in ids :: ValidId(id)
  }

  predicate Disjoint(t: Targets) {
    forall id | id in t.allow :: id !in t.deny
  }

  /** What makes a state acceptable. */
  predicate ValidState(s: State) {
    && (s.percentage.Some? ==> 0 <= s.percentage.value <= 100)
    && ValidList(s.orgs.allow) && ValidList(s.orgs.deny)
    && ValidList(s.users.allow) && ValidList(s.users.deny)
    && Disjoint(s.orgs) && Disjoint(s.users)
  }

  /** normalize is idempotent, keeps every list's elements, and states with the same elements meet. */
  lemma NormalizeIsCanonical(s: State, t: State)
    ensures Normalize(Normalize(s)) == Normalize(s)
    ensures forall id ::
      && (id in Normalize(s).orgs.allow <==> id in s.orgs.allow) && (id in Normalize(s).orgs.deny <==> id in s.orgs.deny)
      && (id in Normalize(s).users.allow <==> id in s.users.allow) && (id in Normalize(s).users.deny <==> id in s.users.deny)
    ensures SameTargets(s.orgs, t.orgs) && SameTargets(s.users, t.users)
            && s.enabled == t.enabled && s.default_ == t.default_ && s.percentage == t.percentage
            <==> Normalize(s) == Normalize(t)
  {
    TargetsCanonical(s.orgs, t.orgs);
    TargetsCanonical(s.users, t.users);
  }

  predicate SameTargets(a: Targets, b: Targets) {
    Elements(a.allow) == Elements(b.allow) && Elements(a.deny) == Elements(b.deny)
  }

  lemma TargetsCanonical(a: Targets, b: Targets)
    ensures NormalTargets(NormalTargets(a)) == NormalTargets(a)
    ensures forall id :: (id in NormalTargets(a).allow <==> id in a.allow) && (id in NormalTargets(a).deny <==> id in a.deny)
    ensures SameTargets(a, b) <==> NormalTargets(a) == NormalTargets(b)
  {
    NormalIsCanonical(a.allow);
    NormalIsCanonical(a.deny);
    NormalIsCanonical(b.allow);
    NormalIsCanonical(b.deny);
    NormalIsCanonical(Normal(a.allow));
    NormalIsCanonical(Normal(a.deny));
    if SameTargets(a, b) {
      StrictIsCanonical(Normal(a.allow), Normal(b.allow));
      StrictIsCanonical(Normal(a.deny), Normal(b.deny));
    }
  }

  /** overlaps: binary search finds an ID in both sorted lists exactly when there is one. */
  method Overlaps(t: Targets) returns (found: bool)
    requires Sorted(t.deny)
    ensures found <==> !Disjoint(t)
  {
    for i := 0 to |t.allow|
      invariant forall k | 0 <= k < i :: t.allow[k] !in t.deny
    {
      var _, here := BinarySearch(t.deny, t.allow[i]);
      if here {
        assert t.allow[i] in t.allow;
        return true;
      }
    }
    return false;
  }

  /** At most 1000 valid IDs. */
  method CheckList(ids: seq<string>) returns (ok: bool)
    ensures ok <==> ValidList(ids)
    ensures ok ==> |ids| <= 1000
    ensures |ids| > 1000 ==> !ok
  {
    if |ids| > MAX_TARGETS {
      return false;
    }
    for i := 0 to |ids|
      invariant forall k | 0 <= k < i :: ValidId(ids[k])
    {
      var fine := CheckId(ids[i]);
      if !fine {
        assert ids[i] in ids;
        return false;
      }
    }
    return true;
  }

  /** validID: 1 to 100 visible ASCII characters. */
  method CheckId(id: string) returns (ok: bool)
    ensures ok <==> ValidId(id)
    ensures ok <==> 1 <= |id| <= 100 && forall i | 0 <= i < |id| :: 0x21 <= id[i] as int <= 0x7e
  {
    if id == "" || |id| > MAX_ID_LEN {
      return false;
    }
    for i := 0 to |id|
      invariant forall k | 0 <= k < i :: ' ' < id[k] <= '~'
    {
      if id[i] <= ' ' || id[i] > '~' {
        assert id[i] in id;
        return false;
      }
    }
    return true;
  }

  /** validate, of a normalised state. */
  method Validate(s: State) returns (ok: bool)
    requires s == Normalize(s)
    ensures ok <==> ValidState(s)
  {
    if s.percentage.Some? && (s.percentage.value < 0 || s.percentage.value > 100) {
      return false;
    }
    var lists := [s.orgs.allow, s.orgs.deny, s.users.allow, s.users.deny];
    for i := 0 to |lists|
      invariant forall k | 0 <= k < i :: ValidList(lists[k])
    {
      var fine := CheckList(lists[i]);
      if !fine {
        return false;
      }
    }
    assert ValidList(lists[0]) && ValidList(lists[1]) && ValidList(lists[2]) && ValidList(lists[3]);
    StrictImpliesSorted(s.orgs.deny);
    StrictImpliesSorted(s.users.deny);
    var orgs := Overlaps(s.orgs);
    var users := Overlaps(s.users);
    return !orgs && !users;
  }

  lemma StrictImpliesSorted(ids: seq<string>)
    requires exists raw :: ids == Normal(raw)
    ensures Sorted(ids)
  {
    var raw :| ids == Normal(raw);
    NormalIsCanonical(raw);
    forall i, j | 0 <= i < j < |ids|
      ensures !Less(ids[j], ids[i])
    {
      LessTotal(ids[i], ids[j]);
    }
  }

  // ---- Evaluation ----

  datatype Actor = Actor(kind: Kind, id: string, orgID: string)

  datatype Reason = Disabled | OrgDenied | OrgAllowed | UserDenied | UserAllowed | Rollout | ByDefault

  /** A normalised state with sets; a percentage of -1 is no rollout. */
  datatype Compiled = Compiled(
    enabled: bool, def: bool, percentage: int,
    orgAllow: set<string>, orgDeny: set<string>, userAllow: set<string>, userDeny: set<string>)

  function Compile(state: State): Compiled {
    var s := Normalize(state);
    Compiled(s.enabled, s.default_, if s.percentage.Some? then s.percentage.value else -1,
             Elements(s.orgs.allow), Elements(s.orgs.deny), Elements(s.users.allow), Elements(s.users.deny))
  }

  /** set: fills the set an ID at a time. */
  method SetOf(ids: seq<string>) returns (m: set<string>)
    ensures m == Elements(ids)
  {
    m := {};
    for i := 0 to |ids|
      invariant m == Elements(ids[..i])
    {
      m := m + {ids[i]};
      assert ids[..i + 1] == ids[..i] + [ids[i]];
    }
    assert ids[..|ids|] == ids;
  }

  /** compile. */
  method CompileState(state: State) returns (c: Compiled)
    ensures c == Compile(state)
  {
    var s := Normalize(state);
    var orgAllow := SetOf(s.orgs.allow);
    var orgDeny := SetOf(s.orgs.deny);
    var userAllow := SetOf(s.users.allow);
    var userDeny := SetOf(s.users.deny);
    c := Compiled(s.enabled, s.default_, -1, orgAllow, orgDeny, userAllow, userDeny);
    if s.percentage.Some? {
      c := c.(percentage := s.percentage.value);
    }
  }

  /** The rollout bucket of a subject, from the first eight bytes of a hash read as a number. */
  function Bucket(hash: string -> nat, key: string, subject: string): (b: int)
    ensures 0 <= b <= 99
    ensures hash(key + "\0" + subject) / 100 * 100 + b == hash(key + "\0" + subject)
  {
    hash(key + "\0" + subject) % 100
  }

  /**
   Each flag buckets subjects on its own: for two different pairs of flag and subject some hash gives any two buckets,
   so neither the flag nor the subject is ignored and no pair determines another. Flag keys hold no NUL.
   */
  lemma BucketsAreIndependent(key: string, subject: string, key': string, subject': string, b: nat, b': nat)
    returns (hash: string -> nat)
    requires (key != key' || subject != subject') && '\0' !in key && '\0' !in key' && b < 100 && b' < 100
    ensures Bucket(hash, key, subject) == b && Bucket(hash, key', subject') == b'
  {
    var p, p' := key + "\0" + subject, key' + "\0" + subject';
    if p == p' {
      SplitAtNul(key, subject, key', subject');
    }
    hash := (x: string) => if x == p then b else b';
  }

  lemma SplitAtNul(a: string, b: string, a': string, b': string)
    requires a + "\0" + b == a' + "\0" + b' && '\0' !in a && '\0' !in a'
    ensures a == a' && b == b'
  {
    var s := a + "\0" + b;
    assert s[|a|] == '\0' && s[|a'|] == '\0';
    assert forall i | 0 <= i < |a| :: s[i] == a[i];
    assert forall i | 0 <= i < |a'| :: s[i] == a'[i];
    assert |a| == |a'|;
    assert a == s[..|a|] == a' && b == s[|a| + 1..] == b';
  }

  predicate Authenticated(a: Actor) { a.kind != Anonymous && a.id != "" }

  /** compiled.evaluate. */
  function Evaluate(c: Compiled, hash: string -> nat, key: string, a: Actor): (bool, Reason) {
    if !c.enabled then (false, Disabled)
    else if a.orgID != "" && a.orgID in c.orgDeny then (false, OrgDenied)
    else if a.orgID != "" && a.orgID in c.orgAllow then (true, OrgAllowed)
    else if Authenticated(a) && a.id in c.userDeny then (false, UserDenied)
    else if Authenticated(a) && a.id in c.userAllow then (true, UserAllowed)
    else
      var subject := if a.orgID == "" && Authenticated(a) then a.id else a.orgID;
      if c.percentage >= 0 && subject != "" then (Bucket(hash, key, subject) < c.percentage, Rollout)
      else if c.percentage == 0 then (false, Rollout)
      else if c.percentage == 100 then (true, Rollout)
      else (c.def, ByDefault)
  }

  // ---- The documented rules, on the lists as an operator wrote them ----

  /** The answer of one rule, when it applies. */
  type Rule = Option<(bool, Reason)>

  function RuleDisabled(s: State): Rule {
    if s.enabled then None else Some((false, Disabled))
  }

  function RuleTargets(t: Targets, id: string, denied: Reason, allowed: Reason): Rule {
    if id in t.deny then Some((false, denied))
    else if id in t.allow then Some((true, allowed))
    else None
  }

  function RuleOrg(s: State, a: Actor): Rule {
    if a.orgID == "" then None else RuleTargets(s.orgs, a.orgID, OrgDenied, OrgAllowed)
  }

  function RuleUser(s: State, a: Actor): Rule {
    if !Authenticated(a) then None else RuleTargets(s.users, a.id, UserDenied, UserAllowed)
  }

  /** The organisation when acting in one, else the authenticated actor, else nobody. */
  function Subject(a: Actor): Option<string> {
    if a.orgID != "" then Some(a.orgID) else if Authenticated(a) then Some(a.id) else None
  }

  function RuleRollout(s: State, hash: string -> nat, key: string, a: Actor): Rule {
    match s.percentage
    case None => None
    case Some(p) =>
      match Subject(a)
      case Some(subject) => Some((Bucket(hash, key, subject) < p, Rollout))
      case None => if p == 0 then Some((false, Rollout)) else if p == 100 then Some((true, Rollout)) else None
  }

  function First(rules: seq<Rule>, otherwise: (bool, Reason)): (bool, Reason) {
    if rules == [] then otherwise else if rules[0].Some? then rules[0].value else First(rules[1..], otherwise)
  }

  function ByTheRules(s: State, hash: string -> nat, key: string, a: Actor): (bool, Reason) {
    First([RuleDisabled(s), RuleOrg(s, a), RuleUser(s, a), RuleRollout(s, hash, key, a)], (s.default_, ByDefault))
  }

  lemma ByRules(s: State, hash: string -> nat, key: string, a: Actor)
    ensures ByTheRules(s, hash, key, a) ==
      if RuleDisabled(s).Some? then RuleDisabled(s).value
      else if RuleOrg(s, a).Some? then RuleOrg(s, a).value
      else if RuleUser(s, a).Some? then RuleUser(s, a).value
      else if RuleRollout(s, hash, key, a).Some? then RuleRollout(s, hash, key, a).value
      else (s.default_, ByDefault)
  {
    var r1, r2, r3, r4 := RuleDisabled(s), RuleOrg(s, a), RuleUser(s, a), RuleRollout(s, hash, key, a);
    var d := (s.default_, ByDefault);
    assert [r1, r2, r3, r4][1..] == [r2, r3, r4];
    assert [r2, r3, r4][1..] == [r3, r4];
    assert [r3, r4][1..] == [r4];
    assert First([r4], d) == if r4.Some? then r4.value else d;
    assert First([r3, r4], d) == if r3.Some? then r3.value else First([r4], d);
    assert First([r2, r3, r4], d) == if r2.Some? then r2.value else First([r3, r4], d);
  }

  /**
   Compiling and evaluating with sets is applying the documented rules to the raw lists, in any
   order and with any duplicates, and normalising never changes an answer.
   */
  lemma EvaluateFollowsTheRules(s: State, hash: string -> nat, key: string, a: Actor)
    requires ValidState(s) || ValidState(Normalize(s))
    ensures Evaluate(Compile(s), hash, key, a) == ByTheRules(s, hash, key, a)
    ensures ByTheRules(Normalize(s), hash, key, a) == ByTheRules(s, hash, key, a)
    ensures Compile(Normalize(s)) == Compile(s)
  {
    NormalizeIsCanonical(s, s);
    ByRules(s, hash, key, a);
    ByRules(Normalize(s), hash, key, a);
  }

  /** Who a caller is: an anonymous one is nobody, whatever ID it carries, and any other is the user or service of its ID. */
  lemma WhoIsAsked(s: State, hash: string -> nat, key: string, a: Actor, id: string)
    ensures a.kind == Anonymous ==> ByTheRules(s, hash, key, a) == ByTheRules(s, hash, key, a.(id := id))
    ensures s.enabled && a.orgID == "" && a.kind != Anonymous && a.id != "" ==>
      && (a.id in s.users.deny ==> ByTheRules(s, hash, key, a) == (false, UserDenied))
      && (a.id !in s.users.deny && a.id in s.users.allow ==> ByTheRules(s, hash, key, a) == (true, UserAllowed))
  {
    ByRules(s, hash, key, a);
    ByRules(s, hash, key, a.(id := id));
  }

  /** Raising the percentage never turns anyone off, anonymous callers included, and 100 turns a rollout on for all. */
  lemma RaisingOnlyAdds(s: State, p: int, q: int, hash: string -> nat, key: string, a: Actor)
    requires 0 <= p <= q <= 100
    ensures ByTheRules(s.(percentage := Some(p)), hash, key, a).0 ==> ByTheRules(s.(percentage := Some(q)), hash, key, a).0
    ensures ByTheRules(s.(percentage := Some(100)), hash, key, a).1 == Rollout ==>
      ByTheRules(s.(percentage := Some(100)), hash, key, a).0
    ensures !ByTheRules(s.(percentage := Some(0)), hash, key, a).0
            || ByTheRules(s.(percentage := Some(0)), hash, key, a).1 in {OrgAllowed, UserAllowed}
  {
    ByRules(s.(percentage := Some(p)), hash, key, a);
    ByRules(s.(percentage := Some(q)), hash, key, a);
    ByRules(s.(percentage := Some(100)), hash, key, a);
    ByRules(s.(percentage := Some(0)), hash, key, a);
  }

  // ---- Stored form ----

  /** A stored JSON document: a state as written, or something that is not one. */
  datatype Raw = Json(state: State) | Malformed(text: string)

  function Encode(s: State): Raw { Json(s) }

  /** decodeState: normalises, then validates. */
  function Decode(raw: Raw): Option<State> {
    if raw.Json? && ValidState(Normalize(raw.state)) then Some(Normalize(raw.state)) else None
  }

  /** A state accepted by Set survives storing, and stored forms of the same targets decode alike. */
  lemma DecodeOfEncode(s: State)
    requires ValidState(Normalize(s))
    ensures Decode(Encode(Normalize(s))) == Some(Normalize(s)) == Decode(Encode(s))
  {
    NormalizeIsCanonical(s, s);
  }

  /** sameState: stored forms compared by what they mean. */
  predicate SameState(a: Option<Raw>, b: Option<Raw>) {
    if a.None? || b.None? then a.None? && b.None?
    else Decode(a.value).Some? && Decode(a.value) == Decode(b.value)
  }

  /** States that say the same: the same switches, the same percentage, the same IDs in every list. */
  predicate SayTheSame(s: State, t: State) {
    && SameTargets(s.orgs, t.orgs) && SameTargets(s.users, t.users)
    && s.enabled == t.enabled && s.default_ == t.default_ && s.percentage == t.percentage
  }

  /** Stored forms are the same exactly when both are the default, or both hold acceptable states that say the same. */
  lemma SameStateExactly(a: Option<Raw>, b: Option<Raw>)
    ensures SameState(a, b) <==>
      || (a.None? && b.None?)
      || (&& a.Some? && b.Some? && a.value.Json? && b.value.Json?
          && ValidState(Normalize(a.value.state)) && ValidState(Normalize(b.value.state))
          && SayTheSame(a.value.state, b.value.state))
  {
    if a.Some? && b.Some? && a.value.Json? && b.value.Json? {
      NormalizeIsCanonical(a.value.state, b.value.state);
    }
  }
}
