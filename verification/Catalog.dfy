/**
 The permission catalog and the way from declared roles to a decision: modules declare permissions and
 roles at startup, a session or API key gets the permissions of its roles, and Require answers for the actor.
 */
module Catalog {
  import opened Basics
  import opened Strings
  import opened Ordering
  import opened Actors

  // ---- Declarations ----

  datatype Permission = Permission(name: string, description: string)

  datatype Role = Role(name: string, description: string, permissions: seq<string>)

  datatype State = State(permissions: seq<Permission>, roles: seq<Role>, mfaRoles: seq<string>, frozen: bool)

  const EMPTY := State([], [], [], false)

  predicate Word(s: string) {
    && s != [] && 'a' <= s[0] <= 'z'
    && forall c | c in s :: 'a' <= c <= 'z' || '0' <= c <= '9' || c == '_'
  }

  /** Dotted lowercase words. */
  predicate ValidName(name: string) {
    forall w | w in Split(name, '.') :: Word(w)
  }

  /** The pattern, a character at a time: at the start of a word a letter must follow. */
  predicate WordStarts(s: string) { s != [] && 'a' <= s[0] <= 'z' && WordGoesOn(s[1..]) }

  /** Within a word: the end, a dot before another word, or another letter, digit or underscore. */
  predicate WordGoesOn(s: string) {
    || s == []
    || (s[0] == '.' && WordStarts(s[1..]))
    || (('a' <= s[0] <= 'z' || '0' <= s[0] <= '9' || s[0] == '_') && WordGoesOn(s[1..]))
  }

  predicate WordTail(s: string) { forall c | c in s :: 'a' <= c <= 'z' || '0' <= c <= '9' || c == '_' }

  predicate AllWords(ws: seq<string>) { forall i | 0 <= i < |ws| :: Word(ws[i]) }

  /** A list of words whose first may start anywhere within one. */
  predicate TailAndWords(ws: seq<string>) { ws != [] && WordTail(ws[0]) && AllWords(ws[1..]) }

  lemma ConsWords(head: string, rest: seq<string>)
    ensures AllWords([head] + rest) <==> Word(head) && AllWords(rest)
  {
    var ws := [head] + rest;
    assert ws[0] == head && forall i | 0 <= i < |rest| :: rest[i] == ws[i + 1];
    assert forall i | 0 < i < |ws| :: ws[i] == rest[i - 1];
  }

  lemma TailFirst(c: char, s: string)
    ensures WordTail([c] + s) <==> ('a' <= c <= 'z' || '0' <= c <= '9' || c == '_') && WordTail(s)
    ensures Word([c] + s) <==> 'a' <= c <= 'z' && WordTail(s)
  {
    var t := [c] + s;
    assert t[0] == c && c in t && forall x | x in s :: x in t;
    assert forall x | x in t :: x == c || x in s;
  }

  lemma NamesAreWords(name: string)
    ensures ValidName(name) <==> AllWords(Split(name, '.'))
  {
    var ws := Split(name, '.');
    assert forall i | 0 <= i < |ws| :: ws[i] in ws;
  }

  /** Splitting at the dots agrees with the pattern. */
  lemma {:induction false} NameIsDotted(name: string)
    ensures ValidName(name) <==> WordStarts(name)
    ensures WordGoesOn(name) <==> TailAndWords(Split(name, '.'))
  {
    var ws := Split(name, '.');
    NamesAreWords(name);
    if name != [] {
      NameIsDotted(name[1..]);
      NamesAreWords(name[1..]);
      var rest := Split(name[1..], '.');
      if name[0] == '.' {
        ConsWords([], rest);
        assert ws[1..] == rest;
      } else {
        TailFirst(name[0], rest[0]);
        ConsWords([name[0]] + rest[0], rest[1..]);
        assert ws[1..] == rest[1..];
      }
    } else {
      assert ws == [[]] && ws[0] == [] && ws[1..] == [];
    }
  }

  predicate HasPermission(s: State, name: string) {
    exists i :: 0 <= i < |s.permissions| && s.permissions[i].name == name
  }

  predicate HasRole(s: State, name: string) {
    exists i :: 0 <= i < |s.roles| && s.roles[i].name == name
  }

  datatype Step =
    | DeclarePermission(name: string, description: string)
    | DeclareRole(name: string, description: string, permissions: seq<string>)
    | RequireMFA(roles: seq<string>)
    | Freeze

  /** The declarations that do not panic. */
  predicate Accepted(s: State, step: Step) {
    match step
    case DeclarePermission(name, _) => !s.frozen && ValidName(name) && !HasPermission(s, name)
    case DeclareRole(name, _, permissions) =>
      !s.frozen && ValidName(name) && !HasRole(s, name) && forall p | p in permissions :: HasPermission(s, p)
    case RequireMFA(roles) => forall r | r in roles :: !s.frozen && HasRole(s, r)
    case Freeze => true
  }

  /** RequireMFA stops at the first role it refuses; the ones before it stay marked. */
  function Mark(s: State, roles: seq<string>): State
    decreases |roles|
  {
    if roles == [] || s.frozen || !HasRole(s, roles[0]) then s
    else Mark(if roles[0] in s.mfaRoles then s else s.(mfaRoles := s.mfaRoles + [roles[0]]), roles[1..])
  }

  function Next(s: State, step: Step): State {
    match step
    case DeclarePermission(name, description) =>
      if Accepted(s, step) then s.(permissions := s.permissions + [Permission(name, description)]) else s
    case DeclareRole(name, description, permissions) =>
      if Accepted(s, step) then s.(roles := s.roles + [Role(name, description, Normal(permissions))]) else s
    case RequireMFA(roles) => Mark(s, roles)
    case Freeze => s.(frozen := true)
  }

  function Run(s: State, steps: seq<Step>): State
    decreases |steps|
  {
    if steps == [] then s else Run(Next(s, steps[0]), steps[1..])
  }

  /** What every reachable catalog keeps. */
  ghost predicate Sound(s: State) {
    && (forall i | 0 <= i < |s.permissions| :: ValidName(s.permissions[i].name))
    && (forall i, j | 0 <= i < j < |s.permissions| :: s.permissions[i].name != s.permissions[j].name)
    && (forall i, j | 0 <= i < j < |s.roles| :: s.roles[i].name != s.roles[j].name)
    && (forall i | 0 <= i < |s.roles| :: RoleSound(s, s.roles[i]))
    && (forall r | r in s.mfaRoles :: HasRole(s, r))
  }

  ghost predicate RoleSound(s: State, r: Role) {
    ValidName(r.name) && StrictlySorted(r.permissions) && forall p | p in r.permissions :: HasPermission(s, p)
  }

  lemma {:induction false} MarkSound(s: State, roles: seq<string>)
    requires Sound(s)
    ensures Sound(Mark(s, roles))
    decreases |roles|
  {
    if !(roles == [] || s.frozen || !HasRole(s, roles[0])) {
      var marked := if roles[0] in s.mfaRoles then s else s.(mfaRoles := s.mfaRoles + [roles[0]]);
      assert forall n :: HasRole(marked, n) <==> HasRole(s, n);
      assert forall n :: HasPermission(marked, n) <==> HasPermission(s, n);
      forall i | 0 <= i < |marked.roles|
        ensures RoleSound(marked, marked.roles[i])
      {
        assert RoleSound(s, s.roles[i]);
      }
      MarkSound(marked, roles[1..]);
    }
  }

  lemma NextSound(s: State, step: Step)
    requires Sound(s)
    ensures Sound(Next(s, step))
  {
    if step.RequireMFA? {
      MarkSound(s, step.roles);
    } else {
      var t := Next(s, step);
      assert t.mfaRoles == s.mfaRoles;
      forall n
        ensures HasPermission(s, n) ==> HasPermission(t, n)
      {
        if i :| 0 <= i < |s.permissions| && s.permissions[i].name == n { assert t.permissions[i] == s.permissions[i]; }
      }
      forall n
        ensures HasRole(s, n) ==> HasRole(t, n)
      {
        if i :| 0 <= i < |s.roles| && s.roles[i].name == n { assert t.roles[i] == s.roles[i]; }
      }
      forall i | 0 <= i < |t.roles|
        ensures RoleSound(t, t.roles[i])
      {
        if i < |s.roles| {
          assert RoleSound(s, s.roles[i]) && t.roles[i] == s.roles[i];
        } else {
          NormalIsCanonical(step.permissions);
        }
      }
    }
  }

  lemma {:induction false} RunSound(s: State, steps: seq<Step>)
    requires Sound(s)
    ensures Sound(Run(s, steps))
    decreases |steps|
  {
    if steps != [] {
      NextSound(s, steps[0]);
      RunSound(Next(s, steps[0]), steps[1..]);
    }
  }

  /** Every catalog some declarations lead to, panics included, is sound. */
  lemma ReachableIsSound(steps: seq<Step>)
    ensures Sound(Run(EMPTY, steps))
  {
    RunSound(EMPTY, steps);
  }

  /** A catalog that extends another: its roles unchanged, its two-factor marks kept. */
  ghost predicate Extends(s: State, t: State) {
    && s.permissions <= t.permissions
    && s.roles <= t.roles
    && s.mfaRoles <= t.mfaRoles
    && (forall i | |s.roles| <= i < |t.roles| :: !HasRole(s, t.roles[i].name))
    && (s.frozen ==> s == t)
  }

  lemma {:induction false} MarkExtends(s: State, roles: seq<string>)
    ensures Extends(s, Mark(s, roles)) && Mark(s, roles).roles == s.roles
    decreases |roles|
  {
    if !(roles == [] || s.frozen || !HasRole(s, roles[0])) {
      MarkExtends(if roles[0] in s.mfaRoles then s else s.(mfaRoles := s.mfaRoles + [roles[0]]), roles[1..]);
    }
  }

  /** Declarations only extend a catalog, and a frozen one no longer changes. */
  lemma {:induction false} RunExtends(s: State, steps: seq<Step>)
    ensures Extends(s, Run(s, steps))
    decreases |steps|
  {
    if steps != [] {
      var mid := Next(s, steps[0]);
      if steps[0].RequireMFA? { MarkExtends(s, steps[0].roles); }
      RunExtends(mid, steps[1..]);
      var t := Run(s, steps);
      assert |s.roles| <= |mid.roles| <= |t.roles|;
      forall i | |s.roles| <= i < |t.roles|
        ensures !HasRole(s, t.roles[i].name)
      {
        if i < |mid.roles| {
          assert t.roles[i] == mid.roles[i];
        } else {
          assert forall j | 0 <= j < |s.roles| :: mid.roles[j] == s.roles[j];
          assert !HasRole(mid, t.roles[i].name);
        }
      }
    }
  }

  // ---- From roles to permissions ----

  /** The permissions of the named roles, in declaration order, duplicates included. */
  function Collect(roles: seq<Role>, names: set<string>): seq<string> {
    if roles == [] then []
    else
      var last := roles[|roles| - 1];
      Collect(roles[..|roles| - 1], names) + (if last.name in names then last.permissions else [])
  }

  predicate Grants(roles: seq<Role>, names: set<string>, p: string) {
    exists i :: 0 <= i < |roles| && roles[i].name in names && p in roles[i].permissions
  }

  lemma {:induction false} CollectGrants(roles: seq<Role>, names: set<string>, p: string)
    ensures p in Collect(roles, names) <==> Grants(roles, names, p)
  {
    if roles != [] {
      var before := roles[..|roles| - 1];
      CollectGrants(before, names, p);
      if i :| 0 <= i < |before| && before[i].name in names && p in before[i].permissions {
        assert roles[i] == before[i];
      }
      if i :| 0 <= i < |roles| && roles[i].name in names && p in roles[i].permissions {
        assert i < |before| ==> before[i] == roles[i];
      }
    }
  }

  /** The roles whose permissions a session gets at once. */
  function Open(s: State, held: seq<string>, verified: bool): set<string> {
    set n | n in held && (verified || n !in s.mfaRoles)
  }

  /** The roles it would get with a second factor. */
  function Gated(s: State, held: seq<string>, verified: bool): set<string> {
    set n | n in held && !verified && n in s.mfaRoles
  }

  function Without(ps: seq<string>, unwanted: seq<string>): seq<string> {
    if ps == [] then []
    else if ps[0] in unwanted then Without(ps[1..], unwanted)
    else [ps[0]] + Without(ps[1..], unwanted)
  }

  lemma {:induction false} WithoutIs(ps: seq<string>, unwanted: seq<string>, p: string)
    ensures p in Without(ps, unwanted) <==> p in ps && p !in unwanted
  {
    if ps != [] { WithoutIs(ps[1..], unwanted, p); }
  }

  function Permissions(s: State, held: seq<string>): seq<string> { Normal(Collect(s.roles, Elements(held))) }

  function Granted(s: State, held: seq<string>, verified: bool): seq<string> {
    Normal(Collect(s.roles, Open(s, held, verified)))
  }

  function StepUp(s: State, held: seq<string>, verified: bool): seq<string> {
    Normal(Without(Collect(s.roles, Gated(s, held, verified)), Granted(s, held, verified)))
  }

  lemma Members(s: State, held: seq<string>, verified: bool, p: string)
    ensures p in Permissions(s, held) <==> Grants(s.roles, Elements(held), p)
    ensures p in Granted(s, held, verified) <==> Grants(s.roles, Open(s, held, verified), p)
    ensures p in StepUp(s, held, verified) <==>
      Grants(s.roles, Gated(s, held, verified), p) && !Grants(s.roles, Open(s, held, verified), p)
  {
    var gated := Collect(s.roles, Gated(s, held, verified));
    NormalIsCanonical(Collect(s.roles, Elements(held)));
    NormalIsCanonical(Collect(s.roles, Open(s, held, verified)));
    NormalIsCanonical(Without(gated, Granted(s, held, verified)));
    WithoutIs(gated, Granted(s, held, verified), p);
    CollectGrants(s.roles, Elements(held), p);
    CollectGrants(s.roles, Open(s, held, verified), p);
    CollectGrants(s.roles, Gated(s, held, verified), p);
  }

  /** Open and gated roles are the held ones, so their permissions are those of the held roles. */
  lemma GrantsSplit(s: State, held: seq<string>, verified: bool, p: string)
    ensures Grants(s.roles, Elements(held), p) <==>
      Grants(s.roles, Open(s, held, verified), p) || Grants(s.roles, Gated(s, held, verified), p)
  {
    assert forall n :: n in Elements(held) <==> n in Open(s, held, verified) || n in Gated(s, held, verified);
  }

  /** Granted and step-up split the roles' permissions: sorted, without duplicates, disjoint and complete. */
  lemma PermissionsSplit(s: State, held: seq<string>, verified: bool)
    ensures StrictlySorted(Granted(s, held, verified)) && StrictlySorted(StepUp(s, held, verified))
    ensures Elements(Granted(s, held, verified)) !! Elements(StepUp(s, held, verified))
    ensures Elements(Granted(s, held, verified)) + Elements(StepUp(s, held, verified)) == Elements(Permissions(s, held))
  {
    NormalIsCanonical(Collect(s.roles, Open(s, held, verified)));
    NormalIsCanonical(Without(Collect(s.roles, Gated(s, held, verified)), Granted(s, held, verified)));
    forall p
      ensures !(p in Granted(s, held, verified) && p in StepUp(s, held, verified))
      ensures p in Granted(s, held, verified) || p in StepUp(s, held, verified) <==> p in Permissions(s, held)
    {
      Members(s, held, verified, p);
      GrantsSplit(s, held, verified, p);
    }
  }

  /** A second factor turns exactly the step-up permissions into granted ones and leaves none held back. */
  lemma VerifyingGrantsStepUp(s: State, held: seq<string>)
    ensures Granted(s, held, true) == Permissions(s, held) && StepUp(s, held, true) == []
    ensures Elements(Granted(s, held, true)) - Elements(Granted(s, held, false)) == Elements(StepUp(s, held, false))
  {
    assert Open(s, held, true) == Elements(held);
    PermissionsSplit(s, held, true);
    PermissionsSplit(s, held, false);
    ElementsEmpty(StepUp(s, held, true));
  }

  /**
   Declarations that follow cannot change what already declared roles mean, except to hold permissions back:
   over any run, their permissions are the same, and a session without a second factor gets no more than before.
   What it loses is offered as step-up.
   */
  lemma LaterDeclarationsOnlyHoldBack(s: State, steps: seq<Step>, held: seq<string>)
    requires forall r | r in held :: HasRole(s, r)
    ensures Permissions(Run(s, steps), held) == Permissions(s, held)
    ensures Elements(Granted(Run(s, steps), held, false)) <= Elements(Granted(s, held, false))
    ensures Elements(StepUp(s, held, false)) <= Elements(StepUp(Run(s, steps), held, false))
  {
    var t := Run(s, steps);
    RunExtends(s, steps);
    assert forall i | 0 <= i < |s.roles| :: t.roles[i] == s.roles[i];
    forall p
      ensures Grants(t.roles, Elements(held), p) <==> Grants(s.roles, Elements(held), p)
      ensures Grants(t.roles, Open(t, held, false), p) ==> Grants(s.roles, Open(s, held, false), p)
    {
      if i :| 0 <= i < |t.roles| && t.roles[i].name in Elements(held) && p in t.roles[i].permissions {
        assert HasRole(s, t.roles[i].name);
        assert s.roles[i] == t.roles[i];
      }
      if i :| 0 <= i < |t.roles| && t.roles[i].name in Open(t, held, false) && p in t.roles[i].permissions {
        assert HasRole(s, t.roles[i].name);
        assert s.roles[i] == t.roles[i] && s.roles[i].name in Open(s, held, false);
      }
      if i :| 0 <= i < |s.roles| && s.roles[i].name in Elements(held) && p in s.roles[i].permissions {
        assert t.roles[i] == s.roles[i];
      }
    }
    forall p
      ensures p in Permissions(t, held) <==> p in Permissions(s, held)
      ensures p in Granted(t, held, false) ==> p in Granted(s, held, false)
    {
      Members(s, held, false, p);
      Members(t, held, false, p);
    }
    NormalIsCanonical(Collect(s.roles, Elements(held)));
    NormalIsCanonical(Collect(t.roles, Elements(held)));
    assert Elements(Permissions(s, held)) == Elements(Permissions(t, held));
    StrictIsCanonical(Permissions(t, held), Permissions(s, held));
    PermissionsSplit(s, held, false);
    PermissionsSplit(t, held, false);
  }

  /** Denied by default: only a declared permission is ever granted or offered, and only by a declared role. */
  lemma NothingUndeclared(steps: seq<Step>, held: seq<string>, p: string)
    requires p in Permissions(Run(EMPTY, steps), held)
    ensures HasPermission(Run(EMPTY, steps), p)
    ensures exists r | r in held :: HasRole(Run(EMPTY, steps), r)
  {
    var s := Run(EMPTY, steps);
    ReachableIsSound(steps);
    Members(s, held, false, p);
    var i :| 0 <= i < |s.roles| && s.roles[i].name in Elements(held) && p in s.roles[i].permissions;
    assert RoleSound(s, s.roles[i]);
    assert HasRole(s, s.roles[i].name);
  }

  // ---- From permissions to a decision ----

  datatype Principal = Principal(
    userID: string, apiKeyID: string, scopes: seq<string>, serviceAccountID: string,
    permissions: seq<string>, stepUp: seq<string>)
  {
    predicate APIKey() { apiKeyID != "" }

    function Restrict(granted: seq<string>, offered: seq<string>): (seq<string>, seq<string>) {
      if !APIKey() then (granted, offered)
      else if scopes == [] then (granted, [])
      else (Within(granted, scopes), [])
    }
  }

  function Within(ps: seq<string>, scopes: seq<string>): seq<string> {
    if ps == [] then []
    else if ps[0] in scopes then [ps[0]] + Within(ps[1..], scopes)
    else Within(ps[1..], scopes)
  }

  lemma {:induction false} WithinIs(ps: seq<string>, scopes: seq<string>, p: string)
    ensures p in Within(ps, scopes) <==> p in ps && p in scopes
  {
    if ps != [] { WithinIs(ps[1..], scopes, p); }
  }

  lemma {:induction false} WithinAgain(ps: seq<string>, scopes: seq<string>)
    ensures Within(Within(ps, scopes), scopes) == Within(ps, scopes)
  {
    if ps != [] { WithinAgain(ps[1..], scopes); }
  }

  /** Restricting what was restricted changes nothing: a principal may pass through it on every path. */
  lemma RestrictIsIdempotent(p: Principal, granted: seq<string>, offered: seq<string>)
    ensures var (g, u) := p.Restrict(granted, offered); p.Restrict(g, u) == (g, u)
  {
    WithinAgain(granted, p.scopes);
  }

  datatype Actor = Actor(kind: Kind, id: string, permissions: seq<string>, stepUp: seq<string>)

  /** The actor WithPrincipal leaves in the context. */
  function WithPrincipal(p: Principal): Actor {
    var (granted, offered) := p.Restrict(p.permissions, p.stepUp);
    if p.serviceAccountID != "" then Actor(Service, p.serviceAccountID, granted, offered)
    else Actor(User, p.userID, granted, offered)
  }

  datatype Decision = Allowed | Unauthenticated | StepUpRequired | Forbidden

  function Require(actor: Option<Actor>, permission: string): Decision {
    if actor.None? || actor.value.kind == Anonymous then Unauthenticated
    else if permission in actor.value.permissions then Allowed
    else if permission in actor.value.stepUp then StepUpRequired
    else Forbidden
  }

  /**
   Require, for every actor and permission: no actor, or the anonymous one, is told to authenticate and no one else is;
   any other is allowed exactly what it holds, and told to step up exactly for what it only holds back.
   */
  lemma RequireDecides(actor: Option<Actor>, permission: string)
    ensures Require(actor, permission) == Unauthenticated <==> actor.None? || actor.value.kind == Anonymous
    ensures Require(actor, permission) == Allowed <==>
      actor.Some? && actor.value.kind != Anonymous && permission in actor.value.permissions
    ensures Require(actor, permission) == StepUpRequired <==>
      && actor.Some? && actor.value.kind != Anonymous
      && permission !in actor.value.permissions && permission in actor.value.stepUp
  {
  }

  /** A service account's key acts as that service; anyone else as the user. */
  lemma PrincipalActs(p: Principal)
    ensures WithPrincipal(p).kind == Service <==> p.serviceAccountID != ""
    ensures WithPrincipal(p).kind == User <==> p.serviceAccountID == ""
    ensures WithPrincipal(p).id == if p.serviceAccountID != "" then p.serviceAccountID else p.userID
  {
  }

  /** What a request with these roles is told. */
  function Decide(s: State, p: Principal, held: seq<string>, verified: bool, permission: string): Decision {
    Require(Some(WithPrincipal(p.(permissions := Granted(s, held, verified), stepUp := StepUp(s, held, verified)))), permission)
  }

  predicate InScope(p: Principal, permission: string) {
    !p.APIKey() || p.scopes == [] || permission in p.scopes
  }

  /** A held role grants it that needs no second factor, or any once verified. */
  predicate GrantsAtOnce(s: State, held: seq<string>, verified: bool, p: string) {
    exists i :: 0 <= i < |s.roles| && s.roles[i].name in held && (verified || s.roles[i].name !in s.mfaRoles) && p in s.roles[i].permissions
  }

  predicate GrantsEver(s: State, held: seq<string>, p: string) {
    exists i :: 0 <= i < |s.roles| && s.roles[i].name in held && p in s.roles[i].permissions
  }

  lemma GrantsByRole(s: State, held: seq<string>, verified: bool, p: string)
    ensures Grants(s.roles, Open(s, held, verified), p) <==> GrantsAtOnce(s, held, verified, p)
    ensures Grants(s.roles, Elements(held), p) <==> GrantsEver(s, held, p)
  {
  }

  /**
   The whole pipeline, for every catalog, caller and permission. It is allowed exactly when a held role that needs
   no second factor, or any held role once verified, grants it and it is in scope. Step-up is asked
   exactly of a session whose held-back roles alone grant it, and never of an API key. Everything else is
   forbidden, and an authenticated caller is never told to authenticate.
   */
  lemma PipelineDecides(s: State, p: Principal, held: seq<string>, verified: bool, permission: string)
    ensures var d := Decide(s, p, held, verified, permission);
      && (d == Allowed <==> GrantsAtOnce(s, held, verified, permission) && InScope(p, permission))
      && (d == StepUpRequired <==>
          !p.APIKey() && !GrantsAtOnce(s, held, verified, permission) && GrantsEver(s, held, permission))
      && (d == Forbidden <==>
          if p.APIKey() then !(GrantsAtOnce(s, held, verified, permission) && InScope(p, permission))
          else !GrantsEver(s, held, permission))
      && d != Unauthenticated
  {
    Members(s, held, verified, permission);
    GrantsSplit(s, held, verified, permission);
    GrantsByRole(s, held, verified, permission);
    WithinIs(Granted(s, held, verified), p.scopes, permission);
  }

  /** A session told to step up is let in once it has, and stepping up never closes a door. */
  lemma SteppingUpOpens(s: State, p: Principal, held: seq<string>, permission: string)
    requires !p.APIKey()
    ensures Decide(s, p, held, true, permission) == Allowed <==>
      Decide(s, p, held, false, permission) == Allowed || Decide(s, p, held, false, permission) == StepUpRequired
    ensures Decide(s, p, held, true, permission) != StepUpRequired
  {
    PipelineDecides(s, p, held, true, permission);
    PipelineDecides(s, p, held, false, permission);
  }

  /** `n` is named before any role that is refused. */
  predicate MarkedBy(s: State, names: seq<string>, n: string) {
    exists k :: 0 <= k < |names| && names[k] == n && forall i | 0 <= i <= k :: !s.frozen && HasRole(s, names[i])
  }

  /** Where the first refusal is at `i`, those named before it are marked. */
  lemma MarksUntil(s: State, names: seq<string>, i: nat)
    requires i <= |names| && forall k | 0 <= k < i :: !s.frozen && HasRole(s, names[k])
    requires i < |names| ==> s.frozen || !HasRole(s, names[i])
    ensures forall n :: n in names[..i] <==> MarkedBy(s, names, n)
  {
    forall n | n in names[..i]
      ensures MarkedBy(s, names, n)
    {
      var k :| 0 <= k < i && names[..i][k] == n;
      assert names[k] == n;
    }
    forall n | MarkedBy(s, names, n)
      ensures n in names[..i]
    {
      var k :| 0 <= k < |names| && names[k] == n && forall m | 0 <= m <= k :: !s.frozen && HasRole(s, names[m]);
      assert k < i && names[..i][k] == n;
    }
  }

  /** A role declared grants exactly the permissions it was declared with, to those who hold it. */
  lemma DeclaredRoleGrants(s: State, name: string, description: string, permissions: seq<string>, p: string)
    requires Accepted(s, DeclareRole(name, description, permissions))
    ensures Grants(Next(s, DeclareRole(name, description, permissions)).roles, {name}, p) <==> p in permissions
  {
    var t := Next(s, DeclareRole(name, description, permissions));
    NormalIsCanonical(permissions);
    assert t.roles[|s.roles|] == Role(name, description, Normal(permissions));
    assert forall i | 0 <= i < |s.roles| :: t.roles[i] == s.roles[i] && s.roles[i].name != name;
  }

  // ---- The catalog object ----

  class Catalog {
    var permissions: seq<Permission>
    var roles: seq<Role>
    var mfaRoles: seq<string>
    var frozen: bool

    function View(): State reads this { State(permissions, roles, mfaRoles, frozen) }

    constructor ()
      ensures View() == EMPTY
    {
      permissions, roles, mfaRoles, frozen := [], [], [], false;
    }

    /** Permission; `ok` is false for a panic, which changes nothing. */
    method DeclarePermission(name: string, description: string) returns (ok: bool)
      modifies this
      ensures ok == old(Accepted(View(), Step.DeclarePermission(name, description)))
      ensures View() == Next(old(View()), Step.DeclarePermission(name, description))
      ensures ok <==> !old(frozen) && WordStarts(name) && forall i | 0 <= i < |old(permissions)| :: old(permissions)[i].name != name
      ensures permissions == if ok then old(permissions) + [Permission(name, description)] else old(permissions)
      ensures roles == old(roles) && mfaRoles == old(mfaRoles) && frozen == old(frozen)
    {
      NameIsDotted(name);
      if frozen || !ValidName(name) || HasPermission(View(), name) {
        return false;
      }
      permissions := permissions + [Permission(name, description)];
      ok := true;
    }

    /** Role; `ok` is false for a panic, which changes nothing. */
    method DeclareRole(name: string, description: string, granted: seq<string>) returns (ok: bool)
      modifies this
      ensures ok == old(Accepted(View(), Step.DeclareRole(name, description, granted)))
      ensures View() == Next(old(View()), Step.DeclareRole(name, description, granted))
      ensures ok <==>
        && !old(frozen) && WordStarts(name) && (forall i | 0 <= i < |old(roles)| :: old(roles)[i].name != name)
        && forall p | p in granted :: exists i :: 0 <= i < |old(permissions)| && old(permissions)[i].name == p
      ensures !ok ==> roles == old(roles)
      ensures ok ==>
        && |roles| == |old(roles)| + 1 && roles[..|old(roles)|] == old(roles)
        && roles[|old(roles)|].name == name && roles[|old(roles)|].description == description
        && StrictlySorted(roles[|old(roles)|].permissions)
        && forall p :: p in roles[|old(roles)|].permissions <==> p in granted
      ensures permissions == old(permissions) && mfaRoles == old(mfaRoles) && frozen == old(frozen)
    {
      NameIsDotted(name);
      NormalIsCanonical(granted);
      if frozen || !ValidName(name) || HasRole(View(), name) {
        return false;
      }
      for i := 0 to |granted|
        invariant forall k | 0 <= k < i :: HasPermission(View(), granted[k])
        invariant View() == old(View())
      {
        if !HasPermission(View(), granted[i]) {
          assert granted[i] in granted;
          return false;
        }
      }
      roles := roles + [Role(name, description, Normal(granted))];
      ok := true;
    }

    /** RequireMFA; a panic keeps what was marked before it. */
    method RequireMFA(names: seq<string>) returns (ok: bool)
      modifies this`mfaRoles
      ensures ok == old(Accepted(View(), Step.RequireMFA(names)))
      ensures View() == Next(old(View()), Step.RequireMFA(names))
      ensures ok <==> forall n | n in names :: !frozen && HasRole(old(View()), n)
      ensures forall n :: n in mfaRoles <==> n in old(mfaRoles) || MarkedBy(old(View()), names, n)
    {
      for i := 0 to |names|
        invariant Mark(View(), names[i..]) == Mark(old(View()), names)
        invariant forall n :: HasRole(View(), n) <==> HasRole(old(View()), n)
        invariant forall k | 0 <= k < i :: !frozen && HasRole(old(View()), names[k])
        invariant forall n :: n in mfaRoles <==> n in old(mfaRoles) || n in names[..i]
      {
        assert names[i..][1..] == names[i + 1..];
        assert names[i..][0] == names[i];
        assert names[..i + 1] == names[..i] + [names[i]];
        if frozen || !HasRole(View(), names[i]) {
          assert names[i] in names;
          MarksUntil(old(View()), names, i);
          return false;
        }
        if names[i] !in mfaRoles {
          mfaRoles := mfaRoles + [names[i]];
        }
      }
      assert names[..|names|] == names;
      MarksUntil(old(View()), names, |names|);
      ok := true;
    }

    method Freeze()
      modifies this`frozen
      ensures View() == Next(old(View()), Step.Freeze)
      ensures frozen
    {
      frozen := true;
    }

    method PermissionsOf(held: seq<string>) returns (perms: seq<string>)
      ensures perms == Permissions(View(), held)
    {
      perms := [];
      for i := 0 to |roles|
        invariant perms == Collect(roles[..i], Elements(held))
      {
        assert roles[..i + 1][..i] == roles[..i];
        if roles[i].name in held {
          perms := perms + roles[i].permissions;
        }
      }
      assert roles[..|roles|] == roles;
      perms := Compact(Sort(perms));
    }

    method PermissionsFor(held: seq<string>, verified: bool) returns (granted: seq<string>, offered: seq<string>)
      ensures granted == Granted(View(), held, verified)
      ensures offered == StepUp(View(), held, verified)
    {
      granted, offered := [], [];
      for i := 0 to |roles|
        invariant granted == Collect(roles[..i], Open(View(), held, verified))
        invariant offered == Collect(roles[..i], Gated(View(), held, verified))
      {
        assert roles[..i + 1][..i] == roles[..i];
        if roles[i].name in held {
          if verified || roles[i].name !in mfaRoles {
            granted := granted + roles[i].permissions;
          } else {
            offered := offered + roles[i].permissions;
          }
        }
      }
      assert roles[..|roles|] == roles;
      granted := Compact(Sort(granted));
      offered := Without(offered, granted);
      offered := Compact(Sort(offered));
    }
  }
}
