/**
 Staff accounts under every handler that writes their state, each request as one atomic
 step: the last-admin guard and the handlers that go round it, suspension, reinstatement
 codes, and the token watermark.
 */
module Accounts {
  import opened Wrappers

  const ADMIN: string := "admin"

  /** Times are microseconds on one clock. */
  const SECOND: int := 1_000_000
  const REINSTATE_CODE_TTL: int := 30 * 60 * SECOND
  const REINSTATE_MAX_ATTEMPTS: nat := 5

  datatype User = User(
    role: string,
    active: bool,
    deleted: bool,
    suspendedAt: Option<int>,
    codeHash: Option<string>,
    codeExpires: Option<int>,
    codeAttempts: nat,
    tokensValidFrom: int)

  type Users = map<int, User>

  datatype Caller = Caller(id: int, role: string)

  /** The user a SELECT … WHERE id = $1 AND deleted_at IS NULL finds. */
  predicate Present(users: Users, id: int) {
    id in users && !users[id].deleted
  }

  predicate IsActiveAdmin(u: User) {
    u.role == ADMIN && u.active && !u.deleted
  }

  function ActiveAdmins(users: Users): set<int> {
    set id | id in users && IsActiveAdmin(users[id])
  }

  /** The guard four handlers share: an admin may not go while no more than one is active. */
  predicate LastAdmin(users: Users, id: int) {
    Present(users, id) && users[id].role == ADMIN && |ActiveAdmins(users)| <= 1
  }

  predicate IsSelf(caller: Option<Caller>, id: int) {
    caller.Some? && caller.value.id == id
  }

  /**
   A request, and what it carries that bears on account state. An update is `rejected` on
   grounds outside this model: the e-mail is taken, the role unknown, the password short.
   */
  datatype Request =
    | UpdateUser(caller: Option<Caller>, id: int, rejected: bool, role: Option<string>, password: bool)
    | DeleteUser(caller: Option<Caller>, id: int)
    | DeactivateUser(caller: Option<Caller>, id: int)
    | ReactivateUser(id: int)
    | SuspendUser(caller: Option<Caller>, id: int, reasonOk: bool)
    | IssueCode(id: int, digits: nat, hash: string)
    | Reinstate(id: int, code: string)   // id: the account the e-mail address names
    | CreateUser(id: int, initialRole: string, initiallyActive: bool)
    | EndSessions(id: int)               // a password changed or reset, or a sign-out everywhere
    | SettingsUpdate(id: int, setRole: string, setActive: Option<bool>)   // from the settings page
    | SettingsDelete(id: int)
    | ResetAdmin(id: int)                // the emergency reset, by e-mail address

  predicate RoleChangeRefused(users: Users, caller: Option<Caller>, id: int, role: string) {
    || IsSelf(caller, id)
    || (role == ADMIN && (caller.None? || caller.value.role != ADMIN))
    || (role != ADMIN && LastAdmin(users, id))
  }

  /** A code can be tried: the account is suspended, and the code live, unexpired and not yet worn out. */
  predicate CodeTryable(u: User, now: int) {
    && !u.deleted && u.suspendedAt.Some? && u.codeHash.Some?
    && u.codeExpires.Some? && now <= u.codeExpires.value
    && u.codeAttempts < REINSTATE_MAX_ATTEMPTS
  }

  function Cleared(u: User): User {
    u.(suspendedAt := None, codeHash := None, codeExpires := None, codeAttempts := 0)
  }

  /** The state of the accounts after a request handled at time `now`. */
  function Handled(users: Users, r: Request, now: int): Users {
    match r
    case UpdateUser(caller, id, rejected, role, password) =>
      if rejected || (role.Some? && RoleChangeRefused(users, caller, id, role.value)) || (role.None? && !password) then users
      else
        var u1 := if role.Some? && Present(users, id) then users[id := users[id].(role := role.value)] else users;
        if password && id in u1 then u1[id := u1[id].(tokensValidFrom := now)] else u1
    case DeleteUser(caller, id) =>
      if IsSelf(caller, id) || LastAdmin(users, id) || !Present(users, id) then users
      else users[id := users[id].(active := false, deleted := true)]
    case DeactivateUser(caller, id) =>
      if IsSelf(caller, id) || LastAdmin(users, id) || !Present(users, id) then users
      else users[id := users[id].(active := false, tokensValidFrom := now)]
    case ReactivateUser(id) =>
      if !Present(users, id) then users
      else users[id := Cleared(users[id]).(active := true)]
    case SuspendUser(caller, id, reasonOk) =>
      if !reasonOk || IsSelf(caller, id) || !Present(users, id) || LastAdmin(users, id) then users
      else users[id := Cleared(users[id]).(active := false, suspendedAt := Some(now), tokensValidFrom := now)]
    case IssueCode(id, digits, hash) =>
      if digits !in {0, 4, 6} || !Present(users, id) || users[id].suspendedAt.None? then users
      else users[id := users[id].(codeHash := Some(hash), codeExpires := Some(now + REINSTATE_CODE_TTL), codeAttempts := 0)]
    case Reinstate(id, code) =>
      if !Present(users, id) || users[id].suspendedAt.None? || users[id].codeHash.None? then users
      else if users[id].codeExpires.None? || now > users[id].codeExpires.value then users
      else if users[id].codeAttempts >= REINSTATE_MAX_ATTEMPTS then
        users[id := users[id].(codeHash := None, codeExpires := None)]
      else if users[id].codeHash.value != code then
        users[id := users[id].(codeAttempts := users[id].codeAttempts + 1)]
      else users[id := Cleared(users[id]).(active := true)]
    case CreateUser(id, role, active) =>
      if id in users then users else users[id := User(role, active, false, None, None, None, 0, now)]
    case EndSessions(id) =>
      if id in users then users[id := users[id].(tokensValidFrom := now)] else users
    case SettingsUpdate(id, role, active) =>
      if !Present(users, id) then users
      else
        var u := users[id];
        users[id := u.(role := if role == "" then u.role else role,
                       active := if active.Some? then active.value else u.active)]
    case SettingsDelete(id) =>
      if id in users then users[id := users[id].(active := false, deleted := true)] else users
    case ResetAdmin(id) =>
      if id in users then users[id := users[id].(active := true, deleted := false)] else users
  }

  /** Nothing but account `id` differs. */
  ghost predicate OnlyTouches(before: Users, after: Users, id: int) {
    forall k :: k != id ==> (k in before <==> k in after) && (k in before ==> after[k] == before[k])
  }

  class UserStore {
    var users: Users

    constructor (initial: Users)
      ensures users == initial
    {
      users := initial;
    }

    /** COUNT(*) of the active, undeleted admins. */
    function AdminCount(): nat
      reads this
    {
      |ActiveAdmins(users)|
    }

    /** updateUser, as far as the role and the password go. */
    method Update(caller: Option<Caller>, id: int, rejected: bool, role: Option<string>, password: bool, now: int)
      returns (done: bool)
      modifies this
      ensures users == Handled(old(users), UpdateUser(caller, id, rejected, role, password), now)
      ensures done <==> !rejected && (role.Some? || password) &&
                        !(role.Some? && RoleChangeRefused(old(users), caller, id, role.value))
      ensures !done ==> users == old(users)
      ensures OnlyTouches(old(users), users, id)
      ensures done && id in old(users) ==>
                var u, was := users[id], old(users)[id];
                && u.role == (if role.Some? && !was.deleted then role.value else was.role)
                && u.tokensValidFrom == (if password then now else was.tokensValidFrom)
                && u == was.(role := u.role, tokensValidFrom := u.tokensValidFrom)
    {
      done := false;
      if rejected {
        return;
      }
      if role.Some? {
        if caller.Some? && caller.value.id == id {
          return;
        }
        if role.value == ADMIN && (caller.None? || caller.value.role != ADMIN) {
          return;
        }
        if role.value != ADMIN {
          if Present(users, id) && users[id].role == ADMIN {
            if AdminCount() <= 1 {
              return;
            }
          }
        }
      }
      if role.None? && !password {
        return;
      }
      done := true;
      if role.Some? && Present(users, id) {
        users := users[id := users[id].(role := role.value)];
      }
      if password && id in users {
        InvalidateUserTokens(id, now);
      }
    }

    /** InvalidateUserTokens: the watermark moves to now. */
    method InvalidateUserTokens(id: int, now: int)
      modifies this
      ensures users == Handled(old(users), EndSessions(id), now)
      ensures OnlyTouches(old(users), users, id)
      ensures id in old(users) ==>
                var u, was := users[id], old(users)[id];
                u.tokensValidFrom == now && u == was.(tokensValidFrom := u.tokensValidFrom)
    {
      if id in users {
        users := users[id := users[id].(tokensValidFrom := now)];
      }
    }

    /** createUser and the other ways an account comes to be; a taken id is never given again. */
    method Create(id: int, role: string, active: bool, now: int) returns (done: bool)
      modifies this
      ensures users == Handled(old(users), CreateUser(id, role, active), now)
      ensures done <==> id !in old(users)
      ensures OnlyTouches(old(users), users, id) && (!done ==> users == old(users))
      ensures done ==>
                var u := users[id];
                && u.role == role && u.active == active && !u.deleted && u.tokensValidFrom == now
                && u.suspendedAt == None && u.codeHash == None && u.codeExpires == None && u.codeAttempts == 0
    {
      done := id !in users;
      if done {
        users := users[id := User(role, active, false, None, None, None, 0, now)];
      }
    }

    /** deleteUser: the account goes, but its sessions do not. */
    method Delete(caller: Option<Caller>, id: int, now: int) returns (done: bool)
      modifies this
      ensures users == Handled(old(users), DeleteUser(caller, id), now)
      ensures done <==> Present(old(users), id) && !IsSelf(caller, id) && !LastAdmin(old(users), id)
      ensures !done ==> users == old(users)
      ensures OnlyTouches(old(users), users, id)
      ensures done ==>
                var u, was := users[id], old(users)[id];
                !u.active && u.deleted && u == was.(active := u.active, deleted := u.deleted)
    {
      done := false;
      if caller.Some? && caller.value.id == id {
        return;
      }
      if Present(users, id) && users[id].role == ADMIN && AdminCount() <= 1 {
        return;
      }
      if Present(users, id) {
        users := users[id := users[id].(active := false, deleted := true)];
        done := true;
      }
    }

    /** deactivateUser */
    method Deactivate(caller: Option<Caller>, id: int, now: int) returns (done: bool)
      modifies this
      ensures users == Handled(old(users), DeactivateUser(caller, id), now)
      ensures done <==> Present(old(users), id) && !IsSelf(caller, id) && !LastAdmin(old(users), id)
      ensures !done ==> users == old(users)
      ensures OnlyTouches(old(users), users, id)
      ensures done ==>
                var u, was := users[id], old(users)[id];
                && !u.active && u.tokensValidFrom == now
                && u == was.(active := u.active, tokensValidFrom := u.tokensValidFrom)
    {
      done := false;
      if caller.Some? && caller.value.id == id {
        return;
      }
      if Present(users, id) && users[id].role == ADMIN && AdminCount() <= 1 {
        return;
      }
      if !Present(users, id) {
        return;
      }
      users := users[id := users[id].(active := false)];
      InvalidateUserTokens(id, now);
      done := true;
    }

    /** reactivateUser: any suspension goes, with its code. */
    method Reactivate(id: int, now: int) returns (done: bool)
      modifies this
      ensures users == Handled(old(users), ReactivateUser(id), now)
      ensures done <==> Present(old(users), id)
      ensures !done ==> users == old(users)
      ensures OnlyTouches(old(users), users, id)
      ensures done ==>
                var u, was := users[id], old(users)[id];
                && u.active && !u.deleted && u.suspendedAt == None
                && u.codeHash == None && u.codeExpires == None && u.codeAttempts == 0
                && u.role == was.role && u.tokensValidFrom == was.tokensValidFrom
    {
      done := false;
      if !Present(users, id) {
        return;
      }
      users := users[id := users[id].(active := true, deleted := false, suspendedAt := None,
                                      codeHash := None, codeExpires := None, codeAttempts := 0)];
      done := true;
    }

    /** suspendUser */
    method Suspend(caller: Option<Caller>, id: int, reasonOk: bool, now: int) returns (done: bool)
      modifies this
      ensures users == Handled(old(users), SuspendUser(caller, id, reasonOk), now)
      ensures done <==> reasonOk && !IsSelf(caller, id) && Present(old(users), id) && !LastAdmin(old(users), id)
      ensures !done ==> users == old(users)
      ensures OnlyTouches(old(users), users, id)
      ensures done ==>
                var u, was := users[id], old(users)[id];
                && !u.active && u.suspendedAt == Some(now) && u.tokensValidFrom == now
                && u.codeHash == None && u.codeExpires == None && u.codeAttempts == 0
                && u.role == was.role && !u.deleted
    {
      done := false;
      if !reasonOk {
        return;
      }
      if caller.Some? && caller.value.id == id {
        return;
      }
      if !Present(users, id) {
        return;
      }
      if users[id].role == ADMIN {
        if AdminCount() <= 1 {
          return;
        }
      }
      users := users[id := users[id].(active := false, suspendedAt := Some(now),
                                      codeHash := None, codeExpires := None, codeAttempts := 0)];
      InvalidateUserTokens(id, now);
      done := true;
    }

    /** issueReinstateCode; no digits asked for is six. The code lives thirty minutes. */
    method IssueReinstateCode(id: int, digits: nat, hash: string, now: int) returns (done: bool)
      modifies this
      ensures users == Handled(old(users), IssueCode(id, digits, hash), now)
      ensures done <==> digits in {0, 4, 6} && Present(old(users), id) && old(users)[id].suspendedAt.Some?
      ensures !done ==> users == old(users)
      ensures OnlyTouches(old(users), users, id)
      ensures done ==>
                var u, was := users[id], old(users)[id];
                && u.codeHash == Some(hash) && u.codeExpires == Some(now + 30 * 60 * SECOND) && u.codeAttempts == 0
                && u == was.(codeHash := u.codeHash, codeExpires := u.codeExpires, codeAttempts := u.codeAttempts)
    {
      done := false;
      var wanted := if digits == 0 then 6 else digits;
      if wanted != 4 && wanted != 6 {
        return;
      }
      if !Present(users, id) {
        return;
      }
      if users[id].suspendedAt.None? {
        return;
      }
      var expires := now + REINSTATE_CODE_TTL;
      users := users[id := users[id].(codeHash := Some(hash), codeExpires := Some(expires), codeAttempts := 0)];
      done := true;
    }

    /** ReinstateWithCode; `compared` says whether the code was put to the stored hash. */
    method ReinstateWithCode(id: int, code: string, now: int) returns (compared: bool, reinstated: bool)
      modifies this
      ensures users == Handled(old(users), Reinstate(id, code), now)
      ensures compared <==> id in old(users) && CodeTryable(old(users)[id], now)
      ensures reinstated <==> compared && old(users)[id].codeHash == Some(code)
      ensures OnlyTouches(old(users), users, id)
      ensures reinstated ==>
                var u, was := users[id], old(users)[id];
                && u.active && u.suspendedAt == None
                && u.codeHash == None && u.codeExpires == None && u.codeAttempts == 0
                && u.role == was.role && u.deleted == was.deleted && u.tokensValidFrom == was.tokensValidFrom
      ensures !reinstated && id in old(users) ==>
                var u, was := users[id], old(users)[id];
                && u.codeAttempts == was.codeAttempts + (if compared then 1 else 0)
                && u == was.(codeHash := u.codeHash, codeExpires := u.codeExpires, codeAttempts := u.codeAttempts)
    {
      compared, reinstated := false, false;
      if !Present(users, id) || users[id].suspendedAt.None? || users[id].codeHash.None? {
        return;
      }
      if users[id].codeExpires.None? || now > users[id].codeExpires.value {
        return;
      }
      if users[id].codeAttempts >= REINSTATE_MAX_ATTEMPTS {
        users := users[id := users[id].(codeHash := None, codeExpires := None)];
        return;
      }
      compared := true;
      if users[id].codeHash.value != code {
        users := users[id := users[id].(codeAttempts := users[id].codeAttempts + 1)];
        return;
      }
      users := users[id := users[id].(active := true, suspendedAt := None,
                                      codeHash := None, codeExpires := None, codeAttempts := 0)];
      reinstated := true;
    }

    /** settingsUserUpdate: COALESCE in each column, and no guard. */
    method SettingsUpdate(id: int, role: string, active: Option<bool>, now: int)
      modifies this
      ensures users == Handled(old(users), Request.SettingsUpdate(id, role, active), now)
      ensures OnlyTouches(old(users), users, id)
      ensures id in old(users) ==>
                var u, was := users[id], old(users)[id];
                && u == was.(role := u.role, active := u.active)
                && (was.deleted ==> u == was)
                && (!was.deleted && role != "" ==> u.role == role)
                && (!was.deleted && active.Some? ==> u.active == active.value)
                && (role == "" ==> u.role == was.role) && (active.None? ==> u.active == was.active)
    {
      if !Present(users, id) {
        return;
      }
      if role != "" {
        users := users[id := users[id].(role := role)];
      }
      if active.Some? {
        users := users[id := users[id].(active := active.value)];
      }
    }

    /** settingsUserDelete: no guard, and no look at whether the account is deleted already. */
    method SettingsDelete(id: int, now: int)
      modifies this
      ensures users == Handled(old(users), Request.SettingsDelete(id), now)
      ensures OnlyTouches(old(users), users, id)
      ensures id in old(users) ==>
                var u, was := users[id], old(users)[id];
                !u.active && u.deleted && u == was.(active := u.active, deleted := u.deleted)
    {
      if id in users {
        users := users[id := users[id].(active := false, deleted := true)];
      }
    }

    /** ResetAdminHandler: the account its e-mail address names is active again, suspended or not. */
    method ResetAdmin(id: int, now: int)
      modifies this
      ensures users == Handled(old(users), Request.ResetAdmin(id), now)
      ensures OnlyTouches(old(users), users, id)
      ensures id in old(users) ==>
                var u, was := users[id], old(users)[id];
                u.active && !u.deleted && u == was.(active := u.active, deleted := u.deleted)
    {
      if id in users {
        users := users[id := users[id].(active := true, deleted := false)];
      }
    }
  }

  // ── the guards ─────────────────────────────────────────────────────────────

  ghost predicate AdminNow(users: Users, id: int) {
    id in users && users[id].role == "admin" && users[id].active && !users[id].deleted
  }

  lemma TwoOf<T>(s: set<T>) returns (a: T, b: T)
    requires |s| > 1
    ensures a in s && b in s && a != b
  {
    a :| a in s;
    assert |s - {a}| > 0;
    b :| b in s - {a};
  }

  lemma OneOf<T>(s: set<T>, a: T, b: T)
    requires |s| <= 1 && a in s && b in s
    ensures a == b
  {
    assert |s - {a}| == 0;
    assert b !in s - {a};
  }

  /** The two guards: a caller's own account, and an admin's when no two accounts are active admins. */
  lemma GuardsExact(users: Users, caller: Option<Caller>, id: int)
    ensures IsSelf(caller, id) <==> exists role :: caller == Some(Caller(id, role))
    ensures LastAdmin(users, id) <==>
            && id in users && !users[id].deleted && users[id].role == "admin"
            && forall a, b :: AdminNow(users, a) && AdminNow(users, b) ==> a == b
  {
    hide ActiveAdmins;
    if IsSelf(caller, id) {
      assert caller == Some(Caller(id, caller.value.role));
    }
    SoleAdminExact(users);
  }

  lemma SoleAdminExact(users: Users)
    ensures |ActiveAdmins(users)| <= 1 <==> forall a, b :: AdminNow(users, a) && AdminNow(users, b) ==> a == b
  {
    var admins := ActiveAdmins(users);
    assert forall a :: a in admins <==> AdminNow(users, a);
    if |admins| > 1 {
      var a, b := TwoOf(admins);
      assert AdminNow(users, a) && AdminNow(users, b);
    } else {
      forall a, b | AdminNow(users, a) && AdminNow(users, b)
        ensures a == b
      {
        OneOf(admins, a, b);
      }
    }
  }

  /** A role is not changed on one's own account, to admin by anyone but an admin, or from admin for the last of them. */
  lemma RoleChangeExact(users: Users, caller: Option<Caller>, id: int, role: string)
    ensures RoleChangeRefused(users, caller, id, role) <==>
            || IsSelf(caller, id)
            || (role == "admin" && !exists c :: caller == Some(c) && c.role == "admin")
            || (role != "admin" && LastAdmin(users, id))
  {
    hide LastAdmin;
  }

  /** A code can be tried on a suspended account within thirty minutes of its issue, while fewer than five were tried. */
  lemma TryableExact(u: User, now: int)
    ensures CodeTryable(u, now) <==>
            && !u.deleted && u.suspendedAt != None && u.codeHash != None
            && (exists expiry :: u.codeExpires == Some(expiry) && now <= expiry)
            && u.codeAttempts < 5
  {
    if CodeTryable(u, now) {
      assert u.codeExpires == Some(u.codeExpires.value);
    }
  }

  // ── over all runs ──────────────────────────────────────────────────────────

  /** A handled request and its time. */
  datatype Event = Event(request: Request, at: int)

  function Run(users: Users, es: seq<Event>): Users {
    if es == [] then users
    else Handled(Run(users, es[..|es| - 1]), es[|es| - 1].request, es[|es| - 1].at)
  }

  /** One clock, from `start` on. */
  ghost predicate Clocked(start: int, es: seq<Event>) {
    es != [] ==>
      && Clocked(start, es[..|es| - 1])
      && Clock(start, es[..|es| - 1]) <= es[|es| - 1].at
  }

  /** The time of the last event. */
  function Clock(start: int, es: seq<Event>): int {
    if es == [] then start else es[|es| - 1].at
  }

  /**
   A suspended account is not active; a live code belongs to a suspended account, and was
   issued, 30 minutes before it expires, no earlier than the current suspension.
   */
  ghost predicate UserSound(u: User, now: int) {
    && (u.suspendedAt.Some? ==> !u.active && u.suspendedAt.value <= now)
    && (u.codeHash.Some? ==>
          && u.suspendedAt.Some? && u.codeExpires.Some?
          && u.suspendedAt.value <= u.codeExpires.value - 30 * 60 * SECOND)
    && u.codeAttempts <= 5
    && u.tokensValidFrom <= now
  }

  ghost predicate Sound(users: Users, now: int) {
    && ActiveAdmins(users) != {}
    && forall id :: id in users ==> UserSound(users[id], now)
  }

  /** The user a request may touch. */
  function Target(r: Request): int {
    r.id
  }

  lemma TouchesTarget(users: Users, r: Request, now: int)
    ensures OnlyTouches(users, Handled(users, r, now), Target(r))
    ensures Target(r) in users ==> Target(r) in Handled(users, r, now)
  {
    hide ActiveAdmins;
  }

  /** Makes a suspended account active without lifting its suspension. */
  predicate RevivesSuspended(users: Users, r: Request) {
    && Target(r) in users && users[Target(r)].suspendedAt.Some?
    && (r.ResetAdmin? || (r.SettingsUpdate? && r.setActive == Some(true) && !users[r.id].deleted))
  }

  /** Takes the only active admin out of that role, its activity, or the table. */
  predicate RemovesLastAdmin(users: Users, r: Request) {
    && ActiveAdmins(users) == {Target(r)}
    && (r.SettingsDelete? || (r.SettingsUpdate? && (r.setActive == Some(false) || (r.setRole != "" && r.setRole != ADMIN))))
  }

  /** What a caller of the unguarded handlers would have to check first. */
  predicate Breaks(users: Users, r: Request) {
    RevivesSuspended(users, r) || RemovesLastAdmin(users, r)
  }

  lemma TargetSoundExact(users: Users, r: Request, now: int, later: int)
    requires now <= later
    requires Target(r) in users && UserSound(users[Target(r)], now)
    ensures UserSound(Handled(users, r, later)[Target(r)], later) <==> !RevivesSuspended(users, r)
  {
    hide ActiveAdmins;
  }

  lemma NewUserSound(users: Users, r: Request, now: int)
    requires Target(r) !in users && Target(r) in Handled(users, r, now)
    ensures UserSound(Handled(users, r, now)[Target(r)], now)
  {
    hide ActiveAdmins;
  }

  /** The only active admin stops being one exactly when an unguarded handler takes that away. */
  lemma LastAdminExact(users: Users, r: Request, now: int)
    requires ActiveAdmins(users) == {Target(r)} && Target(r) in users && IsActiveAdmin(users[Target(r)])
    ensures !IsActiveAdmin(Handled(users, r, now)[Target(r)]) <==> RemovesLastAdmin(users, r)
  {
    assert |ActiveAdmins(users)| == 1;
    hide ActiveAdmins;
  }

  /** With one account touched, there is still an active admin unless it was the only one. */
  lemma AdminsAfter(before: Users, after: Users, id: int)
    requires OnlyTouches(before, after, id) && (id in before ==> id in after)
    requires ActiveAdmins(before) != {}
    ensures ActiveAdmins(after) == {} <==> ActiveAdmins(before) == {id} && !IsActiveAdmin(after[id])
  {
    var admins := ActiveAdmins(before);
    if id in before && IsActiveAdmin(after[id]) {
      assert id in ActiveAdmins(after);
    } else if exists other :: other in admins && other != id {
      var other :| other in admins && other != id;
      assert other in ActiveAdmins(after);
    } else {
      OnlyMember(admins, id);
      assert forall k :: k in after && k != id && IsActiveAdmin(after[k]) ==> k in admins;
    }
  }

  lemma OnlyMember<T>(s: set<T>, x: T)
    requires s != {} && forall y :: y in s ==> y == x
    ensures s == {x}
  {
    var y :| y in s;
  }

  /** One step from a sound state keeps it sound exactly when it is none of the breaking ones. */
  lemma StepSoundExact(users: Users, r: Request, now: int, later: int)
    requires Sound(users, now) && now <= later
    ensures Sound(Handled(users, r, later), later) <==> !Breaks(users, r)
  {
    hide Handled, IsActiveAdmin, RevivesSuspended, RemovesLastAdmin, UserSound;
    var after, id := Handled(users, r, later), Target(r);
    TouchesTarget(users, r, later);
    AdminsAfter(users, after, id);
    if ActiveAdmins(users) == {id} {
      assert id in ActiveAdmins(users);
      LastAdminExact(users, r, later);
    } else {
      NotTheLast(users, r);
    }
    if id in users {
      TargetSoundExact(users, r, now, later);
    } else {
      NotRevived(users, r);
      if id in after {
        NewUserSound(users, r, later);
      }
    }
    forall k | k in after && k != id
      ensures UserSound(after[k], later)
    {
      SoundLater(users[k], now, later);
    }
  }

  lemma NotTheLast(users: Users, r: Request)
    requires ActiveAdmins(users) != {Target(r)}
    ensures !RemovesLastAdmin(users, r)
  {
  }

  lemma NotRevived(users: Users, r: Request)
    requires Target(r) !in users
    ensures !RevivesSuspended(users, r)
  {
  }

  lemma SoundLater(u: User, now: int, later: int)
    requires UserSound(u, now) && now <= later
    ensures UserSound(u, later)
  {
  }

  /** Sound now, and after every event so far. */
  ghost predicate StaysSound(users: Users, start: int, es: seq<Event>) {
    && Sound(Run(users, es), Clock(start, es))
    && (es != [] ==> StaysSound(users, start, es[..|es| - 1]))
  }

  /** No event was a breaking one when it came. */
  ghost predicate NoneBreaks(users: Users, es: seq<Event>) {
    es != [] ==>
      && NoneBreaks(users, es[..|es| - 1])
      && !Breaks(Run(users, es[..|es| - 1]), es[|es| - 1].request)
  }

  /**
   Over every run of every handler that writes account state, from a sound start: there is
   always an active admin, no suspended account is active, and every live code belongs to
   the current suspension of a suspended account, if and only if no settings change or
   emergency reset revived a suspended account or took the only active admin away.
   */
  lemma {:induction false} SoundExactly(users: Users, start: int, es: seq<Event>)
    requires Sound(users, start) && Clocked(start, es)
    ensures StaysSound(users, start, es) <==> NoneBreaks(users, es)
  {
    hide Sound, Handled, Breaks;
    if es != [] {
      var before, last := es[..|es| - 1], es[|es| - 1];
      SoundExactly(users, start, before);
      if StaysSound(users, start, before) {
        SoundNow(users, start, before);
        StepSoundExact(Run(users, before), last.request, Clock(start, before), last.at);
      }
    }
  }

  lemma SoundNow(users: Users, start: int, es: seq<Event>)
    requires StaysSound(users, start, es)
    ensures Sound(Run(users, es), Clock(start, es))
  {
  }

  /** So the guarded handlers among themselves keep it, whatever requests they are sent. */
  lemma {:induction false} AlwaysSound(users: Users, start: int, es: seq<Event>)
    requires Sound(users, start) && Clocked(start, es)
    requires forall e :: e in es ==> !e.request.SettingsUpdate? && !e.request.SettingsDelete? && !e.request.ResetAdmin?
    ensures Sound(Run(users, es), Clock(start, es))
  {
    hide Sound, Handled, Breaks;
    if es != [] {
      var before, last := es[..|es| - 1], es[|es| - 1];
      assert last in es;
      AlwaysSound(users, start, before);
      GuardedNeverBreaks(Run(users, before), last.request);
      StepSoundExact(Run(users, before), last.request, Clock(start, before), last.at);
    }
  }

  lemma GuardedNeverBreaks(users: Users, r: Request)
    requires !r.SettingsUpdate? && !r.SettingsDelete? && !r.ResetAdmin?
    ensures !Breaks(users, r)
  {
  }

  const ONE_ADMIN := User(ADMIN, true, false, None, None, None, 0, 0)
  const SUSPENDED := User("staff", false, false, Some(0), None, None, 0, 0)

  /** Each way to break it, on two accounts that are sound: an admin, and a suspended colleague. */
  lemma UnguardedBreaks()
    ensures var users := map[1 := ONE_ADMIN, 2 := SUSPENDED];
            && Sound(users, 0)
            && !UserSound(Handled(users, SettingsUpdate(2, "", Some(true)), 0)[2], 0)
            && !UserSound(Handled(users, ResetAdmin(2), 0)[2], 0)
            && ActiveAdmins(Handled(users, SettingsUpdate(1, "staff", None), 0)) == {}
            && ActiveAdmins(Handled(users, SettingsUpdate(1, "", Some(false)), 0)) == {}
            && ActiveAdmins(Handled(users, SettingsDelete(1), 0)) == {}
  {
    var users := map[1 := ONE_ADMIN, 2 := SUSPENDED];
    assert 1 in ActiveAdmins(users);
  }

  // ── switched off, and what switches on ─────────────────────────────────────

  /** The requests that make an account active that is not. */
  predicate SwitchesOn(users: Users, r: Request, now: int) {
    match r
    case ReactivateUser(id) => Present(users, id)
    case Reinstate(id, code) => id in users && CodeTryable(users[id], now) && users[id].codeHash == Some(code)
    case SettingsUpdate(id, _, active) => Present(users, id) && active == Some(true)
    case ResetAdmin(_) => true
    case _ => false
  }

  /** Those that make one inactive. */
  predicate SwitchesOff(users: Users, r: Request) {
    match r
    case DeleteUser(caller, id) => Present(users, id) && !IsSelf(caller, id) && !LastAdmin(users, id)
    case DeactivateUser(caller, id) => Present(users, id) && !IsSelf(caller, id) && !LastAdmin(users, id)
    case SuspendUser(caller, id, reasonOk) => reasonOk && Present(users, id) && !IsSelf(caller, id) && !LastAdmin(users, id)
    case SettingsUpdate(id, _, active) => Present(users, id) && active == Some(false)
    case SettingsDelete(_) => true
    case _ => false
  }

  /** An account is active after a request exactly when it is switched on, or was and is not switched off. */
  lemma ActivityExact(users: Users, r: Request, now: int, id: int)
    requires id in users
    ensures Handled(users, r, now)[id].active <==>
            if r.id == id && SwitchesOn(users, r, now) then true
            else if r.id == id && SwitchesOff(users, r) then false
            else users[id].active
  {
    hide ActiveAdmins;
    if r.id != id {
      TouchesTarget(users, r, now);
    }
  }

  ghost predicate NoneSwitchesOn(users: Users, es: seq<Event>, id: int) {
    es != [] ==>
      && NoneSwitchesOn(users, es[..|es| - 1], id)
      && var e := es[|es| - 1];
         !(e.request.id == id && SwitchesOn(Run(users, es[..|es| - 1]), e.request, e.at))
  }

  /**
   An account switched off, by a deactivation or otherwise, stays off over every run until
   a reactivation, its own code, a settings change or an emergency reset switches it on.
   */
  lemma {:induction false} StaysOff(users: Users, es: seq<Event>, id: int)
    requires id in users && !users[id].active && NoneSwitchesOn(users, es, id)
    ensures id in Run(users, es) && !Run(users, es)[id].active
  {
    hide Handled, SwitchesOn;
    if es != [] {
      var before, last := es[..|es| - 1], es[|es| - 1];
      StaysOff(users, before, id);
      ActivityExact(Run(users, before), last.request, last.at, id);
      TouchesTarget(Run(users, before), last.request, last.at);
    }
  }

  // ── deletion, and what undoes it ───────────────────────────────────────────

  /** Whether an account is gone: deleted, and not active. */
  predicate Gone(users: Users, id: int) {
    id in users && users[id].deleted && !users[id].active
  }

  /** A gone account stays so through a request exactly when that is not the emergency reset. */
  lemma GoneStep(users: Users, r: Request, now: int, id: int)
    requires Gone(users, id)
    ensures Gone(Handled(users, r, now), id) <==> !(r.ResetAdmin? && r.id == id)
    ensures Handled(users, r, now)[id].role == users[id].role
  {
    hide ActiveAdmins;
    if Target(r) != id {
      TouchesTarget(users, r, now);
    }
  }

  /**
   Deletion is final: from the moment a delete goes through, whatever is requested of the
   account (reactivation, a code, a settings change) leaves it deleted and inactive, until
   an emergency reset names it.
   */
  lemma {:induction false} DeletionIsFinal(users: Users, es: seq<Event>, id: int)
    requires Gone(users, id) && forall e :: e in es ==> !(e.request.ResetAdmin? && e.request.id == id)
    ensures Gone(Run(users, es), id)
    ensures Run(users, es)[id].role == users[id].role
  {
    hide Handled, Gone;
    if es != [] {
      var before, last := es[..|es| - 1], es[|es| - 1];
      assert last in es;
      DeletionIsFinal(users, before, id);
      GoneStep(Run(users, before), last.request, last.at, id);
    }
  }

  /** Both delete handlers make an account gone, the settings page's always, the other behind its guard. */
  lemma DeletesMakeGone(users: Users, caller: Option<Caller>, id: int, now: int)
    requires id in users
    ensures Gone(Handled(users, SettingsDelete(id), now), id)
    ensures !users[id].deleted ==>
              (Gone(Handled(users, DeleteUser(caller, id), now), id) <==> !IsSelf(caller, id) && !LastAdmin(users, id))
  {
    hide ActiveAdmins;
  }

  /**
   The emergency reset undoes a deletion and nothing else: no admin is lost, a token it
   refused before is refused still, and a live code of a suspended account that was not
   deleted can be tried exactly as before.
   */
  lemma ResetUndoesDeletionOnly(users: Users, id: int, now: int, t: Token)
    requires id in users
    ensures var after := Handled(users, ResetAdmin(id), now);
            && Present(after, id) && after[id].active
            && ActiveAdmins(after) == ActiveAdmins(users) + (if users[id].role == ADMIN then {id} else {})
            && (PredatesInvalidation(after, t) <==> PredatesInvalidation(users, t))
            && (!users[id].deleted ==> (CodeTryable(after[id], now) <==> CodeTryable(users[id], now)))
            && (Gone(users, id) && users[id].suspendedAt == None ==>
                  Handled(after, SettingsDelete(id), now) == users)
  {
    var after := Handled(users, ResetAdmin(id), now);
    assert forall k :: k in users ==> (k in ActiveAdmins(after) <==> k in ActiveAdmins(users) || (k == id && users[id].role == ADMIN));
    if Gone(users, id) {
      assert users[id].(active := false, deleted := true) == users[id];
      assert after[id := users[id]] == users;
    }
  }

  // ── five comparisons a code ────────────────────────────────────────────────

  /** How often a code is put to the stored hash of an account: at each reinstatement request it can be tried by. */
  function Comparisons(users: Users, es: seq<Event>, id: int): nat {
    if es == [] then 0
    else
      var before, e := Run(users, es[..|es| - 1]), es[|es| - 1];
      Comparisons(users, es[..|es| - 1], id) +
      if e.request.Reinstate? && e.request.id == id && id in before && CodeTryable(before[id], e.at) then 1 else 0
  }

  /** How many more times the code held for an account can be compared. */
  function Budget(users: Users, id: int): nat {
    if id in users && users[id].codeHash.Some? && users[id].codeAttempts < REINSTATE_MAX_ATTEMPTS
    then REINSTATE_MAX_ATTEMPTS - users[id].codeAttempts
    else 0
  }

  lemma BudgetStep(users: Users, e: Event, id: int)
    requires !(e.request.IssueCode? && e.request.id == id)
    ensures var compared := e.request.Reinstate? && e.request.id == id && id in users && CodeTryable(users[id], e.at);
            Budget(Handled(users, e.request, e.at), id) + (if compared then 1 else 0) <= Budget(users, id)
  {
    hide ActiveAdmins;
    if id != Target(e.request) {
      TouchesTarget(users, e.request, e.at);
    }
  }

  /**
   A code is compared at most five times, over any run up to the issue of the next one,
   and at most as often as its budget allows from any point on.
   */
  lemma {:induction false} ComparedAtMostFiveTimes(users: Users, es: seq<Event>, id: int)
    requires forall e :: e in es ==> !(e.request.IssueCode? && e.request.id == id)
    ensures Comparisons(users, es, id) + Budget(Run(users, es), id) <= Budget(users, id) <= 5
  {
    hide Handled, CodeTryable;
    if es != [] {
      var before, last := es[..|es| - 1], es[|es| - 1];
      assert last in es;
      ComparedAtMostFiveTimes(users, before, id);
      BudgetStep(Run(users, before), last, id);
    }
  }

  /** Nothing is asked of an account but that wrong codes be tried on it. */
  ghost predicate OnlyWrongCodes(es: seq<Event>, id: int, code: string) {
    forall e :: e in es && e.request.id == id ==> e.request.Reinstate? && e.request.code != code
  }

  function TriesOf(es: seq<Event>, id: int): nat {
    if es == [] then 0
    else TriesOf(es[..|es| - 1], id) + if es[|es| - 1].request.id == id then 1 else 0
  }

  lemma {:induction false} ClockRises(start: int, es: seq<Event>)
    requires Clocked(start, es)
    ensures start <= Clock(start, es)
    ensures es != [] ==> Clock(start, es[..|es| - 1]) <= Clock(start, es)
  {
    if es != [] {
      ClockRises(start, es[..|es| - 1]);
    }
  }

  /** While a code lives, each wrong one tried costs an attempt, until five are gone. */
  lemma {:induction false} WrongCodesCount(users: Users, start: int, es: seq<Event>, id: int, code: string)
    requires Clocked(start, es) && OnlyWrongCodes(es, id, code) && TriesOf(es, id) <= 5
    requires id in users && CodeTryable(users[id], start) && users[id].codeHash == Some(code) && users[id].codeAttempts == 0
    requires Clock(start, es) <= users[id].codeExpires.value
    ensures id in Run(users, es)
    ensures Run(users, es)[id] == users[id].(codeAttempts := TriesOf(es, id))
  {
    hide Handled, OnlyWrongCodes, Clocked;
    if es != [] {
      var before, last := es[..|es| - 1], es[|es| - 1];
      RunBefore(start, es, id, code);
      WrongCodesCount(users, start, before, id, code);
      WrongCodeStep(users, Run(users, before), last, id, code, TriesOf(before, id));
      ClockRises(start, es);
    }
  }

  lemma RunBefore(start: int, es: seq<Event>, id: int, code: string)
    requires Clocked(start, es) && OnlyWrongCodes(es, id, code) && es != []
    ensures var before, last := es[..|es| - 1], es[|es| - 1];
            && Clocked(start, before) && OnlyWrongCodes(before, id, code)
            && Clock(start, before) <= last.at == Clock(start, es)
            && (last.request.id == id ==> last.request.Reinstate? && last.request.code != code)
  {
    assert es[|es| - 1] in es;
    assert forall e :: e in es[..|es| - 1] ==> e in es;
  }

  lemma WrongCodeStep(users: Users, now: Users, e: Event, id: int, code: string, tries: nat)
    requires id in users && id in now && now[id] == users[id].(codeAttempts := tries)
    requires !users[id].deleted && users[id].suspendedAt.Some? && users[id].codeHash == Some(code)
    requires users[id].codeExpires.Some? && e.at <= users[id].codeExpires.value
    requires e.request.id == id ==> e.request.Reinstate? && e.request.code != code && tries < 5
    ensures id in Handled(now, e.request, e.at)
    ensures Handled(now, e.request, e.at)[id] ==
            users[id].(codeAttempts := tries + if e.request.id == id then 1 else 0)
  {
    hide ActiveAdmins;
    if e.request.id != id {
      TouchesTarget(now, e.request, e.at);
    }
  }

  /**
   The code round trip: issued to a suspended account, a code brought within thirty minutes
   reinstates it exactly when fewer than five wrong ones were tried in between, whatever else
   was asked of other accounts.
   */
  lemma CodeRoundTrip(users: Users, id: int, digits: nat, code: string, issued: int, es: seq<Event>, at: int)
    requires digits in {0, 4, 6} && Present(users, id) && users[id].suspendedAt.Some?
    requires Clocked(issued, es) && OnlyWrongCodes(es, id, code) && TriesOf(es, id) <= 5
    requires Clock(issued, es) <= at <= issued + 30 * 60 * SECOND
    ensures var before := Run(Handled(users, IssueCode(id, digits, code), issued), es);
            var after := Handled(before, Reinstate(id, code), at);
            && id in after
            && (after[id].active && after[id].suspendedAt == None <==> TriesOf(es, id) < 5)
  {
    hide ActiveAdmins, Run, OnlyWrongCodes, Clocked, TriesOf;
    var start := Handled(users, IssueCode(id, digits, code), issued);
    WrongCodesCount(start, issued, es, id, code);
  }

  // ── sessions ───────────────────────────────────────────────────────────────

  /** An access token: whose it is, when it was minted, when it expires. */
  datatype Token = Token(userId: int, mintedAt: int, jti: string, expiresAt: int)

  /** The issue time the token carries: the mint time cut to the second. */
  function IssuedAt(t: Token): int {
    t.mintedAt - t.mintedAt % SECOND
  }

  /** tokenPredatesInvalidation, with its one second of grace. */
  predicate PredatesInvalidation(users: Users, t: Token) {
    t.userId in users && IssuedAt(t) < users[t.userId].tokensValidFrom - SECOND
  }

  datatype Decision = Expired | Revoked | SessionEnded | CsrfInvalid | ReadOnly | Admitted

  /** The checks of AuthMiddleware, in order. */
  function Admit(users: Users, denylist: set<string>, t: Token, now: int, csrfOk: bool, writeBlocked: bool): Decision {
    if now >= t.expiresAt then Expired
    else if t.jti != "" && t.jti in denylist then Revoked
    else if PredatesInvalidation(users, t) then SessionEnded
    else if !csrfOk then CsrfInvalid
    else if writeBlocked then ReadOnly
    else Admitted
  }

  /** The requests that end the sessions an account has open. */
  predicate EndsSessions(users: Users, r: Request) {
    match r
    case UpdateUser(caller, id, rejected, role, password) =>
      password && !rejected && !(role.Some? && RoleChangeRefused(users, caller, id, role.value))
    case DeactivateUser(caller, id) => Present(users, id) && !IsSelf(caller, id) && !LastAdmin(users, id)
    case SuspendUser(caller, id, reasonOk) => reasonOk && Present(users, id) && !IsSelf(caller, id) && !LastAdmin(users, id)
    case EndSessions(_) => true
    case _ => false
  }

  /**
   Exactly those requests move a watermark, and only the target's: a token of theirs is
   refused afterwards if it was issued over a second before, and any other as it was. In
   particular neither delete handler ends a session, nor a change of role.
   */
  lemma SessionsEndExactly(users: Users, r: Request, now: int, t: Token)
    requires t.userId in users
    ensures PredatesInvalidation(Handled(users, r, now), t) <==>
            if EndsSessions(users, r) && Target(r) == t.userId then IssuedAt(t) < now - SECOND
            else PredatesInvalidation(users, t)
  {
    hide ActiveAdmins;
    if Target(r) != t.userId {
      TouchesTarget(users, r, now);
    }
  }

  /** A request is let through exactly under all five conditions. */
  lemma AdmitExact(users: Users, denylist: set<string>, t: Token, now: int, csrfOk: bool, writeBlocked: bool)
    ensures Admit(users, denylist, t, now, csrfOk, writeBlocked) == Admitted <==>
            && now < t.expiresAt
            && (t.jti == "" || t.jti !in denylist)
            && (t.userId in users ==> t.mintedAt - t.mintedAt % SECOND >= users[t.userId].tokensValidFrom - SECOND)
            && csrfOk && !writeBlocked
  {
  }

  lemma WatermarkStep(users: Users, r: Request, now: int, later: int, id: int)
    requires now <= later && id in users && users[id].tokensValidFrom <= now
    ensures id in Handled(users, r, later)
    ensures users[id].tokensValidFrom <= Handled(users, r, later)[id].tokensValidFrom <= later
  {
    hide ActiveAdmins;
    TouchesTarget(users, r, later);
  }

  /** The watermark never goes back. */
  lemma {:induction false} WatermarkRises(users: Users, start: int, es: seq<Event>, id: int)
    requires Clocked(start, es) && id in users && users[id].tokensValidFrom <= start
    ensures id in Run(users, es)
    ensures users[id].tokensValidFrom <= Run(users, es)[id].tokensValidFrom <= Clock(start, es)
  {
    hide Handled;
    if es != [] {
      var before, last := es[..|es| - 1], es[|es| - 1];
      WatermarkRises(users, start, before, id);
      WatermarkStep(Run(users, before), last.request, Clock(start, before), last.at, id);
    }
  }

  /**
   Suspension kills old sessions for ever: a token minted more than one second before it is
   refused on every later request, whatever has happened since, reinstatement included.
   */
  lemma SuspensionEndsSessions(users: Users, e: Event, es: seq<Event>, t: Token,
                               denylist: set<string>, now: int, csrfOk: bool, writeBlocked: bool)
    requires e.request.SuspendUser? && e.request.id == t.userId && e.request.reasonOk
    requires Present(users, t.userId) && !IsSelf(e.request.caller, t.userId) && !LastAdmin(users, t.userId)
    requires Clocked(e.at, es)
    requires t.mintedAt < e.at - SECOND
    ensures var after := Run(Handled(users, e.request, e.at), es);
            PredatesInvalidation(after, t) && Admit(after, denylist, t, now, csrfOk, writeBlocked) in {Expired, Revoked, SessionEnded}
  {
    hide ActiveAdmins, Run, Clock;
    WatermarkRises(Handled(users, e.request, e.at), e.at, es, t.userId);
  }

  /** And no new ones: a token minted at or after the watermark is never refused on its account. */
  lemma NewSessionsSurvive(users: Users, t: Token)
    requires t.userId in users && t.mintedAt >= users[t.userId].tokensValidFrom
    ensures !PredatesInvalidation(users, t)
  {
    assert IssuedAt(t) > t.mintedAt - SECOND;
  }

  /** Exactly which tokens the watermark refuses: those minted before the second that its grace starts in has passed. */
  lemma WatermarkExact(users: Users, t: Token)
    requires t.userId in users
    ensures var grace := users[t.userId].tokensValidFrom - SECOND;
            var boundary := grace - grace % SECOND + if grace % SECOND == 0 then 0 else SECOND;
            PredatesInvalidation(users, t) <==> t.mintedAt < boundary
  {
    var grace := users[t.userId].tokensValidFrom - SECOND;
    var q, m := t.mintedAt / SECOND, grace / SECOND;
    assert IssuedAt(t) == q * SECOND && grace - grace % SECOND == m * SECOND;
  }
}
