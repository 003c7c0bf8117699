/** Permissions of accounts, and what the holders of `users.manage` may do to other accounts. */
module Accounts {
  import opened Wrappers

  datatype Perm =
    | InstancesView | InstancesControl | InstancesCreate | InstancesDelete | ConfigRead | ConfigWrite
    | LogsView | PortsView | PortsManage | FirewallView | FirewallManage | UpdatesView | UpdatesInstall
    | UpdatesPanel | WebhooksView | WebhooksManage | SettingsManage | UsersManage

  const ALL: set<Perm> := set p: Perm | true

  /** May the permission be limited to some instances? */
  predicate Scoped(p: Perm) {
    p in {InstancesView, InstancesControl, InstancesDelete, ConfigRead, ConfigWrite, LogsView}
  }

  /** Granting a permission grants these too. */
  function Implies(p: Perm): seq<Perm> {
    match p
    case InstancesControl => [InstancesView]
    case InstancesDelete => [InstancesView]
    case InstancesCreate => [InstancesView]
    case ConfigRead => [InstancesView]
    case ConfigWrite => [ConfigRead]
    case LogsView => [InstancesView]
    case PortsView => [InstancesView]
    case PortsManage => [PortsView]
    case FirewallView => [InstancesView]
    case FirewallManage => [FirewallView]
    case UpdatesInstall => [UpdatesView]
    case UpdatesPanel => [UpdatesView]
    case WebhooksManage => [WebhooksView]
    case _ => []
  }

  /** A permission as written in an account: `*`, a known name, or some other text. */
  datatype Token = Star | Known(perm: Perm) | Unknown(text: string)

  // ---- Closure of a list of permissions ----

  ghost predicate Closed(s: set<Perm>) {
    forall p, q :: p in s && q in Implies(p) ==> q in s
  }

  ghost predicate HoldsAll(s: set<Perm>, tokens: seq<Token>) {
    && (forall t :: t in tokens && t.Known? ==> t.perm in s)
    && (Star in tokens ==> s == ALL)
  }

  /** The least closed set that holds the listed permissions. */
  ghost predicate IsExpansion(s: set<Perm>, tokens: seq<Token>) {
    && Closed(s) && HoldsAll(s, tokens)
    && forall t :: Closed(t) && HoldsAll(t, tokens) ==> s <= t
  }

  function Listed(tokens: seq<Token>): set<Perm> {
    if Star in tokens then ALL else set t | t in tokens && t.Known? :: t.perm
  }

  function Below(s: set<Perm>): set<Perm> {
    s + (set p, q | p in s && q in Implies(p) :: q)
  }

  /** No chain of implications is longer than two. */
  function Expansion(tokens: seq<Token>): set<Perm> {
    Below(Below(Listed(tokens)))
  }

  lemma TwoStepsClose(s: set<Perm>)
    ensures Closed(Below(Below(s))) && s <= Below(Below(s))
  {
  }

  lemma BelowStays(s: set<Perm>, t: set<Perm>)
    requires Closed(t) && s <= t
    ensures Below(s) <= t
  {
  }

  lemma ExpansionIsLeast(tokens: seq<Token>)
    ensures IsExpansion(Expansion(tokens), tokens)
  {
    var s := Listed(tokens);
    TwoStepsClose(s);
    assert Star in tokens ==> Below(Below(s)) == ALL;
    forall t | Closed(t) && HoldsAll(t, tokens) ensures Expansion(tokens) <= t {
      BelowStays(s, t);
      BelowStays(Below(s), t);
    }
  }

  lemma ExpansionsAgree(s: set<Perm>, tokens: seq<Token>)
    requires IsExpansion(s, tokens)
    ensures s == Expansion(tokens)
  {
    ExpansionIsLeast(tokens);
  }

  /** The worklist of the program, taken from its end. */
  method ExpandPermissions(tokens: seq<Token>) returns (out: set<Perm>)
    ensures out == Expansion(tokens)
  {
    out := {};
    var todo := tokens;
    while todo != []
      invariant forall t :: t in tokens ==> t in todo || (t.Known? && t.perm in out) || t.Unknown? || (t.Star? && out == ALL)
      invariant forall p, q :: p in out && q in Implies(p) ==> q in out || Known(q) in todo
      invariant forall s :: Closed(s) && HoldsAll(s, tokens) ==> out <= s && HoldsAll(s, todo)
      decreases ALL - out, |todo|
    {
      var t := todo[|todo| - 1];
      assert todo == todo[..|todo| - 1] + [t];
      todo := todo[..|todo| - 1];
      if t.Star? {
        out := out + ALL;
      } else if t.Known? && t.perm !in out {
        ghost var before := todo;
        out := out + {t.perm};
        var more := seq(|Implies(t.perm)|, i requires 0 <= i < |Implies(t.perm)| => Known(Implies(t.perm)[i]));
        todo := todo + more;
        forall q | q in Implies(t.perm) ensures Known(q) in todo {
          var i :| 0 <= i < |Implies(t.perm)| && Implies(t.perm)[i] == q;
          assert more[i] == Known(q);
        }
        forall s | Closed(s) && HoldsAll(s, tokens) ensures HoldsAll(s, todo) {
          assert HoldsAll(s, before + [t]);
          forall x | x in todo ensures x.Known? && x in more ==> x.perm in s {
            if x in more {
              var i :| 0 <= i < |more| && more[i] == x;
              assert Implies(t.perm)[i] in Implies(t.perm);
            }
          }
        }
      }
    }
    assert IsExpansion(out, tokens);
    ExpansionsAgree(out, tokens);
  }

  // ---- Accounts ----

  datatype Role = Admin | Operator | Viewer | Custom | OtherRole(text: string)

  /** All instances, a list of them, or something unreadable (no instance). */
  datatype Instances = Everywhere | Only(ids: seq<string>) | Unreadable

  datatype User = User(role: Role, permissions: seq<Token>, instances: Instances, enabled: bool)

  function RolePermissions(r: Role): Option<seq<Token>> {
    match r
    case Admin => Some([Star])
    case Operator => Some([Known(InstancesControl), Known(ConfigWrite), Known(LogsView), Known(PortsManage),
                           Known(FirewallView), Known(UpdatesView), Known(WebhooksView)])
    case Viewer => Some([Known(InstancesView), Known(LogsView), Known(PortsView), Known(FirewallView), Known(UpdatesView)])
    case _ => None
  }

  /** No limit for an administrator, whatever the account says. */
  function UserInstances(u: User): Option<set<string>> {
    if u.role.Admin? || u.instances.Everywhere? then None
    else Some(if u.instances.Only? then set i | i in u.instances.ids else {})
  }

  function UserPermissions(u: User): set<Perm> {
    if u.role.Admin? then Expansion([Star])
    else
      var tokens := match RolePermissions(u.role) case Some(ts) => ts case None => u.permissions;
      var granted := Expansion(tokens);
      if UserInstances(u).Some? then set p | p in granted && Scoped(p) else granted
  }

  predicate IsFullAdmin(u: User) {
    UserInstances(u).None? && |UserPermissions(u)| == |ALL|
  }

  lemma SubsetOfAll(s: set<Perm>)
    ensures s <= ALL && (|s| == |ALL| <==> s == ALL)
  {
    assert s <= ALL;
    if s != ALL {
      assert s + (ALL - s) == ALL;
      assert exists p :: p in ALL - s by {
        assert (forall p :: p !in ALL - s) ==> ALL <= s;
      }
    }
  }

  /** An account has every permission exactly when it is a full administrator. */
  lemma FullAdminMeansAll(u: User)
    ensures IsFullAdmin(u) <==> UserPermissions(u) == ALL
  {
    SubsetOfAll(UserPermissions(u));
    assert UsersManage in ALL && !Scoped(UsersManage);
  }

  // ---- What a request asks for ----

  /** A field of the request: absent, of the wrong type, or readable. */
  datatype Field<T> = Absent | WrongType | Given(value: T)

  datatype Request = Request(
    role: Field<Role>,
    // Elements that are not texts are read as `Unknown`.
    permissions: Field<seq<Token>>,
    instances: Field<Instances>,
    enabled: Option<bool>)

  datatype Fields = Fields(role: Role, permissions: seq<Token>, instances: Instances)

  predicate IdChar(c: char) {
    'A' <= c <= 'Z' || 'a' <= c <= 'z' || '0' <= c <= '9' || c in "_.@-"
  }

  predicate PlainId(s: string) {
    && 1 <= |s| <= 128
    && s[0] !in "_.@-"
    && forall i :: 0 <= i < |s| ==> IdChar(s[i])
  }

  predicate ValidInstanceId(s: string) {
    PlainId(s) || ("docker_" <= s && PlainId(s[7..]))
  }

  predicate KnownRole(r: Role) {
    !r.OtherRole?
  }

  /** Each element once. */
  function Distinct<T(==,!new)>(s: seq<T>): (r: seq<T>)
    ensures forall x :: x in r <==> x in s
    ensures forall i, j :: 0 <= i < j < |r| ==> r[i] != r[j]
  {
    if s == [] then []
    else
      var before, last := s[..|s| - 1], s[|s| - 1];
      assert s == before + [last];
      Distinct(before) + if last in before then [] else [last]
  }

  /** The request completed by the account it changes (None: a new account). */
  function ParseFields(raw: Request, base: Option<User>): Option<Fields> {
    var role := match raw.role
      case Given(r) => r
      case WrongType => OtherRole("")
      case Absent => if base.Some? then base.value.role else Viewer;
    var perms := match raw.permissions
      case Given(ts) => ts
      case _ => if base.Some? then base.value.permissions else [];
    var ins := match raw.instances
      case Given(i) => i
      case WrongType => Unreadable
      case Absent => if base.Some? then base.value.instances else Everywhere;
    if !KnownRole(role) || raw.permissions.WrongType? then None
    else if exists t :: t in perms && !t.Known? then None
    else if ins.Unreadable? then None
    else if ins.Only? && (|ins.ids| > 200 || exists i :: i in ins.ids && !ValidInstanceId(i)) then None
    else Some(Fields(role,
                     if role.Custom? then Distinct(perms) else [],
                     if role.Admin? || ins.Everywhere? then Everywhere else Only(Distinct(ins.ids))))
  }

  /** A form is refused exactly when a field has the wrong type or, after what is not given was completed, the
      role is not a known one, a permission is not, the instances are unreadable or more than 200, or one
      of them is not a valid id. */
  ghost predicate Refused(raw: Request, base: Option<User>) {
    || raw.role.WrongType? || raw.permissions.WrongType? || raw.instances.WrongType?
    || (raw.role.Given? && raw.role.value.OtherRole?)
    || (raw.role.Absent? && base.Some? && base.value.role.OtherRole?)
    || (raw.permissions.Given? && exists t :: t in raw.permissions.value && !t.Known?)
    || (raw.permissions.Absent? && base.Some? && exists t :: t in base.value.permissions && !t.Known?)
    || (raw.instances.Given? && BadInstances(raw.instances.value))
    || (raw.instances.Absent? && base.Some? && BadInstances(base.value.instances))
  }

  ghost predicate BadInstances(ins: Instances) {
    || ins.Unreadable?
    || (ins.Only? && (|ins.ids| > 200 || exists i :: i in ins.ids && !ValidInstanceId(i)))
  }

  ghost predicate SameOnce<T(!new)>(kept: seq<T>, asked: seq<T>) {
    && (forall x :: x in kept <==> x in asked)
    && forall i, j :: 0 <= i < j < |kept| ==> kept[i] != kept[j]
  }

  /** The record holds what was asked for, and for what was not, what the account had (a new one: a viewer of
      all instances). Only a custom role keeps its list of permissions, and an administrator is not
      limited to instances. Lists are kept without repetitions. */
  ghost predicate Holds(f: Fields, raw: Request, base: Option<User>) {
    && f.role == (if raw.role.Given? then raw.role.value else if base.Some? then base.value.role else Viewer)
    && (!f.role.Custom? ==> f.permissions == [])
    && (f.role.Custom? && raw.permissions.Given? ==> SameOnce(f.permissions, raw.permissions.value))
    && (f.role.Custom? && !raw.permissions.Given? ==> SameOnce(f.permissions, if base.Some? then base.value.permissions else []))
    && (f.role.Admin? ==> f.instances == Everywhere)
    && (!f.role.Admin? && raw.instances.Given? ==> SameInstances(f.instances, raw.instances.value))
    && (!f.role.Admin? && !raw.instances.Given? ==> SameInstances(f.instances, if base.Some? then base.value.instances else Everywhere))
  }

  ghost predicate SameInstances(kept: Instances, asked: Instances) {
    && (kept.Everywhere? <==> asked.Everywhere?)
    && (asked.Only? ==> kept.Only? && SameOnce(kept.ids, asked.ids))
  }

  /** The reading of a form by what it refuses and what it keeps. */
  lemma FormMeans(raw: Request, base: Option<User>)
    ensures ParseFields(raw, base).None? <==> Refused(raw, base)
    ensures ParseFields(raw, base).Some? ==> Holds(ParseFields(raw, base).value, raw, base)
  {
    hide ValidInstanceId;
  }

  method DistinctList<T(==,!new)>(s: seq<T>) returns (r: seq<T>)
    ensures r == Distinct(s)
  {
    r := [];
    for i := 0 to |s|
      invariant r == Distinct(s[..i])
    {
      assert s[..i + 1][..i] == s[..i];
      if s[i] !in r {
        r := r + [s[i]];
      }
    }
    assert s[..|s|] == s;
  }

  /** Role, permissions and instances asked for, or a refusal. */
  method ParseAccountFields(raw: Request, base: Option<User>) returns (fields: Option<Fields>)
    ensures fields == ParseFields(raw, base)
  {
    var role := if base.Some? then base.value.role else Viewer;
    match raw.role {
      case Given(r) => role := r;
      case WrongType => return None;
      case Absent =>
    }
    if !KnownRole(role) {
      return None;
    }
    var perms := if base.Some? then base.value.permissions else [];
    match raw.permissions {
      case Given(ts) => perms := ts;
      case WrongType =>
        return None;
      case Absent =>
    }
    for i := 0 to |perms|
      invariant forall k :: 0 <= k < i ==> perms[k].Known?
    {
      if !perms[i].Known? {
        return None;
      }
    }
    var ins := if base.Some? then base.value.instances else Everywhere;
    match raw.instances {
      case Given(i) => ins := i;
      case WrongType => return None;
      case Absent =>
    }
    if ins.Unreadable? {
      return None;
    }
    if ins.Only? {
      if |ins.ids| > 200 {
        return None;
      }
      for i := 0 to |ins.ids|
        invariant forall k :: 0 <= k < i ==> ValidInstanceId(ins.ids[k])
      {
        if !ValidInstanceId(ins.ids[i]) {
          return None;
        }
      }
      var ids := DistinctList(ins.ids);
      ins := Only(ids);
    }
    if role.Admin? {
      ins := Everywhere;
    }
    var kept: seq<Token> := [];
    if role.Custom? {
      kept := DistinctList(perms);
    }
    fields := Some(Fields(role, kept, ins));
  }

  function UserOf(f: Fields, enabled: bool): User {
    User(f.role, f.permissions, f.instances, enabled)
  }

  /** May the actor give these rights, and touch this account? */
  predicate MayGrant(actor: User, fields: User, target: Option<User>) {
    || IsFullAdmin(actor)
    || (&& UserPermissions(fields) <= UserPermissions(actor)
        && (target.Some? ==> UserPermissions(target.value) <= UserPermissions(actor)))
  }

  // ---- The account store ----

  const OWNER := "owner"
  const USERS_MAX := 100

  predicate HexDigit(c: char) {
    '0' <= c <= '9' || 'a' <= c <= 'f'
  }

  predicate ValidUid(s: string) {
    |s| == 12 && forall i :: 0 <= i < |s| ==> HexDigit(s[i])
  }

  type Users = map<string, User>

  /** `profile`: the checks on name, password and e-mail succeed. `uid` of a creation: drawn at random. */
  datatype Action =
    | Create(raw: Request, uid: string, profile: bool)
    | Update(uid: string, raw: Request, profile: bool)
    | Delete(uid: string)

  /** A logged-in account that may manage accounts. */
  predicate MayManage(users: Users, actor: string) {
    actor in users && users[actor].enabled && UsersManage in UserPermissions(users[actor])
  }

  function ManagedTarget(users: Users, actor: string, uid: string): Option<User> {
    if uid == OWNER || !ValidUid(uid) || uid !in users || uid == actor then None else Some(users[uid])
  }

  /** The accounts after the action; refused actions change nothing. */
  function Perform(users: Users, actor: string, a: Action): Option<Users> {
    if !MayManage(users, actor) then None
    else
      match a
      case Create(raw, uid, profile) =>
        var f := ParseFields(raw, None);
        if f.None? || !profile || |users| >= USERS_MAX then None
        else
          var rec := UserOf(f.value, raw.enabled.None? || raw.enabled.value);
          if MayGrant(users[actor], rec, None) then Some(users[uid := rec]) else None
      case Update(uid, raw, profile) =>
        var target := ManagedTarget(users, actor, uid);
        if target.None? then None
        else
          var f := ParseFields(raw, target);
          if f.None? || !profile then None
          else
            var rec := UserOf(f.value, if raw.enabled.Some? then raw.enabled.value else target.value.enabled);
            if MayGrant(users[actor], rec, target) then Some(users[uid := rec]) else None
      case Delete(uid) =>
        var target := ManagedTarget(users, actor, uid);
        if target.Some? && MayGrant(users[actor], target.value, target) then Some(users - {uid}) else None
  }

  /** The rights of an action: those of a full administrator, or enough to give what is given and to touch
      the account as it was. */
  ghost predicate Entitled(actor: User, given: User, target: Option<User>) {
    || (UserInstances(actor).None? && UserPermissions(actor) == ALL)
    || (&& (forall p :: p in UserPermissions(given) ==> p in UserPermissions(actor))
        && (target.Some? ==> forall p :: p in UserPermissions(target.value) ==> p in UserPermissions(actor)))
  }

  /** An account that the actor may touch: not the owner, not his own, one that exists under a proper id. */
  ghost predicate Reachable(users: Users, actor: string, uid: string) {
    uid != OWNER && uid != actor && ValidUid(uid) && uid in users
  }

  lemma EntitledMeansMayGrant(actor: User, given: User, target: Option<User>)
    ensures MayGrant(actor, given, target) <==> Entitled(actor, given, target)
  {
    hide UserPermissions;
    FullAdminMeansAll(actor);
    SubsetOfAll(UserPermissions(actor));
  }

  /** A new account is accepted exactly when the form is, the profile is fit, there is room and the actor is
      entitled, and then it is stored as asked, beside the others. */
  lemma CreationMeans(users: Users, actor: string, raw: Request, uid: string, profile: bool)
    requires MayManage(users, actor)
    ensures var r := Perform(users, actor, Create(raw, uid, profile));
            && (r.Some? ==> exists rec: User ::
                  && r.value == users[uid := rec] && Holds(Fields(rec.role, rec.permissions, rec.instances), raw, None)
                  && (rec.enabled <==> raw.enabled != Some(false))
                  && !Refused(raw, None) && profile && |users| < 100 && Entitled(users[actor], rec, None))
            && (r.None? ==> Refused(raw, None) || !profile || |users| >= 100
                            || exists rec: User :: Holds(Fields(rec.role, rec.permissions, rec.instances), raw, None)
                                             && !Entitled(users[actor], rec, None))
  {
    hide ParseFields, UserPermissions, Holds, Refused, MayGrant, Entitled;
    FormMeans(raw, None);
    var f := ParseFields(raw, None);
    if f.Some? {
      var rec := UserOf(f.value, raw.enabled.None? || raw.enabled.value);
      assert Fields(rec.role, rec.permissions, rec.instances) == f.value;
      EntitledMeansMayGrant(users[actor], rec, None);
    }
  }

  /** An account is changed exactly when it may be touched, the form and the profile are accepted and the actor
      is entitled to what it was and to what it becomes; it is then as asked, and the others are as
      they were. */
  lemma UpdateMeans(users: Users, actor: string, uid: string, raw: Request, profile: bool)
    requires MayManage(users, actor)
    ensures var r := Perform(users, actor, Update(uid, raw, profile));
            && (r.Some? ==> Reachable(users, actor, uid) && exists rec: User ::
                  && r.value == users[uid := rec]
                  && Holds(Fields(rec.role, rec.permissions, rec.instances), raw, Some(users[uid]))
                  && rec.enabled == (if raw.enabled.Some? then raw.enabled.value else users[uid].enabled)
                  && !Refused(raw, Some(users[uid])) && profile && Entitled(users[actor], rec, Some(users[uid])))
            && (r.None? ==> !Reachable(users, actor, uid) || Refused(raw, Some(users[uid])) || !profile
                            || exists rec: User :: Holds(Fields(rec.role, rec.permissions, rec.instances), raw, Some(users[uid]))
                                             && !Entitled(users[actor], rec, Some(users[uid])))
  {
    hide ParseFields, UserPermissions, Holds, Refused, MayGrant, Entitled, ValidUid;
    if Reachable(users, actor, uid) {
      var target := Some(users[uid]);
      FormMeans(raw, target);
      var f := ParseFields(raw, target);
      if f.Some? {
        var rec := UserOf(f.value, if raw.enabled.Some? then raw.enabled.value else target.value.enabled);
        assert Fields(rec.role, rec.permissions, rec.instances) == f.value;
        EntitledMeansMayGrant(users[actor], rec, target);
      }
    }
  }

  /** An account is removed exactly when it may be touched by an actor entitled to it, and it alone. */
  lemma DeletionMeans(users: Users, actor: string, uid: string)
    requires MayManage(users, actor)
    ensures Perform(users, actor, Delete(uid))
         == if Reachable(users, actor, uid) && Entitled(users[actor], users[uid], None) then Some(users - {uid}) else None
  {
    hide UserPermissions, MayGrant, Entitled, ValidUid;
    if Reachable(users, actor, uid) {
      var target := users[uid];
      EntitledMeansMayGrant(users[actor], target, Some(target));
      EntitledTwice(users[actor], target);
    }
  }

  lemma EntitledTwice(actor: User, target: User)
    ensures Entitled(actor, target, Some(target)) <==> Entitled(actor, target, None)
  {
    hide UserPermissions;
  }

  class AccountStore {
    var users: Users

    constructor (users: Users)
      ensures this.users == users
    {
      this.users := users;
    }

    method ManagedTargetOf(actor: string, uid: string) returns (target: Option<User>)
      ensures target == ManagedTarget(users, actor, uid)
    {
      if uid == OWNER {
        return None;
      }
      if !ValidUid(uid) || uid !in users {
        return None;
      }
      if uid == actor {
        return None;
      }
      return Some(users[uid]);
    }

    method CreateAccount(actor: string, raw: Request, uid: string, profile: bool) returns (ok: bool)
      requires MayManage(users, actor)
      modifies this
      ensures ok <==> Perform(old(users), actor, Create(raw, uid, profile)).Some?
      ensures users == if ok then Perform(old(users), actor, Create(raw, uid, profile)).value else old(users)
    {
      var fields := ParseAccountFields(raw, None);
      if fields.None? {
        return false;
      }
      var rec := UserOf(fields.value, raw.enabled.None? || raw.enabled.value);
      if !MayGrant(users[actor], rec, None) {
        return false;
      }
      if !profile || |users| >= USERS_MAX {
        return false;
      }
      users := users[uid := rec];
      return true;
    }

    method UpdateAccount(actor: string, uid: string, raw: Request, profile: bool) returns (ok: bool)
      requires MayManage(users, actor)
      modifies this
      ensures ok <==> Perform(old(users), actor, Update(uid, raw, profile)).Some?
      ensures users == if ok then Perform(old(users), actor, Update(uid, raw, profile)).value else old(users)
    {
      var target := ManagedTargetOf(actor, uid);
      if target.None? {
        return false;
      }
      var fields := ParseAccountFields(raw, target);
      if fields.None? {
        return false;
      }
      var rec := UserOf(fields.value, target.value.enabled);
      if !MayGrant(users[actor], rec, target) {
        return false;
      }
      if raw.enabled.Some? {
        rec := rec.(enabled := raw.enabled.value);
      }
      if !profile {
        return false;
      }
      users := users[uid := rec];
      return true;
    }

    method DeleteAccount(actor: string, uid: string) returns (ok: bool)
      requires MayManage(users, actor)
      modifies this
      ensures ok <==> Perform(old(users), actor, Delete(uid)).Some?
      ensures users == if ok then Perform(old(users), actor, Delete(uid)).value else old(users)
    {
      hide UserPermissions, IsFullAdmin, MayGrant;
      var target := ManagedTargetOf(actor, uid);
      if target.None? {
        return false;
      }
      if !MayGrant(users[actor], target.value, target) {
        return false;
      }
      users := users - {uid};
      return true;
    }
  }

  // ---- Delegation over whole runs ----

  datatype Act = Act(actor: string, action: Action)

  function Next(users: Users, a: Act): Users {
    match Perform(users, a.actor, a.action)
    case Some(u) => u
    case None => users
  }

  function RunFrom(users: Users, run: seq<Act>): Users
    decreases run
  {
    if run == [] then users else RunFrom(Next(users, run[0]), run[1..])
  }

  /** The accounts in the group's hands: its members, and those they created or changed. */
  function Reached(users: Users, group: set<string>, a: Act): set<string> {
    if Perform(users, a.actor, a.action).Some? && !a.action.Delete? then group + {a.action.uid} else group
  }

  function GroupAfter(users: Users, group: set<string>, run: seq<Act>): set<string>
    decreases run
  {
    if run == [] then group else GroupAfter(Next(users, run[0]), Reached(users, group, run[0]), run[1..])
  }

  /** Every action of the run is done by an account in the group's hands at that moment. */
  ghost predicate WithinGroup(users: Users, group: set<string>, run: seq<Act>)
    decreases run
  {
    run == [] || (run[0].actor in group
                  && WithinGroup(Next(users, run[0]), Reached(users, group, run[0]), run[1..]))
  }

  ghost predicate NoFullAdmin(users: Users, group: set<string>) {
    forall u :: u in group && u in users ==> !IsFullAdmin(users[u])
  }

  /** Each account in hand has at most the rights of one initial member. */
  ghost predicate Bounded(start: Users, members: set<string>, users: Users, group: set<string>) {
    forall u :: u in group && u in users ==>
      exists m :: m in members && m in start && UserPermissions(users[u]) <= UserPermissions(start[m])
  }

  ghost predicate OthersUntouched(start: Users, users: Users, group: set<string>) {
    forall u :: u in users && u !in group ==> u in start && users[u] == start[u]
  }

  lemma GrantBounded(actor: User, fields: User, target: Option<User>)
    requires !IsFullAdmin(actor) && MayGrant(actor, fields, target)
    ensures UserPermissions(fields) <= UserPermissions(actor)
    ensures !IsFullAdmin(fields)
  {
    FullAdminMeansAll(actor);
    FullAdminMeansAll(fields);
    SubsetOfAll(UserPermissions(actor));
  }

  lemma StepKeepsBound(start: Users, members: set<string>, users: Users, group: set<string>, a: Act)
    requires a.actor in group
    requires NoFullAdmin(users, group) && Bounded(start, members, users, group) && OthersUntouched(start, users, group)
    ensures var next, reached := Next(users, a), Reached(users, group, a);
            NoFullAdmin(next, reached) && Bounded(start, members, next, reached) && OthersUntouched(start, next, reached)
  {
    var r := Perform(users, a.actor, a.action);
    if r.Some? && !a.action.Delete? {
      var uid := a.action.uid;
      var rec := r.value[uid];
      var target := if a.action.Update? then ManagedTarget(users, a.actor, uid) else None;
      assert MayGrant(users[a.actor], rec, target);
      GrantBounded(users[a.actor], rec, target);
      var m :| m in members && m in start && UserPermissions(users[a.actor]) <= UserPermissions(start[m]);
      assert UserPermissions(rec) <= UserPermissions(start[m]);
    }
  }

  lemma {:induction false} RunsKeepBound(start: Users, members: set<string>, users: Users, group: set<string>, run: seq<Act>)
    requires WithinGroup(users, group, run)
    requires NoFullAdmin(users, group) && Bounded(start, members, users, group) && OthersUntouched(start, users, group)
    ensures var end, hands := RunFrom(users, run), GroupAfter(users, group, run);
            NoFullAdmin(end, hands) && Bounded(start, members, end, hands) && OthersUntouched(start, end, hands)
    decreases run
  {
    if run != [] {
      StepKeepsBound(start, members, users, group, run[0]);
      RunsKeepBound(start, members, Next(users, run[0]), Reached(users, group, run[0]), run[1..]);
    }
  }

  /** Delegation never escalates: whatever accounts without full rights do, together and through
      the accounts they create or change, none of those accounts gets more than one of them had,
      none becomes a full administrator, and the other accounts are as they were or gone. */
  lemma DelegationNeverEscalates(start: Users, members: set<string>, run: seq<Act>)
    requires members <= start.Keys && NoFullAdmin(start, members)
    requires WithinGroup(start, members, run)
    ensures NoFullAdmin(RunFrom(start, run), GroupAfter(start, members, run))
    ensures Bounded(start, members, RunFrom(start, run), GroupAfter(start, members, run))
    ensures OthersUntouched(start, RunFrom(start, run), GroupAfter(start, members, run))
  {
    forall u | u in members && u in start
      ensures exists m :: m in members && m in start && UserPermissions(start[u]) <= UserPermissions(start[m])
    {
      assert UserPermissions(start[u]) <= UserPermissions(start[u]);
    }
    RunsKeepBound(start, members, start, members, run);
  }
}
