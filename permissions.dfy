/**
 * Role-based access decisions of the API (common/permissions.py): each permission class is a
 * predicate over the requesting user and, for the auditor, the request method.
 */
module Permissions {
  import opened Wrappers
  import opened Members

  /** The requesting account: whether it is signed in, and the member linked to it, if any. */
  datatype User = User(isAuthenticated: bool, member: Option<Member>)

  /** The HTTP methods that only read. */
  const SafeMethods: set<string> := {"GET", "HEAD", "OPTIONS"}

  /** `get_member`: the linked member of a signed-in user; none for no user or an anonymous one. */
  function GetMember(user: Option<User>): (m: Option<Member>)
    ensures m.Some? <==> user.Some? && user.value.isAuthenticated && user.value.member.Some?
    ensures m.Some? ==> m == user.value.member
  {
    if user.None? || !user.value.isAuthenticated then None else user.value.member
  }

  /** The requester has a linked member whose stored roles include `role` (an absent list grants nothing). */
  predicate HasRole(user: Option<User>, role: MemberRole)
  {
    var m := GetMember(user);
    m.Some? && role in RolesOf(m.value.roles)
  }

  /** `IsMemberReadOwnAndAggregates.has_permission`. */
  function MemberReadPermission(user: Option<User>): (ok: bool)
    ensures ok <==> user.Some? && user.value.isAuthenticated && user.value.member.Some?
                    && user.value.member.value.roles.Some? && RoleMember in user.value.member.value.roles.value
  {
    var m := GetMember(user);
    if m.None? then false else RoleMember in RolesOf(m.value.roles)
  }

  /** `IsMemberReadOwnAndAggregates.has_object_permission`: the object does not enter the decision. */
  function MemberObjectPermission<T>(user: Option<User>, obj: T): (ok: bool)
    ensures ok == MemberReadPermission(user)
  {
    MemberReadPermission(user)
  }

  /** `IsAdmin.has_permission`. */
  function AdminPermission(user: Option<User>): (ok: bool)
    ensures ok <==> user.Some? && user.value.isAuthenticated && user.value.member.Some?
                    && user.value.member.value.roles.Some? && RoleAdmin in user.value.member.value.roles.value
  {
    var m := GetMember(user);
    if m.None? then false else RoleAdmin in RolesOf(m.value.roles)
  }

  /** `IsAuditorReadOnly.has_permission`. */
  function AuditorPermission(user: Option<User>, verb: string): (ok: bool)
    ensures ok <==> verb in SafeMethods && HasRole(user, RoleAuditor)
  {
    if verb in SafeMethods then
      var m := GetMember(user);
      if m.None? then false else RoleAuditor in RolesOf(m.value.roles)
    else false
  }

  /** The auditor permission never admits a write, whatever roles the member holds. */
  lemma AuditorNeverWrites(user: Option<User>, verb: string)
    requires verb !in SafeMethods
    ensures !AuditorPermission(user, verb)
  {
  }

  /** A member who is an auditor but not an administrator may read through the auditor permission and may not write. */
  lemma AuditorWithoutAdminIsReadOnly(user: Option<User>)
    requires HasRole(user, RoleAuditor) && !HasRole(user, RoleAdmin)
    ensures AuditorPermission(user, "GET") && !AuditorPermission(user, "POST")
    ensures !AdminPermission(user)
  {
  }

  /** No permission admits a request without a signed-in, linked member. */
  lemma AnonymousIsDenied(user: Option<User>, verb: string)
    requires GetMember(user).None?
    ensures !MemberReadPermission(user) && !AdminPermission(user) && !AuditorPermission(user, verb)
  {
  }

  /** A member whose role list is absent is denied by every permission, like one with an empty list. */
  lemma AbsentRolesGrantNothing(user: Option<User>, verb: string)
    requires user.Some? && user.value.member.Some? && user.value.member.value.roles.None?
    ensures !MemberReadPermission(user) && !AdminPermission(user) && !AuditorPermission(user, verb)
  {
  }

  /** A member created with the default roles may read its own data and is neither administrator nor auditor. */
  lemma NewMemberPermissions(id: nat, joinDate: int, verb: string)
    ensures var user := Some(User(true, Some(NewMember(id, joinDate))));
      MemberReadPermission(user) && !AdminPermission(user) && !AuditorPermission(user, verb)
  {
  }
}
