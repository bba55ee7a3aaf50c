/** Members of the cooperative, their statuses and roles (common/models/member.py). */
module Members {
  import opened Wrappers
  import opened Basics

  /** Lifecycle status of a member; status changes are admin actions outside this model. */
  datatype MemberStatus = Active | Exited | Suspended

  /** Roles a member may hold: the base participant role, administrator and auditor. */
  datatype MemberRole = RoleMember | RoleAdmin | RoleAuditor

  /**
   * A member. The store's column may hold no role list at all, which `roles` models as `None`;
   * names and contact details are not part of this model.
   */
  datatype Member = Member(id: MemberId, status: MemberStatus, joinDate: Date, roles: Option<seq<MemberRole>>)

  /** The role list a member is created with. */
  function DefaultRoles(): seq<MemberRole>
  {
    [RoleMember]
  }

  /** The roles a stored role list grants: an absent list grants none. */
  function RolesOf(roles: Option<seq<MemberRole>>): seq<MemberRole>
  {
    roles.GetOr([])
  }

  /** A member created with every defaulted column left at its default. */
  function NewMember(id: MemberId, joinDate: Date): Member
  {
    Member(id, Active, joinDate, Some(DefaultRoles()))
  }

  /** The validation error `clean` raises. */
  datatype ValidationError = RolesMustIncludeMember

  /** Model validation: the roles must include the base participant role. */
  function Clean(m: Member): (r: Option<ValidationError>)
    ensures r.None? <==> m.roles.Some? && RoleMember in m.roles.value
  {
    if RoleMember in RolesOf(m.roles) then None else Some(RolesMustIncludeMember)
  }

  /** The default role list is exactly the base participant role. */
  lemma DefaultRolesAreBaseRole()
    ensures DefaultRoles() == [RoleMember]
    ensures RoleMember in DefaultRoles() && RoleAdmin !in DefaultRoles() && RoleAuditor !in DefaultRoles()
  {
  }

  /** Validation rejects every role list without the base role, including an absent or empty one. */
  lemma CleanRejectsWithoutBaseRole(m: Member)
    requires m.roles.None? || RoleMember !in m.roles.value
    ensures Clean(m) == Some(RolesMustIncludeMember)
  {
  }

  /** Validation accepts every role list that contains the base role, whatever else it holds. */
  lemma CleanAcceptsWithBaseRole(m: Member)
    requires m.roles.Some? && RoleMember in m.roles.value
    ensures Clean(m) == None
  {
  }

  /** A new member is active and passes validation. */
  lemma NewMemberIsActiveAndValid(id: MemberId, joinDate: Date)
    ensures NewMember(id, joinDate).status == Active
    ensures Clean(NewMember(id, joinDate)) == None
  {
  }
}
