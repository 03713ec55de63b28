/** The roles a user holds in one tenant, read from the groups under that tenant's branch of the
    directory. */
module TenantRoles {
  import opened Strings
  import opened Options
  import opened Hosts
  import opened LdapFilter

  const ADMINISTRATORS := "administrators"

  const TENANT_ADMIN := "tenant_admin"

  const DEPLOYMENT_PREFIX := "system_"

  predicate IsDeploymentRole(role: string) {
    DEPLOYMENT_PREFIX <= role
  }

  predicate NoDuplicates(roles: seq<string>) {
    forall i, j :: 0 <= i < j < |roles| ==> roles[i] != roles[j]
  }

  // ----- policy -----

  function Strip(roles: seq<string>): seq<string> {
    if roles == [] then []
    else (if IsDeploymentRole(roles[0]) then [] else [roles[0]]) + Strip(roles[1..])
  }

  lemma {:induction false} StripAppend(a: seq<string>, b: seq<string>)
    ensures Strip(a + b) == Strip(a) + Strip(b)
  {
    if a == [] {
      assert a + b == b;
    } else {
      assert (a + b)[1..] == a[1..] + b;
      StripAppend(a[1..], b);
    }
  }

  /** Stripping drops the deployment roles and nothing else. */
  lemma {:induction false} StripKeepsTheRest(roles: seq<string>)
    ensures forall r :: r in Strip(roles) <==> r in roles && !("system_" <= r)
  {
    if roles != [] {
      StripKeepsTheRest(roles[1..]);
    }
  }

  lemma {:induction false} StripKeepsNoDuplicates(roles: seq<string>)
    requires NoDuplicates(roles)
    ensures NoDuplicates(Strip(roles))
  {
    if roles != [] {
      StripKeepsNoDuplicates(roles[1..]);
      StripKeepsTheRest(roles[1..]);
      assert roles[0] !in roles[1..];
    }
  }

  lemma {:induction false} NothingToStrip(roles: seq<string>)
    requires forall r :: r in roles ==> !IsDeploymentRole(r)
    ensures Strip(roles) == roles
  {
    if roles != [] {
      NothingToStrip(roles[1..]);
    }
  }

  method StripDeploymentRoles(roles: seq<string>) returns (kept: seq<string>)
    ensures kept == Strip(roles)
  {
    kept := [];
    ghost var done: seq<string> := [];
    for i := 0 to |roles|
      invariant done == roles[..i] && kept == Strip(done)
    {
      var r := roles[i];
      StripAppend(done, [r]);
      assert [r][1..] == [];
      done := done + [r];
      if !IsDeploymentRole(r) {
        kept := kept + [r];
      }
    }
    assert done == roles;
  }

  function Finished(roles: seq<string>): seq<string> {
    Strip(if ADMINISTRATORS in roles && TENANT_ADMIN !in roles then roles + [TENANT_ADMIN] else roles)
  }

  method FinishTenantRoles(roles: seq<string>) returns (finished: seq<string>)
    ensures finished == Finished(roles)
  {
    var rs := roles;
    if ADMINISTRATORS in rs && TENANT_ADMIN !in rs {
      rs := rs + [TENANT_ADMIN];
    }
    finished := StripDeploymentRoles(rs);
  }

  /** What finishing makes of any list: no deployment role, and tenant_admin exactly for
      administrators and tenant admins. */
  lemma FinishedRoles(roles: seq<string>)
    ensures forall r :: r in Finished(roles) <==>
              !IsDeploymentRole(r) && (r in roles || (r == TENANT_ADMIN && ADMINISTRATORS in roles))
    ensures NoDuplicates(roles) ==> NoDuplicates(Finished(roles))
  {
    var mapped := if ADMINISTRATORS in roles && TENANT_ADMIN !in roles then roles + [TENANT_ADMIN] else roles;
    StripKeepsTheRest(mapped);
    if NoDuplicates(mapped) {
      StripKeepsNoDuplicates(mapped);
    }
  }

  lemma FinishedIsIdempotent(roles: seq<string>)
    ensures Finished(Finished(roles)) == Finished(roles)
  {
    FinishedRoles(roles);
    assert TENANT_ADMIN[0] != DEPLOYMENT_PREFIX[0] && ADMINISTRATORS[0] != DEPLOYMENT_PREFIX[0];
    StripKeepsTheRest(Finished(roles));
    NothingToStrip(Finished(roles));
  }

  // ----- the directory -----

  /** A group: its distinguished name, the values of its cn in order, and its members. */
  datatype Group = Group(dn: string, cns: seq<string>, members: set<string>)

  predicate Under(dn: string, base: string) {
    dn == base || (|dn| > |base| && dn[|dn| - |base| - 1..] == [','] + base)
  }

  predicate Selects(base: string, filter: string, g: Group) {
    Under(g.dn, base) &&
    match ReadFilter(filter)
    case Exactly(dn) => dn in g.members
    case Unclear => true
  }

  class Directory {
    var groups: seq<Group>
    var answers: bool

    constructor (groups: seq<Group>, answers: bool)
      ensures this.groups == groups && this.answers == answers
    {
      this.groups, this.answers := groups, answers;
    }

    /** A subtree search. */
    method Search(base: string, filter: string) returns (r: Option<seq<Group>>)
      ensures r.None? <==> !answers
      ensures r.Some? ==> forall g :: g in r.value <==> g in groups && Selects(base, filter, g)
    {
      if !answers {
        return None;
      }
      var found: seq<Group> := [];
      for i := 0 to |groups|
        invariant forall g :: g in found <==> g in groups[..i] && Selects(base, filter, g)
      {
        if Selects(base, filter, groups[i]) {
          found := found + [groups[i]];
        }
      }
      return Some(found);
    }
  }

  function TenantRoleBase(tenant: string, tenantBase: string): string {
    if tenant == "" || tenantBase == "" then "" else "ou=" + tenant + "," + tenantBase
  }

  /** The role a group stands for. */
  function RoleOf(g: Group): (role: string)
  {
    if g.cns == [] then "" else ToLower(g.cns[0])
  }

  ghost predicate Grants(groups: seq<Group>, role: string) {
    role != "" && exists g :: g in groups && RoleOf(g) == role
  }

  /** The user holds `role` through a group under the tenant's own branch. */
  ghost predicate Holds(groups: seq<Group>, userDn: string, base: string, role: string) {
    role != "" && exists g :: g in groups && Under(g.dn, base) && userDn in g.members && RoleOf(g) == role
  }

  /** A group under the branch has the user as a member and `role` as its first name, in any case. */
  ghost predicate HeldName(groups: seq<Group>, userDn: string, base: string, role: string) {
    exists g :: && g in groups && Under(g.dn, base) && userDn in g.members
                && g.cns != [] && SameButCase(g.cns[0], role)
  }

  predicate IsLower(s: string) {
    forall c :: c in s ==> !IsUpper(c)
  }

  lemma LowerStays(s: string)
    requires IsLower(s)
    ensures ToLower(s) == s
  {
    forall i | 0 <= i < |s|
      ensures ToLower(s)[i] == s[i]
    {
      assert s[i] in s;
    }
  }

  /** The roles held are the names held, in lower case. */
  lemma HoldsExactly(groups: seq<Group>, userDn: string, base: string, role: string)
    ensures Holds(groups, userDn, base, role) <==> role != "" && IsLower(role) && HeldName(groups, userDn, base, role)
  {
    if Holds(groups, userDn, base, role) {
      var g :| g in groups && Under(g.dn, base) && userDn in g.members && RoleOf(g) == role;
      LoweredIsLower(g.cns[0]);
    }
    if role != "" && IsLower(role) && HeldName(groups, userDn, base, role) {
      var g :| && g in groups && Under(g.dn, base) && userDn in g.members
               && g.cns != [] && SameButCase(g.cns[0], role);
      LoweredAlikeExactly(g.cns[0], role);
      LowerStays(role);
    }
  }

  /** A group called "Administrators" is held as "administrators". */
  lemma CapitalAdministrators(groups: seq<Group>, userDn: string, base: string, g: Group)
    requires g in groups && Under(g.dn, base) && userDn in g.members && g.cns != [] && g.cns[0] == "Administrators"
    ensures HeldName(groups, userDn, base, "administrators")
  {
    assert SameButCase("Administrators", "administrators");
  }

  method Collect(entries: seq<Group>) returns (roles: seq<string>)
    ensures NoDuplicates(roles)
    ensures forall role :: role in roles <==> Grants(entries, role)
  {
    roles := [];
    for i := 0 to |entries|
      invariant NoDuplicates(roles)
      invariant forall role :: role in roles <==> Grants(entries[..i], role)
    {
      ghost var seen := entries[..i];
      assert entries[..i + 1] == seen + [entries[i]];
      var role := RoleOf(entries[i]);
      assert forall x :: Grants(seen + [entries[i]], x) <==> Grants(seen, x) || (x != "" && x == role);
      if role != "" && role !in roles {
        roles := roles + [role];
      }
    }
    assert entries[..|entries|] == entries;
  }

  /** The roles of a user in a tenant. */
  method ScopedRoles(directory: Directory, userDn: string, tenant: string, tenantBase: string)
    returns (roles: seq<string>)
    requires tenant != "" && tenantBase != ""
    ensures NoDuplicates(roles)
    ensures !directory.answers ==> roles == []
    ensures directory.answers ==>
              var base := "ou=" + tenant + "," + tenantBase;
              forall role :: role in roles <==>
                && role != "" && IsLower(role) && !("system_" <= role)
                && (|| HeldName(directory.groups, userDn, base, role)
                    || (role == "tenant_admin" && HeldName(directory.groups, userDn, base, "administrators")))
  {
    var base := TenantRoleBase(tenant, tenantBase);
    var value := EscapeFilterValue(userDn);
    FilterMeansTheUser(userDn);
    var found := directory.Search(base, FILTER_HEAD + value + FILTER_TAIL);
    roles := [];
    if found.Some? {
      roles := Collect(found.value);
      assert forall role :: Grants(found.value, role) <==> Holds(directory.groups, userDn, base, role);
      forall role
        ensures Holds(directory.groups, userDn, base, role) <==>
                role != "" && IsLower(role) && HeldName(directory.groups, userDn, base, role)
      {
        HoldsExactly(directory.groups, userDn, base, role);
      }
    }
    FinishedRoles(roles);
    roles := FinishTenantRoles(roles);
  }


  /** One tenant's branch lies inside the other's. */
  predicate Nested(inner: string, outer: string) {
    EndsWith(inner, ",ou=" + outer)
  }

  lemma BranchSplit(tenant: string, tenantBase: string)
    requires tenant != "" && tenantBase != ""
    ensures var b := TenantRoleBase(tenant, tenantBase); var n := |tenant| + 3;
            |b| == n + 1 + |tenantBase| && b[..n] == "ou=" + tenant && b[n..] == "," + tenantBase
  {
    var b, n := TenantRoleBase(tenant, tenantBase), |tenant| + 3;
    assert b == "ou=" + tenant + ("," + tenantBase);
  }

  lemma NestedIsUnder(inner: string, outer: string, tenantBase: string)
    requires outer != "" && tenantBase != "" && Nested(inner, outer)
    ensures Under(TenantRoleBase(inner, tenantBase), TenantRoleBase(outer, tenantBase))
  {
    var bi, bo := TenantRoleBase(inner, tenantBase), TenantRoleBase(outer, tenantBase);
    var front := inner[..|inner| - |outer| - 4];
    assert inner == front + ",ou=" + outer;
    assert bi == ("ou=" + front) + ([','] + bo);
    assert |bi| - |bo| - 1 == |"ou=" + front|;
  }

  lemma TailOf(dn: string, base: string)
    requires Under(dn, base)
    ensures |base| <= |dn| && dn[|dn| - |base|..] == base
    ensures |base| < |dn| ==> dn[|dn| - |base| - 1] == ','
  {
    if dn != base {
      var k := |dn| - |base| - 1;
      assert dn[k..][1..] == base && dn[k..][0] == ',';
    }
  }

  lemma UnderBothIsNested(dn: string, inner: string, outer: string, tenantBase: string)
    requires inner != "" && outer != "" && tenantBase != "" && |outer| < |inner|
    requires Under(dn, TenantRoleBase(inner, tenantBase)) && Under(dn, TenantRoleBase(outer, tenantBase))
    ensures Nested(inner, outer)
  {
    var bi, bo := TenantRoleBase(inner, tenantBase), TenantRoleBase(outer, tenantBase);
    TailOf(dn, bi);
    TailOf(dn, bo);
    BranchSplit(inner, tenantBase);
    BranchSplit(outer, tenantBase);
    var k := |inner| - |outer|;
    assert bi[k - 1] == dn[|dn| - |bi| + k - 1] == ',';
    assert bi[k..] == bo;
    assert bi[k..|inner| + 3] == bo[..|outer| + 3] == "ou=" + outer;
    var front := "ou=" + inner;
    assert front[k - 1] == ',' && front[k..] == "ou=" + outer;
    assert inner[k - 4..] == front[k - 1..] == ",ou=" + outer;
  }

  /** A group can lie under two tenants' branches exactly when the tenants are the same or one's
      name ends in a comma and the other's branch. */
  lemma BranchesMeetExactly(t1: string, t2: string, tenantBase: string)
    requires t1 != "" && t2 != "" && tenantBase != ""
    ensures (exists dn :: Under(dn, TenantRoleBase(t1, tenantBase)) && Under(dn, TenantRoleBase(t2, tenantBase)))
            <==> t1 == t2 || Nested(t1, t2) || Nested(t2, t1)
  {
    var b1, b2 := TenantRoleBase(t1, tenantBase), TenantRoleBase(t2, tenantBase);
    if dn :| Under(dn, b1) && Under(dn, b2) {
      if |t1| < |t2| {
        UnderBothIsNested(dn, t2, t1, tenantBase);
      } else if |t2| < |t1| {
        UnderBothIsNested(dn, t1, t2, tenantBase);
      } else {
        TailOf(dn, b1);
        TailOf(dn, b2);
        BranchSplit(t1, tenantBase);
        BranchSplit(t2, tenantBase);
        assert t1 == ("ou=" + t1)[3..] == ("ou=" + t2)[3..] == t2;
      }
    }
    if Nested(t1, t2) {
      NestedIsUnder(t1, t2, tenantBase);
    } else if Nested(t2, t1) {
      NestedIsUnder(t2, t1, tenantBase);
    }
    assert Under(b1, b1) && Under(b2, b2);
  }

  lemma NestedHasComma(inner: string, outer: string)
    ensures Nested(inner, outer) ==> ',' in inner
  {
    if Nested(inner, outer) {
      assert inner[|inner| - |outer| - 4..][0] == ',';
    }
  }

  /** No group lies under the branches of two tenants without commas. */
  lemma BranchesAreApart(dn: string, t1: string, t2: string, tenantBase: string)
    requires t1 != "" && t2 != "" && tenantBase != "" && ',' !in t1 && ',' !in t2
    requires Under(dn, TenantRoleBase(t1, tenantBase)) && Under(dn, TenantRoleBase(t2, tenantBase))
    ensures t1 == t2
  {
    BranchesMeetExactly(t1, t2, tenantBase);
    NestedHasComma(t1, t2);
    NestedHasComma(t2, t1);
  }

  /** A host name can yield a tenant whose branch lies inside another's: "x,ou=acme" below "acme". */
  lemma CommaTenantsCanNest(tag: string, outer: string, domain: string, tenantBase: string)
    requires ':' !in tag && '.' !in tag && '-' !in tag && ':' !in outer && '.' !in outer && '-' !in outer
    requires outer != "" && ':' !in domain && tenantBase != ""
    ensures var inner := tag + ",ou=" + outer;
            && TenantOf(inner + "." + domain) == inner
            && Under(TenantRoleBase(inner, tenantBase), TenantRoleBase(outer, tenantBase))
  {
    var inner := tag + ",ou=" + outer;
    assert inner[|tag|] == ',';
    assert forall i :: 0 <= i < |inner| ==>
             inner[i] == if i < |tag| then tag[i]
                         else if i < |tag| + 4 then ",ou="[i - |tag|]
                         else outer[i - |tag| - 4];
    assert inner[|inner| - |outer| - 4..] == ",ou=" + outer;
    LabelIsTenant(inner, domain);
    NestedIsUnder(inner, outer, tenantBase);
  }
}
