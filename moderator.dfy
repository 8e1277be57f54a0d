/**
 * The moderator cog's `/mod setup`, `/mod remove` and `/mod update`: guarded
 * transitions on a guild's verification-role record, and the optional passes
 * over the guild's members that take the old role away (`deverify`) or swap
 * it for the new one (`reverify`).
 *
 * A role id the guild does not resolve (`get_role` answering `None`) makes
 * the next attribute access raise; the command then ends with `Error`, after
 * whatever it had already changed.
 */
module Moderator {
  import opened Wrappers
  import opened Guilds
  import opened ServerDb

  datatype ModReply =
    | SetupAlreadySet
    | SetupNotAssignable
    | SetupDone
    | RemoveDone
    | RemoveNoRole
    | UpdateNotAssignable
    | UpdateDone
    | UpdateNoRole
    | Error

  /** Some member holds the role. */
  predicate HeldBySome(members: seq<Member>, role: int)
  {
    exists k :: 0 <= k < |members| && role in members[k].roles
  }

  /** One member after the `deverify` pass has reached it. */
  function Stripped(m: Member, role: int): (r: Member)
    ensures r.id == m.id && r.roles == m.roles - {role}
  {
    if role in m.roles then WithoutRole(m, role) else m
  }

  /** The members after a complete `deverify` pass. */
  function Deverified(members: seq<Member>, role: int): (r: seq<Member>)
    ensures |r| == |members|
    ensures forall k :: 0 <= k < |r| ==> r[k].id == members[k].id && r[k].roles == members[k].roles - {role}
    ensures forall k :: 0 <= k < |r| ==> role !in r[k].roles
  {
    seq(|members|, k requires 0 <= k < |members| => Stripped(members[k], role))
  }

  /** One member after the `reverify` pass has reached it: a holder of `old` gets `new` in its place. */
  function Swapped(m: Member, oldRole: int, newRole: int): (r: Member)
    ensures r.id == m.id
    ensures oldRole in m.roles ==> r.roles == (m.roles - {oldRole}) + {newRole}
    ensures oldRole !in m.roles ==> r == m
  {
    if oldRole in m.roles then WithRole(WithoutRole(m, oldRole), newRole) else m
  }

  /** The members after a complete `reverify` pass. */
  function Reverified(members: seq<Member>, oldRole: int, newRole: int): (r: seq<Member>)
    ensures |r| == |members|
    ensures forall k :: 0 <= k < |r| ==> r[k] == Swapped(members[k], oldRole, newRole)
  {
    seq(|members|, k requires 0 <= k < |members| => Swapped(members[k], oldRole, newRole))
  }

  /**
   * The `deverify` loop: `remove_roles` for every member holding `role`.
   * A Forbidden removal raises at the first holder and stops the loop.
   */
  method Deverify(g: Guild, role: int) returns (ok: bool)
    modifies g`members
    ensures ok == (g.IsAssignable(role) || !HeldBySome(old(g.members), role))
    ensures g.members == if ok then Deverified(old(g.members), role) else old(g.members)
  {
    var i := 0;
    while i < |g.members|
      invariant 0 <= i <= |g.members| == |old(g.members)|
      invariant forall k :: 0 <= k < i ==> g.members[k] == Stripped(old(g.members)[k], role)
      invariant forall k :: i <= k < |g.members| ==> g.members[k] == old(g.members)[k]
      invariant !g.IsAssignable(role) ==> forall k :: 0 <= k < i ==> role !in old(g.members)[k].roles
    {
      if role in g.members[i].roles {
        ok := g.RemoveRole(i, role);
        if !ok {
          assert g.members == old(g.members);
          return;
        }
      }
      i := i + 1;
    }
    assert g.members == Deverified(old(g.members), role);
    ok := true;
  }

  /**
   * The `reverify` loop: every holder of `oldRole` loses it and, unless it
   * (now) holds `newRole`, is given `newRole`. The new role has passed the
   * assignability check; a Forbidden removal of the old one raises at the
   * first holder and stops the loop.
   */
  method Reverify(g: Guild, oldRole: int, newRole: int) returns (ok: bool)
    requires g.IsAssignable(newRole)
    modifies g`members
    ensures ok == (g.IsAssignable(oldRole) || !HeldBySome(old(g.members), oldRole))
    ensures g.members == if ok then Reverified(old(g.members), oldRole, newRole) else old(g.members)
  {
    var i := 0;
    while i < |g.members|
      invariant 0 <= i <= |g.members| == |old(g.members)|
      invariant forall k :: 0 <= k < i ==> g.members[k] == Swapped(old(g.members)[k], oldRole, newRole)
      invariant forall k :: i <= k < |g.members| ==> g.members[k] == old(g.members)[k]
      invariant !g.IsAssignable(oldRole) ==> forall k :: 0 <= k < i ==> oldRole !in old(g.members)[k].roles
    {
      if oldRole in g.members[i].roles {
        ok := g.RemoveRole(i, oldRole);
        if !ok {
          assert g.members == old(g.members);
          return;
        }
        if newRole !in g.members[i].roles {
          ok := g.AddRole(i, newRole);
        }
      }
      i := i + 1;
    }
    assert g.members == Reverified(old(g.members), oldRole, newRole);
    ok := true;
  }

  /** `/mod setup role`: `roleId` is the id of the role option. */
  method Setup(g: Guild, store: ServerStore, roleId: int) returns (reply: ModReply)
    modifies store
    ensures var got := Lookup(old(store.records), g.id);
            var fetched := Fetched(old(store.records), g.id);
            if Truthy(got) then
              && store.records == fetched
              && reply == (if RoleById(g.roles, got.value).None? then Error else SetupAlreadySet)
            else if RoleById(g.roles, roleId).None? then reply == Error && store.records == fetched
            else if !g.IsAssignable(roleId) then reply == SetupNotAssignable && store.records == fetched
            else reply == SetupDone && store.records == SetFirst(fetched, g.id, RoleId(roleId))
    // a successful setup is what the getter reads back
    ensures reply == SetupDone ==> Lookup(store.records, g.id) == Some(roleId)
    // the records of other guilds are untouched
    ensures forall h :: h != g.id ==> RecordsOf(store.records, h) == RecordsOf(old(store.records), h)
  {
    ghost var rs0 := store.records;
    FetchedOthers(rs0, g.id);
    var existing := store.GetVerificationRole(g.id);
    if Truthy(existing) {
      var current := RoleById(g.roles, existing.value);
      if current.None? {
        return Error;
      }
      return SetupAlreadySet;
    }
    var role := RoleById(g.roles, roleId);
    if role.None? {
      return Error;
    }
    if !g.IsAssignable(role.value.id) {
      return SetupNotAssignable;
    }
    ghost var rs1 := store.records;
    store.AddVerificationRole(g.id, role.value.id);
    LookupAfterSet(rs1, g.id, roleId);
    SetFirstAllOthers(rs1, g.id, RoleId(roleId));
    reply := SetupDone;
  }

  /** `/mod remove deverify`. */
  method Remove(g: Guild, store: ServerStore, deverify: int) returns (reply: ModReply)
    modifies store, g`members
    ensures var got := Lookup(old(store.records), g.id);
            var fetched := Fetched(old(store.records), g.id);
            if Truthy(got) then
              var current := RoleById(g.roles, got.value);
              && store.records == SetFirst(fetched, g.id, Unset)
              && (current.None? ==> reply == Error && g.members == old(g.members))
              && (current.Some? && deverify == 0 ==> reply == RemoveDone && g.members == old(g.members))
              && (current.Some? && deverify != 0 ==>
                    if g.IsAssignable(got.value) || !HeldBySome(old(g.members), got.value) then
                      reply == RemoveDone && g.members == Deverified(old(g.members), got.value)
                    else reply == Error && g.members == old(g.members))
            else reply == RemoveNoRole && store.records == fetched && g.members == old(g.members)
    // whenever a role was set, the getter reads nothing back afterwards
    ensures Truthy(Lookup(old(store.records), g.id)) ==> Lookup(store.records, g.id).None?
    // after a completed deverify no member holds the old role, and nothing else about members changed
    ensures reply == RemoveDone && deverify != 0 ==>
              var r := Lookup(old(store.records), g.id).value;
              |g.members| == |old(g.members)| &&
              forall k :: 0 <= k < |g.members| ==>
                r !in g.members[k].roles && g.members[k].roles == old(g.members)[k].roles - {r} &&
                g.members[k].id == old(g.members)[k].id
    ensures forall h :: h != g.id ==> RecordsOf(store.records, h) == RecordsOf(old(store.records), h)
  {
    ghost var rs0 := store.records;
    FetchedOthers(rs0, g.id);
    var existing := store.GetVerificationRole(g.id);
    if !Truthy(existing) {
      return RemoveNoRole;
    }
    ghost var rs1 := store.records;
    var current := RoleById(g.roles, existing.value);
    store.RemoveVerificationRole(g.id);
    LookupAfterUnset(rs1, g.id);
    SetFirstAllOthers(rs1, g.id, Unset);
    if current.None? {
      return Error;
    }
    if deverify != 0 {
      var ok := Deverify(g, current.value.id);
      if !ok {
        return Error;
      }
    }
    reply := RemoveDone;
  }

  /** `/mod update role reverify`: `roleId` is the id of the role option. */
  method Update(g: Guild, store: ServerStore, roleId: int, reverify: int) returns (reply: ModReply)
    modifies store, g`members
    ensures var got := Lookup(old(store.records), g.id);
            var fetched := Fetched(old(store.records), g.id);
            if !Truthy(got) then reply == UpdateNoRole && store.records == fetched && g.members == old(g.members)
            else if RoleById(g.roles, roleId).None? then
              reply == Error && store.records == fetched && g.members == old(g.members)
            else if !g.IsAssignable(roleId) then
              reply == UpdateNotAssignable && store.records == fetched && g.members == old(g.members)
            else
              var previous := RoleById(g.roles, got.value);
              && store.records == SetFirst(fetched, g.id, RoleId(roleId))
              && (previous.None? ==> reply == Error && g.members == old(g.members))
              && (previous.Some? && reverify == 0 ==> reply == UpdateDone && g.members == old(g.members))
              && (previous.Some? && reverify != 0 ==>
                    if g.IsAssignable(got.value) || !HeldBySome(old(g.members), got.value) then
                      reply == UpdateDone && g.members == Reverified(old(g.members), got.value, roleId)
                    else reply == Error && g.members == old(g.members))
    // a successful update is what the getter reads back
    ensures reply == UpdateDone ==> Lookup(store.records, g.id) == Some(roleId)
    ensures forall h :: h != g.id ==> RecordsOf(store.records, h) == RecordsOf(old(store.records), h)
  {
    ghost var rs0 := store.records;
    FetchedOthers(rs0, g.id);
    var existing := store.GetVerificationRole(g.id);
    if !Truthy(existing) {
      return UpdateNoRole;
    }
    var role := RoleById(g.roles, roleId);
    if role.None? {
      return Error;
    }
    if !g.IsAssignable(role.value.id) {
      return UpdateNotAssignable;
    }
    var previous := RoleById(g.roles, existing.value);
    ghost var rs1 := store.records;
    store.AddVerificationRole(g.id, role.value.id);
    LookupAfterSet(rs1, g.id, roleId);
    SetFirstAllOthers(rs1, g.id, RoleId(roleId));
    if previous.None? {
      return Error;
    }
    if reverify != 0 {
      var ok := Reverify(g, previous.value.id, role.value.id);
      if !ok {
        return Error;
      }
    }
    reply := UpdateDone;
  }

  /**
   * After a completed `reverify` pass every former holder of the old role
   * holds the new one and, when the two differ, no longer the old one;
   * members who did not hold the old role are as they were.
   */
  lemma ReverifiedHolders(members: seq<Member>, oldRole: int, newRole: int, k: nat)
    requires k < |members|
    ensures var r := Reverified(members, oldRole, newRole);
            && (oldRole in members[k].roles ==> newRole in r[k].roles)
            && (oldRole in members[k].roles && oldRole != newRole ==> oldRole !in r[k].roles)
            && (oldRole !in members[k].roles ==> r[k] == members[k])
  {
  }

  /** Roles other than the old and the new one are kept by every member. */
  lemma ReverifiedKeepsOthers(members: seq<Member>, oldRole: int, newRole: int, k: nat, other: int)
    requires k < |members| && other != oldRole && other != newRole
    ensures other in Reverified(members, oldRole, newRole)[k].roles <==> other in members[k].roles
  {
  }

  /** Swapping a role for itself leaves every member as it was. */
  lemma ReverifiedSameRole(members: seq<Member>, role: int)
    ensures Reverified(members, role, role) == members
  {
    forall k | 0 <= k < |members|
      ensures Reverified(members, role, role)[k] == members[k]
    {
      if role in members[k].roles {
        assert (members[k].roles - {role}) + {role} == members[k].roles;
      }
    }
  }
}
