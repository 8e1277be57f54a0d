/**
 * The part of the chat platform the cogs act on, as state: a guild's roles,
 * its members and their role sets, and its text channels. The SDK calls the
 * cogs make (`add_roles`, `remove_roles`, `create_role`, `get_role`,
 * `get_member`, `discord.utils.get`) are the members below.
 */
module Guilds {
  import opened Wrappers

  datatype Role = Role(id: int, name: string)

  /**
   * A guild member. `topRole` is the rank of the member's highest role, the
   * value `top_role` comparisons use; `isAdmin` is the administrator permission.
   */
  datatype Member = Member(id: int, roles: set<int>, topRole: int, isAdmin: bool)

  datatype TextChannel = TextChannel(id: int, botCanSend: bool)

  /** `discord.utils.get(roles, name=name)`: the first role with that name. */
  function RoleNamed(roles: seq<Role>, name: string): (r: Option<Role>)
    ensures r.None? <==> forall k :: 0 <= k < |roles| ==> roles[k].name != name
    ensures r.Some? ==> exists k :: 0 <= k < |roles| && roles[k] == r.value && r.value.name == name &&
                                  forall j :: 0 <= j < k ==> roles[j].name != name
  {
    if roles == [] then None
    else if roles[0].name == name then Some(roles[0])
    else
      var r := RoleNamed(roles[1..], name);
      assert r.Some? ==> exists k :: 0 <= k < |roles[1..]| && roles[1..][k] == r.value && r.value.name == name &&
                                       forall j :: 0 <= j < k ==> roles[1..][j].name != name;
      assert forall k :: 0 <= k < |roles[1..]| ==> roles[1..][k] == roles[k + 1];
      r
  }

  /** `guild.get_role(id)`: the role with that id, or `None`. */
  function RoleById(roles: seq<Role>, id: int): (r: Option<Role>)
    ensures r.None? <==> forall k :: 0 <= k < |roles| ==> roles[k].id != id
    ensures r.Some? ==> r.value in roles && r.value.id == id
  {
    if roles == [] then None
    else if roles[0].id == id then Some(roles[0])
    else RoleById(roles[1..], id)
  }

  /** `guild.get_member(id)`, as the position of the member with that id. */
  function MemberIndex(members: seq<Member>, id: int): (r: Option<nat>)
    ensures r.None? <==> forall k :: 0 <= k < |members| ==> members[k].id != id
    ensures r.Some? ==> r.value < |members| && members[r.value].id == id
  {
    if members == [] then None
    else if members[0].id == id then Some(0)
    else
      var r := MemberIndex(members[1..], id);
      if r.Some? then Some(r.value + 1) else None
  }

  /** Member ids are distinct: the platform keys a guild's members by user id. */
  ghost predicate DistinctIds(members: seq<Member>)
  {
    forall i, j :: 0 <= i < j < |members| ==> members[i].id != members[j].id
  }

  function WithRole(m: Member, role: int): (r: Member)
    ensures r.id == m.id && r.roles == m.roles + {role}
  {
    m.(roles := m.roles + {role})
  }

  function WithoutRole(m: Member, role: int): (r: Member)
    ensures r.id == m.id && r.roles == m.roles - {role}
  {
    m.(roles := m.roles - {role})
  }

  class Guild {
    const id: int
    const ownerId: int
    /** The bot's own member id (`guild.me`) and the rank of its top role. */
    const botId: int
    const botTopRole: int
    /**
     * Roles the bot may not hand out or take away (above its own top role,
     * or managed). Every role edit with one of them raises Forbidden, and
     * `role.is_assignable()` is false exactly for them.
     */
    const unassignable: set<int>
    const textChannels: seq<TextChannel>
    var roles: seq<Role>
    var members: seq<Member>

    ghost predicate Valid()
      reads this
    {
      DistinctIds(members)
    }

    constructor (id: int, ownerId: int, botId: int, botTopRole: int, unassignable: set<int>,
                 textChannels: seq<TextChannel>, roles: seq<Role>, members: seq<Member>)
      ensures this.id == id && this.ownerId == ownerId && this.botId == botId
      ensures this.botTopRole == botTopRole && this.unassignable == unassignable
      ensures this.textChannels == textChannels && this.roles == roles && this.members == members
    {
      this.id := id;
      this.ownerId := ownerId;
      this.botId := botId;
      this.botTopRole := botTopRole;
      this.unassignable := unassignable;
      this.textChannels := textChannels;
      this.roles := roles;
      this.members := members;
    }

    /** `role.is_assignable()`. */
    predicate IsAssignable(role: int)
    {
      role !in unassignable
    }

    /** `member.add_roles(role)`: `ok` is false when the platform raises Forbidden. */
    method AddRole(i: nat, role: int) returns (ok: bool)
      requires i < |members|
      modifies this`members
      ensures ok == IsAssignable(role)
      ensures members == if ok then old(members)[i := WithRole(old(members)[i], role)] else old(members)
      ensures old(Valid()) ==> Valid()
    {
      ok := IsAssignable(role);
      if ok {
        members := members[i := WithRole(members[i], role)];
      }
    }

    /** `member.remove_roles(role)`: `ok` is false when the platform raises Forbidden. */
    method RemoveRole(i: nat, role: int) returns (ok: bool)
      requires i < |members|
      modifies this`members
      ensures ok == IsAssignable(role)
      ensures members == if ok then old(members)[i := WithoutRole(old(members)[i], role)] else old(members)
      ensures old(Valid()) ==> Valid()
    {
      ok := IsAssignable(role);
      if ok {
        members := members[i := WithoutRole(members[i], role)];
      }
    }

    /** `guild.create_role(name=name)` when the platform allows it; the new role gets id `newId`. */
    method CreateRole(name: string, newId: int)
      modifies this`roles
      ensures roles == old(roles) + [Role(newId, name)]
    {
      roles := roles + [Role(newId, name)];
    }
  }
}
