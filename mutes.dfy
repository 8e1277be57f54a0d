/**
 * The mute commands of the misc cog: `mute` (an ordered chain of guards,
 * then the role grant and the stored expiry), `unmute`, and the periodic
 * `check_mutes` pass that lifts expired mutes.
 *
 * The mute store is abstract: `add_mute` appends a record and
 * `remove_mute(user_id)` drops every record of that user.
 */
module Mutes {
  import opened Wrappers
  import opened Duration
  import opened Guilds

  /** The name the cog looks the muted role up by. */
  const MutedRoleName: string := "Muted"

  datatype MuteRecord = MuteRecord(userId: int, guildId: int, endTime: int)

  /** The records kept when the records of every user in `users` are removed. */
  function Drop(rs: seq<MuteRecord>, users: set<int>): (r: seq<MuteRecord>)
    ensures forall x :: x in r <==> x in rs && x.userId !in users
    ensures |r| <= |rs|
  {
    if rs == [] then []
    else (if rs[0].userId in users then [] else [rs[0]]) + Drop(rs[1..], users)
  }

  class MuteStore {
    var records: seq<MuteRecord>

    constructor ()
      ensures records == []
    {
      records := [];
    }

    /** `db.add_mute(user_id, guild_id, end_time)`. */
    method AddMute(userId: int, guildId: int, endTime: int)
      modifies this
      ensures records == old(records) + [MuteRecord(userId, guildId, endTime)]
    {
      records := records + [MuteRecord(userId, guildId, endTime)];
    }

    /** `db.remove_mute(user_id)`: keyed by the user only. */
    method RemoveMute(userId: int)
      modifies this
      ensures records == Drop(old(records), {userId})
    {
      records := Drop(records, {userId});
    }
  }

  /** Outcome of an SDK call whose effect the model does not track (channel overwrites, role creation). */
  datatype Call = Succeeds | RaisesForbidden | RaisesOther

  datatype MuteReply =
    | NoMember
    | NoDuration
    | TargetOutranksAuthor
    | CannotMuteSelf
    | InvalidDuration
    | CreateRoleForbidden
    | CreateRoleFailed
    | BotOutranked
    | MuteForbidden
    | MuteFailed
    | MutedFor(seconds: nat)

  /**
   * The guards `mute` checks before it touches anything, in the order it
   * checks them: no member, no duration, the target's top role at least the
   * author's (unless the author owns the guild), the target is the bot, and a
   * duration outside (0, 14 days].
   */
  function Precheck(members: seq<Member>, ownerId: int, botId: int, author: nat, target: Option<nat>,
                    timeStr: string): (r: Option<MuteReply>)
    requires author < |members| && (target.Some? ==> target.value < |members|)
    ensures r.None? ==> target.Some? && timeStr != [] && members[target.value].id != botId
    ensures r.None? ==> 0 < ParseTime(timeStr) <= MaxMuteSeconds
    ensures r.None? && members[author].id != ownerId ==> members[target.value].topRole < members[author].topRole
    // and the converse: when every guard holds, nothing is refused
    ensures (&& target.Some? && timeStr != [] && members[target.value].id != botId
             && 0 < ParseTime(timeStr) <= MaxMuteSeconds
             && (members[author].id != ownerId ==> members[target.value].topRole < members[author].topRole))
            ==> r.None?
  {
    if target.None? then Some(NoMember)
    else if timeStr == [] then Some(NoDuration)
    else if members[target.value].topRole >= members[author].topRole && members[author].id != ownerId then
      Some(TargetOutranksAuthor)
    else if members[target.value].id == botId then Some(CannotMuteSelf)
    else if !(0 < ParseTime(timeStr) <= MaxMuteSeconds) then Some(InvalidDuration)
    else None
  }

  /** A duration string without any `<digits><unit>` token (such as "0m"'s zero, or "abc") never gets past the guards. */
  lemma NoTokensRejected(members: seq<Member>, ownerId: int, botId: int, author: nat, target: Option<nat>,
                         timeStr: string)
    requires author < |members| && (target.Some? ==> target.value < |members|)
    requires FindAll(Lower(timeStr)) == []
    ensures Precheck(members, ownerId, botId, author, target, timeStr).Some?
  {
  }

  lemma ZeroMinutesRejected(members: seq<Member>, ownerId: int, botId: int, author: nat, target: Option<nat>)
    requires author < |members| && (target.Some? ==> target.value < |members|)
    ensures Precheck(members, ownerId, botId, author, target, "0m").Some?
  {
    assert "0m" == "0" + ['m'];
    SingleToken("0", 'm');
  }

  /** The guild owner may mute a member of any rank: the rank guard only constrains other authors. */
  lemma OwnerSkipsRankGuard(members: seq<Member>, ownerId: int, botId: int, author: nat, target: Option<nat>,
                            timeStr: string)
    requires author < |members| && (target.Some? ==> target.value < |members|)
    requires members[author].id == ownerId
    ensures Precheck(members, ownerId, botId, author, target, timeStr) != Some(TargetOutranksAuthor)
  {
  }

  /** What the SDK calls of one `mute` run do, beyond the role grant the model tracks. */
  datatype MuteEffects = MuteEffects(
    newRoleId: int,        // the id `create_role` gives a new Muted role
    create: Call,          // `create_role`
    createOverwrites: Call, // the overwrite loop right after creating the role
    muteOverwrites: Call   // the overwrite loop after the role is granted
  )

  function ReplyFor(c: Call, forbidden: MuteReply, other: MuteReply): MuteReply
  {
    if c == RaisesForbidden then forbidden else other
  }

  /** The id of the role `mute` grants: the first role named Muted, or the one it creates. */
  function MutedRoleId(roles: seq<Role>, fx: MuteEffects): int
  {
    var found := RoleNamed(roles, MutedRoleName);
    if found.Some? then found.value.id else fx.newRoleId
  }

  /** `mute`: `target` and `author` are positions in `g.members`; `now` is the clock in whole seconds. */
  method Mute(g: Guild, store: MuteStore, author: nat, target: Option<nat>, timeStr: string, now: int,
              fx: MuteEffects) returns (reply: MuteReply)
    requires author < |g.members| && (target.Some? ==> target.value < |g.members|)
    modifies g`roles, g`members, store
    // the guards, in order, before anything changes
    ensures var pre := Precheck(old(g.members), g.ownerId, g.botId, author, target, timeStr);
            pre.Some? ==>
              reply == pre.value && g.roles == old(g.roles) && g.members == old(g.members) &&
              store.records == old(store.records)
    // a missing Muted role is created; when creating it, or its overwrite loop, raises, the command stops there
    ensures var pre := Precheck(old(g.members), g.ownerId, g.botId, author, target, timeStr);
            var found := RoleNamed(old(g.roles), MutedRoleName);
            var created := old(g.roles) + [Role(fx.newRoleId, MutedRoleName)];
            pre.None? && found.None? ==>
              if fx.create != Succeeds then
                reply == ReplyFor(fx.create, CreateRoleForbidden, CreateRoleFailed) &&
                g.roles == old(g.roles) && g.members == old(g.members) && store.records == old(store.records)
              else if fx.createOverwrites != Succeeds then
                reply == ReplyFor(fx.createOverwrites, CreateRoleForbidden, CreateRoleFailed) &&
                g.roles == created && g.members == old(g.members) && store.records == old(store.records)
              else g.roles == created
    ensures var found := RoleNamed(old(g.roles), MutedRoleName);
            found.Some? ==> g.roles == old(g.roles)
    // past the guards with a Muted role: the role hierarchy check, the grant, the overwrite loop, then the record
    ensures var pre := Precheck(old(g.members), g.ownerId, g.botId, author, target, timeStr);
            var haveRole := RoleNamed(old(g.roles), MutedRoleName).Some? ||
                            (fx.create == Succeeds && fx.createOverwrites == Succeeds);
            var rid := MutedRoleId(old(g.roles), fx);
            pre.None? && haveRole ==>
              var m := old(g.members)[target.value];
              var granted := old(g.members)[target.value := WithRole(m, rid)];
              if g.botTopRole <= m.topRole then
                reply == BotOutranked && g.members == old(g.members) && store.records == old(store.records)
              else if !g.IsAssignable(rid) then
                reply == MuteForbidden && g.members == old(g.members) && store.records == old(store.records)
              else if fx.muteOverwrites != Succeeds then
                reply == ReplyFor(fx.muteOverwrites, MuteForbidden, MuteFailed) &&
                g.members == granted && store.records == old(store.records)
              else
                reply == MutedFor(ParseTime(timeStr)) && g.members == granted &&
                store.records == old(store.records) + [MuteRecord(m.id, g.id, now + ParseTime(timeStr))]
    // a failing overwrite loop after the grant leaves the target muted with no record, so no pass ever lifts it
    ensures reply in {MuteForbidden, MuteFailed} && g.members != old(g.members) ==>
              && target.Some?
              && MutedRoleId(old(g.roles), fx) in g.members[target.value].roles
              && store.records == old(store.records)
    // a record is stored exactly when the mute went through, and then it is the only change to the store
    ensures reply.MutedFor? <==> store.records != old(store.records)
    ensures reply.MutedFor? ==>
              && target.Some?
              && reply.seconds == ParseTime(timeStr)
              && 0 < reply.seconds <= MaxMuteSeconds
              && store.records == old(store.records) +
                                  [MuteRecord(old(g.members)[target.value].id, g.id, now + reply.seconds)]
  {
    var pre := Precheck(g.members, g.ownerId, g.botId, author, target, timeStr);
    if pre.Some? {
      return pre.value;
    }
    var t := target.value;
    var seconds := ParseTime(timeStr);
    var muted := RoleNamed(g.roles, MutedRoleName);
    var mutedId: int;
    if muted.None? {
      if fx.create != Succeeds {
        return ReplyFor(fx.create, CreateRoleForbidden, CreateRoleFailed);
      }
      g.CreateRole(MutedRoleName, fx.newRoleId);
      if fx.createOverwrites != Succeeds {
        return ReplyFor(fx.createOverwrites, CreateRoleForbidden, CreateRoleFailed);
      }
      mutedId := fx.newRoleId;
    } else {
      mutedId := muted.value.id;
    }
    if g.botTopRole <= g.members[t].topRole {
      return BotOutranked;
    }
    var ok := g.AddRole(t, mutedId);
    if !ok {
      return MuteForbidden;
    }
    if fx.muteOverwrites != Succeeds {
      return ReplyFor(fx.muteOverwrites, MuteForbidden, MuteFailed);
    }
    store.AddMute(g.members[t].id, g.id, now + seconds);
    reply := MutedFor(seconds);
  }

  datatype UnmuteReply = NoMemberToUnmute | Unmuted | UnmuteForbidden | NotMuted

  /**
   * `unmute`: take the Muted role from the target and forget the target's
   * mute records. A target without the role (or a guild without one) is told
   * it is not muted, and its records are forgotten all the same; a Forbidden
   * removal keeps both the role and the records.
   */
  method Unmute(g: Guild, store: MuteStore, target: Option<nat>) returns (reply: UnmuteReply)
    requires target.Some? ==> target.value < |g.members|
    modifies g`members, store
    ensures target.None? ==> reply == NoMemberToUnmute && g.members == old(g.members) && store.records == old(store.records)
    ensures target.Some? ==>
              var m := old(g.members)[target.value];
              var muted := RoleNamed(g.roles, MutedRoleName);
              if muted.Some? && muted.value.id in m.roles then
                if g.IsAssignable(muted.value.id) then
                  && reply == Unmuted
                  && g.members == old(g.members)[target.value := WithoutRole(m, muted.value.id)]
                  && store.records == Drop(old(store.records), {m.id})
                else
                  reply == UnmuteForbidden && g.members == old(g.members) && store.records == old(store.records)
              else
                reply == NotMuted && g.members == old(g.members) && store.records == Drop(old(store.records), {m.id})
    // whenever the command reports success either way, the target holds no Muted role and has no record left
    ensures reply in {Unmuted, NotMuted} ==>
              && target.Some?
              && (RoleNamed(g.roles, MutedRoleName).Some? ==>
                    RoleNamed(g.roles, MutedRoleName).value.id !in g.members[target.value].roles)
              && forall x :: x in store.records ==> x.userId != g.members[target.value].id
  {
    if target.None? {
      return NoMemberToUnmute;
    }
    var t := target.value;
    var muted := RoleNamed(g.roles, MutedRoleName);
    if muted.Some? && muted.value.id in g.members[t].roles {
      var ok := g.RemoveRole(t, muted.value.id);
      if !ok {
        return UnmuteForbidden;
      }
      store.RemoveMute(g.members[t].id);
      reply := Unmuted;
    } else {
      store.RemoveMute(g.members[t].id);
      reply := NotMuted;
    }
  }

  /** The users a `check_mutes` pass over `rs` releases: expired records whose guild the client knows. */
  function ExpiredUsers(rs: seq<MuteRecord>, known: set<int>, now: int): set<int>
  {
    if rs == [] then {}
    else
      var last := rs[|rs| - 1];
      ExpiredUsers(rs[..|rs| - 1], known, now) + if now >= last.endTime && last.guildId in known then {last.userId} else {}
  }

  /** The users of one guild whose expired records `rs` holds. */
  function ExpiredIn(rs: seq<MuteRecord>, guildId: int, now: int): set<int>
  {
    if rs == [] then {}
    else
      var last := rs[|rs| - 1];
      ExpiredIn(rs[..|rs| - 1], guildId, now) + if now >= last.endTime && last.guildId == guildId then {last.userId} else {}
  }

  /**
   * The members of a guild after the Muted role `muted` has been taken from
   * every member in `users`; when there is no such role, or the bot may not
   * edit it, nothing changes.
   */
  function Released(members: seq<Member>, muted: Option<Role>, unassignable: set<int>, users: set<int>): (r: seq<Member>)
    ensures |r| == |members| && forall k :: 0 <= k < |r| ==> r[k].id == members[k].id
  {
    if muted.None? || muted.value.id in unassignable then members
    else seq(|members|, k requires 0 <= k < |members| =>
               if members[k].id in users then WithoutRole(members[k], muted.value.id) else members[k])
  }

  lemma {:induction false} DropDrop(rs: seq<MuteRecord>, a: set<int>, b: set<int>)
    ensures Drop(Drop(rs, a), b) == Drop(rs, a + b)
  {
    if rs != [] {
      DropDrop(rs[1..], a, b);
      var head := if rs[0].userId in a then [] else [rs[0]];
      assert Drop(rs, a) == head + Drop(rs[1..], a);
      DropAppend(head, Drop(rs[1..], a), b);
    }
  }

  lemma {:induction false} DropAppend(x: seq<MuteRecord>, y: seq<MuteRecord>, users: set<int>)
    ensures Drop(x + y, users) == Drop(x, users) + Drop(y, users)
  {
    if x == [] {
      assert x + y == y;
    } else {
      assert (x + y)[0] == x[0];
      assert (x + y)[1..] == x[1..] + y;
      DropAppend(x[1..], y, users);
    }
  }

  lemma DropNone(rs: seq<MuteRecord>)
    ensures Drop(rs, {}) == rs
  {
  }

  lemma ReleasedNone(members: seq<Member>, muted: Option<Role>, unassignable: set<int>)
    ensures Released(members, muted, unassignable, {}) == members
  {
  }

  /** Taking the role from one more user, by position, extends the released set by that user. */
  lemma ReleaseOne(members: seq<Member>, muted: Role, unassignable: set<int>, users: set<int>, i: nat)
    requires DistinctIds(members) && i < |members| && muted.id !in unassignable
    ensures Released(members, Some(muted), unassignable, users)[i := WithoutRole(Released(members, Some(muted), unassignable, users)[i], muted.id)]
            == Released(members, Some(muted), unassignable, users + {members[i].id})
  {
    var before := Released(members, Some(muted), unassignable, users);
    var after := Released(members, Some(muted), unassignable, users + {members[i].id});
    forall k | 0 <= k < |members|
      ensures before[i := WithoutRole(before[i], muted.id)][k] == after[k]
    {
      if k != i {
        assert members[k].id != members[i].id by {
          if k < i { assert DistinctIds(members); } else { assert DistinctIds(members); }
        }
      }
    }
  }

  lemma ReleaseAbsent(members: seq<Member>, muted: Option<Role>, unassignable: set<int>, users: set<int>, u: int)
    requires forall k :: 0 <= k < |members| ==> members[k].id != u
    ensures Released(members, muted, unassignable, users + {u}) == Released(members, muted, unassignable, users)
  {
  }

  /**
   * The member side of one expired record whose guild is known: take the
   * Muted role from the member when both exist; a failing `remove_roles` is
   * logged and ignored.
   */
  method LiftMute(g: Guild, ghost base: seq<Member>, ghost users: set<int>, userId: int)
    requires DistinctIds(base)
    requires g.members == Released(base, RoleNamed(g.roles, MutedRoleName), g.unassignable, users)
    modifies g`members
    ensures g.members == Released(base, RoleNamed(g.roles, MutedRoleName), g.unassignable, users + {userId})
  {
    var idx := MemberIndex(g.members, userId);
    if idx.Some? {
      var muted := RoleNamed(g.roles, MutedRoleName);
      if muted.Some? {
        var _ := g.RemoveRole(idx.value, muted.value.id);
        if muted.value.id !in g.unassignable {
          ReleaseOne(base, muted.value, g.unassignable, users, idx.value);
        }
      } else {
        assert Released(base, muted, g.unassignable, users + {userId}) == base;
      }
    } else {
      ReleaseAbsent(base, RoleNamed(g.roles, MutedRoleName), g.unassignable, users, userId);
    }
  }

  lemma ExpiredStep(prefix: seq<MuteRecord>, m: MuteRecord, known: set<int>, now: int)
    ensures ExpiredUsers(prefix + [m], known, now) ==
            ExpiredUsers(prefix, known, now) + if now >= m.endTime && m.guildId in known then {m.userId} else {}
    ensures forall gid :: (ExpiredIn(prefix + [m], gid, now) ==
                           ExpiredIn(prefix, gid, now) + if now >= m.endTime && m.guildId == gid then {m.userId} else {})
  {
    assert (prefix + [m])[..|prefix|] == prefix;
  }

  /** What one `check_mutes` pass has done after the records `prefix` of the snapshot `mutes`. */
  ghost predicate PassReflects(store: MuteStore, guilds: map<int, Guild>, base: map<int, seq<Member>>,
                               roles: map<int, seq<Role>>, mutes: seq<MuteRecord>, prefix: seq<MuteRecord>, now: int)
    reads store, guilds.Values
  {
    && store.records == Drop(mutes, ExpiredUsers(prefix, guilds.Keys, now))
    && forall gid :: gid in guilds ==>
         && gid in base && gid in roles
         && guilds[gid].id == gid
         && guilds[gid].roles == roles[gid]
         && DistinctIds(base[gid])
         && guilds[gid].members == Released(base[gid], RoleNamed(guilds[gid].roles, MutedRoleName),
                                            guilds[gid].unassignable, ExpiredIn(prefix, gid, now))
  }

  /** An expired record of a guild the client knows: lift the mute and forget the user's records. */
  method ExpireMute(store: MuteStore, guilds: map<int, Guild>, g: Guild, ghost base: map<int, seq<Member>>, ghost roles: map<int, seq<Role>>,
                    ghost mutes: seq<MuteRecord>, ghost prefix: seq<MuteRecord>, mute: MuteRecord, now: int)
    requires now >= mute.endTime && mute.guildId in guilds && guilds[mute.guildId] == g
    requires PassReflects(store, guilds, base, roles, mutes, prefix, now)
    modifies store, g`members
    ensures PassReflects(store, guilds, base, roles, mutes, prefix + [mute], now)
  {
    ExpiredStep(prefix, mute, guilds.Keys, now);
    ghost var released := ExpiredIn(prefix, g.id, now);
    assert ExpiredIn(prefix + [mute], g.id, now) == released + {mute.userId};
    LiftMute(g, base[g.id], released, mute.userId);
    DropDrop(mutes, ExpiredUsers(prefix, guilds.Keys, now), {mute.userId});
    store.RemoveMute(mute.userId);
    assert store.records == Drop(mutes, ExpiredUsers(prefix + [mute], guilds.Keys, now));
    forall gid | gid in guilds
      ensures && guilds[gid].roles == roles[gid]
              && guilds[gid].members == Released(base[gid], RoleNamed(guilds[gid].roles, MutedRoleName),
                                                 guilds[gid].unassignable, ExpiredIn(prefix + [mute], gid, now))
    {
      if gid != g.id {
        assert guilds[gid] != g;
        assert ExpiredIn(prefix + [mute], gid, now) == ExpiredIn(prefix, gid, now);
      }
    }
  }

  /** A record that has not expired, or whose guild the client does not know, is passed over. */
  lemma SkipMute(store: MuteStore, guilds: map<int, Guild>, base: map<int, seq<Member>>, roles: map<int, seq<Role>>,
                 mutes: seq<MuteRecord>, prefix: seq<MuteRecord>, mute: MuteRecord, now: int)
    requires !(now >= mute.endTime && mute.guildId in guilds)
    requires PassReflects(store, guilds, base, roles, mutes, prefix, now)
    ensures PassReflects(store, guilds, base, roles, mutes, prefix + [mute], now)
  {
    ExpiredStep(prefix, mute, guilds.Keys, now);
    assert ExpiredUsers(prefix + [mute], guilds.Keys, now) == ExpiredUsers(prefix, guilds.Keys, now);
    forall gid | gid in guilds
      ensures ExpiredIn(prefix + [mute], gid, now) == ExpiredIn(prefix, gid, now)
    {
    }
  }

  /** The body of the `check_mutes` loop, for the record at position `i` of the snapshot. */
  method CheckMute(store: MuteStore, guilds: map<int, Guild>, ghost base: map<int, seq<Member>>, ghost roles: map<int, seq<Role>>,
                   mutes: seq<MuteRecord>, i: nat, now: int)
    requires i < |mutes|
    requires PassReflects(store, guilds, base, roles, mutes, mutes[..i], now)
    modifies store, guilds.Values
    ensures PassReflects(store, guilds, base, roles, mutes, mutes[..i + 1], now)
  {
    var mute := mutes[i];
    assert mutes[..i + 1] == mutes[..i] + [mute];
    if now >= mute.endTime && mute.guildId in guilds {
      ExpireMute(store, guilds, guilds[mute.guildId], base, roles, mutes, mutes[..i], mute, now);
    } else {
      SkipMute(store, guilds, base, roles, mutes, mutes[..i], mute, now);
    }
  }

  /** Before the first record nothing has been done. */
  lemma PassStarts(store: MuteStore, guilds: map<int, Guild>, base: map<int, seq<Member>>, roles: map<int, seq<Role>>,
                   now: int)
    requires forall gid :: gid in guilds ==> gid in base && gid in roles && guilds[gid].id == gid
    requires forall gid :: gid in guilds ==> guilds[gid].members == base[gid] && guilds[gid].roles == roles[gid]
    requires forall gid :: gid in guilds ==> DistinctIds(base[gid])
    ensures PassReflects(store, guilds, base, roles, store.records, [], now)
  {
    DropNone(store.records);
    forall gid | gid in guilds
      ensures guilds[gid].members == Released(base[gid], RoleNamed(guilds[gid].roles, MutedRoleName),
                                              guilds[gid].unassignable, ExpiredIn([], gid, now))
    {
      ReleasedNone(base[gid], RoleNamed(guilds[gid].roles, MutedRoleName), guilds[gid].unassignable);
    }
  }

  /**
   * `check_mutes`: one pass over a snapshot of the store. `guilds` is what
   * `client.get_guild` resolves, keyed by guild id.
   */
  method CheckMutes(store: MuteStore, guilds: map<int, Guild>, now: int)
    requires forall gid :: gid in guilds ==> guilds[gid].id == gid && guilds[gid].Valid()
    modifies store, guilds.Values
    ensures store.records == AfterPass(old(store.records), guilds.Keys, now)
    ensures forall gid :: gid in guilds ==> guilds[gid].roles == old(guilds[gid].roles)
    ensures forall gid :: gid in guilds ==>
              guilds[gid].members == Released(old(guilds[gid].members), RoleNamed(old(guilds[gid].roles), MutedRoleName),
                                              guilds[gid].unassignable, ExpiredIn(old(store.records), gid, now))
  {
    var mutes := store.records;
    ghost var base := map gid | gid in guilds :: guilds[gid].members;
    ghost var roles := map gid | gid in guilds :: guilds[gid].roles;
    assert forall gid :: gid in guilds ==>
             base[gid] == old(guilds[gid].members) && roles[gid] == old(guilds[gid].roles);
    PassStarts(store, guilds, base, roles, now);
    var i := 0;
    assert mutes[..0] == [];
    while i < |mutes|
      invariant 0 <= i <= |mutes|
      invariant PassReflects(store, guilds, base, roles, mutes, mutes[..i], now)
    {
      CheckMute(store, guilds, base, roles, mutes, i, now);
      i := i + 1;
    }
    assert mutes[..i] == mutes;
    PassEnds(store, guilds, base, roles, mutes, now);
  }

  /** At the end of the snapshot the pass has released every expired record and nothing else. */
  lemma PassEnds(store: MuteStore, guilds: map<int, Guild>, base: map<int, seq<Member>>,
                 roles: map<int, seq<Role>>, mutes: seq<MuteRecord>, now: int)
    requires PassReflects(store, guilds, base, roles, mutes, mutes, now)
    ensures store.records == AfterPass(mutes, guilds.Keys, now)
    ensures forall gid :: gid in guilds ==> gid in base && gid in roles && guilds[gid].roles == roles[gid]
    ensures forall gid :: gid in guilds ==>
              guilds[gid].members == Released(base[gid], RoleNamed(roles[gid], MutedRoleName),
                                              guilds[gid].unassignable, ExpiredIn(mutes, gid, now))
  {
  }

  /** A user is released exactly when one of its records has expired in a guild the client knows. */
  lemma {:induction false} ExpiredUsersExact(rs: seq<MuteRecord>, known: set<int>, now: int, u: int)
    ensures u in ExpiredUsers(rs, known, now) <==>
            exists x :: x in rs && x.userId == u && now >= x.endTime && x.guildId in known
  {
    if rs != [] {
      var init := rs[..|rs| - 1];
      ExpiredUsersExact(init, known, now, u);
      assert rs == init + [rs[|rs| - 1]];
      assert forall x :: x in rs <==> x in init || x == rs[|rs| - 1];
    }
  }

  /** The members of a guild a pass releases are the users with an expired record of that guild. */
  lemma {:induction false} ExpiredInExact(rs: seq<MuteRecord>, guildId: int, now: int, u: int)
    ensures u in ExpiredIn(rs, guildId, now) <==>
            exists x :: x in rs && x.userId == u && now >= x.endTime && x.guildId == guildId
  {
    if rs != [] {
      var init := rs[..|rs| - 1];
      ExpiredInExact(init, guildId, now, u);
      assert rs == init + [rs[|rs| - 1]];
      assert forall x :: x in rs <==> x in init || x == rs[|rs| - 1];
    }
  }

  /** The store a `check_mutes` pass over `rs` leaves behind. */
  function AfterPass(rs: seq<MuteRecord>, known: set<int>, now: int): (r: seq<MuteRecord>)
    ensures |r| <= |rs|
  {
    Drop(rs, ExpiredUsers(rs, known, now))
  }

  /** An expired record of a known guild does not survive the pass. */
  lemma ExpiredRecordRemoved(rs: seq<MuteRecord>, known: set<int>, now: int, x: MuteRecord)
    requires x in rs && now >= x.endTime && x.guildId in known
    ensures x !in AfterPass(rs, known, now)
  {
    ExpiredUsersExact(rs, known, now, x.userId);
  }

  /**
   * A record survives exactly when no record of the same user has expired in
   * a known guild. As `remove_mute` is keyed by the user, a user's pending
   * mute in one guild is forgotten when its mute in another guild expires.
   */
  lemma SurvivesExactly(rs: seq<MuteRecord>, known: set<int>, now: int, x: MuteRecord)
    requires x in rs
    ensures x in AfterPass(rs, known, now) <==>
            forall y :: y in rs && y.userId == x.userId ==> now < y.endTime || y.guildId !in known
  {
    ExpiredUsersExact(rs, known, now, x.userId);
  }

  /** Records whose guild the client does not resolve linger, however old, unless the same user expires elsewhere. */
  lemma UnknownGuildLingers(rs: seq<MuteRecord>, known: set<int>, now: int, x: MuteRecord)
    requires x in rs && x.guildId !in known
    requires forall y :: y in rs && y.userId == x.userId ==> y.guildId !in known
    ensures x in AfterPass(rs, known, now)
  {
    SurvivesExactly(rs, known, now, x);
  }

  /** A second pass at the same time changes nothing: the first left no expired record of a known guild. */
  lemma SecondPassIdle(rs: seq<MuteRecord>, known: set<int>, now: int)
    ensures AfterPass(AfterPass(rs, known, now), known, now) == AfterPass(rs, known, now)
  {
    var r := AfterPass(rs, known, now);
    assert ExpiredUsers(r, known, now) == {} by {
      forall u | u in ExpiredUsers(r, known, now)
        ensures false
      {
        ExpiredUsersExact(r, known, now, u);
        var x :| x in r && x.userId == u && now >= x.endTime && x.guildId in known;
        ExpiredRecordRemoved(rs, known, now, x);
      }
    }
    DropNone(r);
  }
}
