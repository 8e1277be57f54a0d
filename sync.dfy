/**
 * The command-sync script: which guild and global syncs of the command tree
 * it makes for its `--guild` and `--global` options, and that it closes the
 * client whatever happens.
 */
module Sync {
  import opened Wrappers
  import opened Calls

  datatype SyncTarget = GuildSync(guildId: int) | GlobalSync

  /** The guild syncs of the default branch: each configured guild the client resolves, in order. */
  function DevPlan(guildIds: seq<int>, known: set<int>): (r: seq<SyncTarget>)
    ensures |r| <= |guildIds|
    ensures forall k :: 0 <= k < |r| ==> r[k].GuildSync? && r[k].guildId in known && r[k].guildId in guildIds
  {
    if guildIds == [] then []
    else
      var last := guildIds[|guildIds| - 1];
      var r := DevPlan(guildIds[..|guildIds| - 1], known) + if last in known then [GuildSync(last)] else [];
      assert forall x :: x in guildIds[..|guildIds| - 1] ==> x in guildIds;
      r
  }

  /** The syncs the script attempts when none of them raises. */
  function Plan(guildArg: Option<int>, globalFlag: bool, devGuilds: seq<int>, known: set<int>): (r: seq<SyncTarget>)
    // nothing is synced only for a `--guild` the client cannot resolve
    ensures r == [] <==> Truthy(guildArg) && guildArg.value !in known
    // the global tree is synced exactly when no `--guild` is given, and last
    ensures GlobalSync in r <==> !Truthy(guildArg)
    ensures GlobalSync in r ==> r[|r| - 1] == GlobalSync
  {
    if Truthy(guildArg) then (if guildArg.value in known then [GuildSync(guildArg.value)] else [])
    else if globalFlag then [GlobalSync]
    else DevPlan(devGuilds, known) + [GlobalSync]
  }

  /**
   * `sync_commands`: `known` is what `get_guild` resolves; a sync in
   * `failing` raises, which the script reports (`raised`) before it closes
   * the client. `synced` lists the syncs that completed, in order.
   */
  method SyncCommands(guildArg: Option<int>, globalFlag: bool, devGuilds: seq<int>, known: set<int>,
                      failing: set<SyncTarget>) returns (synced: seq<SyncTarget>, raised: bool, closed: bool)
    ensures synced == Run(Plan(guildArg, globalFlag, devGuilds, known), failing)
    ensures raised == Raises(Plan(guildArg, globalFlag, devGuilds, known), failing)
    ensures closed
  {
    synced := [];
    raised := false;
    if Truthy(guildArg) {
      if guildArg.value in known {
        if GuildSync(guildArg.value) in failing {
          raised := true;
        } else {
          synced := [GuildSync(guildArg.value)];
        }
      }
    } else if globalFlag {
      if GlobalSync in failing {
        raised := true;
      } else {
        synced := [GlobalSync];
      }
    } else {
      synced, raised := DefaultSyncs(devGuilds, known, failing);
    }
    closed := true;
  }

  /** The default branch: the developer guilds the client resolves, in order, then the global sync. */
  method DefaultSyncs(devGuilds: seq<int>, known: set<int>, failing: set<SyncTarget>)
    returns (synced: seq<SyncTarget>, raised: bool)
    ensures synced == Run(DevPlan(devGuilds, known) + [GlobalSync], failing)
    ensures raised == Raises(DevPlan(devGuilds, known) + [GlobalSync], failing)
  {
    synced := [];
    raised := false;
    var i := 0;
    while i < |devGuilds| && !raised
      invariant 0 <= i <= |devGuilds|
      invariant synced == Run(DevPlan(devGuilds[..i], known), failing)
      invariant raised == Raises(DevPlan(devGuilds[..i], known), failing)
    {
      var id := devGuilds[i];
      DevPlanStep(devGuilds, i, known, failing);
      if id in known {
        if GuildSync(id) in failing {
          raised := true;
        } else {
          synced := synced + [GuildSync(id)];
        }
      }
      i := i + 1;
    }
    if raised {
      TailRaised(devGuilds, i, known, failing);
    } else {
      assert devGuilds[..i] == devGuilds;
      TailDone(devGuilds, known, failing);
      if GlobalSync in failing {
        raised := true;
      } else {
        synced := synced + [GlobalSync];
      }
    }
  }

  /** The syncs for one more guild, when those before it did not raise. */
  lemma DevPlanStep(ids: seq<int>, i: nat, known: set<int>, failing: set<SyncTarget>)
    requires i < |ids| && !Raises(DevPlan(ids[..i], known), failing)
    ensures ids[i] !in known ==>
              Run(DevPlan(ids[..i + 1], known), failing) == Run(DevPlan(ids[..i], known), failing) &&
              !Raises(DevPlan(ids[..i + 1], known), failing)
    ensures ids[i] in known && GuildSync(ids[i]) in failing ==>
              Run(DevPlan(ids[..i + 1], known), failing) == Run(DevPlan(ids[..i], known), failing) &&
              Raises(DevPlan(ids[..i + 1], known), failing)
    ensures ids[i] in known && GuildSync(ids[i]) !in failing ==>
              Run(DevPlan(ids[..i + 1], known), failing) == Run(DevPlan(ids[..i], known), failing) + [GuildSync(ids[i])] &&
              !Raises(DevPlan(ids[..i + 1], known), failing)
  {
    assert ids[..i + 1][..i] == ids[..i];
    var prefix := DevPlan(ids[..i], known);
    var step := if ids[i] in known then [GuildSync(ids[i])] else [];
    assert DevPlan(ids[..i + 1], known) == prefix + step;
    RunAppend(prefix, step, failing);
    RunAppend(prefix, [], failing);
    assert prefix + [] == prefix;
  }

  /** The guild loop raised: the whole default plan raises at the same point. */
  lemma TailRaised(ids: seq<int>, i: nat, known: set<int>, failing: set<SyncTarget>)
    requires i <= |ids| && Raises(DevPlan(ids[..i], known), failing)
    ensures Run(DevPlan(ids, known) + [GlobalSync], failing) == Run(DevPlan(ids[..i], known), failing)
    ensures Raises(DevPlan(ids, known) + [GlobalSync], failing)
  {
    DevPlanExtends(ids, i, known, failing);
    RunAppend(DevPlan(ids, known), [GlobalSync], failing);
  }

  /** The guild loop completed: the global sync comes next, and it alone can still raise. */
  lemma TailDone(ids: seq<int>, known: set<int>, failing: set<SyncTarget>)
    requires !Raises(DevPlan(ids, known), failing)
    ensures Run(DevPlan(ids, known), failing) == DevPlan(ids, known)
    ensures Run(DevPlan(ids, known) + [GlobalSync], failing) ==
              DevPlan(ids, known) + (if GlobalSync in failing then [] else [GlobalSync])
    ensures Raises(DevPlan(ids, known) + [GlobalSync], failing) <==> GlobalSync in failing
  {
    RunAppend(DevPlan(ids, known), [GlobalSync], failing);
  }

  /** Once the syncs for a prefix of the guilds raise, the syncs for all of them raise at the same point. */
  lemma DevPlanExtends(ids: seq<int>, i: nat, known: set<int>, failing: set<SyncTarget>)
    requires i <= |ids|
    ensures Raises(DevPlan(ids[..i], known), failing) ==>
              Run(DevPlan(ids, known), failing) == Run(DevPlan(ids[..i], known), failing) &&
              Raises(DevPlan(ids, known), failing)
  {
    DevPlanAppend(ids[..i], ids[i..], known);
    assert ids[..i] + ids[i..] == ids;
    RunAppend(DevPlan(ids[..i], known), DevPlan(ids[i..], known), failing);
  }

  lemma {:induction false} DevPlanAppend(a: seq<int>, b: seq<int>, known: set<int>)
    ensures DevPlan(a + b, known) == DevPlan(a, known) + DevPlan(b, known)
    decreases |b|
  {
    if b == [] {
      assert a + b == a;
    } else {
      var b0 := b[..|b| - 1];
      DevPlanAppend(a, b0, known);
      assert (a + b)[..|a + b| - 1] == a + b0;
      assert (a + b)[|a + b| - 1] == b[|b| - 1];
    }
  }

  /** `--guild` wins over `--global`, and syncs that guild alone, or nothing when the client cannot find it. */
  lemma GuildTakesPrecedence(g: int, devGuilds: seq<int>, known: set<int>)
    requires g != 0
    ensures Plan(Some(g), true, devGuilds, known) == Plan(Some(g), false, devGuilds, known)
    ensures Plan(Some(g), true, devGuilds, known) == if g in known then [GuildSync(g)] else []
  {
  }

  /** A guild id of 0 is falsy, so `--guild 0` falls through to the other branches. */
  lemma GuildZeroIgnored(globalFlag: bool, devGuilds: seq<int>, known: set<int>)
    ensures Plan(Some(0), globalFlag, devGuilds, known) == Plan(None, globalFlag, devGuilds, known)
  {
  }

  /** `--global` alone is exactly one global sync. */
  lemma GlobalOnly(devGuilds: seq<int>, known: set<int>)
    ensures Plan(None, true, devGuilds, known) == [GlobalSync]
  {
  }

  /**
   * Without options, the resolved developer guilds are synced in list order
   * and the last sync is the one global sync.
   */
  lemma {:induction false} DefaultPlanShape(devGuilds: seq<int>, known: set<int>)
    ensures var p := Plan(None, false, devGuilds, known);
            && p[|p| - 1] == GlobalSync
            && (forall k :: 0 <= k < |p| - 1 ==> p[k].GuildSync?)
            && (forall k :: 0 <= k < |p| - 1 ==> p[k] != GlobalSync)
    ensures forall x :: GuildSync(x) in Plan(None, false, devGuilds, known) <==> x in devGuilds && x in known
  {
    DevPlanMembers(devGuilds, known);
  }

  lemma {:induction false} DevPlanMembers(ids: seq<int>, known: set<int>)
    ensures forall x :: GuildSync(x) in DevPlan(ids, known) <==> x in ids && x in known
  {
    if ids != [] {
      var init := ids[..|ids| - 1];
      DevPlanMembers(init, known);
      assert ids == init + [ids[|ids| - 1]];
    }
  }
}
