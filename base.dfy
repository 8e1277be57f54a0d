/**
 * The base cog: the presence rotation every five hours, and the events of
 * joining and leaving a guild (the server record, the welcome DMs to the
 * administrators, the welcome post in one channel).
 */
module Base {
  import opened Wrappers
  import opened Guilds
  import opened ServerDb
  import opened Calls

  /** The statuses `itertools.cycle` goes round, in order. */
  const Statuses: seq<string> :=
    ["with the PRIDE of PESU", "with lives", "with your future", "with PESsants", "with PESts"]

  /** The status the `k`-th run of the loop shows, counting from 1. */
  function StatusOfRun(k: nat): (s: string)
    requires k >= 1
    ensures s in Statuses
  {
    Statuses[(k - 1) % |Statuses|]
  }

  /** The rotation has period five and follows the list order. */
  lemma StatusRotationOrder(k: nat)
    requires k >= 1
    ensures StatusOfRun(k + 5) == StatusOfRun(k)
    ensures k <= 5 ==> StatusOfRun(k) == Statuses[k - 1]
  {
    assert (k + 5 - 1) % 5 == (k - 1) % 5;
  }

  /** The position of the `cycle` iterator, and (as ghost state) how many runs it has served. */
  class StatusRotation {
    var next: nat
    ghost var runs: nat

    ghost predicate Valid()
      reads this
    {
      next == runs % |Statuses|
    }

    constructor ()
      ensures Valid() && runs == 0
    {
      next := 0;
      runs := 0;
    }

    /** One run of `change_status_loop`: `next(self.statuses)` becomes the presence. */
    method ChangeStatus() returns (shown: string)
      requires Valid()
      modifies this
      ensures Valid() && runs == old(runs) + 1
      ensures shown == StatusOfRun(runs)
    {
      shown := Statuses[next];
      next := (next + 1) % |Statuses|;
      runs := runs + 1;
    }
  }

  /** The ids of the members with the administrator permission, in member order. */
  function AdminIds(members: seq<Member>): (r: seq<int>)
    ensures forall x :: x in r <==> exists k :: 0 <= k < |members| && members[k].isAdmin && members[k].id == x
  {
    if members == [] then []
    else
      var last := members[|members| - 1];
      var r := AdminIds(members[..|members| - 1]) + if last.isAdmin then [last.id] else [];
      assert forall k :: 0 <= k < |members| - 1 ==> members[..|members| - 1][k] == members[k];
      r
  }

  /** The position of the first text channel the bot may send to. */
  function FirstSendable(channels: seq<TextChannel>): (r: Option<nat>)
    ensures r.None? <==> forall k :: 0 <= k < |channels| ==> !channels[k].botCanSend
    ensures r.Some? ==> r.value < |channels| && channels[r.value].botCanSend &&
                        forall k :: 0 <= k < r.value ==> !channels[k].botCanSend
  {
    if channels == [] then None
    else if channels[0].botCanSend then Some(0)
    else
      var r := FirstSendable(channels[1..]);
      if r.Some? then Some(r.value + 1) else None
  }

  /** One more member: an administrator adds its id, anyone else nothing. */
  lemma AdminIdsStep(members: seq<Member>, i: nat)
    requires i < |members|
    ensures members[i].isAdmin ==> AdminIds(members[..i + 1]) == AdminIds(members[..i]) + [members[i].id]
    ensures !members[i].isAdmin ==> AdminIds(members[..i + 1]) == AdminIds(members[..i])
  {
    assert members[..i + 1][..i] == members[..i];
    assert AdminIds(members[..i]) + [] == AdminIds(members[..i]);
  }

  lemma {:induction false} AdminIdsAppend(a: seq<Member>, b: seq<Member>)
    ensures AdminIds(a + b) == AdminIds(a) + AdminIds(b)
    decreases |b|
  {
    if b == [] {
      assert a + b == a;
    } else {
      var b0 := b[..|b| - 1];
      AdminIdsAppend(a, b0);
      assert (a + b)[..|a + b| - 1] == a + b0;
      assert (a + b)[|a + b| - 1] == b[|b| - 1];
    }
  }

  /**
   * `on_guild_join`: adds the guild's server record, then DMs every
   * administrator in member order (`dms`, the DMs that were delivered) and
   * posts in the first text channel the bot may send to (`posted`, the
   * channel id of a delivered post). A DM to a member in `closedDms` raises,
   * and so does the post when `postRaises`; a raise ends the handler
   * (`raised`), so nothing after it is sent.
   */
  method OnGuildJoin(g: Guild, store: ServerStore, closedDms: set<int>, postRaises: bool)
    returns (dms: seq<int>, posted: Option<int>, raised: bool)
    modifies store
    ensures store.records == old(store.records) + [ServerRecord(g.id, NullRole)]
    ensures dms == Run(AdminIds(g.members), closedDms)
    ensures var first := FirstSendable(g.textChannels);
            var dmRaised := Raises(AdminIds(g.members), closedDms);
            && posted == (if !dmRaised && first.Some? && !postRaises then Some(g.textChannels[first.value].id) else None)
            && raised == (dmRaised || (first.Some? && postRaises))
  {
    store.AddServer(g.id);
    dms := [];
    raised := false;
    var i := 0;
    while i < |g.members| && !raised
      invariant 0 <= i <= |g.members|
      invariant dms == Run(AdminIds(g.members[..i]), closedDms)
      invariant raised == Raises(AdminIds(g.members[..i]), closedDms)
      invariant store.records == old(store.records) + [ServerRecord(g.id, NullRole)]
    {
      AdminIdsStep(g.members, i);
      if g.members[i].isAdmin {
        RunSnoc(AdminIds(g.members[..i]), g.members[i].id, closedDms);
        if g.members[i].id in closedDms {
          raised := true;
        } else {
          dms := dms + [g.members[i].id];
        }
      }
      i := i + 1;
    }
    if raised {
      AdminIdsAppend(g.members[..i], g.members[i..]);
      assert g.members[..i] + g.members[i..] == g.members;
      RunExtends(AdminIds(g.members[..i]), AdminIds(g.members[i..]), closedDms);
      return dms, None, true;
    }
    assert g.members[..i] == g.members;
    posted := None;
    var j := 0;
    while j < |g.textChannels|
      invariant 0 <= j <= |g.textChannels|
      invariant forall k :: 0 <= k < j ==> !g.textChannels[k].botCanSend
    {
      if g.textChannels[j].botCanSend {
        if postRaises {
          raised := true;
        } else {
          posted := Some(g.textChannels[j].id);
        }
        break;
      }
      j := j + 1;
    }
  }

  /** `on_guild_remove`: deletes the guild's (first) server record. */
  method OnGuildRemove(guildId: int, store: ServerStore)
    modifies store
    ensures store.records == RemoveFirst(old(store.records), guildId)
  {
    store.RemoveServer(guildId);
  }

  /**
   * Leaving a guild undoes joining it: a guild without a record is back to
   * none, and in any case the guild has as many records as before.
   */
  lemma JoinThenLeave(rs: seq<ServerRecord>, g: int)
    ensures FirstIndex(rs, g).None? ==> RemoveFirst(rs + [ServerRecord(g, NullRole)], g) == rs
    ensures |RecordsOf(RemoveFirst(rs + [ServerRecord(g, NullRole)], g), g)| == |RecordsOf(rs, g)|
  {
    var joined := rs + [ServerRecord(g, NullRole)];
    AddServerLookup(rs, g);
    RemoveFirstRecords(joined, g, g);
    RemoveFirstAt(joined, g);
    if FirstIndex(rs, g).None? {
      assert FirstIndex(joined, g) == Some(|rs|) by {
        assert forall k :: 0 <= k < |rs| ==> joined[k] == rs[k];
      }
      assert joined[..|rs|] == rs;
    }
  }
}
