/**
 * The database cog: a collection of per-guild server records, each holding
 * an optional verification role id. The model keeps the collection in
 * insertion order and has `find_one`, `update_one` and `delete_one` scan it
 * in that order; every operation acts on the first record of its guild only.
 */
module ServerDb {
  import opened Wrappers

  /**
   * The `verification_role_id` field of a record: absent after `$unset`,
   * `None` as `add_server` writes it, or a role id.
   */
  datatype RoleField = Unset | NullRole | RoleId(id: int)

  datatype ServerRecord = ServerRecord(guildId: int, role: RoleField)

  /** The position of the first record of guild `g`. */
  function FirstIndex(rs: seq<ServerRecord>, g: int): (r: Option<nat>)
    ensures r.None? <==> forall k :: 0 <= k < |rs| ==> rs[k].guildId != g
    ensures r.Some? ==> r.value < |rs| && rs[r.value].guildId == g &&
                        forall k :: 0 <= k < r.value ==> rs[k].guildId != g
  {
    if rs == [] then None
    else if rs[0].guildId == g then Some(0)
    else
      var r := FirstIndex(rs[1..], g);
      if r.Some? then Some(r.value + 1) else None
  }

  /** The role id a stored field stands for; `None` and an absent field both read as `None`. */
  function FieldValue(f: RoleField): (r: Option<int>)
    ensures r.Some? <==> f.RoleId?
  {
    if f.RoleId? then Some(f.id) else None
  }

  /** `find_one({"guild_id": g}).get("verification_role_id", None)` when a record exists. */
  function Lookup(rs: seq<ServerRecord>, g: int): (r: Option<int>)
    ensures FirstIndex(rs, g).None? ==> r.None?
    ensures FirstIndex(rs, g).Some? ==> r == FieldValue(rs[FirstIndex(rs, g).value].role)
  {
    if rs == [] then None
    else if rs[0].guildId == g then FieldValue(rs[0].role)
    else Lookup(rs[1..], g)
  }

  /** `update_one` on the first record of `g`: sets its field to `f`; no record, no change. */
  function SetFirst(rs: seq<ServerRecord>, g: int, f: RoleField): (r: seq<ServerRecord>)
    ensures FirstIndex(rs, g).None? ==> r == rs
    ensures FirstIndex(rs, g).Some? ==>
              r == rs[FirstIndex(rs, g).value := ServerRecord(g, f)]
  {
    if rs == [] then []
    else if rs[0].guildId == g then [ServerRecord(g, f)] + rs[1..]
    else [rs[0]] + SetFirst(rs[1..], g, f)
  }

  /** `delete_one` on the first record of `g`; no record, no change. */
  function RemoveFirst(rs: seq<ServerRecord>, g: int): (r: seq<ServerRecord>)
    // one record goes when the guild has one, none otherwise
    ensures |r| == |rs| - (if FirstIndex(rs, g).Some? then 1 else 0)
  {
    if rs == [] then []
    else if rs[0].guildId == g then rs[1..]
    else [rs[0]] + RemoveFirst(rs[1..], g)
  }

  /** `delete_one` cuts out exactly the first record of the guild, and changes nothing without one. */
  lemma {:induction false} RemoveFirstAt(rs: seq<ServerRecord>, g: int)
    ensures FirstIndex(rs, g).None? ==> RemoveFirst(rs, g) == rs
    ensures FirstIndex(rs, g).Some? ==>
              RemoveFirst(rs, g) == rs[..FirstIndex(rs, g).value] + rs[FirstIndex(rs, g).value + 1..]
  {
    if rs != [] && rs[0].guildId != g {
      var tail := rs[1..];
      RemoveFirstAt(tail, g);
      if FirstIndex(tail, g).Some? {
        var j := FirstIndex(tail, g).value;
        assert FirstIndex(rs, g) == Some(j + 1);
        assert rs[..j + 1] == [rs[0]] + tail[..j];
        assert rs[j + 2..] == tail[j + 1..];
      } else {
        assert rs == [rs[0]] + tail;
      }
    }
  }

  /** The records of guild `h`, in order. */
  function RecordsOf(rs: seq<ServerRecord>, h: int): (r: seq<ServerRecord>)
    ensures |r| <= |rs|
    ensures forall x :: x in r <==> x in rs && x.guildId == h
  {
    if rs == [] then []
    else (if rs[0].guildId == h then [rs[0]] else []) + RecordsOf(rs[1..], h)
  }

  class ServerStore {
    var records: seq<ServerRecord>

    constructor ()
      ensures records == []
    {
      records := [];
    }

    /** `add_server`: inserts a fresh record whether or not one exists for the guild. */
    method AddServer(g: int)
      modifies this
      ensures records == old(records) + [ServerRecord(g, NullRole)]
    {
      records := records + [ServerRecord(g, NullRole)];
    }

    /** `remove_server`: deletes the first record of the guild. */
    method RemoveServer(g: int)
      modifies this
      ensures records == RemoveFirst(old(records), g)
    {
      records := RemoveFirst(records, g);
    }

    /**
     * `get_verification_role_for_server`: the first record's role; when the
     * guild has no record, a fresh one is inserted and the answer is `None`.
     */
    method GetVerificationRole(g: int) returns (r: Option<int>)
      modifies this
      ensures r == Lookup(old(records), g)
      ensures records == Fetched(old(records), g)
    {
      var i := FirstIndex(records, g);
      if i.None? {
        AddServer(g);
        return None;
      }
      r := FieldValue(records[i.value].role);
    }

    /** `add_verification_role`: sets the role of the first record; no upsert. */
    method AddVerificationRole(g: int, role: int)
      modifies this
      ensures records == SetFirst(old(records), g, RoleId(role))
    {
      records := SetFirst(records, g, RoleId(role));
    }

    /** `remove_verification_role`: unsets the role field of the first record. */
    method RemoveVerificationRole(g: int)
      modifies this
      ensures records == SetFirst(old(records), g, Unset)
    {
      records := SetFirst(records, g, Unset);
    }
  }

  /** After `remove_verification_role` the getter answers `None`. */
  lemma LookupAfterUnset(rs: seq<ServerRecord>, g: int)
    ensures Lookup(SetFirst(rs, g, Unset), g).None?
  {
    var r := SetFirst(rs, g, Unset);
    if FirstIndex(rs, g).Some? {
      var i := FirstIndex(rs, g).value;
      assert FirstIndex(r, g) == Some(i) by {
        assert r[i].guildId == g;
        assert forall k :: 0 <= k < i ==> r[k] == rs[k];
      }
    }
  }

  /** After `add_verification_role` the getter answers the new role, provided the guild had a record. */
  lemma LookupAfterSet(rs: seq<ServerRecord>, g: int, role: int)
    ensures FirstIndex(rs, g).Some? ==> Lookup(SetFirst(rs, g, RoleId(role)), g) == Some(role)
    ensures FirstIndex(rs, g).None? ==> SetFirst(rs, g, RoleId(role)) == rs && Lookup(rs, g).None?
  {
    var r := SetFirst(rs, g, RoleId(role));
    if FirstIndex(rs, g).Some? {
      var i := FirstIndex(rs, g).value;
      assert FirstIndex(r, g) == Some(i) by {
        assert r[i].guildId == g;
        assert forall k :: 0 <= k < i ==> r[k] == rs[k];
      }
    }
  }

  /**
   * A fresh record matters only for a guild without one: with a record
   * already present the first record still decides, and the guild now has
   * one more record.
   */
  lemma AddServerLookup(rs: seq<ServerRecord>, g: int)
    ensures FirstIndex(rs + [ServerRecord(g, NullRole)], g).Some?
    ensures Lookup(rs + [ServerRecord(g, NullRole)], g) == Lookup(rs, g)
    ensures |RecordsOf(rs + [ServerRecord(g, NullRole)], g)| == |RecordsOf(rs, g)| + 1
  {
    var r := rs + [ServerRecord(g, NullRole)];
    assert r[|rs|].guildId == g;
    if FirstIndex(rs, g).Some? {
      var i := FirstIndex(rs, g).value;
      assert FirstIndex(r, g) == Some(i) by {
        assert r[i] == rs[i];
        assert forall k :: 0 <= k < i ==> r[k] == rs[k];
      }
    } else {
      assert FirstIndex(r, g) == Some(|rs|) by {
        assert forall k :: 0 <= k < |rs| ==> r[k] == rs[k];
      }
    }
    RecordsOfAppend(rs, [ServerRecord(g, NullRole)], g);
  }

  /**
   * The collection after the getter has run: a guild without a record gets
   * a fresh one, so that its record is found afterwards; the answer the
   * getter gives is not affected.
   */
  function Fetched(rs: seq<ServerRecord>, g: int): (r: seq<ServerRecord>)
    ensures FirstIndex(r, g).Some? && Lookup(r, g) == Lookup(rs, g)
    ensures |rs| <= |r| <= |rs| + 1 && r[..|rs|] == rs
  {
    AddServerLookup(rs, g);
    if FirstIndex(rs, g).None? then rs + [ServerRecord(g, NullRole)] else rs
  }

  /** The getter inserts at most once: when it runs again, the record it inserted is found. */
  lemma FetchedIdle(rs: seq<ServerRecord>, g: int)
    ensures Fetched(Fetched(rs, g), g) == Fetched(rs, g)
  {
  }

  lemma {:induction false} RecordsOfAppend(a: seq<ServerRecord>, b: seq<ServerRecord>, h: int)
    ensures RecordsOf(a + b, h) == RecordsOf(a, h) + RecordsOf(b, h)
  {
    if a == [] {
      assert a + b == b;
    } else {
      assert (a + b)[0] == a[0];
      assert (a + b)[1..] == a[1..] + b;
      RecordsOfAppend(a[1..], b, h);
    }
  }

  /** `delete_one` removes exactly one record of the guild when it has any, and none of another guild. */
  lemma {:induction false} RemoveFirstRecords(rs: seq<ServerRecord>, g: int, h: int)
    ensures h != g ==> RecordsOf(RemoveFirst(rs, g), h) == RecordsOf(rs, h)
    ensures h == g && RecordsOf(rs, g) != [] ==> RecordsOf(RemoveFirst(rs, g), g) == RecordsOf(rs, g)[1..]
    ensures h == g && RecordsOf(rs, g) == [] ==> RemoveFirst(rs, g) == rs
  {
    if rs != [] {
      RemoveFirstRecords(rs[1..], g, h);
      if rs[0].guildId != g {
        assert RemoveFirst(rs, g) == [rs[0]] + RemoveFirst(rs[1..], g);
        RecordsOfAppend([rs[0]], RemoveFirst(rs[1..], g), h);
        assert ([rs[0]] + RemoveFirst(rs[1..], g))[1..] == RemoveFirst(rs[1..], g);
      }
    }
  }

  /** `update_one` touches no record of another guild. */
  lemma {:induction false} SetFirstOthers(rs: seq<ServerRecord>, g: int, f: RoleField, h: int)
    requires h != g
    ensures RecordsOf(SetFirst(rs, g, f), h) == RecordsOf(rs, h)
  {
    if rs != [] {
      SetFirstOthers(rs[1..], g, f, h);
      if rs[0].guildId == g {
        assert SetFirst(rs, g, f) == [ServerRecord(g, f)] + rs[1..];
        assert ([ServerRecord(g, f)] + rs[1..])[1..] == rs[1..];
      } else {
        assert SetFirst(rs, g, f) == [rs[0]] + SetFirst(rs[1..], g, f);
        assert ([rs[0]] + SetFirst(rs[1..], g, f))[1..] == SetFirst(rs[1..], g, f);
      }
    }
  }

  /** A fresh record for `g` adds nothing to another guild's records. */
  lemma AddServerOthers(rs: seq<ServerRecord>, g: int, h: int)
    requires h != g
    ensures RecordsOf(rs + [ServerRecord(g, NullRole)], h) == RecordsOf(rs, h)
  {
    RecordsOfAppend(rs, [ServerRecord(g, NullRole)], h);
    assert RecordsOf([ServerRecord(g, NullRole)], h) == [];
  }

  /** What another guild's getter answers depends only on that guild's records. */
  lemma {:induction false} LookupOwnRecords(rs: seq<ServerRecord>, h: int)
    ensures Lookup(rs, h) == Lookup(RecordsOf(rs, h), h)
  {
    if rs != [] {
      LookupOwnRecords(rs[1..], h);
      if rs[0].guildId == h {
        assert RecordsOf(rs, h) == [rs[0]] + RecordsOf(rs[1..], h);
      } else {
        assert RecordsOf(rs, h) == RecordsOf(rs[1..], h);
      }
    }
  }

  /** The getter's insertion touches no record of another guild. */
  lemma FetchedOthers(rs: seq<ServerRecord>, g: int)
    ensures forall h :: h != g ==> RecordsOf(Fetched(rs, g), h) == RecordsOf(rs, h)
  {
    forall h | h != g
      ensures RecordsOf(Fetched(rs, g), h) == RecordsOf(rs, h)
    {
      AddServerOthers(rs, g, h);
    }
  }

  lemma SetFirstAllOthers(rs: seq<ServerRecord>, g: int, f: RoleField)
    ensures forall h :: h != g ==> RecordsOf(SetFirst(rs, g, f), h) == RecordsOf(rs, h)
  {
    forall h | h != g
      ensures RecordsOf(SetFirst(rs, g, f), h) == RecordsOf(rs, h)
    {
      SetFirstOthers(rs, g, f, h);
    }
  }

  lemma RemoveFirstAllOthers(rs: seq<ServerRecord>, g: int)
    ensures forall h :: h != g ==> RecordsOf(RemoveFirst(rs, g), h) == RecordsOf(rs, h)
  {
    forall h | h != g
      ensures RecordsOf(RemoveFirst(rs, g), h) == RecordsOf(rs, h)
    {
      RemoveFirstRecords(rs, g, h);
    }
  }
}
