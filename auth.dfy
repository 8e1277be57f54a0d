/**
 * The authentication cog: `/auth`, which checks credentials against the
 * credential service and swaps the guild's old role for the verification
 * role, and `/anon`, which posts an anonymous message to the confession
 * channel and records who sent it.
 */
module Auth {
  import opened Wrappers
  import opened Guilds
  import opened PyStr
  import opened Digits

  /** The role `/auth` grants, and the role it takes away; both fixed in the cog. */
  const VerificationRoleId: int := 1298119735421960275
  const OldRoleId: int := 1188111493976305806

  /** The channel `/anon` posts to. */
  const ConfessionChannelId: int := 1299721480443007038

  datatype AuthReply = AlreadyVerified | InvalidCredentials | AssignForbidden | Verified | NoRoleSet | Error

  /**
   * The credential service's answer: `None` for a response other than 200,
   * otherwise the `status` field of the body.
   */
  type Credential = Option<bool>

  /**
   * `/auth`: `user` is the invoking member's position in `g.members`.
   * `consulted` tells whether the credential service was asked.
   */
  method Authenticate(g: Guild, user: nat, credential: Credential) returns (reply: AuthReply, consulted: bool)
    requires user < |g.members|
    modifies g`members
    ensures var m := old(g.members)[user];
            var verification := RoleById(g.roles, VerificationRoleId);
            var held := verification.Some? && VerificationRoleId in m.roles;
            var removed := old(g.members)[user := WithoutRole(m, OldRoleId)];
            if held then reply == AlreadyVerified && !consulted && g.members == old(g.members)
            else if credential != Some(true) then reply == InvalidCredentials && consulted && g.members == old(g.members)
            // credentials accepted: remove the old role, then add the verification role
            else if RoleById(g.roles, OldRoleId).None? then reply == Error && consulted && g.members == old(g.members)
            // the Forbidden handler mentions the verification role, which raises again when it is missing
            else if !g.IsAssignable(OldRoleId) then
              reply == (if verification.None? then Error else AssignForbidden) && consulted && g.members == old(g.members)
            else if verification.None? then reply == Error && consulted && g.members == removed
            else if !g.IsAssignable(VerificationRoleId) then reply == AssignForbidden && consulted && g.members == removed
            else reply == Verified && consulted && g.members == removed[user := WithRole(removed[user], VerificationRoleId)]
    // a verified member holds the verification role in place of the old one, and nothing else changed
    ensures reply == Verified ==>
              && g.members[user].roles == (old(g.members)[user].roles - {OldRoleId}) + {VerificationRoleId}
              && |g.members| == |old(g.members)|
              && forall k :: 0 <= k < |g.members| && k != user ==> g.members[k] == old(g.members)[k]
    // the role id is a non-zero constant, so the command never reports a missing verification role
    ensures reply != NoRoleSet
    ensures old(g.Valid()) ==> g.Valid()
  {
    consulted := false;
    if VerificationRoleId == 0 {
      // the branch that would reply NoRoleSet: the constant is never falsy
      assert false;
    }
    var verification := RoleById(g.roles, VerificationRoleId);
    if verification.Some? && verification.value.id in g.members[user].roles {
      return AlreadyVerified, false;
    }
    consulted := true;
    if credential != Some(true) {
      return InvalidCredentials, true;
    }
    var oldRole := RoleById(g.roles, OldRoleId);
    if oldRole.None? {
      return Error, true;
    }
    var ok := g.RemoveRole(user, oldRole.value.id);
    if !ok {
      return if verification.None? then Error else AssignForbidden, true;
    }
    if verification.None? {
      return Error, true;
    }
    ok := g.AddRole(user, verification.value.id);
    if !ok {
      return AssignForbidden, true;
    }
    reply := Verified;
  }

  datatype Confession = Confession(userId: int, messageId: int)

  /** Where `/anon` posts: nowhere, as a new message, or as a reply to a message of the channel. */
  datatype Post = NoPost | NewMessage(channel: int) | ReplyTo(channel: int, messageId: int)

  datatype ConfessReply = BannedFromConfessing | Submitted

  /** The post `/anon` makes for a `msg_id` option: a reply when `int(msg_id)` succeeds, a new message otherwise. */
  function PostFor(msgId: string): (p: Post)
    ensures p.NewMessage? || p.ReplyTo?
    ensures p.ReplyTo? <==> ParseInt(msgId).Some?
  {
    var target := ParseInt(msgId);
    if target.Some? then ReplyTo(ConfessionChannelId, target.value) else NewMessage(ConfessionChannelId)
  }

  /** The default `''`, and any text without a digit, makes a new message. */
  lemma DefaultPostsNew()
    ensures PostFor("") == NewMessage(ConfessionChannelId)
  {
    ParseIntNeedsDigit("");
  }

  /** A message id written out as Python writes it is the message replied to. */
  lemma MessageIdReplied(id: int)
    requires |DecimalString(if id < 0 then -id else id)| <= MaxIntDigits
    ensures PostFor(IntString(id)) == ReplyTo(ConfessionChannelId, id)
  {
    ParseIntRoundTrip(id);
  }

  /** The confession records: who may not post, and who posted which message. */
  class ConfessionLog {
    const banned: set<int>
    var confessions: seq<Confession>

    constructor (banned: set<int>)
      ensures this.banned == banned && confessions == []
    {
      this.banned := banned;
      confessions := [];
    }

    /** `/anon`: `sentId` is the id the platform gives the message once it is posted. */
    method Confess(userId: int, msgId: string, sentId: int) returns (reply: ConfessReply, post: Post)
      modifies this
      ensures userId in banned ==> reply == BannedFromConfessing && post == NoPost && confessions == old(confessions)
      ensures userId !in banned ==>
                && reply == Submitted
                && post == PostFor(msgId)
                && confessions == old(confessions) + [Confession(userId, sentId)]
    {
      if userId in banned {
        return BannedFromConfessing, NoPost;
      }
      var target := ParseInt(msgId);
      if target.Some? {
        post := ReplyTo(ConfessionChannelId, target.value);
      } else {
        post := NewMessage(ConfessionChannelId);
      }
      confessions := confessions + [Confession(userId, sentId)];
      reply := Submitted;
    }
  }
}
