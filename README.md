# PESU authentication bot: the decision logic of its cogs, in Dafny

This project models the logic of a Discord community bot. The chat
platform, the document database and the credential web service are
abstracted as state or oracles. What is modelled:

- **Mute subsystem** (misc cog):
  - the duration parser `parse_time`;
  - the ordered guard chain of `mute`, the role grant and the stored expiry;
  - `unmute`;
  - the periodic `check_mutes` pass that lifts expired mutes.
- **Verification-role record** (moderator and database cogs):
  - `/mod setup`, `/mod remove` and `/mod update` as guarded transitions on a guild's server record;
  - the `deverify` / `reverify` passes over the guild's members;
  - the server-record collection the commands run on, with its first-match, insert-on-miss and no-upsert rules.
- **Authentication cog**:
  - `/auth`: the already-verified gate, the credential oracle, and the swap of the old role for the verification role;
  - `/anon`: the ban gate, the choice between a reply and a new post, and the confession record.
- **Developer cog**:
  - the developer check;
  - cog-name normalisation and `reload`, including a reload that raises;
  - the `/dev log` tail with Python's negative-slice meaning;
  - the framing of the `git pull` output;
  - the one-shot fetch of the log channels in `on_ready`.
- **Base cog**:
  - the five-status presence rotation;
  - the welcome messages on guild join, up to the first that raises;
  - the server record added on join and removed on leave.
- **Command-sync script**: which guild and global syncs run for `--guild`, `--global` and neither, and that the client is closed afterwards.

Files:

| file | module | models |
|---|---|---|
| `wrappers.dfy` | `Wrappers` | `Option`, and Python truthiness of an optional id |
| `calls.dfy` | `Calls` | a run of platform calls that stops at the first that raises |
| `guilds.dfy` | `Guilds` | the platform state: roles, members and role sets, text channels; a `Guild` class with `add_roles` / `remove_roles` / `create_role` |
| `digits.dfy` | `Digits` | ASCII digits, `int` of a digit run, `str` of a natural number |
| `pystr.dfy` | `PyStr` | `str.strip`, base-10 `int(s)`, `'\n'.join`, `split('\n')` |
| `duration.dfy` | `Duration` | `parse_time` |
| `mutes.dfy` | `Mutes` | the mute store, `mute`, `unmute`, `check_mutes` |
| `serverdb.dfy` | `ServerDb` | the database cog's server-record collection |
| `moderator.dfy` | `Moderator` | `/mod setup`, `/mod remove`, `/mod update` |
| `auth.dfy` | `Auth` | `/auth`, `/anon` |
| `developer.dfy` | `Developer` | the developer cog |
| `base.dfy` | `Base` | the base cog |
| `sync.dfy` | `Sync` | `sync_commands.py` |

Modelling conventions:

- Role edits are an oracle. Each guild has a set `unassignable` of role ids. Adding or removing such a role raises Forbidden, and `role.is_assignable()` is false exactly for them.
- `get_role` answering `None` makes the next attribute access raise. The model reports this as an `Error` reply, keeping whatever state the command had already changed.
- Python truthiness of an id is `Some(x) && x != 0`.
- Clocks are whole seconds passed in as `now`.
- The credential service's answer is an `Option<bool>`: `None` for a response other than 200, otherwise its `status` field.
- Members are values in the guild's `members` sequence and are addressed by position. A member's `roles` are read after each edit, as edited.
- The code calls `add_mute` for every mute, and nothing deduplicates. The model therefore appends a record per mute.
- A sequence of platform calls where any call may raise ends at the first that raises (`Calls.Run`). The DMs and the post of `on_guild_join`, the `reload_extension` calls of `reload` and the syncs of the sync script are modelled this way, with the set of calls that raise as a parameter.

## Model

| member | source | states |
|---|---|---|
| `Duration.DigitRun` | bot/cogs/misc.py:275 | the greedy `\d+`: a prefix of digits followed by a non-digit or the end |
| `Duration.FindAll` | bot/cogs/misc.py:275 | `re.findall(r'(\d+)([dhms])')`: matches do not overlap, each taking at least two characters; `FindAllAppend` and `FeedMatchesFindAll` relate it to concatenation and to the scan |
| `Duration.ParseTimeIsSum` | bot/cogs/misc.py:275-279 | the result is the weighted sum of the matches; it is 0 exactly when every match has amount 0, so the early `return 0` agrees with the sum |
| `Duration.ParseTime` | bot/cogs/misc.py:270-279 | `parse_time`: the early 0 for no match, else the weighted sum; `ParseTimeIsSum` and `ParseTimeIsScan` pin it to the sum of the matches and to an independent scan |
| `Duration.ParseTimeIsScan` | bot/cogs/misc.py:274-278 | `parse_time` equals an independent one-pass automaton over the lower-cased string: digits accumulate a run, a unit letter after a run adds run × weight, any other character drops the run |
| `Duration.ParseTimeAdditive` | bot/cogs/misc.py:275-278 | `parse_time(s + t) == parse_time(s) + parse_time(t)` when `s` is empty or does not end in a digit |
| `Duration.ParseTimeCaseInsensitive` | bot/cogs/misc.py:275 | lower-casing the input first changes nothing |
| `Duration.SingleToken` | bot/cogs/misc.py:274-278 | one digit run followed by d/h/m/s counts amount × 86400/3600/60/1 |
| `Duration.IgnoredRun` | bot/cogs/misc.py:275 | a digit run followed by any character that is not a unit letter or digit counts nothing |
| `Duration.FindAllDigits` | bot/cogs/misc.py:275-277 | a string of digits alone has no match |
| `Duration.OneHourThirtyMinutes` | bot/cogs/misc.py:270-279 | `"1h30m"` and `"1H30M"` both parse to 5400 |
| `Duration.SecondsAppend` | bot/cogs/misc.py:278 | the weighted sum of two runs of matches is the sum of their sums |
| `Duration.Seconds` | bot/cogs/misc.py:278 | the weighted sum of the matches; `SecondsAppend` shows it adds over concatenation and `ParseTimeIsSum` that it is 0 iff every amount is 0 |
| `Duration.FindAllAppend` | bot/cogs/misc.py:275 | the matches of `s + t` are those of `s` then those of `t` when `s` does not end in a digit |
| `Duration.FeedMatchesFindAll` | bot/cogs/misc.py:275-278 | the automaton's total is the start total plus the sum of the matches |
| `Mutes.Precheck` | bot/cogs/misc.py:206-227 | the guards pass iff there is a target, a non-empty duration, the target is not the bot, the duration is in (0, 14 days], and an author who is not the owner outranks the target |
| `Mutes.NoTokensRejected` | bot/cogs/misc.py:224-227 | a duration string with no `<digits><unit>` token is rejected by the guards |
| `Mutes.ZeroMinutesRejected` | bot/cogs/misc.py:224-227 | `"0m"` is rejected by the guards |
| `Mutes.OwnerSkipsRankGuard` | bot/cogs/misc.py:214-216 | the guild owner is never refused for rank |
| `Mutes.Mute` | bot/cogs/misc.py:198-268 | the guards reply in their order with no change; a missing Muted role is created, and a raising `create_role` or creation overwrite loop replies and stops (the created role stays); past them, the hierarchy check, the grant, the overwrite loop, then the record; a record `(target, guild, now + seconds)` is stored exactly when the mute succeeds; an overwrite loop raising after the grant leaves the target holding the Muted role with no record |
| `Mutes.MuteStore.AddMute` | bot/cogs/misc.py:263 | one record appended |
| `Mutes.MuteStore.RemoveMute` | bot/cogs/misc.py:196 | every record of that user is dropped, keyed by user only |
| `Mutes.Drop` | bot/cogs/misc.py:196 | a record survives exactly when its user is not among those removed |
| `Mutes.Unmute` | bot/cogs/misc.py:281-305 | no target: nothing changes; a target without the Muted role: "not muted", its records dropped; a successful removal: role removed and records dropped; a Forbidden removal: nothing changes; on either success reply the target holds no Muted role and has no record |
| `Mutes.Released` | bot/cogs/misc.py:187-195 | lifting mutes keeps each member's position and id |
| `Mutes.LiftMute` | bot/cogs/misc.py:187-195 | one expired record: the member loses the Muted role when member and role exist and the bot may edit it; otherwise no change |
| `Mutes.ExpireMute` | bot/cogs/misc.py:183-196 | an expired record of a known guild: its mute is lifted and its user's records are dropped; the pass invariant is kept |
| `Mutes.SkipMute` | bot/cogs/misc.py:183-186 | an unexpired record, or one whose guild does not resolve, changes nothing |
| `Mutes.CheckMute` | bot/cogs/misc.py:182-196 | one loop iteration keeps the pass invariant |
| `Mutes.CheckMutes` | bot/cogs/misc.py:175-196 | after one pass the store is `AfterPass` of the snapshot; each known guild's members are its old members with the Muted role taken from the users with an expired record there; roles are unchanged |
| `Mutes.AfterPass` | bot/cogs/misc.py:180-196 | the pass never adds records |
| `Mutes.ExpiredUsersExact` | bot/cogs/misc.py:183-196 | a user is released iff one of its records has expired in a guild that resolves |
| `Mutes.ExpiredUsers` | bot/cogs/misc.py:183-192 | the users one pass releases; `ExpiredUsersExact` characterises them as the users with an expired record in a resolvable guild |
| `Mutes.ExpiredInExact` | bot/cogs/misc.py:183-192 | the members of a guild a pass releases are exactly the users with an expired record of that guild |
| `Mutes.ExpiredIn` | bot/cogs/misc.py:183-192 | the members of one guild a pass releases; `ExpiredInExact` characterises them as that guild's users with an expired record |
| `Mutes.ExpiredRecordRemoved` | bot/cogs/misc.py:183-196 | every expired record of a resolvable guild is gone afterwards, whatever happened to the member or role |
| `Mutes.SurvivesExactly` | bot/cogs/misc.py:182-196 | a record survives iff no record of its user expired in a resolvable guild; unexpired records of such users are dropped too |
| `Mutes.UnknownGuildLingers` | bot/cogs/misc.py:184-186 | expired records whose guild does not resolve are kept |
| `Mutes.SecondPassIdle` | bot/cogs/misc.py:180-196 | a second pass at the same time changes nothing |
| `Mutes.DropDrop` | bot/cogs/misc.py:196 | dropping users one after another equals dropping them together |
| `Mutes.ReleaseOne` | bot/cogs/misc.py:187-192 | taking the role from one more member extends the released set by that member |
| `Guilds.RoleNamed` | bot/cogs/misc.py:230 | `discord.utils.get(roles, name=...)`: the first role of that name, or `None` iff there is none |
| `Guilds.RoleById` | bot/cogs/auth.py:161 | `guild.get_role(id)`: a role with that id, or `None` iff there is none |
| `Guilds.MemberIndex` | bot/cogs/misc.py:187 | `guild.get_member(id)`: the position of that member, or `None` iff there is none |
| `Guilds.Guild.AddRole` | bot/cogs/misc.py:252 | succeeds iff the role is assignable, adding it to that member only; member ids stay distinct |
| `Guilds.Guild.RemoveRole` | bot/cogs/misc.py:296 | succeeds iff the role is assignable, removing it from that member only |
| `Guilds.Guild.CreateRole` | bot/cogs/misc.py:233 | appends a role with the given name |
| `ServerDb.ServerStore.AddServer` | bot/cogs/db.py:17-25 | appends `{guild, None}` without checking for an existing record |
| `ServerDb.ServerStore.RemoveServer` | bot/cogs/db.py:27-31 | deletes the first record of the guild; no record, no change |
| `ServerDb.ServerStore.GetVerificationRole` | bot/cogs/db.py:33-41 | answers the first record's role, or `None` when the field is `None` or unset; a guild without a record gets a fresh one |
| `ServerDb.ServerStore.AddVerificationRole` | bot/cogs/db.py:43-47 | sets the role on the first record; no record, no change (no upsert) |
| `ServerDb.ServerStore.RemoveVerificationRole` | bot/cogs/db.py:49-53 | unsets the role field on the first record |
| `ServerDb.FirstIndex` | bot/cogs/db.py:38 | the first record of the guild, or `None` iff there is none |
| `ServerDb.Lookup` | bot/cogs/db.py:38 | the first matching record's role, `None` for `None` or unset, `None` without a record |
| `ServerDb.SetFirst` | bot/cogs/db.py:47 | `update_one`: only the first match changes; no match, no change |
| `ServerDb.RemoveFirstAt` | bot/cogs/db.py:31 | `delete_one`: the first match is cut out; no match, no change |
| `ServerDb.RemoveFirst` | bot/cogs/db.py:31 | `delete_one` removes one record when the guild has one and none otherwise; `RemoveFirstAt` shows it cuts out exactly the first match, and `RemoveFirstRecords` that no other guild is touched |
| `ServerDb.Fetched` | bot/cogs/db.py:37-41 | after the getter the guild has a record, the answer is unchanged, and at most one record was appended |
| `ServerDb.FetchedIdle` | bot/cogs/db.py:37-41 | the getter inserts at most once |
| `ServerDb.LookupAfterUnset` | bot/cogs/db.py:33-53 | after `remove_verification_role` the getter answers `None` |
| `ServerDb.LookupAfterSet` | bot/cogs/db.py:33-47 | after `add_verification_role` the getter answers the new role when the guild had a record; without one, nothing changes |
| `ServerDb.AddServerLookup` | bot/cogs/db.py:17-25 | after `add_server` the guild is found, the first record still decides, and it has one more record |
| `ServerDb.RemoveFirstRecords` | bot/cogs/db.py:27-31 | `remove_server` drops exactly the first record of the guild and none of another guild |
| `ServerDb.SetFirstOthers` | bot/cogs/db.py:43-53 | role updates leave other guilds' records unchanged |
| `ServerDb.AddServerOthers` | bot/cogs/db.py:17-25 | `add_server` leaves other guilds' records unchanged |
| `ServerDb.LookupOwnRecords` | bot/cogs/db.py:33-38 | the getter's answer depends only on that guild's records |
| `ServerDb.FetchedOthers` | bot/cogs/db.py:33-41 | the getter's insertion leaves other guilds' records unchanged |
| `ServerDb.SetFirstAllOthers` | bot/cogs/db.py:43-53 | role updates leave every other guild's records unchanged |
| `ServerDb.RemoveFirstAllOthers` | bot/cogs/db.py:27-31 | `remove_server` leaves every other guild's records unchanged |
| `Moderator.Setup` | bot/cogs/moderator.py:38-71 | a stored role: failure, only the getter's insert-on-miss touches the store; none stored: unresolvable role gives an error, a non-assignable one a failure, otherwise the guild's role becomes `role.id` and reads back; other guilds untouched |
| `Moderator.Remove` | bot/cogs/moderator.py:81-108 | a stored role: the field is unset and reads back `None`; with `deverify`, no member holds the old role and other roles are unchanged; without it no member changes; none stored: failure, no change |
| `Moderator.Update` | bot/cogs/moderator.py:120-159 | none stored: failure, no change; a non-assignable new role: failure, no change; otherwise the stored role becomes the new one and reads back; with `reverify`, members become `Reverified` |
| `Moderator.Deverify` | bot/cogs/moderator.py:97-101 | a complete pass strips the role from every member and changes nothing else; a Forbidden removal stops at the first holder before any change |
| `Moderator.Reverify` | bot/cogs/moderator.py:146-152 | a complete pass swaps the old role for the new one at every holder; a Forbidden removal stops at the first holder before any change |
| `Moderator.Stripped` | bot/cogs/moderator.py:100-101 | a member after the deverify step: same id, role set minus the old role |
| `Moderator.Deverified` | bot/cogs/moderator.py:97-101 | after deverify no member holds the role, and each keeps its other roles |
| `Moderator.Swapped` | bot/cogs/moderator.py:149-152 | a holder of the old role gets `(roles − old) ∪ new`; others are unchanged |
| `Moderator.Reverified` | bot/cogs/moderator.py:146-152 | each member is swapped individually, in place |
| `Moderator.ReverifiedHolders` | bot/cogs/moderator.py:146-152 | former holders hold the new role, and no longer the old one when the two differ; non-holders are unchanged |
| `Moderator.ReverifiedKeepsOthers` | bot/cogs/moderator.py:146-152 | roles other than the old and the new are kept |
| `Moderator.ReverifiedSameRole` | bot/cogs/moderator.py:148-152 | re-verifying to the same role changes nothing |
| `Auth.Authenticate` | bot/cogs/auth.py:153-203 | already verified: no credential check, no change; a `None` or false credential: invalid, no change; otherwise old role removed then verification role added, each Forbidden ending the command with only earlier edits applied, and a Forbidden removal replying `Error` when the verification role is missing (its handler raises again); success means roles `(roles − old) ∪ verification`, others untouched; the no-role branch is unreachable |
| `Auth.PostFor` | bot/cogs/auth.py:253-260 | a reply iff `int(msg_id)` succeeds, otherwise a new channel message |
| `Auth.DefaultPostsNew` | bot/cogs/auth.py:236-260 | the default `''` makes a new message |
| `Auth.MessageIdReplied` | bot/cogs/auth.py:255-257 | a message id written in decimal, within the digit limit, is the message replied to |
| `Auth.ConfessionLog.Confess` | bot/cogs/auth.py:235-266 | banned: rejection, nothing posted, no record; otherwise the post of `PostFor` and exactly one record with the sent message's id appended |
| `PyStr.ParseInt` | bot/cogs/auth.py:255 | `int(s)` succeeds only on a string with a digit |
| `PyStr.ParseIntRoundTrip` | bot/cogs/auth.py:255 | `int(str(n)) == n` for every integer of at most 4300 digits (beyond that `str(n)` raises too) |
| `PyStr.ParseIntNeedsDigit` | bot/cogs/auth.py:255 | a string without a digit raises ValueError |
| `PyStr.DigitsParse` | bot/cogs/auth.py:255 | a run of at most 4300 digits reads as its decimal value |
| `PyStr.DigitLimitRefused` | bot/cogs/auth.py:255 | more than 4300 digits raise ValueError, leading zeros included |
| `PyStr.SeparatorPaddingRefused` | bot/cogs/auth.py:255 | `int()` skips only space and tab to carriage return: digits after one of 0x1C-0x1F raise, although `str.strip()` removes that separator |
| `Digits.DecimalRoundTrip` | bot/cogs/auth.py:255 | reading back the digits of `str(n)` gives `n` |
| `PyStr.Strip` | bot/cogs/developer.py:78 | `str.strip()`: the result is a slice `s[i..j]` of the input with only whitespace outside it, and no whitespace at either end |
| `PyStr.SplitJoin` | bot/cogs/developer.py:82 | splitting `'\n'.join(lines)` gives the lines back when none contains a newline |
| `Developer.DeveloperCheckById` | bot/cogs/developer.py:45-48 | the check answers alike for a text context and an interaction with the same id, and adding developer ids never revokes it |
| `Developer.IsDeveloper` | bot/cogs/developer.py:45-48 | the developer check; `DeveloperCheckById` shows both invoker kinds answer alike and adding ids never revokes it |
| `Developer.NormaliseCog` | bot/cogs/developer.py:138-139 | the result starts with `cogs.`; a name that already does is kept, others get the prefix |
| `Developer.NormaliseIdempotent` | bot/cogs/developer.py:138-139 | normalising twice equals normalising once |
| `Developer.MiscNotLoaded` | bot/cogs/developer.py:138-140 | `reload misc` looks for `cogs.misc`, which the bot never loads |
| `Developer.ReloadCog` | bot/cogs/developer.py:128-156 | no name: the extensions reloaded in list order up to the first that raises, and the command's own confirmation is not sent after a raise; a known name: exactly that one, or no confirmation when it raises; an unknown name: failure, nothing reloaded |
| `Developer.SliceFrom` | bot/cogs/developer.py:172 | Python's `s[start:]`: a suffix of the length Python gives for either sign |
| `Developer.TailPositive` | bot/cogs/developer.py:172 | `logs[-lines:]` is the last `lines` lines, or all when `lines >= len` |
| `Developer.TailZero` | bot/cogs/developer.py:172 | `lines == 0` sends every line |
| `Developer.TailNegative` | bot/cogs/developer.py:172 | a negative count drops that many lines from the front |
| `Developer.Logs` | bot/cogs/developer.py:161-174 | the whole file iff no usable count |
| `Developer.GitPull` | bot/cogs/developer.py:73-83 | the output is `` "```bash\n" + join(stripped lines, "\n") + "```" ``, lines in order |
| `Developer.StripAll` | bot/cogs/developer.py:77-78 | one stripped line per line read, in order |
| `Developer.FramedLines` | bot/cogs/developer.py:82-83 | the framed text is the opener, the lines recoverable by splitting, and the closer |
| `Developer.Framed` | bot/cogs/developer.py:82-83 | the `git pull` reply text; `FramedLines` shows it is the opener, the lines recoverable by splitting, and the closer |
| `Developer.StripReadLine` | bot/cogs/developer.py:75-80 | a line read with its newline holds no newline once stripped |
| `Developer.DeveloperCog.OnReady` | bot/cogs/developer.py:27-37 | fetches only while the list is empty; a later ready event does not refetch; a failing fetch leaves the list empty |
| `Base.StatusOfRun` | bot/cogs/base.py:19-25 | each run shows one of the five statuses |
| `Base.StatusRotationOrder` | bot/cogs/base.py:19-25 | run k shows `statuses[(k-1) mod 5]`: period 5, list order |
| `Base.StatusRotation.ChangeStatus` | bot/cogs/base.py:69-75 | the k-th run shows `StatusOfRun(k)` |
| `Base.AdminIds` | bot/cogs/base.py:51-53 | the DMs go to exactly the members with administrator permission |
| `Base.FirstSendable` | bot/cogs/base.py:55-58 | the first channel the bot may send to, or none iff there is none |
| `Base.OnGuildJoin` | bot/cogs/base.py:37-58 | exactly one server record appended; DMs to the administrators in member order up to the first that raises; no post after a raising DM, otherwise at most one post, in the first sendable channel; the handler raises iff a DM or the post does |
| `Base.AdminIdsAppend` | bot/cogs/base.py:51-53 | the administrators of two runs of members are those of the first, then those of the second |
| `Base.OnGuildRemove` | bot/cogs/base.py:61-66 | the guild's first server record is removed |
| `Base.JoinThenLeave` | bot/cogs/base.py:37-66 | leaving undoes joining: the guild's record count is restored, and a guild that had no record is back to the old collection |
| `Sync.DevPlan` | sync_commands.py:53-58 | only configured guilds that resolve are synced, at most one per configured id |
| `Sync.Plan` | sync_commands.py:35-63 | the syncs each option combination attempts: none only for an unresolvable `--guild`, the global sync exactly when no `--guild` is given and then last; `GuildTakesPrecedence`, `GuildZeroIgnored`, `GlobalOnly` and `DefaultPlanShape` state each branch |
| `Calls.Run` | sync_commands.py:35-66 | the calls that complete are the prefix before the first that raises |
| `Calls.RaisesExactly` | sync_commands.py:35-66 | the run stops short iff some call raises |
| `Calls.Raises` | sync_commands.py:35-66 | some call of the run raises; `RaisesExactly` shows this holds iff a call is in the failing set |
| `Calls.RunAppend` | bot/cogs/base.py:51-58 | two batches of calls in turn: the second runs only when the first did not raise |
| `Sync.SyncCommands` | sync_commands.py:31-69 | the completed syncs are the plan run up to the first failure; the client is closed after every branch |
| `Sync.DefaultSyncs` | sync_commands.py:51-63 | the resolved developer guilds in order, then one global sync, stopping at the first that raises |
| `Sync.GuildTakesPrecedence` | sync_commands.py:36-46 | `--guild` wins over `--global`; it syncs that guild alone, or nothing when it does not resolve |
| `Sync.GuildZeroIgnored` | sync_commands.py:36 | `--guild 0` is falsy and falls through |
| `Sync.GlobalOnly` | sync_commands.py:46-49 | `--global` alone is exactly one global sync |
| `Sync.DefaultPlanShape` | sync_commands.py:51-63 | with no option: guild syncs first, for exactly the configured guilds that resolve, then exactly one global sync, last |
| `Calls.RunAll` | sync_commands.py:35-63 | with no failure every call completes |

## Left out

- Embeds, colours, message texts, logging, `Color.random` and `datetime.now` are left out. Replies are enumerations of the outcomes.
- Channel permission overwrites in `mute` are not modelled as state. The model keeps only whether each overwrite loop succeeds, raises Forbidden or raises another exception.
- `time.time()` floats are whole seconds in the model.
- `\d` matching non-ASCII digits is left out. `str.lower` is modelled on ASCII letters only.
- PyStr.ParseInt: reads ASCII digits only. Python's `int()` also accepts Unicode decimal digits and skips non-ASCII whitespace such as U+00A0 and U+3000; the model answers `None` for those strings. The digit limit is Python's default of 4300; a changed `sys.set_int_max_str_digits` is not modelled.
- PyStr.Strip: strips the ASCII whitespace characters only. Python's `str.strip()` also strips non-ASCII whitespace such as U+00A0 and U+3000.
- The order in which MongoDB's `find_one`, `update_one` and `delete_one` scan a collection is not guaranteed. The model assumes insertion order, so "the first record of a guild" is the earliest inserted one.
- Which exception a raising DM, post, reload or sync throws is not modelled. Each of them ends its handler the same way.
- Async scheduling is left out: the loop intervals (60 s, 5 h), `wait_until_ready`, and any interleaving of `check_mutes` with commands. Each handler is one atomic step.
- The HTTP credential call is an oracle `Option<bool>`. Profile fields are not modelled.
- `fetch_message` and its uncaught NotFound are left out. The id the platform gives the sent message is a parameter.
- The confession's user id is an integer in the model. The source stores `str(user.id)`.
- `add_mute`, `get_all_mutes`, `remove_mute`, `is_user_banned_from_confessions` and `add_confession` are not defined in the database cog. They are abstract stores: append, snapshot, drop every record of a user, a fixed ban set, and append.
- discord.py may serve cached, stale member role sets after a role edit. This is not modelled: roles read back as edited. With stale reads, `/mod update` with `reverify` to the same role would strip that role instead of leaving members unchanged.
- Exceptions other than Forbidden from `add_roles` / `remove_roles` are not modelled. In `mute`, other exceptions from the overwrite loops are modelled.
- `top_role` is an abstract integer rank per member, not recomputed from the role set.
- `ping`, `shutdown`, `restart`, `sync` and `sync_guild` only call the platform and are not modelled.
- `git pull`, the restart `Popen`, reading `bot.log` and YAML loading are left out. The log lines, the output lines and the resolvable channel ids are inputs.
- Byte decoding with `errors="ignore"` in `git_pull` is not modelled.
- bot/bot.py is not part of this model. Only its list of loaded extensions is used, as `Developer.LoadedExtensions`.
- The unused `confessions` dictionary of the authentication cog is not modelled.
- The commented-out earlier versions of the cogs are not modelled.
- Printed messages of the sync script are not modelled.
