/**
 * The developer cog: the permission check its commands share, `reload`,
 * `/dev log`, `/dev gitpull`, and the fetch of the log channels when the
 * client becomes ready.
 */
module Developer {
  import opened Wrappers
  import opened PyStr
  import opened Calls

  /** Who invoked a command: a text command's context, or a slash command's interaction. */
  datatype Invoker = TextContext(authorId: int) | Interaction(userId: int)

  /** `check_developer_permissions`: the invoker's id is one of the configured developer ids. */
  predicate IsDeveloper(who: Invoker, developerIds: seq<int>)
  {
    match who
    case TextContext(authorId) => authorId in developerIds
    case Interaction(userId) => userId in developerIds
  }

  /**
   * The check treats both kinds of invoker alike, and configuring more
   * developer ids never locks a developer out.
   */
  lemma DeveloperCheckById(id: int, developerIds: seq<int>, more: seq<int>)
    ensures IsDeveloper(TextContext(id), developerIds) == IsDeveloper(Interaction(id), developerIds)
    ensures forall who :: IsDeveloper(who, developerIds) ==> IsDeveloper(who, developerIds + more)
  {
  }

  const CogPrefix: string := "cogs."

  /** The extensions the bot loads at start-up (`client.extns`); the misc cog is not among them. */
  const LoadedExtensions: seq<string> := ["cogs.auth", "cogs.base", "cogs.developer", "cogs.moderator"]

  predicate StartsWith(s: string, prefix: string)
  {
    |prefix| <= |s| && s[..|prefix|] == prefix
  }

  /** The extension name `reload` looks for: `cogs.` is put in front unless the name already starts with it. */
  function NormaliseCog(name: string): (r: string)
    ensures StartsWith(r, CogPrefix)
    ensures StartsWith(name, CogPrefix) ==> r == name
    ensures !StartsWith(name, CogPrefix) ==> r == CogPrefix + name
  {
    if StartsWith(name, CogPrefix) then name else CogPrefix + name
  }

  /** Normalising a normalised name changes nothing. */
  lemma NormaliseIdempotent(name: string)
    ensures NormaliseCog(NormaliseCog(name)) == NormaliseCog(name)
  {
  }

  /** `reload misc` names an extension the bot never loaded. */
  lemma MiscNotLoaded()
    ensures NormaliseCog("misc") == "cogs.misc" && NormaliseCog("misc") !in LoadedExtensions
  {
    assert !StartsWith("misc", CogPrefix);
    assert CogPrefix + "misc" == "cogs.misc";
  }

  /** `ReloadRaised`: a `reload_extension` call raised, which ends the command before it sends its own confirmation. */
  datatype ReloadReply = AllReloaded | CogReloaded(name: string) | NoSuchCog(name: string) | ReloadRaised

  /**
   * `reload [cog]`: `reloaded` lists the `reload_extension` calls that
   * completed, in the order they are made; reloading an extension in
   * `failing` raises.
   */
  method ReloadCog(extns: seq<string>, cog: Option<string>, failing: set<string>)
    returns (reply: ReloadReply, reloaded: seq<string>)
    ensures cog.None? ==>
              && reloaded == Run(extns, failing)
              && reply == if Raises(extns, failing) then ReloadRaised else AllReloaded
    ensures cog.Some? && NormaliseCog(cog.value) in extns ==>
              if NormaliseCog(cog.value) in failing then reply == ReloadRaised && reloaded == []
              else reply == CogReloaded(NormaliseCog(cog.value)) && reloaded == [NormaliseCog(cog.value)]
    ensures cog.Some? && NormaliseCog(cog.value) !in extns ==>
              reply == NoSuchCog(NormaliseCog(cog.value)) && reloaded == []
  {
    reloaded := [];
    if cog.None? {
      var raised := false;
      var i := 0;
      while i < |extns| && !raised
        invariant 0 <= i <= |extns|
        invariant reloaded == Run(extns[..i], failing)
        invariant raised == Raises(extns[..i], failing)
      {
        assert extns[..i + 1] == extns[..i] + [extns[i]];
        RunSnoc(extns[..i], extns[i], failing);
        if extns[i] in failing {
          raised := true;
        } else {
          reloaded := reloaded + [extns[i]];
        }
        i := i + 1;
      }
      if raised {
        assert extns[..i] + extns[i..] == extns;
        RunExtends(extns[..i], extns[i..], failing);
        return ReloadRaised, reloaded;
      }
      assert extns[..i] == extns;
      return AllReloaded, reloaded;
    }
    var name := NormaliseCog(cog.value);
    if name in extns {
      if name in failing {
        reply := ReloadRaised;
      } else {
        reloaded := [name];
        reply := CogReloaded(name);
      }
    } else {
      reply := NoSuchCog(name);
    }
  }

  /** Python's `s[start:]`: the suffix that starts at `start`, counted from the end when negative. */
  function SliceFrom<T>(s: seq<T>, start: int): (r: seq<T>)
    ensures |r| <= |s| && r == s[|s| - |r|..]
    ensures start >= 0 ==> |r| == if start >= |s| then 0 else |s| - start
    ensures start < 0 ==> |r| == if -start >= |s| then |s| else -start
  {
    if start < 0 then (if |s| + start < 0 then s else s[|s| + start..])
    else if start > |s| then []
    else s[start..]
  }

  /** `logs[-lines:]` for a positive count is the last `lines` lines, or all of them when there are fewer. */
  lemma TailPositive<T>(logs: seq<T>, lines: int)
    requires lines > 0
    ensures lines <= |logs| ==> SliceFrom(logs, -lines) == logs[|logs| - lines..]
    ensures lines >= |logs| ==> SliceFrom(logs, -lines) == logs
  {
  }

  /** `logs[-0:]` is `logs[0:]`: a count of zero sends every line. */
  lemma TailZero<T>(logs: seq<T>)
    ensures SliceFrom(logs, -0) == logs
  {
  }

  /** A negative count drops that many lines from the front instead. */
  lemma TailNegative<T>(logs: seq<T>, lines: int)
    requires lines < 0
    ensures -lines <= |logs| ==> SliceFrom(logs, -lines) == logs[-lines..]
    ensures -lines >= |logs| ==> SliceFrom(logs, -lines) == []
  {
  }

  function Concat(lines: seq<string>): string
  {
    if lines == [] then "" else lines[0] + Concat(lines[1..])
  }

  datatype LogsReply = WholeFile | LogText(text: string)

  /** `/dev log [lines]`: the whole file without a count, otherwise the selected lines in a log block. */
  function Logs(logs: seq<string>, lines: Option<int>): (r: LogsReply)
    ensures lines.None? <==> r == WholeFile
  {
    if lines.None? then WholeFile
    else LogText("```log\n" + Concat(SliceFrom(logs, -lines.value)) + "```")
  }

  /** The text `/dev gitpull` reports for the output lines. */
  function Framed(lines: seq<string>): string
  {
    "```bash\n" + JoinLines(lines) + "```"
  }

  /**
   * `/dev gitpull`: `raw` holds the lines `git pull` writes, as `readline`
   * returns them, before the end of its output.
   */
  method GitPull(raw: seq<string>) returns (output: string)
    ensures output == Framed(StripAll(raw))
  {
    var lines: seq<string> := [];
    var i := 0;
    while i < |raw|
      invariant 0 <= i <= |raw|
      invariant lines == StripAll(raw[..i])
    {
      assert raw[..i + 1][..i] == raw[..i];
      lines := lines + [Strip(raw[i])];
      i := i + 1;
    }
    assert raw[..|raw|] == raw;
    output := "```bash\n" + JoinLines(lines) + "```";
  }

  /** Every line stripped, in order. */
  function StripAll(raw: seq<string>): (r: seq<string>)
    ensures |r| == |raw|
    ensures forall k :: 0 <= k < |raw| ==> r[k] == Strip(raw[k])
  {
    if raw == [] then [] else StripAll(raw[..|raw| - 1]) + [Strip(raw[|raw| - 1])]
  }

  /**
   * The framed text gives the lines back: it is the block opener, the lines
   * joined by newlines, and the closer; when there is at least one line and
   * none holds a newline, splitting the middle recovers them in order.
   */
  lemma FramedLines(lines: seq<string>)
    requires |lines| > 0
    requires forall i :: 0 <= i < |lines| ==> NoNewline(lines[i])
    ensures var f := Framed(lines);
            && |f| >= 11
            && f[..8] == "```bash\n"
            && f[|f| - 3..] == "```"
            && SplitLines(f[8..|f| - 3]) == lines
  {
    var f := Framed(lines);
    var middle := JoinLines(lines);
    assert f[8..|f| - 3] == middle;
    SplitJoin(lines);
  }

  /** A line as `readline` returns it, its newline at the end, holds no newline once stripped. */
  lemma StripReadLine(body: string)
    requires NoNewline(body)
    ensures NoNewline(Strip(body + "\n"))
  {
    var a := StripStart(body + "\n");
    if a != [] {
      var y := a[..|a| - 1];
      SuffixBeforeNewline(body, a);
      assert StripEnd(a) == StripEnd(y);
      NoNewlinePrefix(y, StripEnd(y));
    }
  }

  /** A nonempty suffix of a line and its newline ends in the newline, and holds no other. */
  lemma SuffixBeforeNewline(body: string, a: string)
    requires NoNewline(body)
    requires a != [] && |a| <= |body| + 1 && a == (body + "\n")[|body| + 1 - |a|..]
    ensures a[|a| - 1] == '\n' && IsSpace(a[|a| - 1])
    ensures NoNewline(a[..|a| - 1])
  {
    var x := body + "\n";
    assert a[|a| - 1] == x[|x| - 1];
    forall k | 0 <= k < |a| - 1
      ensures a[k] != '\n'
    {
      assert a[k] == x[|x| - |a| + k];
    }
  }

  lemma NoNewlinePrefix(y: string, b: string)
    requires NoNewline(y) && |b| <= |y| && b == y[..|b|]
    ensures NoNewline(b)
  {
    forall k | 0 <= k < |b|
      ensures b[k] != '\n'
    {
      assert b[k] == y[k];
    }
  }

  /** The developer cog's state: the configured ids and the log channels fetched so far. */
  class DeveloperCog {
    const developerUserIds: seq<int>
    const developerChannelIds: seq<int>
    var logChannels: seq<int>

    constructor (developerUserIds: seq<int>, developerChannelIds: seq<int>)
      ensures this.developerUserIds == developerUserIds && this.developerChannelIds == developerChannelIds
      ensures logChannels == []
    {
      this.developerUserIds := developerUserIds;
      this.developerChannelIds := developerChannelIds;
      logChannels := [];
    }

    /**
     * `on_ready`: fetch every configured channel, but only while none has
     * been fetched. `reachable` is the set of channel ids `fetch_channel`
     * resolves; a failing fetch is logged and leaves the list as it was.
     */
    method OnReady(reachable: set<int>)
      modifies this
      ensures old(logChannels) != [] ==> logChannels == old(logChannels)
      ensures old(logChannels) == [] ==>
                logChannels == if forall k :: 0 <= k < |developerChannelIds| ==> developerChannelIds[k] in reachable
                               then developerChannelIds else []
    {
      if logChannels != [] {
        return;
      }
      var fetched: seq<int> := [];
      var i := 0;
      while i < |developerChannelIds|
        invariant 0 <= i <= |developerChannelIds|
        invariant fetched == developerChannelIds[..i]
        invariant forall k :: 0 <= k < i ==> developerChannelIds[k] in reachable
      {
        if developerChannelIds[i] !in reachable {
          return;
        }
        fetched := fetched + [developerChannelIds[i]];
        i := i + 1;
      }
      assert developerChannelIds[..i] == developerChannelIds;
      logChannels := fetched;
    }
  }
}
