/** The channel registry (autbot.go:142-158, 446-588): the map from
    channel ID to its settings and the counter `enabledChannels` that
    the polling loop consults. Each command is first a function from the
    old map to the new map and the reply; the class `Registry` below
    performs the same updates in place and keeps the counter equal to
    the number of enabled channels. */
module Subscriptions {
  import opened Common
  import opened Text
  import opened Channels
  import opened Commands

  /** Which reply the handler sends. NoReply: the message is ignored.
      FilterRemoved: the filter is removed and no message is sent.
      Informational: list, status, commit and help, which change nothing. */
  datatype Reply =
    | NoReply | ExpectedTwoWords | ExpectedThreeWords
    | ChannelInitialized | AlreadyInitialized
    | PostingEnabled | AlreadyEnabled
    | PostingDisabled | NotEnabled
    | NotConfigured | AddFailed(error: AddError) | FilterCreated
    | NoInfo | RemSyntax | NoFilterAtIndex | FilterRemoved
    | Informational

  /** How the handler moves the counter along with a reply. */
  function CounterDelta(reply: Reply): int
  {
    if reply == PostingEnabled then 1 else if reply == PostingDisabled then -1 else 0
  }

  type ChannelMap = map<string, ChannelControl>

  // ---------------------------------------------------------------------
  // The commands as functions

  function InitStep(m: ChannelMap, ch: string): (ChannelMap, Reply)
  {
    if ch !in m then (m[ch := ConstructChControl(ch)], ChannelInitialized)
    else (m, AlreadyInitialized)
  }

  function EnableStep(m: ChannelMap, ch: string): (ChannelMap, Reply)
  {
    var cc := if ch in m then m[ch] else ConstructChControl(ch);
    if cc.enabled then (m, AlreadyEnabled)
    else (m[ch := cc.(enabled := true)], PostingEnabled)
  }

  function DisableStep(m: ChannelMap, ch: string): (ChannelMap, Reply)
  {
    if ch !in m || !m[ch].enabled then (m, NotEnabled)
    else (m[ch := m[ch].(enabled := false)], PostingDisabled)
  }

  function FilterAddStep(m: ChannelMap, ch: string, content: string, lookup: (string, string) -> string)
    : (ChannelMap, Reply)
  {
    if ch !in m then (m, NotConfigured)
    else
      match ParseFilterRule(content, lookup)
      case Err(e) => (m, AddFailed(e))
      case Ok(rule) => (m[ch := m[ch].(filters := m[ch].filters + [rule])], FilterCreated)
  }

  /** The list without its element at index k, the others in order. */
  function RemoveAt<T>(fs: seq<T>, k: nat): (r: seq<T>)
    requires k < |fs|
    ensures |r| == |fs| - 1
    ensures forall j :: 0 <= j < k ==> r[j] == fs[j]
    ensures forall j :: k <= j < |r| ==> r[j] == fs[j + 1]
    ensures multiset(r) + multiset{fs[k]} == multiset(fs)
  {
    assert fs == fs[..k] + [fs[k]] + fs[k + 1..];
    fs[..k] + fs[k + 1..]
  }

  /** "filter rem": the index word is read by strconv.Atoi and counts from 1. */
  function FilterRemStep(m: ChannelMap, ch: string, indexArg: Option<string>): (ChannelMap, Reply)
  {
    if ch !in m then (m, NoInfo)
    else if indexArg.None? then (m, RemSyntax)
    else
      match Atoi(indexArg.value)
      case None => (m, RemSyntax)
      case Some(i) =>
        var fs := m[ch].filters;
        if i > |fs| || i < 1 then (m, NoFilterAtIndex)
        else (m[ch := m[ch].(filters := RemoveAt(fs, i - 1))], FilterRemoved)
  }

  /** One message in channel `ch`. */
  function Step(m: ChannelMap, ch: string, content: string, lookup: (string, string) -> string): (ChannelMap, Reply)
  {
    match ParseCommand(content)
    case NotACommand => (m, NoReply)
    case MissingArgument => (m, ExpectedTwoWords)
    case Init => InitStep(m, ch)
    case Enable => EnableStep(m, ch)
    case Disable => DisableStep(m, ch)
    case MissingFilterArgument => (m, ExpectedThreeWords)
    case FilterList => (m, Informational)
    case FilterAdd => FilterAddStep(m, ch, content, lookup)
    case FilterRem(indexArg) => FilterRemStep(m, ch, indexArg)
    case FilterOther => (m, NoReply)
    case Status => (m, Informational)
    case Commit => (m, Informational)
    case Help => (m, Informational)
    case UnknownArgument => (m, NoReply)
  }

  // ---------------------------------------------------------------------
  // The counter

  /** Replacing one channel's record changes the enabled set at that
      channel only. */
  lemma EnabledAfterUpdate(m: ChannelMap, ch: string, cc: ChannelControl)
    ensures EnabledIds(m[ch := cc]) == (EnabledIds(m) - {ch}) + (if cc.enabled then {ch} else {})
  {
    var a := EnabledIds(m[ch := cc]);
    var b := (EnabledIds(m) - {ch}) + (if cc.enabled then {ch} else {});
    forall id | id in a ensures id in b {}
    forall id | id in b ensures id in a {}
  }

  /** An absent or disabled channel becomes enabled: one more; otherwise the same. */
  lemma EnableCount(m: ChannelMap, ch: string)
    ensures NumEnabled(EnableStep(m, ch).0) == NumEnabled(m) + (if IsEnabled(m, ch) then 0 else 1)
    ensures EnableStep(m, ch).1 == PostingEnabled <==> !IsEnabled(m, ch)
  {
    var cc := if ch in m then m[ch] else ConstructChControl(ch);
    if !cc.enabled {
      EnabledAfterUpdate(m, ch, cc.(enabled := true));
      assert ch !in EnabledIds(m);
      assert EnabledIds(EnableStep(m, ch).0) == EnabledIds(m) + {ch};
    }
  }

  /** An enabled channel becomes disabled: one fewer; otherwise the same. */
  lemma DisableCount(m: ChannelMap, ch: string)
    ensures NumEnabled(DisableStep(m, ch).0) == NumEnabled(m) - (if IsEnabled(m, ch) then 1 else 0)
    ensures DisableStep(m, ch).1 == PostingDisabled <==> IsEnabled(m, ch)
  {
    if IsEnabled(m, ch) {
      EnabledAfterUpdate(m, ch, m[ch].(enabled := false));
      assert EnabledIds(m) == EnabledIds(DisableStep(m, ch).0) + {ch};
    }
  }

  /** A record replaced by one with the same `enabled` flag, or a disabled
      record added, leaves the enabled set alone. */
  lemma SameEnabled(m: ChannelMap, ch: string, cc: ChannelControl)
    requires if ch in m then cc.enabled == m[ch].enabled else !cc.enabled
    ensures EnabledIds(m[ch := cc]) == EnabledIds(m)
  {
    EnabledAfterUpdate(m, ch, cc);
  }

  /** Every message moves the number of enabled channels exactly as the
      handler moves the counter (autbot.go:483, 498). */
  lemma StepCount(m: ChannelMap, ch: string, content: string, lookup: (string, string) -> string)
    ensures var (m', reply) := Step(m, ch, content, lookup);
      NumEnabled(m') == NumEnabled(m) + CounterDelta(reply)
  {
    match ParseCommand(content)
    case Init =>
      if ch !in m { SameEnabled(m, ch, ConstructChControl(ch)); }
    case Enable =>
      EnableCount(m, ch);
    case Disable =>
      DisableCount(m, ch);
    case FilterAdd =>
      if ch in m {
        var r := ParseFilterRule(content, lookup);
        if r.Ok? { SameEnabled(m, ch, m[ch].(filters := m[ch].filters + [r.value])); }
      }
    case FilterRem(indexArg) =>
      if ch in m && indexArg.Some? && Atoi(indexArg.value).Some? {
        var i := Atoi(indexArg.value).value;
        var fs := m[ch].filters;
        if 1 <= i <= |fs| { SameEnabled(m, ch, m[ch].(filters := RemoveAt(fs, i - 1))); }
      }
    case _ =>
  }

  // ---------------------------------------------------------------------
  // What each command does to the map

  /** A message changes at most the record of its own channel. */
  lemma StepTouchesOneChannel(m: ChannelMap, ch: string, content: string, lookup: (string, string) -> string)
    ensures var m' := Step(m, ch, content, lookup).0;
      && (forall k :: k in m ==> k in m')
      && (forall k :: k in m' ==> k in m || k == ch)
      && (forall k :: k in m && k != ch ==> m'[k] == m[k])
  {
  }

  /** init never overwrites an existing record (autbot.go:463-471). */
  lemma InitNeverOverwrites(m: ChannelMap, ch: string)
    ensures ch in m ==> InitStep(m, ch) == (m, AlreadyInitialized)
    ensures ch !in m ==> InitStep(m, ch).0[ch] == ChannelControl(ch, [], false)
    ensures InitStep(m, ch).0.Keys == m.Keys + {ch}
  {
  }

  /** enable leaves the channel enabled, creating it if absent, and keeps
      its filters (autbot.go:472-486). */
  lemma EnableEffect(m: ChannelMap, ch: string)
    ensures var m' := EnableStep(m, ch).0;
      && IsEnabled(m', ch)
      && m'.Keys == m.Keys + {ch}
      && m'[ch].filters == (if ch in m then m[ch].filters else [])
  {
  }

  /** disable leaves the channel disabled if it exists, keeps its filters,
      and never creates a record (autbot.go:487-501). */
  lemma DisableEffect(m: ChannelMap, ch: string)
    ensures var m' := DisableStep(m, ch).0;
      && !IsEnabled(m', ch)
      && m'.Keys == m.Keys
      && (ch in m ==> m'[ch].filters == m[ch].filters)
  {
  }

  /** disable undoes enable: on a known disabled channel it restores the
      map, on an unknown one it leaves what init would have made. */
  lemma EnableThenDisable(m: ChannelMap, ch: string)
    requires !IsEnabled(m, ch)
    ensures ch in m ==> DisableStep(EnableStep(m, ch).0, ch).0 == m
    ensures ch !in m ==> DisableStep(EnableStep(m, ch).0, ch).0 == InitStep(m, ch).0
  {
    if ch in m {
      assert m[ch].(enabled := true).(enabled := false) == m[ch];
      assert m[ch := m[ch]] == m;
    }
  }

  /** filter add appends exactly the parsed rule, or changes nothing
      (autbot.go:526-562). */
  lemma FilterAddEffect(m: ChannelMap, ch: string, content: string, lookup: (string, string) -> string)
    ensures var (m', reply) := FilterAddStep(m, ch, content, lookup);
      && (ch !in m ==> reply == NotConfigured)
      && (reply == FilterCreated <==> ch in m && ParseFilterRule(content, lookup).Ok?)
      && (reply == FilterCreated ==>
            m'[ch] == ChannelControl(m[ch].channelId, m[ch].filters + [ParseFilterRule(content, lookup).value],
                                     m[ch].enabled))
      && (reply != FilterCreated ==> m' == m)
  {
  }

  /** A typed rule with a name too short leaves every channel as it was. */
  lemma ShortNameAddsNothing(m: ChannelMap, ch: string, prefix: string, rule: FilterRule, post: string,
                             lookup: (string, string) -> string, k: nat)
    requires '<' !in prefix && '>' !in prefix
    requires forall i :: 0 <= i < 4 ==> '<' !in Names(rule)[i] && '>' !in Names(rule)[i]
    requires k < 4 && Names(rule)[k] != Wildcard && Utf8Length(Names(rule)[k]) < 3
    requires forall i :: 0 <= i < k ==> Names(rule)[i] == Wildcard || Utf8Length(Names(rule)[i]) >= 3
    ensures FilterAddStep(m, ch, prefix + FilterSpec(rule) + post, lookup)
         == (m, if ch in m then AddFailed(ParameterTooShort(Names(rule)[k])) else NotConfigured)
  {
    ShortNameRejected(prefix, rule, post, lookup, k);
  }

  /** filter rem i removes the (i-1)-th rule when 1 <= i <= len, and
      changes nothing otherwise (autbot.go:563-588). */
  lemma FilterRemEffect(m: ChannelMap, ch: string, indexArg: Option<string>)
    ensures var (m', reply) := FilterRemStep(m, ch, indexArg);
      && (reply == FilterRemoved <==>
            ch in m && indexArg.Some? && Atoi(indexArg.value).Some?
            && 1 <= Atoi(indexArg.value).value <= |m[ch].filters|)
      && (reply == FilterRemoved ==>
            var i := Atoi(indexArg.value).value;
            && |m'[ch].filters| == |m[ch].filters| - 1
            && m'[ch].filters[..i - 1] == m[ch].filters[..i - 1]
            && m'[ch].filters[i - 1..] == m[ch].filters[i..]
            && m'[ch].enabled == m[ch].enabled)
      && (reply != FilterRemoved ==> m' == m)
  {
    var (m', reply) := FilterRemStep(m, ch, indexArg);
    if reply == FilterRemoved {
      var i := Atoi(indexArg.value).value;
      var fs := m[ch].filters;
      assert m'[ch].filters == fs[..i - 1] + fs[i..];
    }
  }

  /** Removing, by its 1-based index written in decimal, the rule just
      added restores the map. */
  lemma AddThenRemove(m: ChannelMap, ch: string, rule: FilterRule)
    requires ch in m
    requires |m[ch].filters| + 1 <= MaxInt64
    ensures var fs := m[ch].filters;
      var m' := m[ch := m[ch].(filters := fs + [rule])];
      FilterRemStep(m', ch, Some(DecimalString(|fs| + 1))) == (m, FilterRemoved)
  {
    var fs := m[ch].filters;
    var m' := m[ch := m[ch].(filters := fs + [rule])];
    AtoiDecimal(|fs| + 1);
    assert RemoveAt(fs + [rule], |fs|) == fs;
    assert m'[ch := m'[ch].(filters := fs)] == m;
  }

  // ---------------------------------------------------------------------
  // The registry as the program holds it

  /** The records enabled among the keys already visited. */
  ghost function EnabledVisited(m: ChannelMap, remaining: set<string>): set<string>
  {
    set id | id in m && id !in remaining && m[id].enabled
  }

  /** The count taken at load (autbot.go:150-154). */
  method CountEnabled(m: ChannelMap) returns (n: nat)
    ensures n == NumEnabled(m)
  {
    n := 0;
    var remaining := m.Keys;
    assert EnabledVisited(m, remaining) == {};
    while remaining != {}
      invariant remaining <= m.Keys
      invariant n == |EnabledVisited(m, remaining)|
      decreases |remaining|
    {
      var id :| id in remaining;
      if m[id].enabled {
        n := n + 1;
      }
      assert EnabledVisited(m, remaining - {id})
          == EnabledVisited(m, remaining) + (if m[id].enabled then {id} else {});
      remaining := remaining - {id};
    }
    assert EnabledVisited(m, remaining) == EnabledIds(m);
  }

  class Registry {
    var channels: ChannelMap
    var enabledChannels: int

    /** The counter equals the number of enabled channels; in particular
        it is never negative. */
    ghost predicate Valid()
      reads this
    {
      enabledChannels == NumEnabled(channels)
    }

    /** Start-up (autbot.go:142-158): the decoded settings when the file
        exists, otherwise an empty map. */
    constructor Load(settings: Option<ChannelMap>)
      ensures Valid()
      ensures channels == if settings.Some? then settings.value else map[]
    {
      match settings {
        case None =>
          channels := map[];
          enabledChannels := 0;
        case Some(m) =>
          var n := CountEnabled(m);
          channels := m;
          enabledChannels := n;
      }
    }

    /** The polling loop asks for kills only while some channel is enabled
        (autbot.go:187). */
    function ShouldPoll(): (b: bool)
      reads this
      requires Valid()
      ensures b <==> EnabledIds(channels) != {}
    {
      enabledChannels > 0
    }

    method Init(ch: string) returns (reply: Reply)
      requires Valid()
      modifies this
      ensures Valid()
      ensures (channels, reply) == InitStep(old(channels), ch)
      ensures enabledChannels == old(enabledChannels)
    {
      if ch !in channels {
        var chControl := ConstructChControl(ch);
        SameEnabled(channels, ch, chControl);
        channels := channels[ch := chControl];
        reply := ChannelInitialized;
      } else {
        reply := AlreadyInitialized;
      }
    }

    method Enable(ch: string) returns (reply: Reply)
      requires Valid()
      modifies this
      ensures Valid()
      ensures (channels, reply) == EnableStep(old(channels), ch)
      ensures enabledChannels == old(enabledChannels) + CounterDelta(reply)
    {
      var chControl;
      if ch in channels {
        chControl := channels[ch];
      } else {
        chControl := ConstructChControl(ch);
      }
      if chControl.enabled {
        return AlreadyEnabled;
      }
      EnableCount(channels, ch);
      reply := PostingEnabled;
      enabledChannels := enabledChannels + 1;
      chControl := chControl.(enabled := true);
      channels := channels[ch := chControl];
    }

    method Disable(ch: string) returns (reply: Reply)
      requires Valid()
      modifies this
      ensures Valid()
      ensures (channels, reply) == DisableStep(old(channels), ch)
      ensures enabledChannels == old(enabledChannels) + CounterDelta(reply)
    {
      if ch !in channels {
        return NotEnabled;
      }
      var chControl := channels[ch];
      if !chControl.enabled {
        return NotEnabled;
      }
      DisableCount(channels, ch);
      reply := PostingDisabled;
      enabledChannels := enabledChannels - 1;
      chControl := chControl.(enabled := false);
      channels := channels[ch := chControl];
    }

    /** filter add (autbot.go:526-562). */
    method FilterAdd(ch: string, content: string, lookup: (string, string) -> string) returns (reply: Reply)
      requires Valid()
      modifies this
      ensures Valid()
      ensures (channels, reply) == FilterAddStep(old(channels), ch, content, lookup)
      ensures enabledChannels == old(enabledChannels)
    {
      if ch !in channels {
        return NotConfigured;
      }
      var chControl := channels[ch];
      var parsed := ReadFilterRule(content, lookup);
      if parsed.Err? {
        return AddFailed(parsed.error);
      }
      var rule := parsed.value;
      chControl := chControl.(filters := chControl.filters + [rule]);
      SameEnabled(channels, ch, chControl);
      channels := channels[ch := chControl];
      reply := FilterCreated;
    }

    method FilterRem(ch: string, indexArg: Option<string>) returns (reply: Reply)
      requires Valid()
      modifies this
      ensures Valid()
      ensures (channels, reply) == FilterRemStep(old(channels), ch, indexArg)
      ensures enabledChannels == old(enabledChannels)
    {
      if ch !in channels {
        return NoInfo;
      }
      var chControl := channels[ch];
      if indexArg.None? {
        return RemSyntax;
      }
      var conv := Atoi(indexArg.value);
      if conv.None? {
        return RemSyntax;
      }
      var i := conv.value;
      var filters := chControl.filters;
      if i > |filters| || i < 1 {
        return NoFilterAtIndex;
      }
      i := i - 1;
      filters := filters[..i] + filters[i + 1..];
      chControl := chControl.(filters := filters);
      SameEnabled(channels, ch, chControl);
      channels := channels[ch := chControl];
      reply := FilterRemoved;
    }

    /** The message handler (autbot.go:446-617) on one message in `ch`. */
    method HandleMessage(ch: string, content: string, lookup: (string, string) -> string) returns (reply: Reply)
      requires Valid()
      modifies this
      ensures Valid()
      ensures (channels, reply) == Step(old(channels), ch, content, lookup)
      ensures enabledChannels == old(enabledChannels) + CounterDelta(reply)
    {
      match ParseCommand(content) {
        case NotACommand => reply := NoReply;
        case MissingArgument => reply := ExpectedTwoWords;
        case Init => reply := Init(ch);
        case Enable => reply := Enable(ch);
        case Disable => reply := Disable(ch);
        case MissingFilterArgument => reply := ExpectedThreeWords;
        case FilterList => reply := Informational;
        case FilterAdd => reply := FilterAdd(ch, content, lookup);
        case FilterRem(indexArg) => reply := FilterRem(ch, indexArg);
        case FilterOther => reply := NoReply;
        case Status => reply := Informational;
        case Commit => reply := Informational;
        case Help => reply := Informational;
        case UnknownArgument => reply := NoReply;
      }
    }
  }
}
