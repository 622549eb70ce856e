/** The persisted configuration records: `filterRule` and `channelControl`
    (autbot.go:20-35), the fresh record `constructChControl` builds
    (autbot.go:110-113), and the set of enabled channels that the counter
    `enabledChannels` is meant to track. */
module Channels {

  /** One filter: the names the administrator typed and the identifiers
      they resolved to; "-" in an identifier is the wildcard. */
  datatype FilterRule = FilterRule(
    person: string, corp: string, alliance: string, system: string,
    personId: string, corpId: string, allianceId: string, systemId: string)

  /** The identifier that matches anything. */
  const Wildcard: string := "-"

  datatype ChannelControl = ChannelControl(channelId: string, filters: seq<FilterRule>, enabled: bool)

  /** A newly initialised channel: disabled, with no filters. */
  function ConstructChControl(channelId: string): ChannelControl
  {
    ChannelControl(channelId, [], false)
  }

  predicate IsEnabled(m: map<string, ChannelControl>, id: string)
  {
    id in m && m[id].enabled
  }

  function EnabledIds(m: map<string, ChannelControl>): set<string>
  {
    set id | id in m && m[id].enabled
  }

  function NumEnabled(m: map<string, ChannelControl>): nat
  {
    |EnabledIds(m)|
  }
}
