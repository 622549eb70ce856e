# autbot in Dafny

autbot is a Discord bot written in Go as a single file, `autbot.go`. It polls
zKillboard's RedisQ queue for EVE Online killmails and posts each kill as an
embed to the Discord channels that subscribed to it. A channel's
administrator controls it with `!kmpost` commands:

- `init`, `enable` and `disable` change the channel's state;
- `filter add <person> <corporation> <alliance> <system>` adds a filter
  rule, and `filter rem <index>` removes one.

This project models the computational core of that program and proves
properties about it:

- **ISK formatting** (`isk.dfy`): `reverse`, `insertNth` and `parseISKValue`
  group the integer part of a two-decimal value in threes from the right.
  `Reverse` and `InsertNth` are loops proved against the reference functions
  `Reversed` and `Chunked`. `ParseIskValue` is proved to equal
  `GroupedFromRight` of the digits followed by the unchanged `.dd`.
- **Payload extraction** (`killmail.dfy`):
  - the kill ID is cut out of the raw queue text by comma and colon splits;
  - the decoded killmail is a datatype whose optional JSON keys are `Option`s;
  - the side rule is alliance if present, else corporation;
  - the final-blow search is a loop with `break`.
- **Filter matching and routing** (`matching.dfy`, `routing.dfy`):
  - rules are substring tests on the raw text, tried in order, and the first
    match wins;
  - one embed is shared by every channel, and its colour turns from red to
    green when a rule's identity fields all occur after `attackers`;
  - `Decisions` gives each channel's decision on the event, and `Walk`
    visits the channels in order with those decisions;
  - `RouteEvent` is the nested loop, proved equal to `Route`, which is
    `Walk` over the payload's decisions; the routing lemmas are stated
    about `Walk` for any decisions and carried over to `Route`.
- **The registry** (`commands.dfy`, `subscriptions.dfy`):
  - messages are parsed into commands and filter rules;
  - each command is a pure step function on the channel map;
  - class `Registry` holds the map and the counter `enabledChannels` and
    updates them in place;
  - the invariant `Valid()` says the counter equals the number of enabled
    channels;
  - `StepCount` proves that every message moves that number exactly as the
    handler moves the counter.
- **The pipeline** (`pipeline.dfy`): `ProcessPayload` is the body of the
  polling loop from the raw text to the deliveries.

Strings are `seq<char>`, and identifiers are the decimal strings that
`strconv.FormatFloat(id, 'f', 0, 64)` renders. The channel map's iteration
order is a parameter `order`: a sequence that lists every key exactly once.

**The model follows the code as written, in two places where the way the Go
code groups its conditions suggests a different intent:**

- **Operator precedence.** The parentheses at `autbot.go:304-307` suggest a
  strict four-way conjunction of person, corporation, alliance and system.
  Because `&&` binds tighter than `||`, the condition groups as
  `(P && C && A && SystemID == "-") || contains(system)`.
  - `Matching.RuleMatches` is that condition as written.
  - `Matching.StrictRuleMatches` is the conjunction.
  - `SystemBypassesIdentity`, `WrittenVersusStrict` and `PrecedenceExample`
    show exactly where the two differ.
- **Where identities are searched.** A filter reads as a test on the
  victim, but the code searches the whole payload, attackers included;
  `HighlightWithWildcardSystemMatches` states a consequence of this.

## Model

| member | source | states |
|---|---|---|
| Text.Split | autbot.go:198-205 | strings.Split on one character always yields at least one piece |
| Text.SplitPieces | autbot.go:198-205 | no piece contains the separator; one piece, the text itself, exactly when no separator occurs; a text not starting with the separator has a non-empty first piece that starts with its first character |
| Text.SplitFromText | autbot.go:198-205 | every character of every piece occurs in the split text |
| Text.JoinSplit | autbot.go:198-205 | joining the pieces with the separator gives back the text |
| Text.SplitAround | autbot.go:198-205 | splitting `a + sep + b` gives the pieces of `a` followed by the pieces of `b` |
| Text.SplitAfterPiece | autbot.go:198-205 | a separator-free `a` followed by the separator is the first piece, and the pieces of the rest follow |
| Text.SplitJoin | autbot.go:453 | splitting pieces that were joined, none containing the separator, gives back the pieces |
| Text.IndexOf | autbot.go:309 | strings.Index: -1 or an index where the pattern occurs, and no earlier index where it occurs |
| Text.ContainsAt | autbot.go:304-313 | strings.Contains holds whenever the pattern occurs at some index |
| Text.ContainsInSuffix | autbot.go:309-313 | what a suffix contains, the whole text contains |
| Text.ContainsInfix | autbot.go:304-307 | a text contains each of its infixes |
| Text.EscapeSpaces | autbot.go:553 | strings.Replace of " " by "%20": no space is left; a text without spaces is unchanged |
| Text.EscapeSpacesConcat | autbot.go:553 | escaping a concatenation escapes each part, so the text is rewritten character by character |
| Text.EscapeSpacesChar | autbot.go:553 | a space becomes "%20" and any other character is kept |
| Text.RuneLength | autbot.go:548 | a code point takes 1 to 4 UTF-8 bytes, and one byte exactly when it is ASCII |
| Text.Utf8Length | autbot.go:548 | Go's `len` of a string: the sum of its code points' UTF-8 byte counts; its bounds and the ASCII case are stated by Utf8LengthBounds |
| Text.Utf8LengthBounds | autbot.go:548 | Go's `len` of a text lies between its character count and four times it, and equals the character count exactly when the text is ASCII |
| Text.Utf8LengthExample | autbot.go:548 | "Ωx" is two characters but three bytes |
| Text.Atoi | autbot.go:574-578 | strconv.Atoi: a result is within the 64-bit range; the empty word, and a word with a non-digit anywhere but a leading sign, is an error; a digit word reads as its value when that fits in 64 bits and is an error otherwise; a leading '+' reads the digits after it, and a leading '-' their negation down to the 64-bit minimum |
| Text.DecimalString | autbot.go:574 | the decimal rendering is a non-empty digit string |
| Text.DecimalValue | autbot.go:574 | the digits of the decimal rendering of n have the value n |
| Text.AtoiDecimal | autbot.go:574-578 | Atoi reads back every 64-bit integer written in decimal, with a leading '-' for negatives |
| Channels.ConstructChControl | autbot.go:110-113 | the record `init` stores: the channel's ID, disabled, with no filters; InitNeverOverwrites and EnableThenDisable state how init and enable use it |
| Isk.Reverse | autbot.go:59-65 | the two-index swap loop returns the characters in reverse order |
| Isk.ReversedLength | autbot.go:59-65 | reversing preserves the length |
| Isk.ReversedTwice | autbot.go:59-65 | reversing is an involution |
| Isk.ReversedConcat | autbot.go:80-90 | the reverse of `a + b` is the reverse of `b` followed by the reverse of `a` |
| Isk.ReversedDrop | autbot.go:85 | dropping k characters of the reverse is reversing all but the last k characters |
| Isk.ChunkedSnoc | autbot.go:71-76 | writing one more character adds a separator exactly when the previous length was a positive multiple of n |
| Isk.InsertNth | autbot.go:67-78 | the buffer loop writes x after every n-th character but never after the last, that is `Chunked(s, n, x)` |
| Isk.ChunkedLength | autbot.go:67-78 | the output has length \|s\| + (\|s\| - 1) / n |
| Isk.ChunkedEnds | autbot.go:67-78 | the output starts with the first character and ends with the last, so x never comes first or last |
| Isk.ChunkedWithout | autbot.go:67-78 | removing every x from the output gives back an x-free input |
| Isk.ReversedChunked | autbot.go:84-85 | reverse, insert from the left, reverse again is grouping from the right |
| Isk.ParseIskValue | autbot.go:80-90 | the last dotOffset characters are kept and the rest is grouped in threes from the right with spaces |
| Isk.GroupedLength | autbot.go:80-90 | grouping d inserts (\|d\| - 1) / n separators |
| Isk.GroupedWithout | autbot.go:80-90 | removing the separators from the grouped digits gives back the digits |
| Isk.ExampleValue | autbot.go:80-90 | 1234567.89 is rendered as 1 234 567.89 |
| Killmail.ExtractKillId | autbot.go:198-206 | no kill ID without a ','; an extracted ID contains neither ',' nor ':' |
| Killmail.KillIdAfterTwoFields | autbot.go:198-206 | after two colon-free fields the third ':'-field before the first ',' is the ID |
| Killmail.FewFieldsNoKill | autbot.go:198-205 | with one or two ':'-fields before the first ',' there is no kill ID |
| Killmail.KillIdOfPackage | autbot.go:198-207 | a queue answer starting `{"package":{"killID":<id>,` yields exactly `<id>` |
| Killmail.EmptyQueueHasNoKill | autbot.go:198-201 | the empty answer `{"package":null}` yields no kill |
| Killmail.SideOf | autbot.go:227-237 | ("alliances", alliance) exactly when an alliance is present, else ("corporations", corporation) |
| Killmail.KillerOf | autbot.go:247-261 | the killer is NPC exactly when the attacker has no character_id; a pilot is identified by that character_id, and its side follows the side rule |
| Killmail.FirstFinalBlow | autbot.go:242-265 | -1 or the index of an attacker with final_blow, with no earlier one |
| Killmail.FindKiller | autbot.go:242-265 | the loop with break finds no killer exactly when no attacker has final_blow, else the first such attacker's identity |
| Killmail.Normalize | autbot.go:207-265 | the link from the kill ID, the victim's character, side and ship, the final-blow killer and the attacker count; ProcessPayload posts exactly this |
| Matching.RuleMatches | autbot.go:304-307 | a rule's match with Go's precedence: identity with a wildcard system, or the system key alone; SystemBypassesIdentity, WildcardSystemIsIdentity and WrittenVersusStrict state what it means |
| Matching.Highlights | autbot.go:309-313 | the identity fields all occur in the attackers part; HighlightImpliesIdentity and HighlightWithWildcardSystemMatches relate it to the match |
| Matching.AttackersPart | autbot.go:309 | the text from the first "attackers" on: a suffix of the payload that starts with that word, with no earlier occurrence of it |
| Matching.FirstMatch | autbot.go:303-318 | -1 or the index of a matching rule, with no earlier match; the loop's break |
| Matching.SystemBypassesIdentity | autbot.go:304-307 | with a specific system, a rule matches exactly when that system's key occurs, whatever its person, corporation and alliance |
| Matching.WildcardSystemIsIdentity | autbot.go:304-307 | with a wildcard system and no `"solar_system_id":-` in the payload, the condition is P && C && A |
| Matching.WrittenVersusStrict | autbot.go:304-307 | the strict conjunction implies the condition as written; they differ exactly when the system key occurs and the identity fails |
| Matching.PrecedenceExample | autbot.go:304-307 | a payload and rule on which the written condition holds and the strict conjunction fails |
| Matching.WildcardRuleMatches | autbot.go:304-307 | an all-wildcard rule matches every payload |
| Matching.HighlightImpliesIdentity | autbot.go:309-313 | a highlighting rule's identity fields also occur in the whole payload |
| Matching.HighlightWithWildcardSystemMatches | autbot.go:304-313 | with a wildcard system, a rule whose identity occurs among the attackers matches |
| Matching.FirstMatchIs | autbot.go:303-318 | the first-match contract determines the index |
| Matching.FirstMatchAppend | autbot.go:303-318 | rules after a matching rule never change which rule is used |
| Routing.Decide | autbot.go:296-318 | one channel's decision on an event: skip, send, or send and highlight; DecideMeaning states it case by case |
| Routing.DecideMeaning | autbot.go:296-318 | disabled skips; enabled without filters sends; otherwise it skips exactly when no rule matches, and highlights exactly when the first matching rule highlights |
| Routing.VisitChannel | autbot.go:296-320 | one channel's turn sends exactly when the decision is not Skip and turns the embed green exactly on a highlight |
| Routing.Decisions | autbot.go:295-318 | every channel of the map, and nothing else, has a decision on the event |
| Routing.Walk | autbot.go:295-322 | the deliveries and final colour of visiting the channels in order with given decisions; WalkSnoc, WalkDeliveries, WalkReaches, WalkAtMostOnce and WalkFinalColour state its properties |
| Routing.Route | autbot.go:295-322 | Walk over the payload's decisions; RouteEvent computes it, and RouteReaches and UnfilteredAlwaysReceives state who receives |
| Routing.RouteEvent | autbot.go:295-322 | the nested loops make exactly the deliveries of Route, starting red |
| Routing.WalkSnoc | autbot.go:295-322 | visiting one more channel turns the embed green exactly on a highlight, and adds a delivery in the new colour exactly when the channel does not skip |
| Routing.WalkDeliveries | autbot.go:295-322 | deliveries go only to visited channels that are not skipped; a highlighted channel's delivery is green; a green delivery leaves the embed green |
| Routing.GreenStaysGreen | autbot.go:314-316 | once the shared embed is green, every later delivery is green and it ends green |
| Routing.WalkColourSticks | autbot.go:314-316 | after a green delivery every later delivery is green |
| Routing.WalkReachesIf | autbot.go:295-322 | a visited channel whose decision is not Skip receives the event |
| Routing.WalkReaches | autbot.go:295-322 | a visited channel receives the event exactly when its decision is not Skip |
| Routing.WalkAtMostOnce | autbot.go:303-318 | with each channel visited once, no channel receives an event twice |
| Routing.WalkFinalColour | autbot.go:284-316 | the embed ends green exactly when it started green or some channel's first matching rule highlighted |
| Routing.NoHighlightAllRed | autbot.go:284 | without a highlight every delivery is red |
| Routing.RouteReaches | autbot.go:295-322 | the event reaches only enabled channels, and a listed channel receives it exactly when its decision on the payload is not Skip |
| Routing.UnfilteredAlwaysReceives | autbot.go:297-301 | an enabled channel with no filters receives every event |
| Commands.ParseCommand | autbot.go:447-451 | a message shorter than 2 or without a leading '!' is not a command |
| Commands.CommandOf | autbot.go:453-619 | a first word other than "!kmpost" is ignored; filter rem carries the fourth word exactly when there is one |
| Commands.KmpostWords | autbot.go:453-455 | "!kmpost w1 w2 ..." with space-free words is read as those words |
| Commands.OneWord | autbot.go:460-619 | the one-word commands select their branches, and an unknown word selects none |
| Commands.ParseFilterRem | autbot.go:563-574 | "!kmpost filter rem i" passes i on as the index word |
| Commands.ParseFilterAddCommand | autbot.go:526 | "!kmpost filter add " and any text is the add branch |
| Commands.SplitThree | autbot.go:453 | three space-free words and a rest split into those words followed by the pieces of the rest |
| Commands.ThreeWords | autbot.go:447-457 | a message of a '!'-word and two more space-free words is the command of those words and the pieces of the rest |
| Commands.Resolve | autbot.go:552-557 | the ID stored for a name: "-" for the wildcard, otherwise the lookup of the name with spaces escaped; ParseField and TypedField use it |
| Commands.FilterSpec | autbot.go:521-522 | the list command's rendering of a rule, which is also filter add's syntax; ParseFilterSpec and AddedRuleListsAsTyped read it back |
| Commands.ParseField | autbot.go:546-556 | a parsed name is "-" or at least 3 UTF-8 bytes long and has no '<'; its ID is "-" or the lookup of the escaped name; it is missing exactly when there is no '<'; a reported name is short |
| Commands.TypedField | autbot.go:548-557 | what a typed name gives: refused when not "-" and shorter than 3 bytes, otherwise kept with its resolved ID; ParseFieldOf and SpecFields tie it to the typed text |
| Commands.ParseFieldOf | autbot.go:546-556 | the text after a '<'-free lead and '<' is read as the typed name: refused when it is not "-" and shorter than 3 bytes, otherwise kept and resolved |
| Commands.ParseFieldSpaced | autbot.go:546-556 | the same for a parameter that starts with a space, as every parameter after the first does |
| Commands.SpecFields | autbot.go:533-556 | each of the four parameters of a rule typed in list syntax is read as its typed name |
| Commands.ParseFields | autbot.go:545-557 | the first n fields in order, or the error of the first field that fails, all earlier ones having parsed |
| Commands.FieldsFailAt | autbot.go:545-557 | once field i fails after i fields parsed, the loop returns that field's error whatever follows |
| Commands.ReadFilterRule | autbot.go:533-558 | the loop over the four parameters, with its early returns, yields exactly the rule or the first error that ParseFilterRule gives |
| Commands.ParseFilterRule | autbot.go:533-561 | fewer than four '>' is a format error; every name of a rule is "-" or at least 3 bytes long, and every ID is the resolution of its name |
| Commands.ShortNameRejected | autbot.go:545-551 | a typed rule is refused with the first name that is not "-" and shorter than 3 bytes, whatever the later parameters hold |
| Commands.ParseFourFields | autbot.go:533-561 | four '>'-closed parameters that each parse give the rule of their names and IDs |
| Commands.ParseFilterSpec | autbot.go:521-561 | a rule rendered as the list command shows it, typed after a bracket-free prefix, is read back with the same names and freshly resolved IDs |
| Commands.AddedRuleListsAsTyped | autbot.go:521-561 | such a rule parses, and lists exactly as it was typed |
| Subscriptions.InitStep | autbot.go:463-471 | init on the channel map; InitNeverOverwrites states its effect |
| Subscriptions.EnableStep | autbot.go:472-486 | enable on the channel map; EnableEffect and EnableCount state its effect |
| Subscriptions.DisableStep | autbot.go:487-501 | disable on the channel map; DisableEffect and DisableCount state its effect |
| Subscriptions.FilterAddStep | autbot.go:526-562 | filter add on the channel map; FilterAddEffect and ShortNameAddsNothing state its effect |
| Subscriptions.FilterRemStep | autbot.go:563-588 | filter rem on the channel map; FilterRemEffect and AddThenRemove state its effect |
| Subscriptions.Step | autbot.go:445-619 | one message's effect on the map and its reply; StepCount and StepTouchesOneChannel state its properties |
| Subscriptions.RemoveAt | autbot.go:584-585 | removing index k keeps the elements before k, shifts the later ones down by one, and loses only that element |
| Subscriptions.EnableCount | autbot.go:472-486 | enable adds one enabled channel exactly when the channel was absent or disabled, and only then answers PostingEnabled |
| Subscriptions.DisableCount | autbot.go:487-501 | disable removes one enabled channel exactly when it was enabled, and only then answers PostingDisabled |
| Subscriptions.StepCount | autbot.go:463-588 | every message changes the number of enabled channels by exactly the counter's change |
| Subscriptions.StepTouchesOneChannel | autbot.go:463-588 | a message never removes a channel and changes at most its own channel's record |
| Subscriptions.InitNeverOverwrites | autbot.go:463-471 | init leaves an existing record alone and otherwise adds a disabled, filterless one |
| Subscriptions.EnableEffect | autbot.go:472-486 | after enable the channel exists and is enabled, with its old filters or none |
| Subscriptions.DisableEffect | autbot.go:487-501 | after disable the channel is not enabled, no record is created, and its filters are kept |
| Subscriptions.EnableThenDisable | autbot.go:472-501 | disable undoes enable on a disabled channel, and leaves what init makes on an unknown one |
| Subscriptions.ShortNameAddsNothing | autbot.go:526-551 | filter add with a name too short changes no channel and reports the name, or reports an unconfigured channel |
| Subscriptions.FilterAddEffect | autbot.go:526-562 | an unknown channel is not configured; a rule is appended exactly when the channel exists and the rule parses; otherwise nothing changes |
| Subscriptions.FilterRemEffect | autbot.go:563-588 | the (i-1)-th rule is removed exactly when the channel exists and i reads as an integer with 1 <= i <= len, keeping the other rules in order; otherwise nothing changes |
| Subscriptions.AddThenRemove | autbot.go:559-588 | removing the rule just added, by its 1-based index in decimal, restores the map |
| Subscriptions.CountEnabled | autbot.go:150-154 | the counting loop at load returns the number of enabled channels |
| Subscriptions.Registry.Load | autbot.go:142-158 | the registry starts from the decoded settings or an empty map, with the counter equal to the number of enabled channels |
| Subscriptions.Registry.ShouldPoll | autbot.go:187 | the loop polls exactly when some channel is enabled |
| Subscriptions.Registry.Init | autbot.go:463-471 | performs InitStep in place and keeps the counter invariant |
| Subscriptions.Registry.Enable | autbot.go:472-486 | performs EnableStep in place, incrementing the counter only on PostingEnabled, and keeps the invariant |
| Subscriptions.Registry.Disable | autbot.go:487-501 | performs DisableStep in place, decrementing the counter only on PostingDisabled, and keeps the invariant |
| Subscriptions.Registry.FilterAdd | autbot.go:526-562 | performs FilterAddStep in place, reading the rule with ReadFilterRule, and keeps the invariant |
| Subscriptions.Registry.FilterRem | autbot.go:563-588 | performs FilterRemStep in place and keeps the invariant |
| Subscriptions.Registry.HandleMessage | autbot.go:445-619 | one message performs Step in place, moves the counter by the reply's delta, and keeps the invariant |
| Pipeline.ProcessPayload | autbot.go:194-322 | for every answer, the empty queue's included, no kill ID means nothing happens; a victim without a character is skipped; otherwise the link, victim, side, ship, killer, attacker count, ISK text and deliveries are those of the model functions |
| Pipeline.PostedDeliveries | autbot.go:295-322 | a posted event reaches only enabled channels, each at most once, every enabled unfiltered channel included, and ends green exactly when some channel highlighted |

## Left out

- HTTP requests are not modelled: the RedisQ poll (`c.Get` at autbot.go:188) and the ESI lookups `getID`, `getName` and `getShipName`.
  - `getID` is the parameter `lookup`, which may return "-".
  - Names, ship names and the embed's description text are not built; `Normalized` keeps the identifiers they would be looked up by.
- The Discord session is not modelled. A delivery is recorded as `(channel, colour)`, and a reply as a `Reply` constructor instead of its text. The list, status, commit and help commands only send text, so they are `Informational`.
- `config.json`, `settings.json` and JSON (un)marshalling are not modelled.
  - `Registry.Load` receives the decoded settings, or None when the file is absent.
  - When the file exists but cannot be read, Go leaves the map nil, so a later `init` would panic. That case is not modelled.
  - The random AppID and the writing done by commit are not modelled.
- The JSON decode of `s[11:len(s)-1]` is the parameter `km`. A malformed payload makes Go's type assertions panic; that is not modelled.
- The goroutine, the `quit` channel, the 5-second sleep and the unsynchronised sharing of the map between the handler and the poller are concurrency, and are not modelled.
- `strconv.FormatFloat` and floating point are not modelled: the model starts from the two-decimal string.
- Commands.ParseField: the length test counts UTF-8 bytes, as Go's `len` does (`Utf8Length`); the model has characters where Go has bytes, so a name that is not valid UTF-8 has no counterpart.
- Isk.InsertNth: Go's `len(s)` and range indices count bytes, while the model counts characters. The two agree on the ASCII digit strings the formatter receives.
- Pipeline.ProcessPayload: the slice `s[11:len(s)-1]` panics on short input. This is stated as the requirement `|s| >= 12`, and `|totalValue| >= 3` is required for `parseISKValue`'s slice. An answer with a kill ID must contain "attackers" (see Routing.RouteEvent); answers without one, such as the empty queue, need not.
- Routing.RouteEvent: requires that "attackers" occurs in the payload for every event. Go only evaluates `strings.Index(s, "attackers")` when a filter matches, and panics then if the word is absent.
- Commands.ParseField: a parameter without '<' makes Go index past the end of its split and panic. The model returns `MissingBracket` and changes nothing.
- Subscriptions.Registry: `enabledChannels` is an unbounded integer. Go's 64-bit `int` cannot overflow with fewer than 2^63 channels.
