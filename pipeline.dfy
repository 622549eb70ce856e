/** One answer of the kill queue, from the raw text to the deliveries
    (autbot.go:194-322): the loop body of the polling goroutine with the
    HTTP request, the JSON decoder and the name lookups taken out. */
module Pipeline {
  import opened Common
  import opened Text
  import opened Channels
  import opened Isk
  import opened Killmail
  import opened Matching
  import opened Routing

  /** NoKill: no kill ID in the answer (the empty queue). NotCharacter:
      the victim has no character_id (a structure). Posted: the embed's
      content and the deliveries made. */
  datatype Outcome =
    | NoKill
    | NotCharacter
    | Posted(kill: Normalized, iskValue: string, deliveries: seq<Delivery>, colour: Colour)

  /** `s` is the answer's text and `km` what the decoder makes of
      s[11..|s| - 1]; `order` is the iteration order of the channel map. */
  method ProcessPayload(s: string, km: Killmail, chans: map<string, ChannelControl>, order: seq<string>)
    returns (outcome: Outcome)
    requires |s| >= 12
    requires ExtractKillId(s).Some? ==> Contains(s, AttackersKey)
    requires |km.totalValue| >= 3
    requires forall k :: k in chans <==> k in order
    requires NoDuplicates(order)
    ensures outcome == NoKill <==> ExtractKillId(s).None?
    ensures outcome == NotCharacter <==> ExtractKillId(s).Some? && km.victim.characterId.None?
    ensures outcome.Posted? ==>
      && ExtractKillId(s).Some? && km.victim.characterId.Some?
      && outcome.kill == Normalize(ExtractKillId(s).value, km)
      && outcome.iskValue == GroupedFromRight(km.totalValue[..|km.totalValue| - 3], 3, ' ')
                             + km.totalValue[|km.totalValue| - 3..]
      && (outcome.deliveries, outcome.colour) == Route(s, chans, order, Red)
  {
    var x := Split(s, ',');
    if |x| < 2 {
      return NoKill;
    }
    x := Split(x[0], ':');
    if |x| < 3 {
      return NoKill;
    }
    var killId := x[2];
    assert ExtractKillId(s).Some?;
    var killLink := KillLinkPrefix + killId + "/";
    if km.victim.characterId.None? {
      return NotCharacter;
    }
    var victimSide := VictimSide(km.victim);
    var killer := FindKiller(km.attackers);
    var iskValue := ParseIskValue(km.totalValue, 3);
    var sent, colour := RouteEvent(s, chans, order);
    var kill := Normalized(killLink, km.victim.characterId.value, victimSide,
                           km.victim.shipTypeId, killer, |km.attackers|);
    outcome := Posted(kill, iskValue, sent, colour);
  }

  /** What a posted event guarantees about its deliveries: only enabled
      channels, each at most once, every enabled channel without filters,
      and a final green embed exactly when some channel highlighted. */
  lemma PostedDeliveries(s: string, chans: map<string, ChannelControl>, order: seq<string>)
    requires Contains(s, AttackersKey)
    requires forall k :: k in chans <==> k in order
    requires NoDuplicates(order)
    ensures var (ds, colour) := Route(s, chans, order, Red);
      && (forall i :: 0 <= i < |ds| ==> IsEnabled(chans, ds[i].channel))
      && (forall i, j :: 0 <= i < j < |ds| ==> ds[i].channel != ds[j].channel)
      && (forall ch :: IsEnabled(chans, ch) && chans[ch].filters == [] ==> DeliveredTo(ds, ch))
      && (colour == Green <==> exists k :: 0 <= k < |order| && Decide(s, chans[order[k]]) == SendHighlighted)
  {
    var dec := Decisions(s, chans);
    assert forall i :: 0 <= i < |order| ==> order[i] in chans;
    RouteReaches(s, chans, order, Red);
    WalkAtMostOnce(order, dec, Red);
    WalkFinalColour(order, dec, Red);
    var ds := Route(s, chans, order, Red).0;
    forall ch | IsEnabled(chans, ch) && chans[ch].filters == []
      ensures DeliveredTo(ds, ch)
    {
      UnfilteredAlwaysReceives(s, chans, order, ch);
    }
    if exists k :: 0 <= k < |order| && dec[order[k]] == SendHighlighted {
      var k :| 0 <= k < |order| && dec[order[k]] == SendHighlighted;
      assert Decide(s, chans[order[k]]) == SendHighlighted;
    }
    if exists k :: 0 <= k < |order| && Decide(s, chans[order[k]]) == SendHighlighted {
      var k :| 0 <= k < |order| && Decide(s, chans[order[k]]) == SendHighlighted;
      assert dec[order[k]] == SendHighlighted;
    }
  }
}
