/** Routing one event to the channels (autbot.go:283-322). Every enabled
    channel is visited once, in the map's iteration order; one embed is
    shared by all of them, so its colour, once turned green, stays green
    for the channels visited later. */
module Routing {
  import opened Text
  import opened Channels
  import opened Matching

  /** The embed colour: 0xff0000 when created (autbot.go:284), 0x00ff00
      after a highlight (autbot.go:314). */
  datatype Colour = Red | Green

  /** What one channel does with the event. */
  datatype Decision = Skip | Send | SendHighlighted

  /** The delivery primitive's arguments: the channel and the embed colour. */
  datatype Delivery = Delivery(channel: string, colour: Colour)

  /** Disabled channels skip; an empty filter list sends unconditionally;
      otherwise the first matching rule decides, and its highlight test
      decides the colour change. */
  function Decide(s: string, cc: ChannelControl): Decision
    requires Contains(s, AttackersKey)
  {
    if !cc.enabled then Skip
    else if cc.filters == [] then Send
    else
      var k := FirstMatch(s, cc.filters);
      if k < 0 then Skip
      else if Highlights(s, cc.filters[k]) then SendHighlighted
      else Send
  }

  /** What a decision means in terms of the channel's state and rules. */
  lemma DecideMeaning(s: string, cc: ChannelControl)
    requires Contains(s, AttackersKey)
    ensures var d := Decide(s, cc);
      && (!cc.enabled ==> d == Skip)
      && (cc.enabled && cc.filters == [] ==> d == Send)
      && (cc.filters != [] ==>
            (d == Skip <==> !cc.enabled || forall i :: 0 <= i < |cc.filters| ==> !RuleMatches(s, cc.filters[i])))
      && (d == SendHighlighted ==>
            exists i :: 0 <= i < |cc.filters| && RuleMatches(s, cc.filters[i]) && Highlights(s, cc.filters[i])
                        && forall j :: 0 <= j < i ==> !RuleMatches(s, cc.filters[j]))
      && (d == Send && cc.filters != [] ==>
            exists i :: 0 <= i < |cc.filters| && RuleMatches(s, cc.filters[i]) && !Highlights(s, cc.filters[i])
                        && forall j :: 0 <= j < i ==> !RuleMatches(s, cc.filters[j]))
  {
    if cc.enabled && cc.filters != [] {
      var k := FirstMatch(s, cc.filters);
      if k >= 0 {
        assert RuleMatches(s, cc.filters[k]);
      }
    }
  }

  /** Every channel's decision on the event. */
  function Decisions(s: string, chans: map<string, ChannelControl>): (dec: map<string, Decision>)
    requires Contains(s, AttackersKey)
    ensures dec.Keys == chans.Keys
  {
    map ch | ch in chans :: Decide(s, chans[ch])
  }

  /** The outer loop once each channel's decision is known: the deliveries
      made, in order, and the colour the shared embed is left with. */
  function Walk(order: seq<string>, dec: map<string, Decision>, colour: Colour): (seq<Delivery>, Colour)
    requires forall i :: 0 <= i < |order| ==> order[i] in dec
    decreases |order|
  {
    if order == [] then ([], colour)
    else
      var d := dec[order[0]];
      var c := if d == SendHighlighted then Green else colour;
      var rest := Walk(order[1..], dec, c);
      (if d == Skip then rest.0 else [Delivery(order[0], c)] + rest.0, rest.1)
  }

  /** The deliveries made for the event, and the embed's final colour. */
  function Route(s: string, chans: map<string, ChannelControl>, order: seq<string>, colour: Colour)
    : (seq<Delivery>, Colour)
    requires Contains(s, AttackersKey)
    requires forall i :: 0 <= i < |order| ==> order[i] in chans
  {
    Walk(order, Decisions(s, chans), colour)
  }

  /** One channel's turn in the outer loop (autbot.go:296-321): the filter
      loop that stops at the first matching rule and, when that rule
      highlights, turns the shared embed green before sending. */
  method VisitChannel(s: string, chCntrl: ChannelControl, colour: Colour)
    returns (send: bool, newColour: Colour)
    requires Contains(s, AttackersKey)
    ensures send <==> Decide(s, chCntrl) != Skip
    ensures newColour == if Decide(s, chCntrl) == SendHighlighted then Green else colour
  {
    send, newColour := false, colour;
    if chCntrl.enabled {
      if |chCntrl.filters| == 0 {
        send := true;
      } else {
        var j := 0;
        while j < |chCntrl.filters|
          invariant 0 <= j <= |chCntrl.filters|
          invariant forall k :: 0 <= k < j ==> !RuleMatches(s, chCntrl.filters[k])
          invariant !send && newColour == colour
        {
          var ruleSet := chCntrl.filters[j];
          if RuleMatches(s, ruleSet) {
            FirstMatchIs(s, chCntrl.filters, j);
            if Highlights(s, ruleSet) {
              newColour := Green;
            }
            send := true;
            break;
          }
          j := j + 1;
        }
        if !send {
          FirstMatchIs(s, chCntrl.filters, -1);
        }
      }
    }
  }

  /** The outer loop over the channels (autbot.go:295-322), visiting them in
      `order`, the iteration order of the Go map. */
  method RouteEvent(s: string, chans: map<string, ChannelControl>, order: seq<string>)
    returns (sent: seq<Delivery>, colour: Colour)
    requires Contains(s, AttackersKey)
    requires forall i :: 0 <= i < |order| ==> order[i] in chans
    ensures (sent, colour) == Route(s, chans, order, Red)
  {
    ghost var dec := Decisions(s, chans);
    sent, colour := [], Red;
    var i := 0;
    while i < |order|
      invariant 0 <= i <= |order|
      invariant sent == Walk(order[..i], dec, Red).0 && colour == Walk(order[..i], dec, Red).1
    {
      var chId := order[i];
      assert dec[chId] == Decide(s, chans[chId]);
      assert order[..i + 1] == order[..i] + [chId];
      WalkSnoc(order[..i], chId, dec, Red);
      var send;
      send, colour := VisitChannel(s, chans[chId], colour);
      if send {
        sent := sent + [Delivery(chId, colour)];
      }
      i := i + 1;
    }
    assert order[..i] == order;
    assert Route(s, chans, order, Red) == Walk(order, dec, Red);
  }

  /** Visiting one more channel moves the colour and, unless the channel
      skips, adds one delivery in the new colour. */
  lemma {:induction false} WalkSnoc(p: seq<string>, x: string, dec: map<string, Decision>, c0: Colour)
    requires forall k :: 0 <= k < |p| ==> p[k] in dec
    requires x in dec
    ensures Walk(p + [x], dec, c0).1 == if dec[x] == SendHighlighted then Green else Walk(p, dec, c0).1
    ensures Walk(p + [x], dec, c0).0
         == Walk(p, dec, c0).0 + (if dec[x] == Skip then [] else [Delivery(x, Walk(p + [x], dec, c0).1)])
    decreases |p|
  {
    var px := p + [x];
    if p == [] {
      assert px == [x] && px[1..] == [];
    } else {
      var c1 := if dec[p[0]] == SendHighlighted then Green else c0;
      assert px[0] == p[0] && px[1..] == p[1..] + [x];
      WalkSnoc(p[1..], x, dec, c1);
      var tail := if dec[x] == Skip then [] else [Delivery(x, Walk(px, dec, c0).1)];
      if dec[p[0]] != Skip {
        calc {
          Walk(px, dec, c0).0;
          [Delivery(p[0], c1)] + Walk(p[1..] + [x], dec, c1).0;
          [Delivery(p[0], c1)] + (Walk(p[1..], dec, c1).0 + tail);
          ([Delivery(p[0], c1)] + Walk(p[1..], dec, c1).0) + tail;
          Walk(p, dec, c0).0 + tail;
        }
      }
    }
  }

  // ---------------------------------------------------------------------
  // What the outer loop guarantees, whatever the decisions

  predicate DeliveredTo(ds: seq<Delivery>, ch: string)
  {
    exists i :: 0 <= i < |ds| && ds[i].channel == ch
  }

  /** Every delivery goes to a listed channel that does not skip; a
      highlighted channel's delivery is green; and a green delivery leaves
      the embed green. */
  lemma {:induction false} WalkDeliveries(order: seq<string>, dec: map<string, Decision>, c0: Colour)
    requires forall i :: 0 <= i < |order| ==> order[i] in dec
    ensures var (ds, fin) := Walk(order, dec, c0);
      && (forall i :: 0 <= i < |ds| ==> ds[i].channel in order && ds[i].channel in dec)
      && (forall i :: 0 <= i < |ds| ==> dec[ds[i].channel] != Skip)
      && (forall i :: 0 <= i < |ds| && dec[ds[i].channel] == SendHighlighted ==> ds[i].colour == Green)
      && (forall i :: 0 <= i < |ds| && ds[i].colour == Green ==> fin == Green)
    decreases |order|
  {
    if order != [] {
      var d := dec[order[0]];
      var c := if d == SendHighlighted then Green else c0;
      WalkDeliveries(order[1..], dec, c);
      if c == Green {
        GreenStaysGreen(order[1..], dec);
      }
      var rest := Walk(order[1..], dec, c).0;
      var ds := Walk(order, dec, c0).0;
      forall i | 0 <= i < |ds|
        ensures ds[i].channel in order
      {
        if d != Skip && i > 0 {
          assert ds[i] == rest[i - 1];
        } else if d == Skip {
          assert ds[i] == rest[i];
        }
      }
    }
  }

  /** Once the shared embed is green, every delivery is green and it ends green. */
  lemma {:induction false} GreenStaysGreen(order: seq<string>, dec: map<string, Decision>)
    requires forall i :: 0 <= i < |order| ==> order[i] in dec
    ensures var (ds, fin) := Walk(order, dec, Green);
      fin == Green && forall i :: 0 <= i < |ds| ==> ds[i].colour == Green
    decreases |order|
  {
    if order != [] {
      GreenStaysGreen(order[1..], dec);
    }
  }

  /** After a green delivery every later delivery is green too. */
  lemma {:induction false} WalkColourSticks(order: seq<string>, dec: map<string, Decision>, c0: Colour)
    requires forall i :: 0 <= i < |order| ==> order[i] in dec
    ensures var ds := Walk(order, dec, c0).0;
      forall i, j :: 0 <= i < j < |ds| && ds[i].colour == Green ==> ds[j].colour == Green
    decreases |order|
  {
    if order != [] {
      var d := dec[order[0]];
      var c := if d == SendHighlighted then Green else c0;
      WalkColourSticks(order[1..], dec, c);
      if c == Green {
        GreenStaysGreen(order[1..], dec);
      }
      var rest := Walk(order[1..], dec, c).0;
      var ds := Walk(order, dec, c0).0;
      if d != Skip {
        assert ds == [Delivery(order[0], c)] + rest;
        forall i, j | 0 <= i < j < |ds| && ds[i].colour == Green
          ensures ds[j].colour == Green
        {
          assert ds[j] == rest[j - 1];
          if i > 0 {
            assert ds[i] == rest[i - 1];
          }
        }
      }
    }
  }

  /** A listed channel that does not skip receives the event. */
  lemma {:induction false} WalkReachesIf(order: seq<string>, dec: map<string, Decision>, c0: Colour, ch: string)
    requires forall i :: 0 <= i < |order| ==> order[i] in dec
    requires ch in order && dec[ch] != Skip
    ensures DeliveredTo(Walk(order, dec, c0).0, ch)
    decreases |order|
  {
    var d := dec[order[0]];
    var c := if d == SendHighlighted then Green else c0;
    var rest := Walk(order[1..], dec, c).0;
    var ds := Walk(order, dec, c0).0;
    if order[0] == ch {
      assert ds[0] == Delivery(ch, c);
    } else {
      var k :| 0 <= k < |order| && order[k] == ch;
      assert order[1..][k - 1] == ch;
      WalkReachesIf(order[1..], dec, c, ch);
      var i :| 0 <= i < |rest| && rest[i].channel == ch;
      if d == Skip {
        assert ds[i] == rest[i];
      } else {
        assert ds[i + 1] == rest[i];
      }
    }
  }

  /** A listed channel receives the event exactly when it does not skip. */
  lemma WalkReaches(order: seq<string>, dec: map<string, Decision>, c0: Colour, ch: string)
    requires forall i :: 0 <= i < |order| ==> order[i] in dec
    requires ch in order
    ensures DeliveredTo(Walk(order, dec, c0).0, ch) <==> dec[ch] != Skip
  {
    var ds := Walk(order, dec, c0).0;
    WalkDeliveries(order, dec, c0);
    if DeliveredTo(ds, ch) {
      var i :| 0 <= i < |ds| && ds[i].channel == ch;
    }
    if dec[ch] != Skip {
      WalkReachesIf(order, dec, c0, ch);
    }
  }

  predicate NoDuplicates(order: seq<string>)
  {
    forall i, j :: 0 <= i < j < |order| ==> order[i] != order[j]
  }

  /** With each channel listed once, no channel receives the event twice. */
  lemma {:induction false} WalkAtMostOnce(order: seq<string>, dec: map<string, Decision>, c0: Colour)
    requires forall i :: 0 <= i < |order| ==> order[i] in dec
    requires NoDuplicates(order)
    ensures var ds := Walk(order, dec, c0).0;
      forall i, j :: 0 <= i < j < |ds| ==> ds[i].channel != ds[j].channel
    decreases |order|
  {
    if order != [] {
      var d := dec[order[0]];
      var c := if d == SendHighlighted then Green else c0;
      var rest := Walk(order[1..], dec, c).0;
      assert NoDuplicates(order[1..]) by {
        forall i, j | 0 <= i < j < |order| - 1 ensures order[1..][i] != order[1..][j] {
          assert order[1..][i] == order[i + 1] && order[1..][j] == order[j + 1];
        }
      }
      WalkAtMostOnce(order[1..], dec, c);
      WalkDeliveries(order[1..], dec, c);
      assert order[0] !in order[1..] by {
        forall k | 0 <= k < |order| - 1 ensures order[1..][k] != order[0] {
          assert order[1..][k] == order[k + 1];
        }
      }
      var ds := Walk(order, dec, c0).0;
      assert rest == Walk(order[1..], dec, c).0;
      if d != Skip {
        forall i, j | 0 <= i < j < |ds| ensures ds[i].channel != ds[j].channel {
          assert ds[j] == rest[j - 1];
          if i > 0 {
            assert ds[i] == rest[i - 1];
          }
        }
      }
    }
  }

  /** The embed ends green exactly when it started green or some listed
      channel highlighted. */
  lemma {:induction false} WalkFinalColour(order: seq<string>, dec: map<string, Decision>, c0: Colour)
    requires forall i :: 0 <= i < |order| ==> order[i] in dec
    ensures Walk(order, dec, c0).1 == Green
        <==> c0 == Green || exists k :: 0 <= k < |order| && dec[order[k]] == SendHighlighted
    decreases |order|
  {
    if order != [] {
      var d := dec[order[0]];
      var c := if d == SendHighlighted then Green else c0;
      WalkFinalColour(order[1..], dec, c);
      if exists k :: 1 <= k < |order| && dec[order[k]] == SendHighlighted {
        var k :| 1 <= k < |order| && dec[order[k]] == SendHighlighted;
        assert order[1..][k - 1] == order[k];
      }
      if exists k :: 0 <= k < |order| - 1 && dec[order[1..][k]] == SendHighlighted {
        var k :| 0 <= k < |order| - 1 && dec[order[1..][k]] == SendHighlighted;
        assert order[1..][k] == order[k + 1];
      }
    }
  }

  /** Nothing highlights: starting red, every delivery is red. */
  lemma NoHighlightAllRed(order: seq<string>, dec: map<string, Decision>)
    requires forall i :: 0 <= i < |order| ==> order[i] in dec
    requires forall k :: 0 <= k < |order| ==> dec[order[k]] != SendHighlighted
    ensures var ds := Walk(order, dec, Red).0;
      forall i :: 0 <= i < |ds| ==> ds[i].colour == Red
  {
    WalkFinalColour(order, dec, Red);
    WalkDeliveries(order, dec, Red);
  }

  // ---------------------------------------------------------------------
  // What routing guarantees, with the decisions the channels' rules make

  /** Only enabled channels receive the event, and a channel listed in
      `order` receives it exactly when its decision is not Skip. */
  lemma RouteReaches(s: string, chans: map<string, ChannelControl>, order: seq<string>, c0: Colour)
    requires Contains(s, AttackersKey)
    requires forall i :: 0 <= i < |order| ==> order[i] in chans
    ensures var ds := Route(s, chans, order, c0).0;
      && (forall i :: 0 <= i < |ds| ==> IsEnabled(chans, ds[i].channel))
      && (forall ch :: ch in order ==> (DeliveredTo(ds, ch) <==> Decide(s, chans[ch]) != Skip))
  {
    var dec := Decisions(s, chans);
    var ds := Walk(order, dec, c0).0;
    assert forall i :: 0 <= i < |order| ==> order[i] in dec;
    WalkDeliveries(order, dec, c0);
    assert ds == Walk(order, dec, c0).0;
    forall i | 0 <= i < |ds|
      ensures IsEnabled(chans, ds[i].channel)
    {
      var ch := ds[i].channel;
      assert ch in dec && dec[ch] != Skip;
      DecideMeaning(s, chans[ch]);
    }
    forall ch | ch in order
      ensures DeliveredTo(ds, ch) <==> Decide(s, chans[ch]) != Skip
    {
      WalkReaches(order, dec, c0, ch);
    }
  }

  /** An enabled channel without filters receives every event. */
  lemma UnfilteredAlwaysReceives(s: string, chans: map<string, ChannelControl>, order: seq<string>, ch: string)
    requires Contains(s, AttackersKey)
    requires forall i :: 0 <= i < |order| ==> order[i] in chans
    requires ch in order && chans[ch].enabled && chans[ch].filters == []
    ensures DeliveredTo(Route(s, chans, order, Red).0, ch)
  {
    WalkReaches(order, Decisions(s, chans), Red, ch);
  }
}
