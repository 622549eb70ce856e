/** Payload extraction and normalisation (autbot.go:194-265): the kill ID
    cut out of the raw RedisQ text, the decoded killmail as a datatype
    with optional fields, side resolution and the final-blow search. */
module Killmail {
  import opened Common
  import opened Text

  // ---------------------------------------------------------------------
  // The decoded payload. Identifiers are the decimal strings that
  // strconv.FormatFloat(id, 'f', 0, 64) renders; an absent JSON key is None.

  datatype Victim = Victim(
    characterId: Option<string>, corporationId: string,
    allianceId: Option<string>, shipTypeId: string)

  datatype Attacker = Attacker(
    characterId: Option<string>, corporationId: string,
    allianceId: Option<string>, finalBlow: bool)

  /** `totalValue` is the zkb value already rendered with two decimals. */
  datatype Killmail = Killmail(victim: Victim, attackers: seq<Attacker>, totalValue: string)

  // ---------------------------------------------------------------------
  // Kill ID and permalink (autbot.go:198-207)

  const KillLinkPrefix: string := "https://zkillboard.com/kill/"

  /** The third ':'-field of the text before the first ',', or None when the
      payload has no ',' or that text has fewer than two ':'. */
  function ExtractKillId(s: string): (r: Option<string>)
    ensures ',' !in s ==> r.None?
    ensures r.Some? ==> ',' !in r.value && ':' !in r.value
  {
    var x := Split(s, ',');
    SplitPieces(s, ',');
    if |x| < 2 then None
    else
      var y := Split(x[0], ':');
      SplitPieces(x[0], ':');
      SplitFromText(x[0], ':');
      if |y| < 3 then None else Some(y[2])
  }

  /** Two ':'-separated fields before the ID, then ',' and anything. */
  lemma KillIdAfterTwoFields(a: string, b: string, id: string, rest: string)
    requires ',' !in a && ':' !in a && ',' !in b && ':' !in b
    requires ',' !in id && ':' !in id
    ensures ExtractKillId(a + [':'] + b + [':'] + id + [','] + rest) == Some(id)
  {
    var tail := b + [':'] + id;
    var head := a + [':'] + tail;
    assert ',' !in head;
    calc {
      Split(a + [':'] + b + [':'] + id + [','] + rest, ',');
      { assert a + [':'] + b + [':'] + id + [','] + rest == head + [','] + rest; }
      Split(head + [','] + rest, ',');
      { SplitAfterPiece(head, ',', rest); }
      [head] + Split(rest, ',');
    }
    calc {
      Split(head, ':');
      { SplitAfterPiece(a, ':', tail); }
      [a] + Split(tail, ':');
      { SplitAfterPiece(b, ':', id); }
      [a] + ([b] + Split(id, ':'));
      { SplitPieces(id, ':'); }
      [a, b, id];
    }
  }

  /** Fewer than three ':'-fields before the first ',' give no kill. */
  lemma FewFieldsNoKill(a: string, b: string, rest: string)
    requires ',' !in a && ':' !in a && ',' !in b && ':' !in b
    ensures ExtractKillId(a + [','] + rest) == None
    ensures ExtractKillId(a + [':'] + b + [','] + rest) == None
  {
    SplitAfterPiece(a, ',', rest);
    SplitPieces(a, ':');
    var head := a + [':'] + b;
    assert ',' !in head;
    assert a + [':'] + b + [','] + rest == head + [','] + rest;
    SplitAfterPiece(head, ',', rest);
    SplitAfterPiece(a, ':', b);
    SplitPieces(b, ':');
  }

  /** A queue answer with a kill starts `{"package":{"killID":<id>,`:
      the extracted ID is exactly <id>. */
  lemma KillIdOfPackage(id: string, rest: string)
    requires ',' !in id && ':' !in id
    ensures ExtractKillId("{\"package\":{\"killID\":" + id + "," + rest) == Some(id)
  {
    var a := "{\"package\"";
    var b := "{\"killID\"";
    assert "{\"package\":{\"killID\":" + id + "," + rest == a + [':'] + b + [':'] + id + [','] + rest;
    KillIdAfterTwoFields(a, b, id, rest);
  }

  /** The empty-queue answer yields no kill. */
  lemma EmptyQueueHasNoKill()
    ensures ExtractKillId("{\"package\":null}") == None
  {
    assert ',' !in "{\"package\":null}";
  }

  // ---------------------------------------------------------------------
  // Side resolution (autbot.go:230-237, 251-258)

  datatype Side = Side(kind: string, id: string)

  /** Alliance if present, otherwise corporation. */
  function SideOf(allianceId: Option<string>, corporationId: string): (r: Side)
    ensures r.kind == "alliances" || r.kind == "corporations"
    ensures r.kind == "alliances" <==> allianceId.Some?
    ensures r.id == if allianceId.Some? then allianceId.value else corporationId
  {
    match allianceId
    case Some(a) => Side("alliances", a)
    case None => Side("corporations", corporationId)
  }

  function VictimSide(v: Victim): Side
  {
    SideOf(v.allianceId, v.corporationId)
  }

  // ---------------------------------------------------------------------
  // Final-blow attacker (autbot.go:239-265)

  /** NoFinalBlow: no attacker has final_blow (the Go variables stay "").
      Npc: the killer has no character_id. */
  datatype Killer = NoFinalBlow | Npc | Pilot(characterId: string, side: Side)

  function KillerOf(a: Attacker): (k: Killer)
    ensures k != NoFinalBlow
    ensures k == Npc <==> a.characterId.None?
    ensures k.Pilot? ==> a.characterId == Some(k.characterId)
    ensures k.Pilot? ==> k.side == SideOf(a.allianceId, a.corporationId)
  {
    match a.characterId
    case None => Npc
    case Some(c) => Pilot(c, SideOf(a.allianceId, a.corporationId))
  }

  /** Index of the first attacker with final_blow, or -1. */
  function FirstFinalBlow(attackers: seq<Attacker>): (k: int)
    ensures -1 <= k < |attackers|
    ensures k >= 0 ==> attackers[k].finalBlow
    ensures forall j :: 0 <= j < |attackers| && (k < 0 || j < k) ==> !attackers[j].finalBlow
    decreases |attackers|
  {
    if attackers == [] then -1
    else if attackers[0].finalBlow then 0
    else
      var k := FirstFinalBlow(attackers[1..]);
      if k < 0 then -1 else k + 1
  }

  /** What the search leaves in attackerID / attackerSide*. */
  function FinalBlowKiller(attackers: seq<Attacker>): Killer
  {
    var k := FirstFinalBlow(attackers);
    if k < 0 then NoFinalBlow else KillerOf(attackers[k])
  }

  /** The loop with `break` over the attacker list. */
  method FindKiller(attackers: seq<Attacker>) returns (killer: Killer)
    ensures killer == NoFinalBlow <==> forall i :: 0 <= i < |attackers| ==> !attackers[i].finalBlow
    ensures killer != NoFinalBlow ==>
      exists i :: 0 <= i < |attackers| && attackers[i].finalBlow && killer == KillerOf(attackers[i]) &&
                  forall j :: 0 <= j < i ==> !attackers[j].finalBlow
    ensures killer == FinalBlowKiller(attackers)
  {
    killer := NoFinalBlow;
    var i := 0;
    while i < |attackers|
      invariant 0 <= i <= |attackers|
      invariant forall j :: 0 <= j < i ==> !attackers[j].finalBlow
      invariant killer == NoFinalBlow
    {
      var attacker := attackers[i];
      if attacker.finalBlow {
        if attacker.characterId.Some? {
          killer := Pilot(attacker.characterId.value, SideOf(attacker.allianceId, attacker.corporationId));
        } else {
          killer := Npc;
        }
        break;
      }
      i := i + 1;
    }
  }

  // ---------------------------------------------------------------------
  // The normalised view that the notification is built from

  datatype Normalized = Normalized(
    link: string, victimCharacter: string, victimSide: Side,
    shipTypeId: string, killer: Killer, attackerCount: nat)

  function Normalize(killId: string, km: Killmail): Normalized
    requires km.victim.characterId.Some?
  {
    Normalized(KillLinkPrefix + killId + "/", km.victim.characterId.value, VictimSide(km.victim),
               km.victim.shipTypeId, FinalBlowKiller(km.attackers), |km.attackers|)
  }
}
