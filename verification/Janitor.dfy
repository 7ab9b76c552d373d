/** The writers of the pin registry: the pin request, its deletion, and the hourly janitor. */
module Janitor {
  import opened Wrappers
  import opened MachineInt
  import opened Text
  import opened Pinning
  import opened Order

  // ── What kubo says about a content ───────────────────────────────────

  datatype MesureTaille = Detenu(octets: nat) | NonDetenu | Indeterminee(raison: string)

  function Octets(m: MesureTaille): nat
  {
    if m.Detenu? then m.octets else 0
  }

  /** The two fields of a JSON answer that matter: `CumulativeSize` when it is an
      unsigned 64-bit number, `Message` when it is a string. */
  datatype Json = Json(cumulativeSize: Option<nat>, message: Option<string>)

  /** An answer of `files/stat`: its text, and what it parses to if it is JSON. */
  datatype Body = Body(text: string, json: Option<Json>)

  /** Only an explicit size counts as held, and only an explicit absence as not held:
      everything else is an admission of ignorance. */
  function InterpreterStat(succes: bool, corps: Body): (m: MesureTaille)
    ensures m.Detenu? <==> succes && corps.json.Some? && corps.json.value.cumulativeSize.Some?
    ensures m.Detenu? ==> corps.json.value.cumulativeSize == Some(m.octets)
    ensures m.NonDetenu? <==>
            !succes && (Contains(corps.text, "not found locally") || Contains(corps.text, "could not find"))
    ensures m.Indeterminee? && !succes ==>
              || (corps.json.Some? && corps.json.value.message == Some(m.raison))
              || (m.raison <= corps.text && |m.raison| == Min(|corps.text|, 120))
  {
    if succes then
      match corps.json
      case None => Indeterminee("réponse non JSON")
      case Some(j) =>
        match j.cumulativeSize
        case Some(n) => Detenu(n)
        case None => Indeterminee("réponse sans CumulativeSize")
    else if Contains(corps.text, "not found locally") || Contains(corps.text, "could not find") then NonDetenu
    else
      match corps.json
      case Some(Json(_, Some(message))) => Indeterminee(message)
      case _ => Indeterminee(if |corps.text| <= 120 then corps.text else corps.text[..120])
  }

  /** What a request to kubo yields: no connection, an unreadable body, or an answer. */
  datatype Answer = Unreachable | Unreadable | Answered(succes: bool, corps: Body)

  /** No answer is never an absence. */
  function TailleDetenue(a: Answer): (m: MesureTaille)
    ensures m.Detenu? <==>
            && a.Answered? && a.succes && a.corps.json.Some? && a.corps.json.value.cumulativeSize.Some?
    ensures m.Detenu? ==> a.corps.json.value.cumulativeSize == Some(m.octets)
    ensures m.NonDetenu? <==>
            && a.Answered? && !a.succes
            && (Contains(a.corps.text, "not found locally") || Contains(a.corps.text, "could not find"))
  {
    match a
    case Unreachable => Indeterminee("kubo injoignable")
    case Unreadable => Indeterminee("réponse illisible")
    case Answered(succes, corps) => InterpreterStat(succes, corps)
  }

  // ── The two handlers ─────────────────────────────────────────────────

  datatype PinReq = PinReq(cid: string, moduleName: string, ttlHours: Option<nat>)

  /** Kubo's part in one pin request: whether `pin/add` worked, and its answer to `files/stat`. */
  datatype Kubo = Kubo(pinAdd: bool, stat: Answer)

  datatype PinReply = BadRequest | Forbidden | BadGateway | Ok200(record: PinRecord) | Accepted202(record: PinRecord)

  /** Nothing is recorded unless the reply says so. What is recorded has the module's own rule or
      the policy's default for its lifetime, unless the request gives one, and a size only
      if kubo gave an explicit one; and the reply is 200 exactly when that is positive. */
  method PostPin(tracker: PinTracker, req: PinReq, kubo: Option<Kubo>, now: nat, fate: WriteFate)
    returns (reply: PinReply)
    requires tracker.Valid()
    modifies tracker
    ensures tracker.Valid() && tracker.policy == old(tracker.policy)
    ensures var policy := old(tracker.policy);
            var rule := if req.moduleName in policy.modules then policy.modules[req.moduleName] else policy.defaultRule;
            var refused := kubo.Some? && !kubo.value.pinAdd;
            && (reply.BadRequest? <==> req.cid == "")
            && (reply.Forbidden? <==> req.cid != "" && !rule.enabled)
            && (reply.BadGateway? <==> req.cid != "" && rule.enabled && refused)
            && (reply.Ok200? || reply.Accepted202? ==>
                  && reply.record.cid == req.cid && reply.record.moduleName == req.moduleName
                  && reply.record.pinnedAt == now
                  && reply.record.ttlSecs ==
                     3600 * (if req.ttlHours.Some? then req.ttlHours.value else rule.defaultTtlHours))
    ensures reply.Ok200? || reply.Accepted202? ==>
              && (reply.Ok200? <==> reply.record.sizeBytes > 0)
              && tracker.pins == old(tracker.pins)[req.cid := reply.record]
              && tracker.Value() == ApplyOp(old(tracker.Value()), Upsert(reply.record), fate)
              && reply.record.sizeBytes ==
                 match if kubo.Some? then TailleDetenue(kubo.value.stat) else NonDetenu
                 case Detenu(n) => n
                 case _ => 0
    ensures !(reply.Ok200? || reply.Accepted202?) ==> tracker.Value() == old(tracker.Value())
  {
    if req.cid == "" {
      return BadRequest;
    }
    var rule := RuleFor(tracker.policy, req.moduleName);
    if !rule.enabled {
      return Forbidden;
    }
    var ttlHours := if req.ttlHours.Some? then req.ttlHours.value else rule.defaultTtlHours;
    var ttlSecs := ttlHours * 3600;
    var sizeBytes := 0;
    if kubo.Some? {
      if !kubo.value.pinAdd {
        return BadGateway;
      }
      var mesure := TailleDetenue(kubo.value.stat);
      sizeBytes := Octets(mesure);
    }
    var rec := PinRecord(req.cid, req.moduleName, now, ttlSecs, sizeBytes);
    tracker.Insert(rec, fate);
    return if sizeBytes > 0 then Ok200(rec) else Accepted202(rec);
  }

  /** The record goes whatever kubo thinks of it; the reply tells whether there was one. */
  method DeletePin(tracker: PinTracker, cid: string, fate: WriteFate) returns (noContent: bool)
    modifies tracker
    ensures tracker.Valid()
    ensures tracker.Value() == ApplyOp(old(tracker.Value()), Remove(cid), fate)
    ensures noContent <==> cid in old(tracker.pins)
  {
    var removed := tracker.Drop(cid, fate);
    return removed.Some?;
  }

  // ── Expiry ───────────────────────────────────────────────────────────

  lemma DroppedTwice(pins: Pins, gone: set<string>, c: string)
    ensures pins - gone - {c} == pins - (gone + {c})
  {
  }

  /** The expired contents that kubo is asked to unpin and does not refuse; without kubo, all. */
  function Gone(cids: seq<string>, pinRm: Option<string -> bool>): set<string>
  {
    set c | c in cids && (pinRm.None? || pinRm.value(c))
  }

  lemma GoneOneMore(cids: seq<string>, i: nat, pinRm: Option<string -> bool>)
    requires i < |cids|
    ensures Gone(cids[..i + 1], pinRm) ==
            Gone(cids[..i], pinRm) + if pinRm.Some? && !pinRm.value(cids[i]) then {} else {cids[i]}
  {
    assert cids[..i + 1] == cids[..i] + [cids[i]];
  }

  /** The loop over what had expired. */
  method RemoveExpired(tracker: PinTracker, expired: seq<string>, pinRm: Option<string -> bool>,
                       fates: string -> WriteFate)
    requires tracker.Valid()
    modifies tracker
    ensures tracker.Valid() && tracker.policy == old(tracker.policy)
    ensures tracker.pins == old(tracker.pins) - Gone(expired, pinRm)
    ensures old(InSync(tracker.Value())) && (forall c :: fates(c).Saved?) ==> InSync(tracker.Value())
  {
    ghost var gone := {};
    for i := 0 to |expired|
      invariant tracker.Valid() && tracker.policy == old(tracker.policy)
      invariant gone == Gone(expired[..i], pinRm) && tracker.pins == old(tracker.pins) - gone
      invariant old(InSync(tracker.Value())) && (forall c :: fates(c).Saved?) ==> InSync(tracker.Value())
    {
      GoneOneMore(expired, i, pinRm);
      if pinRm.Some? && !pinRm.value(expired[i]) {
        continue;
      }
      var _ := tracker.Drop(expired[i], fates(expired[i]));
      DroppedTwice(old(tracker.pins), gone, expired[i]);
      gone := gone + {expired[i]};
    }
    assert expired[..|expired|] == expired;
  }

  /** A pass removes exactly the records that had expired when it looked and whose
      unpinning kubo did not refuse; without kubo, all of the expired ones. */
  method ExpiryPass(tracker: PinTracker, pinRm: Option<string -> bool>, now: nat, fates: string -> WriteFate)
    requires tracker.Valid() && WellKeyed(tracker.pins)
    modifies tracker
    ensures tracker.Valid() && tracker.policy == old(tracker.policy)
    ensures forall k :: k in tracker.pins <==>
                        && k in old(tracker.pins)
                        && !(Expired(old(tracker.pins)[k], now) && (pinRm.None? || pinRm.value(k)))
    ensures forall k | k in tracker.pins :: tracker.pins[k] == old(tracker.pins)[k]
    ensures old(InSync(tracker.Value())) && (forall c :: fates(c).Saved?) ==> InSync(tracker.Value())
  {
    var expired := tracker.ExpiredCids(now);
    RemoveExpired(tracker, expired, pinRm, fates);
  }

  // ── Re-measuring ─────────────────────────────────────────────────────

  const PLAFOND_REMESURE: nat := 500

  /** The table once the records of `batch` have been measured: only a positive size changes one. */
  function Remeasured(pins: Pins, batch: set<string>, measure: string -> MesureTaille): Pins
  {
    map k | k in pins ::
      if k in batch && Octets(measure(k)) > 0 then pins[k].(sizeBytes := Octets(measure(k))) else pins[k]
  }

  /** A full batch of unmeasured records: five hundred, or all there are. */
  predicate IsBatch(pins: Pins, batch: set<string>)
  {
    batch <= Unmeasured(pins) && |batch| == Min(PLAFOND_REMESURE, |Unmeasured(pins)|)
  }

  /** The first records still at zero, in some order of the table. */
  method ChooseBatch(pins: Pins) returns (toMeasure: seq<string>)
    requires WellKeyed(pins)
    ensures IsBatch(pins, Elements(toMeasure))
  {
    toMeasure := [];
    var rest := Unmeasured(pins);
    while rest != {} && |toMeasure| < PLAFOND_REMESURE
      invariant rest <= Unmeasured(pins)
      invariant Elements(toMeasure) == Unmeasured(pins) - rest
      invariant |toMeasure| + |rest| == |Unmeasured(pins)| && |toMeasure| <= PLAFOND_REMESURE
      invariant |Elements(toMeasure)| == |toMeasure|
      decreases rest
    {
      var k :| k in rest;
      assert Elements(toMeasure + [k]) == Elements(toMeasure) + {k};
      rest := rest - {k};
      toMeasure := toMeasure + [pins[k].cid];
    }
  }

  /** Setting one record's size, if there is such a record. */
  function WithSize(pins: Pins, cid: string, n: nat): Pins
  {
    if cid in pins then pins[cid := pins[cid].(sizeBytes := n)] else pins
  }

  lemma ApplyOneMore(pins: Pins, found: seq<(string, nat)>, cid: string, n: nat)
    ensures ApplySizes(pins, found + [(cid, n)]).0 == WithSize(ApplySizes(pins, found).0, cid, n)
  {
    var longer := found + [(cid, n)];
    assert longer[..|longer| - 1] == found;
  }

  lemma RemeasuredGrows(pins: Pins, done: set<string>, cid: string, measure: string -> MesureTaille)
    ensures var n := Octets(measure(cid));
            Remeasured(pins, done + {cid}, measure) ==
            if n > 0 then WithSize(Remeasured(pins, done, measure), cid, n) else Remeasured(pins, done, measure)
  {
  }

  lemma MeasureOne(pins: Pins, found: seq<(string, nat)>, done: set<string>, cid: string,
                   measure: string -> MesureTaille)
    requires ApplySizes(pins, found).0 == Remeasured(pins, done, measure)
    ensures var n := Octets(measure(cid));
            Remeasured(pins, done + {cid}, measure) ==
            ApplySizes(pins, if n > 0 then found + [(cid, n)] else found).0
  {
    ApplyOneMore(pins, found, cid, Octets(measure(cid)));
    RemeasuredGrows(pins, done, cid, measure);
  }

  /** Asks kubo about each, and keeps the positive answers. */
  method MeasureAll(ghost pins: Pins, toMeasure: seq<string>, measure: string -> MesureTaille)
    returns (found: seq<(string, nat)>)
    ensures ApplySizes(pins, found).0 == Remeasured(pins, Elements(toMeasure), measure)
  {
    found := [];
    for i := 0 to |toMeasure|
      invariant ApplySizes(pins, found).0 == Remeasured(pins, Elements(toMeasure[..i]), measure)
    {
      var cid := toMeasure[i];
      var m := measure(cid);
      MeasureOne(pins, found, Elements(toMeasure[..i]), cid, measure);
      assert Elements(toMeasure[..i + 1]) == Elements(toMeasure[..i]) + {cid};
      if m.Detenu? && m.octets > 0 {
        found := found + [(cid, m.octets)];
      }
    }
    assert toMeasure[..|toMeasure|] == toMeasure;
  }

  /** `after` results from `before` by one re-measure pass, whatever the batch. */
  ghost predicate IsPass(before: Pins, after: Pins, measure: string -> MesureTaille)
  {
    exists batch :: IsBatch(before, batch) && after == Remeasured(before, batch, measure)
  }

  /** One re-measure pass. */
  method RemeasurePass(tracker: PinTracker, measure: string -> MesureTaille, fate: WriteFate)
    requires tracker.Valid() && WellKeyed(tracker.pins)
    modifies tracker
    ensures tracker.Valid() && tracker.policy == old(tracker.policy)
    ensures IsPass(old(tracker.pins), tracker.pins, measure)
    ensures old(InSync(tracker.Value())) && fate.Saved? ==> InSync(tracker.Value())
  {
    var toMeasure := ChooseBatch(tracker.pins);
    var found := MeasureAll(tracker.pins, toMeasure, measure);
    ApplySizesKeepsKeys(tracker.pins, found);
    if found != [] {
      var _ := tracker.UpdateSizes(found, fate);
    }
    assert IsBatch(old(tracker.pins), Elements(toMeasure));
  }
}
