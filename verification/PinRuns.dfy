/** What the pin registry keeps when requests, deletions and the janitor interleave,
    and how fast the janitor converges when left alone. */
module PinRuns {
  import opened Wrappers
  import opened Pinning
  import opened Janitor
  import opened Order

  // ── Convergence of re-measuring ──────────────────────────────────────

  /** A sequence of tables, each obtained from the one before by a re-measure pass. */
  ghost predicate Passes(chain: seq<Pins>, measure: string -> MesureTaille)
  {
    && chain != []
    && (|chain| > 1 ==>
          && IsPass(chain[|chain| - 2], chain[|chain| - 1], measure)
          && Passes(chain[..|chain| - 1], measure))
  }

  /** Kubo answers with an explicit positive size. */
  predicate Measured(measure: string -> MesureTaille, k: string)
  {
    measure(k).Detenu? && measure(k).octets > 0
  }

  /** The record as it was, or, if it was at zero, with the size that kubo gave for it. */
  predicate TakesSize(before: Pins, after: Pins, measure: string -> MesureTaille, k: string)
  {
    && k in before && k in after
    && (after[k] == before[k] || (before[k].sizeBytes == 0 && Measured(measure, k)
                                  && after[k] == before[k].(sizeBytes := measure(k).octets)))
  }

  /** The records of the batch that kubo turned out to hold. */
  function Answered(batch: set<string>, measure: string -> MesureTaille): set<string>
  {
    set k | k in batch && Measured(measure, k)
  }

  lemma PassSets(pins: Pins, batch: set<string>, measure: string -> MesureTaille)
    requires batch <= Unmeasured(pins)
    ensures var (pins', answered) := (Remeasured(pins, batch, measure), Answered(batch, measure));
            && pins'.Keys == pins.Keys && answered <= Unmeasured(pins) && Held(pins) !! answered
            && Unmeasured(pins') == Unmeasured(pins) - answered
            && Held(pins') == Held(pins) + answered
  {
  }

  lemma PassMeasures(pins: Pins, batch: set<string>, measure: string -> MesureTaille)
    requires batch <= Unmeasured(pins)
    ensures var (pins', answered) := (Remeasured(pins, batch, measure), Answered(batch, measure));
            && Unmeasured(pins') == Unmeasured(pins) - answered
            && |Unmeasured(pins')| == |Unmeasured(pins)| - |answered|
            && |Held(pins')| == |Held(pins)| + |answered|
  {
    PassSets(pins, batch, measure);
  }

  function Left(z: nat, passes: nat): nat
  {
    if z <= 500 * passes then 0 else z - 500 * passes
  }

  lemma OnePassConverges(before: Pins, after: Pins, measure: string -> MesureTaille)
    requires IsPass(before, after, measure)
    requires forall k | k in Unmeasured(before) :: Measured(measure, k)
    ensures Unmeasured(after) <= Unmeasured(before)
    ensures |Unmeasured(after)| == Left(|Unmeasured(before)|, 1)
    ensures |Held(after)| == |Held(before)| + |Unmeasured(before)| - |Unmeasured(after)|
    ensures forall k | k in before :: TakesSize(before, after, measure, k)
  {
    var batch :| IsBatch(before, batch) && after == Remeasured(before, batch, measure);
    PassMeasures(before, batch, measure);
    assert Answered(batch, measure) == batch;
  }

  /** When kubo holds everything that is still at zero, k passes leave exactly
      max(0, z − 500·k) records at zero and turn all the others into held contents, each
      with the size kubo gave for it and otherwise as it was. */
  lemma {:induction false} RemeasureConverges(chain: seq<Pins>, measure: string -> MesureTaille)
    requires Passes(chain, measure)
    requires forall k | k in Unmeasured(chain[0]) :: Measured(measure, k)
    ensures var last, z := chain[|chain| - 1], |Unmeasured(chain[0])|;
            && Unmeasured(last) <= Unmeasured(chain[0])
            && |Unmeasured(last)| == Left(z, |chain| - 1)
            && |Held(last)| == |Held(chain[0])| + z - Left(z, |chain| - 1)
            && (forall k | k in chain[0] :: TakesSize(chain[0], last, measure, k))
    decreases |chain|
  {
    if |chain| > 1 {
      RemeasureConverges(chain[..|chain| - 1], measure);
      OnePassConverges(chain[|chain| - 2], chain[|chain| - 1], measure);
    }
  }

  /** The converse side of the bounded batch: a pass whose batch holds nothing that kubo
      has changes nothing, so a table scanned in the same order stays where it is. */
  lemma AbsentBatchStalls(pins: Pins, batch: set<string>, measure: string -> MesureTaille)
    requires IsBatch(pins, batch)
    ensures Remeasured(pins, batch, measure) == pins <==> forall k | k in batch :: !Measured(measure, k)
  {
    var pins' := Remeasured(pins, batch, measure);
    if k :| k in batch && Measured(measure, k) {
      assert pins'[k].sizeBytes != pins[k].sizeBytes;
    }
  }

  // ── Interleavings ────────────────────────────────────────────────────

  /** A pin request that has its measure and not yet its record, or none of both. */
  datatype Pending = Pending(cid: string, sizeBytes: nat)

  /** `reports` is the history of kubo's answers: each size it ever gave for a content.
      `found` is what the janitor's current pass has collected. */
  datatype State = State(pins: Pins, requests: map<nat, Pending>,
                         found: seq<(string, nat)>, reports: set<(string, nat)>)

  datatype Step =
    | Ask(h: nat, cid: string, kubo: Option<Answer>)
    | Record(h: nat, moduleName: string, now: nat, ttlSecs: nat)
    | GiveUp(h: nat)
    | DeleteRecord(cid: string)
    | JanitorAsks(cid: string, answer: Answer)
    | JanitorApplies
    | JanitorExpires(cid: string)

  const INITIAL := State(map[], map[], [], {})

  function Reported(s: State, cid: string, m: MesureTaille): set<(string, nat)>
  {
    if m.Detenu? then s.reports + {(cid, m.octets)} else s.reports
  }

  /** One access to the table, or one answer of kubo. */
  function Next(s: State, step: Step): State
  {
    match step
    case Ask(h, cid, kubo) =>
      if kubo.None? then s.(requests := s.requests[h := Pending(cid, 0)])
      else
        var m := TailleDetenue(kubo.value);
        s.(requests := s.requests[h := Pending(cid, Octets(m))], reports := Reported(s, cid, m))
    case Record(h, moduleName, now, ttlSecs) =>
      if h !in s.requests then s
      else
        var p := s.requests[h];
        s.(pins := s.pins[p.cid := PinRecord(p.cid, moduleName, now, ttlSecs, p.sizeBytes)],
           requests := s.requests - {h})
    case GiveUp(h) => s.(requests := s.requests - {h})
    case DeleteRecord(cid) => s.(pins := s.pins - {cid})
    case JanitorAsks(cid, answer) =>
      var m := TailleDetenue(answer);
      s.(found := if m.Detenu? && m.octets > 0 then s.found + [(cid, m.octets)] else s.found,
         reports := Reported(s, cid, m))
    case JanitorApplies => s.(pins := ApplySizes(s.pins, s.found).0, found := [])
    case JanitorExpires(cid) => s.(pins := s.pins - {cid})
  }

  function Run(s: State, steps: seq<Step>): State
    decreases |steps|
  {
    if steps == [] then s else Run(Next(s, steps[0]), steps[1..])
  }

  ghost predicate Inv(s: State)
  {
    && WellKeyed(s.pins)
    && (forall c | c in s.pins && s.pins[c].sizeBytes > 0 :: (c, s.pins[c].sizeBytes) in s.reports)
    && (forall h | h in s.requests && s.requests[h].sizeBytes > 0 ::
          (s.requests[h].cid, s.requests[h].sizeBytes) in s.reports)
    && (forall i | 0 <= i < |s.found| :: s.found[i] in s.reports)
  }

  lemma {:induction false} AppliedSizesWereFound(pins: Pins, found: seq<(string, nat)>, c: string)
    requires c in pins
    ensures var after := ApplySizes(pins, found).0;
            c in after && (after[c] == pins[c] || (c, after[c].sizeBytes) in found)
  {
    if found != [] {
      var front, last := found[..|found| - 1], found[|found| - 1];
      AppliedSizesWereFound(pins, front, c);
      assert found == front + [last] && last == (last.0, last.1);
    }
  }

  lemma StepKeepsInv(s: State, step: Step)
    requires Inv(s)
    ensures Inv(Next(s, step))
  {
    if step.JanitorApplies? {
      ApplySizesKeepsKeys(s.pins, s.found);
      OpKeepsWellKeyed(Registry(DEFAULT_POLICY, s.pins, Missing, Missing), MajTailles(s.found), Saved);
      forall c | c in s.pins ensures ApplySizes(s.pins, s.found).0[c] == s.pins[c]
                                      || (c, ApplySizes(s.pins, s.found).0[c].sizeBytes) in s.reports {
        AppliedSizesWereFound(s.pins, s.found, c);
      }
    }
  }

  lemma {:induction false} RunKeepsInv(s: State, steps: seq<Step>)
    requires Inv(s)
    ensures Inv(Run(s, steps))
    decreases |steps|
  {
    if steps != [] {
      StepKeepsInv(s, steps[0]);
      RunKeepsInv(Next(s, steps[0]), steps[1..]);
    }
  }

  /** Each access of this machine to the table is an operation of the tracker; and a request
      whose two steps follow each other records what the handler records in one go. */
  lemma AccessesAreOperations(s: State, r: Registry, step: Step, fate: WriteFate)
    requires r.pins == s.pins
    ensures match step
            case Record(h, moduleName, now, ttlSecs) =>
              h in s.requests ==>
                var p := s.requests[h];
                var record := PinRecord(p.cid, moduleName, now, ttlSecs, p.sizeBytes);
                Next(s, step).pins == ApplyOp(r, Upsert(record), fate).pins
            case DeleteRecord(cid) => Next(s, step).pins == ApplyOp(r, Remove(cid), fate).pins
            case JanitorApplies => Next(s, step).pins == ApplyOp(r, MajTailles(s.found), fate).pins
            case JanitorExpires(cid) => Next(s, step).pins == ApplyOp(r, Remove(cid), fate).pins
            case _ => Next(s, step).pins == s.pins
  {
    if step.JanitorApplies? {
      ApplySizesKeepsKeys(s.pins, s.found);
    }
    assert step.DeleteRecord? || step.JanitorExpires? ==> step.cid !in s.pins ==> s.pins - {step.cid} == s.pins;
  }

  lemma UninterruptedRequest(s: State, r: Registry, h: nat, cid: string, kubo: Option<Answer>, moduleName: string,
                             now: nat, ttlSecs: nat, fate: WriteFate)
    requires r.pins == s.pins
    ensures var s' := Run(s, [Ask(h, cid, kubo), Record(h, moduleName, now, ttlSecs)]);
            var m := if kubo.None? then NonDetenu else TailleDetenue(kubo.value);
            var sizeBytes := if m.Detenu? then m.octets else 0;
            s'.pins == ApplyOp(r, Upsert(PinRecord(cid, moduleName, now, ttlSecs, sizeBytes)), fate).pins
  {
    var ask, record := Ask(h, cid, kubo), Record(h, moduleName, now, ttlSecs);
    assert [ask, record][1..] == [record] && [record][1..] == [];
    assert Run(s, [ask, record]) == Run(Next(s, ask), [record]) == Next(Next(s, ask), record);
    AccessesAreOperations(Next(s, ask), r, record, fate);
  }

  function AskedOne(cids: seq<string>, answers: string -> Answer): Step
    requires cids != []
  {
    JanitorAsks(cids[|cids| - 1], answers(cids[|cids| - 1]))
  }

  /** What one pass of the janitor asks, content by content. */
  function Asking(cids: seq<string>, answers: string -> Answer): seq<Step>
    decreases |cids|
  {
    if cids == [] then [] else Asking(cids[..|cids| - 1], answers) + [AskedOne(cids, answers)]
  }

  lemma {:induction false} RunOneMore(s: State, steps: seq<Step>, last: Step)
    ensures Run(s, steps + [last]) == Next(Run(s, steps), last)
    decreases |steps|
  {
    if steps == [] {
      assert [] + [last] == [last] && [last][1..] == [];
    } else {
      assert (steps + [last])[1..] == steps[1..] + [last];
      RunOneMore(Next(s, steps[0]), steps[1..], last);
    }
  }

  lemma {:induction false} AskingCollects(s: State, cids: seq<string>, answers: string -> Answer)
    requires s.found == []
    ensures var s' := Run(s, Asking(cids, answers));
            && s'.pins == s.pins
            && ApplySizes(s.pins, s'.found).0 == Remeasured(s.pins, Elements(cids), c => TailleDetenue(answers(c)))
    decreases |cids|
  {
    if cids != [] {
      var front, last := cids[..|cids| - 1], cids[|cids| - 1];
      assert cids == front + [last] && Elements(cids) == Elements(front) + {last};
      AskingCollects(s, front, answers);
      RunOneMore(s, Asking(front, answers), JanitorAsks(last, answers(last)));
      MeasureOne(s.pins, Run(s, Asking(front, answers)).found, Elements(front), last,
                 c => TailleDetenue(answers(c)));
    }
  }

  /** Asking about some records and applying the answers, without interruption, is the
      re-measuring of those records. */
  lemma UninterruptedPass(s: State, cids: seq<string>, answers: string -> Answer)
    requires s.found == []
    ensures Run(s, Asking(cids, answers) + [JanitorApplies]).pins ==
            Remeasured(s.pins, Elements(cids), c => TailleDetenue(answers(c)))
  {
    AskingCollects(s, cids, answers);
    RunOneMore(s, Asking(cids, answers), JanitorApplies);
  }

  lemma {:induction false} SubsetCard<T>(a: set<T>, b: set<T>)
    requires a <= b
    ensures |a| <= |b|
  {
    if x :| x in a {
      SubsetCard(a - {x}, b - {x});
    }
  }

  /** In any interleaving from an empty registry, a positive size on record is one that
      kubo explicitly reported for that very content: what is shown as held is proven. */
  lemma HeldIsProven(steps: seq<Step>)
    ensures var s := Run(INITIAL, steps);
            && WellKeyed(s.pins)
            && forall c | c in Held(s.pins) :: (c, s.pins[c].sizeBytes) in s.reports
    ensures var s := Run(INITIAL, steps);
            |Held(s.pins)| <= |set r | r in s.reports && r.1 > 0 :: r.0|
  {
    RunKeepsInv(INITIAL, steps);
    var s := Run(INITIAL, steps);
    var proven := set r | r in s.reports && r.1 > 0 :: r.0;
    forall c | c in Held(s.pins) ensures c in proven {
      assert (c, s.pins[c].sizeBytes) in s.reports;
    }
    SubsetCard(Held(s.pins), proven);
  }
}
