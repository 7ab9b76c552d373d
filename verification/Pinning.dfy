/** The pin registry: a table of records, three cached totals, and a mirror on disk. */
module Pinning {
  import opened Wrappers
  import opened MachineInt

  // ── Data ─────────────────────────────────────────────────────────────

  datatype ModuleRule = ModuleRule(enabled: bool, maxMb: nat, defaultTtlHours: nat)

  datatype PinPolicy = PinPolicy(modules: map<string, ModuleRule>, defaultRule: ModuleRule)

  const DEFAULT_RULE := ModuleRule(true, 100, 24 * 7)
  const DEFAULT_POLICY := PinPolicy(map[], DEFAULT_RULE)

  function RuleFor(policy: PinPolicy, moduleName: string): ModuleRule
  {
    if moduleName in policy.modules then policy.modules[moduleName] else policy.defaultRule
  }

  /** `sizeBytes` is zero as long as holding the content is not proven. */
  datatype PinRecord = PinRecord(cid: string, moduleName: string, pinnedAt: nat, ttlSecs: nat, sizeBytes: nat)

  type Pins = map<string, PinRecord>

  datatype ResumePins = ResumePins(enregistres: nat, octets: nat, detenus: nat)

  // ── The summary, as a full scan defines it ───────────────────────────

  ghost function SumSizes(pins: Pins, keys: set<string>): nat
    requires keys <= pins.Keys
  {
    if keys == {} then 0
    else
      var k :| k in keys;
      pins[k].sizeBytes + SumSizes(pins, keys - {k})
  }

  /** The sum does not depend on the order of the scan. */
  lemma {:induction false} SumSizesRemove(pins: Pins, keys: set<string>, k: string)
    requires keys <= pins.Keys && k in keys
    ensures SumSizes(pins, keys) == pins[k].sizeBytes + SumSizes(pins, keys - {k})
  {
    var k' :| k' in keys && SumSizes(pins, keys) == pins[k'].sizeBytes + SumSizes(pins, keys - {k'});
    if k' != k {
      SumSizesRemove(pins, keys - {k'}, k);
      SumSizesRemove(pins, keys - {k}, k');
      assert keys - {k'} - {k} == keys - {k} - {k'};
    }
  }

  /** The records whose content is proven to be held. */
  function Held(pins: Pins): set<string>
  {
    set k | k in pins && pins[k].sizeBytes > 0
  }

  function Unmeasured(pins: Pins): set<string>
  {
    set k | k in pins && pins[k].sizeBytes == 0
  }

  ghost function Resume(pins: Pins): ResumePins
  {
    ResumePins(|pins|, WrapU64(SumSizes(pins, pins.Keys)), |Held(pins)|)
  }

  /** The summary once the keys of `done` have been scanned. */
  ghost function Scanned(pins: Pins, done: set<string>): ResumePins
    requires done <= pins.Keys
  {
    ResumePins(|pins|, WrapU64(SumSizes(pins, done)), |Held(pins) * done|)
  }

  /** The summary with one more record counted. */
  function Counting(r: ResumePins, p: PinRecord): ResumePins
  {
    ResumePins(r.enregistres, WrapU64(r.octets + p.sizeBytes), r.detenus + if p.sizeBytes > 0 then 1 else 0)
  }

  lemma ScanSum(pins: Pins, done: set<string>, k: string)
    requires done <= pins.Keys && k in pins && k !in done
    ensures WrapU64(SumSizes(pins, done + {k})) == WrapU64(WrapU64(SumSizes(pins, done)) + pins[k].sizeBytes)
  {
    SumSizesRemove(pins, done + {k}, k);
    assert done + {k} - {k} == done;
    WrapAdd(SumSizes(pins, done), pins[k].sizeBytes);
  }

  lemma ScanHeld(pins: Pins, done: set<string>, k: string)
    requires done <= pins.Keys && k in pins && k !in done
    ensures |Held(pins) * (done + {k})| == |Held(pins) * done| + if pins[k].sizeBytes > 0 then 1 else 0
  {
    assert Held(pins) * (done + {k}) == if pins[k].sizeBytes > 0 then Held(pins) * done + {k} else Held(pins) * done;
  }

  lemma ScanStep(pins: Pins, done: set<string>, k: string)
    requires done <= pins.Keys && k in pins && k !in done
    ensures var r := Scanned(pins, done);
            Scanned(pins, done + {k}) == Counting(r, pins[k])
  {
    ScanSum(pins, done, k);
    ScanHeld(pins, done, k);
  }

  lemma ScanNone(pins: Pins)
    ensures Scanned(pins, {}) == ResumePins(|pins|, 0, 0)
  {
  }

  lemma ScanAll(pins: Pins)
    ensures Scanned(pins, pins.Keys) == Resume(pins)
  {
    assert Held(pins) * pins.Keys == Held(pins);
  }

  /** One pass for the three numbers. */
  method CalculerResume(pins: Pins) returns (r: ResumePins)
    ensures r == Resume(pins)
  {
    r := ResumePins(|pins|, 0, 0);
    ScanNone(pins);
    var rest := pins.Keys;
    ghost var done: set<string> := {};
    while rest != {}
      invariant done <= pins.Keys && rest <= pins.Keys && forall k | k in pins :: k in done <==> k !in rest
      invariant r == Scanned(pins, done)
      decreases rest
    {
      var k :| k in rest;
      ScanStep(pins, done, k);
      ghost var next := done + {k};
      r := Counting(r, pins[k]);
      assert r == Scanned(pins, next);
      rest, done := rest - {k}, next;
    }
    assert done == pins.Keys;
    ScanAll(pins);
  }

  // ── The mirror on disk ───────────────────────────────────────────────

  /** A file written by `fs::write`, which is not atomic. */
  datatype Stored<T> = Missing | Written(value: T) | Torn

  datatype WriteFate = Saved | Kept | Tears

  function ReadOr<T>(file: Stored<T>, fallback: T): T
  {
    if file.Written? then file.value else fallback
  }

  function WriteTo<T>(file: Stored<T>, v: T, fate: WriteFate): Stored<T>
  {
    match fate
    case Saved => Written(v)
    case Kept => file
    case Tears => Torn
  }

  /** Table, policy and their two files; the summary is determined by the table. */
  datatype Registry = Registry(policy: PinPolicy, pins: Pins, policyFile: Stored<PinPolicy>, pinsFile: Stored<Pins>)

  function Loaded(policyFile: Stored<PinPolicy>, pinsFile: Stored<Pins>): Registry
  {
    Registry(ReadOr(policyFile, DEFAULT_POLICY), ReadOr(pinsFile, map[]), policyFile, pinsFile)
  }

  // ── The mutations, as functions ──────────────────────────────────────

  /** Successive measurements applied to the table, with how many changed something. */
  function ApplySizes(pins: Pins, tailles: seq<(string, nat)>): (Pins, nat)
  {
    if tailles == [] then (pins, 0)
    else
      var (done, changes) := ApplySizes(pins, tailles[..|tailles| - 1]);
      var (cid, octets) := tailles[|tailles| - 1];
      if cid in done && done[cid].sizeBytes != octets
      then (done[cid := done[cid].(sizeBytes := octets)], changes + 1)
      else (done, changes)
  }

  lemma {:induction false} ApplySizesKeepsKeys(pins: Pins, tailles: seq<(string, nat)>)
    ensures ApplySizes(pins, tailles).0.Keys == pins.Keys
    ensures ApplySizes(pins, tailles).1 == 0 ==> ApplySizes(pins, tailles).0 == pins
    ensures forall k | k in pins :: ApplySizes(pins, tailles).0[k].(sizeBytes := 0) == pins[k].(sizeBytes := 0)
  {
    if tailles != [] {
      ApplySizesKeepsKeys(pins, tailles[..|tailles| - 1]);
    }
  }

  datatype Op =
    | SetPolicy(policy: PinPolicy)
    | Upsert(record: PinRecord)
    | Remove(cid: string)
    | MajTailles(tailles: seq<(string, nat)>)

  function ApplyOp(r: Registry, op: Op, fate: WriteFate): Registry
  {
    match op
    case SetPolicy(p) => r.(policy := p, policyFile := WriteTo(r.policyFile, p, fate))
    case Upsert(rec) =>
      var pins := r.pins[rec.cid := rec];
      r.(pins := pins, pinsFile := WriteTo(r.pinsFile, pins, fate))
    case Remove(cid) =>
      if cid !in r.pins then r
      else
        var pins := r.pins - {cid};
        r.(pins := pins, pinsFile := WriteTo(r.pinsFile, pins, fate))
    case MajTailles(tailles) =>
      var (pins, changes) := ApplySizes(r.pins, tailles);
      if changes == 0 then r else r.(pins := pins, pinsFile := WriteTo(r.pinsFile, pins, fate))
  }

  /** The last measurement of `cid` in the list. */
  predicate LastMeasure(tailles: seq<(string, nat)>, i: nat, cid: string)
  {
    i < |tailles| && tailles[i].0 == cid && forall j | i < j < |tailles| :: tailles[j].0 != cid
  }

  lemma {:induction false} UnmeasuredStays(pins: Pins, tailles: seq<(string, nat)>, cid: string)
    requires cid in pins && forall i | 0 <= i < |tailles| :: tailles[i].0 != cid
    ensures cid in ApplySizes(pins, tailles).0 && ApplySizes(pins, tailles).0[cid] == pins[cid]
  {
    if tailles != [] {
      UnmeasuredStays(pins, tailles[..|tailles| - 1], cid);
    }
  }

  /** Applied one after the other, the last measurement of a record wins. */
  lemma {:induction false} LastMeasureWins(pins: Pins, tailles: seq<(string, nat)>, i: nat, cid: string)
    requires cid in pins && LastMeasure(tailles, i, cid)
    ensures cid in ApplySizes(pins, tailles).0
    ensures ApplySizes(pins, tailles).0[cid] == pins[cid].(sizeBytes := tailles[i].1)
  {
    var front := tailles[..|tailles| - 1];
    if i < |front| {
      LastMeasureWins(pins, front, i, cid);
    } else {
      ApplySizesKeepsKeys(pins, front);
      var before := ApplySizes(pins, front).0[cid];
      assert before.(sizeBytes := 0) == pins[cid].(sizeBytes := 0);
      assert before.(sizeBytes := tailles[i].1) == pins[cid].(sizeBytes := tailles[i].1);
    }
  }

  /** Measurement `i` differs from what the table says. */
  predicate Corrects(pins: Pins, tailles: seq<(string, nat)>, i: nat)
  {
    i < |tailles| && tailles[i].0 in pins && pins[tailles[i].0].sizeBytes != tailles[i].1
  }

  function Corrections(pins: Pins, tailles: seq<(string, nat)>): set<nat>
  {
    set i: nat | i < |tailles| && Corrects(pins, tailles, i)
  }

  lemma CorrectionsGrow(pins: Pins, front: seq<(string, nat)>, last: (string, nat))
    ensures |Corrections(pins, front + [last])| ==
            |Corrections(pins, front)| + if Corrects(pins, front + [last], |front|) then 1 else 0
  {
    var tailles, n := front + [last], |front|;
    assert forall i: nat | i < n :: Corrects(pins, tailles, i) <==> Corrects(pins, front, i);
    assert Corrections(pins, tailles) ==
           Corrections(pins, front) + if Corrects(pins, tailles, n) then {n} else {};
  }

  lemma OneMoreSize(pins: Pins, front: seq<(string, nat)>, last: (string, nat))
    requires forall i | 0 <= i < |front| :: front[i].0 != last.0
    ensures ApplySizes(pins, front + [last]).1 ==
            ApplySizes(pins, front).1 + if last.0 in pins && pins[last.0].sizeBytes != last.1 then 1 else 0
  {
    assert (front + [last])[..|front|] == front;
    ApplySizesKeepsKeys(pins, front);
    if last.0 in pins {
      UnmeasuredStays(pins, front, last.0);
    }
  }

  /** The number returned counts the real changes: with one measurement per record, those that
      differ from the table. */
  lemma {:induction false} ChangesAreReal(pins: Pins, tailles: seq<(string, nat)>)
    requires forall i, j | 0 <= i < j < |tailles| :: tailles[i].0 != tailles[j].0
    ensures ApplySizes(pins, tailles).1 == |Corrections(pins, tailles)|
  {
    if tailles != [] {
      var front, last := tailles[..|tailles| - 1], tailles[|tailles| - 1];
      assert tailles == front + [last];
      ChangesAreReal(pins, front);
      CorrectionsGrow(pins, front, last);
      OneMoreSize(pins, front, last);
    }
  }

  /** What each operation makes of policy and table, whether or not its write works. */
  lemma OperationsMean(r: Registry, op: Op, fate: WriteFate, k: string)
    ensures var r' := ApplyOp(r, op, fate);
            match op
            case SetPolicy(p) => r'.policy == p && r'.pins == r.pins
            case Upsert(rec) => r'.policy == r.policy && r'.pins == r.pins[rec.cid := rec]
            case Remove(cid) => r'.policy == r.policy && r'.pins == r.pins - {cid}
            case MajTailles(tailles) =>
              && r'.policy == r.policy && r'.pins.Keys == r.pins.Keys
              && (k in r.pins ==>
                    && (forall i | 0 <= i < |tailles| && LastMeasure(tailles, i, k) ::
                          r'.pins[k] == r.pins[k].(sizeBytes := tailles[i].1))
                    && ((forall i | 0 <= i < |tailles| :: tailles[i].0 != k) ==> r'.pins[k] == r.pins[k]))
  {
    match op
    case Remove(cid) => assert cid !in r.pins ==> r.pins - {cid} == r.pins;
    case MajTailles(tailles) =>
      ApplySizesKeepsKeys(r.pins, tailles);
      if k in r.pins {
        forall i | 0 <= i < |tailles| && LastMeasure(tailles, i, k)
          ensures ApplySizes(r.pins, tailles).0[k] == r.pins[k].(sizeBytes := tailles[i].1)
        {
          LastMeasureWins(r.pins, tailles, i, k);
        }
        if forall i | 0 <= i < |tailles| :: tailles[i].0 != k {
          UnmeasuredStays(r.pins, tailles, k);
        }
      }
    case _ =>
  }

  /** Without readable files a node starts with an empty table and a policy that lets every
      module pin, a hundred megabytes for seven days. */
  lemma DefaultsExactly(policyFile: Stored<PinPolicy>, pinsFile: Stored<Pins>, moduleName: string)
    requires !policyFile.Written? && !pinsFile.Written?
    ensures var r := Loaded(policyFile, pinsFile);
            r.pins == map[] && RuleFor(r.policy, moduleName) == ModuleRule(true, 100, 168)
  {
  }

  /** A record expires strictly after its lifetime; lifetime zero means never. The sum wraps. */
  predicate Expired(p: PinRecord, now: nat)
  {
    p.ttlSecs > 0 && WrapU64(p.pinnedAt + p.ttlSecs) < now
  }

  // ── The tracker, in place ────────────────────────────────────────────

  /** Each record is filed under its own identifier. */
  predicate WellKeyed(pins: Pins)
  {
    forall k | k in pins :: pins[k].cid == k
  }

  /** A restart at this point would find the same table and policy. */
  predicate InSync(r: Registry)
  {
    var restarted := Loaded(r.policyFile, r.pinsFile);
    restarted.policy == r.policy && restarted.pins == r.pins
  }

  class PinTracker {
    var policy: PinPolicy
    var pins: Pins
    var resume: ResumePins
    var policyFile: Stored<PinPolicy>
    var pinsFile: Stored<Pins>

    function Value(): Registry
      reads this
    {
      Registry(policy, pins, policyFile, pinsFile)
    }

    /** The cached summary is what a full scan would give. */
    ghost predicate Valid()
      reads this
    {
      resume == Resume(pins)
    }

    constructor Load(policyFile: Stored<PinPolicy>, pinsFile: Stored<Pins>)
      ensures Valid() && Value() == Loaded(policyFile, pinsFile)
    {
      var table := ReadOr(pinsFile, map[]);
      var r := CalculerResume(table);
      policy, pins, resume := ReadOr(policyFile, DEFAULT_POLICY), table, r;
      this.policyFile, this.pinsFile := policyFile, pinsFile;
    }

    method ReplacePolicy(p: PinPolicy, fate: WriteFate)
      requires Valid()
      modifies this
      ensures Valid() && Value() == ApplyOp(old(Value()), SetPolicy(p), fate)
    {
      policy := p;
      policyFile := WriteTo(policyFile, p, fate);
    }

    method Insert(rec: PinRecord, fate: WriteFate)
      modifies this
      ensures Valid() && Value() == ApplyOp(old(Value()), Upsert(rec), fate)
    {
      pins := pins[rec.cid := rec];
      resume := CalculerResume(pins);
      pinsFile := WriteTo(pinsFile, pins, fate);
    }

    method Drop(cid: string, fate: WriteFate) returns (removed: Option<PinRecord>)
      modifies this
      ensures Valid() && Value() == ApplyOp(old(Value()), Remove(cid), fate)
      ensures pins == old(pins) - {cid} && policy == old(policy)
      ensures old(InSync(Value())) && fate.Saved? ==> InSync(Value())
      ensures removed == if cid in old(pins) then Some(old(pins)[cid]) else None
    {
      removed := if cid in pins then Some(pins[cid]) else None;
      assert cid !in pins ==> pins - {cid} == pins;
      pins := pins - {cid};
      resume := CalculerResume(pins);
      if removed.Some? {
        pinsFile := WriteTo(pinsFile, pins, fate);
      }
    }

    /** All measurements under one lock, with one recomputation and one write, and only if something changed. */
    method UpdateSizes(tailles: seq<(string, nat)>, fate: WriteFate) returns (changes: nat)
      requires Valid()
      modifies this
      ensures Valid() && Value() == ApplyOp(old(Value()), MajTailles(tailles), fate)
      ensures changes == ApplySizes(old(pins), tailles).1
    {
      changes := 0;
      for i := 0 to |tailles|
        invariant (pins, changes) == ApplySizes(old(pins), tailles[..i])
        invariant policy == old(policy) && policyFile == old(policyFile)
        invariant pinsFile == old(pinsFile) && resume == old(resume)
      {
        assert tailles[..i + 1][..i] == tailles[..i];
        var (cid, octets) := tailles[i];
        if cid in pins && pins[cid].sizeBytes != octets {
          pins := pins[cid := pins[cid].(sizeBytes := octets)];
          changes := changes + 1;
        }
      }
      assert tailles[..|tailles|] == tailles;
      ApplySizesKeepsKeys(old(pins), tailles);
      if changes > 0 {
        resume := CalculerResume(pins);
        pinsFile := WriteTo(pinsFile, pins, fate);
      }
    }

    /** The totals shown everywhere, read without touching the table. */
    method Totals() returns (enregistres: nat, octets: nat, detenus: nat)
      requires Valid()
      ensures enregistres == |pins| && octets == WrapU64(SumSizes(pins, pins.Keys)) && detenus == |Held(pins)|
    {
      return resume.enregistres, resume.octets, resume.detenus;
    }

    /** The contents identifiers of the expired records, in table order, once each. */
    method ExpiredCids(now: nat) returns (cids: seq<string>)
      requires WellKeyed(pins)
      ensures forall c :: c in cids <==> c in pins && Expired(pins[c], now)
      ensures forall i, j | 0 <= i < j < |cids| :: cids[i] != cids[j]
    {
      cids := [];
      var rest := pins.Keys;
      while rest != {}
        invariant rest <= pins.Keys
        invariant forall c :: c in cids <==> c in pins && c !in rest && Expired(pins[c], now)
        invariant forall i, j | 0 <= i < j < |cids| :: cids[i] != cids[j]
        decreases rest
      {
        var k :| k in rest;
        rest := rest - {k};
        if Expired(pins[k], now) {
          cids := cids + [pins[k].cid];
        }
      }
    }
  }

  // ── Whole runs and restarts ──────────────────────────────────────────

  function RunOps(r: Registry, ops: seq<(Op, WriteFate)>): Registry
    decreases |ops|
  {
    if ops == [] then r else RunOps(ApplyOp(r, ops[0].0, ops[0].1), ops[1..])
  }

  lemma OpKeepsWellKeyed(r: Registry, op: Op, fate: WriteFate)
    requires WellKeyed(r.pins)
    ensures WellKeyed(ApplyOp(r, op, fate).pins)
  {
    if op.MajTailles? {
      ApplySizesKeepsKeys(r.pins, op.tailles);
      forall k | k in r.pins ensures ApplySizes(r.pins, op.tailles).0[k].cid == k {
        assert ApplySizes(r.pins, op.tailles).0[k].(sizeBytes := 0).cid == r.pins[k].(sizeBytes := 0).cid;
      }
    }
  }

  lemma {:induction false} RunKeepsWellKeyed(r: Registry, ops: seq<(Op, WriteFate)>)
    requires WellKeyed(r.pins)
    ensures WellKeyed(RunOps(r, ops).pins)
    decreases |ops|
  {
    if ops != [] {
      OpKeepsWellKeyed(r, ops[0].0, ops[0].1);
      RunKeepsWellKeyed(ApplyOp(r, ops[0].0, ops[0].1), ops[1..]);
    }
  }

  /** After any run whose writes succeed, a restart restores the table and the policy,
      and every record is still filed under its identifier. */
  lemma {:induction false} RestartRestores(r: Registry, ops: seq<(Op, WriteFate)>)
    requires InSync(r) && WellKeyed(r.pins)
    ensures WellKeyed(RunOps(r, ops).pins)
    ensures (forall o | o in ops :: o.1.Saved?) ==> InSync(RunOps(r, ops))
    decreases |ops|
  {
    if ops != [] {
      OpKeepsWellKeyed(r, ops[0].0, ops[0].1);
      assert ops[0] in ops;
      if forall o | o in ops :: o.1.Saved? {
        RestartRestores(ApplyOp(r, ops[0].0, ops[0].1), ops[1..]);
      } else {
        RunKeepsWellKeyed(r, ops);
      }
    }
  }

  /** The operation writes its file. */
  predicate Writes(r: Registry, op: Op)
  {
    match op
    case SetPolicy(_) => true
    case Upsert(_) => true
    case Remove(cid) => cid in r.pins
    case MajTailles(tailles) => ApplySizes(r.pins, tailles).1 > 0
  }

  /** The operation puts what was there already, so that the old file still tells the truth. */
  predicate ChangesNothing(r: Registry, op: Op)
  {
    match op
    case SetPolicy(p) => p == r.policy
    case Upsert(rec) => rec.cid in r.pins && r.pins[rec.cid] == rec
    case Remove(cid) => cid !in r.pins
    case MajTailles(tailles) => ApplySizes(r.pins, tailles).0 == r.pins
  }

  /** The operation leaves what an unreadable file is taken for. */
  predicate LeavesDefault(r: Registry, op: Op)
  {
    match op
    case SetPolicy(p) => p == DEFAULT_POLICY
    case Remove(cid) => r.pins.Keys == {cid}
    case _ => false
  }

  lemma {:induction false} SizesNeedRecords(pins: Pins, tailles: seq<(string, nat)>)
    ensures ApplySizes(pins, tailles).1 > 0 ==> pins != map[]
  {
    if tailles != [] {
      SizesNeedRecords(pins, tailles[..|tailles| - 1]);
      ApplySizesKeepsKeys(pins, tailles[..|tailles| - 1]);
    }
  }

  /** Exactly when a restart finds what an operation did: nothing was written, the write
      went through, it left the old file and nothing changed, or it tore the file and the
      default is what the operation left. */
  lemma OperationSurvivesExactly(r: Registry, op: Op, fate: WriteFate)
    requires InSync(r)
    ensures InSync(ApplyOp(r, op, fate)) <==>
            || !Writes(r, op) || fate.Saved?
            || (fate.Kept? && ChangesNothing(r, op)) || (fate.Tears? && LeavesDefault(r, op))
  {
    var r' := ApplyOp(r, op, fate);
    match op
    case SetPolicy(_) =>
    case Upsert(rec) => assert rec.cid in r'.pins && r'.pins[rec.cid] == rec;
    case Remove(cid) =>
      assert r'.pins == map[] <==> r'.pins.Keys == {};
      assert cid in r.pins ==> r'.pins != r.pins;
    case MajTailles(tailles) =>
      ApplySizesKeepsKeys(r.pins, tailles);
      SizesNeedRecords(r.pins, tailles);
  }

  /** A restart would find the table, or the policy, that is in memory. */
  predicate TableKept(r: Registry) { ReadOr(r.pinsFile, map[]) == r.pins }

  predicate PolicyKept(r: Registry) { ReadOr(r.policyFile, DEFAULT_POLICY) == r.policy }

  /** What the file of one operation is worth afterwards, whatever it was worth before: an
      operation that writes decides it anew, one that does not leaves it as it was. */
  lemma FileSurvivesExactly(r: Registry, op: Op, fate: WriteFate)
    ensures var r' := ApplyOp(r, op, fate);
            && (!Writes(r, op) ==> r' == r)
            && (TableKept(r') <==>
                  if op.SetPolicy? || !Writes(r, op) then TableKept(r)
                  else match fate
                       case Saved => true
                       case Kept => ReadOr(r.pinsFile, map[]) == r'.pins
                       case Tears => LeavesDefault(r, op))
            && (PolicyKept(r') <==>
                  if !op.SetPolicy? then PolicyKept(r)
                  else match fate
                       case Saved => true
                       case Kept => ReadOr(r.policyFile, DEFAULT_POLICY) == op.policy
                       case Tears => LeavesDefault(r, op))
  {
    var r' := ApplyOp(r, op, fate);
    match op
    case SetPolicy(_) =>
    case Upsert(rec) => assert rec.cid in r'.pins;
    case Remove(cid) =>
      assert r'.pins == map[] <==> r'.pins.Keys == {};
    case MajTailles(tailles) =>
      ApplySizesKeepsKeys(r.pins, tailles);
      SizesNeedRecords(r.pins, tailles);
  }

  /** The fate of the last write of the table, and of the policy, in a run. */
  function LastTableWrite(r: Registry, ops: seq<(Op, WriteFate)>): Option<WriteFate>
    decreases |ops|
  {
    if ops == [] then None
    else
      var later := LastTableWrite(ApplyOp(r, ops[0].0, ops[0].1), ops[1..]);
      if later.Some? then later
      else if !ops[0].0.SetPolicy? && Writes(r, ops[0].0) then Some(ops[0].1)
      else None
  }

  function LastPolicyWrite(ops: seq<(Op, WriteFate)>): Option<WriteFate>
    decreases |ops|
  {
    if ops == [] then None
    else
      var later := LastPolicyWrite(ops[1..]);
      if later.Some? then later else if ops[0].0.SetPolicy? then Some(ops[0].1) else None
  }

  lemma {:induction false} UnwrittenTableStays(r: Registry, ops: seq<(Op, WriteFate)>)
    requires LastTableWrite(r, ops).None?
    ensures RunOps(r, ops).pins == r.pins && RunOps(r, ops).pinsFile == r.pinsFile
    decreases |ops|
  {
    if ops != [] {
      FileSurvivesExactly(r, ops[0].0, ops[0].1);
      UnwrittenTableStays(ApplyOp(r, ops[0].0, ops[0].1), ops[1..]);
    }
  }

  lemma {:induction false} UnwrittenPolicyStays(r: Registry, ops: seq<(Op, WriteFate)>)
    requires LastPolicyWrite(ops).None?
    ensures RunOps(r, ops).policy == r.policy && RunOps(r, ops).policyFile == r.policyFile
    decreases |ops|
  {
    if ops != [] {
      UnwrittenPolicyStays(ApplyOp(r, ops[0].0, ops[0].1), ops[1..]);
    }
  }

  /** The last write of a file decides: if it went through, a restart finds everything,
      whatever failed before; if it tore, exactly what an unreadable file is taken for; and
      if there was none, what a restart finds is as right as it was. */
  lemma {:induction false} LastWriteDecides(r: Registry, ops: seq<(Op, WriteFate)>)
    ensures match LastTableWrite(r, ops)
            case None => TableKept(RunOps(r, ops)) <==> TableKept(r)
            case Some(Saved) => TableKept(RunOps(r, ops))
            case Some(Tears) => TableKept(RunOps(r, ops)) <==> RunOps(r, ops).pins == map[]
            case Some(Kept) => true
    ensures match LastPolicyWrite(ops)
            case None => PolicyKept(RunOps(r, ops)) <==> PolicyKept(r)
            case Some(Saved) => PolicyKept(RunOps(r, ops))
            case Some(Tears) => PolicyKept(RunOps(r, ops)) <==> RunOps(r, ops).policy == DEFAULT_POLICY
            case Some(Kept) => true
    decreases |ops|
  {
    if ops != [] {
      var r1 := ApplyOp(r, ops[0].0, ops[0].1);
      FileSurvivesExactly(r, ops[0].0, ops[0].1);
      LastWriteDecides(r1, ops[1..]);
      if LastTableWrite(r1, ops[1..]).None? {
        UnwrittenTableStays(r1, ops[1..]);
      }
      if LastPolicyWrite(ops[1..]).None? {
        UnwrittenPolicyStays(r1, ops[1..]);
      }
    }
  }

  /** A write of the table that tears loses all of it at the next start. */
  lemma TornTableIsLost(r: Registry, op: Op)
    requires Writes(r, op) && !op.SetPolicy?
    ensures var r' := ApplyOp(r, op, Tears);
            Loaded(r'.policyFile, r'.pinsFile).pins == map[]
  {
  }

  // ── Expiry arithmetic ────────────────────────────────────────────────

  /** What the wrapped comparison means for every record. */
  lemma ExpiredExactly(p: PinRecord, now: nat)
    requires IsU64(p.pinnedAt) && IsU64(p.ttlSecs) && IsU64(now)
    ensures Expired(p, now) <==>
            p.ttlSecs > 0 && (p.pinnedAt + p.ttlSecs < now || TWO64 <= p.pinnedAt + p.ttlSecs < now + TWO64)
  {
  }

  /** A record built by a pin request, from a 32-bit number of hours and a clock that
      fits a signed 64-bit integer, never wraps. */
  lemma RequestedExpiryNeverWraps(p: PinRecord, hours: nat, now: nat)
    requires hours < 0x1_0000_0000 && p.ttlSecs == hours * 3600 && p.pinnedAt < TWO63
    ensures Expired(p, now) <==> hours > 0 && p.pinnedAt + hours * 3600 < now
  {
  }
}
