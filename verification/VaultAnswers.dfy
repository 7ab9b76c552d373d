/** What each vault call achieves and what it answers: when it succeeds, which error it
    gives otherwise, and the plain vault that undisturbed calls add up to. */
module VaultAnswers {
  import opened Wrappers
  import opened Hex
  import opened Host
  import opened VaultCore
  import opened VaultRuns

  // ── Success ──────────────────────────────────────────────────────────

  /** How many effects a call takes when nothing stops it. */
  function Effects(call: Call): nat
  {
    match call
    case Create(_, _) => 4
    case Open(_) => 3
    case Put(_, _) => 1
    case Delete(_) => 1
    case Change(_, _, _) => 5
    case Close => 0
  }

  /** The call is in order: it has the vault, the handle and the passphrases it takes. */
  predicate InOrder(s: Session, call: Call)
  {
    var c := Contents(s.world);
    match call
    case Create(p, _) => s.world.db.NoDb? && s.world.sidecar.NoSidecar? && |p| >= 8
    case Open(p) => c.Holds? && p == c.pass
    case Put(_, _) => s.conn.Some?
    case Delete(_) => s.conn.Some?
    case Change(o, n, _) => s.conn.Some? && c.Holds? && o == c.pass && |n| >= 8
    case Close => true
  }

  lemma OpenSucceedsExactly(s: Session, pass: string, plan: seq<Fate>)
    requires Inv(s)
    ensures var reply := Execute(s, Open(pass), plan).1;
            reply.Success? <==> Contents(s.world).Holds? && pass == Contents(s.world).pass && AllWork(plan, 0, 3)
  {
    AllWorkOne(plan, 0);
    AllWorkSplits(plan, 0, 1, 2);
    AllWorkTwo(plan, 1);
  }

  lemma CreateSucceedsExactly(s: Session, pass: string, salt: Salt, plan: seq<Fate>)
    ensures var reply := Execute(s, Create(pass, salt), plan).1;
            reply.Success? <==>
            s.world.db.NoDb? && s.world.sidecar.NoSidecar? && |pass| >= 8 && AllWork(plan, 0, 4)
  {
    if s.world.db.NoDb? && s.world.sidecar.NoSidecar? && |pass| >= MIN_PASSPHRASE_LEN {
      CreateFates(Start(s.world, plan), pass, salt);
      CreateOutcome(Start(s.world, plan), pass, salt);
    }
  }

  /** When resealing succeeds. */
  lemma ResealSucceedsExactly(m: Machine, oldKey: Key, newKey: Key, h: KdfHeader)
    requires m.alive && m.world.db.SealedDb? && m.world.db.key == oldKey
    ensures var (m', _, r) := Reseal(m, oldKey, oldKey, newKey, h);
            && (r.Ok? <==> AllWork(m.plan, m.step, 3))
            && (r.Ok? ==> m'.alive)
  {
    AllWorkOne(m.plan, m.step);
    AllWorkSplits(m.plan, m.step, 1, 2);
    AllWorkTwo(m.plan, m.step + 1);
    var (m1, rekeyed) := Perform(m, Rekey(oldKey, newKey));
    if rekeyed.Done? {
      WriteSidecarOutcome(m1, h);
    }
  }

  lemma ChangeSucceedsExactly(s: Session, o: string, n: string, salt: Salt, plan: seq<Fate>)
    requires Inv(s) && s.conn.Some?
    ensures var reply := Execute(s, Change(o, n, salt), plan).1;
            reply.Success? <==>
            Contents(s.world).Holds? && o == Contents(s.world).pass && |n| >= 8 && AllWork(plan, 0, 5)
  {
    ChangeReachesReseal(s, o, n, salt, plan);
    AllWorkTwo(plan, 0);
    AllWorkSplits(plan, 0, 2, 3);
    if Granted(s, o, n, plan) {
      ResealSucceedsExactly(Checked(s, plan), s.conn.value, DeriveKey(n, NewDefault(salt)).value, NewDefault(salt));
    }
  }

  /** Every call, under every plan, succeeds exactly when it is in order and all of its effects work. */
  lemma SucceedsExactly(s: Session, call: Call, plan: seq<Fate>)
    requires Inv(s)
    ensures Execute(s, call, plan).1.Success? <==> InOrder(s, call) && AllWork(plan, 0, Effects(call))
  {
    match call
    case Create(pass, salt) => CreateSucceedsExactly(s, pass, salt, plan);
    case Open(pass) => OpenSucceedsExactly(s, pass, plan);
    case Change(o, n, salt) => if s.conn.Some? { ChangeSucceedsExactly(s, o, n, salt, plan); }
    case Put(_, _) => AllWorkOne(plan, 0);
    case Delete(_) => AllWorkOne(plan, 0);
    case Close =>
  }

  /** A change of passphrase with the right old one, a new one of eight characters and nothing
      failing hands the vault over: the new passphrase opens it, no other does, and it
      holds what it held. */
  lemma ChangeHandsOver(s: Session, n: string, salt: Salt, plan: seq<Fate>, q: string)
    requires Inv(s) && s.conn.Some? && Contents(s.world).Holds? && |n| >= 8 && AllWork(plan, 0, 5)
    ensures var (s', reply, _) := Execute(s, Change(Contents(s.world).pass, n, salt), plan);
            && reply == Success
            && Contents(s'.world) == Holds(n, Contents(s.world).entries)
            && (OpenVault(Healthy(s'.world), q).1.Ok? <==> q == n)
            && s'.conn.Some? && OpenVault(Healthy(s'.world), n).1 == Ok(s'.conn.value)
  {
    var call := Change(Contents(s.world).pass, n, salt);
    ChangeSucceedsExactly(s, Contents(s.world).pass, n, salt, plan);
    CallIsAtomic(s, call, plan);
    OpensExactly(Execute(s, call, plan).0.world, q);
    OpensExactly(Execute(s, call, plan).0.world, n);
  }

  /** What becomes of the handle: success opens, closes or keeps it, failure keeps it, and it
      does not outlive the process. */
  lemma HandleFollowsReply(s: Session, call: Call, plan: seq<Fate>)
    requires Inv(s)
    ensures var (s', reply, _) := Execute(s, call, plan);
            s'.conn.Some? <==>
            match reply
            case Stopped => false
            case Success => !call.Close?
            case _ => s.conn.Some?
  {
  }

  // ── Errors ───────────────────────────────────────────────────────────

  /** The error for effect `i` of the call: the database's own, or that of a plain file. */
  function Blame(call: Call, i: nat): VaultError
  {
    match call
    case Create(_, _) => if i < 2 then Sql else Io
    case Open(_) => if i == 0 then Io else Sql
    case Change(_, _, _) => if i == 1 || i == 2 then Sql else Io
    case _ => Sql
  }

  /** Effect `i` writes the sidecar, so that something is undone when it fails. */
  predicate UndoneAfter(call: Call, i: nat)
  {
    (call.Create? && i >= 2) || (call.Change? && i >= 3)
  }

  /** The first effect that does not work decides the reply. */
  predicate Reports(s: Session, call: Call, plan: seq<Fate>, i: nat)
  {
    Execute(s, call, plan).1 ==
    if FateAt(plan, i).Dies? || (UndoneAfter(call, i) && FateAt(plan, i + 1).Dies?) then Stopped
    else Failure(Blame(call, i))
  }

  /** The first fault of a resealing: in `rekey`, or in one of the two steps of the sidecar. */
  lemma ResealReports(m: Machine, oldKey: Key, newKey: Key, h: KdfHeader, i: nat)
    requires m.alive && m.world.db.SealedDb? && m.world.db.key == oldKey
    requires i < 3 && AllWork(m.plan, m.step, i) && !FateAt(m.plan, m.step + i).Works?
    ensures var (m', _, r) := Reseal(m, oldKey, oldKey, newKey, h);
            var undoing := i >= 1 && FateAt(m.plan, m.step + i + 1).Dies?;
            && r == Err(if i == 0 then Sql else Io)
            && (m'.alive <==> !FateAt(m.plan, m.step + i).Dies? && !undoing)
  {
    var (m1, rekeyed) := Perform(m, Rekey(oldKey, newKey));
    if i >= 1 {
      AllWorkOne(m.plan, m.step);
      AllWorkSplits(m.plan, m.step, 1, i - 1);
      WriteSidecarOutcome(m1, h);
      AllWorkOne(m.plan, m.step + 1);
    }
  }

  /** A fault in one of the two checks `change_passphrase` starts with. */
  lemma ChecksReport(s: Session, o: string, n: string, salt: Salt, plan: seq<Fate>, i: nat)
    requires Inv(s) && InOrder(s, Change(o, n, salt))
    requires i < 2 && AllWork(plan, 0, i) && !FateAt(plan, i).Works?
    ensures Reports(s, Change(o, n, salt), plan, i)
  {
  }

  lemma ChangeReports(s: Session, o: string, n: string, salt: Salt, plan: seq<Fate>, i: nat)
    requires Inv(s) && InOrder(s, Change(o, n, salt))
    requires i < 5 && AllWork(plan, 0, i) && !FateAt(plan, i).Works?
    ensures Reports(s, Change(o, n, salt), plan, i)
  {
    if i < 2 {
      ChecksReport(s, o, n, salt, plan, i);
    } else {
      ChangeReachesReseal(s, o, n, salt, plan);
      AllWorkTwo(plan, 0);
      AllWorkSplits(plan, 0, 2, i - 2);
      ResealReports(Checked(s, plan), s.conn.value, DeriveKey(n, NewDefault(salt)).value, NewDefault(salt), i - 2);
    }
  }

  lemma CreateReports(s: Session, pass: string, salt: Salt, plan: seq<Fate>, i: nat)
    requires InOrder(s, Create(pass, salt))
    requires i < 4 && AllWork(plan, 0, i) && !FateAt(plan, i).Works?
    ensures Reports(s, Create(pass, salt), plan, i)
  {
    DefaultHeaderDerives(pass, salt);
    var m := Start(s.world, plan);
    var key := DeriveKey(pass, NewDefault(salt)).value;
    OpenAndInitFates(m, key);
    AllWorkTwo(plan, 0);
    if i >= 2 {
      AllWorkSplits(plan, 0, 2, i - 2);
      AllWorkOne(plan, 2);
      WriteSidecarOutcome(OpenAndInit(m, key).0, NewDefault(salt));
    }
  }

  /** A call that is in order and does not succeed answers which kind of access failed first,
      unless the process died of it or in undoing what it had done. */
  lemma FirstFaultIsReported(s: Session, call: Call, plan: seq<Fate>, i: nat)
    requires Inv(s) && InOrder(s, call)
    requires i < Effects(call) && AllWork(plan, 0, i) && !FateAt(plan, i).Works?
    ensures Reports(s, call, plan, i)
  {
    match call
    case Create(pass, salt) => CreateReports(s, pass, salt, plan, i);
    case Change(o, n, salt) => ChangeReports(s, o, n, salt, plan, i);
    case _ =>
  }

  /** The header can be used: version, algorithm, a hex salt of at least eight bytes, and
      parameters in range. */
  predicate Usable(h: KdfHeader)
  {
    && Decode(h.saltHex).Some? && |Decode(h.saltHex).value| >= 8
    && 1 <= h.parallelism < 0x100_0000 && 8 * h.parallelism <= h.memoryKib && 1 <= h.iterations
  }

  predicate Legible(file: SidecarFile)
  {
    file.Json? && file.header.version == 1 && file.header.kdf == "argon2id"
  }

  /** Which error an undisturbed `open` answers, from the raw files: what is missing, what
      cannot be read, a passphrase too short, or one that does not give the key. */
  lemma OpenRefusesExactly(w: World, q: string)
    ensures var r := OpenVault(Healthy(w), q).1;
            var present, legible := !w.db.NoDb? && !w.sidecar.NoSidecar?, Legible(w.sidecar);
            && (r == Err(NotFound) <==> !present)
            && (r == Err(WeakPassphrase) <==> present && legible && |q| < 8)
            && (r == Err(Corrupted) <==> present && (!legible || (|q| >= 8 && !Usable(w.sidecar.header))))
            && (r == Err(WrongPassphrase) <==>
                  && present && legible && |q| >= 8 && Usable(w.sidecar.header) && w.db.SealedDb?
                  && var h := w.sidecar.header;
                     w.db.key != Argon2id(q, Decode(h.saltHex).value, h.memoryKib, h.iterations, h.parallelism))
            && (r.Err? ==> r.error in {NotFound, WeakPassphrase, Corrupted, WrongPassphrase})
  {
  }

  // ── The plain vault ──────────────────────────────────────────────────

  /** What a user has in mind: perhaps a vault, and perhaps it is open. */
  datatype Plain = Absent | Present(pass: string, entries: Entries, open: bool)

  function PlainCreate(v: Plain, pass: string): (Plain, Reply)
  {
    if v.Present? then (v, Failure(AlreadyExists))
    else if |pass| < 8 then (v, Failure(WeakPassphrase))
    else (Present(pass, map[], true), Success)
  }

  function PlainOpen(v: Plain, pass: string): (Plain, Reply)
  {
    if v.Absent? then (v, Failure(NotFound))
    else if |pass| < 8 then (v, Failure(WeakPassphrase))
    else if pass != v.pass then (v, Failure(WrongPassphrase))
    else (v.(open := true), Success)
  }

  function PlainChange(v: Plain, o: string, n: string): (Plain, Reply)
    requires v.Present?
  {
    if |o| < 8 then (v, Failure(WeakPassphrase))
    else if o != v.pass then (v, Failure(WrongPassphrase))
    else if |n| < 8 then (v, Failure(WeakPassphrase))
    else (v.(pass := n), Success)
  }

  function PlainStep(v: Plain, call: Call): (Plain, Reply)
  {
    match call
    case Create(pass, _) => PlainCreate(v, pass)
    case Open(pass) => PlainOpen(v, pass)
    case Close => (if v.Present? then v.(open := false) else v, Success)
    case _ =>
      if v.Absent? || !v.open then (v, NotOpen)
      else
        match call
        case Put(slot, value) => (v.(entries := v.entries[slot := value]), Success)
        case Delete(slot) => (v.(entries := v.entries - {slot}), Success)
        case Change(o, n, _) => PlainChange(v, o, n)
  }

  /** The files and the handle are those of this plain vault. */
  predicate Shows(s: Session, v: Plain)
  {
    && Inv(s)
    && match v
       case Absent => s.conn.None? && s.world.db.NoDb? && s.world.sidecar.NoSidecar?
       case Present(p, e, open) => Contents(s.world) == Holds(p, e) && (s.conn.Some? <==> open)
  }

  lemma ChangeIsPlain(s: Session, v: Plain, o: string, n: string, salt: Salt)
    requires Shows(s, v) && s.conn.Some?
    ensures var (s', reply, _) := Execute(s, Change(o, n, salt), []);
            var (v', expected) := PlainChange(v, o, n);
            Shows(s', v') && reply == expected
  {
    if o == v.pass && |n| >= 8 {
      assert AllWork([], 0, 5);
      ChangeHandsOver(s, n, salt, [], n);
      CallIsAtomic(s, Change(o, n, salt), []);
    } else {
      ChangeReachesReseal(s, o, n, salt, []);
    }
  }

  lemma CreateIsPlain(s: Session, v: Plain, pass: string, salt: Salt)
    requires Shows(s, v)
    ensures var (s', reply, _) := Execute(s, Create(pass, salt), []);
            var (v', expected) := PlainCreate(v, pass);
            Shows(s', v') && reply == expected
  {
    if v.Absent? && |pass| >= 8 {
      assert AllWork([], 0, 4);
      CreateSucceedsExactly(s, pass, salt, []);
      CallIsAtomic(s, Create(pass, salt), []);
    }
  }

  /** One undisturbed call does what the plain vault does and answers what it answers. */
  lemma CallIsPlain(s: Session, v: Plain, call: Call)
    requires Shows(s, v)
    ensures var (s', reply, _) := Execute(s, call, []);
            Shows(s', PlainStep(v, call).0) && reply == PlainStep(v, call).1
  {
    match call
    case Create(pass, salt) => CreateIsPlain(s, v, pass, salt);
    case Open(pass) => OpensExactly(s.world, pass);
    case Change(o, n, salt) => if s.conn.Some? { ChangeIsPlain(s, v, o, n, salt); }
    case _ =>
  }

  function PlainRun(v: Plain, calls: seq<Call>): (Plain, seq<Reply>)
    decreases |calls|
  {
    if calls == [] then (v, [])
    else
      var (v1, reply) := PlainStep(v, calls[0]);
      var (v', replies) := PlainRun(v1, calls[1..]);
      (v', [reply] + replies)
  }

  function Undisturbedly(calls: seq<Call>): seq<Event>
  {
    seq(|calls|, i requires 0 <= i < |calls| => Event(calls[i], []))
  }

  function Replies(log: seq<(Event, Reply)>): seq<Reply>
  {
    seq(|log|, i requires 0 <= i < |log| => log[i].1)
  }

  /** Any undisturbed run is a run of the plain vault, reply by reply. */
  lemma {:induction false} RunIsPlain(s: Session, v: Plain, calls: seq<Call>)
    requires Shows(s, v)
    ensures var o := Run(s, Undisturbedly(calls));
            Shows(o.session, PlainRun(v, calls).0) && Replies(o.log) == PlainRun(v, calls).1
    decreases |calls|
  {
    if calls != [] {
      CallIsPlain(s, v, calls[0]);
      var s1 := Execute(s, calls[0], []).0;
      assert Undisturbedly(calls)[1..] == Undisturbedly(calls[1..]);
      RunIsPlain(s1, PlainStep(v, calls[0]).0, calls[1..]);
      var rest := Run(s1, Undisturbedly(calls[1..]));
      assert Run(s, Undisturbedly(calls)).log[1..] == rest.log;
    }
  }
}
