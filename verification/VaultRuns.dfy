/** What any run of vault calls keeps, at every point where the process may stop:
    seen from outside, each call either happened entirely or not at all. */
module VaultRuns {
  import opened Wrappers
  import opened Host
  import opened VaultCore

  // ── The abstract vault ───────────────────────────────────────────────

  /** No vault, a vault holding entries under one passphrase, a sidecar beside a database
      that was never initialised, or files that no passphrase opens. */
  datatype Coffer = NoVault | Holds(pass: string, entries: Entries) | Unclaimed | Lost

  function Contents(w: World): Coffer
  {
    if w.sidecar.NoSidecar? then NoVault
    else
      match FromJson(w.sidecar)
      case Err(_) => Lost
      case Ok(h) =>
        if w.db.BlankDb? then Unclaimed
        else if w.db.SealedDb? && DeriveKey(w.db.key.pass, h) == Ok(w.db.key) then Holds(w.db.key.pass, w.db.entries)
        else Lost
  }

  /** A sidecar on disk is readable and has an initialised database beside it. */
  predicate Safe(w: World)
  {
    w.sidecar.NoSidecar? || (FromJson(w.sidecar).Ok? && w.db.SealedDb?)
  }

  /** The abstract value means what it says: whatever is on the disk, it decides for every
      passphrase what an undisturbed `open` answers. Opening changes nothing, except that
      the first passphrase to come claims a database that was never initialised. */
  lemma OpensExactly(w: World, q: string)
    ensures var (m, r) := OpenVault(Healthy(w), q);
            match Contents(w)
            case NoVault => r == Err(NotFound) && m.world == w
            case Holds(p, entries) =>
              && m.world == w && w.db.entries == entries
              && r == if q == p then Ok(w.db.key)
                      else Err(if |q| < MIN_PASSPHRASE_LEN then WeakPassphrase else WrongPassphrase)
            case Unclaimed =>
              && r == DeriveKey(q, w.sidecar.header)
              && m.world == if r.Ok? then w.(db := SealedDb(r.value, map[])) else w
            case Lost => r.Err? && m.world == w
  {
  }

  // ── Calls and sessions ───────────────────────────────────────────────

  datatype Call =
    | Create(pass: string, salt: Salt)
    | Open(pass: string)
    | Put(slot: Slot, value: Value)
    | Delete(slot: Slot)
    | Change(oldPass: string, newPass: string, salt: Salt)
    | Close

  /** The machine and, while a vault is open, the key of its connection. */
  datatype Session = Session(world: World, conn: Option<Key>)

  /** `Stopped`: the process died during the call. `NotOpen`: the call needs an open vault. */
  datatype Reply = Success | Failure(error: VaultError) | Stopped | NotOpen

  predicate Inv(s: Session)
  {
    && Safe(s.world)
    && (s.conn.Some? ==>
          s.world.sidecar.Json? && s.world.db.SealedDb? && s.world.db.key == s.conn.value)
  }

  function Answer<T>(m: Machine, r: Result<T, VaultError>): Reply
  {
    if !m.alive then Stopped else if r.Ok? then Success else Failure(r.error)
  }

  function Handle(m: Machine, r: Result<Key, VaultError>, previous: Option<Key>): Option<Key>
  {
    if !m.alive then None else if r.Ok? then Some(r.value) else previous
  }

  function Stated(st: Status): Result<(), VaultError>
  {
    if st.Done? then Ok(()) else Err(Sql)
  }

  /** Outcome of one call: the session after it, the reply, and the images it went through. */
  function Execute(s: Session, call: Call, plan: seq<Fate>): (Session, Reply, seq<World>)
  {
    var m := Start(s.world, plan);
    match call
    case Create(pass, salt) =>
      var (m1, r) := CreateVault(m, pass, salt);
      (Session(m1.world, Handle(m1, r, s.conn)), Answer(m1, r), m1.trace)
    case Open(pass) =>
      var (m1, r) := OpenVault(m, pass);
      (Session(m1.world, Handle(m1, r, s.conn)), Answer(m1, r), m1.trace)
    case Close => (s.(conn := None), Success, [])
    case _ =>
      if s.conn.None? then (s, NotOpen, [])
      else
        var conn := s.conn.value;
        match call
        case Put(slot, v) =>
          var (m1, st) := Perform(m, Host.Put(conn, slot, v));
          (Session(m1.world, if m1.alive then s.conn else None), Answer(m1, Stated(st)), m1.trace)
        case Delete(slot) =>
          var (m1, st) := Perform(m, Host.Delete(conn, slot));
          (Session(m1.world, if m1.alive then s.conn else None), Answer(m1, Stated(st)), m1.trace)
        case Change(o, n, salt) =>
          var (m1, conn1, r) := ChangePassphrase(m, conn, o, n, salt);
          (Session(m1.world, if m1.alive then Some(conn1) else None), Answer(m1, r), m1.trace)
  }

  /** What the call is meant to do to the abstract vault. */
  function Intended(c: Coffer, call: Call): Coffer
  {
    match (c, call)
    case (NoVault, Create(p, _)) => if |p| < MIN_PASSPHRASE_LEN then NoVault else Holds(p, map[])
    case (Holds(p, e), Put(slot, v)) => Holds(p, e[slot := v])
    case (Holds(p, e), Delete(slot)) => Holds(p, e - {slot})
    case (Holds(p, e), Change(_, n, _)) => Holds(n, e)
    case _ => c
  }

  /** Between `rekey` and the rename of the sidecar: new key, old sidecar, entries unharmed. */
  predicate InWindow(before: World, call: Call, w: World)
  {
    && call.Change?
    && w.sidecar == before.sidecar
    && w.db.SealedDb? && before.db.SealedDb?
    && DeriveKey(call.newPass, NewDefault(call.salt)) == Ok(w.db.key)
    && w.db.entries == before.db.entries
  }

  /** The vault as it was, as the call means it to be, or in the window of that very call. */
  predicate Passable(before: World, call: Call, w: World)
  {
    && Safe(w)
    && (Contents(w) in {Contents(before), Intended(Contents(before), call)} || InWindow(before, call, w))
  }

  /** The session stays consistent and every image is passable. */
  predicate Sound(s: Session, call: Call, s': Session, images: seq<World>)
  {
    && Inv(s')
    && Passable(s.world, call, s'.world)
    && (forall w | w in images :: Passable(s.world, call, w))
  }

  /** From `step` on, the plan lets `rekey` through and then neither the sidecar
      write nor the rollback succeeds. */
  predicate StrandsFrom(plan: seq<Fate>, step: nat)
  {
    && FateAt(plan, step).Works?
    && match FateAt(plan, step + 1)
       case Dies(_) => true
       case Fails(_) => !FateAt(plan, step + 2).Works?
       case Works => || FateAt(plan, step + 2).Dies?
                     || (FateAt(plan, step + 2).Fails? && !FateAt(plan, step + 3).Works?)
  }

  /** `change_passphrase` reads the sidecar and tests the old key before it rekeys. */
  predicate Strands(plan: seq<Fate>)
  {
    FateAt(plan, 0).Works? && FateAt(plan, 1).Works? && StrandsFrom(plan, 2)
  }

  /** A change of passphrase that passes its checks and that the plan strands. */
  predicate Stranded(before: Coffer, call: Call, plan: seq<Fate>)
  {
    && call.Change? && before.Holds? && call.oldPass == before.pass
    && |call.newPass| >= MIN_PASSPHRASE_LEN && Strands(plan)
  }

  datatype Event = Event(call: Call, plan: seq<Fate>)

  /** What the reply allows the contents to be after a call. Success: all of it happened;
      failure: nothing; a crash: one or the other. A stranded change never succeeds, and
      leaves the vault lost (or changed, should the new salt be the old one again). */
  predicate Allows(before: Coffer, e: Event, reply: Reply, after: Coffer)
  {
    if reply.NotOpen? then after == before
    else if Stranded(before, e.call, e.plan) then !reply.Success? && after in {Lost, Intended(before, e.call)}
    else
      && after in {before, Intended(before, e.call)}
      && (reply.Success? ==> after == Intended(before, e.call))
      && (reply.Failure? ==> after == before)
  }

  predicate Atomic(s: Session, call: Call, plan: seq<Fate>)
  {
    var (s', reply, images) := Execute(s, call, plan);
    Sound(s, call, s', images) && Allows(Contents(s.world), Event(call, plan), reply, Contents(s'.world))
  }

  // ── The building blocks ──────────────────────────────────────────────

  /** The sidecar as it was, and an initialised database as well. */
  predicate Kept(before: World, w: World)
  {
    w.sidecar == before.sidecar && (before.db.SealedDb? ==> w.db == before.db)
  }

  /** Opening a connection touches nothing but a database that was not initialised. */
  lemma OpenAndInitImages(m: Machine, key: Key)
    ensures var (m', r) := OpenAndInit(m, key);
            && (m'.alive ==> m.alive) && m'.plan == m.plan && m'.world.keychain == m.world.keychain
            && Kept(m.world, m'.world)
            && (forall w | w in m'.trace :: w in m.trace || Kept(m.world, w))
            && (r.Ok? ==> m'.alive && m'.world.db.SealedDb? && m'.world.db.key == key)
            && (r.Ok? && m.world.db.NoDb? ==> m'.world.db.entries == map[])
  {
  }

  /** Replacing the sidecar shows either the old one or, once it succeeded, the new one. */
  lemma WriteSidecarImages(m: Machine, h: KdfHeader)
    ensures var (m', ok) := WriteSidecar(m, h);
            && m'.world.db == m.world.db
            && m'.world.sidecar == (if ok then Json(h) else m.world.sidecar)
            && (ok ==> m'.alive)
            && (forall w | w in m'.trace ::
                  w in m.trace || (w.db == m.world.db && (w.sidecar == m.world.sidecar || (ok && w == m'.world))))
  {
  }

  /** When it succeeds, and where it leaves the plan and the process when it does not. */
  lemma WriteSidecarOutcome(m: Machine, h: KdfHeader)
    requires m.alive
    ensures var (m', ok) := WriteSidecar(m, h);
            && (ok <==> FateAt(m.plan, m.step).Works? && FateAt(m.plan, m.step + 1).Works?)
            && m'.plan == m.plan
            && m'.step == m.step + (if FateAt(m.plan, m.step).Works? then 2 else 1)
            && (m'.alive <==> !FateAt(m.plan, m'.step - 1).Dies?)
            && m'.world.db == m.world.db && m'.world.keychain == m.world.keychain
            && m'.world.sidecar == (if ok then Json(h) else m.world.sidecar)
  {
  }

  /** The same entries under one of the two keys. */
  predicate Resealing(before: World, oldKey: Key, newKey: Key, w: World)
    requires before.db.SealedDb?
  {
    w.db.SealedDb? && w.db.entries == before.db.entries && w.db.key in {oldKey, newKey}
  }

  /** Rekey and sidecar replacement: every image has the old sidecar and the same
      entries under one of the two keys, until the last one of a success. */
  lemma ResealImages(m: Machine, oldKey: Key, newKey: Key, h: KdfHeader)
    requires m.alive && m.world.db.SealedDb? && m.world.db.key == oldKey
    ensures var (m', _, r) := Reseal(m, oldKey, oldKey, newKey, h);
            forall w | w in m'.trace ::
              w in m.trace
              || (w.sidecar == m.world.sidecar && Resealing(m.world, oldKey, newKey, w))
              || (r.Ok? && w == m'.world)
  {
    WriteSidecarImages(Perform(m, Rekey(oldKey, newKey)).0, h);
  }

  /** How it ends: key and sidecar both old or both new, unless the plan strands them. */
  lemma ResealOutcome(m: Machine, oldKey: Key, newKey: Key, h: KdfHeader)
    requires m.alive && m.world.db.SealedDb? && m.world.db.key == oldKey
    ensures var (m', conn, r) := Reseal(m, oldKey, oldKey, newKey, h);
            && Resealing(m.world, oldKey, newKey, m'.world)
            && (m'.alive ==> conn == m'.world.db.key)
            && (r.Ok? ==> m'.alive && conn == newKey)
            && m'.world.sidecar == (if r.Ok? then Json(h) else m.world.sidecar)
            && (oldKey != newKey ==> (r.Err? && m'.world.db.key == newKey <==> StrandsFrom(m.plan, m.step)))
  {
    var (m1, rekeyed) := Perform(m, Rekey(oldKey, newKey));
    if rekeyed.Done? {
      WriteSidecarOutcome(m1, h);
    }
  }

  // ── Atomicity, call by call ──────────────────────────────────────────

  /** On a clean disk, what `create` leaves: a sealed empty vault and its sidecar, or no sidecar. */
  lemma CreateOutcome(m: Machine, pass: string, salt: Salt)
    requires m.alive && m.world.db.NoDb? && m.world.sidecar.NoSidecar? && |pass| >= MIN_PASSPHRASE_LEN
    ensures var (m', r) := CreateVault(m, pass, salt);
            && m'.plan == m.plan && m'.world.keychain == m.world.keychain
            && (r.Err? ==> m'.world.sidecar.NoSidecar?)
            && (r.Ok? ==>
                  && m'.alive && r == DeriveKey(pass, NewDefault(salt))
                  && m'.world.sidecar == Json(NewDefault(salt)) && m'.world.db == SealedDb(r.value, map[]))
  {
    DefaultHeaderDerives(pass, salt);
    var key := DeriveKey(pass, NewDefault(salt)).value;
    OpenAndInitImages(m, key);
    var (m1, session) := OpenAndInit(m, key);
    if session.Ok? {
      WriteSidecarOutcome(m1, NewDefault(salt));
    }
  }

  /** And no image has a sidecar before the last one of a success. */
  lemma CreateImages(m: Machine, pass: string, salt: Salt)
    requires m.world.db.NoDb? && m.world.sidecar.NoSidecar? && |pass| >= MIN_PASSPHRASE_LEN
    ensures var (m', r) := CreateVault(m, pass, salt);
            forall w | w in m'.trace :: w in m.trace || w.sidecar.NoSidecar? || (r.Ok? && w == m'.world)
  {
    DefaultHeaderDerives(pass, salt);
    var key := DeriveKey(pass, NewDefault(salt)).value;
    OpenAndInitImages(m, key);
    var (m1, session) := OpenAndInit(m, key);
    if session.Ok? {
      WriteSidecarImages(m1, NewDefault(salt));
    }
  }

  lemma CreateIsAtomic(s: Session, pass: string, salt: Salt, plan: seq<Fate>)
    requires Inv(s)
    ensures Atomic(s, Create(pass, salt), plan)
  {
    if s.world.db.NoDb? && s.world.sidecar.NoSidecar? && |pass| >= MIN_PASSPHRASE_LEN {
      CreateOutcome(Start(s.world, plan), pass, salt);
      CreateImages(Start(s.world, plan), pass, salt);
    }
  }

  lemma OpenIsAtomic(s: Session, pass: string, plan: seq<Fate>)
    requires Inv(s)
    ensures Atomic(s, Open(pass), plan)
  {
    var (m1, derived) := KeyFromSidecar(Start(s.world, plan), pass);
    if derived.Ok? {
      OpenAndInitImages(m1, derived.value);
    }
  }

  /** The checks of `change_passphrase` pass: the old passphrase is right, the new one long enough. */
  predicate Granted(s: Session, oldPass: string, newPass: string, plan: seq<Fate>)
  {
    && Contents(s.world).Holds? && oldPass == Contents(s.world).pass
    && |newPass| >= MIN_PASSPHRASE_LEN
    && FateAt(plan, 0).Works? && FateAt(plan, 1).Works?
  }

  function Checked(s: Session, plan: seq<Fate>): Machine
  {
    Machine(s.world, plan, 2, true, [s.world, s.world])
  }

  /** Either the checks fail and nothing was touched, or the call comes down to the
      resealing of steps 3 and 4. */
  lemma ChangeReachesReseal(s: Session, oldPass: string, newPass: string, salt: Salt, plan: seq<Fate>)
    requires Inv(s) && s.conn.Some?
    ensures var change := ChangePassphrase(Start(s.world, plan), s.conn.value, oldPass, newPass, salt);
            if Granted(s, oldPass, newPass, plan) then
              var derived := DeriveKey(newPass, NewDefault(salt));
              && derived.Ok?
              && change == Reseal(Checked(s, plan), s.conn.value, s.conn.value, derived.value, NewDefault(salt))
            else
              && change.0.world == s.world && change.1 == s.conn.value && change.2.Err?
              && forall w | w in change.0.trace :: w == s.world
  {
    if |newPass| >= MIN_PASSPHRASE_LEN {
      DefaultHeaderDerives(newPass, salt);
    }
    assert [] + [s.world] + [s.world] == [s.world, s.world];
  }

  /** Resealing an open vault: whatever keeps the old sidecar is the old vault or in the window. */
  lemma ResealingIsPassable(before: World, call: Call, newKey: Key, w: World)
    requires Safe(before) && before.sidecar.Json? && call.Change? && w.sidecar == before.sidecar
    requires DeriveKey(call.newPass, NewDefault(call.salt)) == Ok(newKey)
    requires Resealing(before, before.db.key, newKey, w)
    ensures Passable(before, call, w)
  {
  }

  lemma ChangeIsPassable(s: Session, oldPass: string, newPass: string, salt: Salt, plan: seq<Fate>)
    requires Inv(s) && s.conn.Some? && Granted(s, oldPass, newPass, plan)
    ensures var (m, _, _) := ChangePassphrase(Start(s.world, plan), s.conn.value, oldPass, newPass, salt);
            var call := Change(oldPass, newPass, salt);
            Passable(s.world, call, m.world) && forall w | w in m.trace :: Passable(s.world, call, w)
  {
    ChangeReachesReseal(s, oldPass, newPass, salt, plan);
    DefaultHeaderDerives(newPass, salt);
    var newKey := DeriveKey(newPass, NewDefault(salt)).value;
    var call, conn := Change(oldPass, newPass, salt), s.conn.value;
    ResealOutcome(Checked(s, plan), conn, newKey, NewDefault(salt));
    ResealImages(Checked(s, plan), conn, newKey, NewDefault(salt));
    forall w: World | w.sidecar == s.world.sidecar && Resealing(s.world, conn, newKey, w)
      ensures Passable(s.world, call, w)
    {
      ResealingIsPassable(s.world, call, newKey, w);
    }
  }

  /** What a granted change leaves: key and sidecar both new, both old, or stranded. */
  lemma ChangeIsAllowed(s: Session, oldPass: string, newPass: string, salt: Salt, plan: seq<Fate>)
    requires Inv(s) && s.conn.Some? && Granted(s, oldPass, newPass, plan)
    ensures var call := Change(oldPass, newPass, salt);
            var (s', reply, _) := Execute(s, call, plan);
            Inv(s') && Allows(Contents(s.world), Event(call, plan), reply, Contents(s'.world))
  {
    ChangeReachesReseal(s, oldPass, newPass, salt, plan);
    DefaultHeaderDerives(newPass, salt);
    ResealOutcome(Checked(s, plan), s.conn.value, DeriveKey(newPass, NewDefault(salt)).value, NewDefault(salt));
  }

  lemma ChangeIsAtomic(s: Session, oldPass: string, newPass: string, salt: Salt, plan: seq<Fate>)
    requires Inv(s) && s.conn.Some?
    ensures Atomic(s, Change(oldPass, newPass, salt), plan)
  {
    if Granted(s, oldPass, newPass, plan) {
      ChangeIsAllowed(s, oldPass, newPass, salt, plan);
      ChangeIsPassable(s, oldPass, newPass, salt, plan);
    } else {
      ChangeReachesReseal(s, oldPass, newPass, salt, plan);
    }
  }

  /** Every call is atomic on the abstract vault at every image it goes through, except
      inside the window of `change_passphrase`; only a stranded change ends there. */
  lemma CallIsAtomic(s: Session, call: Call, plan: seq<Fate>)
    requires Inv(s)
    ensures Atomic(s, call, plan)
  {
    match call
    case Create(pass, salt) => CreateIsAtomic(s, pass, salt, plan);
    case Open(pass) => OpenIsAtomic(s, pass, plan);
    case Change(o, n, salt) => if s.conn.Some? { ChangeIsAtomic(s, o, n, salt, plan); }
    case _ =>
  }

  // ── change_passphrase ────────────────────────────────────────────────

  /** Exactly when a vault that is open turns out lost after a change of passphrase: it was
      before, or the change was stranded and the key it put on the database is not the one
      the old sidecar gives the new passphrase, which takes the same salt. */
  lemma LostExactlyWhenStranded(s: Session, oldPass: string, newPass: string, salt: Salt, plan: seq<Fate>)
    requires Inv(s) && s.conn.Some?
    ensures Contents(Execute(s, Change(oldPass, newPass, salt), plan).0.world).Lost? <==>
            || Contents(s.world).Lost?
            || (Stranded(Contents(s.world), Change(oldPass, newPass, salt), plan)
                && DeriveKey(newPass, s.world.sidecar.header) != DeriveKey(newPass, NewDefault(salt)))
  {
    ChangeReachesReseal(s, oldPass, newPass, salt, plan);
    if Granted(s, oldPass, newPass, plan) {
      DefaultHeaderDerives(newPass, salt);
      var newKey := DeriveKey(newPass, NewDefault(salt)).value;
      ResealOutcome(Checked(s, plan), s.conn.value, newKey, NewDefault(salt));
    }
  }

  predicate AtMostOneFails(plan: seq<Fate>)
  {
    && (forall i | 0 <= i < |plan| :: !plan[i].Dies?)
    && (forall i, j | 0 <= i < j < |plan| :: plan[i].Works? || plan[j].Works?)
  }

  lemma OneFailureNeverStrands(plan: seq<Fate>, step: nat)
    requires AtMostOneFails(plan)
    ensures !StrandsFrom(plan, step)
  {
    assert forall i: nat, j: nat | i < j :: FateAt(plan, i).Works? || FateAt(plan, j).Works?;
  }

  /** The vault after a change of passphrase under at most one failing step: who opens it. */
  lemma ChangeDecidesContents(s: Session, oldPass: string, newPass: string, salt: Salt, plan: seq<Fate>)
    requires Inv(s) && s.conn.Some? && Contents(s.world).Holds?
    requires AtMostOneFails(plan)
    ensures var (m, _, r) := ChangePassphrase(Start(s.world, plan), s.conn.value, oldPass, newPass, salt);
            && Safe(m.world)
            && Contents(m.world) == (if r.Ok? then Holds(newPass, s.world.db.entries) else Contents(s.world))
            && (r.Ok? ==> oldPass == Contents(s.world).pass)
  {
    OneFailureNeverStrands(plan, 2);
    ChangeReachesReseal(s, oldPass, newPass, salt, plan);
    if Granted(s, oldPass, newPass, plan) {
      DefaultHeaderDerives(newPass, salt);
      ResealOutcome(Checked(s, plan), s.conn.value, DeriveKey(newPass, NewDefault(salt)).value, NewDefault(salt));
    }
  }

  /** With at most one failing step, the answer of `change_passphrase` decides which
      passphrase opens the vault afterwards, and the entries are the same either way. */
  lemma ChangeIsAllOrNothing(s: Session, oldPass: string, newPass: string, salt: Salt, plan: seq<Fate>, q: string)
    requires Inv(s) && s.conn.Some? && Contents(s.world).Holds?
    requires AtMostOneFails(plan)
    ensures var (m, _, r) := ChangePassphrase(Start(s.world, plan), s.conn.value, oldPass, newPass, salt);
            && (r.Ok? ==> oldPass == Contents(s.world).pass)
            && m.world.db.SealedDb? && m.world.db.entries == s.world.db.entries
            && (OpenVault(Healthy(m.world), q).1.Ok? <==> q == if r.Ok? then newPass else Contents(s.world).pass)
  {
    ChangeDecidesContents(s, oldPass, newPass, salt, plan);
    var (m, _, r) := ChangePassphrase(Start(s.world, plan), s.conn.value, oldPass, newPass, salt);
    OpensExactly(m.world, q);
  }

  // ── Whole runs ───────────────────────────────────────────────────────

  datatype Outcome = Outcome(session: Session, log: seq<(Event, Reply)>, images: seq<World>)

  function Run(s: Session, events: seq<Event>): Outcome
    decreases |events|
  {
    if events == [] then Outcome(s, [], [])
    else
      var (s1, reply, images) := Execute(s, events[0].call, events[0].plan);
      var rest := Run(s1, events[1..]);
      Outcome(rest.session, [(events[0], reply)] + rest.log, images + rest.images)
  }

  /** The log accounts for the final contents: each call had an effect its reply allows. */
  predicate Accounts(start: Coffer, log: seq<(Event, Reply)>, final: Coffer)
    decreases |log|
  {
    if log == [] then final == start
    else
      var (e, reply) := log[0];
      || (Allows(start, e, reply, start) && Accounts(start, log[1..], final))
      || (Allows(start, e, reply, Intended(start, e.call)) && Accounts(Intended(start, e.call), log[1..], final))
      || (Allows(start, e, reply, Lost) && Accounts(Lost, log[1..], final))
  }

  const CLEAN := World(NoDb, NoSidecar, NoSidecar, map[])

  const BLANK := Session(CLEAN, None)

  /** At every point of every run, whatever fails and wherever the process stops, a
      sidecar on disk has an initialised database beside it. */
  lemma {:induction false} RunIsSafe(s: Session, events: seq<Event>)
    requires Inv(s)
    ensures Inv(Run(s, events).session)
    ensures forall w | w in Run(s, events).images :: Safe(w)
    decreases |events|
  {
    if events != [] {
      CallIsAtomic(s, events[0].call, events[0].plan);
      RunIsSafe(Execute(s, events[0].call, events[0].plan).0, events[1..]);
    }
  }

  /** The vault on disk is after any run what the replies account for, stranded changes included. */
  lemma {:induction false} RunIsAccountedFor(s: Session, events: seq<Event>)
    requires Inv(s)
    ensures var o := Run(s, events);
            Accounts(Contents(s.world), o.log, Contents(o.session.world))
    decreases |events|
  {
    if events != [] {
      CallIsAtomic(s, events[0].call, events[0].plan);
      var s1 := Execute(s, events[0].call, events[0].plan).0;
      RunIsAccountedFor(s1, events[1..]);
      assert Run(s, events).log[1..] == Run(s1, events[1..]).log;
    }
  }

  /** The session in which event `i` of a run takes place, and the images it goes through. */
  function SessionAt(s: Session, events: seq<Event>, i: nat): Session
    requires i <= |events|
  {
    Run(s, events[..i]).session
  }

  function ImagesAt(s: Session, events: seq<Event>, i: nat): seq<World>
    requires i < |events|
  {
    Execute(SessionAt(s, events, i), events[i].call, events[i].plan).2
  }

  lemma LaterSession(s: Session, events: seq<Event>, i: nat)
    requires i < |events|
    ensures SessionAt(s, events, i + 1) == SessionAt(Execute(s, events[0].call, events[0].plan).0, events[1..], i)
  {
    assert events[..i + 1][1..] == events[1..][..i];
  }

  /** A vault is lost during a run only by a stranded change of passphrase of an open vault. */
  lemma {:induction false} LossTakesAStrandedChange(s: Session, events: seq<Event>) returns (i: nat)
    requires Inv(s) && !Contents(s.world).Lost? && Contents(Run(s, events).session.world).Lost?
    ensures i < |events|
    ensures var before := SessionAt(s, events, i);
            before.conn.Some? && Stranded(Contents(before.world), events[i].call, events[i].plan)
    decreases |events|
  {
    var (s1, reply, _) := Execute(s, events[0].call, events[0].plan);
    CallIsAtomic(s, events[0].call, events[0].plan);
    assert events[..0] == [];
    if Contents(s1.world).Lost? {
      i := 0;
    } else {
      var j := LossTakesAStrandedChange(s1, events[1..]);
      LaterSession(s, events, j);
      i := j + 1;
    }
  }

  /** An image of event `i`: the log so far accounts for the vault the event found, and the
      image shows that vault, the one the event means, or the window of that very event. */
  predicate Explained(s: Session, events: seq<Event>, i: nat, w: World)
    requires i < |events|
  {
    var o := Run(s, events[..i]);
    && w in ImagesAt(s, events, i)
    && Accounts(Contents(s.world), o.log, Contents(o.session.world))
    && Passable(o.session.world, events[i].call, w)
  }

  lemma {:induction false} ImageIsOfSomeEvent(s: Session, events: seq<Event>, w: World) returns (i: nat)
    requires w in Run(s, events).images
    ensures i < |events| && w in ImagesAt(s, events, i)
    decreases |events|
  {
    assert events[..0] == [];
    if w in Execute(s, events[0].call, events[0].plan).2 {
      i := 0;
    } else {
      var j := ImageIsOfSomeEvent(Execute(s, events[0].call, events[0].plan).0, events[1..], w);
      LaterSession(s, events, j);
      i := j + 1;
    }
  }

  /** At every point of every run the database key is the one the sidecar derives from the
      passphrase the replies account for, or the event under way is a change of passphrase
      between its `rekey` and its end, or an earlier change was stranded. */
  lemma RunStaysInStep(s: Session, events: seq<Event>, w: World)
    requires Inv(s) && w in Run(s, events).images
    ensures exists i | 0 <= i < |events| :: Explained(s, events, i, w)
  {
    var i := ImageIsOfSomeEvent(s, events, w);
    RunIsSafe(s, events[..i]);
    RunIsAccountedFor(s, events[..i]);
    CallIsAtomic(SessionAt(s, events, i), events[i].call, events[i].plan);
    assert Explained(s, events, i, w);
  }

  /** These statements from an empty disk. */
  lemma RunFromBlank(events: seq<Event>)
    ensures var o := Run(BLANK, events);
            && Accounts(NoVault, o.log, Contents(o.session.world))
            && (forall w | w in o.images :: w.sidecar.NoSidecar? || !w.db.NoDb?)
            && (forall w | w in o.images :: exists i | 0 <= i < |events| :: Explained(BLANK, events, i, w))
  {
    RunIsSafe(BLANK, events);
    RunIsAccountedFor(BLANK, events);
    forall w | w in Run(BLANK, events).images
      ensures exists i | 0 <= i < |events| :: Explained(BLANK, events, i, w)
    {
      RunStaysInStep(BLANK, events, w);
    }
  }

  // ── create leaves nothing behind, except when it does ────────────────

  /** From `step` on, the plan makes `create` fail after the database file came into being
      and without the sidecar write being undone. */
  predicate Orphans(plan: seq<Fate>, step: nat)
  {
    match FateAt(plan, step)
    case Fails(residue) => residue
    case Dies(residue) => residue
    case Works =>
      || !FateAt(plan, step + 1).Works?
      || match FateAt(plan, step + 2)
         case Dies(_) => true
         case Fails(_) => !FateAt(plan, step + 3).Works?
         case Works => FateAt(plan, step + 3).Dies? || (FateAt(plan, step + 3).Fails? && !FateAt(plan, step + 4).Works?)
  }

  lemma OpenAndInitFates(m: Machine, key: Key)
    requires m.alive && m.world.db.NoDb?
    ensures var (m', r) := OpenAndInit(m, key);
            && (r.Ok? <==> FateAt(m.plan, m.step).Works? && FateAt(m.plan, m.step + 1).Works?)
            && (r.Ok? ==> m'.alive && m'.plan == m.plan && m'.step == m.step + 2 && m'.world.db.SealedDb?)
            && (!m'.world.db.NoDb? <==> FateAt(m.plan, m.step).Works? || FateAt(m.plan, m.step).residue)
  {
  }

  /** When `create` succeeds on a clean disk, and when it leaves a database file without a sidecar. */
  lemma CreateFates(m: Machine, pass: string, salt: Salt)
    requires m.alive && m.world.db.NoDb? && m.world.sidecar.NoSidecar? && |pass| >= MIN_PASSPHRASE_LEN
    ensures var (m', r) := CreateVault(m, pass, salt);
            && (r.Ok? <==> AllWork(m.plan, m.step, 4))
            && (r.Ok? ==> m'.step == m.step + 4)
            && (r.Err? ==> (!m'.world.db.NoDb? <==> Orphans(m.plan, m.step)))
  {
    DefaultHeaderDerives(pass, salt);
    var key := DeriveKey(pass, NewDefault(salt)).value;
    var (m1, session) := OpenAndInit(m, key);
    OpenAndInitFates(m, key);
    assert AllWork(m.plan, m.step, 4) <==>
           && FateAt(m.plan, m.step).Works? && FateAt(m.plan, m.step + 1).Works?
           && FateAt(m.plan, m.step + 2).Works? && FateAt(m.plan, m.step + 3).Works?;
    if session.Ok? {
      WriteSidecarOutcome(m1, NewDefault(salt));
    }
  }

  /** The module promises "nothing created or everything created". On a clean disk a
      `create` that does not succeed leaves a database file exactly in these cases. */
  lemma OrphanExactly(w: World, pass: string, salt: Salt, plan: seq<Fate>)
    requires w.db.NoDb? && w.sidecar.NoSidecar? && |pass| >= MIN_PASSPHRASE_LEN
    ensures var (s', reply, _) := Execute(Session(w, None), Create(pass, salt), plan);
            !reply.Success? ==> (!s'.world.db.NoDb? && s'.world.sidecar.NoSidecar? <==> Orphans(plan, 0))
  {
    CreateOutcome(Start(w, plan), pass, salt);
    CreateFates(Start(w, plan), pass, salt);
  }

  /** A concrete run that breaks the promise, and what it costs: with the file left
      behind and no sidecar, neither `create` nor `open` ever succeeds again. */
  lemma OrphanBlocksForever(pass: string, salt: Salt, plan: seq<Fate>, q: string, salt': Salt, plan': seq<Fate>)
    requires |pass| >= MIN_PASSPHRASE_LEN && plan == [Works, Fails(false)]
    ensures var (s', reply, _) := Execute(BLANK, Create(pass, salt), plan);
            && reply == Failure(Sql) && s'.world.db.BlankDb?
            && Execute(s', Create(q, salt'), plan').1 == Failure(AlreadyExists)
            && Execute(s', Open(q), plan').1 == Failure(NotFound)
  {
    DefaultHeaderDerives(pass, salt);
  }
}
