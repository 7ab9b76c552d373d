/** What the two-store protocol keeps, whatever fails and wherever the process stops. */
module IdentityRuns {
  import opened Wrappers
  import opened Host
  import opened IdentityCore
  import Text

  /** Everything the two stores hold about one name. */
  datatype Presence = Presence(described: Option<Value>, cached: Option<Value>, secret: Option<Secret>)

  function Entry(w: World, slot: Slot): Option<Value>
  {
    if w.db.SealedDb? && slot in w.db.entries then Some(w.db.entries[slot]) else None
  }

  function HeldSecret(w: World, account: string): Option<Secret>
  {
    if account in w.keychain then Some(w.keychain[account]) else None
  }

  function At(w: World, name: string): Presence
  {
    Presence(Entry(w, MetaSlot(name)), Entry(w, CacheSlot(name)), HeldSecret(w, name))
  }

  /** Names may contain any character, `:` included: no slot of one name is a slot of another. */
  lemma SlotsAreInjective(name: string, other: string)
    ensures MetaSlot(name) != CacheSlot(other)
    ensures MetaSlot(name) == MetaSlot(other) ==> name == other
    ensures CacheSlot(name) == CacheSlot(other) ==> name == other
  {
    var a, b := MetaSlot(name).1, CacheSlot(other).1;
    assert a[|a| - 1] == 'a' && b[|b| - 1] == 'y';
    if MetaSlot(name) == MetaSlot(other) {
      assert name == a[..|a| - |METADATA|] && other == MetaSlot(other).1[..|a| - |METADATA|];
    }
    if CacheSlot(name) == CacheSlot(other) {
      assert name == CacheSlot(name).1[..|b| - |PUBLIC_KEY|] && other == b[..|b| - |PUBLIC_KEY|];
    }
  }

  // ── One call at a time ───────────────────────────────────────────────

  /** An initialised database open under `conn`. */
  predicate OpenOn(w: World, conn: Key)
  {
    w.db.SealedDb? && w.db.key == conn
  }

  /** An undisturbed `create` succeeds exactly when neither the vault's cached key nor the keychain knows the name. */
  lemma CreateSucceedsExactly(m: Machine, conn: Key, name: string, displayLabel: string, seed: Seed, now: int)
    requires Undisturbed(m) && OpenOn(m.world, conn)
    ensures CreateIdentity(m, conn, name, displayLabel, seed, now).1.Ok? <==>
            At(m.world, name).cached.None? && At(m.world, name).secret.None?
  {
  }

  /** An undisturbed `load` succeeds exactly when both halves are there and agree, and changes nothing. */
  lemma LoadSucceedsExactly(m: Machine, conn: Key, name: string)
    requires Undisturbed(m) && OpenOn(m.world, conn)
    ensures LoadIdentity(m, conn, name).0.world == m.world
    ensures Undisturbed(LoadIdentity(m, conn, name).0)
    ensures var r := LoadIdentity(m, conn, name).1;
            r == match (At(m.world, name).described, At(m.world, name).secret)
                 case (Some(MetadataJson(md)), held) =>
                   if md.publicKey.Malformed? then Err(InvalidPublicKey)
                   else if held.None? then Err(IdentityError.NotFound)
                   else if !held.value.Binary? || |held.value.bytes| != 32 then Err(InvalidSeedLength)
                   else if md.publicKey != PublicKeyOf(held.value.bytes) then Err(KeyMismatch)
                   else Ok(Loaded(held.value.bytes, md))
                 case (None, _) => Err(IdentityError.NotFound)
                 case _ => Err(IdentityError.Corrupted)
  {
  }

  lemma PersistOutcome(m: Machine, conn: Key, md: IdentityMetadata)
    requires m.alive && OpenOn(m.world, conn)
    ensures var (m', ok) := Persist(m, conn, md);
            && (ok <==> FateAt(m.plan, m.step).Works? && FateAt(m.plan, m.step + 1).Works?)
            && m'.plan == m.plan
            && m'.step == m.step + (if FateAt(m.plan, m.step).Works? then 2 else 1)
            && (m'.alive <==> !FateAt(m.plan, m'.step - 1).Dies?)
            && m'.world.keychain == m.world.keychain && m'.world.sidecar == m.world.sidecar
  {
  }

  /** The two vault writes: the cached key is there on success only, the description as
      soon as the first one works. */
  lemma PersistEntries(m: Machine, conn: Key, md: IdentityMetadata)
    requires m.alive && OpenOn(m.world, conn) && At(m.world, md.name).cached.None?
    ensures var (m', ok) := Persist(m, conn, md);
            && OpenOn(m'.world, conn) && m'.world.keychain == m.world.keychain
            && Entry(m'.world, CacheSlot(md.name)) == (if ok then Some(PublicKeyBytes(md.publicKey)) else None)
            && Entry(m'.world, MetaSlot(md.name)) ==
               (if FateAt(m.plan, m.step).Works? then Some(MetadataJson(md)) else Entry(m.world, MetaSlot(md.name)))
  {
    SlotsAreInjective(md.name, md.name);
  }

  /** Storing both halves: all there on success; otherwise no cached key, the keychain as
      before unless taking the seed back failed as well, and the description there
      exactly if its own write was reached and worked. */
  lemma StoreBothOutcome(m: Machine, conn: Key, seed: Seed, md: IdentityMetadata)
    requires m.alive && OpenOn(m.world, conn)
    requires At(m.world, md.name).cached.None? && At(m.world, md.name).secret.None?
    ensures var (m', r) := StoreBoth(m, conn, seed, md);
            && OpenOn(m'.world, conn)
            && (r.Ok? ==> At(m'.world, md.name) ==
                            Presence(Some(MetadataJson(md)), Some(PublicKeyBytes(md.publicKey)), Some(Binary(seed))))
            && At(m'.world, md.name).described ==
               (if AllWork(m.plan, m.step, 2) then Some(MetadataJson(md)) else At(m.world, md.name).described)
            && (r.Err? ==>
                  && At(m'.world, md.name).cached.None?
                  && m'.world.keychain in {m.world.keychain, m.world.keychain[md.name := Binary(seed)]})
  {
    AllWorkTwo(m.plan, m.step);
    var (m1, s1) := Perform(m, KeychainSet(md.name, Binary(seed)));
    if s1.Done? {
      PersistEntries(m1, conn, md);
      assert m1.world.keychain - {md.name} == m.world.keychain;
    }
  }

  /** A read answers when the plan lets it, and moves nothing but the place in the plan. */
  lemma ReadStep(m: Machine, conn: Key, e: Effect)
    requires m.alive && OpenOn(m.world, conn) && (e == Lookup(conn) || e == KeychainGet)
    ensures var (m', s) := Perform(m, e);
            && m'.world == m.world && m'.plan == m.plan && m'.step == m.step + 1
            && m'.trace == m.trace + [m.world]
            && (s.Done? <==> FateAt(m.plan, m.step).Works?)
            && (m'.alive <==> !FateAt(m.plan, m.step).Dies?)
  {
  }

  /** The machine after the two undisturbed reads `create` starts with. */
  function Consulted(m: Machine): Machine
  {
    m.(step := m.step + 2, trace := m.trace + [m.world, m.world])
  }

  /** `create` either stops at its checks, having touched nothing, or comes down to storing both halves. */
  lemma CreateReachesStore(m: Machine, conn: Key, name: string, displayLabel: string, seed: Seed, now: int)
    requires m.alive && OpenOn(m.world, conn)
    ensures var create := CreateIdentity(m, conn, name, displayLabel, seed, now);
            if At(m.world, name).cached.None? && At(m.world, name).secret.None?
               && FateAt(m.plan, m.step).Works? && FateAt(m.plan, m.step + 1).Works? then
              create == StoreBoth(Consulted(m), conn, seed, Description(name, seed, now, displayLabel))
            else
              && create.0.world == m.world && create.1.Err?
              && (forall w | w in create.0.trace :: w in m.trace || w == m.world)
  {
    assert m.trace + [m.world] + [m.world] == m.trace + [m.world, m.world];
    ReadStep(m, conn, Lookup(conn));
    if FateAt(m.plan, m.step).Works? {
      var m1 := Perform(m, Lookup(conn)).0;
      ReadStep(m1, conn, KeychainGet);
      if FateAt(m.plan, m.step + 1).Works? {
        assert Perform(m1, KeychainGet).0 == Consulted(m);
      }
    }
  }

  /** Whatever was disturbed on the way, an identity that was created loads back the same. */
  lemma CreateThenLoad(m: Machine, conn: Key, name: string, displayLabel: string, seed: Seed, now: int)
    requires m.alive && OpenOn(m.world, conn)
    ensures var (m', r) := CreateIdentity(m, conn, name, displayLabel, seed, now);
            r.Ok? ==>
              && r.value == Loaded(seed, Description(name, seed, now, displayLabel))
              && LoadIdentity(Healthy(m'.world), conn, name).1 == r
  {
    CreateReachesStore(m, conn, name, displayLabel, seed, now);
    var (m', r) := CreateIdentity(m, conn, name, displayLabel, seed, now);
    if r.Ok? {
      StoreBothOutcome(Consulted(m), conn, seed, Description(name, seed, now, displayLabel));
      LoadSucceedsExactly(Healthy(m'.world), conn, name);
    }
  }

  /** A failed `create` on a free name: the keychain is as before, and a retry goes
      through, exactly unless the seed was stored and taking it back failed too. */
  lemma FailedCreate(m: Machine, conn: Key, name: string, displayLabel: string, seed: Seed, now: int,
                     seed': Seed, now': int)
    requires m.alive && OpenOn(m.world, conn)
    requires At(m.world, name).cached.None? && At(m.world, name).secret.None?
    ensures var (m', r) := CreateIdentity(m, conn, name, displayLabel, seed, now);
            r.Err? ==>
              && m'.world.keychain in {m.world.keychain, m.world.keychain[name := Binary(seed)]}
              && (CreateIdentity(Healthy(m'.world), conn, name, displayLabel, seed', now').1.Ok?
                  <==> m'.world.keychain == m.world.keychain)
  {
    CreateReachesStore(m, conn, name, displayLabel, seed, now);
    StoreBothOutcome(Consulted(m), conn, seed, Description(name, seed, now, displayLabel));
    var m' := CreateIdentity(m, conn, name, displayLabel, seed, now).0;
    CreateSucceedsExactly(Healthy(m'.world), conn, name, displayLabel, seed', now');
  }

  /** From `step` on: the seed goes in, a vault write then fails, and so does taking the seed back. */
  predicate LeavesSeed(plan: seq<Fate>, step: nat)
  {
    && FateAt(plan, step).Works?
    && match FateAt(plan, step + 1)
       case Dies(_) => true
       case Fails(_) => !FateAt(plan, step + 2).Works?
       case Works => || FateAt(plan, step + 2).Dies?
                     || (FateAt(plan, step + 2).Fails? && !FateAt(plan, step + 3).Works?)
  }

  lemma StoreBothLeavesSeed(m: Machine, conn: Key, seed: Seed, md: IdentityMetadata)
    requires m.alive && OpenOn(m.world, conn) && md.name !in m.world.keychain
    ensures var (m', r) := StoreBoth(m, conn, seed, md);
            r.Err? ==> (md.name in m'.world.keychain <==> LeavesSeed(m.plan, m.step))
  {
    var (m1, s1) := Perform(m, KeychainSet(md.name, Binary(seed)));
    if s1.Done? {
      PersistOutcome(m1, conn, md);
    }
  }

  /** The seed of an identity that was not created stays in the keychain exactly in these cases. */
  lemma SeedLeftBehindExactly(m: Machine, conn: Key, name: string, displayLabel: string, seed: Seed, now: int)
    requires m.alive && OpenOn(m.world, conn)
    requires At(m.world, name).cached.None? && At(m.world, name).secret.None?
    ensures var (m', r) := CreateIdentity(m, conn, name, displayLabel, seed, now);
            r.Err? ==> (name in m'.world.keychain <==>
                          FateAt(m.plan, m.step).Works? && FateAt(m.plan, m.step + 1).Works?
                          && LeavesSeed(m.plan, m.step + 2))
  {
    CreateReachesStore(m, conn, name, displayLabel, seed, now);
    StoreBothLeavesSeed(Consulted(m), conn, seed, Description(name, seed, now, displayLabel));
  }

  /** From `step` on: the seed goes in, its description does not, and the seed is not taken back. */
  predicate LeavesSeedAlone(plan: seq<Fate>, step: nat)
  {
    LeavesSeed(plan, step) && !FateAt(plan, step + 1).Works?
  }

  /** What storing both halves leaves of the description, and of the seed when it fails. */
  lemma StoreBothLeaves(m: Machine, conn: Key, seed: Seed, md: IdentityMetadata)
    requires m.alive && OpenOn(m.world, conn)
    requires At(m.world, md.name).cached.None? && At(m.world, md.name).secret.None?
    ensures var (m', r) := StoreBoth(m, conn, seed, md);
            var p := At(m'.world, md.name);
            && OpenOn(m'.world, conn)
            && p.described ==
               (if AllWork(m.plan, m.step, 2) then Some(MetadataJson(md)) else At(m.world, md.name).described)
            && (r.Ok? ==> AllWork(m.plan, m.step, 2) && p.cached.Some? && p.secret == Some(Binary(seed)))
            && (r.Err? ==>
                  && p.cached.None?
                  && p.secret == if LeavesSeed(m.plan, m.step) then Some(Binary(seed)) else None)
  {
    StoreBothOutcome(m, conn, seed, md);
    StoreBothLeavesSeed(m, conn, seed, md);
  }

  // ── Whole runs over many names ───────────────────────────────────────

  datatype IdCall =
    | CreateId(name: string, displayLabel: string, seed: Seed, now: int)
    | LoadId(name: string)
    | DeleteId(name: string)

  datatype IdEvent = IdEvent(call: IdCall, plan: seq<Fate>)

  /** The machine after one call started from `w`. */
  function After(w: World, conn: Key, e: IdEvent): Machine
  {
    var m := Start(w, e.plan);
    match e.call
    case CreateId(name, displayLabel, seed, now) => CreateIdentity(m, conn, name, displayLabel, seed, now).0
    case LoadId(name) => LoadIdentity(m, conn, name).0
    case DeleteId(name) => DeleteIdentity(m, conn, name).0
  }

  /** The images a run goes through, a dead process being started again with the same key. */
  function RunImages(w: World, conn: Key, events: seq<IdEvent>): seq<World>
    decreases |events|
  {
    if events == [] then [w]
    else
      var m := After(w, conn, events[0]);
      [w] + m.trace + RunImages(m.world, conn, events[1..])
  }

  /** A cached public key never stands alone: the description is there and agrees,
      and so does the seed if the keychain has one. */
  predicate Consistent(p: Presence)
  {
    p.cached.Some? ==>
      && p.described.Some? && p.described.value.MetadataJson?
      && p.cached.value == PublicKeyBytes(p.described.value.metadata.publicKey)
      && (p.secret.Some? ==> CheckSeed(p.secret.value, p.described.value.metadata).Ok?)
  }

  /** What one call may do to what is known about `name`, at every image. */
  predicate Follows(before: World, conn: Key, call: IdCall, name: string, w: World)
  {
    && OpenOn(w, conn)
    && (call.name != name ==> At(w, name) == At(before, name))
    && (Consistent(At(before, name)) ==> Consistent(At(w, name)))
  }

  lemma StepFollows(m: Machine, before: World, conn: Key, call: IdCall, name: string, e: Effect)
    requires forall w | w in m.trace :: Follows(before, conn, call, name, w)
    requires Follows(before, conn, call, name, m.world)
    requires !Refuses(m.world, e) ==> Follows(before, conn, call, name, Apply(m.world, e))
    requires Residue(m.world, e) == m.world
    ensures forall w | w in Perform(m, e).0.trace :: Follows(before, conn, call, name, w)
    ensures Follows(before, conn, call, name, Perform(m, e).0.world)
  {
  }

  lemma PersistFollows(m: Machine, before: World, conn: Key, call: IdCall, name: string)
    requires call.CreateId? && m.alive && OpenOn(m.world, conn)
    requires call.name != name ==> At(m.world, name) == At(before, name)
    requires At(m.world, call.name).cached.None? && At(m.world, call.name).secret == Some(Binary(call.seed))
    requires forall w | w in m.trace :: Follows(before, conn, call, name, w)
    ensures var md := Description(call.name, call.seed, call.now, call.displayLabel);
            var m' := Persist(m, conn, md).0;
            && Follows(before, conn, call, name, m'.world)
            && forall w | w in m'.trace :: Follows(before, conn, call, name, w)
  {
    var md := Description(call.name, call.seed, call.now, call.displayLabel);
    SlotsAreInjective(call.name, name);
    SlotsAreInjective(name, call.name);
    SlotsAreInjective(call.name, call.name);
    var put1 := Put(conn, MetaSlot(md.name), MetadataJson(md));
    StepFollows(m, before, conn, call, name, put1);
    var (m1, s1) := Perform(m, put1);
    if s1.Done? {
      StepFollows(m1, before, conn, call, name, Put(conn, CacheSlot(md.name), PublicKeyBytes(md.publicKey)));
    }
  }

  lemma StoreBothFollows(m: Machine, before: World, conn: Key, call: IdCall, name: string)
    requires call.CreateId? && m.alive && m.world == before && OpenOn(before, conn)
    requires At(before, call.name).cached.None? && At(before, call.name).secret.None?
    requires forall w | w in m.trace :: Follows(before, conn, call, name, w)
    ensures var md := Description(call.name, call.seed, call.now, call.displayLabel);
            var m' := StoreBoth(m, conn, call.seed, md).0;
            && Follows(before, conn, call, name, m'.world)
            && forall w | w in m'.trace :: Follows(before, conn, call, name, w)
  {
    var md := Description(call.name, call.seed, call.now, call.displayLabel);
    var keep := KeychainSet(md.name, Binary(call.seed));
    SlotsAreInjective(call.name, name);
    SlotsAreInjective(name, call.name);
    StepFollows(m, before, conn, call, name, keep);
    var (m1, s1) := Perform(m, keep);
    if s1.Done? {
      PersistFollows(m1, before, conn, call, name);
      StepFollows(Persist(m1, conn, md).0, before, conn, call, name, KeychainDelete(md.name));
    }
  }

  lemma DeleteFollows(m: Machine, before: World, conn: Key, call: IdCall, name: string)
    requires call.DeleteId? && m.world == before && OpenOn(before, conn)
    requires forall w | w in m.trace :: Follows(before, conn, call, name, w)
    ensures var m' := DeleteIdentity(m, conn, call.name).0;
            && Follows(before, conn, call, name, m'.world)
            && forall w | w in m'.trace :: Follows(before, conn, call, name, w)
  {
    SlotsAreInjective(call.name, name);
    SlotsAreInjective(name, call.name);
    SlotsAreInjective(call.name, call.name);
    var del1 := Delete(conn, CacheSlot(call.name));
    StepFollows(m, before, conn, call, name, del1);
    var (m1, s1) := Perform(m, del1);
    if s1.Done? {
      var del2 := Delete(conn, MetaSlot(call.name));
      StepFollows(m1, before, conn, call, name, del2);
      StepFollows(Perform(m1, del2).0, before, conn, call, name, KeychainDelete(call.name));
    } else {
      StepFollows(m1, before, conn, call, name, KeychainDelete(call.name));
    }
  }

  /** One call, at every image: other names are untouched, and no cached key is ever
      left standing alone or beside a foreign seed. */
  lemma CallFollows(w: World, conn: Key, e: IdEvent, name: string)
    requires OpenOn(w, conn)
    ensures var m := After(w, conn, e);
            Follows(w, conn, e.call, name, m.world) && forall x | x in m.trace :: Follows(w, conn, e.call, name, x)
  {
    var m := Start(w, e.plan);
    match e.call
    case CreateId(n, displayLabel, seed, now) =>
      CreateReachesStore(m, conn, n, displayLabel, seed, now);
      if At(w, n).cached.None? && At(w, n).secret.None? {
        StoreBothFollows(Consulted(m), w, conn, e.call, name);
      }
    case LoadId(n) =>
      ReadStep(m, conn, Lookup(conn));
      var m1 := Perform(m, Lookup(conn)).0;
      if m1.alive {
        ReadStep(m1, conn, KeychainGet);
      }
    case DeleteId(n) => DeleteFollows(m, w, conn, e.call, name);
  }

  /** Any run of calls on any names keeps every name consistent, at every image. */
  lemma {:induction false} RunKeepsConsistent(w: World, conn: Key, events: seq<IdEvent>, name: string)
    requires OpenOn(w, conn) && Consistent(At(w, name))
    ensures forall x | x in RunImages(w, conn, events) :: OpenOn(x, conn) && Consistent(At(x, name))
    decreases |events|
  {
    if events != [] {
      CallFollows(w, conn, events[0], name);
      RunKeepsConsistent(After(w, conn, events[0]).world, conn, events[1..], name);
    }
  }

  /** A run that never mentions a name leaves everything known about it as it was. */
  lemma {:induction false} RunLeavesOthers(w: World, conn: Key, events: seq<IdEvent>, name: string)
    requires OpenOn(w, conn)
    requires forall e | e in events :: e.call.name != name
    ensures forall x | x in RunImages(w, conn, events) :: At(x, name) == At(w, name)
    decreases |events|
  {
    if events != [] {
      CallFollows(w, conn, events[0], name);
      assert events[0] in events;
      RunLeavesOthers(After(w, conn, events[0]).world, conn, events[1..], name);
    }
  }

  // ── delete, and what may remain ──────────────────────────────────────

  /** What becomes of the two vault entries. */
  lemma DeleteEntries(m: Machine, conn: Key, name: string)
    requires m.alive && OpenOn(m.world, conn)
    ensures var m' := DeleteIdentity(m, conn, name).0;
            var p, p' := At(m.world, name), At(m'.world, name);
            && p'.cached == (if FateAt(m.plan, m.step).Works? then None else p.cached)
            && p'.described == (if AllWork(m.plan, m.step, 2) then None else p.described)
  {
    AllWorkTwo(m.plan, m.step);
    SlotsAreInjective(name, name);
  }

  /** The keychain is reached whatever the vault said, unless the process has died: after one
      effect if the first one failed, after two otherwise. */
  predicate SeedErased(plan: seq<Fate>, step: nat)
  {
    match FateAt(plan, step)
    case Dies(_) => false
    case Fails(_) => FateAt(plan, step + 1).Works?
    case Works => !FateAt(plan, step + 1).Dies? && FateAt(plan, step + 2).Works?
  }

  /** `delete` under every plan: it succeeds exactly when all three effects work; the seed goes
      exactly when the keychain is reached and works, even after a failure of the vault;
      and the vault's error takes precedence over the keychain's. */
  lemma DeleteAnswersExactly(m: Machine, conn: Key, name: string)
    requires m.alive && OpenOn(m.world, conn)
    ensures var (m', r) := DeleteIdentity(m, conn, name);
            && OpenOn(m'.world, conn)
            && (r.Ok? <==> AllWork(m.plan, m.step, 3))
            && (r == Err(IdentityError.Vault) <==> !AllWork(m.plan, m.step, 2))
            && (r == Err(SecretStore) <==> AllWork(m.plan, m.step, 2) && !FateAt(m.plan, m.step + 2).Works?)
            && At(m'.world, name).secret == if SeedErased(m.plan, m.step) then None else At(m.world, name).secret
  {
    AllWorkTwo(m.plan, m.step);
    AllWorkThree(m.plan, m.step);
  }

  /** A delete that succeeds leaves nothing, so the name can be created again; one that
      does not has still removed the seed exactly if it got to the keychain. */
  lemma DeleteOutcome(m: Machine, conn: Key, name: string, displayLabel: string, seed: Seed, now: int)
    requires m.alive && OpenOn(m.world, conn)
    ensures var (m', r) := DeleteIdentity(m, conn, name);
            && OpenOn(m'.world, conn)
            && (r.Ok? ==>
                  && At(m'.world, name) == Presence(None, None, None)
                  && LoadIdentity(Healthy(m'.world), conn, name).1 == Err(IdentityError.NotFound)
                  && CreateIdentity(Healthy(m'.world), conn, name, displayLabel, seed, now).1.Ok?)
            && (r.Err? ==>
                  (At(m'.world, name).secret.None? <==> At(m.world, name).secret.None? || SeedErased(m.plan, m.step)))
  {
    var (m', r) := DeleteIdentity(m, conn, name);
    AllWorkTwo(m.plan, m.step);
    AllWorkThree(m.plan, m.step);
    DeleteEntries(m, conn, name);
    DeleteAnswersExactly(m, conn, name);
    LoadSucceedsExactly(Healthy(m'.world), conn, name);
    CreateSucceedsExactly(Healthy(m'.world), conn, name, displayLabel, seed, now);
  }

  // ── Two ways the promises fall short ─────────────────────────────────

  /** The last of the two vault writes of `create` fails; everything else works. */
  predicate LosesCache(plan: seq<Fate>)
  {
    && (forall i: nat | i < 4 :: FateAt(plan, i).Works?)
    && FateAt(plan, 4).Fails? && FateAt(plan, 5).Works?
  }

  /** The first of them fails, and then the rollback. */
  predicate LosesDescription(plan: seq<Fate>)
  {
    && (forall i: nat | i < 3 :: FateAt(plan, i).Works?)
    && FateAt(plan, 3).Fails? && FateAt(plan, 4).Fails?
  }

  lemma StoreBothLosing(m: Machine, conn: Key, seed: Seed, md: IdentityMetadata)
    requires m.alive && m.step == 2 && OpenOn(m.world, conn)
    requires At(m.world, md.name).cached.None? && At(m.world, md.name).secret.None?
    ensures var (m', r) := StoreBoth(m, conn, seed, md);
            && (LosesCache(m.plan) ==>
                  && r == Err(IdentityError.Vault) && OpenOn(m'.world, conn)
                  && At(m'.world, md.name) == Presence(Some(MetadataJson(md)), None, None))
            && (LosesDescription(m.plan) ==>
                  && r == Err(IdentityError.Vault) && OpenOn(m'.world, conn)
                  && At(m'.world, md.name) == At(m.world, md.name).(secret := Some(Binary(seed))))
  {
    SlotsAreInjective(md.name, md.name);
  }

  /** The listing shows this very description under its name. */
  predicate Listed(keys: seq<string>, out: seq<IdentityMetadata>, md: IdentityMetadata)
    requires |keys| == |out|
  {
    exists j | 0 <= j < |keys| :: keys[j] == MetaSlot(md.name).1 && out[j] == md
  }

  lemma ListedExactly(w: World, md: IdentityMetadata, keys: seq<string>, out: seq<IdentityMetadata>)
    requires w.db.SealedDb? && Listing(w.db.entries, keys, out)
    ensures Listed(keys, out, md) <==> At(w, md.name).described == Some(MetadataJson(md))
  {
    var key := MetaSlot(md.name).1;
    assert Text.StripSuffix(key, METADATA).Some?;
    assert key in keys <==> (NAMESPACE, key) in w.db.entries;
  }

  /** On a free name `create` comes down to storing both halves once its two reads worked. */
  lemma FreeReachesStore(m: Machine, conn: Key, name: string, displayLabel: string, seed: Seed, now: int)
    requires m.alive && OpenOn(m.world, conn) && At(m.world, name).cached.None? && At(m.world, name).secret.None?
    ensures var create := CreateIdentity(m, conn, name, displayLabel, seed, now);
            if AllWork(m.plan, m.step, 2) then
              create == StoreBoth(Consulted(m), conn, seed, Description(name, seed, now, displayLabel))
            else create.0.world == m.world && create.1.Err?
  {
    AllWorkTwo(m.plan, m.step);
    CreateReachesStore(m, conn, name, displayLabel, seed, now);
  }

  /** The description and the seed a `create` leaves on a free name, whatever its outcome. */
  lemma CreateLeaves(m: Machine, conn: Key, name: string, displayLabel: string, seed: Seed, now: int)
    requires m.alive && OpenOn(m.world, conn) && At(m.world, name).cached.None? && At(m.world, name).secret.None?
    ensures var (m', r) := CreateIdentity(m, conn, name, displayLabel, seed, now);
            var p, md := At(m'.world, name), Description(name, seed, now, displayLabel);
            && OpenOn(m'.world, conn)
            && p.described ==
               (if AllWork(m.plan, m.step, 4) then Some(MetadataJson(md)) else At(m.world, name).described)
            && (r.Ok? ==> AllWork(m.plan, m.step, 4) && p.secret == Some(Binary(seed)))
            && (r.Err? ==>
                  && p.cached.None?
                  && p.secret ==
                  if AllWork(m.plan, m.step, 2) && LeavesSeed(m.plan, m.step + 2) then Some(Binary(seed)) else None)
  {
    FreeReachesStore(m, conn, name, displayLabel, seed, now);
    AllWorkSplits(m.plan, m.step, 2, 2);
    StoreBothLeaves(Consulted(m), conn, seed, Description(name, seed, now, displayLabel));
  }

  /** A failed `create` promises to be undone. On a free name its description stays, and
      the listing shows it, exactly when the first four effects work; and what is listed
      can be loaded exactly when the seed stayed as well. */
  lemma FailedCreateStaysListed(m: Machine, conn: Key, name: string, displayLabel: string, seed: Seed, now: int,
                                keys: seq<string>, out: seq<IdentityMetadata>)
    requires m.alive && OpenOn(m.world, conn) && At(m.world, name).cached.None? && At(m.world, name).secret.None?
    requires At(m.world, name).described != Some(MetadataJson(Description(name, seed, now, displayLabel)))
    requires var w := CreateIdentity(m, conn, name, displayLabel, seed, now).0.world;
             w.db.SealedDb? && Listing(w.db.entries, keys, out)
    ensures var (m', r) := CreateIdentity(m, conn, name, displayLabel, seed, now);
            r.Err? ==>
              && (Listed(keys, out, Description(name, seed, now, displayLabel)) <==> AllWork(m.plan, m.step, 4))
              && (AllWork(m.plan, m.step, 4) ==>
                    (LoadIdentity(Healthy(m'.world), conn, name).1.Ok? <==> LeavesSeed(m.plan, m.step + 2)))
  {
    var m' := CreateIdentity(m, conn, name, displayLabel, seed, now).0;
    CreateLeaves(m, conn, name, displayLabel, seed, now);
    ListedExactly(m'.world, Description(name, seed, now, displayLabel), keys, out);
    LoadSucceedsExactly(Healthy(m'.world), conn, name);
  }

  /** One family of such plans: the second of the two vault writes is the one that fails. */
  lemma LosingCache(w: World, conn: Key, name: string, displayLabel: string, seed: Seed, now: int, plan: seq<Fate>)
    requires OpenOn(w, conn) && At(w, name).cached.None? && At(w, name).secret.None?
    requires LosesCache(plan)
    ensures var (m', r) := CreateIdentity(Start(w, plan), conn, name, displayLabel, seed, now);
            && r == Err(IdentityError.Vault) && OpenOn(m'.world, conn)
            && At(m'.world, name) ==
               Presence(Some(MetadataJson(Description(name, seed, now, displayLabel))), None, None)
  {
    CreateReachesStore(Start(w, plan), conn, name, displayLabel, seed, now);
    StoreBothLosing(Consulted(Start(w, plan)), conn, seed, Description(name, seed, now, displayLabel));
  }

  /** `load` answers `KeyMismatch` only for a name whose cached key is missing: on a name
      whose creation was completed, the two stores always agree. */
  lemma MismatchMeansIncomplete(w: World, conn: Key, events: seq<IdEvent>, name: string, x: World)
    requires OpenOn(w, conn) && Consistent(At(w, name)) && x in RunImages(w, conn, events)
    ensures LoadIdentity(Healthy(x), conn, name).1 == Err(KeyMismatch) ==> At(x, name).cached.None?
  {
    RunKeepsConsistent(w, conn, events, name);
    LoadSucceedsExactly(Healthy(x), conn, name);
  }

  /** A description and a seed that do not belong together. */
  predicate Mismatched(p: Presence)
  {
    && p.described.Some? && p.described.value.MetadataJson? && p.secret.Some?
    && CheckSeed(p.secret.value, p.described.value.metadata) == Err(KeyMismatch)
  }

  /** The call is a `create` that finds the description of another key, gets its own seed
      into the keychain, and then neither replaces the description nor takes the seed back. */
  predicate LeavesMismatch(p: Presence, e: IdEvent, name: string)
  {
    && e.call.CreateId? && e.call.name == name
    && p.cached.None? && p.secret.None?
    && p.described.Some? && p.described.value.MetadataJson?
    && p.described.value.metadata.publicKey != PublicKeyOf(e.call.seed)
    && AllWork(e.plan, 0, 2) && LeavesSeedAlone(e.plan, 2)
  }

  lemma FreeNameMismatch(m: Machine, conn: Key, name: string, displayLabel: string, seed: Seed, now: int)
    requires m.alive && OpenOn(m.world, conn) && At(m.world, name).cached.None? && At(m.world, name).secret.None?
    ensures var p, p' := At(m.world, name), At(CreateIdentity(m, conn, name, displayLabel, seed, now).0.world, name);
            Mismatched(p') <==>
              && p.described.Some? && p.described.value.MetadataJson?
              && p.described.value.metadata.publicKey != PublicKeyOf(seed)
              && AllWork(m.plan, m.step, 2) && LeavesSeedAlone(m.plan, m.step + 2)
  {
    CreateLeaves(m, conn, name, displayLabel, seed, now);
    AllWorkSplits(m.plan, m.step, 2, 2);
    AllWorkTwo(m.plan, m.step + 2);
  }

  lemma CreateLeavesMismatch(w: World, conn: Key, e: IdEvent)
    requires OpenOn(w, conn) && e.call.CreateId? && !Mismatched(At(w, e.call.name))
    ensures Mismatched(At(After(w, conn, e).world, e.call.name)) <==> LeavesMismatch(At(w, e.call.name), e, e.call.name)
  {
    var CreateId(name, displayLabel, seed, now) := e.call;
    if At(w, name).cached.Some? || At(w, name).secret.Some? {
      CreateReachesStore(Start(w, e.plan), conn, name, displayLabel, seed, now);
    } else {
      FreeNameMismatch(Start(w, e.plan), conn, name, displayLabel, seed, now);
    }
  }

  /** So without any substitution a mismatch arises exactly from such a call. */
  lemma MismatchArisesExactly(w: World, conn: Key, e: IdEvent, name: string)
    requires OpenOn(w, conn) && !Mismatched(At(w, name))
    ensures Mismatched(At(After(w, conn, e).world, name)) <==> LeavesMismatch(At(w, name), e, name)
  {
    if e.call.name != name {
      CallFollows(w, conn, e, name);
    } else if e.call.CreateId? {
      CreateLeavesMismatch(w, conn, e);
    } else if e.call.LoadId? {
      ReadStep(Start(w, e.plan), conn, Lookup(conn));
    } else {
      DeleteEntries(Start(w, e.plan), conn, name);
      DeleteAnswersExactly(Start(w, e.plan), conn, name);
    }
  }

  /** But it does happen without any substitution: a first `create` leaves its
      description, a second one leaves its seed, and from then on the name can
      neither be loaded nor created. */
  lemma MismatchWithoutSubstitution(w: World, conn: Key, name: string, seed: Seed, seed': Seed,
                                    plan: seq<Fate>, plan': seq<Fate>)
    requires OpenOn(w, conn) && At(w, name) == Presence(None, None, None) && seed != seed'
    requires LosesCache(plan) && LosesDescription(plan')
    ensures var w1 := CreateIdentity(Start(w, plan), conn, name, name, seed, 0).0.world;
            var w2 := CreateIdentity(Start(w1, plan'), conn, name, name, seed', 1).0.world;
            && LoadIdentity(Healthy(w2), conn, name).1 == Err(KeyMismatch)
            && CreateIdentity(Healthy(w2), conn, name, name, seed, 2).1.Err?
  {
    LosingCache(w, conn, name, name, seed, 0, plan);
    var w1 := CreateIdentity(Start(w, plan), conn, name, name, seed, 0).0.world;
    CreateReachesStore(Start(w1, plan'), conn, name, name, seed', 1);
    StoreBothLosing(Consulted(Start(w1, plan')), conn, seed', Description(name, seed', 1, name));
    var w2 := CreateIdentity(Start(w1, plan'), conn, name, name, seed', 1).0.world;
    LoadSucceedsExactly(Healthy(w2), conn, name);
    CreateSucceedsExactly(Healthy(w2), conn, name, name, seed, 2);
  }
}
