/** What starting the node again and again keeps, several instances sharing one keychain. */
module BootRuns {
  import opened Wrappers
  import opened Hex
  import opened Host
  import opened VaultCore
  import opened VaultRuns
  import opened IdentityCore
  import opened IdentityRuns
  import opened Boot

  /** Both halves of the identity are there and agree. */
  predicate Whole(w: World, name: string, id: Loaded)
  {
    && At(w, name).described == Some(MetadataJson(id.metadata))
    && At(w, name).secret == Some(Binary(id.seed))
    && id.metadata.publicKey == PublicKeyOf(id.seed)
  }

  /** The instance named `name` has started once: its passphrase is in the keychain and
      opens its vault, and its identity is whole. */
  predicate Anchored(w: World, name: string, id: Loaded)
  {
    && Contents(w).Holds?
    && HeldSecret(w, PASSPHRASE_ACCOUNT) == Some(Utf8(Contents(w).pass))
    && Whole(w, name, id)
  }

  // ── The three stages of a start ──────────────────────────────────────

  lemma PassphraseStep(m: Machine, random: Salt)
    requires m.alive
    ensures var (m', r) := EnsurePassphrase(m, random);
            && m'.plan == m.plan
            && (r.Ok? ==> m'.alive && HeldSecret(m'.world, PASSPHRASE_ACCOUNT) == Some(Utf8(r.value)))
            && (m'.world == m.world || (HeldSecret(m.world, PASSPHRASE_ACCOUNT).None?
                  && m'.world == m.world.(keychain := m.world.keychain[PASSPHRASE_ACCOUNT := Utf8(Encode(random))])))
  {
  }

  lemma CreateStep(m: Machine, pass: string, salt: Salt)
    requires m.alive && m.world.db.NoDb?
    ensures var (m', r) := CreateVault(m, pass, salt);
            && m'.plan == m.plan && m'.world.keychain == m.world.keychain
            && (r.Ok? ==> m'.alive && OpenOn(m'.world, r.value) && Contents(m'.world) == Holds(pass, map[]))
  {
    if m.world.sidecar.NoSidecar? && |pass| >= MIN_PASSPHRASE_LEN {
      DefaultHeaderDerives(pass, salt);
      OpenAndInitImages(m, DeriveKey(pass, NewDefault(salt)).value);
      var (m1, session) := OpenAndInit(m, DeriveKey(pass, NewDefault(salt)).value);
      if session.Ok? {
        WriteSidecarOutcome(m1, NewDefault(salt));
      }
    }
  }

  lemma OpenStep(m: Machine, pass: string)
    requires m.alive
    ensures var (m', r) := OpenVault(m, pass);
            && m'.plan == m.plan && m'.world.keychain == m.world.keychain
            && (r.Ok? ==>
                  && m'.alive && OpenOn(m'.world, r.value)
                  && Contents(m'.world) == Holds(pass, m'.world.db.entries))
            && (Contents(m.world).Holds? ==> m'.world == m.world)
  {
  }

  lemma VaultStep(m: Machine, pass: string, salt: Salt)
    requires m.alive
    ensures var (m', r) := EnsureVault(m, pass, salt);
            && m'.plan == m.plan && m'.world.keychain == m.world.keychain
            && (r.Ok? ==>
                  && m'.alive && OpenOn(m'.world, r.value)
                  && Contents(m'.world) == Holds(pass, m'.world.db.entries))
            && (Contents(m.world).Holds? ==> m'.world == m.world)
  {
    if m.world.db.NoDb? {
      CreateStep(m, pass, salt);
    } else {
      OpenStep(m, pass);
    }
  }

  lemma LoadStep(m: Machine, conn: Key, name: string)
    requires m.alive && OpenOn(m.world, conn)
    ensures var (m', r) := LoadIdentity(m, conn, name);
            && m'.world == m.world
            && (r.Ok? ==> Whole(m.world, name, r.value))
            && (r == Err(IdentityError.NotFound) ==>
                  m'.alive && (At(m.world, name).described.None? || At(m.world, name).secret.None?))
  {
    ReadStep(m, conn, Lookup(conn));
    var (m1, _) := GetEntry(m, conn, MetaSlot(name));
    if m1.alive {
      ReadStep(m1, conn, KeychainGet);
    }
  }

  lemma StoreBothFrame(m: Machine, conn: Key, seed: Seed, md: IdentityMetadata, account: string)
    requires m.alive && OpenOn(m.world, conn)
    ensures var m' := StoreBoth(m, conn, seed, md).0;
            && m'.world.sidecar == m.world.sidecar
            && (account != md.name ==> HeldSecret(m'.world, account) == HeldSecret(m.world, account))
  {
    var (m1, s1) := Perform(m, KeychainSet(md.name, Binary(seed)));
    if s1.Done? {
      PersistOutcome(m1, conn, md);
    }
  }

  lemma CreateIdStep(m: Machine, conn: Key, name: string, seed: Seed, now: int, account: string)
    requires m.alive && OpenOn(m.world, conn)
    ensures var (m', r) := CreateIdentity(m, conn, name, COMPANION_LABEL, seed, now);
            && OpenOn(m'.world, conn) && m'.world.sidecar == m.world.sidecar
            && (account != name ==> HeldSecret(m'.world, account) == HeldSecret(m.world, account))
            && (r.Ok? ==> Whole(m'.world, name, r.value))
  {
    var md := Description(name, seed, now, COMPANION_LABEL);
    CreateReachesStore(m, conn, name, COMPANION_LABEL, seed, now);
    if At(m.world, name).cached.None? && At(m.world, name).secret.None? {
      StoreBothOutcome(Consulted(m), conn, seed, md);
      StoreBothFrame(Consulted(m), conn, seed, md, account);
      CreateThenLoad(m, conn, name, COMPANION_LABEL, seed, now);
    }
  }

  lemma IdentityStep(m: Machine, conn: Key, name: string, seed: Seed, now: int, account: string)
    requires m.alive && OpenOn(m.world, conn)
    ensures var (m', r) := EnsureIdentity(m, conn, name, seed, now);
            && OpenOn(m'.world, conn) && m'.world.sidecar == m.world.sidecar
            && (account != name ==> HeldSecret(m'.world, account) == HeldSecret(m.world, account))
            && (At(m.world, name).described.Some? && At(m.world, name).secret.Some? ==> m'.world == m.world)
            && (r.Ok? ==> Whole(m'.world, name, r.value))
  {
    LoadStep(m, conn, name);
    var (m1, r) := LoadIdentity(m, conn, name);
    if r == Err(IdentityError.NotFound) {
      CreateIdStep(m1, conn, name, seed, now, account);
    }
  }

  // ── One start ────────────────────────────────────────────────────────

  /** Once a start succeeded, its instance is anchored to the identity it returned. */
  lemma SuccessAnchors(w: World, name: string, plan: seq<Fate>, d: Draws)
    requires name != PASSPHRASE_ACCOUNT
    ensures var (m', r) := Init(Start(w, plan), name, d);
            r.Ok? ==> Anchored(m'.world, name, r.value.identity) && OpenOn(m'.world, r.value.conn)
  {
    var m := Start(w, plan);
    PassphraseStep(m, d.passphrase);
    var (m1, pass) := EnsurePassphrase(m, d.passphrase);
    if pass.Ok? {
      VaultStep(m1, pass.value, d.salt);
      var (m2, vault) := EnsureVault(m1, pass.value, d.salt);
      if vault.Ok? {
        IdentityStep(m2, vault.value, name, d.seed, d.now, PASSPHRASE_ACCOUNT);
      }
    }
  }

  /** From then on no start changes anything, whatever fails in it; and one that
      succeeds returns that same identity and a connection that opens the vault. */
  lemma LaterStartsChangeNothing(w: World, name: string, id: Loaded, plan: seq<Fate>, d: Draws)
    requires name != PASSPHRASE_ACCOUNT && Anchored(w, name, id)
    ensures var (m', r) := Init(Start(w, plan), name, d);
            m'.world == w && (r.Ok? ==> r.value == Stack(w.db.key, id))
  {
    SuccessAnchors(w, name, plan, d);
    var m := Start(w, plan);
    PassphraseStep(m, d.passphrase);
    var (m1, pass) := EnsurePassphrase(m, d.passphrase);
    if pass.Ok? {
      VaultStep(m1, pass.value, d.salt);
      var (m2, vault) := EnsureVault(m1, pass.value, d.salt);
      if vault.Ok? {
        IdentityStep(m2, vault.value, name, d.seed, d.now, PASSPHRASE_ACCOUNT);
      }
    }
  }

  /** What any start may touch in the shared keychain: its own name, and the boot
      passphrase only when there was none. */
  lemma StartFrame(w: World, name: string, plan: seq<Fate>, d: Draws, account: string)
    requires account != name
    requires account == PASSPHRASE_ACCOUNT ==> HeldSecret(w, account).Some?
    ensures HeldSecret(Init(Start(w, plan), name, d).0.world, account) == HeldSecret(w, account)
  {
    var m := Start(w, plan);
    PassphraseStep(m, d.passphrase);
    var (m1, pass) := EnsurePassphrase(m, d.passphrase);
    if pass.Ok? {
      VaultStep(m1, pass.value, d.salt);
      var (m2, vault) := EnsureVault(m1, pass.value, d.salt);
      if vault.Ok? {
        IdentityStep(m2, vault.value, name, d.seed, d.now, account);
      }
    }
  }

  // ── Several instances, any number of starts ──────────────────────────

  datatype Disk = Disk(db: DbFile, sidecar: SidecarFile, tmp: SidecarFile)

  /** One security directory per instance, one keychain for all of them. */
  datatype System = System(disks: map<string, Disk>, keychain: map<string, Secret>)

  /** Starts of an instance, and what the rest of the program does in its vault in
      between: only identity code touches the identity namespace. */
  datatype SysEvent =
    | StartNode(dir: string, plan: seq<Fate>, draws: Draws)
    | Store(dir: string, slot: Slot, value: Value)
    | Erase(dir: string, slot: Slot)

  predicate OutsideIdentity(e: SysEvent) { e.StartNode? || e.slot.0 != NAMESPACE }

  function View(sys: System, dir: string): World
  {
    var disk := if dir in sys.disks then sys.disks[dir] else Disk(NoDb, NoSidecar, NoSidecar);
    World(disk.db, disk.sidecar, disk.tmp, sys.keychain)
  }

  function Update(sys: System, dir: string, w: World): System
  {
    System(sys.disks[dir := Disk(w.db, w.sidecar, w.tmp)], w.keychain)
  }

  function Edit(w: World, e: SysEvent): World
    requires !e.StartNode?
  {
    if !w.db.SealedDb? then w
    else
      match e
      case Store(_, slot, v) => Apply(w, Host.Put(w.db.key, slot, v))
      case Erase(_, slot) => Apply(w, Host.Delete(w.db.key, slot))
  }

  function SysStep(sys: System, e: SysEvent, nameOf: string -> string): (System, Option<Result<Stack, BootError>>)
  {
    match e
    case StartNode(dir, plan, d) =>
      var (m, r) := Init(Start(View(sys, dir), plan), nameOf(dir), d);
      (Update(sys, dir, m.world), if m.alive then Some(r) else None)
    case _ => (Update(sys, e.dir, Edit(View(sys, e.dir), e)), None)
  }

  function SysRun(sys: System, events: seq<SysEvent>, nameOf: string -> string)
    : (System, seq<Option<Result<Stack, BootError>>>)
    decreases |events|
  {
    if events == [] then (sys, [])
    else
      var (sys1, reply) := SysStep(sys, events[0], nameOf);
      var (sys', replies) := SysRun(sys1, events[1..], nameOf);
      (sys', [reply] + replies)
  }

  /** The entries `dir` must hold after the edits made to it, starts counting for nothing. */
  function Edited(entries: Entries, events: seq<SysEvent>, dir: string): Entries
    decreases |events|
  {
    if events == [] then entries
    else
      var e := events[0];
      var next := if e.dir != dir then entries
                  else match e
                       case StartNode(_, _, _) => entries
                       case Store(_, slot, v) => entries[slot := v]
                       case Erase(_, slot) => entries - {slot};
      Edited(next, events[1..], dir)
  }

  /** The directories in use have distinct names (no fingerprint collision among them),
      none of them the passphrase account. */
  predicate DistinctNames(nameOf: string -> string, dirs: set<string>)
  {
    && (forall d, d' | d in dirs && d' in dirs :: nameOf(d) == nameOf(d') ==> d == d')
    && (forall d | d in dirs :: nameOf(d) != PASSPHRASE_ACCOUNT)
  }

  lemma EditKeepsInstance(sys: System, e: SysEvent, nameOf: string -> string, dir: string, id: Loaded)
    requires !e.StartNode? && OutsideIdentity(e)
    requires Anchored(View(sys, dir), nameOf(dir), id)
    ensures var sys' := SysStep(sys, e, nameOf).0;
            && Anchored(View(sys', dir), nameOf(dir), id)
            && View(sys', dir).db.entries == Edited(View(sys, dir).db.entries, [e], dir)
  {
    assert [e][1..] == [];
  }

  lemma ForeignStartKeepsInstance(sys: System, e: SysEvent, nameOf: string -> string, dir: string, id: Loaded)
    requires e.StartNode? && e.dir != dir && nameOf(e.dir) != nameOf(dir) && nameOf(e.dir) != PASSPHRASE_ACCOUNT
    requires nameOf(dir) != PASSPHRASE_ACCOUNT
    requires Anchored(View(sys, dir), nameOf(dir), id)
    ensures var sys' := SysStep(sys, e, nameOf).0;
            Anchored(View(sys', dir), nameOf(dir), id) && View(sys', dir).db == View(sys, dir).db
  {
    StartFrame(View(sys, e.dir), nameOf(e.dir), e.plan, e.draws, nameOf(dir));
    StartFrame(View(sys, e.dir), nameOf(e.dir), e.plan, e.draws, PASSPHRASE_ACCOUNT);
  }

  lemma StepKeepsInstance(sys: System, e: SysEvent, nameOf: string -> string,
                          dirs: set<string>, dir: string, id: Loaded)
    requires DistinctNames(nameOf, dirs) && dir in dirs && e.dir in dirs && OutsideIdentity(e)
    requires Anchored(View(sys, dir), nameOf(dir), id)
    ensures var (sys', reply) := SysStep(sys, e, nameOf);
            && Anchored(View(sys', dir), nameOf(dir), id)
            && View(sys', dir).db.entries == Edited(View(sys, dir).db.entries, [e], dir)
            && (e.StartNode? && e.dir == dir && reply.Some? && reply.value.Ok? ==> reply.value.value.identity == id)
  {
    assert [e][1..] == [];
    if !e.StartNode? {
      EditKeepsInstance(sys, e, nameOf, dir, id);
    } else if e.dir == dir {
      LaterStartsChangeNothing(View(sys, dir), nameOf(dir), id, e.plan, e.draws);
    } else {
      ForeignStartKeepsInstance(sys, e, nameOf, dir, id);
    }
  }

  /** Once an instance has started successfully, then after any number of starts of any
      instances, failed or crashed anywhere, with any other use of the vaults in
      between: its identity is unchanged, its vault holds exactly what was written to
      it, and every one of its successful starts returned that identity. */
  lemma {:induction false} StartsAreIdempotent(sys: System, events: seq<SysEvent>, nameOf: string -> string,
                                               dirs: set<string>, dir: string, id: Loaded)
    requires DistinctNames(nameOf, dirs) && dir in dirs
    requires forall e | e in events :: e.dir in dirs && OutsideIdentity(e)
    requires Anchored(View(sys, dir), nameOf(dir), id)
    ensures var (sys', replies) := SysRun(sys, events, nameOf);
            && Anchored(View(sys', dir), nameOf(dir), id)
            && View(sys', dir).db.entries == Edited(View(sys, dir).db.entries, events, dir)
            && |replies| == |events|
            && (forall i | 0 <= i < |events| && events[i].StartNode? && events[i].dir == dir
                           && replies[i].Some? && replies[i].value.Ok? :: replies[i].value.value.identity == id)
    decreases |events|
  {
    if events != [] {
      assert events[0] in events;
      StepKeepsInstance(sys, events[0], nameOf, dirs, dir, id);
      assert [events[0]][1..] == [];
      StartsAreIdempotent(SysStep(sys, events[0], nameOf).0, events[1..], nameOf, dirs, dir, id);
    }
  }
}
