/** When a start succeeds, when no later start ever will, and which interruptions make the difference. */
module BootBlocks {
  import opened Wrappers
  import opened Hex
  import opened Host
  import opened VaultCore
  import opened VaultRuns
  import opened IdentityCore
  import opened IdentityRuns
  import opened Boot
  import opened BootRuns

  // ── When a start succeeds ────────────────────────────────────────────

  /** The passphrase a start would use. */
  function PassphraseFor(w: World, d: Draws): Option<string>
  {
    match HeldSecret(w, PASSPHRASE_ACCOUNT)
    case None => Some(Encode(d.passphrase))
    case Some(Utf8(text)) => Some(text)
    case Some(Binary(_)) => None
  }

  /** What the identity stage needs to find: both halves in agreement, or a name free to be created. */
  predicate IdentityReady(p: Presence)
  {
    match (p.described, p.secret)
    case (Some(MetadataJson(md)), Some(secret)) => CheckSeed(secret, md).Ok?
    case (Some(MetadataJson(md)), None) => !md.publicKey.Malformed? && p.cached.None?
    case (None, None) => p.cached.None?
    case _ => false
  }

  /** What the vault stage needs to find. */
  predicate VaultReady(w: World, pass: string)
  {
    match Contents(w)
    case NoVault => w.db.NoDb? && |pass| >= MIN_PASSPHRASE_LEN
    case Holds(p, _) => pass == p
    case Unclaimed => DeriveKey(pass, w.sidecar.header).Ok?
    case Lost => false
  }

  /** What a start needs to find once it has its passphrase. */
  predicate Ready(w: World, name: string, pass: string)
  {
    && VaultReady(w, pass)
    && if Contents(w).Holds? then IdentityReady(At(w, name)) else At(w, name).secret.None?
  }

  /** What an undisturbed start needs to find. */
  predicate Bootable(w: World, name: string, d: Draws)
  {
    PassphraseFor(w, d).Some? && Ready(w, name, PassphraseFor(w, d).value)
  }

  /** Opening does not depend on how far the machine has got in an empty plan. */
  lemma OpenFromHere(m: Machine, pass: string)
    requires Undisturbed(m)
    ensures var (m', r) := OpenVault(m, pass);
            && Undisturbed(m') && m'.world == OpenVault(Healthy(m.world), pass).0.world
            && r == OpenVault(Healthy(m.world), pass).1
            && (r.Ok? ==> OpenOn(m'.world, r.value) && m'.world.keychain == m.world.keychain)
  {
  }

  lemma HealthyVault(m: Machine, pass: string, salt: Salt)
    requires Undisturbed(m)
    ensures var (m', r) := EnsureVault(m, pass, salt);
            && (r.Ok? <==> VaultReady(m.world, pass))
            && (r.Ok? ==> Undisturbed(m') && OpenOn(m'.world, r.value) && m'.world.keychain == m.world.keychain
                          && m'.world.db.entries == if Contents(m.world).Holds? then m.world.db.entries else map[])
  {
    if m.world.db.NoDb? {
      if m.world.sidecar.NoSidecar? && |pass| >= MIN_PASSPHRASE_LEN {
        DefaultHeaderDerives(pass, salt);
        CreateOutcome(m, pass, salt);
      }
    } else {
      OpensExactly(m.world, pass);
      OpenFromHere(m, pass);
    }
  }

  lemma HealthyIdentity(m: Machine, conn: Key, name: string, seed: Seed, now: int)
    requires Undisturbed(m) && OpenOn(m.world, conn)
    ensures EnsureIdentity(m, conn, name, seed, now).1.Ok? <==> IdentityReady(At(m.world, name))
  {
    LoadSucceedsExactly(m, conn, name);
    CreateSucceedsExactly(LoadIdentity(m, conn, name).0, conn, name, COMPANION_LABEL, seed, now);
  }

  /** Whatever is on the machine, an undisturbed start succeeds exactly then. */
  lemma StartSucceedsExactly(w: World, name: string, d: Draws)
    requires name != PASSPHRASE_ACCOUNT
    ensures Init(Healthy(w), name, d).1.Ok? <==> Bootable(w, name, d)
  {
    PassphraseStep(Healthy(w), d.passphrase);
    var (m1, pass) := EnsurePassphrase(Healthy(w), d.passphrase);
    if pass.Ok? {
      HealthyVault(m1, pass.value, d.salt);
      var (m2, vault) := EnsureVault(m1, pass.value, d.salt);
      if vault.Ok? {
        HealthyIdentity(m2, vault.value, name, d.seed, d.now);
      }
    }
  }

  // ── When no start ever succeeds ──────────────────────────────────────

  /** No draws would let a start succeed. */
  ghost predicate Blocked(w: World, name: string)
  {
    forall d :: !Bootable(w, name, d)
  }

  /** Once a passphrase is held, the draws do not matter. */
  lemma HeldDecides(w: World, name: string, pass: string, d: Draws)
    requires HeldSecret(w, PASSPHRASE_ACCOUNT) == Some(Utf8(pass))
    ensures Bootable(w, name, d) <==> Ready(w, name, pass)
    ensures Blocked(w, name) <==> !Ready(w, name, pass)
  {
    assert Blocked(w, name) ==> !Bootable(w, name, d);
  }

  /** How many effects the passphrase stage takes. */
  function PassphraseEffects(w: World): nat
  {
    if HeldSecret(w, PASSPHRASE_ACCOUNT).None? then 2 else 1
  }

  lemma PassphraseFates(w: World, plan: seq<Fate>, d: Draws)
    requires PassphraseFor(w, d).Some?
    ensures var (m, r) := EnsurePassphrase(Start(w, plan), d.passphrase);
            && (r.Ok? <==> AllWork(plan, 0, PassphraseEffects(w)))
            && (r.Ok? ==>
                  && m.alive && m.plan == plan && m.step == PassphraseEffects(w)
                  && r == Ok(PassphraseFor(w, d).value))
            && (r.Err? ==> m.world == w)
  {
    AllWorkSplits(plan, 0, 1, 1);
    assert AllWork(plan, 0, 1) <==> FateAt(plan, 0).Works?;
  }

  /** What follows the passphrase stage. */
  function FromVault(m: Machine, pass: string, name: string, d: Draws): Machine
  {
    var (m1, vault) := EnsureVault(m, pass, d.salt);
    if vault.Err? then m1 else EnsureIdentity(m1, vault.value, name, d.seed, d.now).0
  }

  lemma InitIsStaged(w: World, name: string, plan: seq<Fate>, d: Draws)
    ensures var (m, pass) := EnsurePassphrase(Start(w, plan), d.passphrase);
            Init(Start(w, plan), name, d).0 == if pass.Err? then m else FromVault(m, pass.value, name, d)
  {
  }

  /** The passphrase stage leaves the rest of the instance alone. */
  lemma PassphraseFrame(w: World, plan: seq<Fate>, d: Draws, name: string)
    requires name != PASSPHRASE_ACCOUNT
    ensures var (m, r) := EnsurePassphrase(Start(w, plan), d.passphrase);
            && m.world.db == w.db && m.world.sidecar == w.sidecar && At(m.world, name) == At(w, name)
            && (r.Ok? ==> HeldSecret(m.world, PASSPHRASE_ACCOUNT) == Some(Utf8(r.value)))
  {
    PassphraseStep(Start(w, plan), d.passphrase);
  }

  /** The vault stage of a first start. */
  lemma FirstVault(m: Machine, pass: string, salt: Salt)
    requires m.alive && m.world.db.NoDb? && m.world.sidecar.NoSidecar? && |pass| >= MIN_PASSPHRASE_LEN
    ensures var (m', r) := EnsureVault(m, pass, salt);
            && m'.plan == m.plan && m'.world.keychain == m.world.keychain
            && (r.Ok? <==> AllWork(m.plan, m.step, 4))
            && (r.Err? ==> m'.world.sidecar.NoSidecar? && (m'.world.db.NoDb? <==> !Orphans(m.plan, m.step)))
            && (r.Ok? ==> m'.alive && m'.step == m.step + 4 && !Orphans(m.plan, m.step)
                          && OpenOn(m'.world, r.value) && Contents(m'.world) == Holds(pass, map[]))
  {
    CreateOutcome(m, pass, salt);
    CreateFates(m, pass, salt);
    CreateStep(m, pass, salt);
  }

  /** An unready vault stage fails and changes nothing. */
  lemma UnreadyVault(m: Machine, pass: string, salt: Salt)
    requires m.alive && !VaultReady(m.world, pass)
    ensures EnsureVault(m, pass, salt).1.Err? && EnsureVault(m, pass, salt).0.world == m.world
  {
  }

  /** When loading answers that there is no identity, creating one is tried. */
  lemma NotFoundMeans(m: Machine, conn: Key, name: string)
    requires m.alive && OpenOn(m.world, conn)
    ensures var (m', r) := LoadIdentity(m, conn, name);
            var p := At(m.world, name);
            && m'.world == m.world
            && (r == Err(IdentityError.NotFound) ==>
                  && m'.alive
                  && (p.described.None? || (p.secret.None? && p.described.value.MetadataJson?
                                            && !p.described.value.metadata.publicKey.Malformed?)))
  {
    LoadStep(m, conn, name);
  }

  lemma UncreatedIdentity(m: Machine, conn: Key, name: string, seed: Seed, now: int)
    requires m.alive && OpenOn(m.world, conn) && (At(m.world, name).cached.Some? || At(m.world, name).secret.Some?)
    ensures CreateIdentity(m, conn, name, COMPANION_LABEL, seed, now).0.world == m.world
  {
    CreateReachesStore(m, conn, name, COMPANION_LABEL, seed, now);
  }

  /** So does an unready identity stage. */
  lemma UnreadyIdentity(m: Machine, conn: Key, name: string, seed: Seed, now: int)
    requires m.alive && OpenOn(m.world, conn) && !IdentityReady(At(m.world, name))
    ensures EnsureIdentity(m, conn, name, seed, now).0.world == m.world
  {
    NotFoundMeans(m, conn, name);
    var (m1, r) := LoadIdentity(m, conn, name);
    if r == Err(IdentityError.NotFound) {
      UncreatedIdentity(m1, conn, name, seed, now);
    }
  }

  /** The vault stage when the vault is there: three effects, none of which changes anything. */
  lemma HeldFates(m: Machine, pass: string, salt: Salt)
    requires m.alive && Contents(m.world).Holds? && Contents(m.world).pass == pass
    ensures var (m', r) := EnsureVault(m, pass, salt);
            && m'.world == m.world && m'.plan == m.plan
            && (r.Ok? <==> AllWork(m.plan, m.step, 3))
            && (r.Ok? ==> m'.alive && m'.step == m.step + 3 && OpenOn(m'.world, r.value))
  {
    AllWorkSplits(m.plan, m.step, 1, 2);
    AllWorkTwo(m.plan, m.step + 1);
    assert AllWork(m.plan, m.step, 1) <==> FateAt(m.plan, m.step).Works?;
  }

  lemma InitBlank(m: Machine, key: Key)
    requires m.alive && m.world.db.BlankDb?
    ensures var (m', r) := OpenAndInit(m, key);
            && m'.plan == m.plan
            && (r.Ok? <==> AllWork(m.plan, m.step, 2))
            && (r.Ok? ==> m'.alive && m'.step == m.step + 2 && r == Ok(key) && m'.world != m.world)
            && m'.world in {m.world, m.world.(db := SealedDb(key, map[]))}
  {
    AllWorkTwo(m.plan, m.step);
  }

  lemma SidecarDerives(m: Machine, pass: string)
    requires m.alive && FromJson(m.world.sidecar).Ok?
    ensures var (m', r) := KeyFromSidecar(m, pass);
            && m'.world == m.world && m'.plan == m.plan
            && (FateAt(m.plan, m.step).Works? ==>
                  m'.alive && m'.step == m.step + 1 && r == DeriveKey(pass, m.world.sidecar.header))
            && (!FateAt(m.plan, m.step).Works? ==> r.Err?)
  {
  }

  /** The vault stage when the database was never initialised: it is claimed, or still unclaimed. */
  lemma ClaimFates(m: Machine, pass: string, salt: Salt)
    requires m.alive && Contents(m.world).Unclaimed? && DeriveKey(pass, m.world.sidecar.header).Ok?
    ensures var (m', r) := EnsureVault(m, pass, salt);
            && m'.plan == m.plan && m'.world.keychain == m.world.keychain
            && (r.Ok? <==> AllWork(m.plan, m.step, 3))
            && (r.Ok? ==> m'.alive && m'.step == m.step + 3 && OpenOn(m'.world, r.value))
            && (m'.world == m.world || Contents(m'.world) == Holds(pass, map[]))
            && (r.Ok? ==> Contents(m'.world) == Holds(pass, map[]))
  {
    AllWorkSplits(m.plan, m.step, 1, 2);
    assert AllWork(m.plan, m.step, 1) <==> FateAt(m.plan, m.step).Works?;
    SidecarDerives(m, pass);
    var (m1, derived) := KeyFromSidecar(m, pass);
    if derived.Ok? {
      InitBlank(m1, derived.value);
    }
  }

  /** A seed without a vault: whatever the vault stage does, the seed stays alone. */
  lemma SeedWithoutVault(m: Machine, pass: string, salt: Salt, name: string)
    requires m.alive && VaultReady(m.world, pass) && !Contents(m.world).Holds? && At(m.world, name).secret.Some?
    ensures var (m', r) := EnsureVault(m, pass, salt);
            && m'.world.keychain == m.world.keychain && !Ready(m'.world, name, pass)
            && (r.Ok? ==> m'.alive && OpenOn(m'.world, r.value) && !IdentityReady(At(m'.world, name)))
  {
    if Contents(m.world).NoVault? {
      FirstVault(m, pass, salt);
    } else {
      ClaimFates(m, pass, salt);
    }
  }

  /** What follows the passphrase stage keeps an unready instance unready. */
  lemma UnreadyStays(m: Machine, pass: string, name: string, d: Draws)
    requires m.alive && !Ready(m.world, name, pass)
    ensures var w := FromVault(m, pass, name, d).world;
            w.keychain == m.world.keychain && !Ready(w, name, pass)
  {
    var (m1, vault) := EnsureVault(m, pass, d.salt);
    if !VaultReady(m.world, pass) {
      UnreadyVault(m, pass, d.salt);
    } else {
      if Contents(m.world).Holds? {
        HeldFates(m, pass, d.salt);
      } else {
        SeedWithoutVault(m, pass, d.salt, name);
      }
      if vault.Ok? {
        UnreadyIdentity(m1, vault.value, name, d.seed, d.now);
      }
    }
  }

  /** A blocked instance stays blocked through any start, whatever fails in it. */
  lemma UnbootableStays(w: World, name: string, plan: seq<Fate>, d: Draws)
    requires name != PASSPHRASE_ACCOUNT && Blocked(w, name)
    ensures Blocked(Init(Start(w, plan), name, d).0.world, name)
  {
    InitIsStaged(w, name, plan, d);
    PassphraseStep(Start(w, plan), d.passphrase);
    PassphraseFrame(w, plan, d, name);
    var (m, pass) := EnsurePassphrase(Start(w, plan), d.passphrase);
    if pass.Ok? {
      PassphraseFates(w, plan, d);
      assert !Bootable(w, name, d);
      UnreadyStays(m, pass.value, name, d);
      HeldDecides(FromVault(m, pass.value, name, d).world, name, pass.value, d);
    }
  }

  /** Starting over and over; the second component tells whether any start succeeded. */
  function Attempts(w: World, name: string, attempts: seq<(seq<Fate>, Draws)>): (World, bool)
    decreases |attempts|
  {
    if attempts == [] then (w, false)
    else
      var (m, r) := Init(Start(w, attempts[0].0), name, attempts[0].1);
      var (w', any) := Attempts(m.world, name, attempts[1..]);
      (w', any || r.Ok?)
  }

  lemma {:induction false} BlockedForever(w: World, name: string, attempts: seq<(seq<Fate>, Draws)>)
    requires name != PASSPHRASE_ACCOUNT && Blocked(w, name)
    ensures Blocked(Attempts(w, name, attempts).0, name) && !Attempts(w, name, attempts).1
    decreases |attempts|
  {
    if attempts != [] {
      var (m, r) := Init(Start(w, attempts[0].0), name, attempts[0].1);
      UnbootableStays(w, name, attempts[0].0, attempts[0].1);
      if r.Ok? {
        SuccessAnchors(w, name, attempts[0].0, attempts[0].1);
        assert Bootable(m.world, name, attempts[0].1);
      }
      BlockedForever(m.world, name, attempts[1..]);
    }
  }

  ghost predicate NeverStarts(w: World, name: string)
  {
    forall attempts: seq<(seq<Fate>, Draws)> :: !Attempts(w, name, attempts).1
  }

  lemma OneAttempt(w: World, name: string, plan: seq<Fate>, d: Draws)
    ensures Attempts(w, name, [(plan, d)]).1 <==> Init(Start(w, plan), name, d).1.Ok?
  {
    assert [(plan, d)][1..] == [];
  }

  /** Whatever is on the machine: no number of starts, disturbed or not, with whatever
      draws, ever succeeds exactly if no single undisturbed one would. */
  lemma NeverStartsExactly(w: World, name: string)
    requires name != PASSPHRASE_ACCOUNT
    ensures NeverStarts(w, name) <==> Blocked(w, name)
  {
    if Blocked(w, name) {
      forall attempts: seq<(seq<Fate>, Draws)> ensures !Attempts(w, name, attempts).1 {
        BlockedForever(w, name, attempts);
      }
    }
    if NeverStarts(w, name) {
      forall d: Draws ensures !Bootable(w, name, d) {
        StartSucceedsExactly(w, name, d);
        OneAttempt(w, name, [], d);
      }
    }
  }

  // ── What an interrupted start leaves ─────────────────────────────────
  /** The reads of the identity stage before it stores anything. */
  function Reads(p: Presence): nat
  {
    if p.described.Some? then 4 else 3
  }

  /** There is a description already, and it is of this key. */
  predicate Describes(p: Presence, seed: Seed)
  {
    && p.described.Some? && p.described.value.MetadataJson?
    && p.described.value.metadata.publicKey == PublicKeyOf(seed)
  }

  /** From `step` on the identity stage leaves its seed in the keychain, alone or beside
      the description of another key. */
  predicate IdentityBlocks(p: Presence, seed: Seed, plan: seq<Fate>, step: nat)
  {
    && p.secret.None? && !Describes(p, seed)
    && AllWork(plan, step, Reads(p)) && LeavesSeedAlone(plan, step + Reads(p))
  }

  /** A name with a description or without, and nothing else. */
  predicate Free(p: Presence)
  {
    IdentityReady(p) && p.secret.None?
  }

  lemma LoadOfFree(m: Machine, conn: Key, name: string)
    requires m.alive && OpenOn(m.world, conn) && Free(At(m.world, name))
    ensures var (m', r) := LoadIdentity(m, conn, name);
            var n := Reads(At(m.world, name)) - 2;
            && m'.world == m.world && m'.plan == m.plan && r.Err?
            && (r == Err(IdentityError.NotFound) <==> AllWork(m.plan, m.step, n))
            && (r == Err(IdentityError.NotFound) ==> m'.alive && m'.step == m.step + n)
  {
    ReadStep(m, conn, Lookup(conn));
    AllWorkTwo(m.plan, m.step);
    assert AllWork(m.plan, m.step, 1) <==> FateAt(m.plan, m.step).Works?;
    var m1 := Perform(m, Lookup(conn)).0;
    if m1.alive {
      ReadStep(m1, conn, KeychainGet);
    }
  }

  /** What a `create` makes of a free name, and when it is ready afterwards. */
  lemma CreatedReady(p: Presence, p': Presence, md: IdentityMetadata, seed: Seed,
                     plan: seq<Fate>, step: nat, created: bool)
    requires Free(p) && md.publicKey == PublicKeyOf(seed)
    requires p'.described == if AllWork(plan, step, 4) then Some(MetadataJson(md)) else p.described
    requires created ==> AllWork(plan, step, 4) && p'.secret == Some(Binary(seed))
    requires created || p'.cached.None?
    requires var stays := AllWork(plan, step, 2) && LeavesSeed(plan, step + 2);
             created || p'.secret == if stays then Some(Binary(seed)) else None
    ensures IdentityReady(p') <==>
            Describes(p, seed) || !(AllWork(plan, step, 2) && LeavesSeedAlone(plan, step + 2))
  {
    AllWorkSplits(plan, step, 2, 2);
    AllWorkTwo(plan, step + 2);
  }

  lemma CreatingFree(m: Machine, conn: Key, name: string, seed: Seed, now: int)
    requires m.alive && OpenOn(m.world, conn) && Free(At(m.world, name))
    ensures var w := CreateIdentity(m, conn, name, COMPANION_LABEL, seed, now).0.world;
            IdentityReady(At(w, name)) <==>
            Describes(At(m.world, name), seed) || !(AllWork(m.plan, m.step, 2) && LeavesSeedAlone(m.plan, m.step + 2))
  {
    CreateLeaves(m, conn, name, COMPANION_LABEL, seed, now);
    var (m', r) := CreateIdentity(m, conn, name, COMPANION_LABEL, seed, now);
    var md := Description(name, seed, now, COMPANION_LABEL);
    CreatedReady(At(m.world, name), At(m'.world, name), md, seed, m.plan, m.step, r.Ok?);
  }

  /** Loading reads once or twice, creating twice more. */
  lemma ReadsInTwo(p: Presence, seed: Seed, plan: seq<Fate>, step: nat, n: nat)
    requires p.secret.None? && Reads(p) == n + 2
    ensures IdentityBlocks(p, seed, plan, step) <==>
            && AllWork(plan, step, n) && !Describes(p, seed)
            && AllWork(plan, step + n, 2) && LeavesSeedAlone(plan, step + n + 2)
  {
    AllWorkSplits(plan, step, n, 2);
  }

  lemma EnsureIdentityCases(m: Machine, conn: Key, name: string, seed: Seed, now: int)
    ensures var (m1, r) := LoadIdentity(m, conn, name);
            EnsureIdentity(m, conn, name, seed, now).0 ==
            if r != Err(IdentityError.NotFound) then m1
            else CreateIdentity(m1, conn, name, COMPANION_LABEL, seed, now).0
  {
  }

  lemma FreeIdentityFates(m: Machine, conn: Key, name: string, seed: Seed, now: int)
    requires m.alive && OpenOn(m.world, conn) && Free(At(m.world, name))
    ensures IdentityReady(At(EnsureIdentity(m, conn, name, seed, now).0.world, name)) <==>
            !IdentityBlocks(At(m.world, name), seed, m.plan, m.step)
  {
    LoadOfFree(m, conn, name);
    ReadsInTwo(At(m.world, name), seed, m.plan, m.step, Reads(At(m.world, name)) - 2);
    EnsureIdentityCases(m, conn, name, seed, now);
    var (m1, r) := LoadIdentity(m, conn, name);
    if r == Err(IdentityError.NotFound) {
      CreatingFree(m1, conn, name, seed, now);
    }
  }

  /** The identity stage from a ready state: when it does not end in one. */
  lemma IdentityFates(m: Machine, conn: Key, name: string, seed: Seed, now: int)
    requires m.alive && OpenOn(m.world, conn) && IdentityReady(At(m.world, name))
    ensures IdentityReady(At(EnsureIdentity(m, conn, name, seed, now).0.world, name)) <==>
            !IdentityBlocks(At(m.world, name), seed, m.plan, m.step)
  {
    if At(m.world, name).secret.Some? {
      IdentityStep(m, conn, name, seed, now, PASSPHRASE_ACCOUNT);
    } else {
      FreeIdentityFates(m, conn, name, seed, now);
    }
  }

  /** And in an open vault that is all there is to it. */
  lemma IdentityDecides(m: Machine, conn: Key, name: string, pass: string, seed: Seed, now: int)
    requires name != PASSPHRASE_ACCOUNT && m.alive && OpenOn(m.world, conn)
    requires Contents(m.world).Holds? && Contents(m.world).pass == pass && IdentityReady(At(m.world, name))
    ensures var w := EnsureIdentity(m, conn, name, seed, now).0.world;
            && HeldSecret(w, PASSPHRASE_ACCOUNT) == HeldSecret(m.world, PASSPHRASE_ACCOUNT)
            && (Ready(w, name, pass) <==> !IdentityBlocks(At(m.world, name), seed, m.plan, m.step))
  {
    IdentityStep(m, conn, name, seed, now, PASSPHRASE_ACCOUNT);
    IdentityFates(m, conn, name, seed, now);
  }

  /** From `step` on the stages after the passphrase orphan the vault, or block the identity. */
  predicate StagesBlock(w: World, name: string, seed: Seed, plan: seq<Fate>, step: nat)
  {
    var n := if Contents(w).NoVault? then 4 else 3;
    || (Contents(w).NoVault? && Orphans(plan, step))
    || (AllWork(plan, step, n) && IdentityBlocks(At(w, name), seed, plan, step + n))
  }

  /** The vault stage from a ready state: it ends in one, unless it orphans the vault. */
  lemma VaultFates(m: Machine, pass: string, salt: Salt, name: string)
    requires m.alive && Ready(m.world, name, pass)
    ensures var (m', r) := EnsureVault(m, pass, salt);
            var n := if Contents(m.world).NoVault? then 4 else 3;
            && m'.plan == m.plan && m'.world.keychain == m.world.keychain
            && (r.Ok? <==> AllWork(m.plan, m.step, n))
            && (r.Ok? ==> m'.alive && m'.step == m.step + n && OpenOn(m'.world, r.value)
                          && Contents(m'.world).Holds? && Contents(m'.world).pass == pass
                          && At(m'.world, name) == At(m.world, name)
                          && !(Contents(m.world).NoVault? && Orphans(m.plan, m.step)))
            && (Ready(m'.world, name, pass) <==> !(Contents(m.world).NoVault? && Orphans(m.plan, m.step)))
  {
    match Contents(m.world)
    case NoVault => FirstVault(m, pass, salt);
    case Holds(_, _) => HeldFates(m, pass, salt);
    case Unclaimed => ClaimFates(m, pass, salt);
    case Lost => assert false;
  }

  /** Behind a vault stage that worked, only the identity stage can block; otherwise only
      an orphaned vault. */
  lemma WhatBlocks(w: World, name: string, seed: Seed, plan: seq<Fate>, step: nat, n: nat)
    requires n == if Contents(w).NoVault? then 4 else 3
    ensures AllWork(plan, step, n) && !(Contents(w).NoVault? && Orphans(plan, step)) ==>
              (StagesBlock(w, name, seed, plan, step) <==> IdentityBlocks(At(w, name), seed, plan, step + n))
    ensures !AllWork(plan, step, n) ==>
              (StagesBlock(w, name, seed, plan, step) <==> Contents(w).NoVault? && Orphans(plan, step))
  {
  }

  lemma FromVaultCases(m: Machine, pass: string, name: string, d: Draws)
    ensures var (m1, vault) := EnsureVault(m, pass, d.salt);
            && (vault.Err? ==> FromVault(m, pass, name, d) == m1)
            && (vault.Ok? ==> FromVault(m, pass, name, d) == EnsureIdentity(m1, vault.value, name, d.seed, d.now).0)
  {
  }

  lemma StagesFates(m: Machine, pass: string, name: string, d: Draws)
    requires name != PASSPHRASE_ACCOUNT && m.alive && Ready(m.world, name, pass)
    requires HeldSecret(m.world, PASSPHRASE_ACCOUNT) == Some(Utf8(pass))
    ensures var w := FromVault(m, pass, name, d).world;
            && HeldSecret(w, PASSPHRASE_ACCOUNT) == Some(Utf8(pass))
            && (Ready(w, name, pass) <==> !StagesBlock(m.world, name, d.seed, m.plan, m.step))
  {
    var n := if Contents(m.world).NoVault? then 4 else 3;
    WhatBlocks(m.world, name, d.seed, m.plan, m.step, n);
    FromVaultCases(m, pass, name, d);
    VaultFates(m, pass, d.salt, name);
    var (m1, vault) := EnsureVault(m, pass, d.salt);
    if vault.Ok? {
      IdentityDecides(m1, vault.value, name, pass, d.seed, d.now);
    }
  }

  /** The start gets its passphrase into the keychain or out of it; and that passphrase does
      not open the vault, or the later stages block. */
  predicate StartBlocks(w: World, name: string, d: Draws, plan: seq<Fate>)
    requires PassphraseFor(w, d).Some?
  {
    var k := PassphraseEffects(w);
    && AllWork(plan, 0, k)
    && (Ready(w, name, PassphraseFor(w, d).value) ==> StagesBlock(w, name, d.seed, plan, k))
  }

  /** Contents and presence do not depend on the passphrase account. */
  lemma ReadyElsewhere(w: World, w': World, name: string, pass: string, seed: Seed, plan: seq<Fate>, step: nat)
    requires w'.db == w.db && w'.sidecar == w.sidecar && At(w', name) == At(w, name)
    ensures Ready(w', name, pass) <==> Ready(w, name, pass)
    ensures StagesBlock(w', name, seed, plan, step) <==> StagesBlock(w, name, seed, plan, step)
  {
  }

  /** From any state that is not blocked: a start leaves a blocked one exactly in these
      cases. In all the others the keychain holds a passphrase with which the next start
      would succeed, or nothing has changed. */
  lemma StartBlocksExactly(w: World, name: string, plan: seq<Fate>, d: Draws, d': Draws)
    requires name != PASSPHRASE_ACCOUNT && !Blocked(w, name)
    ensures PassphraseFor(w, d).Some?
    ensures var w' := Init(Start(w, plan), name, d).0.world;
            && (Blocked(w', name) <==> StartBlocks(w, name, d, plan))
            && (Bootable(w', name, d') <==> !Blocked(w', name) && (w' == w ==> Bootable(w, name, d')))
  {
    var x :| Bootable(w, name, x);
    InitIsStaged(w, name, plan, d);
    PassphraseFates(w, plan, d);
    PassphraseFrame(w, plan, d, name);
    var (m, pass) := EnsurePassphrase(Start(w, plan), d.passphrase);
    if pass.Ok? {
      ReadyElsewhere(w, m.world, name, pass.value, d.seed, plan, m.step);
      if Ready(m.world, name, pass.value) {
        StagesFates(m, pass.value, name, d);
      } else {
        UnreadyStays(m, pass.value, name, d);
      }
      HeldDecides(FromVault(m, pass.value, name, d).world, name, pass.value, d');
    }
  }

  /** Where this start and the next would have succeeded undisturbed, the next one still does,
      exactly unless this one was blocking. */
  lemma RetriesExactly(w: World, name: string, plan: seq<Fate>, d: Draws, d': Draws)
    requires name != PASSPHRASE_ACCOUNT && Bootable(w, name, d) && Bootable(w, name, d')
    ensures var w' := Init(Start(w, plan), name, d).0.world;
            Init(Healthy(w'), name, d').1.Ok? <==>
            !(AllWork(plan, 0, PassphraseEffects(w)) && StagesBlock(w, name, d.seed, plan, PassphraseEffects(w)))
  {
    StartSucceedsExactly(Init(Start(w, plan), name, d).0.world, name, d');
    StartBlocksExactly(w, name, plan, d, d');
  }

  /** A first start whose passphrase stage takes `k` effects blocks all later ones: the
      vault is orphaned, or the seed goes into the keychain and stays there alone. */
  predicate FirstStartBlocks(plan: seq<Fate>, k: nat)
  {
    AllWork(plan, 0, k) && (Orphans(plan, k) || (AllWork(plan, k, 7) && LeavesSeedAlone(plan, k + 7)))
  }

  /** A first start, with nothing of this instance on the machine yet: the state it leaves
      is blocked exactly for those plans, and otherwise the next start succeeds. */
  lemma FirstStartRetriesExactly(w: World, name: string, plan: seq<Fate>, d: Draws, d': Draws)
    requires name != PASSPHRASE_ACCOUNT && w.db.NoDb? && w.sidecar.NoSidecar? && Bootable(w, name, d)
    ensures var w' := Init(Start(w, plan), name, d).0.world;
            && (Blocked(w', name) <==> FirstStartBlocks(plan, PassphraseEffects(w)))
            && (Init(Healthy(w'), name, d').1.Ok? <==> !FirstStartBlocks(plan, PassphraseEffects(w)))
  {
    AllWorkSplits(plan, PassphraseEffects(w), 4, 3);
    RetriesExactly(w, name, plan, d, d');
    StartBlocksExactly(w, name, plan, d, d');
  }

  /** The shortest interruption of this kind: the process dies right after the seed went in. */
  lemma OneCrashBlocks(name: string, d: Draws, plan: seq<Fate>)
    requires name != PASSPHRASE_ACCOUNT && AllWork(plan, 0, 10) && FateAt(plan, 10).Dies?
    ensures Blocked(Init(Start(CLEAN, plan), name, d).0.world, name)
  {
    FirstStartRetriesExactly(CLEAN, name, plan, d, d);
  }

  /** An interrupted retry of a start that had got as far as the description: if it dies right
      after its own seed went in, every later start answers that the keys do not match. */
  lemma InterruptedRetryBlocks(w: World, name: string, d: Draws, plan: seq<Fate>)
    requires name != PASSPHRASE_ACCOUNT && Bootable(w, name, d) && Contents(w).Holds?
    requires HeldSecret(w, PASSPHRASE_ACCOUNT).Some? && Free(At(w, name)) && At(w, name).described.Some?
    requires At(w, name).described.value.metadata.publicKey != PublicKeyOf(d.seed)
    requires AllWork(plan, 0, 9) && FateAt(plan, 9).Dies?
    ensures Blocked(Init(Start(w, plan), name, d).0.world, name)
  {
    StartBlocksExactly(w, name, plan, d, d);
  }

  // ── Blocked, spelled out ─────────────────────────────────────────────

  /** The passphrase is one that a start could draw. */
  predicate Drawable(pass: string)
  {
    |pass| == 2 * SALT_LEN && AllHex(pass) && Lower(pass) == pass
  }

  /** What has to be looked at to tell a blocked instance. */
  predicate BlockedBy(w: World, name: string)
  {
    match HeldSecret(w, PASSPHRASE_ACCOUNT)
    case Some(Binary(_)) => true
    case Some(Utf8(pass)) => !Ready(w, name, pass)
    case None =>
      match Contents(w)
      case NoVault => !w.db.NoDb? || At(w, name).secret.Some?
      case Holds(p, _) => !Drawable(p) || !IdentityReady(At(w, name))
      case Unclaimed => DeriveKey(seq(MIN_PASSPHRASE_LEN, _ => 'x'), w.sidecar.header).Err? || At(w, name).secret.Some?
      case Lost => true
  }

  lemma DrawnIsDrawable(random: Salt)
    ensures Drawable(Encode(random))
  {
    DecodeEncode(random);
    EncodeDecode(Encode(random));
  }

  lemma DrawableIsDrawn(pass: string) returns (random: Salt)
    requires Drawable(pass)
    ensures Encode(random) == pass
  {
    EncodeDecode(pass);
    random := Decode(pass).value;
  }

  lemma UnheldBlockedExactly(w: World, name: string, seed: Seed)
    requires HeldSecret(w, PASSPHRASE_ACCOUNT).None?
    ensures Blocked(w, name) <==> BlockedBy(w, name)
  {
    if !BlockedBy(w, name) {
      var random: Salt := seed;
      if Contents(w).Holds? {
        random := DrawableIsDrawn(Contents(w).pass);
      }
      assert Bootable(w, name, Draws(random, seed, seed, 0));
    } else {
      forall d: Draws ensures !Bootable(w, name, d) {
        DrawnIsDrawable(d.passphrase);
      }
    }
  }

  lemma BlockedExactly(w: World, name: string, seed: Seed)
    ensures Blocked(w, name) <==> BlockedBy(w, name)
  {
    if HeldSecret(w, PASSPHRASE_ACCOUNT).Some? {
      var d := Draws(seed, seed, seed, 0);
      assert Blocked(w, name) ==> !Bootable(w, name, d);
    } else {
      UnheldBlockedExactly(w, name, seed);
    }
  }
}
