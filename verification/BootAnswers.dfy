/** When a start succeeds under any plan, and what it then hands out. */
module BootAnswers {
  import opened Wrappers
  import opened Hex
  import opened Host
  import opened VaultCore
  import opened VaultRuns
  import opened IdentityCore
  import opened IdentityRuns
  import opened IdentityAnswers
  import opened Boot
  import opened BootRuns
  import opened BootBlocks

  // ── The vault stage ──────────────────────────────────────────────────

  function VaultEffects(c: Coffer): nat
  {
    if c.NoVault? then 4 else 3
  }

  /** What is known about a name once the vault is open: a vault that was not there holds nothing. */
  function SeenAt(w: World, name: string): Presence
  {
    if Contents(w).Holds? then At(w, name) else Presence(None, None, At(w, name).secret)
  }

  lemma VaultStage(m: Machine, pass: string, salt: Salt, name: string)
    requires m.alive
    ensures var (m', r) := EnsureVault(m, pass, salt);
            var n := VaultEffects(Contents(m.world));
            && (r.Ok? <==> VaultReady(m.world, pass) && AllWork(m.plan, m.step, n))
            && (r.Ok? ==>
                  && m'.alive && m'.plan == m.plan && m'.step == m.step + n
                  && OpenOn(m'.world, r.value) && m'.world.keychain == m.world.keychain
                  && At(m'.world, name) == SeenAt(m.world, name))
  {
    if !VaultReady(m.world, pass) {
      UnreadyVault(m, pass, salt);
    } else {
      match Contents(m.world)
      case NoVault => FirstVault(m, pass, salt);
      case Holds(_, _) => HeldFates(m, pass, salt);
      case Unclaimed => ClaimFates(m, pass, salt);
    }
  }

  // ── The identity stage ───────────────────────────────────────────────

  /** Reading the description, then the seed if there was one, then creating if one is missing. */
  function IdentityEffects(p: Presence): nat
  {
    if p.described.None? then 6 else if p.secret.None? then 7 else 2
  }

  /** The identity on record if there is one, otherwise a new one of this name and label. */
  predicate IsIdentityOf(p: Presence, name: string, seed: Seed, now: int, id: Loaded)
  {
    if p.secret.Some? then p.secret == Some(Binary(id.seed)) && p.described == Some(MetadataJson(id.metadata))
    else id == Loaded(seed, IdentityMetadata(name, PublicKeyOf(seed), now, "Infinity Node Companion"))
  }

  lemma FreeIdentityAnswers(m: Machine, conn: Key, name: string, seed: Seed, now: int)
    requires m.alive && OpenOn(m.world, conn) && Free(At(m.world, name))
    ensures var p, r := At(m.world, name), EnsureIdentity(m, conn, name, seed, now).1;
            && (r.Ok? <==> AllWork(m.plan, m.step, IdentityEffects(p)))
            && (r.Ok? ==> IsIdentityOf(p, name, seed, now, r.value))
  {
    var n := Reads(At(m.world, name)) - 2;
    LoadOfFree(m, conn, name);
    AllWorkSplits(m.plan, m.step, n, 5);
    var (m1, r) := LoadIdentity(m, conn, name);
    if r == Err(IdentityError.NotFound) {
      CreateAnswersExactly(m1, conn, name, COMPANION_LABEL, seed, now);
    }
  }

  /** An identity that cannot be loaded is not created either. */
  lemma UnreadyAnswers(m: Machine, conn: Key, name: string, seed: Seed, now: int)
    requires m.alive && OpenOn(m.world, conn) && !IdentityReady(At(m.world, name))
    ensures EnsureIdentity(m, conn, name, seed, now).1.Err?
  {
    IdentityStep(m, conn, name, seed, now, PASSPHRASE_ACCOUNT);
    NotFoundMeans(m, conn, name);
    var (m1, r) := LoadIdentity(m, conn, name);
    if r == Err(IdentityError.NotFound) {
      CreateAnswersExactly(m1, conn, name, COMPANION_LABEL, seed, now);
    }
  }

  lemma KnownIdentityAnswers(m: Machine, conn: Key, name: string, seed: Seed, now: int)
    requires m.alive && OpenOn(m.world, conn) && IdentityReady(At(m.world, name)) && At(m.world, name).secret.Some?
    ensures var p, r := At(m.world, name), EnsureIdentity(m, conn, name, seed, now).1;
            && (r.Ok? <==> AllWork(m.plan, m.step, 2))
            && (r.Ok? ==> IsIdentityOf(p, name, seed, now, r.value))
  {
    var p := At(m.world, name);
    LoadAnswersExactly(m, conn, name, Loaded(p.secret.value.bytes, p.described.value.metadata));
    NotFoundMeans(m, conn, name);
  }

  lemma IdentityStage(m: Machine, conn: Key, name: string, seed: Seed, now: int)
    requires m.alive && OpenOn(m.world, conn)
    ensures var p, r := At(m.world, name), EnsureIdentity(m, conn, name, seed, now).1;
            && (r.Ok? <==> IdentityReady(p) && AllWork(m.plan, m.step, IdentityEffects(p)))
            && (r.Ok? ==> IsIdentityOf(p, name, seed, now, r.value))
  {
    if !IdentityReady(At(m.world, name)) {
      UnreadyAnswers(m, conn, name, seed, now);
    } else if At(m.world, name).secret.None? {
      FreeIdentityAnswers(m, conn, name, seed, now);
    } else {
      KnownIdentityAnswers(m, conn, name, seed, now);
    }
  }

  // ── The whole start ──────────────────────────────────────────────────

  function StartEffects(w: World, name: string): nat
  {
    PassphraseEffects(w) + VaultEffects(Contents(w)) + IdentityEffects(SeenAt(w, name))
  }

  /** The two stages that follow the passphrase. */
  lemma LaterStages(m: Machine, pass: string, name: string, d: Draws)
    requires m.alive
    ensures var (m', vault) := EnsureVault(m, pass, d.salt);
            var n := VaultEffects(Contents(m.world)) + IdentityEffects(SeenAt(m.world, name));
            && (vault.Ok? && EnsureIdentity(m', vault.value, name, d.seed, d.now).1.Ok? <==>
                  Ready(m.world, name, pass) && AllWork(m.plan, m.step, n))
            && (vault.Ok? && EnsureIdentity(m', vault.value, name, d.seed, d.now).1.Ok? ==>
                  IsIdentityOf(SeenAt(m.world, name), name, d.seed, d.now,
                               EnsureIdentity(m', vault.value, name, d.seed, d.now).1.value))
  {
    VaultStage(m, pass, d.salt, name);
    AllWorkSplits(m.plan, m.step, VaultEffects(Contents(m.world)), IdentityEffects(SeenAt(m.world, name)));
    var (m', vault) := EnsureVault(m, pass, d.salt);
    if vault.Ok? {
      IdentityStage(m', vault.value, name, d.seed, d.now);
    }
  }

  lemma PassphraseRefuses(w: World, plan: seq<Fate>, d: Draws)
    requires PassphraseFor(w, d).None?
    ensures EnsurePassphrase(Start(w, plan), d.passphrase).1.Err?
  {
  }

  /** What the later stages look at does not depend on the passphrase account. */
  lemma SeenElsewhere(w: World, w': World, name: string, pass: string)
    requires w'.db == w.db && w'.sidecar == w.sidecar && At(w', name) == At(w, name)
    ensures Contents(w') == Contents(w) && SeenAt(w', name) == SeenAt(w, name)
    ensures Ready(w', name, pass) <==> Ready(w, name, pass)
  {
  }

  /** A start, under every plan: it succeeds exactly when the machine is bootable and all of its
      effects work, and returns the identity on record or, if there was none, a new one
      with the drawn seed, the clock's time and the companion's label. */
  lemma StartAnswersExactly(w: World, name: string, plan: seq<Fate>, d: Draws)
    requires name != PASSPHRASE_ACCOUNT
    ensures var r := Init(Start(w, plan), name, d).1;
            && (r.Ok? <==> Bootable(w, name, d) && AllWork(plan, 0, StartEffects(w, name)))
            && (r.Ok? ==> IsIdentityOf(SeenAt(w, name), name, d.seed, d.now, r.value.identity))
  {
    if PassphraseFor(w, d).None? {
      PassphraseRefuses(w, plan, d);
    } else {
      PassphraseFates(w, plan, d);
      PassphraseFrame(w, plan, d, name);
      var k := PassphraseEffects(w);
      AllWorkSplits(plan, 0, k, StartEffects(w, name) - k);
      var (m, pass) := EnsurePassphrase(Start(w, plan), d.passphrase);
      if pass.Ok? {
        LaterStages(m, pass.value, name, d);
        SeenElsewhere(w, m.world, name, pass.value);
      }
    }
  }

  lemma SealedUnderDraw(w: World, name: string, plan: seq<Fate>, d: Draws)
    requires name != PASSPHRASE_ACCOUNT && HeldSecret(w, PASSPHRASE_ACCOUNT).None?
    ensures var (m', r) := Init(Start(w, plan), name, d);
            r.Ok? ==> HeldSecret(m'.world, PASSPHRASE_ACCOUNT) == Some(Utf8(Encode(d.passphrase)))
  {
    PassphraseFates(w, plan, d);
    PassphraseFrame(w, plan, d, name);
    var (m, pass) := EnsurePassphrase(Start(w, plan), d.passphrase);
    if pass.Ok? {
      VaultStage(m, pass.value, d.salt, name);
      var (m', vault) := EnsureVault(m, pass.value, d.salt);
      if vault.Ok? {
        IdentityStep(m', vault.value, name, d.seed, d.now, PASSPHRASE_ACCOUNT);
      }
    }
  }

  /** The passphrase a successful start leaves in charge: the one it found, or its own draw in hex;
      it is in the keychain and opens the vault. */
  lemma StartSeals(w: World, name: string, plan: seq<Fate>, d: Draws)
    requires name != PASSPHRASE_ACCOUNT
    ensures var (m', r) := Init(Start(w, plan), name, d);
            r.Ok? ==>
              && Contents(m'.world).Holds?
              && HeldSecret(m'.world, PASSPHRASE_ACCOUNT) == Some(Utf8(Contents(m'.world).pass))
              && match HeldSecret(w, PASSPHRASE_ACCOUNT)
                 case Some(held) => held == Utf8(Contents(m'.world).pass)
                 case None => Decode(Contents(m'.world).pass) == Some(d.passphrase)
  {
    SuccessAnchors(w, name, plan, d);
    if HeldSecret(w, PASSPHRASE_ACCOUNT).Some? {
      StartFrame(w, name, plan, d, PASSPHRASE_ACCOUNT);
    } else {
      DecodeEncode(d.passphrase);
      SealedUnderDraw(w, name, plan, d);
    }
  }

  /** The errors of the passphrase stage, under every plan: the keychain's when reading or storing
      fails, and a corrupted passphrase when the entry is no text. */
  lemma PassphraseReportsExactly(w: World, name: string, plan: seq<Fate>, d: Draws)
    ensures var r := Init(Start(w, plan), name, d).1;
            var held := HeldSecret(w, PASSPHRASE_ACCOUNT);
            && (r == Err(BootError.Keychain) <==>
                  !FateAt(plan, 0).Works? || (held.None? && !FateAt(plan, 1).Works?))
            && (r == Err(PassphraseCorrupted) <==> FateAt(plan, 0).Works? && held.Some? && held.value.Binary?)
  {
  }

  /** A description and a seed of the right length that is not its own. */
  predicate KeysDiffer(p: Presence)
  {
    match (p.described, p.secret)
    case (Some(MetadataJson(md)), Some(Binary(bytes))) =>
      !md.publicKey.Malformed? && |bytes| == 32 && md.publicKey != PublicKeyOf(bytes)
    case _ => false
  }

  lemma IdentityRefuses(m: Machine, conn: Key, name: string, seed: Seed, now: int)
    requires Undisturbed(m) && OpenOn(m.world, conn)
    ensures var r := EnsureIdentity(m, conn, name, seed, now).1;
            && (r.Ok? <==> IdentityReady(At(m.world, name)))
            && (r == Err(KeyMismatch) <==> KeysDiffer(At(m.world, name)))
  {
    LoadSucceedsExactly(m, conn, name);
    HealthyIdentity(m, conn, name, seed, now);
    if LoadIdentity(m, conn, name).1 == Err(IdentityError.NotFound) {
      CreateRefusesExactly(LoadIdentity(m, conn, name).0, conn, name, COMPANION_LABEL, seed, now);
    }
  }

  lemma VaultRefuses(m: Machine, pass: string, salt: Salt, name: string)
    requires Undisturbed(m)
    ensures var (m', r) := EnsureVault(m, pass, salt);
            && (r.Ok? <==> VaultReady(m.world, pass))
            && (r.Ok? ==> Undisturbed(m') && OpenOn(m'.world, r.value) && At(m'.world, name) == SeenAt(m.world, name))
            && (Contents(m.world).Holds? ==>
                  (r == Err(WrongPassphrase) <==> |pass| >= 8 && pass != Contents(m.world).pass))
  {
    HealthyVault(m, pass, salt);
    VaultStage(m, pass, salt, name);
    if Contents(m.world).Holds? {
      OpensExactly(m.world, pass);
      OpenFromHere(m, pass);
    }
  }

  /** Which error an undisturbed start answers: a passphrase entry that is no text, a vault that
      this passphrase does not give, or an identity that neither loads nor can be created;
      a vault under another passphrase and a seed of another key by their names. */
  lemma StartRefusesExactly(w: World, name: string, d: Draws)
    requires name != PASSPHRASE_ACCOUNT
    ensures var r := Init(Healthy(w), name, d).1;
            match PassphraseFor(w, d)
            case None => r == Err(PassphraseCorrupted)
            case Some(pass) =>
              && (r.Err? && r.error.VaultFailed? <==> !VaultReady(w, pass))
              && (r.Err? && r.error.IdentityFailed? <==> VaultReady(w, pass) && !IdentityReady(SeenAt(w, name)))
              && (r.Err? ==> r.error.VaultFailed? || r.error.IdentityFailed?)
              && (Contents(w).Holds? ==>
                    (r == Err(VaultFailed(WrongPassphrase)) <==> |pass| >= 8 && pass != Contents(w).pass))
              && (r == Err(IdentityFailed(KeyMismatch)) <==> VaultReady(w, pass) && KeysDiffer(SeenAt(w, name)))
  {
    if PassphraseFor(w, d).Some? {
      PassphraseStep(Healthy(w), d.passphrase);
      PassphraseFrame(w, [], d, name);
      var (m, pass) := EnsurePassphrase(Healthy(w), d.passphrase);
      SeenElsewhere(w, m.world, name, pass.value);
      VaultRefuses(m, pass.value, d.salt, name);
      var (m', vault) := EnsureVault(m, pass.value, d.salt);
      if vault.Ok? {
        IdentityRefuses(m', vault.value, name, d.seed, d.now);
      }
    }
  }
}
