/** What each identity call achieves and what it answers, step of the plan by step of the plan. */
module IdentityAnswers {
  import opened Wrappers
  import opened Host
  import opened IdentityCore
  import opened IdentityRuns

  // ── create ───────────────────────────────────────────────────────────

  /** Storing both halves, step by step. */
  lemma StoreBothAnswers(m: Machine, conn: Key, seed: Seed, md: IdentityMetadata)
    requires m.alive && OpenOn(m.world, conn)
    ensures var r := StoreBoth(m, conn, seed, md).1;
            r == if AllWork(m.plan, m.step, 3) then Ok(Loaded(seed, md))
                 else Err(if FateAt(m.plan, m.step).Works? then IdentityError.Vault else SecretStore)
  {
    AllWorkThree(m.plan, m.step);
    var (m1, s1) := Perform(m, KeychainSet(md.name, Binary(seed)));
    if s1.Done? {
      PersistOutcome(m1, conn, md);
    }
  }

  /** The name is free: neither the vault's cached key nor the keychain knows it. */
  predicate FreeName(p: Presence) { p.cached.None? && p.secret.None? }

  /** `create` under every plan: it succeeds exactly when the name is free and all five effects
      work, its identity is the one described here, and both stores then hold it. */
  lemma CreateAnswersExactly(m: Machine, conn: Key, name: string, displayLabel: string, seed: Seed, now: int)
    requires m.alive && OpenOn(m.world, conn)
    ensures var (m', r) := CreateIdentity(m, conn, name, displayLabel, seed, now);
            var md := IdentityMetadata(name, PublicKeyOf(seed), now, displayLabel);
            && (r.Ok? <==> FreeName(At(m.world, name)) && AllWork(m.plan, m.step, 5))
            && (r.Ok? ==>
                  && r.value == Loaded(seed, md)
                  && At(m'.world, name) ==
                     Presence(Some(MetadataJson(md)), Some(PublicKeyBytes(PublicKeyOf(seed))), Some(Binary(seed))))
  {
    var md := IdentityMetadata(name, PublicKeyOf(seed), now, displayLabel);
    AllWorkTwo(m.plan, m.step);
    AllWorkSplits(m.plan, m.step, 2, 3);
    CreateReachesStore(m, conn, name, displayLabel, seed, now);
    if FreeName(At(m.world, name)) {
      StoreBothAnswers(Consulted(m), conn, seed, md);
      StoreBothOutcome(Consulted(m), conn, seed, md);
    }
  }

  /** The checks `create` starts with: the cached key, then the keychain. */
  lemma CreateChecks(m: Machine, conn: Key, name: string, displayLabel: string, seed: Seed, now: int)
    requires m.alive && OpenOn(m.world, conn)
    requires !(FreeName(At(m.world, name)) && FateAt(m.plan, m.step).Works? && FateAt(m.plan, m.step + 1).Works?)
    ensures CreateIdentity(m, conn, name, displayLabel, seed, now).1 ==
            Err(if !FateAt(m.plan, m.step).Works? then IdentityError.Vault
                else if At(m.world, name).cached.Some? then IdentityError.AlreadyExists
                else if !FateAt(m.plan, m.step + 1).Works? then SecretStore
                else IdentityError.AlreadyExists)
  {
    ReadStep(m, conn, Lookup(conn));
  }

  /** The error of a `create` that fails: the vault's exactly when one of its three accesses to
      the vault is the first thing that fails, the keychain's likewise, and otherwise that
      the name is taken. */
  lemma CreateRefusesExactly(m: Machine, conn: Key, name: string, displayLabel: string, seed: Seed, now: int)
    requires m.alive && OpenOn(m.world, conn)
    ensures var r := CreateIdentity(m, conn, name, displayLabel, seed, now).1;
            var p := At(m.world, name);
            && (r == Err(IdentityError.AlreadyExists) <==>
                  && FateAt(m.plan, m.step).Works?
                  && (p.cached.Some? || (FateAt(m.plan, m.step + 1).Works? && p.secret.Some?)))
            && (r == Err(SecretStore) <==>
                  && FateAt(m.plan, m.step).Works? && p.cached.None?
                  && (!FateAt(m.plan, m.step + 1).Works? || (p.secret.None? && !FateAt(m.plan, m.step + 2).Works?)))
            && (r.Err? ==> r.error in {IdentityError.AlreadyExists, SecretStore, IdentityError.Vault})
  {
    if FreeName(At(m.world, name)) && FateAt(m.plan, m.step).Works? && FateAt(m.plan, m.step + 1).Works? {
      CreateReachesStore(m, conn, name, displayLabel, seed, now);
      StoreBothAnswers(Consulted(m), conn, seed, Description(name, seed, now, displayLabel));
    } else {
      CreateChecks(m, conn, name, displayLabel, seed, now);
    }
  }

  // ── load ─────────────────────────────────────────────────────────────

  /** `load` succeeds under a plan exactly when both reads work and the two halves agree. */
  lemma LoadAnswersExactly(m: Machine, conn: Key, name: string, id: Loaded)
    requires m.alive && OpenOn(m.world, conn)
    ensures LoadIdentity(m, conn, name).1 == Ok(id) <==>
            && AllWork(m.plan, m.step, 2)
            && At(m.world, name).described == Some(MetadataJson(id.metadata))
            && At(m.world, name).secret == Some(Binary(id.seed))
            && id.metadata.publicKey == PublicKeyOf(id.seed)
  {
    AllWorkTwo(m.plan, m.step);
  }

  /** A `load` whose access to one of the stores fails says which. */
  lemma LoadReportsFaults(m: Machine, conn: Key, name: string)
    requires m.alive && OpenOn(m.world, conn)
    ensures var r := LoadIdentity(m, conn, name).1;
            var p := At(m.world, name);
            var described := p.described.Some? && p.described.value.MetadataJson?
                             && !p.described.value.metadata.publicKey.Malformed?;
            && (r == Err(IdentityError.Vault) <==> !FateAt(m.plan, m.step).Works?)
            && (r == Err(SecretStore) <==>
                  FateAt(m.plan, m.step).Works? && described && !FateAt(m.plan, m.step + 1).Works?)
  {
    ReadStep(m, conn, Lookup(conn));
    var m1 := Perform(m, Lookup(conn)).0;
    if m1.alive {
      ReadStep(m1, conn, KeychainGet);
    }
  }
}
