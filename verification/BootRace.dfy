/** Instances that start at the same time share one keychain entry for the boot passphrase.
    Reading it and storing it are two accesses, which may interleave. */
module BootRace {
  import opened Wrappers
  import opened Hex
  import opened Host
  import opened VaultCore
  import opened VaultRuns
  import opened IdentityRuns
  import opened Boot
  import opened BootBlocks

  /** Where an instance stands: it found no passphrase, or it has one, the `version`-th ever stored. */
  datatype Phase = Looked | Has(pass: string, version: nat)

  /** The passphrases stored so far, the entry holding the last one, and the starts under way. */
  datatype State = State(stored: seq<string>, phases: map<string, Phase>)

  datatype Step = Look(dir: string) | Keep(dir: string, random: Salt)

  function Entry(s: State): Option<string>
  {
    if s.stored == [] then None else Some(s.stored[|s.stored| - 1])
  }

  /** One access to the entry; a step that does not apply changes nothing. */
  function Next(s: State, step: Step): State
  {
    match step
    case Look(dir) =>
      if dir in s.phases then s
      else if s.stored == [] then s.(phases := s.phases[dir := Looked])
      else s.(phases := s.phases[dir := Has(s.stored[|s.stored| - 1], |s.stored| - 1)])
    case Keep(dir, random) =>
      if dir in s.phases && s.phases[dir].Looked? then
        State(s.stored + [Encode(random)], s.phases[dir := Has(Encode(random), |s.stored|)])
      else s
  }

  function Run(s: State, steps: seq<Step>): State
    decreases |steps|
  {
    if steps == [] then s else Run(Next(s, steps[0]), steps[1..])
  }

  /** Every instance has a passphrase that was stored. */
  predicate Inv(s: State)
  {
    forall d | d in s.phases && s.phases[d].Has? ::
      s.phases[d].version < |s.stored| && s.stored[s.phases[d].version] == s.phases[d].pass
  }

  /** Random passphrases do not repeat. */
  predicate Distinct(stored: seq<string>)
  {
    forall i, j | 0 <= i < j < |stored| :: stored[i] != stored[j]
  }

  /** The instance goes on with the passphrase that is in the keychain. */
  predicate Agrees(s: State, dir: string)
  {
    dir in s.phases && s.phases[dir].Has? && Entry(s) == Some(s.phases[dir].pass)
  }

  /** Some start found the entry empty and has not stored its own passphrase yet. */
  predicate SomeoneLooked(s: State)
  {
    exists d | d in s.phases :: s.phases[d].Looked?
  }

  lemma {:induction false} RunKeepsInv(s: State, steps: seq<Step>)
    requires Inv(s)
    ensures Inv(Run(s, steps)) && s.stored <= Run(s, steps).stored
    ensures forall d | d in s.phases && s.phases[d].Has? ::
              d in Run(s, steps).phases && Run(s, steps).phases[d] == s.phases[d]
    decreases |steps|
  {
    if steps != [] {
      RunKeepsInv(Next(s, steps[0]), steps[1..]);
    }
  }

  /** Once an instance has its passphrase, it still agrees later exactly if nobody has stored since. */
  lemma StillAgreesExactly(s: State, steps: seq<Step>, dir: string)
    requires Inv(s) && Agrees(s, dir) && Distinct(Run(s, steps).stored)
    ensures Agrees(Run(s, steps), dir) <==> Run(s, steps).stored == s.stored
  {
    var s' := Run(s, steps);
    RunKeepsInv(s, steps);
    var v := s.phases[dir].version;
    assert s'.stored[v] == s.phases[dir].pass && s'.stored[|s.stored| - 1] == s.phases[dir].pass;
  }

  /** When nobody is about to store, nobody ever will: a passphrase that is there is found. */
  lemma {:induction false} NobodyStores(s: State, steps: seq<Step>)
    requires s.stored != [] && !SomeoneLooked(s)
    ensures Run(s, steps).stored == s.stored
    decreases |steps|
  {
    if steps != [] {
      NobodyStores(Next(s, steps[0]), steps[1..]);
    }
  }

  /** An instance keeps agreeing with the keychain, whatever the others do, exactly if none
      of them had found the entry empty and has yet to store its own passphrase. */
  lemma AgreementIsFinalExactly(s: State, dir: string, random: Salt)
    requires Inv(s) && Agrees(s, dir) && Distinct(s.stored + [Encode(random)])
    ensures (forall steps | Distinct(Run(s, steps).stored) :: Agrees(Run(s, steps), dir)) <==> !SomeoneLooked(s)
  {
    if SomeoneLooked(s) {
      var d :| d in s.phases && s.phases[d].Looked?;
      var steps := [Keep(d, random)];
      assert steps[1..] == [] && Run(s, steps) == Next(s, Keep(d, random));
      StillAgreesExactly(s, steps, dir);
      assert Distinct(Run(s, steps).stored) && !Agrees(Run(s, steps), dir);
    } else {
      forall steps | Distinct(Run(s, steps).stored) ensures Agrees(Run(s, steps), dir) {
        NobodyStores(s, steps);
        StillAgreesExactly(s, steps, dir);
      }
    }
  }

  // ── What the steps are, and what a race costs ────────────────────────

  /** The entry of this machine, when it is text or absent. */
  predicate ShownBy(s: State, w: World)
  {
    HeldSecret(w, PASSPHRASE_ACCOUNT) == if Entry(s).None? then None else Some(Utf8(Entry(s).value))
  }

  /** Left alone, looking and keeping are the passphrase stage of a start. */
  lemma StepsAreTheStage(s: State, w: World, dir: string, random: Salt)
    requires ShownBy(s, w) && dir !in s.phases
    ensures var s' := Run(s, [Look(dir), Keep(dir, random)]);
            var (m, r) := EnsurePassphrase(Healthy(w), random);
            && ShownBy(s', m.world) && Agrees(s', dir) && r == Ok(s'.phases[dir].pass)
  {
    var look, keep := Look(dir), Keep(dir, random);
    assert [look, keep][1..] == [keep] && [keep][1..] == [];
    assert Run(s, [look, keep]) == Run(Next(s, look), [keep]) == Next(Next(s, look), keep);
  }

  /** An instance whose vault is sealed under its passphrase is blocked as soon as it no
      longer agrees with the keychain. */
  lemma DisagreementBlocks(s: State, w: World, dir: string, name: string, d: Draws)
    requires ShownBy(s, w) && s.stored != [] && dir in s.phases && s.phases[dir].Has?
    requires Contents(w).Holds? && Contents(w).pass == s.phases[dir].pass && IdentityReady(At(w, name))
    ensures Blocked(w, name) <==> !Agrees(s, dir)
  {
    HeldDecides(w, name, Entry(s).value, d);
  }
}
