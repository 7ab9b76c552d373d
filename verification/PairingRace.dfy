/** Pairing, verification and revocation interleaved at the granularity of single
    accesses to the token table and to the vault, by any number of handlers. */
module PairingRace {
  import opened Wrappers
  import opened Hex
  import opened Pairing
  import opened Devices
  import Auth = AuthServiceCore

  /** One successful `consume`: the token that paid, and when. */
  datatype Grant = Grant(token: string, pubkey: string, deviceLabel: string, at: int, expiresAt: int)

  /** Where a handler stands. `Granted` has consumed its token; `Cleared` has also found
      no such device; `Touching` holds a device read for the update of `last_seen_at`. */
  datatype Phase = Granted(g: nat) | Cleared(g: nat) | Touching(device: PairedDevice)

  /** `issued`, `grants` and `stores` are the history: tokens ever created with their
      expiry, successful consumptions in order, and the grants that became a device. */
  datatype State = State(now: int, tokens: Tokens, devices: map<string, PairedDevice>, handlers: map<nat, Phase>,
                         issued: Tokens, grants: seq<Grant>, stores: seq<nat>)

  datatype Step =
    | Advance(now: int)
    | Issue(token: string, ttl: nat)
    | Consume(h: nat, token: string, pubkey: string, deviceLabel: string)
    | CheckAbsent(h: nat)
    | StoreDevice(h: nat)
    | ReadDevice(h: nat, pubkey: string)
    | WriteBack(h: nat)
    | Revoke(pubkey: string)
    | Abandon(h: nat)
    | Restart

  const INITIAL := State(0, map[], map[], map[], map[], [], [])

  /** One atomic access. A step that does not apply changes nothing; tokens drawn at
      random are new. */
  function Next(s: State, step: Step): State
  {
    match step
    case Advance(now) => s.(now := now)
    case Issue(token, ttl) =>
      if token in s.issued then s
      else
        var expiry := ExpiryOf(ttl, s.now);
        s.(tokens := Live(s.tokens, s.now)[token := expiry], issued := s.issued[token := expiry])
    case Consume(h, token, pubkey, deviceLabel) =>
      if h in s.handlers then s
      else if token in s.tokens && s.tokens[token] > s.now then
        s.(tokens := Live(s.tokens, s.now) - {token},
           grants := s.grants + [Grant(token, pubkey, deviceLabel, s.now, s.tokens[token])],
           handlers := s.handlers[h := Granted(|s.grants|)])
      else s.(tokens := Live(s.tokens, s.now))
    case CheckAbsent(h) =>
      if h in s.handlers && s.handlers[h].Granted? && s.handlers[h].g < |s.grants| then
        if s.grants[s.handlers[h].g].pubkey in s.devices then s.(handlers := s.handlers - {h})
        else s.(handlers := s.handlers[h := Cleared(s.handlers[h].g)])
      else s
    case StoreDevice(h) =>
      if h in s.handlers && s.handlers[h].Cleared? && s.handlers[h].g < |s.grants| then
        var g := s.grants[s.handlers[h].g];
        s.(devices := s.devices[g.pubkey := PairedDevice(g.pubkey, g.deviceLabel, s.now, s.now)],
           stores := s.stores + [s.handlers[h].g],
           handlers := s.handlers - {h})
      else s
    case ReadDevice(h, pubkey) =>
      if h !in s.handlers && pubkey in s.devices then s.(handlers := s.handlers[h := Touching(s.devices[pubkey])])
      else s
    case WriteBack(h) =>
      if h in s.handlers && s.handlers[h].Touching? then
        var d := s.handlers[h].device;
        s.(devices := s.devices[d.pubkeyHex := d.(lastSeenAt := s.now)], handlers := s.handlers - {h})
      else s
    case Revoke(pubkey) => s.(devices := s.devices - {pubkey})
    case Abandon(h) => s.(handlers := s.handlers - {h})
    case Restart => s.(tokens := map[], handlers := map[])
  }

  function Run(s: State, steps: seq<Step>): State
    decreases |steps|
  {
    if steps == [] then s else Run(Next(s, steps[0]), steps[1..])
  }

  lemma RunOfOne(s: State, step: Step)
    ensures Run(s, [step]) == Next(s, step)
  {
    assert [step][1..] == [];
  }

  lemma RunOfTwo(s: State, first: Step, second: Step)
    ensures Run(s, [first, second]) == Next(Next(s, first), second)
  {
    assert [first, second][1..] == [second];
    RunOfOne(Next(s, first), second);
  }

  lemma RunOfThree(s: State, first: Step, second: Step, third: Step)
    ensures Run(s, [first, second, third]) == Next(Next(Next(s, first), second), third)
  {
    assert [first, second, third][1..] == [second, third];
    RunOfTwo(Next(s, first), second, third);
  }

  // ── Left alone, the steps are the calls ──────────────────────────────

  /** This key is on record in both or in neither, with the same device. */
  predicate FiledAlike(devices: map<string, PairedDevice>, entries: AuthEntries, pubkey: string)
  {
    if pubkey in devices then DeviceKey(pubkey) in entries && entries[DeviceKey(pubkey)] == DeviceJson(devices[pubkey])
    else DeviceKey(pubkey) !in entries
  }

  ghost predicate Filed(devices: map<string, PairedDevice>, entries: AuthEntries)
  {
    forall p :: FiledAlike(devices, entries, p)
  }

  lemma FiledUpdate(devices: map<string, PairedDevice>, entries: AuthEntries, pubkey: string, d: PairedDevice)
    requires Filed(devices, entries)
    ensures Filed(devices[pubkey := d], entries[DeviceKey(pubkey) := DeviceJson(d)])
  {
    var devices', entries' := devices[pubkey := d], entries[DeviceKey(pubkey) := DeviceJson(d)];
    forall p ensures FiledAlike(devices', entries', p) {
      DeviceKeyInjective(p, pubkey);
      assert FiledAlike(devices, entries, p);
    }
  }

  lemma FiledRemove(devices: map<string, PairedDevice>, entries: AuthEntries, pubkey: string)
    requires Filed(devices, entries)
    ensures Filed(devices - {pubkey}, entries - {DeviceKey(pubkey)})
  {
    var devices', entries' := devices - {pubkey}, entries - {DeviceKey(pubkey)};
    forall p ensures FiledAlike(devices', entries', p) {
      DeviceKeyInjective(p, pubkey);
      assert FiledAlike(devices, entries, p);
    }
  }

  /** The same tokens, and the same devices under their vault keys. */
  ghost predicate Shows(s: State, a: Auth.AuthState)
  {
    s.tokens == a.tokens && Filed(s.devices, a.entries)
  }

  const ALL_WORKS := Reach(true, true, true, true, true)

  lemma IssueIsIssueToken(s: State, a: Auth.AuthState, ttl: nat, random: Random)
    requires Shows(s, a) && Encode(random) !in s.issued
    ensures Shows(Next(s, Issue(Encode(random), ttl)), Auth.IssueToken(a, Some(ttl), random, s.now).0)
  {
  }

  /** Checking and storing, once the token is consumed, is adding the device. */
  lemma StoringIsAddDevice(s: State, entries: AuthEntries, h: nat)
    requires Filed(s.devices, entries) && h in s.handlers && s.handlers[h].Granted? && s.handlers[h].g < |s.grants|
    ensures var g := s.grants[s.handlers[h].g];
            var s' := Next(Next(s, CheckAbsent(h)), StoreDevice(h));
            var (entries', out) := AddDevice(entries, g.pubkey, g.deviceLabel, s.now, ALL_WORKS);
            && s'.tokens == s.tokens && Filed(s'.devices, entries') && h !in s'.handlers
            && (out.Ok? <==> |s'.stores| == |s.stores| + 1)
  {
    var g := s.grants[s.handlers[h].g];
    assert FiledAlike(s.devices, entries, g.pubkey);
    FiledUpdate(s.devices, entries, g.pubkey, PairedDevice(g.pubkey, g.deviceLabel, s.now, s.now));
  }

  /** Consuming, checking and storing without interruption is `complete_pairing`: the same
      tokens and devices, and a device stored exactly when the call succeeds. */
  lemma PairingIsCompletePairing(s: State, a: Auth.AuthState, h: nat,
                                 token: string, pubkey: string, deviceLabel: string)
    requires Shows(s, a) && h !in s.handlers
    ensures var s' := Run(s, [Consume(h, token, pubkey, deviceLabel), CheckAbsent(h), StoreDevice(h)]);
            var (a', out) := Auth.CompletePairing(a, token, pubkey, deviceLabel, s.now, ALL_WORKS);
            Shows(s', a') && h !in s'.handlers && (out.Ok? <==> |s'.stores| == |s.stores| + 1)
  {
    var consume := Consume(h, token, pubkey, deviceLabel);
    RunOfThree(s, consume, CheckAbsent(h), StoreDevice(h));
    var s1 := Next(s, consume);
    if token in s.tokens && s.tokens[token] > s.now {
      StoringIsAddDevice(s1, a.entries, h);
    } else {
      assert s1.tokens == s1.tokens - {token};
    }
  }

  /** Reading and writing back without interruption is the refresh of `last_seen_at`. */
  lemma TouchingIsTouchLastSeen(s: State, a: Auth.AuthState, h: nat, pubkey: string)
    requires Shows(s, a) && h !in s.handlers && (pubkey in s.devices ==> s.devices[pubkey].pubkeyHex == pubkey)
    ensures var s' := Run(s, [ReadDevice(h, pubkey), WriteBack(h)]);
            Shows(s', a.(entries := TouchLastSeen(a.entries, pubkey, s.now, ALL_WORKS)))
  {
    RunOfTwo(s, ReadDevice(h, pubkey), WriteBack(h));
    assert FiledAlike(s.devices, a.entries, pubkey);
    if pubkey in s.devices {
      FiledUpdate(s.devices, a.entries, pubkey, s.devices[pubkey].(lastSeenAt := s.now));
    }
  }

  lemma RevokeIsRevokeDevice(s: State, a: Auth.AuthState, pubkey: string)
    requires Shows(s, a)
    ensures Shows(Next(s, Revoke(pubkey)), Auth.RevokeDevice(a, pubkey, ALL_WORKS).0)
  {
    FiledRemove(s.devices, a.entries, pubkey);
  }

  /** A restart is a new service on the same store: the tokens and the handlers are gone. */
  lemma RestartIsANewService(s: State, a: Auth.AuthState)
    requires Shows(s, a)
    ensures Shows(Next(s, Restart), Auth.AuthState(map[], a.entries)) && Next(s, Restart).handlers == map[]
  {
  }

  // ── Every device was paid for ────────────────────────────────────────

  /** Some stored grant introduced this key. */
  predicate Funded(s: State, pubkey: string)
  {
    exists i | 0 <= i < |s.stores| :: s.stores[i] < |s.grants| && s.grants[s.stores[i]].pubkey == pubkey
  }

  /** A grant consumed a token that had been issued, before it expired. */
  predicate Paid(s: State, g: Grant)
  {
    g.token in s.issued && s.issued[g.token] == g.expiresAt && g.at < g.expiresAt
  }

  /** The table holds issued tokens only, and none that was consumed; no token pays twice. */
  ghost predicate TokensOk(s: State)
  {
    && (forall t | t in s.tokens :: t in s.issued && s.issued[t] == s.tokens[t])
    && (forall i | 0 <= i < |s.grants| :: Paid(s, s.grants[i]) && s.grants[i].token !in s.tokens)
    && (forall i, j | 0 <= i < j < |s.grants| :: s.grants[i].token != s.grants[j].token)
  }

  predicate Pending(s: State, h: nat) { h in s.handlers && !s.handlers[h].Touching? }

  /** No grant is stored twice; a handler in the middle of a pairing owns a grant of its own, not stored yet. */
  ghost predicate GrantsOk(s: State)
  {
    && (forall i | 0 <= i < |s.stores| :: s.stores[i] < |s.grants|)
    && (forall i, j | 0 <= i < j < |s.stores| :: s.stores[i] != s.stores[j])
    && (forall h | Pending(s, h) :: s.handlers[h].g < |s.grants| && s.handlers[h].g !in s.stores)
    && (forall h, k | Pending(s, h) && Pending(s, k) && h != k :: s.handlers[h].g != s.handlers[k].g)
  }

  /** Devices, on record or in a handler's hand, were introduced by a stored grant. */
  ghost predicate DevicesOk(s: State)
  {
    && (forall p | p in s.devices :: Funded(s, p) && s.devices[p].pubkeyHex == p)
    && (forall h | h in s.handlers && s.handlers[h].Touching? :: Funded(s, s.handlers[h].device.pubkeyHex))
  }

  ghost predicate Inv(s: State) { TokensOk(s) && GrantsOk(s) && DevicesOk(s) }

  lemma FundedGrows(s: State, s': State, pubkey: string)
    requires Funded(s, pubkey) && s.grants <= s'.grants && s.stores <= s'.stores
    ensures Funded(s', pubkey)
  {
    var i :| 0 <= i < |s.stores| && s.stores[i] < |s.grants| && s.grants[s.stores[i]].pubkey == pubkey;
    assert s'.stores[i] == s.stores[i] && s'.grants[s.stores[i]] == s.grants[s.stores[i]];
  }

  lemma StepKeepsTokens(s: State, step: Step)
    requires TokensOk(s)
    ensures TokensOk(Next(s, step))
  {
  }

  lemma ConsumeKeepsGrants(s: State, step: Step)
    requires GrantsOk(s) && step.Consume?
    ensures GrantsOk(Next(s, step))
  {
    var s' := Next(s, step);
    assert forall h | Pending(s', h) && h != step.h :: Pending(s, h) && s'.handlers[h] == s.handlers[h];
  }

  lemma StoreKeepsGrants(s: State, step: Step)
    requires GrantsOk(s) && step.StoreDevice?
    ensures GrantsOk(Next(s, step))
  {
    var s' := Next(s, step);
    if s' != s {
      assert Pending(s, step.h);
      assert forall h | Pending(s', h) :: Pending(s, h) && h != step.h && s'.handlers[h] == s.handlers[h];
    }
  }

  function GrantOf(s: State, h: nat): nat
  {
    if Pending(s, h) then s.handlers[h].g else 0
  }

  /** Steps that neither consume nor store leave the histories alone and only let go of handlers. */
  lemma QuietKeepsGrants(s: State, s': State)
    requires GrantsOk(s) && s'.grants == s.grants && s'.stores == s.stores
    requires forall h | Pending(s', h) :: Pending(s, h) && GrantOf(s', h) == GrantOf(s, h)
    ensures GrantsOk(s')
  {
    assert forall h | Pending(s, h) :: s.handlers[h].g == GrantOf(s, h);
    assert forall h | Pending(s', h) :: s'.handlers[h].g == GrantOf(s', h);
  }

  lemma StepKeepsGrants(s: State, step: Step)
    requires GrantsOk(s)
    ensures GrantsOk(Next(s, step))
  {
    match step
    case Consume(_, _, _, _) => ConsumeKeepsGrants(s, step);
    case StoreDevice(_) => StoreKeepsGrants(s, step);
    case _ =>
      QuietKeepsGrants(s, Next(s, step));
  }

  lemma StoreKeepsDevices(s: State, step: Step)
    requires DevicesOk(s) && GrantsOk(s) && step.StoreDevice?
    ensures DevicesOk(Next(s, step))
  {
    var s' := Next(s, step);
    if s' != s {
      var g := s.handlers[step.h].g;
      assert s'.stores[|s.stores|] == g;
      assert Funded(s', s.grants[g].pubkey);
      forall p | Funded(s, p) ensures Funded(s', p) { FundedGrows(s, s', p); }
    }
  }

  /** Steps that introduce no device and hand none out. */
  lemma QuietKeepsDevices(s: State, s': State)
    requires DevicesOk(s) && s.grants <= s'.grants && s.stores == s'.stores
    requires forall p | p in s'.devices :: p in s.devices && s'.devices[p] == s.devices[p]
    requires forall h | h in s'.handlers && s'.handlers[h].Touching? ::
               h in s.handlers && s'.handlers[h] == s.handlers[h]
    ensures DevicesOk(s')
  {
    forall p | Funded(s, p) ensures Funded(s', p) { FundedGrows(s, s', p); }
  }

  lemma TouchKeepsDevices(s: State, step: Step)
    requires DevicesOk(s) && (step.ReadDevice? || step.WriteBack?)
    ensures DevicesOk(Next(s, step))
  {
    forall p | Funded(s, p) ensures Funded(Next(s, step), p) { FundedGrows(s, Next(s, step), p); }
  }

  lemma PairingKeepsDevices(s: State, step: Step)
    requires DevicesOk(s) && (step.Consume? || step.CheckAbsent?)
    ensures DevicesOk(Next(s, step))
  {
    QuietKeepsDevices(s, Next(s, step));
  }

  lemma OtherKeepsDevices(s: State, step: Step)
    requires DevicesOk(s) && (step.Advance? || step.Issue? || step.Revoke? || step.Abandon? || step.Restart?)
    ensures DevicesOk(Next(s, step))
  {
    QuietKeepsDevices(s, Next(s, step));
  }

  lemma StepKeepsDevices(s: State, step: Step)
    requires DevicesOk(s) && GrantsOk(s)
    ensures DevicesOk(Next(s, step))
  {
    match step
    case StoreDevice(_) => StoreKeepsDevices(s, step);
    case ReadDevice(_, _) => TouchKeepsDevices(s, step);
    case WriteBack(_) => TouchKeepsDevices(s, step);
    case Consume(_, _, _, _) => PairingKeepsDevices(s, step);
    case CheckAbsent(_) => PairingKeepsDevices(s, step);
    case _ => OtherKeepsDevices(s, step);
  }

  lemma {:induction false} RunKeepsInv(s: State, steps: seq<Step>)
    requires Inv(s)
    ensures Inv(Run(s, steps))
    decreases |steps|
  {
    if steps != [] {
      StepKeepsTokens(s, steps[0]);
      StepKeepsGrants(s, steps[0]);
      StepKeepsDevices(s, steps[0]);
      RunKeepsInv(Next(s, steps[0]), steps[1..]);
    }
  }

  /** Distinct elements of a set are no more numerous than the set. */
  lemma {:induction false} DistinctFit<T>(xs: seq<T>, all: set<T>)
    requires forall i | 0 <= i < |xs| :: xs[i] in all
    requires forall i, j | 0 <= i < j < |xs| :: xs[i] != xs[j]
    ensures |xs| <= |all|
  {
    if xs != [] {
      var last := xs[|xs| - 1];
      DistinctFit(xs[..|xs| - 1], all - {last});
    }
  }

  function Below(n: nat): (r: set<nat>)
    ensures |r| == n && forall i: nat :: i in r <==> i < n
  {
    if n == 0 then {} else Below(n - 1) + {n - 1}
  }

  lemma StoresAreFewer(s: State)
    requires GrantsOk(s)
    ensures |s.stores| <= |s.grants|
  {
    DistinctFit(s.stores, Below(|s.grants|));
  }

  lemma GrantsAreFewer(s: State)
    requires TokensOk(s)
    ensures |s.grants| <= |s.issued|
  {
    var paid := seq(|s.grants|, i requires 0 <= i < |s.grants| => s.grants[i].token);
    assert forall i | 0 <= i < |paid| :: Paid(s, s.grants[i]) && paid[i] in s.issued.Keys;
    DistinctFit(paid, s.issued.Keys);
  }

  /** In any interleaving: every key ever stored was introduced by a pairing of its own
      that consumed an issued token before it expired, and no token paid for two. */
  lemma EveryDeviceWasPaidFor(steps: seq<Step>)
    ensures var s := Run(INITIAL, steps);
            && (forall p | p in s.devices :: exists i | 0 <= i < |s.stores| ::
                  s.stores[i] < |s.grants| && s.grants[s.stores[i]].pubkey == p && Paid(s, s.grants[s.stores[i]]))
            && (forall i, j | 0 <= i < j < |s.stores| :: s.stores[i] < |s.grants| && s.stores[j] < |s.grants|
                  && s.grants[s.stores[i]].token != s.grants[s.stores[j]].token)
            && |s.stores| <= |s.grants| <= |s.issued|
  {
    RunKeepsInv(INITIAL, steps);
    var s := Run(INITIAL, steps);
    StoresAreFewer(s);
    GrantsAreFewer(s);
    forall p | p in s.devices
      ensures exists i | 0 <= i < |s.stores| ::
                s.stores[i] < |s.grants| && s.grants[s.stores[i]].pubkey == p && Paid(s, s.grants[s.stores[i]])
    {
      assert Funded(s, p);
    }
    forall i, j | 0 <= i < j < |s.stores|
      ensures s.stores[i] < |s.grants| && s.stores[j] < |s.grants|
              && s.grants[s.stores[i]].token != s.grants[s.stores[j]].token
    {
      var a, b := s.stores[i], s.stores[j];
      assert a < b || b < a;
    }
  }

  // ── Is revocation final? ─────────────────────────────────────────────

  /** The handler is in the middle of storing or of writing back this key. */
  predicate Concerns(s: State, h: nat, pubkey: string)
  {
    && h in s.handlers
    && match s.handlers[h]
       case Touching(d) => d.pubkeyHex == pubkey
       case Granted(g) => g < |s.grants| && s.grants[g].pubkey == pubkey
       case Cleared(g) => g < |s.grants| && s.grants[g].pubkey == pubkey
  }

  predicate InFlight(s: State, pubkey: string)
  {
    exists h | h in s.handlers :: Concerns(s, h, pubkey)
  }

  predicate PairsAgain(steps: seq<Step>, pubkey: string)
  {
    exists i | 0 <= i < |steps| :: steps[i].Consume? && steps[i].pubkey == pubkey
  }

  lemma UnconcernedNext(s: State, step: Step, h: nat, pubkey: string)
    requires GrantsOk(s) && pubkey !in s.devices && !Concerns(s, h, pubkey)
    requires step.Consume? ==> step.pubkey != pubkey
    requires step.ReadDevice? && step.pubkey in s.devices ==> s.devices[step.pubkey].pubkeyHex == step.pubkey
    ensures !Concerns(Next(s, step), h, pubkey)
  {
    assert Pending(s, h) ==> s.handlers[h].g < |s.grants|;
    if step.Consume? {
      assert forall g | 0 <= g < |s.grants| :: Next(s, step).grants[g] == s.grants[g];
    }
  }

  lemma GoneNext(s: State, step: Step, pubkey: string)
    requires Inv(s) && pubkey !in s.devices && !InFlight(s, pubkey)
    requires step.Consume? ==> step.pubkey != pubkey
    ensures pubkey !in Next(s, step).devices && !InFlight(Next(s, step), pubkey)
  {
    var s' := Next(s, step);
    if step.WriteBack? || step.StoreDevice? {
      assert step.h in s.handlers ==> !Concerns(s, step.h, pubkey);
    }
    forall h | h in s'.handlers ensures !Concerns(s', h, pubkey) {
      assert h in s.handlers ==> !Concerns(s, h, pubkey);
      UnconcernedNext(s, step, h, pubkey);
    }
  }

  lemma {:induction false} GoneStaysGone(s: State, steps: seq<Step>, pubkey: string)
    requires Inv(s) && pubkey !in s.devices && !InFlight(s, pubkey) && !PairsAgain(steps, pubkey)
    ensures pubkey !in Run(s, steps).devices
    decreases |steps|
  {
    if steps != [] {
      StepKeepsTokens(s, steps[0]);
      StepKeepsGrants(s, steps[0]);
      StepKeepsDevices(s, steps[0]);
      GoneNext(s, steps[0], pubkey);
      assert forall i | 0 <= i < |steps[1..]| :: steps[1..][i] == steps[i + 1];
      GoneStaysGone(Next(s, steps[0]), steps[1..], pubkey);
    }
  }

  /** The continuation that brings the key back: let the handler finish. */
  lemma BringBack(s: State, pubkey: string) returns (steps: seq<Step>)
    requires Inv(s) && pubkey !in s.devices && InFlight(s, pubkey)
    ensures !PairsAgain(steps, pubkey) && pubkey in Run(s, steps).devices
  {
    var h :| h in s.handlers && Concerns(s, h, pubkey);
    match s.handlers[h]
    case Touching(d) =>
      steps := [WriteBack(h)];
      RunOfOne(s, WriteBack(h));
    case Cleared(g) =>
      steps := [StoreDevice(h)];
      RunOfOne(s, StoreDevice(h));
    case Granted(g) =>
      steps := [CheckAbsent(h), StoreDevice(h)];
      RunOfTwo(s, CheckAbsent(h), StoreDevice(h));
  }

  /** A revoked device stays revoked, until it is paired again, exactly when no handler
      was in the middle of storing it or of refreshing its `last_seen_at`: the refresh
      reads and writes in two steps, and its write brings a revoked device back. */
  lemma RevocationIsFinalExactly(s: State, pubkey: string)
    requires Inv(s)
    ensures var revoked := Next(s, Revoke(pubkey));
            (forall steps | !PairsAgain(steps, pubkey) :: pubkey !in Run(revoked, steps).devices)
            <==> !InFlight(s, pubkey)
  {
    var revoked := Next(s, Revoke(pubkey));
    assert InFlight(revoked, pubkey) <==> InFlight(s, pubkey);
    StepKeepsTokens(s, Revoke(pubkey));
    StepKeepsGrants(s, Revoke(pubkey));
    StepKeepsDevices(s, Revoke(pubkey));
    if InFlight(s, pubkey) {
      var steps := BringBack(revoked, pubkey);
    } else {
      forall steps | !PairsAgain(steps, pubkey) ensures pubkey !in Run(revoked, steps).devices {
        GoneStaysGone(revoked, steps, pubkey);
      }
    }
  }
}
