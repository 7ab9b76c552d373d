/** The authentication facade, each call taken as one step, and what its replies mean
    over any history of calls. */
module AuthServiceCore {
  import opened Wrappers
  import opened Hex
  import opened Session
  import opened Devices
  import opened Pairing

  datatype AuthState = AuthState(tokens: Tokens, entries: AuthEntries)

  // ── As functions of the state ────────────────────────────────────────

  function IssueToken(s: AuthState, ttl: Option<nat>, random: Random, now: int): (AuthState, PairingToken)
  {
    var t := PairingToken(Encode(random), ExpiryOf(if ttl.Some? then ttl.value else DEFAULT_PAIRING_TTL, now));
    (s.(tokens := Live(s.tokens, now)[t.token := t.expiresAt]), t)
  }

  function CompletePairing(s: AuthState, token: string, pubkeyHex: string, deviceLabel: string, now: int, r: Reach)
    : (AuthState, Result<PairedDevice, AuthError>)
  {
    var tokens := Live(s.tokens, now) - {token};
    if !(token in s.tokens && s.tokens[token] > now) then (s.(tokens := tokens), Err(InvalidPairingToken))
    else
      var (entries, out) := AddDevice(s.entries, pubkeyHex, deviceLabel, now, r);
      (AuthState(tokens, entries), out)
  }

  function VerifyRequest(s: AuthState, h: SignatureHeader, body: seq<byte>, now: int, scheme: Scheme, r: Reach)
    : (AuthState, Result<PairedDevice, AuthError>)
  {
    match GetDevice(s.entries, h.pubkeyHex, r.get)
    case Err(e) => (s, Err(e))
    case Ok(None) => (s, Err(DeviceNotPaired))
    case Ok(Some(device)) =>
      match VerifySignature(h, body, now, scheme)
      case Err(e) => (s, Err(e))
      case Ok(_) => (s.(entries := TouchLastSeen(s.entries, h.pubkeyHex, now, r)), Ok(device))
  }

  function RevokeDevice(s: AuthState, pubkeyHex: string, r: Reach): (AuthState, Result<(), AuthError>)
  {
    if r.delete then (s.(entries := s.entries - {DeviceKey(pubkeyHex)}), Ok(())) else (s, Err(Vault))
  }

  // ── In place ─────────────────────────────────────────────────────────

  class AuthService {
    const tokens: PairingTokenStore
    const store: DeviceStore

    constructor (store: DeviceStore)
      ensures this.store == store && fresh(tokens) && tokens.tokens == map[]
    {
      this.store := store;
      tokens := new PairingTokenStore();
    }

    function Value(): AuthState
      reads tokens, store
    {
      AuthState(tokens.tokens, store.entries)
    }

    method CreatePairingToken(ttl: Option<nat>, random: Random, now: int) returns (t: PairingToken)
      modifies tokens
      ensures (Value(), t) == IssueToken(old(Value()), ttl, random, now)
    {
      t := tokens.Create(if ttl.Some? then ttl.value else DEFAULT_PAIRING_TTL, random, now, now);
    }

    method Complete(token: string, pubkeyHex: string, deviceLabel: string, now: int, r: Reach)
      returns (out: Result<PairedDevice, AuthError>)
      modifies tokens, store
      ensures (Value(), out) == CompletePairing(old(Value()), token, pubkeyHex, deviceLabel, now, r)
    {
      var consumed := tokens.Consume(token, now);
      if consumed.Err? {
        return Err(consumed.error);
      }
      out := store.Add(pubkeyHex, deviceLabel, now, r);
    }

    method Verify(h: SignatureHeader, body: seq<byte>, now: int, scheme: Scheme, r: Reach)
      returns (out: Result<PairedDevice, AuthError>)
      modifies store
      ensures (Value(), out) == VerifyRequest(old(Value()), h, body, now, scheme, r)
    {
      var got := GetDevice(store.entries, h.pubkeyHex, r.get);
      if got.Err? {
        return Err(got.error);
      }
      if got.value.None? {
        return Err(DeviceNotPaired);
      }
      var checked := VerifySignature(h, body, now, scheme);
      if checked.Err? {
        return Err(checked.error);
      }
      store.Touch(h.pubkeyHex, now, r);
      return Ok(got.value.value);
    }

    method Revoke(pubkeyHex: string, r: Reach) returns (out: Result<(), AuthError>)
      modifies store
      ensures (Value(), out) == RevokeDevice(old(Value()), pubkeyHex, r)
    {
      out := store.Remove(pubkeyHex, r.delete);
    }

    method ListDevices(canList: bool, readable: string -> bool) returns (out: Result<seq<PairedDevice>, AuthError>)
      requires WellKeyed(store.entries)
      ensures out.Ok? <==> canList && forall k | k in store.entries :: Legible(store.entries, k, readable)
      ensures out.Ok? ==> Ordered(out.value) && (forall d :: d in out.value <==> Recorded(store.entries, d))
    {
      out := store.List(canList, readable);
    }
  }

  // ── Histories ────────────────────────────────────────────────────────

  datatype Call =
    | Issue(ttl: Option<nat>, random: Random)
    | Pair(token: string, pubkeyHex: string, deviceLabel: string)
    | Verify(header: SignatureHeader, body: seq<byte>)
    | Revoke(pubkeyHex: string)

  datatype Event = Event(call: Call, now: int, reach: Reach)

  /** An event with whether the call succeeded. */
  type Log = seq<(Event, bool)>

  function Step(s: AuthState, e: Event, scheme: Scheme): (AuthState, bool)
  {
    match e.call
    case Issue(ttl, random) => (IssueToken(s, ttl, random, e.now).0, true)
    case Pair(token, pubkeyHex, deviceLabel) =>
      var (s', out) := CompletePairing(s, token, pubkeyHex, deviceLabel, e.now, e.reach);
      (s', out.Ok?)
    case Verify(header, body) =>
      var (s', out) := VerifyRequest(s, header, body, e.now, scheme, e.reach);
      (s', out.Ok?)
    case Revoke(pubkeyHex) =>
      var (s', out) := RevokeDevice(s, pubkeyHex, e.reach);
      (s', out.Ok?)
  }

  const EMPTY := AuthState(map[], map[])

  function History(events: seq<Event>, scheme: Scheme): (AuthState, Log)
  {
    if events == [] then (EMPTY, [])
    else
      var (s, log) := History(events[..|events| - 1], scheme);
      var last := events[|events| - 1];
      var (s', ok) := Step(s, last, scheme);
      (s', log + [(last, ok)])
  }

  predicate PairedAt(log: Log, i: nat, pubkeyHex: string)
  {
    i < |log| && log[i].1 && log[i].0.call.Pair? && log[i].0.call.pubkeyHex == pubkeyHex
  }

  predicate RevokedAt(log: Log, i: nat, pubkeyHex: string)
  {
    i < |log| && log[i].1 && log[i].0.call.Revoke? && log[i].0.call.pubkeyHex == pubkeyHex
  }

  /** A successful pairing of this key with no successful revocation of it since. */
  predicate PairedSince(log: Log, pubkeyHex: string)
  {
    exists i | 0 <= i < |log| ::
      PairedAt(log, i, pubkeyHex) && forall j | i < j < |log| :: !RevokedAt(log, j, pubkeyHex)
  }

  /** Every clock reading is at least as late as the one before it. */
  predicate NonDecreasing(events: seq<Event>)
  {
    forall i, j | 0 <= i < j < |events| :: events[i].now <= events[j].now
  }

  predicate Sane(s: AuthState)
  {
    && (forall k | k in s.entries :: s.entries[k].DeviceJson?)
    && WellKeyed(s.entries)
  }

  lemma {:induction false} HistoryIsSane(events: seq<Event>, scheme: Scheme)
    ensures Sane(History(events, scheme).0) && |History(events, scheme).1| == |events|
  {
    if events != [] {
      HistoryIsSane(events[..|events| - 1], scheme);
    }
  }

  lemma PairedSinceGrows(log: Log, last: (Event, bool), pubkeyHex: string)
    ensures PairedSince(log + [last], pubkeyHex) <==>
            || PairedAt(log + [last], |log|, pubkeyHex)
            || (PairedSince(log, pubkeyHex) && !RevokedAt(log + [last], |log|, pubkeyHex))
  {
    var log' := log + [last];
    assert forall i: nat | i < |log| :: log'[i] == log[i];
    assert forall i: nat | i < |log| :: PairedAt(log', i, pubkeyHex) <==> PairedAt(log, i, pubkeyHex);
    assert forall i: nat | i < |log| :: RevokedAt(log', i, pubkeyHex) <==> RevokedAt(log, i, pubkeyHex);
    if PairedSince(log, pubkeyHex) && !RevokedAt(log', |log|, pubkeyHex) {
      var i :|
        && 0 <= i < |log| && PairedAt(log, i, pubkeyHex)
        && forall j | i < j < |log| :: !RevokedAt(log, j, pubkeyHex);
      assert PairedAt(log', i, pubkeyHex);
      assert forall j | i < j < |log'| :: !RevokedAt(log', j, pubkeyHex);
    }
  }

  /** A device is on record exactly when it was paired and not revoked since. */
  lemma {:induction false} OnRecordExactly(events: seq<Event>, scheme: Scheme, pubkeyHex: string)
    ensures var (s, log) := History(events, scheme);
            DeviceKey(pubkeyHex) in s.entries <==> PairedSince(log, pubkeyHex)
  {
    if events != [] {
      var front, last := events[..|events| - 1], events[|events| - 1];
      OnRecordExactly(front, scheme, pubkeyHex);
      HistoryIsSane(front, scheme);
      var (s, log) := History(front, scheme);
      PairedSinceGrows(log, (last, Step(s, last, scheme).1), pubkeyHex);
      match last.call
      case Pair(_, p, _) => DeviceKeyInjective(p, pubkeyHex);
      case Revoke(p) => DeviceKeyInjective(p, pubkeyHex);
      case _ =>
    }
  }

  /** After any history a request is accepted exactly when its device was paired and not
      revoked since, its timestamp is in the window, its signature verifies, and the
      vault could be read; and the reply is the device on record. */
  lemma AcceptedExactly(events: seq<Event>, scheme: Scheme, h: SignatureHeader, body: seq<byte>, now: int, r: Reach)
    ensures var (s, log) := History(events, scheme);
            var (_, out) := VerifyRequest(s, h, body, now, scheme, r);
            && (out.Ok? <==>
                  && PairedSince(log, h.pubkeyHex) && r.get && InWindow(now, h.timestamp)
                  && scheme.accepts(h.pubkeyHex, CanonicalMessage(h.pubkeyHex, h.timestamp, body, scheme),
                                    h.signatureHex))
            && (r.get && !PairedSince(log, h.pubkeyHex) ==> out == Err(DeviceNotPaired))
            && (out.Ok? ==> Recorded(s.entries, out.value) && out.value.pubkeyHex == h.pubkeyHex)
  {
    OnRecordExactly(events, scheme, h.pubkeyHex);
    HistoryIsSane(events, scheme);
    if DeviceKey(h.pubkeyHex) in History(events, scheme).0.entries {
      DeviceKeyInjective(History(events, scheme).0.entries[DeviceKey(h.pubkeyHex)].device.pubkeyHex, h.pubkeyHex);
    }
  }

  /** Verifying changes at most the `last_seen_at` of the device that signed, and only when it accepts. */
  lemma VerifyTouchesOnlyLastSeen(s: AuthState, h: SignatureHeader, body: seq<byte>, now: int,
                                  scheme: Scheme, r: Reach, k: string)
    requires Sane(s)
    ensures var (s', out) := VerifyRequest(s, h, body, now, scheme, r);
            && s'.tokens == s.tokens && s'.entries.Keys == s.entries.Keys
            && (k in s.entries ==>
                  s'.entries[k] == if out.Ok? && k == DeviceKey(h.pubkeyHex) && r.touchGet && r.touchPut
                                   then DeviceJson(s.entries[k].device.(lastSeenAt := now)) else s.entries[k])
  {
  }

  /** With a clock that never goes back: paired, then last seen, then now. */
  lemma {:induction false} TimesAreOrdered(events: seq<Event>, scheme: Scheme, k: string)
    requires NonDecreasing(events)
    ensures var s := History(events, scheme).0;
            k in s.entries ==>
              && s.entries[k].DeviceJson? && events != []
              && s.entries[k].device.pairedAt <= s.entries[k].device.lastSeenAt <= events[|events| - 1].now
  {
    if events != [] {
      var front := events[..|events| - 1];
      TimesAreOrdered(front, scheme, k);
      HistoryIsSane(events, scheme);
      HistoryIsSane(front, scheme);
      var Event(call, now, r) := events[|events| - 1];
      if call.Verify? {
        VerifyTouchesOnlyLastSeen(History(front, scheme).0, call.header, call.body, now, scheme, r, k);
      }
    }
  }
}
