/** What the authentication calls answer: how long a pairing token lives, which refusal
    is given when, and what a device that was paired or revoked may count on. */
module AuthAnswers {
  import opened Wrappers
  import opened MachineInt
  import opened Hex
  import opened Session
  import opened Devices
  import opened Pairing
  import opened AuthServiceCore

  // ── How long a token lives ───────────────────────────────────────────

  /** The lifetime asked for, in seconds: ten minutes when none is asked for, or one that
      does not fit the clock. */
  function Lifetime(ttl: Option<nat>): nat
  {
    match ttl
    case Some(secs) => if secs < 0x8000_0000_0000_0000 then secs else 600
    case None => 600
  }

  /** A token issued at `t0` is good at `t` exactly before `t0` plus its lifetime, as long as
      that sum fits the clock's type; otherwise it was born 2^64 seconds too early. The
      token is the drawn bytes in hex. */
  lemma TokenLivesExactly(s: AuthState, ttl: Option<nat>, random: Random, t0: int, token: string,
                          pubkeyHex: string, deviceLabel: string, t: int, r: Reach)
    requires IsI64(t0) && token == IssueToken(s, ttl, random, t0).1.token
    ensures var s1 := IssueToken(s, ttl, random, t0).0;
            var out := CompletePairing(s1, token, pubkeyHex, deviceLabel, t, r).1;
            var bound := t0 + Lifetime(ttl);
            && Decode(token) == Some(random)
            && (out != Err(InvalidPairingToken) <==>
                  t < if bound < 0x8000_0000_0000_0000 then bound else bound - 0x1_0000_0000_0000_0000)
  {
    DecodeEncode(random);
  }

  // ── Over any history ─────────────────────────────────────────────────

  /** The event issues this token, good until `x`. */
  predicate Issues(e: Event, token: string, x: int)
  {
    e.call.Issue? && Encode(e.call.random) == token && WrapI64(e.now + Lifetime(e.call.ttl)) == x
  }

  /** The event takes a token good until `x` away: a pairing that presents it, the issue of an
      equal one, or any of the two at a time when it has expired. */
  predicate TakesAway(e: Event, token: string, x: int)
  {
    match e.call
    case Issue(_, random) => Encode(random) == token || x <= e.now
    case Pair(presented, _, _) => presented == token || x <= e.now
    case _ => false
  }

  /** Event `i` issued the token, good until `x`, and no later one took it away. */
  predicate StandsSince(events: seq<Event>, i: nat, token: string, x: int)
  {
    && i < |events| && Issues(events[i], token, x)
    && forall j | i < j < |events| :: !TakesAway(events[j], token, x)
  }

  predicate Stands(events: seq<Event>, token: string, x: int)
  {
    exists i | 0 <= i < |events| :: StandsSince(events, i, token, x)
  }

  lemma StandsGrows(front: seq<Event>, last: Event, token: string, x: int)
    ensures Stands(front + [last], token, x) <==>
            Issues(last, token, x) || (Stands(front, token, x) && !TakesAway(last, token, x))
  {
    var events := front + [last];
    assert forall i: nat | i < |front| :: events[i] == front[i];
    assert forall i: nat | i < |front| ::
        StandsSince(events, i, token, x) <==> StandsSince(front, i, token, x) && !TakesAway(events[|front|], token, x);
    assert StandsSince(events, |front|, token, x) <==> Issues(last, token, x);
  }

  lemma {:induction false} TokensExactly(events: seq<Event>, scheme: Scheme, token: string, x: int)
    ensures var tokens := History(events, scheme).0.tokens;
            token in tokens && tokens[token] == x <==> Stands(events, token, x)
  {
    if events != [] {
      var front, last := events[..|events| - 1], events[|events| - 1];
      assert events == front + [last];
      TokensExactly(front, scheme, token, x);
      StandsGrows(front, last, token, x);
    }
  }

  /** After any history a pairing succeeds exactly when its token was issued, has not been
      presented or collected since and has not expired, its key is not paired already,
      and the vault works; the device is then on record as announced. Either way the
      presented token is gone and so are the expired ones. */
  lemma PairsExactly(events: seq<Event>, scheme: Scheme, token: string, pubkeyHex: string, deviceLabel: string,
                     now: int, r: Reach)
    ensures var (s, log) := History(events, scheme);
            var (s', out) := CompletePairing(s, token, pubkeyHex, deviceLabel, now, r);
            var good := exists x: int :: Stands(events, token, x) && now < x;
            var device := PairedDevice(pubkeyHex, deviceLabel, now, now);
            && (out.Ok? <==> good && !PairedSince(log, pubkeyHex) && r.get && r.put)
            && (out == Err(InvalidPairingToken) <==> !good)
            && (out == Err(DeviceAlreadyPaired) <==> good && PairedSince(log, pubkeyHex) && r.get)
            && (out.Err? ==> out.error in {InvalidPairingToken, DeviceAlreadyPaired, Vault})
            && s'.entries == (if out.Ok? then s.entries["device:" + pubkeyHex := DeviceJson(device)] else s.entries)
            && (out.Ok? ==> out.value == device)
            && s'.tokens.Keys == (set t | t in s.tokens && now < s.tokens[t] && t != token)
            && (forall t | t in s'.tokens :: s'.tokens[t] == s.tokens[t])
  {
    OnRecordExactly(events, scheme, pubkeyHex);
    var tokens := History(events, scheme).0.tokens;
    if token in tokens {
      TokensExactly(events, scheme, token, tokens[token]);
    }
    forall x: int | Stands(events, token, x) ensures token in tokens && tokens[token] == x {
      TokensExactly(events, scheme, token, x);
    }
  }

  // ── Verification ─────────────────────────────────────────────────────

  /** After any history, which refusal a request gets: the device comes first, then the clock,
      then the signature. */
  lemma RefusedExactly(events: seq<Event>, scheme: Scheme, h: SignatureHeader, body: seq<byte>, now: int, r: Reach)
    ensures var (s, log) := History(events, scheme);
            var out := VerifyRequest(s, h, body, now, scheme, r).1;
            var paired := PairedSince(log, h.pubkeyHex);
            var message := CanonicalMessage(h.pubkeyHex, h.timestamp, body, scheme);
            && (out == Err(Vault) <==> !r.get)
            && (out == Err(DeviceNotPaired) <==> r.get && !paired)
            && (out == Err(StaleTimestamp) <==> r.get && paired && !InWindow(now, h.timestamp))
            && (out == Err(BadSignature) <==>
                  && r.get && paired && InWindow(now, h.timestamp)
                  && !scheme.accepts(h.pubkeyHex, message, h.signatureHex))
            && (out.Err? ==> out.error in {Vault, DeviceNotPaired, StaleTimestamp, BadSignature})
  {
    OnRecordExactly(events, scheme, h.pubkeyHex);
    HistoryIsSane(events, scheme);
  }

  /** An entry under the device's key that does not parse is an error of its own, whatever the request. */
  lemma IllegibleIsReported(s: AuthState, h: SignatureHeader, body: seq<byte>, now: int, scheme: Scheme, r: Reach)
    requires r.get && "device:" + h.pubkeyHex in s.entries && s.entries["device:" + h.pubkeyHex].Foreign?
    ensures VerifyRequest(s, h, body, now, scheme, r) == (s, Err(Serde))
  {
  }

  /** A revocation goes through exactly when the vault lets it. From then on the device is
      refused as unknown, whatever it signs, and every other one is served as before. */
  lemma RevokedIsRefused(s: AuthState, pubkeyHex: string, r: Reach, h: SignatureHeader, body: seq<byte>, now: int,
                         scheme: Scheme, r': Reach)
    requires r.delete && r'.get
    ensures var (s', out) := RevokeDevice(s, pubkeyHex, r);
            && out.Ok?
            && VerifyRequest(s', h, body, now, scheme, r').1 ==
               if h.pubkeyHex == pubkeyHex then Err(DeviceNotPaired)
               else VerifyRequest(s, h, body, now, scheme, r').1
  {
    DeviceKeyInjective(h.pubkeyHex, pubkeyHex);
  }

  /** A freshly paired device can sign at once: a request in the window whose signature
      verifies is accepted as that device. */
  lemma PairedIsAccepted(s: AuthState, token: string, deviceLabel: string, t: int, r: Reach,
                         h: SignatureHeader, body: seq<byte>, now: int, scheme: Scheme, r': Reach)
    requires CompletePairing(s, token, h.pubkeyHex, deviceLabel, t, r).1.Ok? && r'.get
    requires IsI64(now - h.timestamp) && -60 <= now - h.timestamp <= 60
    requires scheme.accepts(h.pubkeyHex, CanonicalMessage(h.pubkeyHex, h.timestamp, body, scheme), h.signatureHex)
    ensures var s1 := CompletePairing(s, token, h.pubkeyHex, deviceLabel, t, r).0;
            VerifyRequest(s1, h, body, now, scheme, r').1 == Ok(PairedDevice(h.pubkeyHex, deviceLabel, t, t))
  {
  }
}
