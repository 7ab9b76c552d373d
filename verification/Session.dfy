/** Signed requests: the `Authorization` header, the message it signs, and the checks made on it. */
module Session {
  import opened Wrappers
  import opened MachineInt
  import opened Text
  import opened Hex

  datatype AuthError =
    | InvalidPairingToken | PairingTokenExpired | DeviceNotPaired | StaleTimestamp | BadSignature
    | MalformedHeader | DeviceAlreadyPaired | Vault | Serde

  const AUTH_SCHEME := "InfinitySig "
  const MAX_TIMESTAMP_SKEW_SECS: int := 60
  const PUBKEY_CHARS: nat := 64
  const SIGNATURE_CHARS: nat := 128

  datatype SignatureHeader = SignatureHeader(pubkeyHex: string, timestamp: int, signatureHex: string)

  // ── Header codec ─────────────────────────────────────────────────────

  function Parse(value: string): (r: Result<SignatureHeader, AuthError>)
    ensures r.Err? ==> r.error == MalformedHeader
  {
    match StripPrefix(value, AUTH_SCHEME)
    case None => Err(MalformedHeader)
    case Some(payload) =>
      match SplitOnce(payload, ':')
      case None => Err(MalformedHeader)
      case Some((pubkey, rest)) =>
        match SplitOnce(rest, ':')
        case None => Err(MalformedHeader)
        case Some((number, signature)) =>
          match ParseI64(number)
          case None => Err(MalformedHeader)
          case Some(timestamp) =>
            if |pubkey| != PUBKEY_CHARS || |signature| != SIGNATURE_CHARS then Err(MalformedHeader)
            else Ok(SignatureHeader(pubkey, timestamp, signature))
  }

  function Wire(pubkey: string, number: string, signature: string): string
  {
    AUTH_SCHEME + (pubkey + ":" + (number + ":" + signature))
  }

  function ToHeaderValue(h: SignatureHeader): string
  {
    Wire(h.pubkeyHex, PrintInt(h.timestamp), h.signatureHex)
  }

  predicate WellFormed(h: SignatureHeader)
  {
    && |h.pubkeyHex| == 64 && ':' !in h.pubkeyHex
    && IsI64(h.timestamp)
    && |h.signatureHex| == 128
  }

  /** Parsing a string assembled from its parts. */
  lemma ParseWire(pubkey: string, number: string, signature: string)
    requires ':' !in pubkey && ':' !in number
    ensures Parse(Wire(pubkey, number, signature)) ==
            match ParseI64(number)
            case Some(t) =>
              if |pubkey| == PUBKEY_CHARS && |signature| == SIGNATURE_CHARS
              then Ok(SignatureHeader(pubkey, t, signature)) else Err(MalformedHeader)
            case None => Err(MalformedHeader)
  {
    var payload := pubkey + ":" + (number + ":" + signature);
    assert Wire(pubkey, number, signature)[|AUTH_SCHEME|..] == payload;
    SplitOnceUnique(pubkey, ':', number + ":" + signature);
    SplitOnceUnique(number, ':', signature);
  }

  /** What was parsed was assembled from a key, a number and a signature. */
  lemma ParsedIsAssembled(s: string) returns (number: string)
    requires Parse(s).Ok?
    ensures var h := Parse(s).value;
            && s == Wire(h.pubkeyHex, number, h.signatureHex)
            && ':' !in number && ParseI64(number) == Some(h.timestamp) && WellFormed(h)
  {
    var payload := StripPrefix(s, AUTH_SCHEME).value;
    SplitOnceParts(payload, ':');
    var (pubkey, rest) := SplitOnce(payload, ':').value;
    SplitOnceParts(rest, ':');
    var (n, signature) := SplitOnce(rest, ':').value;
    assert rest == n + ":" + signature && payload == pubkey + ":" + rest;
    number := n;
  }

  /** The strings that parse are exactly the assembled ones, with no colon in the key. */
  lemma ParsesExactly(s: string, h: SignatureHeader)
    ensures Parse(s) == Ok(h) <==>
            exists number: string ::
              && s == Wire(h.pubkeyHex, number, h.signatureHex)
              && ':' !in number && ParseI64(number) == Some(h.timestamp) && WellFormed(h)
  {
    if Parse(s) == Ok(h) {
      var _ := ParsedIsAssembled(s);
    }
    if number: string :|
      && s == Wire(h.pubkeyHex, number, h.signatureHex)
      && ':' !in number && ParseI64(number) == Some(h.timestamp) && WellFormed(h)
    {
      ParseWire(h.pubkeyHex, number, h.signatureHex);
    }
  }

  /** Printing a header and parsing it gives it back exactly for the well-formed ones. */
  lemma ParsePrint(h: SignatureHeader)
    ensures Parse(ToHeaderValue(h)) == Ok(h) <==> WellFormed(h)
  {
    if WellFormed(h) {
      ParsePrintI64(h.timestamp);
      PrintIntHasNo(h.timestamp, ':');
      ParseWire(h.pubkeyHex, PrintInt(h.timestamp), h.signatureHex);
    } else {
      ParsesExactly(ToHeaderValue(h), h);
    }
  }

  /** Whatever spelling was accepted, printing what it meant and parsing again means the same. */
  lemma PrintParse(s: string)
    requires Parse(s).Ok?
    ensures Parse(ToHeaderValue(Parse(s).value)) == Parse(s)
  {
    ParsesExactly(s, Parse(s).value);
    ParsePrint(Parse(s).value);
  }

  // ── The canonical message ────────────────────────────────────────────

  /** The hash of bodies and the verification of a hex signature over a message by a
      hex key, malformed hex included: both are the libraries' business. */
  datatype Scheme = Scheme(digest: seq<byte> -> seq<byte>, accepts: (string, string, string) -> bool)

  function CanonicalMessage(pubkeyHex: string, timestamp: int, body: seq<byte>, scheme: Scheme): string
  {
    pubkeyHex + ":" + (PrintInt(timestamp) + ":" + Encode(scheme.digest(body)))
  }

  lemma EncodeInjective(a: seq<byte>, b: seq<byte>)
    ensures Encode(a) == Encode(b) <==> a == b
  {
    DecodeEncode(a);
    DecodeEncode(b);
  }

  /** Two requests share their canonical message exactly when they agree on the key, the
      timestamp and the hash of the body. */
  lemma CanonicalMessageInjective(pk: string, t: int, body: seq<byte>,
                                  pk': string, t': int, body': seq<byte>, scheme: Scheme)
    requires |pk| == |pk'| == PUBKEY_CHARS && IsI64(t) && IsI64(t')
    ensures CanonicalMessage(pk, t, body, scheme) == CanonicalMessage(pk', t', body', scheme) <==>
            pk == pk' && t == t' && scheme.digest(body) == scheme.digest(body')
  {
    var m, m' := CanonicalMessage(pk, t, body, scheme), CanonicalMessage(pk', t', body', scheme);
    if m == m' {
      assert pk == m[..PUBKEY_CHARS] && pk' == m'[..PUBKEY_CHARS];
      var rest := PrintInt(t) + ":" + Encode(scheme.digest(body));
      var rest' := PrintInt(t') + ":" + Encode(scheme.digest(body'));
      assert rest == m[PUBKEY_CHARS + 1..] && rest' == m'[PUBKEY_CHARS + 1..];
      PrintIntHasNo(t, ':');
      PrintIntHasNo(t', ':');
      SplitOnceUnique(PrintInt(t), ':', Encode(scheme.digest(body)));
      SplitOnceUnique(PrintInt(t'), ':', Encode(scheme.digest(body')));
      ParsePrintI64(t);
      ParsePrintI64(t');
      EncodeInjective(scheme.digest(body), scheme.digest(body'));
    }
  }

  /** Its parts read back, in this order: the key, the timestamp, the hash of the body in hex. */
  lemma CanonicalMessageReads(pk: string, t: int, body: seq<byte>, scheme: Scheme)
    requires ':' !in pk && IsI64(t)
    ensures match SplitOnce(CanonicalMessage(pk, t, body, scheme), ':')
            case None => false
            case Some((key, rest)) =>
              key == pk &&
              match SplitOnce(rest, ':')
              case None => false
              case Some((number, hash)) => ParseI64(number) == Some(t) && Decode(hash) == Some(scheme.digest(body))
  {
    SplitOnceUnique(pk, ':', PrintInt(t) + ":" + Encode(scheme.digest(body)));
    PrintIntHasNo(t, ':');
    SplitOnceUnique(PrintInt(t), ':', Encode(scheme.digest(body)));
    ParsePrintI64(t);
    DecodeEncode(scheme.digest(body));
  }

  // ── The time window ──────────────────────────────────────────────────

  /** `i64::abs` in a release build: the smallest number is its own absolute value. */
  function AbsI64(x: int): int
    requires IsI64(x)
  {
    WrapI64(if x < 0 then -x else x)
  }

  predicate InWindow(now: int, timestamp: int)
  {
    AbsI64(WrapI64(now - timestamp)) <= MAX_TIMESTAMP_SKEW_SECS
  }

  /** The check is the intended one whenever the subtraction does not overflow. Over all
      timestamps it also lets through the one exactly 2^63 seconds in the past, whose
      wrapped distance has no absolute value, and, for a clock within a minute of the
      end of time, the ones that wrap all the way round. */
  lemma WindowExactly(now: int, timestamp: int)
    requires IsI64(now) && IsI64(timestamp) && now >= 0
    ensures InWindow(now, timestamp) <==>
            || -60 <= now - timestamp <= 60
            || now - timestamp == TWO63
            || now - timestamp >= TWO64 - 60
    ensures IsI64(now - timestamp) ==>
              (InWindow(now, timestamp) <==> -60 <= now - timestamp <= 60)
  {
  }

  // ── Verification ─────────────────────────────────────────────────────

  function VerifySignature(h: SignatureHeader, body: seq<byte>, now: int, scheme: Scheme): Result<(), AuthError>
  {
    if !InWindow(now, h.timestamp) then Err(StaleTimestamp)
    else if !scheme.accepts(h.pubkeyHex, CanonicalMessage(h.pubkeyHex, h.timestamp, body, scheme), h.signatureHex)
    then Err(BadSignature)
    else Ok(())
  }

  /** A signature is bound to one message per key. */
  ghost predicate Binding(scheme: Scheme)
  {
    forall pk, m, m', sig :: scheme.accepts(pk, m, sig) && scheme.accepts(pk, m', sig) ==> m == m'
  }

  /** A signature accepted for one request is accepted for no other timestamp and no
      other body, up to a collision of the hash. */
  lemma SignatureCoversRequest(h: SignatureHeader, body: seq<byte>, now: int,
                               timestamp': int, body': seq<byte>, now': int, scheme: Scheme)
    requires Binding(scheme) && |h.pubkeyHex| == PUBKEY_CHARS && IsI64(h.timestamp) && IsI64(timestamp')
    requires VerifySignature(h, body, now, scheme).Ok?
    ensures VerifySignature(h.(timestamp := timestamp'), body', now', scheme).Ok? ==>
              timestamp' == h.timestamp && scheme.digest(body') == scheme.digest(body)
  {
    CanonicalMessageInjective(h.pubkeyHex, h.timestamp, body, h.pubkeyHex, timestamp', body', scheme);
  }
}
