/** One-shot, expiring pairing tokens, kept in memory behind a mutex. */
module Pairing {
  import opened Wrappers
  import opened MachineInt
  import opened Hex
  import opened Session

  const TOKEN_BYTE_LEN: nat := 32
  const DEFAULT_PAIRING_TTL: nat := 600

  type Random = s: seq<byte> | |s| == TOKEN_BYTE_LEN witness seq(TOKEN_BYTE_LEN, _ => 0)

  /** Token in hex, with the second at which it expires. */
  type Tokens = map<string, int>

  datatype PairingToken = PairingToken(token: string, expiresAt: int)

  /** A lifetime that does not fit the clock's type counts as ten minutes; the sum wraps. */
  function ExpiryOf(ttl: nat, now: int): int
  {
    WrapI64(now + (if ttl < TWO63 then ttl else 600))
  }

  /** The lazy garbage collection: only tokens that expire later than `now` stay. */
  function Live(tokens: Tokens, now: int): Tokens
  {
    map t | t in tokens && tokens[t] > now :: tokens[t]
  }

  class PairingTokenStore {
    var tokens: Tokens

    constructor ()
      ensures tokens == map[]
    {
      tokens := map[];
    }

    /** `now` is read for the expiry, `later` again once the mutex is held. */
    method Create(ttl: nat, random: Random, now: int, later: int) returns (r: PairingToken)
      modifies this
      ensures r == PairingToken(Encode(random), ExpiryOf(ttl, now))
      ensures tokens == Live(old(tokens), later)[r.token := r.expiresAt]
    {
      var token := Encode(random);
      var expiresAt := ExpiryOf(ttl, now);
      tokens := Live(tokens, later);
      tokens := tokens[token := expiresAt];
      return PairingToken(token, expiresAt);
    }

    /** A token is consumed exactly when it is known and not yet expired, and then it is
        gone. The dedicated "expired" answer never occurs: expired tokens are collected
        before the search, so they count as unknown. */
    method Consume(token: string, now: int) returns (r: Result<(), AuthError>)
      modifies this
      ensures r == if token in old(tokens) && old(tokens)[token] > now then Ok(()) else Err(InvalidPairingToken)
      ensures tokens == Live(old(tokens), now) - {token}
    {
      tokens := Live(tokens, now);
      var foundKey: Option<string> := None;
      var foundExpired := false;
      var remaining := tokens.Keys;
      while remaining != {}
        invariant remaining <= tokens.Keys
        invariant foundKey == None && !foundExpired
        invariant token in tokens ==> token in remaining
        decreases remaining
      {
        var k :| k in remaining;
        remaining := remaining - {k};
        if k == token {
          if tokens[k] <= now {
            foundExpired := true;
          } else {
            foundKey := Some(k);
          }
          break;
        }
      }
      if foundExpired {
        return Err(PairingTokenExpired);
      }
      match foundKey
      case None => return Err(InvalidPairingToken);
      case Some(k) =>
        tokens := tokens - {k};
        return Ok(());
    }
  }
}
