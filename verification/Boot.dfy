/** `security::init`: boot passphrase, vault and identity, composed at every start. */
module Boot {
  import opened Wrappers
  import opened Hex
  import opened Host
  import opened VaultCore
  import opened IdentityCore

  const COMPANION := "default"
  const PASSPHRASE_ACCOUNT := "vault-boot-passphrase"
  const COMPANION_LABEL := "Infinity Node Companion"

  datatype BootError =
    | Keychain
    | PassphraseCorrupted
    | VaultFailed(error: VaultError)
    | IdentityFailed(cause: IdentityError)

  /** The random values a start may draw, and its clock. */
  datatype Draws = Draws(passphrase: Salt, salt: Salt, seed: Seed, now: int)

  /** What a successful start hands to the rest of the program. */
  datatype Stack = Stack(conn: Key, identity: Loaded)

  /** The keychain name of an instance; `fingerprint` stands for the first eight hex
      digits of the SHA-256 of its directory. */
  function IdentityName(moved: bool, dir: string, fingerprint: string -> string): string
  {
    if moved then COMPANION + "-" + fingerprint(dir) else COMPANION
  }

  /** Instances with colliding names are the ones with colliding fingerprints; and no
      instance is named like the account of the boot passphrase. */
  lemma NamesAreDistinct(moved: bool, dir: string, moved': bool, dir': string, fingerprint: string -> string)
    requires |fingerprint(dir)| == 8
    ensures IdentityName(moved, dir, fingerprint) == IdentityName(moved', dir', fingerprint) ==>
              moved == moved' && (moved ==> fingerprint(dir) == fingerprint(dir'))
    ensures IdentityName(moved, dir, fingerprint) != PASSPHRASE_ACCOUNT
  {
    var n, n' := IdentityName(moved, dir, fingerprint), IdentityName(moved', dir', fingerprint);
    assert n[..7] == COMPANION && PASSPHRASE_ACCOUNT[0] == 'v';
    if moved && moved' && n == n' {
      assert fingerprint(dir) == n[8..] && fingerprint(dir') == n'[8..];
    }
    assert |n| == if moved then 16 else 7;
    assert |n'| == if moved' then 8 + |fingerprint(dir')| else 7;
  }

  // ── As functions of the machine ──────────────────────────────────────

  function EnsurePassphrase(m: Machine, random: Salt): (Machine, Result<string, BootError>)
  {
    var (m1, held) := GetSecret(m, PASSPHRASE_ACCOUNT);
    if held.Err? then (m1, Err(Keychain))
    else
      match held.value
      case Some(Utf8(text)) => (m1, Ok(text))
      case Some(Binary(_)) => (m1, Err(PassphraseCorrupted))
      case None =>
        var (m2, s) := Perform(m1, KeychainSet(PASSPHRASE_ACCOUNT, Utf8(Encode(random))));
        (m2, if s.Done? then Ok(Encode(random)) else Err(Keychain))
  }

  function EnsureVault(m: Machine, pass: string, salt: Salt): (Machine, Result<Key, VaultError>)
  {
    if m.world.db.NoDb? then CreateVault(m, pass, salt) else OpenVault(m, pass)
  }

  function EnsureIdentity(m: Machine, conn: Key, name: string, seed: Seed, now: int)
    : (Machine, Result<Loaded, IdentityError>)
  {
    var (m1, r) := LoadIdentity(m, conn, name);
    if r == Err(IdentityError.NotFound) then CreateIdentity(m1, conn, name, COMPANION_LABEL, seed, now) else (m1, r)
  }

  function Init(m: Machine, name: string, d: Draws): (Machine, Result<Stack, BootError>)
  {
    var (m1, pass) := EnsurePassphrase(m, d.passphrase);
    if pass.Err? then (m1, Err(pass.error))
    else
      var (m2, vault) := EnsureVault(m1, pass.value, d.salt);
      if vault.Err? then (m2, Err(VaultFailed(vault.error)))
      else
        var (m3, id) := EnsureIdentity(m2, vault.value, name, d.seed, d.now);
        (m3, if id.Err? then Err(IdentityFailed(id.error)) else Ok(Stack(vault.value, id.value)))
  }

  // ── On the machine itself ────────────────────────────────────────────

  class SecurityStack {
    const vault: VaultCore.Vault
    const identity: Identity

    constructor (vault: VaultCore.Vault, identity: Identity)
      ensures this.vault == vault && this.identity == identity
    {
      this.vault, this.identity := vault, identity;
    }

    static method BootPassphrase(computer: Computer, random: Salt) returns (r: Result<string, BootError>)
      modifies computer
      ensures (computer.Value(), r) == EnsurePassphrase(old(computer.Value()), random)
    {
      var s := computer.Do(KeychainGet);
      if !s.Done? {
        return Err(Keychain);
      }
      if PASSPHRASE_ACCOUNT in computer.keychain {
        var secret := computer.keychain[PASSPHRASE_ACCOUNT];
        return if secret.Utf8? then Ok(secret.text) else Err(PassphraseCorrupted);
      }
      s := computer.Do(KeychainSet(PASSPHRASE_ACCOUNT, Utf8(Encode(random))));
      return if s.Done? then Ok(Encode(random)) else Err(Keychain);
    }

    static method OpenOrCreate(computer: Computer, pass: string, salt: Salt)
      returns (r: Result<VaultCore.Vault, VaultError>)
      modifies computer
      ensures var (m, spec) := EnsureVault(old(computer.Value()), pass, salt);
              && computer.Value() == m
              && (spec.Ok? ==> r.Ok? && fresh(r.value) && r.value.computer == computer && r.value.conn == spec.value)
              && (spec.Err? ==> r == Err(spec.error))
    {
      if computer.db.NoDb? {
        r := VaultCore.Vault.Create(computer, pass, salt);
      } else {
        r := VaultCore.Vault.Open(computer, pass);
      }
    }

    static method LoadOrCreate(vault: VaultCore.Vault, name: string, seed: Seed, now: int)
      returns (r: Result<Identity, IdentityError>)
      modifies vault.computer
      ensures var (m, spec) := EnsureIdentity(old(vault.computer.Value()), vault.conn, name, seed, now);
              && vault.computer.Value() == m
              && (spec.Ok? ==> r.Ok? && fresh(r.value) && Loaded(r.value.seed, r.value.metadata) == spec.value)
              && (spec.Err? ==> r == Err(spec.error))
    {
      r := Identity.Load(vault, name);
      if r == Err(IdentityError.NotFound) {
        r := Identity.Create(vault, name, COMPANION_LABEL, seed, now);
      }
    }

    static method Start(computer: Computer, name: string, d: Draws) returns (r: Result<SecurityStack, BootError>)
      modifies computer
      ensures var (m, spec) := Init(old(computer.Value()), name, d);
              && computer.Value() == m
              && (spec.Ok? ==> r.Ok? && fresh(r.value) && r.value.vault.computer == computer
                               && r.value.vault.conn == spec.value.conn
                               && Loaded(r.value.identity.seed, r.value.identity.metadata) == spec.value.identity)
              && (spec.Err? ==> r == Err(spec.error))
    {
      var pass := BootPassphrase(computer, d.passphrase);
      if pass.Err? {
        return Err(pass.error);
      }
      var vault := OpenOrCreate(computer, pass.value, d.salt);
      if vault.Err? {
        return Err(VaultFailed(vault.error));
      }
      var id := LoadOrCreate(vault.value, name, d.seed, d.now);
      if id.Err? {
        return Err(IdentityFailed(id.error));
      }
      var stack := new SecurityStack(vault.value, id.value);
      return Ok(stack);
    }
  }
}
