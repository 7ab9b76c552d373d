/** The vault: an encrypted database and its KDF sidecar kept in step through
    `create`, `open` and `change_passphrase`, every step of which may fail or be
    the last one the process takes. */
module VaultCore {
  import opened Wrappers
  import opened Hex
  import opened Host

  datatype VaultError = AlreadyExists | NotFound | WrongPassphrase | WeakPassphrase | Corrupted | Io | Sql

  // ── Key derivation ───────────────────────────────────────────────────

  const MIN_PASSPHRASE_LEN: nat := 8
  const MEMORY_KIB: nat := 64 * 1024
  const ITERATIONS: nat := 3
  const PARALLELISM: nat := 4
  const SALT_LEN: nat := 32

  type Salt = s: seq<byte> | |s| == SALT_LEN witness seq(SALT_LEN, _ => 0)

  function NewDefault(salt: Salt): KdfHeader
  {
    KdfHeader(1, "argon2id", Encode(salt), MEMORY_KIB, ITERATIONS, PARALLELISM)
  }

  /** The parameter ranges of section 3.1 of RFC 9106, with the 8-byte salt floor of the library. */
  predicate ArgonAccepts(h: KdfHeader, salt: seq<byte>)
  {
    && 1 <= h.parallelism < 0x100_0000
    && h.memoryKib >= 8 * h.parallelism
    && h.iterations >= 1
    && |salt| >= 8
  }

  function DeriveKey(pass: string, h: KdfHeader): (r: Result<Key, VaultError>)
    ensures r.Ok? ==> r.value.pass == pass && |pass| >= MIN_PASSPHRASE_LEN
    ensures r.Err? ==> r.error in {WeakPassphrase, Corrupted}
  {
    if |pass| < MIN_PASSPHRASE_LEN then Err(WeakPassphrase)
    else
      match Decode(h.saltHex)
      case None => Err(Corrupted)
      case Some(salt) =>
        if !ArgonAccepts(h, salt) then Err(Corrupted)
        else Ok(Argon2id(pass, salt, h.memoryKib, h.iterations, h.parallelism))
  }

  function FromJson(file: SidecarFile): Result<KdfHeader, VaultError>
  {
    if !file.Json? || file.header.version != 1 || file.header.kdf != "argon2id" then Err(Corrupted)
    else Ok(file.header)
  }

  lemma DefaultHeaderDerives(pass: string, salt: Salt)
    requires |pass| >= MIN_PASSPHRASE_LEN
    ensures DeriveKey(pass, NewDefault(salt)) == Ok(Argon2id(pass, salt, 65536, 3, 4))
  {
    DecodeEncode(salt);
  }

  // ── The three operations, as functions of the machine ────────────────

  /** `write_sidecar_atomic`: write beside, then rename over. */
  function WriteSidecar(m: Machine, h: KdfHeader): (Machine, bool)
  {
    var (m1, s1) := Perform(m, WriteTmp(h));
    if !s1.Done? then (m1, false)
    else
      var (m2, s2) := Perform(m1, RenameTmp);
      (m2, s2.Done?)
  }

  /** `Store::open_with_key`. */
  function OpenWithKey(m: Machine, key: Key): (Machine, Result<Key, VaultError>)
  {
    var (m1, s) := Perform(m, OpenDb(key));
    match s
    case Done => (m1, Ok(key))
    case Refused => (m1, Err(WrongPassphrase))
    case Failed => (m1, Err(Sql))
  }

  function OpenAndInit(m: Machine, key: Key): (Machine, Result<Key, VaultError>)
  {
    var (m1, r) := OpenWithKey(m, key);
    if r.Err? then (m1, r)
    else
      var (m2, s) := Perform(m1, InitSchema(key));
      (m2, if s.Done? then Ok(key) else Err(Sql))
  }

  function CreateVault(m: Machine, pass: string, salt: Salt): (Machine, Result<Key, VaultError>)
  {
    if !m.world.db.NoDb? || !m.world.sidecar.NoSidecar? then (m, Err(AlreadyExists))
    else
      var derived := DeriveKey(pass, NewDefault(salt));
      if derived.Err? then (m, derived)
      else
        var (m1, session) := OpenAndInit(m, derived.value);
        if session.Err? then (m1, session)
        else
          var (m2, written) := WriteSidecar(m1, NewDefault(salt));
          if written then (m2, session)
          else (Perform(m2, RemoveDb).0, Err(Io))
  }

  /** Reads the sidecar and derives the key `pass` gives under it. */
  function KeyFromSidecar(m: Machine, pass: string): (Machine, Result<Key, VaultError>)
  {
    var (m1, s) := Perform(m, ReadSidecar);
    if !s.Done? then (m1, Err(Io))
    else
      match FromJson(m.world.sidecar)
      case Err(e) => (m1, Err(e))
      case Ok(h) => (m1, DeriveKey(pass, h))
  }

  function OpenVault(m: Machine, pass: string): (Machine, Result<Key, VaultError>)
  {
    if m.world.db.NoDb? || m.world.sidecar.NoSidecar? then (m, Err(NotFound))
    else
      var (m1, derived) := KeyFromSidecar(m, pass);
      if derived.Err? then (m1, derived) else OpenAndInit(m1, derived.value)
  }

  /** Steps 3 and 4 of `change_passphrase`: rekey, replace the sidecar, rekey back if that failed. */
  function Reseal(m: Machine, conn: Key, oldKey: Key, newKey: Key, h: KdfHeader): (Machine, Key, Result<(), VaultError>)
  {
    var (m1, rekeyed) := Perform(m, Rekey(conn, newKey));
    if !rekeyed.Done? then (m1, conn, Err(Sql))
    else
      var (m2, written) := WriteSidecar(m1, h);
      if written then (m2, newKey, Ok(()))
      else
        var (m3, undone) := Perform(m2, Rekey(newKey, oldKey));
        (m3, if undone.Done? then oldKey else newKey, Err(Io))
  }

  /** Also returns the key the open connection is left with. */
  function ChangePassphrase(m: Machine, conn: Key, oldPass: string, newPass: string, salt: Salt)
    : (Machine, Key, Result<(), VaultError>)
  {
    var (m1, derived) := KeyFromSidecar(m, oldPass);
    if derived.Err? then (m1, conn, Err(derived.error))
    else
      var (m2, check) := OpenWithKey(m1, derived.value);
      if check.Err? then (m2, conn, Err(check.error))
      else
        var next := DeriveKey(newPass, NewDefault(salt));
        if next.Err? then (m2, conn, Err(next.error))
        else Reseal(m2, conn, derived.value, next.value, NewDefault(salt))
  }

  // ── The same operations on the machine itself ────────────────────────

  /** An open vault: the machine it lives on and the key of its connection. */
  class Vault {
    const computer: Computer
    var conn: Key

    constructor (computer: Computer, conn: Key)
      ensures this.computer == computer && this.conn == conn
    {
      this.computer, this.conn := computer, conn;
    }

    static method WriteSidecarAtomic(computer: Computer, h: KdfHeader) returns (ok: bool)
      modifies computer
      ensures (computer.Value(), ok) == WriteSidecar(old(computer.Value()), h)
    {
      var s := computer.Do(WriteTmp(h));
      if !s.Done? {
        return false;
      }
      s := computer.Do(RenameTmp);
      return s.Done?;
    }

    static method Connect(computer: Computer, key: Key) returns (r: Result<Key, VaultError>)
      modifies computer
      ensures (computer.Value(), r) == OpenWithKey(old(computer.Value()), key)
    {
      var s := computer.Do(OpenDb(key));
      match s
      case Done => r := Ok(key);
      case Refused => r := Err(WrongPassphrase);
      case Failed => r := Err(Sql);
    }

    static method ConnectAndInit(computer: Computer, key: Key) returns (r: Result<Key, VaultError>)
      modifies computer
      ensures (computer.Value(), r) == OpenAndInit(old(computer.Value()), key)
    {
      r := Connect(computer, key);
      if r.Ok? {
        var s := computer.Do(InitSchema(key));
        if !s.Done? {
          r := Err(Sql);
        }
      }
    }

    static method Create(computer: Computer, pass: string, salt: Salt) returns (r: Result<Vault, VaultError>)
      modifies computer
      ensures computer.Value() == CreateVault(old(computer.Value()), pass, salt).0
      ensures match CreateVault(old(computer.Value()), pass, salt).1
              case Ok(key) => r.Ok? && fresh(r.value) && r.value.computer == computer && r.value.conn == key
              case Err(e) => r == Err(e)
    {
      if !computer.db.NoDb? || !computer.sidecar.NoSidecar? {
        return Err(AlreadyExists);
      }
      var header := NewDefault(salt);
      var derived := DeriveKey(pass, header);
      if derived.Err? {
        return Err(derived.error);
      }
      var session := ConnectAndInit(computer, derived.value);
      if session.Err? {
        return Err(session.error);
      }
      var written := WriteSidecarAtomic(computer, header);
      if !written {
        var _ := computer.Do(RemoveDb);
        return Err(Io);
      }
      var v := new Vault(computer, derived.value);
      return Ok(v);
    }

    static method DeriveFromSidecar(computer: Computer, pass: string) returns (r: Result<Key, VaultError>)
      modifies computer
      ensures (computer.Value(), r) == KeyFromSidecar(old(computer.Value()), pass)
    {
      var file := computer.sidecar;
      var s := computer.Do(ReadSidecar);
      if !s.Done? {
        return Err(Io);
      }
      var header := FromJson(file);
      if header.Err? {
        return Err(header.error);
      }
      return DeriveKey(pass, header.value);
    }

    static method Open(computer: Computer, pass: string) returns (r: Result<Vault, VaultError>)
      modifies computer
      ensures computer.Value() == OpenVault(old(computer.Value()), pass).0
      ensures match OpenVault(old(computer.Value()), pass).1
              case Ok(key) => r.Ok? && fresh(r.value) && r.value.computer == computer && r.value.conn == key
              case Err(e) => r == Err(e)
    {
      if computer.db.NoDb? || computer.sidecar.NoSidecar? {
        return Err(NotFound);
      }
      var derived := DeriveFromSidecar(computer, pass);
      if derived.Err? {
        return Err(derived.error);
      }
      var session := ConnectAndInit(computer, derived.value);
      if session.Err? {
        return Err(session.error);
      }
      var v := new Vault(computer, derived.value);
      return Ok(v);
    }

    method Change(oldPass: string, newPass: string, salt: Salt) returns (r: Result<(), VaultError>)
      modifies this, computer
      ensures (computer.Value(), conn, r) == ChangePassphrase(old(computer.Value()), old(conn), oldPass, newPass, salt)
    {
      var oldKey := DeriveFromSidecar(computer, oldPass);
      if oldKey.Err? {
        return Err(oldKey.error);
      }
      var check := Connect(computer, oldKey.value);
      if check.Err? {
        return Err(check.error);
      }
      var header := NewDefault(salt);
      var newKey := DeriveKey(newPass, header);
      if newKey.Err? {
        return Err(newKey.error);
      }
      var s := computer.Do(Rekey(conn, newKey.value));
      if !s.Done? {
        return Err(Sql);
      }
      conn := newKey.value;
      var written := WriteSidecarAtomic(computer, header);
      if !written {
        s := computer.Do(Rekey(conn, oldKey.value));
        if s.Done? {
          conn := oldKey.value;
        }
        return Err(Io);
      }
      return Ok(());
    }
  }
}
