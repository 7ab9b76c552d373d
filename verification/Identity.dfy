/** One identity split over two stores: the seed in the OS keychain, the public half
    in the vault. `create` and `delete` touch both, with a rollback in between. */
module IdentityCore {
  import opened Wrappers
  import opened Hex
  import opened Host
  import opened VaultCore
  import opened Order
  import Text

  datatype IdentityError =
    | AlreadyExists | NotFound | KeyMismatch | InvalidSeedLength
    | InvalidPublicKey | Corrupted | Vault | SecretStore

  const SEED_LEN: nat := 32

  type Seed = s: seq<byte> | |s| == SEED_LEN witness seq(SEED_LEN, _ => 0)

  /** A loaded identity: its key pair, given by the seed, and its public description. */
  datatype Loaded = Loaded(seed: Seed, metadata: IdentityMetadata)

  const NAMESPACE := "identity"
  const METADATA := ":metadata"
  const PUBLIC_KEY := ":public_key"

  function MetaSlot(name: string): Slot { (NAMESPACE, name + METADATA) }

  function CacheSlot(name: string): Slot { (NAMESPACE, name + PUBLIC_KEY) }

  // ── As functions of the machine ──────────────────────────────────────

  /** Nothing is going to fail, and the connection is the one of the database. */
  predicate Answers(m: Machine, conn: Key)
  {
    Undisturbed(m) && m.world.db.SealedDb? && m.world.db.key == conn
  }

  function Found(entries: Entries, slot: Slot): Option<Value>
  {
    if slot in entries then Some(entries[slot]) else None
  }

  /** Reading an entry through a connection. */
  function GetEntry(m: Machine, conn: Key, slot: Slot): (Machine, Result<Option<Value>, IdentityError>)
  {
    var (m1, s) := Perform(m, Lookup(conn));
    if !s.Done? then (m1, Err(Vault))
    else (m1, Ok(if m1.world.db.SealedDb? then Found(m1.world.db.entries, slot) else None))
  }

  function GetSecret(m: Machine, account: string): (Machine, Result<Option<Secret>, IdentityError>)
  {
    var (m1, s) := Perform(m, KeychainGet);
    if !s.Done? then (m1, Err(SecretStore))
    else if account in m1.world.keychain then (m1, Ok(Some(m1.world.keychain[account])))
    else (m1, Ok(None))
  }

  /** `persist_metadata`: the description first, then the cached public key. */
  function Persist(m: Machine, conn: Key, md: IdentityMetadata): (Machine, bool)
  {
    var (m1, s1) := Perform(m, Put(conn, MetaSlot(md.name), MetadataJson(md)));
    if !s1.Done? then (m1, false)
    else
      var (m2, s2) := Perform(m1, Put(conn, CacheSlot(md.name), PublicKeyBytes(md.publicKey)));
      (m2, s2.Done?)
  }

  /** Steps 2 to 4 of `create`: store the seed, then the description, and take the seed back on failure. */
  function StoreBoth(m: Machine, conn: Key, seed: Seed, md: IdentityMetadata): (Machine, Result<Loaded, IdentityError>)
  {
    var (m1, s1) := Perform(m, KeychainSet(md.name, Binary(seed)));
    if !s1.Done? then (m1, Err(SecretStore))
    else
      var (m2, persisted) := Persist(m1, conn, md);
      if persisted then (m2, Ok(Loaded(seed, md)))
      else (Perform(m2, KeychainDelete(md.name)).0, Err(Vault))
  }

  function Description(name: string, seed: Seed, now: int, displayLabel: string): IdentityMetadata
  {
    IdentityMetadata(name, PublicKeyOf(seed), now, displayLabel)
  }

  function CreateIdentity(m: Machine, conn: Key, name: string, displayLabel: string, seed: Seed, now: int)
    : (Machine, Result<Loaded, IdentityError>)
  {
    var (m1, cached) := GetEntry(m, conn, CacheSlot(name));
    if cached.Err? then (m1, Err(cached.error))
    else if cached.value.Some? then (m1, Err(IdentityError.AlreadyExists))
    else
      var (m2, held) := GetSecret(m1, name);
      if held.Err? then (m2, Err(held.error))
      else if held.value.Some? then (m2, Err(IdentityError.AlreadyExists))
      else StoreBoth(m2, conn, seed, Description(name, seed, now, displayLabel))
  }

  /** Rebuilds the key pair and compares its public half with the one on record. */
  function CheckSeed(secret: Secret, md: IdentityMetadata): Result<Loaded, IdentityError>
  {
    if !secret.Binary? || |secret.bytes| != SEED_LEN then Err(InvalidSeedLength)
    else if PublicKeyOf(secret.bytes) != md.publicKey then Err(KeyMismatch)
    else Ok(Loaded(secret.bytes, md))
  }

  function LoadIdentity(m: Machine, conn: Key, name: string): (Machine, Result<Loaded, IdentityError>)
  {
    var (m1, entry) := GetEntry(m, conn, MetaSlot(name));
    if entry.Err? then (m1, Err(entry.error))
    else if entry.value.None? then (m1, Err(IdentityError.NotFound))
    else if !entry.value.value.MetadataJson? then (m1, Err(IdentityError.Corrupted))
    else if entry.value.value.metadata.publicKey.Malformed? then (m1, Err(InvalidPublicKey))
    else
      var (m2, held) := GetSecret(m1, name);
      if held.Err? then (m2, Err(held.error))
      else if held.value.None? then (m2, Err(IdentityError.NotFound))
      else (m2, CheckSeed(held.value.value, entry.value.value.metadata))
  }

  function DeleteIdentity(m: Machine, conn: Key, name: string): (Machine, Result<(), IdentityError>)
  {
    var (m1, s1) := Perform(m, Delete(conn, CacheSlot(name)));
    var (m2, s2) := if s1.Done? then Perform(m1, Delete(conn, MetaSlot(name))) else (m1, s1);
    var (m3, s3) := Perform(m2, KeychainDelete(name));
    (m3, if !s2.Done? then Err(Vault) else if !s3.Done? then Err(SecretStore) else Ok(()))
  }

  // ── On the machine itself ────────────────────────────────────────────

  /** Every entry that should be a description is one. */
  predicate AllParse(entries: Entries)
  {
    forall slot | slot in entries && slot.0 == NAMESPACE && Text.StripSuffix(slot.1, METADATA).Some? ::
      entries[slot].MetadataJson?
  }

  /** The keys among `all` that hold a description. */
  function DescribedKeys(all: seq<string>): seq<string>
  {
    if all == [] then []
    else
      DescribedKeys(all[..|all| - 1]) +
      (if Text.StripSuffix(all[|all| - 1], METADATA).Some? then [all[|all| - 1]] else [])
  }

  lemma {:induction false} DescribedKeysExact(all: seq<string>)
    requires Sorted(all)
    ensures Sorted(DescribedKeys(all))
    ensures forall k :: k in DescribedKeys(all) <==> k in all && Text.StripSuffix(k, METADATA).Some?
  {
    if all != [] {
      var front := all[..|all| - 1];
      DescribedKeysExact(front);
      var last := all[|all| - 1];
      assert all == front + [last];
      assert forall k | k in front :: Less(k, last);
      assert forall j | 0 <= j < |DescribedKeys(front)| :: DescribedKeys(front)[j] in front;
    }
  }

  /** `out` holds, in key order, the description stored under each key ending in `:metadata`. */
  ghost predicate Listing(entries: Entries, keys: seq<string>, out: seq<IdentityMetadata>)
  {
    && Sorted(keys) && |keys| == |out|
    && (forall k :: k in keys <==> (NAMESPACE, k) in entries && Text.StripSuffix(k, METADATA).Some?)
    && (forall j | 0 <= j < |keys| :: entries[(NAMESPACE, keys[j])] == MetadataJson(out[j]))
  }

  lemma ListingComplete(entries: Entries, all: seq<string>, keys: seq<string>, out: seq<IdentityMetadata>)
    requires Sorted(all) && Elements(all) == set slot | slot in entries && slot.0 == NAMESPACE :: slot.1
    requires keys == DescribedKeys(all) && |keys| == |out|
    requires forall j | 0 <= j < |keys| ::
               (NAMESPACE, keys[j]) in entries && entries[(NAMESPACE, keys[j])] == MetadataJson(out[j])
    ensures Listing(entries, keys, out)
  {
    DescribedKeysExact(all);
    forall k ensures k in all <==> (NAMESPACE, k) in entries {
      assert k in all <==> k in Elements(all);
      assert (NAMESPACE, k) in entries ==> (NAMESPACE, k).1 in Elements(all);
    }
  }

  class Identity {
    const seed: Seed
    const metadata: IdentityMetadata

    constructor (seed: Seed, metadata: IdentityMetadata)
      ensures this.seed == seed && this.metadata == metadata
    {
      this.seed, this.metadata := seed, metadata;
    }

    static method Get(vault: VaultCore.Vault, slot: Slot) returns (r: Result<Option<Value>, IdentityError>)
      modifies vault.computer
      ensures (vault.computer.Value(), r) == GetEntry(old(vault.computer.Value()), vault.conn, slot)
      ensures vault.computer.Image() == old(vault.computer.Image())
      ensures r.Ok? ==> vault.computer.db.SealedDb? && r.value == Found(vault.computer.db.entries, slot)
      ensures old(Answers(vault.computer.Value(), vault.conn)) ==> r.Ok? && Answers(vault.computer.Value(), vault.conn)
    {
      var computer := vault.computer;
      var s := computer.Do(Lookup(vault.conn));
      if !s.Done? {
        return Err(IdentityError.Vault);
      }
      return Ok(Found(computer.db.entries, slot));
    }

    static method Secret(vault: VaultCore.Vault, account: string) returns (r: Result<Option<Secret>, IdentityError>)
      modifies vault.computer
      ensures (vault.computer.Value(), r) == GetSecret(old(vault.computer.Value()), account)
    {
      var computer := vault.computer;
      var s := computer.Do(KeychainGet);
      if !s.Done? {
        return Err(SecretStore);
      }
      if account in computer.keychain {
        return Ok(Some(computer.keychain[account]));
      }
      return Ok(None);
    }

    static method Create(vault: VaultCore.Vault, name: string, displayLabel: string, seed: Seed, now: int)
      returns (r: Result<Identity, IdentityError>)
      modifies vault.computer
      ensures var (m, spec) := CreateIdentity(old(vault.computer.Value()), vault.conn, name, displayLabel, seed, now);
              && vault.computer.Value() == m
              && (spec.Ok? ==> r.Ok? && fresh(r.value) && Loaded(r.value.seed, r.value.metadata) == spec.value)
              && (spec.Err? ==> r == Err(spec.error))
    {
      var computer := vault.computer;
      var cached := Get(vault, CacheSlot(name));
      if cached.Err? {
        return Err(cached.error);
      }
      if cached.value.Some? {
        return Err(IdentityError.AlreadyExists);
      }
      var held := Secret(vault, name);
      if held.Err? {
        return Err(held.error);
      }
      if held.value.Some? {
        return Err(IdentityError.AlreadyExists);
      }
      var s := computer.Do(KeychainSet(name, Binary(seed)));
      if !s.Done? {
        return Err(SecretStore);
      }
      var md := Description(name, seed, now, displayLabel);
      s := computer.Do(Put(vault.conn, MetaSlot(name), MetadataJson(md)));
      if s.Done? {
        s := computer.Do(Put(vault.conn, CacheSlot(name), PublicKeyBytes(md.publicKey)));
      }
      if !s.Done? {
        var _ := computer.Do(KeychainDelete(name));
        return Err(IdentityError.Vault);
      }
      var id := new Identity(seed, md);
      return Ok(id);
    }

    static method Load(vault: VaultCore.Vault, name: string) returns (r: Result<Identity, IdentityError>)
      modifies vault.computer
      ensures var (m, spec) := LoadIdentity(old(vault.computer.Value()), vault.conn, name);
              && vault.computer.Value() == m
              && (spec.Ok? ==> r.Ok? && fresh(r.value) && Loaded(r.value.seed, r.value.metadata) == spec.value)
              && (spec.Err? ==> r == Err(spec.error))
    {
      var entry := Get(vault, MetaSlot(name));
      if entry.Err? {
        return Err(entry.error);
      }
      if entry.value.None? {
        return Err(IdentityError.NotFound);
      }
      if !entry.value.value.MetadataJson? {
        return Err(IdentityError.Corrupted);
      }
      if entry.value.value.metadata.publicKey.Malformed? {
        return Err(InvalidPublicKey);
      }
      var held := Secret(vault, name);
      if held.Err? {
        return Err(held.error);
      }
      if held.value.None? {
        return Err(IdentityError.NotFound);
      }
      var checked := CheckSeed(held.value.value, entry.value.value.metadata);
      if checked.Err? {
        return Err(checked.error);
      }
      var id := new Identity(checked.value.seed, checked.value.metadata);
      return Ok(id);
    }

    static method Remove(vault: VaultCore.Vault, name: string) returns (r: Result<(), IdentityError>)
      modifies vault.computer
      ensures (vault.computer.Value(), r) == DeleteIdentity(old(vault.computer.Value()), vault.conn, name)
    {
      var computer := vault.computer;
      var inVault := computer.Do(Delete(vault.conn, CacheSlot(name)));
      if inVault.Done? {
        inVault := computer.Do(Delete(vault.conn, MetaSlot(name)));
      }
      var inKeychain := computer.Do(KeychainDelete(name));
      if !inVault.Done? {
        return Err(IdentityError.Vault);
      }
      if !inKeychain.Done? {
        return Err(SecretStore);
      }
      return Ok(());
    }

    /** Whatever fails, an answer lists exactly the described identities, once each, in key
        order; and when nothing fails there is one exactly if all descriptions parse. */
    static method List(vault: VaultCore.Vault)
      returns (r: Result<seq<IdentityMetadata>, IdentityError>, ghost keys: seq<string>)
      modifies vault.computer
      ensures vault.computer.Image() == old(vault.computer.Image())
      ensures r.Ok? ==> vault.computer.db.SealedDb? && Listing(vault.computer.db.entries, keys, r.value)
      ensures old(Answers(vault.computer.Value(), vault.conn)) ==> (r.Ok? <==> AllParse(old(vault.computer.db).entries))
    {
      var computer := vault.computer;
      var s := computer.Do(Lookup(vault.conn));
      if !s.Done? {
        return Err(IdentityError.Vault), [];
      }
      var entries := computer.db.entries;
      var all := SortKeys(set slot | slot in entries && slot.0 == NAMESPACE :: slot.1);
      var out := [];
      keys := [];
      for i := 0 to |all|
        invariant computer.Image() == old(computer.Image())
        invariant old(Answers(computer.Value(), vault.conn)) ==> Answers(computer.Value(), vault.conn)
        invariant keys == DescribedKeys(all[..i]) && |keys| == |out|
        invariant forall j | 0 <= j < |keys| ::
                    (NAMESPACE, keys[j]) in entries && entries[(NAMESPACE, keys[j])] == MetadataJson(out[j])
      {
        assert all[..i + 1][..i] == all[..i];
        assert all[i] in Elements(all);
        var name := Text.StripSuffix(all[i], METADATA);
        if name.Some? {
          var entry := Get(vault, MetaSlot(name.value));
          if entry.Err? {
            return Err(entry.error), keys;
          }
          if !entry.value.value.MetadataJson? {
            return Err(IdentityError.Corrupted), keys;
          }
          out := out + [entry.value.value.metadata];
          keys := keys + [all[i]];
        }
      }
      assert all[..|all|] == all;
      ListingComplete(entries, all, keys, out);
      return Ok(out), keys;
    }
  }
}
