/** The machine the security stack runs on: one vault database file, its sidecar,
    the temporary file used to replace the sidecar, and the OS keychain.

    Every operation that touches one of them is one `Effect`. What becomes of an
    effect is chosen by a plan: it may work, fail with or without leaving something
    behind, or be the point where the process stops. The trace keeps what was on
    the machine after each effect, so a statement about every image of the trace
    is a statement about every point where the process could have stopped. */
module Host {
  import opened Hex

  // ── What the files hold ──────────────────────────────────────────────

  /** The clear KDF header kept beside the database. */
  datatype KdfHeader = KdfHeader(version: nat, kdf: string, saltHex: string,
                                 memoryKib: nat, iterations: nat, parallelism: nat)

  /** A derived key. Argon2id is idealised as a free constructor: equal keys come
      from equal passphrases, salts and parameters. */
  datatype Key = Argon2id(pass: string, salt: seq<byte>,
                          memoryKib: nat, iterations: nat, parallelism: nat)

  /** What the hex of a public key decodes to: an Ed25519 key, idealised as a free
      constructor over its seed, or nothing of the kind. */
  datatype PublicKey = PublicKeyOf(seed: seq<byte>) | Malformed(hex: string)

  datatype IdentityMetadata = IdentityMetadata(name: string, publicKey: PublicKey, createdAt: int, displayLabel: string)

  /** What a vault entry decodes to; serialising and parsing are inverse to each other. */
  datatype Value = Bytes(bytes: seq<byte>) | PublicKeyBytes(key: PublicKey) | MetadataJson(metadata: IdentityMetadata)

  /** A (namespace, key) pair: the primary key of the single table. */
  type Slot = (string, string)

  type Entries = map<Slot, Value>

  /** Absent, created but still empty, or encrypted under a key. */
  datatype DbFile = NoDb | BlankDb | SealedDb(key: Key, entries: Entries)

  datatype SidecarFile = NoSidecar | Json(header: KdfHeader) | Garbage

  /** A keychain secret: text, or bytes that are not UTF-8. */
  datatype Secret = Utf8(text: string) | Binary(bytes: seq<byte>)

  datatype World = World(db: DbFile, sidecar: SidecarFile, tmp: SidecarFile, keychain: map<string, Secret>)

  // ── Effects and what becomes of them ─────────────────────────────────

  datatype Effect =
    | ReadSidecar
    | OpenDb(key: Key)
    | InitSchema(conn: Key)
    | Rekey(conn: Key, newKey: Key)
    | WriteTmp(header: KdfHeader)
    | RenameTmp
    | RemoveDb
    | Lookup(conn: Key)
    | Put(conn: Key, slot: Slot, value: Value)
    | Delete(conn: Key, slot: Slot)
    | KeychainGet
    | KeychainSet(account: string, secret: Secret)
    | KeychainDelete(account: string)

  datatype Fate = Works | Fails(residue: bool) | Dies(residue: bool)

  datatype Status = Done | Refused | Failed

  /** `conn` is accepted by the database: a blank file accepts any key. */
  predicate Accepts(db: DbFile, conn: Key)
  {
    db.SealedDb? ==> db.key == conn
  }

  /** The effect is turned down by the database itself, whatever the plan. */
  predicate Refuses(w: World, e: Effect)
  {
    match e
    case OpenDb(k) => !Accepts(w.db, k)
    case InitSchema(k) => !Accepts(w.db, k)
    case Rekey(k, _) => !w.db.SealedDb? || w.db.key != k
    case Lookup(k) => !w.db.SealedDb? || w.db.key != k
    case Put(k, _, _) => !w.db.SealedDb? || w.db.key != k
    case Delete(k, _) => !w.db.SealedDb? || w.db.key != k
    case _ => false
  }

  function Apply(w: World, e: Effect): World
    requires !Refuses(w, e)
  {
    match e
    case ReadSidecar => w
    case OpenDb(_) => if w.db.NoDb? then w.(db := BlankDb) else w
    case InitSchema(k) => if w.db.SealedDb? then w else w.(db := SealedDb(k, map[]))
    case Rekey(_, k) => w.(db := SealedDb(k, w.db.entries))
    case WriteTmp(h) => w.(tmp := Json(h))
    case RenameTmp => w.(sidecar := w.tmp, tmp := NoSidecar)
    case RemoveDb => w.(db := NoDb)
    case Lookup(_) => w
    case Put(_, slot, v) => w.(db := w.db.(entries := w.db.entries[slot := v]))
    case Delete(_, slot) => w.(db := w.db.(entries := w.db.entries - {slot}))
    case KeychainGet => w
    case KeychainSet(account, s) => w.(keychain := w.keychain[account := s])
    case KeychainDelete(account) => w.(keychain := w.keychain - {account})
  }

  /** What an effect that did not complete may leave behind. The database engine
      and `rename` are all-or-nothing; opening and writing a plain file are not. */
  function Residue(w: World, e: Effect): World
  {
    match e
    case OpenDb(_) => if w.db.NoDb? then w.(db := BlankDb) else w
    case InitSchema(k) => if w.db.BlankDb? then w.(db := SealedDb(k, map[])) else w
    case WriteTmp(_) => w.(tmp := Garbage)
    case _ => w
  }

  /** `step` counts the effects attempted so far: it is the place in the plan. */
  datatype Machine = Machine(world: World, plan: seq<Fate>, step: nat, alive: bool, trace: seq<World>)

  function Start(w: World, plan: seq<Fate>): Machine { Machine(w, plan, 0, true, []) }

  function FateAt(plan: seq<Fate>, i: nat): Fate
  {
    if i < |plan| then plan[i] else Works
  }

  /** The plan lets `n` effects through from `step` on. */
  predicate AllWork(plan: seq<Fate>, step: nat, n: nat)
  {
    forall i | step <= i < step + n :: FateAt(plan, i).Works?
  }

  lemma AllWorkSplits(plan: seq<Fate>, step: nat, n: nat, k: nat)
    ensures AllWork(plan, step, n + k) <==> AllWork(plan, step, n) && AllWork(plan, step + n, k)
  {
  }

  lemma AllWorkOne(plan: seq<Fate>, step: nat)
    ensures AllWork(plan, step, 1) <==> FateAt(plan, step).Works?
  {
  }

  lemma AllWorkTwo(plan: seq<Fate>, step: nat)
    ensures AllWork(plan, step, 2) <==> FateAt(plan, step).Works? && FateAt(plan, step + 1).Works?
  {
  }

  lemma AllWorkThree(plan: seq<Fate>, step: nat)
    ensures AllWork(plan, step, 3) <==>
            FateAt(plan, step).Works? && FateAt(plan, step + 1).Works? && FateAt(plan, step + 2).Works?
  {
  }

  /** Runs one effect. After the process has stopped nothing touches the machine. */
  function Perform(m: Machine, e: Effect): (Machine, Status)
  {
    if !m.alive then (m, Failed)
    else
      var next := m.step + 1;
      match FateAt(m.plan, m.step)
      case Works =>
        if Refuses(m.world, e) then (m.(step := next), Refused)
        else
          var w := Apply(m.world, e);
          (Machine(w, m.plan, next, true, m.trace + [w]), Done)
      case Fails(residue) =>
        var w := if residue then Residue(m.world, e) else m.world;
        (Machine(w, m.plan, next, true, m.trace + [w]), Failed)
      case Dies(residue) =>
        var w := if residue then Residue(m.world, e) else m.world;
        (Machine(w, m.plan, next, false, m.trace + [w]), Failed)
  }

  /** A machine on which everything works. */
  function Healthy(w: World): Machine { Start(w, []) }

  predicate Undisturbed(m: Machine) { m.alive && m.plan == [] }

  /** The same machine, updated in place as the running program does. */
  class Computer {
    var db: DbFile
    var sidecar: SidecarFile
    var tmp: SidecarFile
    var keychain: map<string, Secret>
    const plan: seq<Fate>
    var step: nat
    var alive: bool
    ghost var trace: seq<World>

    constructor (w: World, plan: seq<Fate>)
      ensures Value() == Start(w, plan)
    {
      db, sidecar, tmp, keychain := w.db, w.sidecar, w.tmp, w.keychain;
      this.plan, step, alive, trace := plan, 0, true, [];
    }

    function Image(): World
      reads this
    {
      World(db, sidecar, tmp, keychain)
    }

    ghost function Value(): Machine
      reads this
    {
      Machine(Image(), plan, step, alive, trace)
    }

    method Do(e: Effect) returns (status: Status)
      modifies this
      ensures (Value(), status) == Perform(old(Value()), e)
    {
      if !alive {
        return Failed;
      }
      var fate := FateAt(plan, step);
      step := step + 1;
      if fate.Works? {
        if Refuses(Image(), e) {
          return Refused;
        }
        Become(Apply(Image(), e));
        return Done;
      }
      Become(if fate.residue then Residue(Image(), e) else Image());
      alive := !fate.Dies?;
      return Failed;
    }

    method Become(w: World)
      modifies this
      ensures Value() == old(Value()).(world := w, trace := old(trace) + [w])
    {
      db, sidecar, tmp, keychain := w.db, w.sidecar, w.tmp, w.keychain;
      trace := trace + [w];
    }
  }
}
