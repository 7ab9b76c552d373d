/** What a folder weighs: a worklist walk of the disk, cut off at a number of files. */
module DiskWalk {
  import opened Wrappers
  import opened MachineInt

  /** A directory entry. `Broken`: the listing itself failed on it. `Ignored`: a link, a
      device, or an entry whose type could not be read. A file without metadata has no
      length; a locked directory cannot be listed. */
  datatype Node = Broken | Ignored | File(len: Option<nat>) | Locked | Dir(entries: seq<Node>)

  datatype Mesure = Mesure(octets: nat, fichiers: nat, tronque: bool)

  // ── The tree, summed recursively ─────────────────────────────────────

  function Bytes(n: Node): nat
    decreases n
  {
    match n
    case File(Some(len)) => len
    case Dir(entries) => AllBytes(entries)
    case _ => 0
  }

  function AllBytes(nodes: seq<Node>): nat
    decreases nodes
  {
    if nodes == [] then 0 else Bytes(nodes[0]) + AllBytes(nodes[1..])
  }

  function Files(n: Node): nat
    decreases n
  {
    match n
    case File(Some(_)) => 1
    case Dir(entries) => AllFiles(entries)
    case _ => 0
  }

  function AllFiles(nodes: seq<Node>): nat
    decreases nodes
  {
    if nodes == [] then 0 else Files(nodes[0]) + AllFiles(nodes[1..])
  }

  function Size(n: Node): nat
    decreases n
  {
    match n
    case Dir(entries) => 1 + AllSize(entries)
    case _ => 1
  }

  function AllSize(nodes: seq<Node>): nat
    decreases nodes
  {
    if nodes == [] then 0 else Size(nodes[0]) + AllSize(nodes[1..])
  }

  lemma {:induction false} SumsOfConcat(a: seq<Node>, b: seq<Node>)
    ensures AllBytes(a + b) == AllBytes(a) + AllBytes(b)
    ensures AllFiles(a + b) == AllFiles(a) + AllFiles(b)
    ensures AllSize(a + b) == AllSize(a) + AllSize(b)
    decreases a
  {
    if a == [] {
      assert a + b == b;
    } else {
      SumsOfConcat(a[1..], b);
      assert (a + b)[1..] == a[1..] + b;
    }
  }

  // ── The order in which the walk meets the entries ────────────────────

  /** What listing a directory yields; listing anything else fails. */
  function Listing(n: Node): seq<Node>
  {
    if n.Dir? then n.entries else []
  }

  /** The entries the loop sees: broken ones are dropped before. */
  function Flatten(nodes: seq<Node>): seq<Node>
    decreases |nodes|
  {
    if nodes == [] then [] else (if nodes[0].Broken? then [] else [nodes[0]]) + Flatten(nodes[1..])
  }

  /** The entries that are pushed on the stack. */
  function Folders(nodes: seq<Node>): seq<Node>
    decreases |nodes|
  {
    if nodes == [] then [] else (if nodes[0].Dir? || nodes[0].Locked? then [nodes[0]] else []) + Folders(nodes[1..])
  }

  /** The bytes and files an entry adds by itself, without what lies below it. */
  function OwnBytes(nodes: seq<Node>): nat
    decreases |nodes|
  {
    if nodes == [] then 0 else (if nodes[0].File? then Bytes(nodes[0]) else 0) + OwnBytes(nodes[1..])
  }

  function OwnFiles(nodes: seq<Node>): nat
    decreases |nodes|
  {
    if nodes == [] then 0 else (if nodes[0].File? then Files(nodes[0]) else 0) + OwnFiles(nodes[1..])
  }

  lemma {:induction false} OwnOfConcat(a: seq<Node>, b: seq<Node>)
    ensures OwnBytes(a + b) == OwnBytes(a) + OwnBytes(b)
    ensures OwnFiles(a + b) == OwnFiles(a) + OwnFiles(b)
    decreases |a|
  {
    if a == [] {
      assert a + b == b;
    } else {
      OwnOfConcat(a[1..], b);
      assert (a + b)[1..] == a[1..] + b;
    }
  }

  /** A listing weighs what its entries weigh by themselves plus what its folders hold. */
  lemma {:induction false} ListingSplits(nodes: seq<Node>)
    ensures AllBytes(nodes) == OwnBytes(Flatten(nodes)) + AllBytes(Folders(nodes))
    ensures AllFiles(nodes) == OwnFiles(Flatten(nodes)) + AllFiles(Folders(nodes))
    ensures AllSize(Folders(nodes)) <= AllSize(nodes)
    decreases |nodes|
  {
    if nodes != [] {
      ListingSplits(nodes[1..]);
      var kept := if nodes[0].Broken? then [] else [nodes[0]];
      var pushed := if nodes[0].Dir? || nodes[0].Locked? then [nodes[0]] else [];
      OwnOfConcat(kept, Flatten(nodes[1..]));
      SumsOfConcat(pushed, Folders(nodes[1..]));
    }
  }

  lemma PopShrinks(piles: seq<Node>)
    requires piles != []
    ensures var (rest, dossier) := (piles[..|piles| - 1], piles[|piles| - 1]);
            AllSize(rest + Folders(Listing(dossier))) < AllSize(piles)
  {
    var (rest, dossier) := (piles[..|piles| - 1], piles[|piles| - 1]);
    assert piles == rest + [dossier];
    SumsOfConcat(rest, [dossier]);
    SumsOfConcat(rest, Folders(Listing(dossier)));
    ListingSplits(Listing(dossier));
  }

  /** All entries a walk without a limit meets: the last folder pushed is listed first. */
  function Order(piles: seq<Node>): seq<Node>
    decreases AllSize(piles)
  {
    if piles == [] then []
    else
      var (rest, dossier) := (piles[..|piles| - 1], piles[|piles| - 1]);
      PopShrinks(piles);
      Flatten(Listing(dossier)) + Order(rest + Folders(Listing(dossier)))
  }

  lemma FolderWeighsItsListing(n: Node)
    requires !n.File?
    ensures AllBytes([n]) == AllBytes(Listing(n)) && AllFiles([n]) == AllFiles(Listing(n))
  {
  }

  lemma PopKeepsSums(piles: seq<Node>)
    requires piles != [] && !piles[|piles| - 1].File?
    ensures var (rest, entrees) := (piles[..|piles| - 1], Listing(piles[|piles| - 1]));
            && AllBytes(piles) == OwnBytes(Flatten(entrees)) + AllBytes(rest + Folders(entrees))
            && AllFiles(piles) == OwnFiles(Flatten(entrees)) + AllFiles(rest + Folders(entrees))
  {
    var (rest, dossier) := (piles[..|piles| - 1], piles[|piles| - 1]);
    FolderWeighsItsListing(dossier);
    ListingSplits(Listing(dossier));
    SumsOfConcat(rest, Folders(Listing(dossier)));
    SumsOfConcat(rest, [dossier]);
    assert rest + [dossier] == piles;
  }

  lemma {:induction false} FoldersAreFolders(nodes: seq<Node>)
    ensures forall n | n in Folders(nodes) :: n.Dir? || n.Locked?
    decreases |nodes|
  {
    if nodes != [] {
      FoldersAreFolders(nodes[1..]);
    }
  }

  /** Whatever a folder on the stack holds is met once: the walk sums to the recursive total. */
  lemma {:induction false} OrderSumsToTree(piles: seq<Node>)
    requires forall n | n in piles :: !n.File?
    ensures OwnBytes(Order(piles)) == AllBytes(piles)
    ensures OwnFiles(Order(piles)) == AllFiles(piles)
    decreases AllSize(piles)
  {
    if piles != [] {
      var (rest, entrees) := (piles[..|piles| - 1], Listing(piles[|piles| - 1]));
      PopShrinks(piles);
      PopKeepsSums(piles);
      FoldersAreFolders(entrees);
      OrderSumsToTree(rest + Folders(entrees));
      OwnOfConcat(Flatten(entrees), Order(rest + Folders(entrees)));
    }
  }

  /** The entries below a node that can be met at all: all but the broken ones. */
  function Met(n: Node): nat
    decreases n
  {
    match n
    case Dir(entries) => AllMet(entries)
    case _ => 0
  }

  function AllMet(nodes: seq<Node>): nat
    decreases nodes
  {
    if nodes == [] then 0 else (if nodes[0].Broken? then 0 else 1) + Met(nodes[0]) + AllMet(nodes[1..])
  }

  function Below(piles: seq<Node>): nat
    decreases |piles|
  {
    if piles == [] then 0 else Met(piles[0]) + Below(piles[1..])
  }

  lemma {:induction false} BelowOfConcat(a: seq<Node>, b: seq<Node>)
    ensures Below(a + b) == Below(a) + Below(b)
    decreases |a|
  {
    if a == [] {
      assert a + b == b;
    } else {
      BelowOfConcat(a[1..], b);
      assert (a + b)[1..] == a[1..] + b;
    }
  }

  lemma {:induction false} ListingMet(nodes: seq<Node>)
    ensures AllMet(nodes) == |Flatten(nodes)| + Below(Folders(nodes))
    ensures forall n | n in Flatten(nodes) :: !n.Broken?
    decreases |nodes|
  {
    if nodes != [] {
      ListingMet(nodes[1..]);
      BelowOfConcat(if nodes[0].Dir? || nodes[0].Locked? then [nodes[0]] else [], Folders(nodes[1..]));
    }
  }

  /** The walk meets as many entries as there are in the tree, and no broken one. */
  lemma {:induction false} OrderMeetsAll(piles: seq<Node>)
    ensures |Order(piles)| == Below(piles)
    ensures forall n | n in Order(piles) :: !n.Broken?
    decreases AllSize(piles)
  {
    if piles != [] {
      var (rest, dossier) := (piles[..|piles| - 1], piles[|piles| - 1]);
      PopShrinks(piles);
      ListingMet(Listing(dossier));
      OrderMeetsAll(rest + Folders(Listing(dossier)));
      BelowOfConcat(rest, Folders(Listing(dossier)));
      BelowOfConcat(rest, [dossier]);
      assert piles == rest + [dossier];
    }
  }

  // ── The walk ─────────────────────────────────────────────────────────

  /** The walk stops before the n-th entry: nowhere earlier was the limit reached, and
      it was reached there unless there is no n-th entry. */
  ghost predicate StopsAt(order: seq<Node>, n: nat, plafond: nat)
  {
    && n <= |order|
    && (forall i | 0 <= i < n :: OwnFiles(order[..i]) < plafond)
    && (n < |order| ==> OwnFiles(order[..n]) >= plafond)
  }

  /** The measure of a walk that stopped at `n`. */
  function MeasureAt(order: seq<Node>, n: nat): Mesure
    requires n <= |order|
  {
    Mesure(WrapU64(OwnBytes(order[..n])), OwnFiles(order[..n]), n < |order|)
  }

  /** What has been counted after `n` entries, none of them met at the limit. */
  ghost predicate Counted(order: seq<Node>, n: nat, m: Mesure, plafond: nat)
  {
    && n <= |order|
    && m == Mesure(WrapU64(OwnBytes(order[..n])), OwnFiles(order[..n]), false)
    && forall i | 0 <= i < n :: OwnFiles(order[..i]) < plafond
  }

  /** Meeting one more entry below the limit. */
  lemma OneMore(order: seq<Node>, n: nat, m: Mesure, entree: Node, plafond: nat)
    requires Counted(order, n, m, plafond) && m.fichiers < plafond && n < |order| && order[n] == entree
    ensures var m' := if entree.File? && entree.len.Some?
                      then Mesure(WrapU64(m.octets + entree.len.value), m.fichiers + 1, false) else m;
            Counted(order, n + 1, m', plafond)
  {
    assert order[..n + 1] == order[..n] + [entree];
    OwnOfConcat(order[..n], [entree]);
    WrapAdd(OwnBytes(order[..n]), if entree.File? then Bytes(entree) else 0);
  }

  /** The measure is what a walk that stops at the limit has counted. */
  ghost predicate StoppedAtLimit(order: seq<Node>, plafond: nat, m: Mesure)
  {
    exists n | 0 <= n <= |order| :: StopsAt(order, n, plafond) && m == MeasureAt(order, n)
  }

  lemma Unroll(entrees: seq<Node>, k: nat)
    requires k < |entrees|
    ensures Flatten(entrees[k..]) == (if entrees[k].Broken? then [] else [entrees[k]]) + Flatten(entrees[k + 1..])
    ensures Folders(entrees[k..]) ==
            (if entrees[k].Dir? || entrees[k].Locked? then [entrees[k]] else []) + Folders(entrees[k + 1..])
  {
    assert entrees[k..][1..] == entrees[k + 1..];
  }

  lemma Push(piles: seq<Node>, entree: Node, rest: seq<Node>)
    ensures piles + [entree] + rest == piles + ([entree] + rest)
  {
  }

  lemma Peel(order: seq<Node>, n: nat, entree: Node, tail: seq<Node>)
    requires n <= |order| && order[n..] == [entree] + tail
    ensures n < |order| && order[n] == entree && order[n + 1..] == tail
  {
    assert order[n] == order[n..][0];
    assert order[n + 1..] == order[n..][1..];
  }

  /** The inner loop: counts the entries of one directory and pushes its folders. */
  method Lister(entrees: seq<Node>, dessous: seq<Node>, avant: Mesure, plafond: nat,
                ghost order: seq<Node>, ghost start: nat, ghost left: seq<Node>)
    returns (piles: seq<Node>, m: Mesure, ghost n: nat)
    requires Counted(order, start, avant, plafond) && order[start..] == Flatten(entrees) + left
    ensures m.tronque ==> StopsAt(order, n, plafond) && m == MeasureAt(order, n)
    ensures !m.tronque ==> Counted(order, n, m, plafond) && order[n..] == left && piles == dessous + Folders(entrees)
  {
    piles, m, n := dessous, avant, start;
    for k := 0 to |entrees|
      invariant piles + Folders(entrees[k..]) == dessous + Folders(entrees)
      invariant Counted(order, n, m, plafond) && order[n..] == Flatten(entrees[k..]) + left
    {
      var entree := entrees[k];
      Unroll(entrees, k);
      if !entree.Broken? {
        Peel(order, n, entree, Flatten(entrees[k + 1..]) + left);
        if m.fichiers >= plafond {
          m := m.(tronque := true);
          return;
        }
        OneMore(order, n, m, entree, plafond);
        n := n + 1;
        if entree.Dir? || entree.Locked? {
          Push(piles, entree, Folders(entrees[k + 1..]));
          piles := piles + [entree];
        } else if entree.File? && entree.len.Some? {
          m := m.(octets := WrapU64(m.octets + entree.len.value), fichiers := m.fichiers + 1);
        }
      }
    }
  }

  method TailleDossier(racine: Node, plafond: nat) returns (m: Mesure)
    ensures StoppedAtLimit(Order([racine]), plafond, m)
  {
    m := Mesure(0, 0, false);
    var piles := [racine];
    ghost var order := Order([racine]);
    ghost var n: nat := 0;
    while piles != []
      invariant Counted(order, n, m, plafond) && order[n..] == Order(piles)
      decreases AllSize(piles)
    {
      PopShrinks(piles);
      var dossier := piles[|piles| - 1];
      ghost var after := piles[..|piles| - 1] + Folders(Listing(dossier));
      piles, m, n := Lister(Listing(dossier), piles[..|piles| - 1], m, plafond, order, n, Order(after));
      if m.tronque {
        return;
      }
    }
    assert StopsAt(order, n, plafond) && m == MeasureAt(order, n);
  }

  lemma NeverAbove(order: seq<Node>, n: nat, plafond: nat)
    requires StopsAt(order, n, plafond)
    ensures OwnFiles(order[..n]) <= plafond
  {
    if n > 0 {
      assert order[..n] == order[..n - 1] + [order[n - 1]];
      OwnOfConcat(order[..n - 1], [order[n - 1]]);
    }
  }

  // ── What the measure means ───────────────────────────────────────────

  lemma RootSums(racine: Node)
    ensures OwnBytes(Order([racine])) == AllBytes(Listing(racine))
    ensures OwnFiles(Order([racine])) == AllFiles(Listing(racine))
  {
    if racine.File? {
      assert [racine][..0] + Folders([]) == [];
    } else {
      OrderSumsToTree([racine]);
      FolderWeighsItsListing(racine);
    }
  }

  lemma PrefixSums(order: seq<Node>, n: nat)
    requires n <= |order|
    ensures OwnBytes(order[..n]) <= OwnBytes(order) && OwnFiles(order[..n]) <= OwnFiles(order)
    ensures n == |order| ==> order[..n] == order
  {
    assert order == order[..n] + order[n..];
    OwnOfConcat(order[..n], order[n..]);
  }

  /** Not cut off: both totals are those of the tree. Cut off: exactly the limit was
      counted, and (short of 2^64 bytes) the weight is a lower bound. More files than
      the limit always cut the walk off. */
  lemma MeasureIsHonest(racine: Node, plafond: nat, m: Mesure)
    requires StoppedAtLimit(Order([racine]), plafond, m)
    ensures var (octets, fichiers) := (AllBytes(Listing(racine)), AllFiles(Listing(racine)));
            && (!m.tronque ==> m.octets == WrapU64(octets) && m.fichiers == fichiers)
            && (m.tronque ==> m.fichiers == plafond && fichiers >= plafond)
            && (m.tronque && octets < TWO64 ==> m.octets <= octets)
            && (fichiers > plafond ==> m.tronque)
            && m.fichiers <= plafond
  {
    var order := Order([racine]);
    var n :| 0 <= n <= |order| && StopsAt(order, n, plafond) && m == MeasureAt(order, n);
    RootSums(racine);
    PrefixSums(order, n);
    NeverAbove(order, n, plafond);
  }

  /** There is one such measure. */
  lemma MeasureIsUnique(order: seq<Node>, plafond: nat, m: Mesure, m': Mesure)
    requires StoppedAtLimit(order, plafond, m) && StoppedAtLimit(order, plafond, m')
    ensures m == m'
  {
    var n :| 0 <= n <= |order| && StopsAt(order, n, plafond) && m == MeasureAt(order, n);
    var n' :| 0 <= n' <= |order| && StopsAt(order, n', plafond) && m' == MeasureAt(order, n');
    assert n == n';
  }

  /** The mark, exactly: some entry, of any kind, was met once the limit had been reached. */
  lemma MarkExactly(racine: Node, plafond: nat, m: Mesure)
    requires StoppedAtLimit(Order([racine]), plafond, m)
    ensures var order := Order([racine]);
            m.tronque <==> exists i | 0 <= i < |order| :: OwnFiles(order[..i]) >= plafond
  {
    var order := Order([racine]);
    var n :| 0 <= n <= |order| && StopsAt(order, n, plafond) && m == MeasureAt(order, n);
    if m.tronque {
      assert n < |order| && OwnFiles(order[..n]) >= plafond;
    } else {
      assert forall i | 0 <= i < n :: OwnFiles(order[..i]) < plafond;
    }
  }

  lemma FlatListing(a: Node, b: Node)
    requires (a.File? || a.Ignored?) && (b.File? || b.Ignored?)
    ensures Order([Dir([a, b])]) == [a, b]
  {
    assert [a, b][1..] == [b] && [b][1..] == [];
    assert Flatten([b]) == [b] && Folders([b]) == [];
    assert Flatten([a, b]) == [a, b] && Folders([a, b]) == [];
    assert [Dir([a, b])][..0] == [] && [Dir([a, b])][..0] + Folders([a, b]) == [];
  }

  /** So with exactly as many files as the limit it depends on the order of the listing,
      and a walk that left nothing out may carry it. */
  lemma MarkDependsOnOrder(len: nat)
    ensures var order := Order([Dir([File(Some(len)), Ignored])]);
            exists m :: StoppedAtLimit(order, 1, m) && m.tronque
    ensures var order := Order([Dir([Ignored, File(Some(len))])]);
            exists m :: StoppedAtLimit(order, 1, m) && !m.tronque
  {
    var file := File(Some(len));
    FlatListing(file, Ignored);
    FlatListing(Ignored, file);
    assert [file, Ignored][..1] == [file] && [file, Ignored][..0] == [];
    assert StopsAt([file, Ignored], 1, 1) && StoppedAtLimit([file, Ignored], 1, MeasureAt([file, Ignored], 1));
    assert [Ignored, file][..2] == [Ignored, file] && [Ignored, file][..1] == [Ignored] && [Ignored, file][..0] == [];
    assert StopsAt([Ignored, file], 2, 1) && StoppedAtLimit([Ignored, file], 1, MeasureAt([Ignored, file], 2));
  }
}
