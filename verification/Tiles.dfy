/** Byte ranges of tile archives: the `Range` header, the bytes it selects, and the
    file rebuilt from its blocks. */
module Tiles {
  import opened Wrappers
  import opened MachineInt
  import opened Text
  import opened Hex

  // ── The parser ───────────────────────────────────────────────────────

  /** Inclusive bounds. */
  datatype Plage = Plage(debut: nat, fin: nat)

  function Payload(v: string): Option<string> { StripPrefix(Trim(v), "bytes=") }

  /** A single range is cut at its dash; a list of ranges is not. */
  function Cut(reste: string): Option<(string, string)>
  {
    if ',' in reste then None else SplitOnce(reste, '-')
  }

  /** What stands before and after the dash of a single range. */
  function Halves(v: string): Option<(string, string)>
  {
    match Payload(v)
    case None => None
    case Some(reste) =>
      match Cut(reste)
      case None => None
      case Some((a, b)) => Some((Trim(a), Trim(b)))
  }

  function Bounds(a: string, b: string, taille: nat): (r: Option<Plage>)
    ensures r.Some? ==> r.value.debut <= r.value.fin < taille
  {
    if a == "" then
      match ParseU64(b)
      case None => None
      case Some(n) => if n == 0 || taille == 0 then None else Some(Plage(taille - Min(n, taille), taille - 1))
    else
      match ParseU64(a)
      case None => None
      case Some(debut) =>
        if debut >= taille then None
        else if b == "" then Some(Plage(debut, taille - 1))
        else
          match ParseU64(b)
          case None => None
          case Some(n) =>
            var fin := Min(n, taille - 1);
            if fin < debut then None else Some(Plage(debut, fin))
  }

  /** The bounds to serve, or `None` when the whole file is to be served. */
  function ParseRange(v: string, taille: nat): (r: Option<Plage>)
    ensures r.Some? ==> r.value.debut <= r.value.fin < taille
  {
    match Halves(v)
    case None => None
    case Some((a, b)) => Bounds(a, b, taille)
  }

  // ── What a range means ───────────────────────────────────────────────

  /** The three forms of a single range, section 14.1.2 of RFC 9110. */
  datatype Range = FromTo(first: nat, last: nat) | From(first: nat) | Last(length: nat)

  function Before(r: Range): (s: string)
    ensures AllDigits(s)
  {
    if r.Last? then "" else PrintNat(r.first)
  }

  function After(r: Range): (s: string)
    ensures AllDigits(s)
  {
    match r
    case FromTo(_, f) => PrintNat(f)
    case From(_) => ""
    case Last(k) => PrintNat(k)
  }

  function Wire(a: string, b: string): string { "bytes=" + (a + "-" + b) }

  function Print(r: Range): string
  {
    Wire(Before(r), After(r))
  }

  /** Position `i` of a file of `taille` bytes is selected. */
  predicate Selects(r: Range, i: nat, taille: nat)
  {
    i < taille &&
    match r
    case FromTo(d, f) => d <= i <= f
    case From(d) => d <= i
    case Last(k) => taille - k <= i
  }

  predicate Fits(r: Range)
  {
    match r
    case FromTo(d, f) => d < TWO64 && f < TWO64
    case From(d) => d < TWO64
    case Last(k) => k < TWO64
  }

  /** The outcome for a printed range, in closed form. */
  function Clamped(r: Range, taille: nat): Option<Plage>
  {
    if !Fits(r) || taille == 0 then None
    else
      match r
      case FromTo(d, f) => if d < taille && d <= f then Some(Plage(d, Min(f, taille - 1))) else None
      case From(d) => if d < taille then Some(Plage(d, taille - 1)) else None
      case Last(k) => if k > 0 then Some(Plage(taille - Min(k, taille), taille - 1)) else None
  }

  lemma CutExactly(x: string, y: string)
    ensures '-' !in x && ',' !in x && ',' !in y ==> Cut(x + "-" + y) == Some((x, y))
  {
    if '-' !in x {
      SplitOnceUnique(x, '-', y);
    }
  }

  /** The halves of a header are those of its one decomposition. */
  lemma HalvesExactly(v: string, x: string, y: string)
    requires Trim(v) == Wire(x, y) && '-' !in x && ',' !in x && ',' !in y
    ensures Halves(v) == Some((Trim(x), Trim(y)))
  {
    assert Trim(v)[6..] == x + "-" + y;
    CutExactly(x, y);
  }

  lemma HalvesOf(a: string, b: string)
    requires AllDigits(a) && AllDigits(b)
    ensures Halves(Wire(a, b)) == Some((a, b))
  {
    TrimNothing(Wire(a, b));
    HalvesExactly(Wire(a, b), a, b);
    TrimNothing(a);
    TrimNothing(b);
  }

  lemma BoundsPrinted(r: Range, taille: nat)
    ensures Bounds(Before(r), After(r), taille) == Clamped(r, taille)
  {
    match r
    case FromTo(d, f) => ParsePrintU64(d); ParsePrintU64(f);
    case From(d) => ParsePrintU64(d);
    case Last(k) => ParsePrintU64(k);
  }

  lemma ParsePrinted(r: Range, taille: nat)
    ensures ParseRange(Print(r), taille) == Clamped(r, taille)
  {
    HalvesOf(Before(r), After(r));
    BoundsPrinted(r, taille);
  }

  /** These bounds are the positions a range selects, and there are some. */
  ghost predicate Denotes(p: Plage, r: Range, taille: nat)
  {
    p.debut <= p.fin < taille && forall i: nat :: p.debut <= i <= p.fin <==> Selects(r, i, taille)
  }

  /** The closed form: bounds exactly for the ranges that fit and select something. */
  lemma ClampedMeans(r: Range, taille: nat)
    ensures match Clamped(r, taille)
            case None => !Fits(r) || forall i :: !Selects(r, i, taille)
            case Some(p) => Fits(r) && Denotes(p, r, taille)
  {
  }

  /** A printed range is served in part exactly when its numbers fit 64 bits and it
      selects something; and then the part is what it selects. */
  lemma PrintedRangeMeans(r: Range, taille: nat)
    ensures match ParseRange(Print(r), taille)
            case None => !Fits(r) || forall i :: !Selects(r, i, taille)
            case Some(p) => Fits(r) && Denotes(p, r, taille)
  {
    ParsePrinted(r, taille);
    ClampedMeans(r, taille);
  }

  // ── Every spelling ───────────────────────────────────────────────────

  /** The range that two halves spell: which of them is empty gives the form. */
  predicate SpelledBy(a: string, b: string, r: Range)
  {
    match r
    case FromTo(d, f) => a != "" && ParseU64(a) == Some(d) && b != "" && ParseU64(b) == Some(f)
    case From(d) => a != "" && ParseU64(a) == Some(d) && b == ""
    case Last(k) => a == "" && ParseU64(b) == Some(k)
  }

  predicate SpellsWith(v: string, r: Range, x: string, y: string)
  {
    Trim(v) == Wire(x, y) && '-' !in x && ',' !in x && ',' !in y && SpelledBy(Trim(x), Trim(y), r)
  }

  /** The header, blanks around it aside, is `bytes=`, a first half without a dash, a dash and
      a second half, no comma anywhere; and the halves, blanks around them aside, spell `r`. */
  ghost predicate Spells(v: string, r: Range)
  {
    exists x: string, y: string :: SpellsWith(v, r, x, y)
  }

  lemma HalvesComeFrom(v: string) returns (x: string, y: string)
    requires Halves(v).Some?
    ensures Trim(v) == Wire(x, y) && '-' !in x && ',' !in x && ',' !in y
    ensures Halves(v) == Some((Trim(x), Trim(y)))
  {
    var reste := Payload(v).value;
    SplitOnceParts(reste, '-');
    x, y := Cut(reste).value.0, Cut(reste).value.1;
    assert reste == x + "-" + y;
  }

  lemma BoundsSpelled(a: string, b: string, r: Range, taille: nat)
    requires SpelledBy(a, b, r)
    ensures Fits(r) && Bounds(a, b, taille) == Clamped(r, taille)
  {
  }

  lemma BoundsAreSpelled(a: string, b: string, taille: nat) returns (r: Range)
    requires Bounds(a, b, taille).Some?
    ensures SpelledBy(a, b, r)
  {
    if a == "" {
      r := Last(ParseU64(b).value);
    } else if b == "" {
      r := From(ParseU64(a).value);
    } else {
      r := FromTo(ParseU64(a).value, ParseU64(b).value);
    }
  }

  /** A spelled range parses to its closed form. */
  lemma SpelledRangeParses(v: string, r: Range, taille: nat)
    requires Spells(v, r)
    ensures Fits(r) && ParseRange(v, taille) == Clamped(r, taille)
  {
    var x: string, y: string :| SpellsWith(v, r, x, y);
    HalvesExactly(v, x, y);
    BoundsSpelled(Trim(x), Trim(y), r, taille);
  }

  lemma AcceptedIsSpelled(v: string, taille: nat) returns (r: Range)
    requires ParseRange(v, taille).Some?
    ensures Spells(v, r)
  {
    var x, y := HalvesComeFrom(v);
    r := BoundsAreSpelled(Trim(x), Trim(y), taille);
    assert SpellsWith(v, r, x, y);
  }

  lemma DenotesExactly(p: Plage, r: Range, taille: nat)
    requires Fits(r)
    ensures Denotes(p, r, taille) <==> Clamped(r, taille) == Some(p)
  {
    ClampedMeans(r, taille);
    if Denotes(p, r, taille) {
      assert Selects(r, p.debut, taille) && Selects(r, p.fin, taille);
      var q := Clamped(r, taille).value;
      assert Selects(r, q.debut, taille) && Selects(r, q.fin, taille);
    }
  }

  /** The parser accepts exactly the headers that spell a range selecting something, plus
      signs, leading zeros and blanks included, and answers what that range selects. */
  lemma AcceptedExactly(v: string, taille: nat, p: Plage)
    ensures ParseRange(v, taille) == Some(p) <==> exists r: Range :: Spells(v, r) && Denotes(p, r, taille)
  {
    if ParseRange(v, taille) == Some(p) {
      var r := AcceptedIsSpelled(v, taille);
      SpelledRangeParses(v, r, taille);
      DenotesExactly(p, r, taille);
    }
    if r: Range :| Spells(v, r) && Denotes(p, r, taille) {
      SpelledRangeParses(v, r, taille);
      DenotesExactly(p, r, taille);
    }
  }

  lemma {:induction false} CommaStaysAtStart(s: string)
    requires ',' in s
    ensures ',' in TrimStart(s)
  {
    if IsSpace(s[0]) {
      assert s == [s[0]] + s[1..];
      CommaStaysAtStart(s[1..]);
    }
  }

  lemma {:induction false} CommaStaysAtEnd(s: string)
    requires ',' in s
    ensures ',' in TrimEnd(s)
  {
    if IsSpace(s[|s| - 1]) {
      assert s == s[..|s| - 1] + [s[|s| - 1]];
      CommaStaysAtEnd(s[..|s| - 1]);
    }
  }

  /** A list of several ranges is never served in part, not even for the first one. */
  lemma SeveralRangesServeAll(v: string, taille: nat)
    requires ',' in v
    ensures ParseRange(v, taille).None?
  {
    CommaStaysAtStart(v);
    CommaStaysAtEnd(TrimStart(v));
    if "bytes=" <= Trim(v) {
      assert Trim(v) == "bytes=" + Trim(v)[6..];
    }
  }

  // ── Names and fingerprints ───────────────────────────────────────────

  /** Only archives and their manifests, and only by a plain name. */
  predicate NomSur(nom: string)
  {
    && !Contains(nom, "/") && !Contains(nom, "\\") && !Contains(nom, "..")
    && (StripSuffix(nom, ".pmtiles").Some? || StripSuffix(nom, ".pack.json").Some?)
  }

  /** No served name leads out of the folder. */
  lemma ServedNamesStayInside(nom: string)
    requires NomSur(nom)
    ensures '/' !in nom && '\\' !in nom && nom != "." && nom != ".." && nom != ""
  {
    ContainsChar(nom, '/');
    ContainsChar(nom, '\\');
  }

  predicate TwoDotsAt(nom: string, i: nat) { i + 1 < |nom| && nom[i] == '.' && nom[i + 1] == '.' }

  predicate HasTwoDots(nom: string)
  {
    exists i | 0 <= i < |nom| :: TwoDotsAt(nom, i)
  }

  lemma {:induction false} ContainsTwoDots(nom: string)
    ensures Contains(nom, "..") <==> HasTwoDots(nom)
  {
    if nom != "" {
      var rest := nom[1..];
      ContainsTwoDots(rest);
      assert ".." <= nom <==> TwoDotsAt(nom, 0);
      if i :| 0 <= i < |rest| && TwoDotsAt(rest, i) {
        assert TwoDotsAt(nom, i + 1);
      }
      if i :| 0 <= i < |nom| && TwoDotsAt(nom, i) && i > 0 {
        assert TwoDotsAt(rest, i - 1);
      }
    }
  }

  /** The names that are served: no separator, no two dots in a row, and one of the two endings. */
  lemma ServedNamesExactly(nom: string)
    ensures NomSur(nom) <==>
            && '/' !in nom && '\\' !in nom && !HasTwoDots(nom)
            && (exists stem: string :: nom == stem + ".pmtiles" || nom == stem + ".pack.json")
  {
    ContainsChar(nom, '/');
    ContainsChar(nom, '\\');
    ContainsTwoDots(nom);
    if stem: string :| nom == stem + ".pmtiles" || nom == stem + ".pack.json" {
      assert StripSuffix(nom, ".pmtiles").Some? || StripSuffix(nom, ".pack.json").Some?;
    }
  }

  /** Size and time of last change, zero when the time cannot be read. */
  datatype Metadata = Metadata(taille: nat, secs: nat)

  function Empreinte(m: Metadata): string
  {
    "\"" + (PrintNat(m.taille) + "-" + (PrintNat(m.secs) + "\""))
  }

  lemma EmpreinteHasNo(m: Metadata, c: char)
    requires !IsDigit(c) && c != '-' && c != '"'
    ensures c !in Empreinte(m)
  {
    assert c !in PrintNat(m.taille) && c !in PrintNat(m.secs);
  }

  /** A fingerprint changes exactly when the size or the time does. */
  lemma EmpreinteExactly(m: Metadata, m': Metadata)
    ensures Empreinte(m) == Empreinte(m') <==> m == m'
  {
    var e, e' := Empreinte(m), Empreinte(m');
    if e == e' {
      var a, a' := PrintNat(m.taille), PrintNat(m'.taille);
      var b, b' := PrintNat(m.secs) + "\"", PrintNat(m'.secs) + "\"";
      assert e[1..] == a + "-" + b && e'[1..] == a' + "-" + b';
      SplitOnceUnique(a, '-', b);
      SplitOnceUnique(a', '-', b');
      assert b[..|b| - 1] == PrintNat(m.secs) && b'[..|b'| - 1] == PrintNat(m'.secs);
      PrintNatValue(m.taille);
      PrintNatValue(m'.taille);
      PrintNatValue(m.secs);
      PrintNatValue(m'.secs);
    }
  }

  /** Some entry of the comma-separated list is this fingerprint. */
  predicate Presents(list: string, etag: string)
    decreases |list|
  {
    match SplitOnce(list, ',')
    case None => Trim(list) == etag
    case Some((entry, rest)) => Trim(entry) == etag || Presents(rest, etag)
  }

  /** A browser that kept fingerprints, one or several, presents the current one exactly
      when it kept it. */
  lemma PresentsExactly(kept: Metadata, rest: string, m: Metadata)
    ensures Presents(Empreinte(kept), Empreinte(m)) <==> kept == m
    ensures Presents(Empreinte(kept) + "," + rest, Empreinte(m)) <==> kept == m || Presents(rest, Empreinte(m))
  {
    var e := Empreinte(kept);
    EmpreinteExactly(kept, m);
    EmpreinteHasNo(kept, ',');
    SplitOnceParts(e, ',');
    SplitOnceUnique(e, ',', rest);
    forall c | c in e ensures !IsSpace(c) {
      if IsSpace(c) {
        EmpreinteHasNo(kept, c);
      }
    }
    TrimNothing(e);
  }

  /** From `i` up to `j` stands one entry of the comma-separated list. */
  predicate IsEntry(list: string, i: nat, j: nat)
  {
    && i <= j <= |list| && ',' !in list[i..j]
    && (i == 0 || list[i - 1] == ',') && (j == |list| || list[j] == ',')
  }

  predicate EntryIs(list: string, i: nat, j: nat, etag: string)
  {
    IsEntry(list, i, j) && Trim(list[i..j]) == etag
  }

  predicate Lists(list: string, etag: string)
  {
    exists i, j | 0 <= i <= j <= |list| :: EntryIs(list, i, j, etag)
  }

  lemma EntryBehind(first: string, rest: string, i: nat, j: nat, etag: string)
    requires i <= j <= |rest|
    ensures var (list, k) := (first + "," + rest, |first| + 1);
            EntryIs(list, i + k, j + k, etag) <==> EntryIs(rest, i, j, etag)
  {
    var list, k := first + "," + rest, |first| + 1;
    assert list[i + k..j + k] == rest[i..j];
  }

  lemma FirstEntry(first: string, rest: string, j: nat, etag: string)
    requires ',' !in first
    ensures EntryIs(first + "," + rest, 0, j, etag) <==> j == |first| && Trim(first) == etag
  {
    var list := first + "," + rest;
    assert list[..|first|] == first && list[|first|] == ',';
    if |first| < j <= |list| {
      assert list[0..j][|first|] == ',';
    }
  }

  lemma OneEntry(list: string, etag: string)
    requires ',' !in list
    ensures Lists(list, etag) <==> Trim(list) == etag
  {
    assert list[0..|list|] == list;
    assert EntryIs(list, 0, |list|, etag) <==> Trim(list) == etag;
    assert forall i, j | 0 <= i <= j <= |list| && EntryIs(list, i, j, etag) :: i == 0 && j == |list|;
  }

  /** An entry that is not the first one begins behind the first comma. */
  lemma LaterEntry(first: string, rest: string, i: nat, j: nat, etag: string)
    requires ',' !in first && i > 0 && EntryIs(first + "," + rest, i, j, etag)
    ensures i > |first| && EntryIs(rest, i - |first| - 1, j - |first| - 1, etag)
  {
    var list := first + "," + rest;
    assert forall x | 0 <= x < |first| :: list[x] == first[x];
    EntryBehind(first, rest, i - |first| - 1, j - |first| - 1, etag);
  }

  lemma ListsFirst(first: string, rest: string, etag: string)
    requires ',' !in first && (Trim(first) == etag || Lists(rest, etag))
    ensures Lists(first + "," + rest, etag)
  {
    var list, k := first + "," + rest, |first| + 1;
    if i, j :| 0 <= i <= j <= |rest| && EntryIs(rest, i, j, etag) {
      EntryBehind(first, rest, i, j, etag);
      assert EntryIs(list, i + k, j + k, etag);
    } else {
      FirstEntry(first, rest, |first|, etag);
      assert EntryIs(list, 0, |first|, etag);
    }
  }

  lemma ListsEither(first: string, rest: string, etag: string)
    requires ',' !in first && Lists(first + "," + rest, etag)
    ensures Trim(first) == etag || Lists(rest, etag)
  {
    var list := first + "," + rest;
    var i, j :| 0 <= i <= j <= |list| && EntryIs(list, i, j, etag);
    if i == 0 {
      FirstEntry(first, rest, j, etag);
    } else {
      LaterEntry(first, rest, i, j, etag);
    }
  }

  /** A header presents a fingerprint exactly when one of its entries, blanks aside, is it. */
  lemma {:induction false} PresentsAnEntry(list: string, etag: string)
    ensures Presents(list, etag) <==> Lists(list, etag)
    decreases |list|
  {
    SplitOnceParts(list, ',');
    match SplitOnce(list, ',')
    case None => OneEntry(list, etag);
    case Some((first, rest)) =>
      PresentsAnEntry(rest, etag);
      assert list == first + "," + rest;
      if Presents(list, etag) {
        ListsFirst(first, rest, etag);
      }
      if Lists(list, etag) {
        ListsEither(first, rest, etag);
      }
  }

  // ── Serving ──────────────────────────────────────────────────────────

  datatype Reply =
    | BadRequest
    | NotFound
    | NotModified(etag: string)
    | PartialContent(debut: nat, fin: nat, taille: nat, body: seq<byte>)
    | Ok200(body: seq<byte>)
    | InternalError

  /** Reads the bytes of `debut..=fin`, or fails when the file ends before. */
  method LirePlage(file: seq<byte>, debut: nat, fin: nat) returns (r: Option<seq<byte>>)
    requires debut <= fin
    ensures r == if fin < |file| then Some(file[debut..fin + 1]) else None
  {
    var taille := fin - debut + 1;
    var buf := new byte[taille](_ => 0);
    for i := 0 to taille
      invariant debut + i <= |file| || i == 0
      invariant i > 0 ==> buf[..i] == file[debut..debut + i]
    {
      if debut + i >= |file| {
        return None;
      }
      buf[i] := file[debut + i];
    }
    assert buf[..taille] == buf[..];
    return Some(buf[..]);
  }

  /** Reading the file: `taille` was read before, and the file may have changed or gone since. */
  function Served(file: Option<seq<byte>>, taille: nat, plage: Option<Plage>): Reply
  {
    match (plage, file)
    case (Some(Plage(debut, fin)), Some(bytes)) =>
      if debut <= fin < |bytes| then PartialContent(debut, fin, taille, bytes[debut..fin + 1]) else InternalError
    case (Some(_), None) => InternalError
    case (None, Some(bytes)) => Ok200(bytes)
    case (None, None) => NotFound
  }

  function Asked(range: Option<string>, taille: nat): Option<Plage>
  {
    if range.Some? then ParseRange(range.value, taille) else None
  }

  function Answer(nom: string, meta: Option<Metadata>, file: Option<seq<byte>>,
                  ifNoneMatch: Option<string>, range: Option<string>): Reply
  {
    if !NomSur(nom) then BadRequest
    else if meta.None? then NotFound
    else
      var etag := Empreinte(meta.value);
      if ifNoneMatch.Some? && Presents(ifNoneMatch.value, etag) then NotModified(etag)
      else Served(file, meta.value.taille, Asked(range, meta.value.taille))
  }

  /** The two ways of reading: by bounds, or the whole file. */
  method ReadAndServe(file: Option<seq<byte>>, taille: nat, plage: Option<Plage>) returns (reply: Reply)
    requires plage.Some? ==> plage.value.debut <= plage.value.fin
    ensures reply == Served(file, taille, plage)
  {
    if plage.None? {
      return if file.Some? then Ok200(file.value) else NotFound;
    }
    if file.None? {
      return InternalError;
    }
    var Plage(debut, fin) := plage.value;
    var buf := LirePlage(file.value, debut, fin);
    return if buf.Some? then PartialContent(debut, fin, taille, buf.value) else InternalError;
  }

  method GetTileArchive(nom: string, meta: Option<Metadata>, file: Option<seq<byte>>,
                        ifNoneMatch: Option<string>, range: Option<string>)
    returns (reply: Reply)
    ensures reply == Answer(nom, meta, file, ifNoneMatch, range)
  {
    if !NomSur(nom) {
      return BadRequest;
    }
    if meta.None? {
      return NotFound;
    }
    var taille, etag := meta.value.taille, Empreinte(meta.value);
    if ifNoneMatch.Some? && Presents(ifNoneMatch.value, etag) {
      return NotModified(etag);
    }
    var plage := Asked(range, taille);
    reply := ReadAndServe(file, taille, plage);
  }

  lemma ReadingIsFaithful(file: seq<byte>, plage: Option<Plage>)
    requires plage.Some? ==> plage.value.debut <= plage.value.fin < |file|
    ensures match Served(Some(file), |file|, plage)
            case PartialContent(debut, fin, taille, body) =>
              && debut <= fin < taille == |file| && |body| == fin - debut + 1
              && forall i | 0 <= i < |body| :: body[i] == file[debut + i]
            case Ok200(body) => body == file
            case _ => false
  {
  }

  /** Behind the checks of name and fingerprint, the answer is what reading gives. */
  lemma AnswerReads(nom: string, meta: Metadata, file: Option<seq<byte>>, ifNoneMatch: Option<string>,
                    range: Option<string>)
    requires NomSur(nom) && (ifNoneMatch.Some? ==> !Presents(ifNoneMatch.value, Empreinte(meta)))
    ensures Answer(nom, Some(meta), file, ifNoneMatch, range) == Served(file, meta.taille, Asked(range, meta.taille))
  {
  }

  /** On an unchanged file every reply carries the bytes it announces, byte for byte; the only
      refusals are of unsafe names, and nothing is sent exactly to those who have it already. */
  lemma ServedIsFaithful(nom: string, secs: nat, file: seq<byte>, ifNoneMatch: Option<string>, range: Option<string>)
    ensures var meta := Metadata(|file|, secs);
            var reply := Answer(nom, Some(meta), Some(file), ifNoneMatch, range);
            && (reply.BadRequest? <==> !NomSur(nom))
            && (reply.NotModified? <==>
                  NomSur(nom) && ifNoneMatch.Some? && Presents(ifNoneMatch.value, Empreinte(meta)))
            && (reply.NotModified? ==> reply.etag == Empreinte(meta))
            && !reply.NotFound? && !reply.InternalError?
            && (reply.Ok200? ==> reply.body == file)
            && (reply.PartialContent? ==>
                  && reply.debut <= reply.fin < reply.taille == |file|
                  && |reply.body| == reply.fin - reply.debut + 1
                  && forall i | 0 <= i < |reply.body| :: reply.body[i] == file[reply.debut + i])
  {
    var meta := Metadata(|file|, secs);
    if NomSur(nom) && (ifNoneMatch.Some? ==> !Presents(ifNoneMatch.value, Empreinte(meta))) {
      AnswerReads(nom, meta, Some(file), ifNoneMatch, range);
      ReadingIsFaithful(file, Asked(range, |file|));
    }
  }

  /** The client sends a range header that spells a range selecting exactly these bounds. */
  ghost predicate AsksFor(range: Option<string>, p: Plage, taille: nat)
  {
    range.Some? && exists r: Range :: Spells(range.value, r) && Denotes(p, r, taille)
  }

  /** Nothing in the range header selects a part of the file. */
  ghost predicate AsksForAll(range: Option<string>, taille: nat)
  {
    forall p :: !AsksFor(range, p, taille)
  }

  lemma AskedExactly(range: Option<string>, p: Plage, taille: nat)
    ensures Asked(range, taille) == Some(p) <==> AsksFor(range, p, taille)
  {
    if range.Some? {
      AcceptedExactly(range.value, taille, p);
    }
  }

  lemma AskedNothingExactly(range: Option<string>, taille: nat)
    ensures Asked(range, taille).None? <==> AsksForAll(range, taille)
  {
    forall p ensures Asked(range, taille) == Some(p) <==> AsksFor(range, p, taille) {
      AskedExactly(range, p, taille);
    }
  }

  lemma ReadsExactly(file: Option<seq<byte>>, taille: nat, plage: Option<Plage>, p: Plage)
    ensures var reply := Served(file, taille, plage);
            && (plage == Some(p) ==>
                  reply == if file.Some? && p.debut <= p.fin < |file.value|
                           then PartialContent(p.debut, p.fin, taille, file.value[p.debut..p.fin + 1])
                           else InternalError)
            && (plage == None ==> reply == if file.Some? then Ok200(file.value) else NotFound)
  {
  }

  /** From the range sent to the bytes served: for a safe name and no fingerprint in common, a
      client gets the part it asked for if what it asked for selects something, and
      otherwise everything; unless the file has shrunk or gone since it was looked up. */
  lemma AnswersExactly(nom: string, meta: Metadata, file: Option<seq<byte>>, ifNoneMatch: Option<string>,
                       range: Option<string>, p: Plage)
    requires NomSur(nom) && (ifNoneMatch.Some? ==> !Presents(ifNoneMatch.value, Empreinte(meta)))
    ensures var reply := Answer(nom, Some(meta), file, ifNoneMatch, range);
            && (AsksFor(range, p, meta.taille) ==>
                  reply == if file.Some? && p.debut <= p.fin < |file.value|
                           then PartialContent(p.debut, p.fin, meta.taille, file.value[p.debut..p.fin + 1])
                           else InternalError)
            && (AsksForAll(range, meta.taille) ==> reply == if file.Some? then Ok200(file.value) else NotFound)
  {
    AnswerReads(nom, meta, file, ifNoneMatch, range);
    ReadsExactly(file, meta.taille, Asked(range, meta.taille), p);
    AskedExactly(range, p, meta.taille);
    AskedNothingExactly(range, meta.taille);
  }

  /** On an unchanged file: exactly these bounds when they are asked for, else the whole file. */
  lemma PartServedExactly(nom: string, secs: nat, file: seq<byte>, ifNoneMatch: Option<string>, range: Option<string>,
                          p: Plage)
    requires NomSur(nom)
    requires ifNoneMatch.Some? ==> !Presents(ifNoneMatch.value, Empreinte(Metadata(|file|, secs)))
    ensures var reply := Answer(nom, Some(Metadata(|file|, secs)), Some(file), ifNoneMatch, range);
            && (reply.PartialContent? && reply.debut == p.debut && reply.fin == p.fin <==> AsksFor(range, p, |file|))
            && (reply.Ok200? <==> AsksForAll(range, |file|))
            && (reply.PartialContent? || reply.Ok200?)
  {
    AskedExactly(range, p, |file|);
    AskedNothingExactly(range, |file|);
  }

  // ── Fetching block by block ──────────────────────────────────────────

  /** The body of a reply that has one. */
  function Body(reply: Reply): seq<byte>
  {
    if reply.Ok200? || reply.PartialContent? then reply.body else []
  }

  /** The body answered to a request for `block` bytes from `start` on. */
  function Block(nom: string, secs: nat, file: seq<byte>, start: nat, block: nat): seq<byte>
    requires block >= 1
  {
    Body(Answer(nom, Some(Metadata(|file|, secs)), Some(file), None, Some(Print(FromTo(start, start + block - 1)))))
  }

  /** A reader asks for one block after the other, until it has passed the end. */
  function Fetched(bodies: nat -> seq<byte>, size: nat, start: nat, block: nat): seq<byte>
    requires block >= 1
    decreases size - start
  {
    if start >= size then [] else bodies(start) + Fetched(bodies, size, start + block, block)
  }

  /** Where the last block of a file of `size` bytes begins. */
  function LastBlock(size: nat, start: nat, block: nat): (o: nat)
    requires block >= 1 && start < size
    ensures start <= o < size <= o + block
    decreases size - start
  {
    if start + block >= size then start else LastBlock(size, start + block, block)
  }

  /** A block, or the whole file when the number of its last byte does not fit 64 bits. */
  function BlockOrAll(file: seq<byte>, start: nat, block: nat): seq<byte>
    requires start < |file|
  {
    if start + block <= TWO64 then file[start..Min(start + block, |file|)] else file
  }

  lemma ClampedBody(file: seq<byte>, start: nat, block: nat)
    requires block >= 1 && start < |file| < TWO64
    ensures Body(Served(Some(file), |file|, Clamped(FromTo(start, start + block - 1), |file|))) ==
            BlockOrAll(file, start, block)
  {
  }

  lemma BlockServed(nom: string, secs: nat, file: seq<byte>, start: nat, block: nat)
    requires NomSur(nom) && block >= 1 && start < |file| < TWO64
    ensures Block(nom, secs, file, start, block) == BlockOrAll(file, start, block)
  {
    var range := Print(FromTo(start, start + block - 1));
    AnswerReads(nom, Metadata(|file|, secs), Some(file), None, Some(range));
    ParsePrinted(FromTo(start, start + block - 1), |file|);
    ClampedBody(file, start, block);
  }

  lemma Adjacent<T>(s: seq<T>, a: nat, b: nat, c: nat, rest: seq<T>)
    requires a <= b <= c <= |s|
    ensures s[a..b] + (s[b..c] + rest) == s[a..c] + rest
  {
  }

  lemma {:induction false} FetchedFrom(file: seq<byte>, bodies: nat -> seq<byte>, start: nat, block: nat)
    requires block >= 1 && start < |file|
    requires forall o: nat | o + block < |file| :: bodies(o) == file[o..o + block]
    ensures var o := LastBlock(|file|, start, block);
            Fetched(bodies, |file|, start, block) == file[start..o] + bodies(o)
    decreases |file| - start
  {
    var next := start + block;
    if next < |file| {
      FetchedFrom(file, bodies, next, block);
      var o := LastBlock(|file|, next, block);
      Adjacent(file, start, next, o, bodies(o));
    } else {
      assert Fetched(bodies, |file|, next, block) == [];
      assert file[start..start] == [];
    }
  }

  lemma BlocksServed(nom: string, secs: nat, file: seq<byte>, block: nat)
    requires NomSur(nom) && block >= 1 && |file| < TWO64
    ensures forall o: nat | o < |file| :: Block(nom, secs, file, o, block) == BlockOrAll(file, o, block)
  {
    forall o: nat | o < |file| ensures Block(nom, secs, file, o, block) == BlockOrAll(file, o, block) {
      BlockServed(nom, secs, file, o, block);
    }
  }

  lemma CompletesExactly(file: seq<byte>, o: nat, block: nat)
    requires o < |file| <= o + block
    ensures file[0..o] + BlockOrAll(file, o, block) == file <==> o == 0 || o + block <= TWO64
  {
    assert file[0..o] + file[o..] == file;
    assert |file[0..o] + file| == o + |file|;
  }

  lemma FetchedExactly(file: seq<byte>, bodies: nat -> seq<byte>, block: nat)
    requires block >= 1 && file != []
    requires forall o: nat | o < |file| :: bodies(o) == BlockOrAll(file, o, block)
    requires |file| < TWO64
    ensures Fetched(bodies, |file|, 0, block) == file <==>
            var o := LastBlock(|file|, 0, block); o == 0 || o + block <= TWO64
  {
    FetchedFrom(file, bodies, 0, block);
    CompletesExactly(file, LastBlock(|file|, 0, block), block);
  }

  /** Fetching blocks of any size rebuilds the file, unless the end of a last block that
      is not the first one does not fit 64 bits: it is then answered with the whole file. */
  lemma BlocksRebuildExactly(nom: string, secs: nat, file: seq<byte>, block: nat)
    requires NomSur(nom) && block >= 1 && |file| < TWO64
    ensures Fetched(o => Block(nom, secs, file, o, block), |file|, 0, block) == file <==>
            file == [] || var o := LastBlock(|file|, 0, block); o == 0 || o + block <= TWO64
  {
    if file != [] {
      var bodies := (o: nat) => Block(nom, secs, file, o, block);
      BlocksServed(nom, secs, file, block);
      FetchedExactly(file, bodies, block);
    }
  }
}
