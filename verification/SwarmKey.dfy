/** The swarm key of a private IPFS network: its hexadecimal form, its file, and the
    repository that is private exactly while the file is there. */
module SwarmKeys {
  import opened Wrappers
  import opened Text
  import opened Hex

  const KEY_BYTES: nat := 32

  type SwarmKey = k: seq<byte> | |k| == KEY_BYTES witness seq(KEY_BYTES, _ => 0)

  // ── Hexadecimal form ─────────────────────────────────────────────────

  function FromHex(s: string): Option<SwarmKey>
  {
    var trimmed := Trim(s);
    if |trimmed| != 2 * KEY_BYTES || !AllHex(trimmed) then None else Decode(trimmed)
  }

  function ToHex(k: SwarmKey): string { Encode(k) }

  lemma HexHasNoSpace(s: string)
    requires AllHex(s)
    ensures Trim(s) == s
  {
    TrimNothing(s);
  }

  /** What `FromHex` accepts and what it makes of it: 64 hexadecimal digits of either
      case between blanks, and the key whose own form is those digits in lower case. */
  lemma FromHexExactly(s: string, k: SwarmKey)
    ensures FromHex(s) == Some(k) <==>
            |Trim(s)| == 2 * KEY_BYTES && AllHex(Trim(s)) && Lower(Trim(s)) == ToHex(k)
  {
    var t := Trim(s);
    if |t| == 2 * KEY_BYTES && AllHex(t) {
      EncodeDecode(t);
      DecodeEncode(k);
      DecodeEncode(Decode(t).value);
    }
  }

  lemma HexRoundTrip(k: SwarmKey)
    ensures FromHex(ToHex(k)) == Some(k)
  {
    HexHasNoSpace(ToHex(k));
    DecodeEncode(k);
  }

  // ── File form ────────────────────────────────────────────────────────

  const FIRST_LINE := "/key/swarm/psk/1.0.0/"
  const SECOND_LINE := "/base16/"
  const FIRST_PREFIX := "/key/swarm/psk"

  function ToKuboFile(k: SwarmKey): string
  {
    FIRST_LINE + "\n" + (SECOND_LINE + "\n" + (ToHex(k) + "\n" + ""))
  }

  function WithoutCr(line: string): string
  {
    if line != "" && line[|line| - 1] == '\r' then line[..|line| - 1] else line
  }

  /** Rust's `lines`: cut at line feeds, a carriage return before one goes with it, and
      nothing after the last one is no line. */
  function Lines(s: string): seq<string>
    decreases |s|
  {
    if s == "" then []
    else
      match SplitOnce(s, '\n')
      case None => [s]
      case Some((line, rest)) => [WithoutCr(line)] + Lines(rest)
  }

  lemma LinesOf(line: string, rest: string)
    requires '\n' !in line
    ensures Lines(line + "\n" + rest) == [WithoutCr(line)] + Lines(rest)
  {
    SplitOnceUnique(line, '\n', rest);
  }

  function ParseKuboFile(s: string): Option<SwarmKey>
  {
    var lines := Lines(s);
    if |lines| < 3 || !(FIRST_PREFIX <= lines[0]) then None else FromHex(Trim(lines[2]))
  }

  /** Everything that matters in a file: how the first line begins, and the third one. The
      second line, the line endings and whatever follows are free. */
  lemma ParsesWhatMatters(tail: string, second: string, third: string, rest: string)
    requires '\n' !in tail && '\n' !in second && '\n' !in third
    ensures var file := FIRST_PREFIX + tail + "\n" + (second + "\n" + (third + "\n" + rest));
            ParseKuboFile(file) == FromHex(Trim(WithoutCr(third)))
  {
    var first := FIRST_PREFIX + tail;
    LinesOf(third, rest);
    LinesOf(second, third + "\n" + rest);
    LinesOf(first, second + "\n" + (third + "\n" + rest));
    assert FIRST_PREFIX <= WithoutCr(first);
  }

  /** The file is three lines, each without a line feed, and either its end or more lines; the
      first begins as that of a key file does and the third, blanks aside, spells `k`. */
  predicate KeyFile(s: string, k: SwarmKey, first: string, second: string, third: string, end: string)
  {
    && s == first + "\n" + (second + "\n" + (third + end))
    && '\n' !in first && '\n' !in second && '\n' !in third && (end == "" || end[0] == '\n')
    && "/key/swarm/psk" <= first && FromHex(Trim(third)) == Some(k)
  }

  lemma TrimWithoutCr(line: string)
    ensures Trim(WithoutCr(line)) == Trim(line)
  {
    if WithoutCr(line) != line {
      assert line == WithoutCr(line) + "\r";
      TrimAppend(WithoutCr(line), '\r');
    }
  }

  /** Cutting off one line. */
  lemma FirstLine(s: string) returns (line: string, rest: string)
    requires |Lines(s)| >= 2
    ensures s == line + "\n" + rest && '\n' !in line
    ensures Lines(s) == [WithoutCr(line)] + Lines(rest)
  {
    SplitOnceParts(s, '\n');
    line, rest := SplitOnce(s, '\n').value.0, SplitOnce(s, '\n').value.1;
  }

  lemma LastLine(s: string) returns (line: string, end: string)
    requires |Lines(s)| >= 1
    ensures s == line + end && '\n' !in line && (end == "" || end[0] == '\n')
    ensures Trim(Lines(s)[0]) == Trim(line)
  {
    SplitOnceParts(s, '\n');
    match SplitOnce(s, '\n')
    case None => line, end := s, "";
    case Some((before, after)) =>
      line, end := before, "\n" + after;
      TrimWithoutCr(before);
  }

  lemma ThirdLine(third: string, end: string)
    requires '\n' !in third && (end == "" || end[0] == '\n') && third != ""
    ensures |Lines(third + end)| >= 1 && Trim(Lines(third + end)[0]) == Trim(third)
  {
    if end == "" {
      assert third + end == third;
      SplitOnceParts(third, '\n');
    } else {
      assert third + end == third + "\n" + end[1..];
      LinesOf(third, end[1..]);
      TrimWithoutCr(third);
    }
  }

  lemma PrefixWithoutCr(first: string)
    ensures FIRST_PREFIX <= WithoutCr(first) <==> FIRST_PREFIX <= first
  {
    assert FIRST_PREFIX <= first ==> first[|FIRST_PREFIX| - 1] == 'k';
  }

  /** What is read as a key file, and as which key: everything else, other first lines and
      files of fewer lines included, is refused. */
  lemma ParsesExactly(s: string, k: SwarmKey)
    ensures ParseKuboFile(s) == Some(k) <==>
            exists first: string, second: string, third: string, end: string :: KeyFile(s, k, first, second, third, end)
  {
    if ParseKuboFile(s) == Some(k) {
      var first, rest := FirstLine(s);
      var second, tail := FirstLine(rest);
      var third, end := LastLine(tail);
      PrefixWithoutCr(first);
      assert KeyFile(s, k, first, second, third, end);
    }
    if first: string, second: string, third: string, end: string :| KeyFile(s, k, first, second, third, end) {
      LinesOf(first, second + "\n" + (third + end));
      LinesOf(second, third + end);
      ThirdLine(third, end);
      PrefixWithoutCr(first);
    }
  }

  /** The three lines of a written file. */
  lemma FileLines(k: SwarmKey)
    ensures Lines(ToKuboFile(k)) == ["/key/swarm/psk/1.0.0/", "/base16/", ToHex(k)]
  {
    LinesOf(FIRST_LINE, SECOND_LINE + "\n" + (ToHex(k) + "\n" + ""));
    LinesOf(SECOND_LINE, ToHex(k) + "\n" + "");
    LinesOf(ToHex(k), "");
    assert ToHex(k)[|ToHex(k)| - 1] in ToHex(k);
  }

  lemma FileRoundTrip(k: SwarmKey)
    ensures ParseKuboFile(ToKuboFile(k)) == Some(k)
  {
    var hex := ToHex(k);
    assert FIRST_LINE == FIRST_PREFIX + "/1.0.0/";
    ParsesWhatMatters("/1.0.0/", SECOND_LINE, hex, "");
    HexHasNoSpace(hex);
    assert hex[|hex| - 1] in hex;
    HexRoundTrip(k);
  }

  // ── The repository ───────────────────────────────────────────────────

  /** How far one write gets: it may fail, or the process may stop, at any of its steps,
      and a temporary file that was not completely written may hold anything. */
  datatype WriteOutcome = NoFolder | TmpFailed(left: Option<string>) | ChmodFailed | RenameFailed | Renamed

  datatype Files = Files(key: Option<string>, tmp: Option<string>)

  datatype Op = Write(k: SwarmKey, outcome: WriteOutcome) | Erase(works: bool)

  function ApplyOp(f: Files, op: Op): Files
  {
    match op
    case Write(k, NoFolder) => f
    case Write(k, TmpFailed(left)) => f.(tmp := left)
    case Write(k, Renamed) => Files(Some(ToKuboFile(k)), None)
    case Write(k, _) => f.(tmp := Some(ToKuboFile(k)))
    case Erase(works) => if works then f.(key := None) else f
  }

  function ReadKey(f: Files): Option<SwarmKey>
  {
    if f.key.Some? then ParseKuboFile(f.key.value) else None
  }

  class Repo {
    var key: Option<string>
    var tmp: Option<string>

    function Value(): Files
      reads this
    {
      Files(key, tmp)
    }

    method WriteSwarmKey(k: SwarmKey, outcome: WriteOutcome) returns (ok: bool)
      modifies this
      ensures Value() == ApplyOp(old(Value()), Write(k, outcome))
      ensures ok <==> outcome.Renamed?
    {
      if outcome.NoFolder? {
        return false;
      }
      if outcome.TmpFailed? {
        tmp := outcome.left;
        return false;
      }
      tmp := Some(ToKuboFile(k));
      if !outcome.Renamed? {
        return false;
      }
      key, tmp := tmp, None;
      return true;
    }

    method DeleteSwarmKey(works: bool) returns (ok: bool)
      modifies this
      ensures Value() == ApplyOp(old(Value()), Erase(works))
      ensures ok <==> works || old(key).None?
    {
      if key.Some? {
        if !works {
          return false;
        }
        key := None;
      }
      return true;
    }

    method ReadSwarmKey() returns (k: Option<SwarmKey>)
      ensures k == ReadKey(Value())
    {
      if key.None? {
        return None;
      }
      return ParseKuboFile(key.value);
    }

    method IsPrivate() returns (b: bool)
      ensures b <==> key.Some?
    {
      return key.Some?;
    }
  }

  function Run(f: Files, ops: seq<Op>): Files
    decreases |ops|
  {
    if ops == [] then f else Run(ApplyOp(f, ops[0]), ops[1..])
  }

  /** The key a repository should have after one more operation. */
  function ExpectedNext(before: Option<SwarmKey>, op: Op): Option<SwarmKey>
  {
    match op
    case Write(k, Renamed) => Some(k)
    case Erase(true) => None
    case _ => before
  }

  /** The last key written with success, unless it was erased with success since. */
  function Expected(before: Option<SwarmKey>, ops: seq<Op>): Option<SwarmKey>
    decreases |ops|
  {
    if ops == [] then before else Expected(ExpectedNext(before, ops[0]), ops[1..])
  }

  /** What `is_private` and `read` answer agrees. */
  predicate Readable(f: Files) { f.key.Some? ==> ReadKey(f).Some? }

  lemma OneOperation(f: Files, op: Op)
    ensures ReadKey(ApplyOp(f, op)) == ExpectedNext(ReadKey(f), op)
    ensures Readable(f) ==> Readable(ApplyOp(f, op))
  {
    if op.Write? {
      FileRoundTrip(op.k);
    }
  }

  /** After any run of writes and deletions, complete, failed or interrupted, reading gives
      exactly the expected key; and a repository that was empty or held a key, rather than
      a file that is none, is private exactly when there is one. */
  lemma {:induction false} ReadGivesTheExpected(f: Files, ops: seq<Op>)
    ensures ReadKey(Run(f, ops)) == Expected(ReadKey(f), ops)
    ensures Readable(f) ==> (Run(f, ops).key.Some? <==> Expected(ReadKey(f), ops).Some?)
    decreases |ops|
  {
    if ops != [] {
      OneOperation(f, ops[0]);
      ReadGivesTheExpected(ApplyOp(f, ops[0]), ops[1..]);
    }
  }
}
