/** The string primitives the parsers rely on: prefix stripping, splitting at a
    character, trimming, and decimal numbers in Rust's `FromStr`/`Display` form. */
module Text {
  import opened Wrappers
  import opened MachineInt

  function StripPrefix(s: string, prefix: string): (r: Option<string>)
    ensures r.Some? <==> prefix <= s
    ensures r.Some? ==> s == prefix + r.value
  {
    if prefix <= s then Some(s[|prefix|..]) else None
  }

  function StripSuffix(s: string, suffix: string): (r: Option<string>)
    ensures r.Some? ==> s == r.value + suffix
    ensures r.Some? <==> |suffix| <= |s| && s[|s| - |suffix|..] == suffix
  {
    var n := |s| - |suffix|;
    if n >= 0 && s[n..] == suffix then Some(s[..n]) else None
  }

  predicate Contains(s: string, sub: string)
  {
    sub <= s || (s != "" && Contains(s[1..], sub))
  }

  lemma {:induction false} ContainsChar(s: string, c: char)
    ensures Contains(s, [c]) <==> c in s
  {
    if s != "" {
      ContainsChar(s[1..], c);
      assert s == [s[0]] + s[1..];
    }
  }

  predicate Splits(s: string, before: string, sub: string, after: string)
  {
    s == before + sub + after
  }

  /** `contains`: the string is something, the substring, and something. */
  lemma {:induction false} ContainsExactly(s: string, sub: string)
    ensures Contains(s, sub) <==> exists before: string, after: string :: Splits(s, before, sub, after)
    decreases |s|
  {
    if sub <= s {
      assert Splits(s, "", sub, s[|sub|..]);
    }
    if s != "" {
      ContainsExactly(s[1..], sub);
      if before: string, after: string :| Splits(s[1..], before, sub, after) {
        assert Splits(s, [s[0]] + before, sub, after);
      }
      if before: string, after: string :| Splits(s, before, sub, after) && before != "" {
        assert Splits(s[1..], before[1..], sub, after);
      }
    }
  }

  // ── Splitting ────────────────────────────────────────────────────────

  /** Position of the first `c`, or the length when there is none. */
  function IndexOf(s: string, c: char): (i: nat)
    ensures i <= |s|
  {
    if s == [] || s[0] == c then 0 else IndexOf(s[1..], c) + 1
  }

  lemma {:induction false} IndexOfFirst(s: string, c: char)
    ensures var i := IndexOf(s, c);
            (forall k | 0 <= k < i :: s[k] != c) && (i < |s| ==> s[i] == c)
  {
    if s != [] && s[0] != c {
      IndexOfFirst(s[1..], c);
      assert forall k | 0 < k < |s| :: s[k] == s[1..][k - 1];
    }
  }

  /** Rust's `split_once`. */
  function SplitOnce(s: string, c: char): (r: Option<(string, string)>)
    ensures r.Some? ==> |r.value.1| < |s|
  {
    var i := IndexOf(s, c);
    if i < |s| then Some((s[..i], s[i + 1..])) else None
  }

  lemma SplitOnceUnique(a: string, c: char, b: string)
    requires c !in a
    ensures SplitOnce(a + [c] + b, c) == Some((a, b))
  {
    var s := a + [c] + b;
    IndexOfFirst(s, c);
    assert s[|a|] == c && forall k | 0 <= k < |a| :: s[k] == a[k];
    assert s[..|a|] == a && s[|a| + 1..] == b;
  }

  lemma SplitOnceParts(s: string, c: char)
    ensures match SplitOnce(s, c)
            case Some((a, b)) => s == a + [c] + b && c !in a
            case None => c !in s
  {
    IndexOfFirst(s, c);
    var i := IndexOf(s, c);
    if i < |s| {
      assert s == s[..i] + [c] + s[i + 1..];
    }
  }

  // ── Trimming ─────────────────────────────────────────────────────────

  predicate IsSpace(c: char) { c in " \t\n\r" || c as int == 11 || c as int == 12 }

  function TrimStart(s: string): (r: string)
    ensures |r| <= |s|
  {
    if s != [] && IsSpace(s[0]) then TrimStart(s[1..]) else s
  }

  function TrimEnd(s: string): (r: string)
    ensures |r| <= |s|
  {
    if s != [] && IsSpace(s[|s| - 1]) then TrimEnd(s[..|s| - 1]) else s
  }

  function Trim(s: string): (r: string)
    ensures |r| <= |s|
  {
    TrimEnd(TrimStart(s))
  }

  lemma TrimNothing(s: string)
    requires forall c | c in s :: !IsSpace(c)
    ensures Trim(s) == s
  {
  }

  predicate Blank(s: string) { forall c | c in s :: IsSpace(c) }

  lemma {:induction false} TrimStartTakes(s: string) returns (before: string)
    ensures s == before + TrimStart(s) && Blank(before)
    ensures TrimStart(s) != "" ==> !IsSpace(TrimStart(s)[0])
    decreases |s|
  {
    before := "";
    if s != "" && IsSpace(s[0]) {
      var rest := TrimStartTakes(s[1..]);
      before := [s[0]] + rest;
    }
  }

  lemma {:induction false} TrimEndTakes(s: string) returns (after: string)
    ensures s == TrimEnd(s) + after && Blank(after)
    ensures TrimEnd(s) != "" ==> !IsSpace(TrimEnd(s)[|TrimEnd(s)| - 1])
    decreases |s|
  {
    after := "";
    if s != "" && IsSpace(s[|s| - 1]) {
      var rest := TrimEndTakes(s[..|s| - 1]);
      after := rest + [s[|s| - 1]];
    }
  }

  /** Trimming takes the blanks off both ends and nothing else. */
  lemma TrimTakes(s: string) returns (before: string, after: string)
    ensures s == before + Trim(s) + after && Blank(before) && Blank(after)
    ensures Trim(s) != "" ==> !IsSpace(Trim(s)[0]) && !IsSpace(Trim(s)[|Trim(s)| - 1])
  {
    before := TrimStartTakes(s);
    after := TrimEndTakes(TrimStart(s));
  }

  lemma {:induction false} TrimStartAppend(s: string, c: char)
    requires IsSpace(c)
    ensures TrimStart(s + [c]) == if TrimStart(s) == "" then "" else TrimStart(s) + [c]
    decreases |s|
  {
    if s == "" {
      assert [c][1..] == "" && s + [c] == [c];
    } else {
      assert (s + [c])[1..] == s[1..] + [c];
      TrimStartAppend(s[1..], c);
    }
  }

  /** A blank more at the end makes no difference. */
  lemma TrimAppend(s: string, c: char)
    requires IsSpace(c)
    ensures Trim(s + [c]) == Trim(s)
  {
    TrimStartAppend(s, c);
    if TrimStart(s) != "" {
      assert (TrimStart(s) + [c])[..|TrimStart(s)|] == TrimStart(s);
    }
  }

  // ── Decimal numbers ──────────────────────────────────────────────────

  predicate IsDigit(c: char) { '0' <= c <= '9' }

  predicate AllDigits(s: string) { forall c | c in s :: IsDigit(c) }

  function DigitOf(c: char): (d: nat)
    requires IsDigit(c)
    ensures d < 10
  {
    c as int - '0' as int
  }

  function DecimalValue(s: string): nat
    requires AllDigits(s)
  {
    if s == [] then 0
    else
      DecimalValue(s[..|s| - 1]) * 10 + DigitOf(s[|s| - 1])
  }

  /** `Display` of an unsigned number: no sign, no leading zero. */
  function PrintNat(n: nat): (s: string)
    ensures |s| >= 1 && AllDigits(s)
  {
    var d := ('0' as int + n % 10) as char;
    if n < 10 then [d] else PrintNat(n / 10) + [d]
  }

  function Abs(n: int): nat { if n < 0 then -n else n }

  function PrintInt(n: int): string
  {
    (if n < 0 then "-" else "") + PrintNat(Abs(n))
  }

  /** `str::parse::<u64>`: an optional `+`, then digits, within range. */
  function ParseU64(s: string): (r: Option<nat>)
    ensures r.Some? ==> r.value < TWO64
  {
    var digits := if s != [] && s[0] == '+' then s[1..] else s;
    if digits == [] || !AllDigits(digits) then None
    else
      var v := DecimalValue(digits);
      if v < TWO64 then Some(v) else None
  }

  /** `str::parse::<i64>`: an optional sign, then digits, within range. */
  function ParseI64(s: string): (r: Option<int>)
    ensures r.Some? ==> IsI64(r.value)
  {
    var negative := s != [] && s[0] == '-';
    var digits := if s != [] && (s[0] == '+' || s[0] == '-') then s[1..] else s;
    if digits == [] || !AllDigits(digits) then None
    else
      var v: int := if negative then -(DecimalValue(digits) as int) else DecimalValue(digits);
      if IsI64(v) then Some(v) else None
  }

  lemma {:induction false} PrintNatValue(n: nat)
    ensures DecimalValue(PrintNat(n)) == n
  {
    if n >= 10 {
      PrintNatValue(n / 10);
      var s := PrintNat(n);
      assert s[..|s| - 1] == PrintNat(n / 10);
    }
  }

  /** No number is printed with a leading zero. */
  lemma {:induction false} PrintNatIsShortest(n: nat)
    ensures PrintNat(n)[0] == '0' ==> PrintNat(n) == "0" && n == 0
  {
    if n >= 10 {
      PrintNatIsShortest(n / 10);
    }
  }

  /** A printed number parses back exactly if it fits. */
  lemma ParsePrintU64(n: nat)
    ensures ParseU64(PrintNat(n)) == if n < TWO64 then Some(n) else None
  {
    var s := PrintNat(n);
    PrintNatValue(n);
    assert s[0] in s;
  }

  /** What parses: digits, leading zeros included, with or without a plus sign. */
  lemma ParseU64Exactly(s: string, n: nat)
    ensures ParseU64(s) == Some(n) <==>
            n < TWO64 && exists digits: string ::
              AllDigits(digits) && digits != "" && (s == digits || s == "+" + digits) && DecimalValue(digits) == n
  {
    if ParseU64(s) == Some(n) {
      var digits := if s[0] == '+' then s[1..] else s;
      assert s == digits || s == "+" + digits;
      assert AllDigits(digits) && DecimalValue(digits) == n;
    }
    if digits: string :|
      AllDigits(digits) && digits != "" && (s == digits || s == "+" + digits) && DecimalValue(digits) == n
    {
      assert digits[0] in digits;
      assert ("+" + digits)[1..] == digits;
    }
  }

  /** The sign, if any, and what it does to the value. */
  predicate Signed(s: string, digits: string, n: int)
  {
    && AllDigits(digits) && digits != ""
    && (((s == digits || s == "+" + digits) && n == DecimalValue(digits))
        || (s == "-" + digits && n == -(DecimalValue(digits) as int)))
  }

  lemma ParseI64Exactly(s: string, n: int)
    ensures ParseI64(s) == Some(n) <==> IsI64(n) && exists digits: string :: Signed(s, digits, n)
  {
    if ParseI64(s) == Some(n) {
      var digits := if s[0] == '+' || s[0] == '-' then s[1..] else s;
      assert s == digits || s == [s[0]] + digits;
      assert Signed(s, digits, n);
    }
    if digits: string :| Signed(s, digits, n) {
      assert digits[0] in digits;
      assert ("+" + digits)[1..] == digits && ("-" + digits)[1..] == digits;
    }
  }

  lemma ParseSigned(digits: string)
    requires digits != "" && AllDigits(digits)
    ensures var v: int := DecimalValue(digits);
            && ParseI64(digits) == (if IsI64(v) then Some(v) else None)
            && ParseI64("-" + digits) == (if IsI64(-v) then Some(-v) else None)
  {
    assert digits[0] in digits;
    assert ("-" + digits)[1..] == digits;
  }

  lemma ParsePrintI64(n: int)
    requires IsI64(n)
    ensures ParseI64(PrintInt(n)) == Some(n)
  {
    PrintNatValue(Abs(n));
    ParseSigned(PrintNat(Abs(n)));
    assert n >= 0 ==> PrintInt(n) == PrintNat(n);
  }

  /** Printed numbers contain only digits and a sign: no separator can hide in one. */
  lemma PrintIntHasNo(n: int, c: char)
    requires !IsDigit(c) && c != '-'
    ensures c !in PrintInt(n)
  {
    var digits := PrintNat(Abs(n));
    assert c !in digits;
  }
}
