/** The string operations of Python that the assembler uses, on ASCII text, with their round trips. */
module Text {

  /** ASCII white space as `str.strip` and `str.split` see it. */
  predicate IsSpace(c: char) { 9 <= c as int <= 13 || 28 <= c as int <= 32 }

  predicate IsDigit(c: char) { '0' <= c <= '9' }

  function Upper(s: string): string {
    seq(|s|, i requires 0 <= i < |s| => if 'a' <= s[i] <= 'z' then (s[i] as int - 32) as char else s[i])
  }

  function StripLeft(s: string): string {
    if s != [] && IsSpace(s[0]) then StripLeft(s[1..]) else s
  }

  function StripRight(s: string): string {
    if s != [] && IsSpace(s[|s| - 1]) then StripRight(s[..|s| - 1]) else s
  }

  function Strip(s: string): string { StripRight(StripLeft(s)) }

  /** Everything before the first `sep`, or all of it. */
  function Before(s: string, sep: char): (r: string)
    ensures r <= s && sep !in r
    ensures |r| < |s| ==> s[|r|] == sep
  {
    if s == [] || s[0] == sep then [] else [s[0]] + Before(s[1..], sep)
  }

  /** `split(sep)`: the pieces between separators, at least one. */
  function Split(s: string, sep: char): (r: seq<string>)
    ensures r != []
    decreases |s|
  {
    var head := Before(s, sep);
    if |head| == |s| then [s] else [head] + Split(s[|head| + 1..], sep)
  }

  function Join(parts: seq<string>, sep: char): string {
    if parts == [] then []
    else if |parts| == 1 then parts[0]
    else parts[0] + [sep] + Join(parts[1..], sep)
  }

  /** The longest prefix without white space. */
  function Word(s: string): (w: string)
    ensures w <= s && (forall i | 0 <= i < |w| :: !IsSpace(w[i]))
    ensures |w| < |s| ==> IsSpace(s[|w|])
  {
    if s == [] || IsSpace(s[0]) then [] else [s[0]] + Word(s[1..])
  }

  lemma {:induction false} StripLeftShorter(s: string)
    ensures |StripLeft(s)| <= |s| && (StripLeft(s) != [] ==> !IsSpace(StripLeft(s)[0]))
  {
    if s != [] && IsSpace(s[0]) { StripLeftShorter(s[1..]); }
  }

  /** `split()`: the words of the text. */
  function Words(s: string): seq<string>
    decreases |s|
  {
    var t := StripLeft(s);
    StripLeftShorter(s);
    if t == [] then [] else [Word(t)] + Words(t[|Word(t)|..])
  }

  predicate AllDigits(s: string) { s != [] && forall i | 0 <= i < |s| :: IsDigit(s[i]) }

  function DigitChar(d: nat): (c: char)
    requires d < 10
    ensures IsDigit(c) && c as int - '0' as int == d
  {
    ('0' as int + d) as char
  }

  /** `str(n)` for a natural number. */
  function Decimal(n: nat): (s: string)
    ensures AllDigits(s)
  {
    if n < 10 then [DigitChar(n)] else Decimal(n / 10) + [DigitChar(n % 10)]
  }

  function ParseDecimal(s: string): nat
    requires forall i | 0 <= i < |s| :: IsDigit(s[i])
  {
    if s == [] then 0
    else
      assert IsDigit(s[|s| - 1]);
      10 * ParseDecimal(s[..|s| - 1]) + (s[|s| - 1] as int - '0' as int)
  }

  function HexDigit(c: char): int {
    if IsDigit(c) then c as int - '0' as int
    else if 'a' <= c <= 'f' then c as int - 'a' as int + 10
    else if 'A' <= c <= 'F' then c as int - 'A' as int + 10
    else -1
  }

  predicate AllHex(s: string) { s != [] && forall i | 0 <= i < |s| :: HexDigit(s[i]) >= 0 }

  function ParseHex(s: string): nat
    requires forall i | 0 <= i < |s| :: HexDigit(s[i]) >= 0
  {
    if s == [] then 0
    else
      var last := HexDigit(s[|s| - 1]);
      assert last >= 0;
      16 * ParseHex(s[..|s| - 1]) + last
  }

  // ---------------------------------------------------------------- round trips

  lemma {:induction false} DecimalRoundTrip(n: nat)
    ensures ParseDecimal(Decimal(n)) == n
  {
    var s := Decimal(n);
    if n >= 10 {
      DecimalRoundTrip(n / 10);
      assert s[..|s| - 1] == Decimal(n / 10);
    } else {
      assert s[..0] == [];
    }
  }

  const HEX_DIGITS: string := "0123456789abcdef"

  /** The digits of `hex(n)`. */
  function Hex(n: nat): (s: string)
    ensures s != []
  {
    if n < 16 then [HEX_DIGITS[n]] else Hex(n / 16) + [HEX_DIGITS[n % 16]]
  }

  lemma HexChar(d: nat)
    requires d < 16
    ensures HexDigit(HEX_DIGITS[d]) == d && !IsSpace(HEX_DIGITS[d]) && HEX_DIGITS[d] != ';' && HEX_DIGITS[d] != ':'
  {
  }

  lemma {:induction false} HexRoundTrip(n: nat)
    ensures AllHex(Hex(n)) && ParseHex(Hex(n)) == n
    ensures NoSpace(Hex(n)) && ';' !in Hex(n) && ':' !in Hex(n)
  {
    var s := Hex(n);
    if n < 16 {
      HexChar(n);
      assert s[..0] == [];
    } else {
      HexRoundTrip(n / 16);
      HexChar(n % 16);
      assert s[..|s| - 1] == Hex(n / 16);
    }
  }

  /** The ten ASCII characters that count as white space. */
  lemma SpacesAre(c: char)
    ensures IsSpace(c) <==> c as int in {9, 10, 11, 12, 13, 28, 29, 30, 31, 32}
  {
  }

  /** The same digits in capitals read as the same number. */
  lemma {:induction false} CapitalHexRoundTrip(n: nat)
    ensures AllHex(Upper(Hex(n))) && ParseHex(Upper(Hex(n))) == n
  {
    var (h, s) := (Hex(n), Upper(Hex(n)));
    if n < 16 {
      CapitalHexChar(n);
      assert s[..0] == [];
    } else {
      CapitalHexRoundTrip(n / 16);
      CapitalHexChar(n % 16);
      assert s[..|s| - 1] == Upper(Hex(n / 16));
      assert s[|s| - 1] == Upper([HEX_DIGITS[n % 16]])[0];
    }
  }

  lemma CapitalHexChar(d: nat)
    requires d < 16
    ensures HexDigit(Upper([HEX_DIGITS[d]])[0]) == d
  {
  }

  /** Upper case: a letter becomes the capital at the same place of the alphabet, anything else stays. */
  lemma UpperMeans(s: string)
    ensures |Upper(s)| == |s| && Upper(Upper(s)) == Upper(s)
    ensures forall i | 0 <= i < |s| && 'a' <= s[i] <= 'z' :: Upper(s)[i] as int - 'A' as int == s[i] as int - 'a' as int
    ensures forall i | 0 <= i < |s| && !('a' <= s[i] <= 'z') :: Upper(s)[i] == s[i]
  {
  }

  lemma {:induction false} BeforeAppend(a: string, sep: char, b: string)
    requires sep !in a
    ensures Before(a + [sep] + b, sep) == a && Before(a, sep) == a
  {
    if a != [] {
      BeforeAppend(a[1..], sep, b);
      assert (a + [sep] + b)[1..] == a[1..] + [sep] + b;
      assert a == [a[0]] + a[1..];
    }
  }

  lemma {:induction false} SplitJoin(parts: seq<string>, sep: char)
    requires parts != [] && forall p | p in parts :: sep !in p
    ensures Split(Join(parts, sep), sep) == parts
  {
    var p := parts[0];
    if |parts| == 1 {
      BeforeAppend(p, sep, []);
    } else {
      var rest := Join(parts[1..], sep);
      BeforeAppend(p, sep, rest);
      SplitJoin(parts[1..], sep);
      assert Join(parts, sep) == p + [sep] + rest;
      assert (p + [sep] + rest)[|p| + 1..] == rest;
    }
  }

  ghost predicate NoSpace(s: string) { forall i | 0 <= i < |s| :: !IsSpace(s[i]) }

  lemma WordOf(w: string, rest: string)
    requires NoSpace(w) && (rest == [] || IsSpace(rest[0]))
    ensures Word(w + rest) == w
  {
    var (s, r) := (w + rest, Word(w + rest));
    assert forall i | 0 <= i < |w| :: s[i] == w[i];
    assert rest != [] ==> s[|w|] == rest[0];
    assert forall i | 0 <= i < |r| :: r[i] == s[i];
    assert |r| == |w|;
  }

  lemma WordsOfTwo(a: string, b: string)
    requires a != [] && b != [] && NoSpace(a) && NoSpace(b)
    ensures Words(a) == [a] && Words(a + " " + b) == [a, b]
  {
    WordOf(a, []);
    WordOf(b, []);
    WordOf(a, " " + b);
    assert a + [] == a && b + [] == b;
    var line := a + " " + b;
    assert line == a + (" " + b);
    assert line[|a|..] == " " + b;
    assert (" " + b)[1..] == b;
    assert Words(b) == [b] + Words([]);
    assert Words([]) == [];
    assert StripLeft(" " + b) == StripLeft(b) == b;
    assert Words(" " + b) == [b] by { assert b[|b|..] == []; }
    assert StripLeft(line) == line;
  }

  /** Text that begins and ends with a non-space. */
  ghost predicate Tight(s: string) { s != [] && !IsSpace(s[0]) && !IsSpace(s[|s| - 1]) }

  lemma StripIndented(s: string)
    requires Tight(s)
    ensures Strip(s) == s && Strip("    " + s) == s
  {
    var (s1, s2, s3, s4) := (" " + s, "  " + s, "   " + s, "    " + s);
    assert s1[1..] == s && s2[1..] == s1 && s3[1..] == s2 && s4[1..] == s3;
    assert StripLeft(s1) == s && StripLeft(s2) == s && StripLeft(s3) == s && StripLeft(s4) == s;
  }
}
