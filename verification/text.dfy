/** The string helpers of Go's standard library that the program leans on,
    restated over `string` (a sequence of characters, one per byte). */
module Text {
  import opened Wrappers

  // ---------------------------------------------------------------------------
  // First line of a text: element 0 of `strings.Split(s, "\n")`
  // ---------------------------------------------------------------------------

  /** The text of `s` before its first newline (all of `s` if it has none). */
  function FirstLine(s: string): (r: string)
    ensures r <= s
    ensures '\n' !in r
    ensures |r| < |s| ==> s[|r|] == '\n'
  {
    if s == [] || s[0] == '\n' then [] else [s[0]] + FirstLine(s[1..])
  }

  // ---------------------------------------------------------------------------
  // strings.Join and strings.Split with a one-character separator
  // ---------------------------------------------------------------------------

  /** `strings.Join`: the parts with `sep` between consecutive ones. */
  function Join(parts: seq<string>, sep: string): (r: string)
    ensures |parts| == 0 ==> r == ""
    ensures |parts| == 1 ==> r == parts[0]
    ensures |parts| >= 1 ==> parts[0] <= r
  {
    if |parts| == 0 then ""
    else if |parts| == 1 then parts[0]
    else parts[0] + sep + Join(parts[1..], sep)
  }

  /** A join is as long as its parts and the separators between them. */
  lemma {:induction false} JoinLength(parts: seq<string>, sep: string)
    requires |parts| >= 1
    ensures |Join(parts, sep)| == TotalLength(parts) + (|parts| - 1) * |sep|
  {
    if |parts| >= 2 {
      var n := |parts| - 1;
      JoinLength(parts[1..], sep);
      JoinCons(parts, sep);
      assert TotalLength(parts) == |parts[0]| + TotalLength(parts[1..]);
      assert (n - 1) * |sep| + |sep| == n * |sep|;
    }
  }

  /** A join ends with its last part. */
  lemma {:induction false} JoinEndsWithLast(parts: seq<string>, sep: string)
    requires |parts| >= 1
    ensures EndsWith(Join(parts, sep), parts[|parts| - 1])
  {
    if |parts| >= 2 {
      JoinEndsWithLast(parts[1..], sep);
      JoinCons(parts, sep);
      assert parts[1..][|parts| - 2] == parts[|parts| - 1];
      SuffixOfAppend(parts[0] + sep, Join(parts[1..], sep), parts[|parts| - 1]);
    }
  }

  /** Two or more parts join as the first, the separator, and the rest
      joined. */
  lemma JoinCons(parts: seq<string>, sep: string)
    requires |parts| >= 2
    ensures Join(parts, sep) == parts[0] + sep + Join(parts[1..], sep)
  {
  }

  /** The combined length of the parts. */
  function TotalLength(parts: seq<string>): nat {
    if parts == [] then 0 else |parts[0]| + TotalLength(parts[1..])
  }

  /** Whether `s` ends with `t`. */
  predicate EndsWith(s: string, t: string) {
    |t| <= |s| && s[|s| - |t|..] == t
  }

  /** A suffix of the second run is a suffix of the two together. */
  lemma SuffixOfAppend(a: string, b: string, t: string)
    requires EndsWith(b, t)
    ensures EndsWith(a + b, t)
  {
    assert (a + b)[|a + b| - |t|..] == b[|b| - |t|..];
  }

  /** `strings.Split(s, [sep])`: the maximal separator-free pieces of `s`, in
      order; there is always at least one piece, and joining them back with the
      separator gives `s`. */
  function Split(s: string, sep: char): (r: seq<string>)
    ensures |r| >= 1
    ensures forall i :: 0 <= i < |r| ==> sep !in r[i]
    ensures Join(r, [sep]) == s
  {
    if s == [] then [""]
    else
      var rest := Split(s[1..], sep);
      if s[0] == sep then
        assert [s[0]] + s[1..] == s;
        [""] + rest
      else
        var r := [[s[0]] + rest[0]] + rest[1..];
        assert Join(r, [sep]) == s by {
          if |rest| == 1 {
            assert [s[0]] + s[1..] == s;
          } else {
            assert r[1..] == rest[1..];
            assert Join(rest, [sep]) == rest[0] + [sep] + Join(rest[1..], [sep]);
            assert [s[0]] + rest[0] + [sep] + Join(rest[1..], [sep])
                == [s[0]] + (rest[0] + [sep] + Join(rest[1..], [sep]));
            assert [s[0]] + s[1..] == s;
          }
        }
        r
  }

  /** A separator-free text splits into itself alone. */
  lemma {:induction false} SplitNoSeparator(a: string, sep: char)
    requires sep !in a
    ensures Split(a, sep) == [a]
  {
    if a != [] {
      SplitNoSeparator(a[1..], sep);
    }
  }

  /** Splitting `a + [sep] + b` with a separator-free `a` peels `a` off. */
  lemma {:induction false} SplitAfterPiece(a: string, b: string, sep: char)
    requires sep !in a
    ensures Split(a + [sep] + b, sep) == [a] + Split(b, sep)
  {
    var s := a + [sep] + b;
    if a == [] {
      assert s[0] == sep && s[1..] == b;
    } else {
      assert s[0] == a[0];
      assert s[1..] == a[1..] + [sep] + b;
      SplitAfterPiece(a[1..], b, sep);
      assert [a[0]] + a[1..] == a;
    }
  }

  /** Split undoes Join when no part contains the separator. */
  lemma {:induction false} SplitJoin(parts: seq<string>, sep: char)
    requires |parts| >= 1
    requires forall i :: 0 <= i < |parts| ==> sep !in parts[i]
    ensures Split(Join(parts, [sep]), sep) == parts
  {
    if |parts| == 1 {
      SplitNoSeparator(parts[0], sep);
    } else {
      var rest := Join(parts[1..], [sep]);
      SplitJoin(parts[1..], sep);
      JoinCons(parts, [sep]);
      SplitAfterPiece(parts[0], rest, sep);
      assert [parts[0]] + parts[1..] == parts;
    }
  }

  // ---------------------------------------------------------------------------
  // strings.Trim(s, " ")
  // ---------------------------------------------------------------------------

  /** How many spaces `s` starts with. */
  function LeadingSpaces(s: string): (n: nat)
    ensures n <= |s|
    ensures forall k :: 0 <= k < n ==> s[k] == ' '
    ensures n == |s| || s[n] != ' '
  {
    if s != [] && s[0] == ' ' then 1 + LeadingSpaces(s[1..]) else 0
  }

  /** How many spaces `s` ends with. */
  function TrailingSpaces(s: string): (n: nat)
    ensures n <= |s|
    ensures forall k :: |s| - n <= k < |s| ==> s[k] == ' '
    ensures n == |s| || s[|s| - n - 1] != ' '
  {
    if s != [] && s[|s| - 1] == ' ' then 1 + TrailingSpaces(s[..|s| - 1]) else 0
  }

  /** `s` with its leading spaces removed. */
  function TrimLeft(s: string): (r: string)
    ensures r == [] || r[0] != ' '
  {
    s[LeadingSpaces(s)..]
  }

  /** `s` with its trailing spaces removed. */
  function TrimRight(s: string): (r: string)
    ensures r <= s
    ensures r == [] || r[|r| - 1] != ' '
  {
    s[..|s| - TrailingSpaces(s)]
  }

  /** `strings.Trim(s, " ")`: the infix of `s` left after removing the spaces
      at both ends; everything removed is a space. */
  function Trim(s: string): (r: string)
    ensures r == [] || (r[0] != ' ' && r[|r| - 1] != ' ')
    ensures LeadingSpaces(s) + |r| <= |s|
    ensures r == s[LeadingSpaces(s)..LeadingSpaces(s) + |r|]
    ensures forall k :: 0 <= k < LeadingSpaces(s) ==> s[k] == ' '
    ensures forall k :: LeadingSpaces(s) + |r| <= k < |s| ==> s[k] == ' '
    ensures (s == [] || (s[0] != ' ' && s[|s| - 1] != ' ')) ==> r == s
  {
    TrimInfix(s);
    TrimRight(TrimLeft(s))
  }

  lemma TrimInfix(s: string)
    ensures var r := TrimRight(TrimLeft(s));
      && (r == [] || (r[0] != ' ' && r[|r| - 1] != ' '))
      && r == s[LeadingSpaces(s)..LeadingSpaces(s) + |r|]
      && forall k :: LeadingSpaces(s) + |r| <= k < |s| ==> s[k] == ' '
  {
    TrimEnds(s);
    TrimSlice(s);
    TrimTail(s);
  }

  /** Trimming leaves no space at either end. */
  lemma TrimEnds(s: string)
    ensures var r := TrimRight(TrimLeft(s));
            r == [] || (r[0] != ' ' && r[|r| - 1] != ' ')
  {
    var l := TrimLeft(s);
    var r := TrimRight(l);
    if r != [] {
      assert r[0] == l[0];
    }
  }

  /** What trimming keeps is the part of `s` after its leading spaces. */
  lemma TrimSlice(s: string)
    ensures var r := TrimRight(TrimLeft(s));
            LeadingSpaces(s) + |r| <= |s| && r == s[LeadingSpaces(s)..LeadingSpaces(s) + |r|]
  {
    var a := LeadingSpaces(s);
    var l := s[a..];
    var r := l[..|l| - TrailingSpaces(l)];
    assert r == s[a..a + |r|];
  }

  /** Everything after what trimming keeps is a space. */
  lemma TrimTail(s: string)
    ensures var r := TrimRight(TrimLeft(s));
            forall k :: LeadingSpaces(s) + |r| <= k < |s| ==> s[k] == ' '
  {
    var a := LeadingSpaces(s);
    var l := s[a..];
    var r := l[..|l| - TrailingSpaces(l)];
    forall k | a + |r| <= k < |s|
      ensures s[k] == ' '
    {
      assert s[k] == l[k - a];
    }
  }

  /** Trimming twice is trimming once. */
  lemma TrimIdempotent(s: string)
    ensures Trim(Trim(s)) == Trim(s)
  {
  }

  // ---------------------------------------------------------------------------
  // fmt's "%-<w>v": left alignment in a field of width w
  // ---------------------------------------------------------------------------

  /** `s` followed by enough spaces to fill a field of width `w`; a longer
      `s` is left as it is. */
  function PadRight(s: string, w: int): (r: string)
    ensures |r| == if |s| < w then w else |s|
    ensures s <= r
    ensures forall k :: |s| <= k < |r| ==> r[k] == ' '
  {
    if |s| < w then s + seq(w - |s|, _ => ' ') else s
  }

  // ---------------------------------------------------------------------------
  // Decimal numbers: fmt.Print of an unsigned integer and strconv.ParseUint
  // ---------------------------------------------------------------------------

  predicate IsDigit(c: char) {
    '0' <= c <= '9'
  }

  predicate AllDigits(s: string) {
    forall i :: 0 <= i < |s| ==> IsDigit(s[i])
  }

  function DigitChar(d: nat): (c: char)
    requires d < 10
    ensures IsDigit(c) && c as int - '0' as int == d
  {
    ('0' as int + d) as char
  }

  /** The number a string of decimal digits denotes (most significant first). */
  function DigitsValue(s: string): nat
    requires AllDigits(s)
  {
    if s == [] then 0
    else DigitsValue(s[..|s| - 1]) * 10 + (s[|s| - 1] as int - '0' as int)
  }

  /** The decimal rendering of `n`, as `fmt.Print` writes an unsigned integer:
      digits only, never empty, no leading zero. */
  function Decimal(n: nat): (r: string)
    ensures |r| >= 1 && AllDigits(r)
    ensures |r| > 1 ==> r[0] != '0'
    ensures '\n' !in r
  {
    if n < 10 then [DigitChar(n)] else Decimal(n / 10) + [DigitChar(n % 10)]
  }

  /** Reading back the decimal rendering of `n` gives `n`. */
  lemma {:induction false} DecimalRoundTrip(n: nat)
    ensures DigitsValue(Decimal(n)) == n
  {
    if n >= 10 {
      var s := Decimal(n);
      assert s[..|s| - 1] == Decimal(n / 10);
      DecimalRoundTrip(n / 10);
    }
  }

  /** Different numbers have different decimal texts. */
  lemma DecimalInjective(m: nat, n: nat)
    requires Decimal(m) == Decimal(n)
    ensures m == n
  {
    DecimalRoundTrip(m);
    DecimalRoundTrip(n);
  }

  function Pow2(bits: nat): (r: nat)
    ensures r >= 1
  {
    if bits == 0 then 1 else 2 * Pow2(bits - 1)
  }

  /** `strconv.ParseUint(s, 10, bits)` with its error folded into `None`: a
      non-empty run of decimal digits (no sign, no underscore) whose value
      fits in `bits` bits. */
  function ParseUint10(s: string, bits: nat): (r: Option<nat>)
    ensures r.Some? <==> s != [] && AllDigits(s) && DigitsValue(s) < Pow2(bits)
    ensures r.Some? ==> r.value == DigitsValue(s)
  {
    if s != [] && AllDigits(s) && DigitsValue(s) < Pow2(bits) then Some(DigitsValue(s)) else None
  }

  /** Parsing what `Decimal` rendered gives the number back. */
  lemma ParseDecimalRoundTrip(n: nat, bits: nat)
    requires n < Pow2(bits)
    ensures ParseUint10(Decimal(n), bits) == Some(n)
  {
    DecimalRoundTrip(n);
  }

  /** What `strconv.ParseUint(s, 0, bits)` reports. Go also hands back a
      number when it fails: 0 after a syntax error, the largest `bits`-bit
      value after a range error. */
  datatype UintParse = Parsed(value: nat) | SyntaxError | RangeError {
    function ReturnedValue(bits: nat): (v: nat)
      ensures Parsed? ==> v == value
      ensures SyntaxError? ==> v == 0
      ensures RangeError? ==> v + 1 == Pow2(bits)
    {
      match this
      case Parsed(n) => n
      case SyntaxError => 0
      case RangeError => Pow2(bits) - 1
    }
  }

  /** `strconv.ParseUint` with base 0 (prefixes 0x, 0o, 0b, leading-0 octal and
      underscores are all accepted by Go) is not restated: the model takes it
      as a parameter of this type. */
  type UintParser = string -> UintParse
}
