/**
 * The parts of Go's standard library that the modelled handlers lean on,
 * written as functions over strings of runes: strings.Split and Join,
 * strconv's integer parsing and decimal formatting, hexadecimal encoding,
 * and the subset of the unicode package that the handlers reach.
 * Nothing here is repository code; the repository's own rules live in the
 * other modules, which state their properties in terms of these.
 */
module GoStd {
  import opened Wrappers

  // ------------------------------------------------------------------ strings

  /** Number of occurrences of `c` in `s`. */
  function Count(s: string, c: char): nat
  {
    if s == [] then 0 else (if s[0] == c then 1 else 0) + Count(s[1..], c)
  }

  /** A character occurs nowhere exactly when it is counted zero times. */
  lemma {:induction false} CountZero(s: string, c: char)
    ensures Count(s, c) == 0 <==> c !in s
  {
    if s != [] {
      CountZero(s[1..], c);
      assert s == [s[0]] + s[1..];
    }
  }

  /**
   * strings.Split(s, string(sep)): the fields between the occurrences of
   * `sep`, so there is always one field more than there are separators and
   * no field contains the separator. Split("", sep) is [""].
   */
  function Split(s: string, sep: char): (parts: seq<string>)
    ensures |parts| == Count(s, sep) + 1
    ensures forall i :: 0 <= i < |parts| ==> sep !in parts[i]
  {
    if s == [] then [""]
    else
      var rest := Split(s[1..], sep);
      if s[0] == sep then [""] + rest
      else [[s[0]] + rest[0]] + rest[1..]
  }

  /** strings.Join(parts, string(sep)). */
  function Join(parts: seq<string>, sep: char): string
    requires |parts| >= 1
  {
    if |parts| == 1 then parts[0] else parts[0] + [sep] + Join(parts[1..], sep)
  }

  /** Joining the fields of a split with the same separator gives the input back. */
  lemma {:induction false} JoinSplit(s: string, sep: char)
    ensures Join(Split(s, sep), sep) == s
  {
    if s != [] {
      JoinSplit(s[1..], sep);
      var rest := Split(s[1..], sep);
      if s[0] == sep {
        assert ([""] + rest)[1..] == rest;
      } else if |rest| > 1 {
        assert ([[s[0]] + rest[0]] + rest[1..])[1..] == rest[1..];
      }
    }
  }

  /** A string without the separator is a single field. */
  lemma {:induction false} SplitWithout(a: string, sep: char)
    requires sep !in a
    ensures Split(a, sep) == [a]
  {
    if a != [] {
      assert sep !in a[1..] by {
        forall i | 0 <= i < |a[1..]| ensures a[1..][i] != sep { assert a[1..][i] == a[i + 1]; }
      }
      SplitWithout(a[1..], sep);
      assert [a[0]] + a[1..] == a;
    }
  }

  /** The first separator closes the first field. */
  lemma {:induction false} SplitAround(a: string, b: string, sep: char)
    requires sep !in a
    ensures Split(a + [sep] + b, sep) == [a] + Split(b, sep)
  {
    if a == [] {
      assert a + [sep] + b == [sep] + b;
      assert ([sep] + b)[1..] == b;
    } else {
      assert (a + [sep] + b)[1..] == a[1..] + [sep] + b;
      assert sep !in a[1..] by {
        forall i | 0 <= i < |a[1..]| ensures a[1..][i] != sep { assert a[1..][i] == a[i + 1]; }
      }
      SplitAround(a[1..], b, sep);
      assert ([a[1..]] + Split(b, sep))[1..] == Split(b, sep);
      assert [a[0]] + a[1..] == a;
    }
  }

  /** strings.Join(parts, ""): the parts back to back. */
  function Concat(parts: seq<string>): string
  {
    if parts == [] then "" else parts[0] + Concat(parts[1..])
  }

  // ------------------------------------------------------------------ strconv

  const MaxUint64: int := 0xFFFF_FFFF_FFFF_FFFF
  const MaxInt64: int := 0x7FFF_FFFF_FFFF_FFFF
  const MinInt64: int := -0x8000_0000_0000_0000

  predicate IsInt64(n: int)
  {
    MinInt64 <= n <= MaxInt64
  }

  datatype NumError = ErrSyntax | ErrRange

  /**
   * What strconv hands back: the value and the error. On a syntax error the
   * value is 0, on a range error the bound that was passed.
   */
  datatype Parsed = Parsed(value: int, err: Option<NumError>)

  /** The digit value strconv gives a byte: 0-9, 10-35 for letters of either case, 36 (never a digit) for anything else. */
  function DigitValue(c: char): nat
  {
    if '0' <= c <= '9' then c as int - '0' as int
    else if 'a' <= c <= 'z' then c as int - 'a' as int + 10
    else if 'A' <= c <= 'Z' then c as int - 'A' as int + 10
    else 36
  }

  /**
   * The digit loop of strconv.ParseUint with bit size 64: scanning left to
   * right from `acc`, the first byte that is not a digit of `base` is a
   * syntax error (value 0) and the first step past MaxUint64 a range error
   * (value MaxUint64), whatever follows.
   */
  function ScanDigits(s: string, base: nat, acc: nat): (r: Parsed)
    requires 2 <= base <= 36 && acc <= MaxUint64
    ensures 0 <= r.value <= MaxUint64
    ensures r.err == Some(ErrSyntax) ==> r.value == 0
    ensures r.err == Some(ErrRange) ==> r.value == MaxUint64
  {
    if s == [] then Parsed(acc, None)
    else
      var d := DigitValue(s[0]);
      if d >= base then Parsed(0, Some(ErrSyntax))
      else if acc * base + d > MaxUint64 then Parsed(MaxUint64, Some(ErrRange))
      else ScanDigits(s[1..], base, acc * base + d)
  }

  /**
   * strconv.ParseUint(s, base, 64) for base 2..36, or base 0, where a
   * "0b", "0o" or "0x" prefix (either case) or a bare leading "0" picks the
   * base and anything else is decimal.
   */
  function ParseUint(s: string, base: nat): (r: Parsed)
    requires base == 0 || 2 <= base <= 36
    ensures 0 <= r.value <= MaxUint64
    ensures r.err == Some(ErrRange) ==> r.value == MaxUint64
  {
    if s == [] then Parsed(0, Some(ErrSyntax))
    else if base != 0 then ScanDigits(s, base, 0)
    else if s[0] != '0' then ScanDigits(s, 10, 0)
    else if |s| >= 3 && (s[1] == 'b' || s[1] == 'B') then ScanDigits(s[2..], 2, 0)
    else if |s| >= 3 && (s[1] == 'o' || s[1] == 'O') then ScanDigits(s[2..], 8, 0)
    else if |s| >= 3 && (s[1] == 'x' || s[1] == 'X') then ScanDigits(s[2..], 16, 0)
    else ScanDigits(s[1..], 8, 0)
  }

  /**
   * strconv.ParseInt(s, base, 64): an optional sign, then ParseUint; a
   * magnitude outside int64 is a range error with the value clamped.
   */
  function ParseInt(s: string, base: nat): (r: Parsed)
    requires base == 0 || 2 <= base <= 36
    ensures IsInt64(r.value)
    ensures r.err.None? ==> s != []
    ensures r.err == Some(ErrSyntax) ==> r.value == 0
  {
    if s == [] then Parsed(0, Some(ErrSyntax))
    else
      var neg := s[0] == '-';
      var u := ParseUint(if s[0] == '+' || s[0] == '-' then s[1..] else s, base);
      if u.err == Some(ErrSyntax) then Parsed(0, Some(ErrSyntax))
      else if !neg && u.value > MaxInt64 then Parsed(MaxInt64, Some(ErrRange))
      else if neg && u.value > -MinInt64 then Parsed(MinInt64, Some(ErrRange))
      else Parsed(if neg then -u.value else u.value, None)
  }

  /** strconv.Atoi on a 64-bit platform. */
  function Atoi(s: string): Parsed
  {
    ParseInt(s, 10)
  }

  function DecimalDigit(d: nat): (c: char)
    requires d < 10
    ensures '0' <= c <= '9' && DigitValue(c) == d
  {
    ('0' as int + d) as char
  }

  /** The decimal digits of `n`, with no leading zero unless `n` is 0. */
  function NatToDecimal(n: nat): (s: string)
    ensures |s| >= 1
    ensures forall i :: 0 <= i < |s| ==> '0' <= s[i] <= '9'
    ensures s[0] == '0' <==> n == 0
    ensures n == 0 ==> s == "0"
  {
    if n < 10 then [DecimalDigit(n)] else NatToDecimal(n / 10) + [DecimalDigit(n % 10)]
  }

  /** strconv.FormatInt(n, 10), which is also what fmt prints for `%d` and Sprint. */
  function FormatInt(n: int): (s: string)
    ensures |s| >= 1 && '.' !in s && ' ' !in s
  {
    if n < 0 then "-" + NatToDecimal(-n) else NatToDecimal(n)
  }

  // The decimal round trip below only scans in base 10, which keeps its arithmetic linear.

  /** A decimal scan that succeeds reads a digit that fits at every step. */
  lemma ScanStep(s: string, acc: nat)
    requires acc <= MaxUint64 && s != []
    requires ScanDigits(s, 10, acc).err.None?
    ensures DigitValue(s[0]) < 10 && acc * 10 + DigitValue(s[0]) <= MaxUint64
  {
  }

  /** One step of the decimal scan: a digit that fits moves on to the rest with the new accumulator. */
  lemma ScanUnfold(s: string, acc: nat, next: nat)
    requires acc <= MaxUint64 && s != []
    requires DigitValue(s[0]) < 10 && next == acc * 10 + DigitValue(s[0]) && next <= MaxUint64
    ensures ScanDigits(s, 10, acc) == ScanDigits(s[1..], 10, next)
  {
  }

  /** Scanning a single decimal digit that fits. */
  lemma ScanLast(c: char, acc: nat)
    requires acc <= MaxUint64
    requires DigitValue(c) < 10 && acc * 10 + DigitValue(c) <= MaxUint64
    ensures ScanDigits([c], 10, acc) == Parsed(acc * 10 + DigitValue(c), None)
  {
    assert [c][1..] == [];
  }

  /** Scanning a concatenation scans the second part from where the first part left off. */
  lemma {:induction false} ScanConcat(s: string, t: string, acc: nat)
    requires acc <= MaxUint64
    requires ScanDigits(s, 10, acc).err.None?
    ensures ScanDigits(s + t, 10, acc) == ScanDigits(t, 10, ScanDigits(s, 10, acc).value)
    decreases |s|
  {
    if s == [] {
      assert s + t == t;
    } else {
      ScanStep(s, acc);
      var next := acc * 10 + DigitValue(s[0]);
      ScanUnfold(s, acc, next);
      var u := s + t;
      assert u[0] == s[0] && u[1..] == s[1..] + t;
      ScanUnfold(u, acc, next);
      ScanConcat(s[1..], t, next);
    }
  }

  /** Appending a digit that fits to a successful decimal scan shifts its value by one place. */
  lemma ScanAppend(s: string, c: char, acc: nat)
    requires acc <= MaxUint64
    requires ScanDigits(s, 10, acc).err.None?
    requires DigitValue(c) < 10
    requires ScanDigits(s, 10, acc).value * 10 + DigitValue(c) <= MaxUint64
    ensures ScanDigits(s + [c], 10, acc) == Parsed(ScanDigits(s, 10, acc).value * 10 + DigitValue(c), None)
  {
    ScanConcat(s, [c], acc);
    ScanLast(c, ScanDigits(s, 10, acc).value);
  }

  /** Scanning the decimal digits of `n` gives `n`. */
  lemma {:induction false} ScanDecimal(n: nat)
    requires n <= MaxUint64
    ensures ScanDigits(NatToDecimal(n), 10, 0) == Parsed(n, None)
  {
    if n >= 10 {
      ScanDecimal(n / 10);
      ScanAppend(NatToDecimal(n / 10), DecimalDigit(n % 10), 0);
    } else {
      assert [DecimalDigit(n)][1..] == [];
    }
  }

  /** ParseUint in base 10 or base 0 reads back what NatToDecimal wrote. */
  lemma ParseUintDecimal(n: nat, base: nat)
    requires n <= MaxUint64 && (base == 0 || base == 10)
    ensures ParseUint(NatToDecimal(n), base) == Parsed(n, None)
  {
    ScanDecimal(n);
    if n == 0 {
      assert NatToDecimal(0)[1..] == [];
    }
  }

  /** ParseInt in base 10 or base 0 reads back every int64 that FormatInt wrote. */
  lemma ParseFormatInt(n: int, base: nat)
    requires IsInt64(n) && (base == 0 || base == 10)
    ensures ParseInt(FormatInt(n), base) == Parsed(n, None)
  {
    if n < 0 {
      assert ("-" + NatToDecimal(-n))[1..] == NatToDecimal(-n);
      ParseUintDecimal(-n, base);
    } else {
      ParseUintDecimal(n, base);
    }
  }

  // ----------------------------------------------------------- encoding/hex

  const HexAlphabet: string := "0123456789abcdef"

  /** hex.EncodeToString: two lower-case hexadecimal digits per byte. */
  function HexEncode(bytes: seq<bv8>): (h: string)
    ensures |h| == 2 * |bytes|
    ensures forall i :: 0 <= i < |h| ==> h[i] in HexAlphabet
  {
    if bytes == [] then ""
    else [HexAlphabet[(bytes[0] >> 4) as int], HexAlphabet[(bytes[0] & 0xF) as int]] + HexEncode(bytes[1..])
  }

  // ---------------------------------------------------------------- unicode

  /** unicode.IsSpace: the Latin-1 spaces and the other White_Space runes. */
  predicate IsSpace(c: char)
  {
    || c == '\t' || c == '\n' || c == '\U{B}' || c == '\U{C}' || c == '\r' || c == ' '
    || c == '\U{85}' || c == '\U{A0}' || c == '\U{1680}'
    || ('\U{2000}' <= c <= '\U{200A}')
    || c == '\U{2028}' || c == '\U{2029}' || c == '\U{202F}' || c == '\U{205F}' || c == '\U{3000}'
  }

  /** strings.TrimLeftFunc(s, unicode.IsSpace). */
  function TrimLeftSpace(s: string): (r: string)
    ensures r == [] || !IsSpace(r[0])
    ensures |r| <= |s| && r == s[|s| - |r|..]
    ensures forall i :: 0 <= i < |s| - |r| ==> IsSpace(s[i])
  {
    if s != [] && IsSpace(s[0]) then TrimLeftSpace(s[1..]) else s
  }

  /** strings.TrimRightFunc(s, unicode.IsSpace). */
  function TrimRightSpace(s: string): (r: string)
    ensures r == [] || !IsSpace(r[|r| - 1])
    ensures |r| <= |s| && r == s[..|r|]
    ensures forall i :: |r| <= i < |s| ==> IsSpace(s[i])
  {
    if s != [] && IsSpace(s[|s| - 1]) then TrimRightSpace(s[..|s| - 1]) else s
  }

  /** strings.TrimSpace. */
  function TrimSpace(s: string): string
  {
    TrimLeftSpace(TrimRightSpace(s))
  }

  /**
   * unicode.ToUpper on ASCII, Latin-1 and the basic Cyrillic block;
   * unicode.ToTitle agrees with it on all of these. Every other rune is
   * returned unchanged.
   */
  function UpperRune(c: char): char
  {
    if 'a' <= c <= 'z' then (c as int - 32) as char
    else if '\U{E0}' <= c <= '\U{FE}' && c != '\U{F7}' then (c as int - 32) as char
    else if c == '\U{FF}' then '\U{178}'
    else if c == '\U{B5}' then '\U{39C}'
    else if '\U{430}' <= c <= '\U{44F}' then (c as int - 32) as char
    else if '\U{450}' <= c <= '\U{45F}' then (c as int - 80) as char
    else c
  }

  /**
   * The first byte of the UTF-8 encoding of `c`, as a number. Indexing a Go
   * string yields this byte, and converting it back with string(b) reads it
   * as the Latin-1 rune of the same value.
   */
  function Utf8LeadByte(c: char): (b: nat)
    ensures b < 0x100
    ensures (c as int) < 0x80 ==> b == c as int
    ensures 0x80 <= (c as int) ==> 0xC2 <= b <= 0xF4
  {
    var n := c as int;
    if n < 0x80 then n
    else if n < 0x800 then 0xC0 + n / 0x40
    else if n < 0x10000 then 0xE0 + n / 0x1000
    else 0xF0 + n / 0x40000
  }

  /** strings.ToUpper / strings.ToTitle, rune by rune. */
  function UpperString(s: string): (r: string)
    ensures |r| == |s|
    ensures forall i :: 0 <= i < |s| ==> r[i] == UpperRune(s[i])
  {
    seq(|s|, i requires 0 <= i < |s| => UpperRune(s[i]))
  }
}
