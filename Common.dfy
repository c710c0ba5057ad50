/**
 * Shared vocabulary of the model: optional values, the exceptions the modelled
 * code raises or catches, fixed-width integer wrap-around, decimal and hex
 * formatting, a few .NET string operations, and the enumeration of
 * dictionary keys in an order the model does not fix.
 */
module Common {

  /** A value that may be absent; `None` stands for a C# `null` or `default`. */
  datatype Option<T> = None | Some(value: T)

  /** The exceptions that the modelled code raises, catches or lets through. */
  datatype Error =
    | ArgumentError(message: string)        // System.ArgumentException (also Dictionary.Add on an existing key)
    | ArgumentOutOfRange(message: string)   // System.ArgumentOutOfRangeException
    | IndexOutOfRange                       // System.IndexOutOfRangeException
    | DivideByZero                          // System.DivideByZeroException
    | InvalidCast                           // System.InvalidCastException
    | NullReference                         // System.NullReferenceException
    | PacketHandling(message: string)       // PacketHandlingException
    | InterfaceStart(message: string)       // NetworkInterfaceStartException
    | RakLibFailure(message: string)        // RakLibException
    | Socket(message: string)               // System.Net.Sockets.SocketException
    | LanguageNotFound(message: string)     // LanguageNotFoundException
    | Foreign(message: string)              // any other exception raised by code outside the model

  /** What `Dictionary.Add` raises when the key is already present. */
  function DuplicateKey(key: string): Error {
    ArgumentError("An item with the same key has already been added. Key: " + key)
  }

  /** A computed value, or the exception that ended the computation. */
  datatype Result<T> = Ok(value: T) | Err(error: Error)

  /** Normal completion, or the exception that ended a void operation. */
  datatype Outcome = Pass | Fail(error: Error)

  // ---------------------------------------------------------------------------
  // Fixed-width integers

  const INT32_MIN: int := -0x8000_0000
  const INT32_MAX: int := 0x7FFF_FFFF
  const INT64_MIN: int := -0x8000_0000_0000_0000
  const INT64_MAX: int := 0x7FFF_FFFF_FFFF_FFFF

  predicate IsInt32(x: int) { INT32_MIN <= x <= INT32_MAX }
  predicate IsInt64(x: int) { INT64_MIN <= x <= INT64_MAX }

  /** Two's-complement wrap-around of an unchecked C# `int` operation. */
  function Wrap32(x: int): (r: int)
    ensures IsInt32(r)
    ensures IsInt32(x) ==> r == x
    ensures (r - x) % 0x1_0000_0000 == 0
  {
    (x - INT32_MIN) % 0x1_0000_0000 + INT32_MIN
  }

  /** Two's-complement wrap-around of an unchecked C# `long` operation. */
  function Wrap64(x: int): (r: int)
    ensures IsInt64(r)
    ensures IsInt64(x) ==> r == x
    ensures (r - x) % 0x1_0000_0000_0000_0000 == 0
  {
    (x - INT64_MIN) % 0x1_0000_0000_0000_0000 + INT64_MIN
  }

  /** C#'s `%` on integers: the remainder takes the sign of the dividend. */
  function CRem(a: int, b: int): (r: int)
    requires b > 0
    ensures a >= 0 ==> 0 <= r < b
    ensures a < 0 ==> -b < r <= 0
    ensures (a - r) % b == 0
  {
    if a >= 0 then RemainderSplits(a, b); a % b
    else NegatedRemainder(-a, b); -((-a) % b)
  }

  /** The remainder C# gives a negative dividend `-n` leaves a multiple of the divisor behind. */
  lemma NegatedRemainder(n: nat, b: int)
    requires b > 0
    ensures (n % b - n) % b == 0
  {
    var q := n / b;
    RemainderSplits(n, b);
    assert n % b - n == (-q) * b;
    MultipleMod(-q, b);
  }

  /** A natural number less its remainder is a multiple of the divisor, and so leaves no remainder. */
  lemma RemainderSplits(n: nat, b: int)
    requires b > 0
    ensures n - n % b == (n / b) * b && (n - n % b) % b == 0
  {
    MultipleMod(n / b, b);
  }

  /** A multiple of `b` leaves no remainder. */
  lemma MultipleMod(k: int, b: int)
    requires b > 0
    ensures (k * b) % b == 0
  {
    var d, m := (k * b) / b, (k * b) % b;
    assert m == (k - d) * b;
    if k - d >= 1 {
      assert false;
    } else if k - d <= -1 {
      assert false;
    }
  }

  /** C#'s `/` on integers: the quotient is truncated toward zero. */
  function CDiv(a: int, b: int): (q: int)
    requires b > 0
    ensures a >= 0 ==> q * b <= a < q * b + b
    ensures a < 0 ==> q * b - b < a <= q * b
  {
    if a >= 0 then a / b else -((-a) / b)
  }

  // ---------------------------------------------------------------------------
  // Formatting

  function DigitChar(d: nat): (c: char)
    requires d < 10
    ensures '0' <= c <= '9' && c as int - '0' as int == d
  {
    ['0', '1', '2', '3', '4', '5', '6', '7', '8', '9'][d]
  }

  /** Decimal digits of a natural number, without leading zeros. */
  function NatToString(n: nat): (s: string)
    ensures |s| >= 1
    ensures forall i :: 0 <= i < |s| ==> '0' <= s[i] <= '9'
    decreases n
  {
    if n < 10 then [DigitChar(n)] else NatToString(n / 10) + [DigitChar(n % 10)]
  }

  /** C#'s `int.ToString()` in the invariant culture. */
  function IntToString(i: int): (s: string)
    ensures |s| >= 1
  {
    if i < 0 then "-" + NatToString(-i) else NatToString(i)
  }

  /** An optional minus sign followed by at least one decimal digit. */
  predicate SignedDigits(s: string) {
    && |s| > 0 && (s[0] == '-' || '0' <= s[0] <= '9') && '0' <= s[|s| - 1] <= '9'
    && forall k :: 1 <= k < |s| ==> '0' <= s[k] <= '9'
  }

  /** Written integers are an optional minus sign followed by digits. */
  lemma IntToStringShape(i: int)
    ensures SignedDigits(IntToString(i))
  {
    if i < 0 {
      var ds := NatToString(-i);
      assert forall k :: 1 <= k < |"-" + ds| ==> ("-" + ds)[k] == ds[k - 1];
    }
  }

  const HEX_DIGITS: string := "0123456789ABCDEF"

  /** `Convert.ToHexString`: two upper-case hex digits per byte, high nibble first. */
  function ToHexString(bytes: seq<bv8>): (s: string)
    ensures |s| == 2 * |bytes|
    ensures forall i :: 0 <= i < |s| ==> s[i] in HEX_DIGITS
  {
    if bytes == [] then ""
    else
      var b := bytes[0] as int;
      [HEX_DIGITS[b / 16], HEX_DIGITS[b % 16]] + ToHexString(bytes[1..])
  }

  // ---------------------------------------------------------------------------
  // .NET string operations. Every comparison here is ordinal, code unit by
  // code unit. .NET's `StartsWith(string)` and `EndsWith(string)` compare under
  // the current culture, which also passes over ignorable characters such as
  // U+00AD; that matching is not modelled.

  /**
   * `char.IsWhiteSpace`: the Unicode space separators, the line and paragraph
   * separators, and the control characters U+0009 to U+000D and U+0085.
   */
  predicate IsWhiteSpace(c: char) {
    || c == ' ' || '\t' <= c <= '\r' || c == '\U{85}' || c == '\U{A0}' || c == '\U{1680}'
    || '\U{2000}' <= c <= '\U{200A}' || c == '\U{2028}' || c == '\U{2029}' || c == '\U{202F}'
    || c == '\U{205F}' || c == '\U{3000}'
  }

  /** The white space number parsing skips around the digits: U+0009 to U+000D and the space. */
  predicate IsNumberWhiteSpace(c: char) {
    c == ' ' || '\t' <= c <= '\r'
  }

  /** Which white space a trim removes: all of `char.IsWhiteSpace`, or only what number parsing skips. */
  datatype Spaces = AllWhiteSpace | NumberWhiteSpace

  predicate IsSpace(c: char, spaces: Spaces) {
    if spaces.AllWhiteSpace? then IsWhiteSpace(c) else IsNumberWhiteSpace(c)
  }

  predicate StartsWith(s: string, prefix: string) {
    |prefix| <= |s| && s[..|prefix|] == prefix
  }

  predicate EndsWith(s: string, suffix: string) {
    |suffix| <= |s| && s[|s| - |suffix|..] == suffix
  }

  function TrimStart(s: string, spaces: Spaces): (r: string)
    ensures |r| <= |s|
    ensures r == [] || !IsSpace(r[0], spaces)
  {
    if s != [] && IsSpace(s[0], spaces) then TrimStart(s[1..], spaces) else s
  }

  function TrimEnd(s: string, spaces: Spaces): (r: string)
    ensures |r| <= |s|
    ensures r == [] || !IsSpace(r[|r| - 1], spaces)
  {
    if s != [] && IsSpace(s[|s| - 1], spaces) then TrimEnd(s[..|s| - 1], spaces) else s
  }

  /** `string.Trim()`: drops leading and trailing white space. */
  function Trim(s: string): string {
    TrimEnd(TrimStart(s, AllWhiteSpace), AllWhiteSpace)
  }

  /** Drops the U+0000 characters at the end of `s`. */
  function TrimNulls(s: string): (r: string)
    ensures |r| <= |s|
    ensures r == [] || r[|r| - 1] != '\0'
  {
    if s != [] && s[|s| - 1] == '\0' then TrimNulls(s[..|s| - 1]) else s
  }

  /**
   * What number parsing skips around the digits: white space in front, and
   * behind them white space followed by any number of U+0000 characters.
   */
  function TrimNumber(s: string): string {
    TrimEnd(TrimNulls(TrimStart(s, NumberWhiteSpace)), NumberWhiteSpace)
  }

  /** Index of the first occurrence of `c` in `s`, if any (`string.IndexOf(char)`). */
  function IndexOf(s: string, c: char): (r: Option<nat>)
    ensures r.None? <==> c !in s
    ensures r.Some? ==> r.value < |s| && s[r.value] == c && c !in s[..r.value]
  {
    if s == [] then None
    else if s[0] == c then Some(0)
    else match IndexOf(s[1..], c)
      case None => None
      case Some(i) => assert s[1..][..i] == s[1..i + 1]; Some(i + 1)
  }

  /** The first occurrence is the only position holding `c` with no `c` before it. */
  lemma IndexOfIs(s: string, c: char, k: nat)
    requires k < |s| && s[k] == c && c !in s[..k]
    ensures IndexOf(s, c) == Some(k)
  {
    var r := IndexOf(s, c);
    assert r.value <= k;
  }

  /** `string.Split(char)`: the pieces between consecutive separators, empty pieces kept. */
  function Split(s: string, sep: char): (parts: seq<string>)
    ensures |parts| >= 1
    ensures forall i :: 0 <= i < |parts| ==> sep !in parts[i]
    decreases |s|
  {
    match IndexOf(s, sep)
    case None => [s]
    case Some(i) => [s[..i]] + Split(s[i + 1..], sep)
  }

  /** Joins `parts` with `sep` between consecutive pieces: the inverse of Split. */
  function Join(parts: seq<string>, sep: char): string
    requires |parts| >= 1
  {
    if |parts| == 1 then parts[0] else parts[0] + [sep] + Join(parts[1..], sep)
  }

  lemma {:induction false} SplitJoin(parts: seq<string>, sep: char)
    requires |parts| >= 1
    requires forall i :: 0 <= i < |parts| ==> sep !in parts[i]
    ensures Split(Join(parts, sep), sep) == parts
    decreases |parts|
  {
    var s := Join(parts, sep);
    if |parts| == 1 {
      assert IndexOf(s, sep).None?;
    } else {
      var rest := Join(parts[1..], sep);
      assert s == parts[0] + [sep] + rest;
      assert s[|parts[0]|] == sep;
      assert s[..|parts[0]|] == parts[0];
      IndexOfIs(s, sep, |parts[0]|);
      assert s[|parts[0]| + 1..] == rest;
      SplitJoin(parts[1..], sep);
    }
  }

  /**
   * Every element of `s` is kept by `string.Trim()` when neither end is white
   * space, and by number parsing when, besides, `s` does not end in U+0000.
   */
  lemma TrimKeeps(s: string)
    requires s == [] || (!IsWhiteSpace(s[0]) && !IsWhiteSpace(s[|s| - 1]))
    ensures Trim(s) == s
    ensures s == [] || s[|s| - 1] != '\0' ==> TrimNumber(s) == s
  {
  }

  /** Leading white space is trimmed alike with a character that is not white space appended. */
  lemma {:induction false} TrimStartAppend(s: string, c: char, spaces: Spaces)
    requires !IsSpace(c, spaces)
    ensures TrimStart(s + [c], spaces) == TrimStart(s, spaces) + [c]
    decreases |s|
  {
    if s != [] && IsSpace(s[0], spaces) {
      assert (s + [c])[1..] == s[1..] + [c];
      TrimStartAppend(s[1..], c, spaces);
    }
  }

  /** `int.TryParse` reads a text followed by U+0000 as it reads the text alone. */
  lemma TrailingNullIgnored(s: string)
    ensures ParseInt32(s + "\0") == ParseInt32(s)
  {
    TrimStartAppend(s, '\0', NumberWhiteSpace);
    var t := TrimStart(s, NumberWhiteSpace);
    assert (t + "\0")[..|t + "\0"| - 1] == t;
  }

  /** ASCII `ToLower`: upper-case letters become lower-case, everything else is kept. */
  function ToLower(s: string): (r: string)
    ensures |r| == |s|
    ensures forall i :: 0 <= i < |s| ==> r[i] == (if 'A' <= s[i] <= 'Z' then (s[i] as int + 32) as char else s[i])
  {
    if s == [] then []
    else [if 'A' <= s[0] <= 'Z' then (s[0] as int + 32) as char else s[0]] + ToLower(s[1..])
  }

  /** The text of `lines`, each followed by a newline. */
  function Terminated(lines: seq<string>): (s: string)
    ensures |s| >= |lines|
  {
    if lines == [] then "" else lines[0] + "\n" + Terminated(lines[1..])
  }

  /** One more line appended at the end of the text. */
  lemma {:induction false} TerminatedSnoc(lines: seq<string>, line: string)
    ensures Terminated(lines + [line]) == Terminated(lines) + line + "\n"
    decreases |lines|
  {
    if lines != [] {
      assert (lines + [line])[1..] == lines[1..] + [line];
      TerminatedSnoc(lines[1..], line);
    } else {
      assert Terminated([line]) == line + "\n" + Terminated([]);
    }
  }

  /** Newline-terminated lines are the newline-joined lines followed by an empty last piece. */
  lemma {:induction false} TerminatedIsJoin(lines: seq<string>)
    ensures Terminated(lines) == Join(lines + [""], '\n')
    decreases |lines|
  {
    if lines != [] {
      assert (lines + [""])[1..] == lines[1..] + [""];
      TerminatedIsJoin(lines[1..]);
    }
  }

  /** Splitting newline-terminated lines at newlines gives the lines back, then an empty piece. */
  lemma SplitTerminated(lines: seq<string>)
    requires forall i :: 0 <= i < |lines| ==> '\n' !in lines[i]
    ensures Split(Terminated(lines), '\n') == lines + [""]
  {
    TerminatedIsJoin(lines);
    SplitJoin(lines + [""], '\n');
  }

  // ---------------------------------------------------------------------------
  // Parsing

  predicate IsDigit(c: char) { '0' <= c <= '9' }

  predicate AllDigits(ds: string) {
    forall i :: 0 <= i < |ds| ==> IsDigit(ds[i])
  }

  /** The number a run of decimal digits spells, most significant first. */
  function DigitsValue(ds: string): (n: nat)
    requires AllDigits(ds)
  {
    if ds == [] then 0
    else
      assert IsDigit(ds[|ds| - 1]);
      DigitsValue(ds[..|ds| - 1]) * 10 + (ds[|ds| - 1] as int - '0' as int)
  }

  /** Reading back the digits `NatToString` writes gives the number. */
  lemma {:induction false} DigitsValueOfNat(n: nat)
    ensures AllDigits(NatToString(n)) && DigitsValue(NatToString(n)) == n
    decreases n
  {
    var s := NatToString(n);
    if n >= 10 {
      var init := NatToString(n / 10);
      assert s == init + [DigitChar(n % 10)];
      assert s[..|s| - 1] == init;
      DigitsValueOfNat(n / 10);
      assert DigitsValue(s) == DigitsValue(init) * 10 + (DigitChar(n % 10) as int - '0' as int);
    } else {
      assert s[..0] == [];
    }
  }

  /**
   * `int.TryParse(string)`: optional white space (U+0009 to U+000D and the
   * space only), an optional `+` or `-`, one or more decimal digits, optional
   * white space and any number of U+0000 characters, whose value fits a 32-bit `int`.
   */
  function ParseInt32(s: string): (r: Option<int>)
    ensures r.Some? ==> IsInt32(r.value)
  {
    ParseSigned(TrimNumber(s))
  }

  /** `ParseInt32` past the white space: an optional sign and the digits. */
  function ParseSigned(t: string): (r: Option<int>)
    ensures r.Some? ==> IsInt32(r.value)
  {
    if t == [] then None
    else
      var digits := if t[0] == '-' || t[0] == '+' then t[1..] else t;
      if digits == [] || !AllDigits(digits) then None
      else
        var n: int := DigitsValue(digits);
        var v := if t[0] == '-' then -n else n;
        if IsInt32(v) then Some(v) else None
  }

  /** A run of digits, with or without a minus sign, has nothing to trim. */
  lemma SignedDigitsTrimmed(s: string)
    requires SignedDigits(s)
    ensures Trim(s) == s && TrimNumber(s) == s
  {
    TrimKeeps(s);
  }

  /** Signed digits are parsed as they stand. */
  lemma ParseSignedDigits(s: string)
    requires SignedDigits(s)
    ensures ParseInt32(s) == ParseSigned(s)
  {
    SignedDigitsTrimmed(s);
  }

  /** A minus sign before a run of digits makes signed digits. */
  lemma MinusDigitsSigned(ds: string)
    requires ds != [] && AllDigits(ds)
    ensures SignedDigits("-" + ds)
  {
    var s := "-" + ds;
    assert forall k :: 1 <= k < |s| ==> s[k] == ds[k - 1];
    assert IsDigit(ds[|ds| - 1]);
  }

  /** A minus sign before a run of digits negates the value the digits spell, when in range. */
  lemma ParseMinusDigits(ds: string)
    requires ds != [] && AllDigits(ds) && IsInt32(-(DigitsValue(ds) as int))
    ensures ParseSigned("-" + ds) == Some(-(DigitsValue(ds) as int))
  {
    assert ("-" + ds)[0] == '-' && ("-" + ds)[1..] == ds;
  }

  /** A run of digits in range parses to the value it spells. */
  lemma ParsePlainDigits(ds: string)
    requires ds != [] && AllDigits(ds) && IsInt32(DigitsValue(ds))
    ensures ParseSigned(ds) == Some(DigitsValue(ds) as int)
  {
    assert IsDigit(ds[0]);
  }

  /** A minus sign before digits spelling a magnitude in range parses to its negation. */
  lemma ParseMinusValue(ds: string, n: nat)
    requires ds != [] && AllDigits(ds) && DigitsValue(ds) == n && n <= -INT32_MIN
    ensures ParseSigned("-" + ds) == Some(-(n as int))
  {
    ParseMinusDigits(ds);
  }

  /** A minus sign before the digits of a magnitude in range parses to its negation. */
  lemma ParseNegatedNat(n: nat)
    requires 0 < n <= -INT32_MIN
    ensures ParseSigned("-" + NatToString(n)) == Some(-(n as int))
  {
    DigitsValueOfNat(n);
    ParseMinusValue(NatToString(n), n);
  }

  /** A negative 32-bit integer's text is a minus sign before the digits of its magnitude. */
  lemma ParseNegativeToString(i: int)
    requires INT32_MIN <= i < 0
    ensures ParseSigned(IntToString(i)) == Some(i)
  {
    ParseNegatedNat(-i);
    assert IntToString(i) == "-" + NatToString(-i);
  }

  /** A non-negative 32-bit integer's text is the digits alone. */
  lemma ParsePositiveToString(i: int)
    requires 0 <= i <= INT32_MAX
    ensures ParseSigned(IntToString(i)) == Some(i)
  {
    var ds := NatToString(i);
    DigitsValueOfNat(i);
    ParsePlainDigits(ds);
    assert IntToString(i) == ds;
  }

  /** A 32-bit integer written by `IntToString` parses back to itself. */
  lemma ParseIntToString(i: int)
    requires IsInt32(i)
    ensures ParseInt32(IntToString(i)) == Some(i)
  {
    if i < 0 {
      ParseNegativeToString(i);
    } else {
      ParsePositiveToString(i);
    }
    IntToStringShape(i);
    ParseSignedDigits(IntToString(i));
  }

  /**
   * `string.Replace(pattern, replacement)`: every occurrence of `pattern`,
   * scanned left to right without overlap, is replaced.
   */
  function Replace(s: string, pattern: string, replacement: string): string
    requires |pattern| > 0
    decreases |s|
  {
    if |s| < |pattern| then s
    else if s[..|pattern|] == pattern then replacement + Replace(s[|pattern|..], pattern, replacement)
    else [s[0]] + Replace(s[1..], pattern, replacement)
  }

  /** True when `pattern` occurs in `s` starting at index `i`. */
  predicate OccursAt(s: string, pattern: string, i: int) {
    0 <= i && i + |pattern| <= |s| && s[i..i + |pattern|] == pattern
  }

  /** True when `pattern` occurs somewhere in `s`. */
  ghost predicate Occurs(s: string, pattern: string) {
    exists i :: OccursAt(s, pattern, i)
  }

  /** Replacing a pattern that does not occur leaves the text unchanged. */
  lemma {:induction false} ReplaceAbsent(s: string, pattern: string, replacement: string)
    requires |pattern| > 0
    requires !Occurs(s, pattern)
    ensures Replace(s, pattern, replacement) == s
    decreases |s|
  {
    if |s| >= |pattern| {
      assert s[..|pattern|] != pattern by {
        assert s[0..|pattern|] == s[..|pattern|];
        assert !OccursAt(s, pattern, 0);
      }
      assert !Occurs(s[1..], pattern) by {
        forall i | OccursAt(s[1..], pattern, i) ensures false {
          assert s[1..][i..i + |pattern|] == s[i + 1..i + 1 + |pattern|];
          assert OccursAt(s, pattern, i + 1);
        }
      }
      ReplaceAbsent(s[1..], pattern, replacement);
    }
  }

  /** Replacing a pattern by itself leaves the text unchanged. */
  lemma {:induction false} ReplaceBySelf(s: string, pattern: string)
    requires |pattern| > 0
    ensures Replace(s, pattern, pattern) == s
    decreases |s|
  {
    if |s| >= |pattern| {
      if s[..|pattern|] == pattern {
        ReplaceBySelf(s[|pattern|..], pattern);
        assert s == s[..|pattern|] + s[|pattern|..];
      } else {
        ReplaceBySelf(s[1..], pattern);
        assert s == [s[0]] + s[1..];
      }
    }
  }

  // ---------------------------------------------------------------------------
  // Enumeration of dictionary keys

  /** `order` lists every element of `keys` exactly once. */
  ghost predicate EnumeratesOnce<K(!new)>(order: seq<K>, keys: set<K>) {
    && |order| == |keys|
    && (forall x :: x in keys <==> x in order)
    && (forall i, j :: 0 <= i < j < |order| ==> order[i] != order[j])
  }

  /** The `key=value` line written for the entry under `key`, its value rendered by `render`. */
  function Line<V>(table: map<string, V>, key: string, render: V -> string): string
    requires key in table
  {
    key + "=" + render(table[key])
  }

  /** The lines written for the entries under `order`, in that order. */
  function Lines<V>(table: map<string, V>, order: seq<string>, render: V -> string): (lines: seq<string>)
    requires forall i :: 0 <= i < |order| ==> order[i] in table
    ensures |lines| == |order|
    ensures forall i :: 0 <= i < |order| ==> lines[i] == Line(table, order[i], render)
  {
    seq(|order|, i requires 0 <= i < |order| => Line(table, order[i], render))
  }

  /** The entries of `table` under the keys listed in `order`. */
  function EntriesOf<V>(table: map<string, V>, order: seq<string>): (r: map<string, V>)
    ensures forall k :: k in r <==> k in table && k in order
    ensures forall k :: k in r ==> r[k] == table[k]
  {
    map k | k in table && k in order :: table[k]
  }

  /** Adding the first entry before the rest gives the same table as adding all at once. */
  lemma EntriesOfStep<V>(table: map<string, V>, order: seq<string>, acc: map<string, V>)
    requires |order| > 0 && order[0] in table
    ensures acc[order[0] := table[order[0]]] + EntriesOf(table, order[1..]) == acc + EntriesOf(table, order)
  {
    var left := acc[order[0] := table[order[0]]] + EntriesOf(table, order[1..]);
    var right := acc + EntriesOf(table, order);
    assert forall k :: k in order <==> k == order[0] || k in order[1..];
    assert left.Keys == right.Keys;
    forall k | k in left
      ensures left[k] == right[k]
    {
    }
  }

  /** Every key listed once, and only those, gives back the whole table. */
  lemma EntriesOfAll<V>(table: map<string, V>, order: seq<string>)
    requires EnumeratesOnce(order, table.Keys)
    ensures map[] + EntriesOf(table, order) == table
  {
    var r := map[] + EntriesOf(table, order);
    assert r.Keys == table.Keys;
  }

  /** A set that is not empty has an element to pick. */
  lemma NonEmptyHasElement(s: set<int>)
    requires s != {}
    ensures exists x :: x in s
  {
    if forall x :: x !in s { assert false; }
  }

  /** The same, for a set of strings. */
  lemma NonEmptyHasString(s: set<string>)
    requires s != {}
    ensures exists x :: x in s
  {
    if forall x :: x !in s { assert false; }
  }

  /**
   * Enumerates the keys of an integer-keyed dictionary. .NET leaves the order
   * of a dictionary's enumeration to its internals, so any order that lists
   * each key once may come out, and contracts stated through it hold for all of them.
   */
  method EnumerationOrder(keys: set<int>) returns (order: seq<int>)
    ensures EnumeratesOnce(order, keys)
  {
    order := [];
    var remaining := keys;
    while remaining != {}
      invariant remaining <= keys
      invariant forall x :: x in keys <==> x in remaining || x in order
      invariant forall x :: x in remaining ==> x !in order
      invariant |order| + |remaining| == |keys|
      invariant forall i, j :: 0 <= i < j < |order| ==> order[i] != order[j]
      decreases remaining
    {
      NonEmptyHasElement(remaining);
      var k :| k in remaining;
      order := order + [k];
      remaining := remaining - {k};
    }
  }

  /** The values stored under `keys`, in the order of `keys`. */
  function Values<V>(m: map<int, V>, keys: seq<int>): (r: seq<V>)
    requires forall i :: 0 <= i < |keys| ==> keys[i] in m
    ensures |r| == |keys|
  {
    if keys == [] then [] else Values(m, keys[..|keys| - 1]) + [m[keys[|keys| - 1]]]
  }

  lemma {:induction false} ValuesAt<V>(m: map<int, V>, keys: seq<int>, i: nat)
    requires forall i :: 0 <= i < |keys| ==> keys[i] in m
    requires i < |keys|
    ensures Values(m, keys)[i] == m[keys[i]]
    decreases |keys|
  {
    if i < |keys| - 1 {
      ValuesAt(m, keys[..|keys| - 1], i);
    }
  }

  /** Every value of the dictionary is among the values enumerated, whatever the order. */
  lemma ValuesComplete<V>(m: map<int, V>, order: seq<int>, k: int)
    requires EnumeratesOnce(order, m.Keys) && k in m
    ensures |Values(m, order)| == |m|
    ensures m[k] in Values(m, order)
  {
    var i :| 0 <= i < |order| && order[i] == k;
    ValuesAt(m, order, i);
  }
}
