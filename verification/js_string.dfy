/** The JavaScript string built-ins the core calls: `slice`, `charAt`,
    `split` on a one-character separator, and global `parseInt` with no radix.
    Indices are integers (after `ToIntegerOrInfinity`); a NaN result of
    `parseInt` is `None`. */
module JsString {
  import opened Wrappers

  /** ToIntegerOrInfinity on a finite number: truncation toward zero. */
  function TruncateToInteger(x: real): (n: int)
    ensures x >= 0.0 ==> 0 <= n && n as real <= x < n as real + 1.0
    ensures x < 0.0 ==> n <= 0 && n as real - 1.0 < x <= n as real
  {
    if x >= 0.0 then x.Floor else -((-x).Floor)
  }

  /** Where `slice` puts a relative index: negative counts from the end,
      and the result is clamped to [0, len]. */
  function RelativeIndex(i: int, len: nat): (k: nat)
    ensures k <= len
  {
    if i < 0 then (if len + i < 0 then 0 else len + i)
    else if i > len then len
    else i
  }

  /** `s.slice(start, end)`. */
  function Slice(s: string, start: int, end: int): (r: string)
    ensures |r| <= |s|
  {
    var from, to := RelativeIndex(start, |s|), RelativeIndex(end, |s|);
    if from < to then s[from..to] else []
  }

  /** `s.slice(0, end)` keeps the first `end` characters, clamped, with a
      negative `end` counting back from the end of the string. */
  lemma SlicePrefix(s: string, end: int)
    ensures 0 <= end <= |s| ==> Slice(s, 0, end) == s[..end]
    ensures end > |s| ==> Slice(s, 0, end) == s
    ensures end < 0 ==> Slice(s, 0, end) == s[..if |s| + end < 0 then 0 else |s| + end]
  {
  }

  /** `s.slice(1)`: everything after the first character. */
  lemma SliceTail(s: string)
    ensures Slice(s, 1, |s|) == if s == [] then [] else s[1..]
  {
  }

  /** `s.charAt(i)`: the one-character string at `i`, or "" out of range. */
  function CharAt(s: string, i: int): (r: string)
    ensures |r| <= 1
    ensures 0 <= i < |s| <==> |r| == 1
    ensures |r| == 1 ==> r[0] == s[i]
  {
    if 0 <= i < |s| then [s[i]] else []
  }

  // ---------------------------------------------------------------------------
  // split

  /** `s.split(sep)` for a one-character separator: the maximal runs between
      separators, including empty ones. The number of pieces is one more than
      the number of separators. */
  function Split(s: string, sep: char): (parts: seq<string>)
    ensures |parts| >= 1
    decreases |s|
  {
    if s == [] then [""]
    else
      var rest := Split(s[1..], sep);
      if s[0] == sep then [""] + rest
      else [[s[0]] + rest[0]] + rest[1..]
  }

  /** There is one piece more than there are separators. */
  lemma {:induction false} SplitCount(s: string, sep: char)
    ensures |Split(s, sep)| == multiset(s)[sep] + 1
    decreases |s|
  {
    if s != [] {
      SplitCount(s[1..], sep);
      assert s == [s[0]] + s[1..];
      assert multiset(s) == multiset([s[0]]) + multiset(s[1..]);
    }
  }

  /** No piece contains the separator. */
  lemma {:induction false} SplitPiecesFree(s: string, sep: char)
    ensures forall i :: 0 <= i < |Split(s, sep)| ==> sep !in Split(s, sep)[i]
    decreases |s|
  {
    if s != [] {
      SplitPiecesFree(s[1..], sep);
      var rest := Split(s[1..], sep);
      var parts := Split(s, sep);
      if s[0] == sep {
        assert parts == [""] + rest;
      } else {
        assert parts == [[s[0]] + rest[0]] + rest[1..];
        assert sep !in rest[0];
        forall i | 0 <= i < |parts|
          ensures sep !in parts[i]
        {
          if i > 0 {
            assert parts[i] == rest[i];
          }
        }
      }
    }
  }

  /** `parts.join(sep)`: the inverse of `Split`. */
  function Join(parts: seq<string>, sep: char): (s: string)
    requires |parts| >= 1
    ensures parts[0] <= s
    ensures |s| >= |parts| - 1
    decreases |parts|
  {
    if |parts| == 1 then parts[0] else parts[0] + [sep] + Join(parts[1..], sep)
  }

  /** A piece in front of at least one more is followed by the separator. */
  lemma JoinCons(p: string, rest: seq<string>, sep: char)
    requires |rest| >= 1
    ensures Join([p] + rest, sep) == p + [sep] + Join(rest, sep)
  {
    assert ([p] + rest)[1..] == rest;
  }

  /** One character in front of a string that `Join` restores from its
      pieces: the longer string is restored too. */
  lemma JoinSplitStep(s: string, sep: char)
    requires s != [] && Join(Split(s[1..], sep), sep) == s[1..]
    ensures Join(Split(s, sep), sep) == s
  {
    var rest := Split(s[1..], sep);
    assert s == [s[0]] + s[1..];
    if s[0] == sep {
      JoinCons("", rest, sep);
    } else if |rest| == 1 {
      assert Split(s, sep) == [[s[0]] + rest[0]];
    } else {
      JoinSplitLetter(s[0], rest, sep);
    }
  }

  lemma JoinSplitLetter(c: char, rest: seq<string>, sep: char)
    requires |rest| >= 2
    ensures Join([[c] + rest[0]] + rest[1..], sep) == [c] + Join(rest, sep)
  {
    assert rest == [rest[0]] + rest[1..];
    JoinCons(rest[0], rest[1..], sep);
    JoinCons([c] + rest[0], rest[1..], sep);
  }

  /** Joining the pieces with the separator gives back the string. */
  lemma {:induction false} JoinSplit(s: string, sep: char)
    ensures Join(Split(s, sep), sep) == s
    decreases |s|
  {
    if s != [] {
      JoinSplit(s[1..], sep);
      JoinSplitStep(s, sep);
    }
  }

  /** A piece without the separator, followed by the separator, starts a new piece. */
  lemma {:induction false} SplitPieceThenSep(a: string, sep: char, rest: string)
    requires sep !in a
    ensures Split(a + [sep] + rest, sep) == [a] + Split(rest, sep)
    decreases |a|
  {
    var s := a + [sep] + rest;
    if a == [] {
      assert s == [sep] + rest;
      assert s[1..] == rest;
    } else {
      assert s[0] == a[0] && s[1..] == a[1..] + [sep] + rest;
      SplitPieceThenSep(a[1..], sep, rest);
      assert [a[0]] + a[1..] == a;
    }
  }

  /** A string without the separator is a single piece. */
  lemma {:induction false} SplitNoSep(a: string, sep: char)
    requires sep !in a
    ensures Split(a, sep) == [a]
    decreases |a|
  {
    if a != [] {
      SplitNoSep(a[1..], sep);
      assert [a[0]] + a[1..] == a;
    }
  }

  /** Splitting a join of separator-free pieces gives the pieces back. */
  lemma {:induction false} SplitJoin(parts: seq<string>, sep: char)
    requires |parts| >= 1
    requires forall i :: 0 <= i < |parts| ==> sep !in parts[i]
    ensures Split(Join(parts, sep), sep) == parts
    decreases |parts|
  {
    if |parts| == 1 {
      SplitNoSep(parts[0], sep);
    } else {
      SplitJoin(parts[1..], sep);
      SplitPieceThenSep(parts[0], sep, Join(parts[1..], sep));
      assert [parts[0]] + parts[1..] == parts;
    }
  }

  // ---------------------------------------------------------------------------
  // parseInt

  /** WhiteSpace and LineTerminator code points, which `parseInt` skips at
      the start of its argument. */
  predicate IsStrWhiteSpace(c: char) {
    || c in {'\t', '\n', '\U{B}', '\U{C}', '\r', ' ', '\U{A0}', '\U{1680}'}
    || c in {'\U{2028}', '\U{2029}', '\U{202F}', '\U{205F}', '\U{3000}', '\U{FEFF}'}
    || ('\U{2000}' <= c <= '\U{200A}')
  }

  /** The argument with its leading white space removed. */
  function TrimStart(s: string): (r: string)
    ensures |r| <= |s| && r == s[|s| - |r|..]
    ensures r == [] || !IsStrWhiteSpace(r[0])
  {
    if s != [] && IsStrWhiteSpace(s[0]) then TrimStart(s[1..]) else s
  }

  /** Everything `TrimStart` removes is white space. */
  lemma {:induction false} TrimStartRemovesBlanks(s: string)
    ensures forall i :: 0 <= i < |s| - |TrimStart(s)| ==> IsStrWhiteSpace(s[i])
  {
    if s != [] && IsStrWhiteSpace(s[0]) {
      TrimStartRemovesBlanks(s[1..]);
    }
  }

  /** The value of a digit in radix up to 36; 36 for a character that is not
      a digit in any radix. */
  function DigitValue(c: char): (d: nat)
    ensures d <= 36
    ensures d < 10 <==> '0' <= c <= '9'
  {
    if '0' <= c <= '9' then c as int - '0' as int
    else if 'a' <= c <= 'z' then c as int - 'a' as int + 10
    else if 'A' <= c <= 'Z' then c as int - 'A' as int + 10
    else 36
  }

  predicate IsRadixDigit(c: char, radix: nat) { DigitValue(c) < radix }

  /** The longest prefix made of digits of the radix. */
  function TakeDigits(s: string, radix: nat): (ds: string)
    ensures ds <= s
    ensures forall i :: 0 <= i < |ds| ==> IsRadixDigit(ds[i], radix)
    ensures |ds| < |s| ==> !IsRadixDigit(s[|ds|], radix)
  {
    if s != [] && IsRadixDigit(s[0], radix) then [s[0]] + TakeDigits(s[1..], radix) else []
  }

  /** The number written by a digit string, most significant digit first. */
  function DigitsValue(ds: string, radix: nat): nat
  {
    if ds == [] then 0 else DigitsValue(ds[..|ds| - 1], radix) * radix + DigitValue(ds[|ds| - 1])
  }

  /** What `parseInt` reads after the sign: a `0x`/`0X` prefix selects radix
      16 (radix 10 otherwise), then the longest run of digits of that radix;
      no digits gives NaN (`None`). */
  function ParseMagnitude(u: string): (r: Option<nat>)
    ensures r.Some? ==> u != [] && '0' <= u[0] <= '9'
  {
    var hex := |u| >= 2 && u[0] == '0' && (u[1] == 'x' || u[1] == 'X');
    var radix := if hex then 16 else 10;
    var ds := TakeDigits(if hex then u[2..] else u, radix);
    if ds == [] then None else Some(DigitsValue(ds, radix))
  }

  /** `parseInt(s)` with no radix: skip leading white space, read an optional
      sign, then the magnitude. */
  function ParseInt(s: string): (r: Option<int>)
    ensures (forall i :: 0 <= i < |s| ==> IsStrWhiteSpace(s[i])) ==> r.None?
    ensures r.Some? && r.value < 0 ==> '-' in s
  {
    ParseSigned(TrimStart(s))
  }

  /** The optional sign and the magnitude after it. */
  function ParseSigned(t: string): (r: Option<int>)
    ensures r.Some? ==> t != [] && (t[0] == '-' || t[0] == '+' || '0' <= t[0] <= '9')
    ensures r.Some? && r.value < 0 ==> t[0] == '-'
  {
    if t != [] && t[0] == '-' then
      match ParseMagnitude(t[1..])
      case None => None
      case Some(m) => Some(-(m as int))
    else if t != [] && t[0] == '+' then
      match ParseMagnitude(t[1..])
      case None => None
      case Some(m) => Some(m as int)
    else
      match ParseMagnitude(t)
      case None => None
      case Some(m) => Some(m as int)
  }

  /** The decimal numeral of a natural number, as `String(n)` writes it. */
  function DecimalString(n: nat): (s: string)
    ensures |s| >= 1
    ensures forall i :: 0 <= i < |s| ==> '0' <= s[i] <= '9'
    ensures n >= 10 ==> s[0] != '0'
  {
    if n < 10 then ['0' + n as char] else DecimalString(n / 10) + ['0' + (n % 10) as char]
  }

  lemma {:induction false} DecimalStringValue(n: nat)
    ensures DigitsValue(DecimalString(n), 10) == n
  {
    if n >= 10 {
      var s := DecimalString(n);
      assert s[..|s| - 1] == DecimalString(n / 10);
      DecimalStringValue(n / 10);
    }
  }

  /** A run of digits followed by a non-digit is read up to the non-digit. */
  lemma {:induction false} TakeDigitsOfDigits(ds: string, tail: string, radix: nat)
    requires forall i :: 0 <= i < |ds| ==> IsRadixDigit(ds[i], radix)
    requires tail == [] || !IsRadixDigit(tail[0], radix)
    ensures TakeDigits(ds + tail, radix) == ds
  {
    if ds != [] {
      assert (ds + tail)[1..] == ds[1..] + tail;
      TakeDigitsOfDigits(ds[1..], tail, radix);
    }
  }

  /** A decimal numeral followed by such a tail does not begin with `0x`. */
  lemma DecimalNotHexPrefix(n: nat, tail: string)
    requires tail == [] || (!('0' <= tail[0] <= '9') && tail[0] != 'x' && tail[0] != 'X')
    ensures var s := DecimalString(n) + tail;
      !(|s| >= 2 && s[0] == '0' && (s[1] == 'x' || s[1] == 'X'))
  {
    var d := DecimalString(n);
    if n < 10 {
      assert d == ['0' + n as char];
    }
  }

  /** A decimal digit is neither white space nor a sign. */
  lemma DigitIsNotBlankOrSign(c: char)
    requires '0' <= c <= '9'
    ensures !IsStrWhiteSpace(c) && c != '-' && c != '+'
  {
  }

  /** The magnitude read from a decimal numeral and a tail that stops it. */
  lemma ParseMagnitudeDecimal(n: nat, tail: string)
    requires tail == [] || (!('0' <= tail[0] <= '9') && tail[0] != 'x' && tail[0] != 'X')
    ensures ParseMagnitude(DecimalString(n) + tail) == Some(n)
  {
    DecimalNotHexPrefix(n, tail);
    TakeDigitsOfDigits(DecimalString(n), tail, 10);
    DecimalStringValue(n);
  }

  /** `parseInt` reads back a decimal numeral and ignores whatever follows
      once a non-digit is reached (as long as the numeral "0" is not followed
      by `x`, which would start a hex prefix). */
  lemma ParseIntDecimal(n: nat, tail: string)
    requires tail == [] || (!('0' <= tail[0] <= '9') && tail[0] != 'x' && tail[0] != 'X')
    ensures ParseInt(DecimalString(n) + tail) == Some(n)
  {
    var d := DecimalString(n);
    var s := d + tail;
    assert s[0] == d[0];
    DigitIsNotBlankOrSign(s[0]);
    TrimStartNoBlank(s);
    ParseMagnitudeDecimal(n, tail);
    assert ParseSigned(s) == Some(n);
  }

  /** Text that does not start with white space is left as it is. */
  lemma TrimStartNoBlank(s: string)
    requires s == [] || !IsStrWhiteSpace(s[0])
    ensures TrimStart(s) == s
  {
  }

  /** A minus sign negates the magnitude that follows it. */
  lemma ParseSignedMinus(u: string, m: nat)
    requires ParseMagnitude(u) == Some(m)
    ensures ParseSigned(['-'] + u) == Some(-(m as int))
  {
    assert (['-'] + u)[1..] == u;
  }

  /** With a leading minus sign it reads back the negative number. */
  lemma ParseIntNegativeDecimal(n: nat, tail: string)
    requires tail == [] || (!('0' <= tail[0] <= '9') && tail[0] != 'x' && tail[0] != 'X')
    ensures ParseInt("-" + DecimalString(n) + tail) == Some(-(n as int))
  {
    var s := DecimalString(n) + tail;
    assert "-" + DecimalString(n) + tail == ['-'] + s;
    TrimStartNoBlank(['-'] + s);
    ParseMagnitudeDecimal(n, tail);
    ParseSignedMinus(s, n);
  }

  /** Text that starts with neither white space, a sign nor a decimal digit
      (including the empty string) is NaN. */
  lemma ParseIntNoDigits(s: string)
    requires s == [] || (!IsStrWhiteSpace(s[0]) && s[0] != '-' && s[0] != '+' && !('0' <= s[0] <= '9'))
    ensures ParseInt(s) == None
  {
    TrimStartNoBlank(s);
    assert TakeDigits(s, 10) == [];
  }
}
