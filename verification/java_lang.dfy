/** The parts of java.lang the plugin depends on, with the JDK's semantics
    written out: String searching, trimming, splitting and joining,
    case mapping, Integer.parseInt, Integer.decode and Integer.toString.
    Case mapping and digit recognition are restricted to ASCII. */
module JavaLang {
  import opened Wrappers

  const IntMin: int := -0x8000_0000
  const IntMax: int := 0x7fff_ffff

  /** The range of a Java `int`. */
  predicate IsInt32(v: int) {
    IntMin <= v <= IntMax
  }

  // ---------------------------------------------------------------------
  // Prefixes, suffixes and search

  predicate StartsWith(s: string, prefix: string) {
    |prefix| <= |s| && s[..|prefix|] == prefix
  }

  predicate EndsWith(s: string, suffix: string) {
    |suffix| <= |s| && s[|s| - |suffix|..] == suffix
  }

  /** String.contains: some position of `s` starts with `sub`. */
  predicate Contains(s: string, sub: string)
    decreases |s|
  {
    StartsWith(s, sub) || (|s| > 0 && Contains(s[1..], sub))
  }

  lemma {:induction false} ContainsAt(s: string, sub: string, i: nat)
    requires i <= |s| && StartsWith(s[i..], sub)
    ensures Contains(s, sub)
    decreases i
  {
    if i > 0 {
      assert s[1..][i - 1..] == s[i..];
      ContainsAt(s[1..], sub, i - 1);
    }
  }

  lemma {:induction false} ContainsWitness(s: string, sub: string) returns (i: nat)
    requires Contains(s, sub)
    ensures i + |sub| <= |s| && s[i..i + |sub|] == sub
    decreases |s|
  {
    if StartsWith(s, sub) {
      i := 0;
    } else {
      var j := ContainsWitness(s[1..], sub);
      i := j + 1;
      assert s[i..i + |sub|] == s[1..][j..j + |sub|];
    }
  }

  /** Containing a one-character string is holding that character. */
  lemma {:induction false} ContainsChar(s: string, c: char)
    ensures Contains(s, [c]) <==> c in s
    decreases |s|
  {
    if |s| > 0 {
      ContainsChar(s[1..], c);
      assert s == [s[0]] + s[1..];
    }
  }

  /** Containment is transitive: a string containing `mid` contains every
      substring of `mid`. */
  lemma ContainsTransitive(s: string, mid: string, sub: string)
    requires Contains(s, mid) && Contains(mid, sub)
    ensures Contains(s, sub)
  {
    var i := ContainsWitness(s, mid);
    var j := ContainsWitness(mid, sub);
    assert s[i + j..][..|sub|] == sub by {
      forall k | 0 <= k < |sub|
        ensures s[i + j..][..|sub|][k] == sub[k]
      {
        assert s[i..i + |mid|][j + k] == mid[j + k];
        assert mid[j..j + |sub|][k] == sub[k];
      }
    }
    ContainsAt(s, sub, i + j);
  }

  /** String.indexOf(char): the first index of `c`, or -1. */
  function IndexOf(s: string, c: char): (r: int)
    ensures -1 <= r < |s|
    ensures r >= 0 ==> s[r] == c && c !in s[..r]
    ensures r == -1 <==> c !in s
    decreases |s|
  {
    if |s| == 0 then -1
    else if s[0] == c then 0
    else
      var k := IndexOf(s[1..], c);
      if k < 0 then -1 else k + 1
  }

  /** String.lastIndexOf(char): the last index of `c`, or -1. */
  function LastIndexOf(s: string, c: char): (r: int)
    ensures -1 <= r < |s|
    ensures r >= 0 ==> s[r] == c && c !in s[r + 1..]
    ensures r == -1 <==> c !in s
    decreases |s|
  {
    if |s| == 0 then -1
    else if s[|s| - 1] == c then |s| - 1
    else LastIndexOf(s[..|s| - 1], c)
  }

  /** A character absent from a suffix occurs at no index inside it. */
  lemma NotInSuffix(s: string, c: char, i: nat)
    requires i <= |s| && c !in s[i..]
    ensures forall k :: i <= k < |s| ==> s[k] != c
  {
    forall k | i <= k < |s|
      ensures s[k] != c
    {
      assert s[i..][k - i] == s[k];
    }
  }

  // ---------------------------------------------------------------------
  // Replacement

  /** String.replace(char, char). */
  function ReplaceChar(s: string, a: char, b: char): (r: string)
    ensures |r| == |s|
    ensures forall i :: 0 <= i < |s| ==> r[i] == (if s[i] == a then b else s[i])
    ensures a != b ==> a !in r
  {
    seq(|s|, i requires 0 <= i < |s| => if s[i] == a then b else s[i])
  }

  /** String.replace(CharSequence, CharSequence): every occurrence of
      `target`, scanning left to right without overlap, becomes `repl`. */
  function Replace(s: string, target: string, repl: string): string
    requires |target| > 0
    decreases |s|
  {
    if StartsWith(s, target) then repl + Replace(s[|target|..], target, repl)
    else if |s| == 0 then ""
    else [s[0]] + Replace(s[1..], target, repl)
  }

  /** A string without the target comes back unchanged. */
  lemma {:induction false} ReplaceAbsent(s: string, target: string, repl: string)
    requires |target| > 0 && !Contains(s, target)
    ensures Replace(s, target, repl) == s
    decreases |s|
  {
    if |s| > 0 {
      ReplaceAbsent(s[1..], target, repl);
    }
  }

  /** An occurrence of `target` starts at position `k` of `s`. */
  predicate MatchAt(s: string, target: string, k: nat)
    requires k <= |s|
  {
    StartsWith(s[k..], target)
  }

  /** No occurrence of `target` starts before position `n` of `s`. */
  predicate NoMatchBefore(s: string, target: string, n: nat)
    requires n <= |s|
  {
    forall k :: 0 <= k < n ==> !MatchAt(s, target, k)
  }

  /** The leftmost occurrence of the target is replaced, the text before it
      is kept, and the scan resumes after it. */
  lemma {:induction false} ReplaceLeftmost(s: string, target: string, repl: string, n: nat)
    requires |target| > 0 && n + |target| <= |s|
    requires NoMatchBefore(s, target, n) && MatchAt(s, target, n)
    ensures Replace(s, target, repl) == s[..n] + repl + Replace(s[n + |target|..], target, repl)
    decreases n
  {
    if n == 0 {
      ReplaceAtStart(s, target, repl);
    } else {
      var t := s[1..];
      ReplaceSkip(s, target, repl, n);
      ReplaceLeftmostStep(s, target, n);
      ReplaceLeftmost(t, target, repl, n - 1);
      DropDrop(s, 1, n - 1 + |target|);
      ConsTake(s, n);
    }
  }

  lemma DropDrop(s: string, i: nat, j: nat)
    requires i + j <= |s|
    ensures s[i..][j..] == s[i + j..]
  {
  }

  lemma ConsTake(s: string, n: nat)
    requires 0 < n <= |s|
    ensures forall x: string, y: string :: [s[0]] + (s[1..][..n - 1] + x + y) == s[..n] + x + y
  {
    assert [s[0]] + s[1..][..n - 1] == s[..n];
  }

  lemma {:induction false} ReplaceAtStart(s: string, target: string, repl: string)
    requires |target| > 0 && MatchAt(s, target, 0)
    ensures Replace(s, target, repl) == s[..0] + repl + Replace(s[0 + |target|..], target, repl)
  {
    assert s[0..] == s;
    assert s[..0] == [];
  }

  lemma {:induction false} ReplaceSkip(s: string, target: string, repl: string, n: nat)
    requires |target| > 0 && 0 < n <= |s| && NoMatchBefore(s, target, n)
    ensures Replace(s, target, repl) == [s[0]] + Replace(s[1..], target, repl)
  {
    assert !MatchAt(s, target, 0);
    assert s[0..] == s;
  }

  lemma ReplaceLeftmostStep(s: string, target: string, n: nat)
    requires 0 < n && n + |target| <= |s|
    requires NoMatchBefore(s, target, n) && MatchAt(s, target, n)
    ensures NoMatchBefore(s[1..], target, n - 1) && MatchAt(s[1..], target, n - 1)
  {
    var t := s[1..];
    forall k | 0 <= k < n - 1
      ensures !MatchAt(t, target, k)
    {
      assert t[k..] == s[k + 1..];
      assert !MatchAt(s, target, k + 1);
    }
    assert t[n - 1..] == s[n..];
  }

  // ---------------------------------------------------------------------
  // Trimming

  /** String.trim strips characters up to and including U+0020. */
  predicate IsTrimmed(c: char) {
    c <= ' '
  }

  function TrimLeading(s: string): (r: string)
    ensures |r| <= |s| && r == s[|s| - |r|..]
    ensures forall k :: 0 <= k < |s| - |r| ==> IsTrimmed(s[k])
    ensures r == [] || !IsTrimmed(r[0])
    decreases |s|
  {
    if |s| > 0 && IsTrimmed(s[0]) then TrimLeading(s[1..]) else s
  }

  function TrimTrailing(s: string): (r: string)
    ensures |r| <= |s| && r == s[..|r|]
    ensures forall k :: |r| <= k < |s| ==> IsTrimmed(s[k])
    ensures r == [] || !IsTrimmed(r[|r| - 1])
    decreases |s|
  {
    if |s| > 0 && IsTrimmed(s[|s| - 1]) then TrimTrailing(s[..|s| - 1]) else s
  }

  /** `r` is the part of `s` from index `i` on, with only characters up to
      U+0020 before it and after it. */
  predicate InfixBetweenBlanks(s: string, r: string, i: int) {
    0 <= i && i + |r| <= |s| && r == s[i..i + |r|] &&
    (forall k :: 0 <= k < i ==> IsTrimmed(s[k])) &&
    (forall k :: i + |r| <= k < |s| ==> IsTrimmed(s[k]))
  }

  /** String.trim: the result is `s` with a run of characters up to U+0020
      removed from each end, and neither of its ends is such a character. */
  function Trim(s: string): (r: string)
    ensures |r| <= |s|
    ensures exists i :: InfixBetweenBlanks(s, r, i)
    ensures r == [] || (!IsTrimmed(r[0]) && !IsTrimmed(r[|r| - 1]))
  {
    var m := TrimLeading(s);
    var r := TrimTrailing(m);
    assert r != [] ==> r[0] == m[0];
    var i := |s| - |m|;
    assert r == s[i..i + |r|];
    assert forall k :: i + |r| <= k < |s| ==> s[k] == m[k - i];
    assert InfixBetweenBlanks(s, r, i);
    r
  }

  /** Trim leaves a string alone when neither end needs trimming, so
      trimming twice is trimming once. */
  lemma TrimFixed(s: string)
    requires s == [] || (!IsTrimmed(s[0]) && !IsTrimmed(s[|s| - 1]))
    ensures Trim(s) == s
  {
  }

  lemma TrimIdempotent(s: string)
    ensures Trim(Trim(s)) == Trim(s)
  {
    TrimFixed(Trim(s));
  }

  // ---------------------------------------------------------------------
  // Case mapping (ASCII letters only)

  function ToUpperChar(ch: char): char {
    if 'a' <= ch <= 'z' then (ch as int - 32) as char else ch
  }

  /** String.toUpperCase, for ASCII letters. */
  function ToUpper(s: string): (r: string)
    ensures |r| == |s|
    ensures forall i :: 0 <= i < |s| ==> r[i] == ToUpperChar(s[i])
  {
    seq(|s|, i requires 0 <= i < |s| => ToUpperChar(s[i]))
  }

  /** String.equalsIgnoreCase, for ASCII letters. */
  predicate EqualsIgnoreCase(a: string, b: string) {
    ToUpper(a) == ToUpper(b)
  }

  // ---------------------------------------------------------------------
  // Splitting and joining

  /** Every piece between occurrences of `c`, empty pieces included. */
  function SplitAll(s: string, c: char): (r: seq<string>)
    ensures |r| >= 1
    decreases |s|
  {
    if |s| == 0 then [""]
    else
      var rest := SplitAll(s[1..], c);
      if s[0] == c then [""] + rest
      else [[s[0]] + rest[0]] + rest[1..]
  }

  function DropTrailingEmpty(parts: seq<string>): (r: seq<string>)
    ensures |r| <= |parts| && r == parts[..|r|]
    ensures r == [] || r[|r| - 1] != ""
    ensures forall k :: |r| <= k < |parts| ==> parts[k] == ""
    decreases |parts|
  {
    if |parts| > 0 && parts[|parts| - 1] == "" then DropTrailingEmpty(parts[..|parts| - 1])
    else parts
  }

  /** String.split with a regular expression matching the single character
      `c`: the input itself when `c` does not occur, otherwise the pieces
      with trailing empty strings removed. */
  function Split(s: string, c: char): seq<string> {
    if c !in s then [s] else DropTrailingEmpty(SplitAll(s, c))
  }

  /** String.join with a one-character delimiter. */
  function Join(parts: seq<string>, c: char): string
    decreases |parts|
  {
    if |parts| == 0 then ""
    else if |parts| == 1 then parts[0]
    else parts[0] + [c] + Join(parts[1..], c)
  }

  lemma {:induction false} SplitAllNoSeparator(x: string, c: char)
    requires c !in x
    ensures SplitAll(x, c) == [x]
    decreases |x|
  {
    if |x| > 0 {
      SplitAllNoSeparator(x[1..], c);
      assert [x[0]] + x[1..] == x;
    }
  }

  lemma {:induction false} SplitAllFirstPiece(x: string, y: string, c: char)
    requires c !in x
    ensures SplitAll(x + [c] + y, c) == [x] + SplitAll(y, c)
    decreases |x|
  {
    var s := x + [c] + y;
    if |x| == 0 {
      assert s[1..] == y;
    } else {
      assert s[1..] == x[1..] + [c] + y;
      SplitAllFirstPiece(x[1..], y, c);
      assert [x[0]] + x[1..] == x;
    }
  }

  /** Splitting a joined list gives the list back when no piece holds the
      separator. */
  lemma {:induction false} SplitAllJoin(parts: seq<string>, c: char)
    requires |parts| >= 1
    requires forall k :: 0 <= k < |parts| ==> c !in parts[k]
    ensures SplitAll(Join(parts, c), c) == parts
    decreases |parts|
  {
    if |parts| == 1 {
      SplitAllNoSeparator(parts[0], c);
    } else {
      SplitAllFirstPiece(parts[0], Join(parts[1..], c), c);
      SplitAllJoin(parts[1..], c);
      assert [parts[0]] + parts[1..] == parts;
    }
  }

  /** Joining the pieces gives the string back. */
  lemma {:induction false} JoinSplitAll(s: string, c: char)
    ensures Join(SplitAll(s, c), c) == s
    decreases |s|
  {
    if |s| > 0 {
      var rest := SplitAll(s[1..], c);
      JoinSplitAll(s[1..], c);
      if s[0] == c {
        assert ([""] + rest)[1..] == rest;
        assert [s[0]] + s[1..] == s;
      } else {
        var r := [[s[0]] + rest[0]] + rest[1..];
        if |rest| == 1 {
          assert [s[0]] + s[1..] == s;
        } else {
          assert r[1..] == rest[1..];
          assert Join(rest, c) == rest[0] + [c] + Join(rest[1..], c);
          assert [s[0]] + s[1..] == s;
        }
      }
    }
  }

  lemma JoinHasSeparator(parts: seq<string>, c: char)
    requires |parts| >= 2
    ensures c in Join(parts, c)
  {
    var j := Join(parts, c);
    assert j[|parts[0]|] == c;
  }

  /** String.split undoes String.join when no piece holds the separator
      and the last piece is not empty (or there is only one piece). */
  lemma SplitJoin(parts: seq<string>, c: char)
    requires |parts| >= 1
    requires forall k :: 0 <= k < |parts| ==> c !in parts[k]
    requires |parts| == 1 || parts[|parts| - 1] != ""
    ensures Split(Join(parts, c), c) == parts
  {
    if |parts| >= 2 {
      JoinHasSeparator(parts, c);
      SplitAllJoin(parts, c);
    }
  }

  // ---------------------------------------------------------------------
  // Integers

  function DigitChar(d: nat): char
    requires d < 10
  {
    (48 + d) as char
  }

  /** The decimal digits of `n`, without leading zeros. */
  function NatToString(n: nat): (r: string)
    ensures |r| >= 1
    ensures forall k :: 0 <= k < |r| ==> '0' <= r[k] <= '9'
    ensures r[0] == '0' ==> n == 0 && |r| == 1
    decreases n
  {
    if n < 10 then [DigitChar(n)] else NatToString(n / 10) + [DigitChar(n % 10)]
  }

  /** Integer.toString / String.valueOf(int). */
  function IntToString(v: int): string {
    if v < 0 then "-" + NatToString(-v) else NatToString(v)
  }

  /** Character.digit restricted to ASCII: the value of `c` as a digit of
      radix up to 36, or -1. */
  function DigitValue(c: char): int {
    if '0' <= c <= '9' then c as int - 48
    else if 'a' <= c <= 'z' then c as int - 87
    else if 'A' <= c <= 'Z' then c as int - 55
    else -1
  }

  /** The number that the non-empty digit string `s` writes in `radix`,
      or None if some character is not a digit of that radix. */
  function Magnitude(s: string, radix: nat): Option<nat>
    decreases |s|
  {
    if |s| == 0 then None
    else
      var d := DigitValue(s[|s| - 1]);
      if d < 0 || d >= radix then None
      else if |s| == 1 then Some(d)
      else match Magnitude(s[..|s| - 1], radix)
        case None => None
        case Some(m) => Some(m * radix + d)
  }

  /** The sign character Integer.parseInt and Integer.decode accept in front. */
  predicate HasSign(s: string) {
    |s| > 0 && (s[0] == '-' || s[0] == '+')
  }

  function Unsigned(s: string): string {
    if HasSign(s) then s[1..] else s
  }

  /** A magnitude with its sign applied, kept only inside the int range. */
  function Signed(negative: bool, m: Option<nat>): Option<int> {
    match m
    case None => None
    case Some(k) =>
      var v: int := if negative then -(k as int) else k;
      if IsInt32(v) then Some(v) else None
  }

  /** Integer.parseInt(s): an optional sign, then decimal digits, within
      the range of an int. */
  function ParseInt(s: string): Option<int> {
    if |s| == 0 then None
    else Signed(s[0] == '-', Magnitude(Unsigned(s), 10))
  }

  predicate IsHexPrefixed(rest: string) {
    StartsWith(rest, "0x") || StartsWith(rest, "0X") || StartsWith(rest, "#")
  }

  /** The radix Integer.decode reads after the sign. */
  function DecodeRadix(rest: string): nat {
    if IsHexPrefixed(rest) then 16
    else if StartsWith(rest, "0") && |rest| > 1 then 8
    else 10
  }

  /** The digits Integer.decode reads after the sign and radix prefix. */
  function DecodeDigits(rest: string): string {
    if StartsWith(rest, "0x") || StartsWith(rest, "0X") then rest[2..]
    else if StartsWith(rest, "#") || DecodeRadix(rest) == 8 then rest[1..]
    else rest
  }

  /** Integer.decode(s): an optional sign, then `0x`, `0X` or `#` for
      hexadecimal, a leading `0` followed by more digits for octal, or
      decimal; no second sign; within the range of an int. */
  function Decode(s: string): Option<int> {
    if |s| == 0 then None
    else
      var rest := Unsigned(s);
      var digits := DecodeDigits(rest);
      if HasSign(digits) then None
      else Signed(s[0] == '-', Magnitude(digits, DecodeRadix(rest)))
  }

  /** Reading back the decimal digits of `n` gives `n`. */
  lemma {:induction false} MagnitudeOfDecimal(n: nat)
    ensures Magnitude(NatToString(n), 10) == Some(n)
    decreases n
  {
    var s := NatToString(n);
    if n >= 10 {
      MagnitudeOfDecimal(n / 10);
      assert s[..|s| - 1] == NatToString(n / 10);
    }
  }

  /** The decimal text of a signed number is its magnitude's digits behind
      an optional minus sign. */
  lemma UnsignedIntToString(v: int)
    ensures Unsigned(IntToString(v)) == NatToString(if v < 0 then -v else v)
    ensures |IntToString(v)| > 0 && (IntToString(v)[0] == '-' <==> v < 0)
  {
    var s := IntToString(v);
    if v < 0 {
      assert s[1..] == NatToString(-v);
    }
  }

  /** Decimal digits without leading zeros carry no radix prefix or sign. */
  lemma DecimalIsUnprefixed(n: nat)
    ensures !HasSign(NatToString(n))
    ensures DecodeRadix(NatToString(n)) == 10
    ensures DecodeDigits(NatToString(n)) == NatToString(n)
  {
    var d := NatToString(n);
    assert d[0] != '#';
    if d[0] == '0' {
      assert |d| == 1;
      assert !StartsWith(d, "0x") && !StartsWith(d, "0X");
    } else {
      assert d[..1] != "0";
      assert !StartsWith(d, "0x") && !StartsWith(d, "0X");
    }
  }

  /** Integer.decode reads back what Integer.toString writes. */
  lemma DecodeIntToString(v: int)
    requires IsInt32(v)
    ensures Decode(IntToString(v)) == Some(v)
  {
    var n: nat := if v < 0 then -v else v;
    var digits := NatToString(n);
    MagnitudeOfDecimal(n);
    UnsignedIntToString(v);
    DecimalIsUnprefixed(n);
  }

  /** Integer.parseInt reads back what Integer.toString writes. */
  lemma ParseIntIntToString(v: int)
    requires IsInt32(v)
    ensures ParseInt(IntToString(v)) == Some(v)
  {
    var n: nat := if v < 0 then -v else v;
    MagnitudeOfDecimal(n);
    UnsignedIntToString(v);
  }
}
