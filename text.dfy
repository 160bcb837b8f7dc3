/**
 * The string operations of the pipeline, as Python defines them on `str`:
 * `sub in s`, `s.split(c)` for one character, `c.join(parts)`, `s.strip()`,
 * and the `int()`/`str()` pair that `isint` and the argument builders rely on.
 */
module Text {
  import opened Common

  predicate StartsWith(s: string, p: string) {
    |p| <= |s| && s[..|p|] == p
  }

  /** Python's `sub in s`. */
  predicate Contains(s: string, sub: string)
    decreases |s|
  {
    StartsWith(s, sub) || (|s| > 0 && Contains(s[1..], sub))
  }

  /** `sub` is the text of `s` starting at position `k`. */
  predicate OccursAt(s: string, sub: string, k: nat) {
    k + |sub| <= |s| && s[k..k + |sub|] == sub
  }

  /** An occurrence of `sub` at some position of `s` makes `sub in s` true. */
  lemma {:induction false} ContainsAt(s: string, sub: string, k: nat)
    requires OccursAt(s, sub, k)
    ensures Contains(s, sub)
    decreases k
  {
    if k > 0 {
      assert s[1..][k - 1..k - 1 + |sub|] == s[k..k + |sub|];
      ContainsAt(s[1..], sub, k - 1);
    }
  }

  /** `sub in s` holds only when `sub` occurs at some position of `s`. */
  lemma {:induction false} ContainsOccurs(s: string, sub: string)
    requires Contains(s, sub)
    ensures exists k: nat :: OccursAt(s, sub, k)
    decreases |s|
  {
    if StartsWith(s, sub) {
      assert OccursAt(s, sub, 0);
    } else {
      ContainsOccurs(s[1..], sub);
      var k: nat :| OccursAt(s[1..], sub, k);
      assert s[1..][k..k + |sub|] == s[k + 1..k + 1 + |sub|];
      assert OccursAt(s, sub, k + 1);
    }
  }

  /** Python's `s.split(c)` for a one-character separator: never empty, and
      no piece holds the separator. */
  function Split(s: string, c: char): (r: seq<string>)
    ensures |r| >= 1
    ensures forall i :: 0 <= i < |r| ==> c !in r[i]
    decreases |s|
  {
    if |s| == 0 then [[]]
    else
      var rest := Split(s[1..], c);
      if s[0] == c then [[]] + rest else [[s[0]] + rest[0]] + rest[1..]
  }

  /** Python's `c.join(parts)`. */
  function Join(parts: seq<string>, c: char): string {
    if |parts| == 0 then []
    else if |parts| == 1 then parts[0]
    else parts[0] + [c] + Join(parts[1..], c)
  }

  /** Joining the pieces of a split gives back the original text. */
  lemma {:induction false} JoinSplit(s: string, c: char)
    ensures Join(Split(s, c), c) == s
    decreases |s|
  {
    if |s| > 0 {
      JoinSplit(s[1..], c);
      var rest := Split(s[1..], c);
      if s[0] != c && |rest| > 1 {
        assert ([[s[0]] + rest[0]] + rest[1..])[1..] == rest[1..];
      }
    }
  }

  /** Split distributes over a separator. */
  lemma {:induction false} SplitAround(x: string, c: char, y: string)
    ensures Split(x + [c] + y, c) == Split(x, c) + Split(y, c)
    decreases |x|
  {
    if |x| == 0 {
      assert x + [c] + y == [c] + y;
      assert ([c] + y)[1..] == y;
    } else {
      assert (x + [c] + y)[1..] == x[1..] + [c] + y;
      SplitAround(x[1..], c, y);
    }
  }

  /** Text without the separator splits into itself alone. */
  lemma {:induction false} SplitWhole(s: string, c: char)
    requires c !in s
    ensures Split(s, c) == [s]
    decreases |s|
  {
    if |s| > 0 {
      SplitWhole(s[1..], c);
      assert [s[0]] + s[1..] == s;
    }
  }

  /** Splitting a join of separator-free pieces gives back the pieces. */
  lemma {:induction false} SplitJoin(parts: seq<string>, c: char)
    requires |parts| >= 1
    requires forall i :: 0 <= i < |parts| ==> c !in parts[i]
    ensures Split(Join(parts, c), c) == parts
  {
    if |parts| == 1 {
      SplitWhole(parts[0], c);
    } else {
      SplitJoin(parts[1..], c);
      SplitAround(parts[0], c, Join(parts[1..], c));
      SplitWhole(parts[0], c);
      assert [parts[0]] + parts[1..] == parts;
    }
  }

  /** A character that does not occur in the text occurs in none of its
      pieces. */
  lemma {:induction false} SplitPiecesWithout(s: string, c: char, d: char)
    requires d !in s
    ensures forall i :: 0 <= i < |Split(s, c)| ==> d !in Split(s, c)[i]
    decreases |s|
  {
    if |s| > 0 {
      assert d !in s[1..] by {
        forall k | 0 <= k < |s[1..]| ensures s[1..][k] != d {
          assert s[1..][k] == s[k + 1];
        }
      }
      SplitPiecesWithout(s[1..], c, d);
    }
  }

  /** There is more than one piece exactly when the separator occurs. */
  lemma {:induction false} SplitHasSeparator(s: string, c: char)
    ensures |Split(s, c)| > 1 <==> c in s
    decreases |s|
  {
    if |s| > 0 {
      SplitHasSeparator(s[1..], c);
      assert s == [s[0]] + s[1..];
    }
  }

  /** Python's `s.split(c)[0]`: the text before the first `c`, or all of `s`
      when there is none. */
  function BeforeFirst(s: string, c: char): (r: string)
    ensures c !in r
    ensures StartsWith(s, r)
    ensures |r| == |s| || s[|r|] == c
  {
    BeforeFirstIsPrefix(s, c);
    Split(s, c)[0]
  }

  lemma {:induction false} BeforeFirstIsPrefix(s: string, c: char)
    ensures StartsWith(s, Split(s, c)[0])
    ensures |Split(s, c)[0]| == |s| || s[|Split(s, c)[0]|] == c
    decreases |s|
  {
    if |s| > 0 && s[0] != c {
      BeforeFirstIsPrefix(s[1..], c);
    }
  }

  /** The text before the first separator is the part written before it. */
  lemma BeforeFirstOf(p: string, c: char, w: string)
    requires c !in p
    ensures BeforeFirst(p + [c] + w, c) == p
  {
    SplitAround(p, c, w);
    SplitWhole(p, c);
  }

  /** Python's `s.split(c)[-1]`. */
  function AfterLast(s: string, c: char): string {
    var parts := Split(s, c);
    parts[|parts| - 1]
  }

  /** The last piece is the text after the last separator. */
  lemma AfterLastOf(p: string, c: char, w: string)
    requires c !in w
    ensures AfterLast(p + [c] + w, c) == w
  {
    SplitAround(p, c, w);
    SplitWhole(w, c);
  }

  /** Python's `s[:-1]`: all but the last character (empty stays empty). */
  function DropLast(s: string): string {
    if |s| == 0 then s else s[..|s| - 1]
  }

  /** The ASCII characters `str.isspace()` accepts: space, tab, line feed,
      vertical tab, form feed and carriage return (U+0009 to U+000D), and
      the separators U+001C to U+001F. */
  predicate IsSpace(ch: char) {
    ch == ' ' || 9 <= ch as int <= 13 || 28 <= ch as int <= 31
  }

  function TrimStart(s: string): (r: string)
    ensures |r| <= |s| && r == s[|s| - |r|..]
    ensures forall i :: 0 <= i < |s| - |r| ==> IsSpace(s[i])
    ensures r == [] || !IsSpace(r[0])
    decreases |s|
  {
    if |s| > 0 && IsSpace(s[0]) then TrimStart(s[1..]) else s
  }

  function TrimEnd(s: string): (r: string)
    ensures |r| <= |s| && r == s[..|r|]
    ensures forall i :: |r| <= i < |s| ==> IsSpace(s[i])
    ensures r == [] || !IsSpace(r[|r| - 1])
    decreases |s|
  {
    if |s| > 0 && IsSpace(s[|s| - 1]) then TrimEnd(s[..|s| - 1]) else s
  }

  /** `s` is `r` with `k` whitespace characters before it and only
      whitespace after it. */
  predicate SpaceAround(s: string, k: nat, r: string) {
    && k + |r| <= |s|
    && s[k..k + |r|] == r
    && (forall i :: 0 <= i < k ==> IsSpace(s[i]))
    && (forall i :: k + |r| <= i < |s| ==> IsSpace(s[i]))
  }

  /** Trimming the front, then the back, leaves whitespace around. */
  lemma TrimBoth(s: string, t: string, r: string)
    requires |t| <= |s| && t == s[|s| - |t|..] && forall i :: 0 <= i < |s| - |t| ==> IsSpace(s[i])
    requires |r| <= |t| && r == t[..|r|] && forall i :: |r| <= i < |t| ==> IsSpace(t[i])
    ensures SpaceAround(s, |s| - |t|, r)
  {
    var k := |s| - |t|;
    assert s[k..][..|r|] == s[k..k + |r|];
    forall i | k + |r| <= i < |s|
      ensures IsSpace(s[i])
    {
      assert s[i] == t[i - k];
    }
  }

  /** Python's `s.strip()`: `s` is the result with whitespace around it. */
  function Strip(s: string): (r: string)
    ensures SpaceAround(s, |s| - |TrimStart(s)|, r)
    ensures r == [] || (!IsSpace(r[0]) && !IsSpace(r[|r| - 1]))
  {
    TrimBoth(s, TrimStart(s), TrimEnd(TrimStart(s)));
    TrimEnd(TrimStart(s))
  }

  /** Stripping adds no character. */
  lemma StripWithout(s: string, c: char)
    requires c !in s
    ensures c !in Strip(s)
  {
    var r := Strip(s);
    var k := |s| - |TrimStart(s)|;
    assert forall i :: 0 <= i < |r| ==> r[i] == s[k + i];
  }

  predicate IsDigit(ch: char) {
    '0' <= ch <= '9'
  }

  predicate AllDigits(s: string) {
    |s| > 0 && forall i :: 0 <= i < |s| ==> IsDigit(s[i])
  }

  /** Decimal digits with an optional sign. */
  predicate IsDecimal(s: string) {
    AllDigits(s) || (|s| > 1 && (s[0] == '-' || s[0] == '+') && AllDigits(s[1..]))
  }

  /** The whitespace `int()` skips around the digits: space and U+0009 to
      U+000D, but not the separators U+001C to U+001F that `strip()`
      removes. */
  predicate IsIntSpace(ch: char) {
    ch == ' ' || 9 <= ch as int <= 13
  }

  /** What `isint` accepts: decimal text with only the whitespace `int()`
      skips around it. The decimal part holds no whitespace, so this is
      the same as trimming with `int()`'s whitespace alone. */
  predicate IsInt(s: string) {
    && IsDecimal(Strip(s))
    && forall i :: 0 <= i < |s| && IsSpace(s[i]) ==> IsIntSpace(s[i])
  }

  function DigitsValue(s: string): nat
    requires forall i :: 0 <= i < |s| ==> IsDigit(s[i])
    decreases |s|
  {
    if |s| == 0 then 0
    else
      assert IsDigit(s[|s| - 1]);
      DigitsValue(s[..|s| - 1]) * 10 + (s[|s| - 1] as int - '0' as int)
  }

  function DecimalValue(s: string): int
    requires IsDecimal(s)
  {
    if s[0] == '-' then -(DigitsValue(s[1..]) as int)
    else if s[0] == '+' then DigitsValue(s[1..])
    else DigitsValue(s)
  }

  /** Python's `int(s)` on text that `isint` accepts. */
  function IntValue(s: string): int
    requires IsInt(s)
  {
    DecimalValue(Strip(s))
  }

  /** Text without whitespace at either end is its own `strip()`. */
  lemma {:induction false} StripUnchanged(s: string)
    requires s == [] || (!IsSpace(s[0]) && !IsSpace(s[|s| - 1]))
    ensures Strip(s) == s
  {
    assert TrimStart(s) == s;
    assert TrimEnd(s) == s;
  }

  /** A space before text that has no whitespace at its ends is stripped. */
  lemma {:induction false} StripLeadingSpace(s: string)
    requires |s| > 0 && !IsSpace(s[0]) && !IsSpace(s[|s| - 1])
    ensures Strip(" " + s) == s
  {
    assert (" " + s)[1..] == s;
    assert TrimStart(s) == s;
    assert TrimStart(" " + s) == s;
    assert TrimEnd(s) == s;
  }

  /** `int(" 12")` is 12: whitespace around a number is ignored. */
  lemma PaddedInt()
    ensures IsInt(" 12") && IntValue(" 12") == 12
  {
    StripLeadingSpace("12");
    assert " 12" == " " + "12";
    assert "12"[..1] == "1" && "1"[..0] == "";
    assert DigitsValue("1") == 1;
    assert DigitsValue("12") == 12;
  }

  /** `int("\x1f12")` raises: U+001F is whitespace to `strip()` but not to
      `int()`. */
  lemma SeparatorRefused()
    ensures !IsInt([31 as char] + "12")
  {
    var s := [31 as char] + "12";
    assert IsSpace(s[0]) && !IsIntSpace(s[0]);
  }

  /** Python's `int(s)`, with the exception it raises on other text. */
  function ToInt(s: string, field: string): (r: Result<int>)
    ensures r.Ok? <==> IsInt(s)
  {
    if IsInt(s) then Ok(IntValue(s)) else Err(Malformed(field))
  }

  function Digit(d: nat): char
    requires d < 10
  {
    ('0' as int + d) as char
  }

  function NatToString(n: nat): string
    decreases n
  {
    if n < 10 then [Digit(n)] else NatToString(n / 10) + [Digit(n % 10)]
  }

  /** Python's `str(n)` for an integer. */
  function IntToString(n: int): string {
    if n < 0 then "-" + NatToString(-n) else NatToString(n)
  }

  lemma {:induction false} NatToStringDigits(n: nat)
    ensures AllDigits(NatToString(n))
    ensures DigitsValue(NatToString(n)) == n
    decreases n
  {
    if n >= 10 {
      NatToStringDigits(n / 10);
      var s := NatToString(n);
      assert s[..|s| - 1] == NatToString(n / 10);
    }
  }

  /** `int(str(n)) == n`, and `isint(str(n))` holds. */
  lemma IntToStringRoundTrip(n: int)
    ensures IsInt(IntToString(n))
    ensures IntValue(IntToString(n)) == n
  {
    IntToStringChars(n);
    var s := IntToString(n);
    assert |s| > 0;
    StripUnchanged(s);
    if n < 0 {
      NatToStringDigits(-n);
      assert s[1..] == NatToString(-n);
    } else {
      NatToStringDigits(n);
    }
  }

  /** `str(n)` is made of decimal digits after an optional minus sign. */
  lemma IntToStringChars(n: int)
    ensures forall k :: 0 <= k < |IntToString(n)| ==> IntToString(n)[k] == '-' || IsDigit(IntToString(n)[k])
  {
    var s := IntToString(n);
    if n < 0 {
      NatToStringDigits(-n);
      assert forall k :: 1 <= k < |s| ==> s[k] == NatToString(-n)[k - 1];
    } else {
      NatToStringDigits(n);
    }
  }
}
