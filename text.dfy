/** The parts of Go's `strings`, `unicode` and `strconv` packages that the core calls. */
module Text {
  import opened Wrappers

  /** `unicode.IsSpace`: the Latin-1 spaces and the other White_Space characters. */
  predicate IsSpace(c: char)
  {
    c == '\t' || c == '\n' || c == '\U{000B}' || c == '\U{000C}' || c == '\r' || c == ' '
    || c == '\U{0085}' || c == '\U{00A0}' || c == '\U{1680}'
    || ('\U{2000}' <= c <= '\U{200A}')
    || c == '\U{2028}' || c == '\U{2029}' || c == '\U{202F}' || c == '\U{205F}' || c == '\U{3000}'
  }

  /** Leading white space removed: what is left is a suffix of `s` that does not start with a space. */
  function TrimLeftSpace(s: string): (r: string)
    ensures |r| <= |s|
    ensures r != [] ==> !IsSpace(r[0])
  {
    if s != [] && IsSpace(s[0]) then TrimLeftSpace(s[1..]) else s
  }

  /** Only white space is cut from the left, and the rest is kept. */
  lemma {:induction false} TrimLeftSpaceCutsSpaces(s: string)
    ensures TrimLeftSpace(s) == s[|s| - |TrimLeftSpace(s)|..]
    ensures forall i :: 0 <= i < |s| - |TrimLeftSpace(s)| ==> IsSpace(s[i])
  {
    if s != [] && IsSpace(s[0]) {
      TrimLeftSpaceCutsSpaces(s[1..]);
      assert forall i :: 1 <= i < |s| ==> s[i] == s[1..][i - 1];
      assert s[1..][|s| - 1 - |TrimLeftSpace(s)|..] == s[|s| - |TrimLeftSpace(s)|..];
    }
  }

  /** Trailing white space removed: what is left is a prefix of `s` that does not end with a space. */
  function TrimRightSpace(s: string): (r: string)
    ensures |r| <= |s|
    ensures r != [] ==> !IsSpace(r[|r| - 1])
  {
    if s != [] && IsSpace(s[|s| - 1]) then TrimRightSpace(s[..|s| - 1]) else s
  }

  /** Only white space is cut from the right, and the rest is kept. */
  lemma {:induction false} TrimRightSpaceCutsSpaces(s: string)
    ensures TrimRightSpace(s) == s[..|TrimRightSpace(s)|]
    ensures forall i :: |TrimRightSpace(s)| <= i < |s| ==> IsSpace(s[i])
  {
    if s != [] && IsSpace(s[|s| - 1]) {
      TrimRightSpaceCutsSpaces(s[..|s| - 1]);
    }
  }

  /** `strings.TrimSpace`: no white space at either end. */
  function TrimSpace(s: string): (r: string)
    ensures |r| <= |s|
    ensures r != [] ==> !IsSpace(r[0]) && !IsSpace(r[|r| - 1])
  {
    TrimRightSpaceCutsSpaces(TrimLeftSpace(s));
    TrimRightSpace(TrimLeftSpace(s))
  }

  /** What `strings.TrimSpace` leaves is a slice `s[i..j]` of the input with only white
      space outside it. */
  lemma TrimSpaceSlice(s: string)
    ensures exists i, j :: 0 <= i <= j <= |s| && TrimSpace(s) == s[i..j]
                        && (forall k :: 0 <= k < i ==> IsSpace(s[k]))
                        && (forall k :: j <= k < |s| ==> IsSpace(s[k]))
  {
    var l := TrimLeftSpace(s);
    var r := TrimRightSpace(l);
    var i := |s| - |l|;
    TrimLeftSpaceCutsSpaces(s);
    TrimRightSpaceCutsSpaces(l);
    assert forall k :: i + |r| <= k < |s| ==> s[k] == l[k - i];
    assert r == s[i..i + |r|];
  }

  /** `strings.TrimSpace` keeps only characters of its input. */
  lemma TrimSpaceKeeps(s: string)
    ensures forall c :: c in TrimSpace(s) ==> c in s
  {
    TrimSpaceSlice(s);
    var i, j :| 0 <= i <= j <= |s| && TrimSpace(s) == s[i..j];
    assert forall k :: 0 <= k < j - i ==> s[i..j][k] == s[i + k];
  }

  lemma TrimLeftSpaceNoop(s: string)
    requires s == [] || !IsSpace(s[0])
    ensures TrimLeftSpace(s) == s
  {
  }

  lemma TrimRightSpaceNoop(s: string)
    requires s == [] || !IsSpace(s[|s| - 1])
    ensures TrimRightSpace(s) == s
  {
  }

  /** A string without spaces at its ends is its own `TrimSpace`. */
  lemma TrimSpaceNoop(s: string)
    requires s == [] || (!IsSpace(s[0]) && !IsSpace(s[|s| - 1]))
    ensures TrimSpace(s) == s
  {
    TrimLeftSpaceNoop(s);
    TrimRightSpaceNoop(s);
  }

  /** `strings.TrimSpace` is idempotent. */
  lemma TrimSpaceIdempotent(s: string)
    ensures TrimSpace(TrimSpace(s)) == TrimSpace(s)
  {
    TrimSpaceNoop(TrimSpace(s));
  }

  /** `strings.Trim(s, string(c))`: every leading and trailing `c` removed. */
  function TrimChar(s: string, c: char): (r: string)
    ensures |r| <= |s|
    ensures r != [] ==> r[0] != c && r[|r| - 1] != c
    ensures (s == [] || (s[0] != c && s[|s| - 1] != c)) ==> r == s
    decreases |s|
  {
    if s == [] then s
    else if s[0] == c then TrimChar(s[1..], c)
    else if s[|s| - 1] == c then TrimChar(s[..|s| - 1], c)
    else s
  }

  /** `strings.ReplaceAll(s, string(c), "")`: `s` with every `c` left out, the rest in order. */
  function RemoveChar(s: string, c: char): (r: string)
    ensures c !in r
    ensures |r| <= |s|
    ensures c !in s ==> r == s
  {
    if s == [] then [] else (if s[0] == c then [] else [s[0]]) + RemoveChar(s[1..], c)
  }

  lemma {:induction false} RemoveCharConcat(s: string, t: string, c: char)
    ensures RemoveChar(s + t, c) == RemoveChar(s, c) + RemoveChar(t, c)
  {
    if s == [] {
      assert s + t == t;
    } else {
      assert (s + t)[0] == s[0] && (s + t)[1..] == s[1..] + t;
      RemoveCharConcat(s[1..], t, c);
      var h := if s[0] == c then [] else [s[0]];
      assert RemoveChar(s + t, c) == h + RemoveChar(s[1..] + t, c);
    }
  }

  /** Removing a character keeps the characters that are not removed. */
  lemma {:induction false} RemoveCharKeeps(s: string, c: char, d: char)
    requires d != c
    ensures (d in RemoveChar(s, c)) <==> (d in s)
  {
    if s != [] {
      RemoveCharKeeps(s[1..], c, d);
      assert s == [s[0]] + s[1..];
    }
  }

  /** `strings.ReplaceAll(s, string(a), string(b))` for single characters. */
  function ReplaceChar(s: string, a: char, b: char): (r: string)
    ensures |r| == |s|
    ensures forall i :: 0 <= i < |s| ==> r[i] == if s[i] == a then b else s[i]
  {
    if s == [] then [] else [if s[0] == a then b else s[0]] + ReplaceChar(s[1..], a, b)
  }

  predicate HasPrefix(s: string, p: string) { |p| <= |s| && s[..|p|] == p }

  predicate HasSuffix(s: string, p: string) { |p| <= |s| && s[|s| - |p|..] == p }

  /** `strings.TrimSuffix`. */
  function TrimSuffix(s: string, p: string): (r: string)
    ensures HasSuffix(s, p) ==> r + p == s
    ensures !HasSuffix(s, p) ==> r == s
  {
    if HasSuffix(s, p) then s[..|s| - |p|] else s
  }

  /** Lower case of an ASCII letter; every other character is kept. */
  function LowerChar(c: char): char
  {
    if 'A' <= c <= 'Z' then (c as int + 32) as char else c
  }

  /** `strings.ToLower`, for the ASCII letters. */
  function ToLower(s: string): (r: string)
    ensures |r| == |s|
    ensures forall i :: 0 <= i < |s| ==> r[i] == LowerChar(s[i])
  {
    if s == [] then [] else [LowerChar(s[0])] + ToLower(s[1..])
  }

  predicate IsDigit(c: char) { '0' <= c <= '9' }

  /** The value of a non-empty run of decimal digits. */
  function DigitsValue(s: string): (n: nat)
    requires forall i :: 0 <= i < |s| ==> IsDigit(s[i])
  {
    if s == [] then 0
    else
      assert IsDigit(s[|s| - 1]);
      DigitsValue(s[..|s| - 1]) * 10 + (s[|s| - 1] as int - '0' as int)
  }

  const MinInt64: int := -0x8000_0000_0000_0000
  const MaxInt64: int := 0x7FFF_FFFF_FFFF_FFFF

  /** `strconv.Atoi` on a 64-bit platform: an optional sign, one or more decimal digits,
      and a value that fits in an `int`; anything else is an error (`None`). */
  function Atoi(s: string): (r: Option<int>)
    ensures r.Some? ==> MinInt64 <= r.value <= MaxInt64
    ensures r.Some? ==> s != [] && (IsDigit(s[0]) || s[0] == '+' || s[0] == '-')
    ensures r.Some? ==> var digits := if s[0] == '+' || s[0] == '-' then s[1..] else s;
                        && digits != [] && (forall i :: 0 <= i < |digits| ==> IsDigit(digits[i]))
                        && r.value == (if s[0] == '-' then -(DigitsValue(digits) as int) else DigitsValue(digits) as int)
  {
    var neg := s != [] && s[0] == '-';
    var digits := if s != [] && (s[0] == '+' || s[0] == '-') then s[1..] else s;
    if digits == [] || exists i :: 0 <= i < |digits| && !IsDigit(digits[i]) then None
    else
      var v: int := if neg then -(DigitsValue(digits) as int) else DigitsValue(digits);
      if MinInt64 <= v <= MaxInt64 then Some(v) else None
  }

  /** The digit character of a value below ten. */
  function DigitChar(d: nat): (c: char)
    requires d < 10
    ensures IsDigit(c) && c as int - '0' as int == d
  {
    ('0' as int + d) as char
  }

  /** The decimal rendering of `n`, as `strconv.Itoa` writes it: no sign, no leading zero. */
  function Decimal(n: nat): (s: string)
    ensures s != [] && forall i :: 0 <= i < |s| ==> IsDigit(s[i])
  {
    if n < 10 then [DigitChar(n)] else Decimal(n / 10) + [DigitChar(n % 10)]
  }

  /** The digits of `Decimal(n)` are worth `n`. */
  lemma {:induction false} DigitsValueOfDecimal(n: nat)
    ensures DigitsValue(Decimal(n)) == n
  {
    var s := Decimal(n);
    if n < 10 {
      assert s[..|s| - 1] == [];
    } else {
      assert s[..|s| - 1] == Decimal(n / 10);
      DigitsValueOfDecimal(n / 10);
    }
  }

  /** `strconv.Atoi` reads back every `int` it is given in decimal, with or without a sign. */
  lemma AtoiOfDecimal(n: int)
    requires MinInt64 <= n <= MaxInt64
    ensures 0 <= n ==> Atoi(Decimal(n)) == Some(n)
    ensures 0 <= n ==> Atoi("+" + Decimal(n)) == Some(n)
    ensures n < 0 ==> Atoi("-" + Decimal(-n)) == Some(n)
  {
    if 0 <= n {
      DigitsValueOfDecimal(n);
      assert ("+" + Decimal(n))[1..] == Decimal(n);
    } else {
      DigitsValueOfDecimal(-n);
      assert ("-" + Decimal(-n))[1..] == Decimal(-n);
    }
  }
}
