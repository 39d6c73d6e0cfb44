/** Go `strings`/`strconv` behaviour the core relies on, restated over Dafny strings.
    Text is a sequence of characters; Go's `[]byte`/`string` conversions are the identity here. */
module Text {

  predicate HasPrefix(s: string, p: string) {
    |p| <= |s| && s[..|p|] == p
  }

  predicate HasSuffix(s: string, x: string) {
    |x| <= |s| && s[|s| - |x|..] == x
  }

  /** strings.TrimSuffix: drops `x` once from the end when it is there. */
  function TrimSuffix(s: string, x: string): (r: string)
    ensures HasSuffix(s, x) ==> r + x == s
    ensures !HasSuffix(s, x) ==> r == s
  {
    if HasSuffix(s, x) then s[..|s| - |x|] else s
  }

  lemma TrimSuffixOfAppend(s: string, x: string)
    ensures HasSuffix(s + x, x) && TrimSuffix(s + x, x) == s
  {
    assert (s + x)[|s + x| - |x|..] == x;
    assert (s + x)[..|s|] == s;
  }

  // ---------------------------------------------------------------------------
  // ASCII case mapping and white space (strings.ToUpper, ToLower, TrimSpace)

  function UpperChar(c: char): char {
    if 'a' <= c <= 'z' then (c as int - 32) as char else c
  }

  function LowerChar(c: char): char {
    if 'A' <= c <= 'Z' then (c as int + 32) as char else c
  }

  function ToUpper(s: string): string {
    seq(|s|, i requires 0 <= i < |s| => UpperChar(s[i]))
  }

  function ToLower(s: string): string {
    seq(|s|, i requires 0 <= i < |s| => LowerChar(s[i]))
  }

  predicate IsSpace(c: char) {
    c == ' ' || c == '\t' || c == '\n' || c == '\r' || c == '\U{000B}' || c == '\U{000C}'
  }

  function TrimLeftSpace(s: string): string
    decreases |s|
  {
    if s != [] && IsSpace(s[0]) then TrimLeftSpace(s[1..]) else s
  }

  function TrimRightSpace(s: string): string
    decreases |s|
  {
    if s != [] && IsSpace(s[|s| - 1]) then TrimRightSpace(s[..|s| - 1]) else s
  }

  function TrimSpace(s: string): string {
    TrimRightSpace(TrimLeftSpace(s))
  }

  // ---------------------------------------------------------------------------
  // Decimal numerals (strconv.Itoa, fmt's %0Nd)

  function DigitChar(d: int): char
    requires 0 <= d < 10
  {
    ('0' as int + d) as char
  }

  predicate IsDigit(c: char) {
    '0' <= c <= '9'
  }

  predicate AllDigits(s: string) {
    forall i :: 0 <= i < |s| ==> IsDigit(s[i])
  }

  /** Value of a string of decimal digits, most significant first. */
  function DigitsValue(s: string): nat
    decreases |s|
  {
    if s == [] then 0
    else
      var d := s[|s| - 1] as int - '0' as int;
      DigitsValue(s[..|s| - 1]) * 10 + (if 0 <= d < 10 then d else 0)
  }

  function NatDecimal(n: nat): string
    decreases n
  {
    if n < 10 then [DigitChar(n)] else NatDecimal(n / 10) + [DigitChar(n % 10)]
  }

  /** strconv.Itoa */
  function Itoa(n: int): string {
    if n < 0 then "-" + NatDecimal(-n) else NatDecimal(n)
  }

  /** The inverse of Itoa: an optional minus sign followed by digits. */
  function ParseDecimal(s: string): int {
    if s != [] && s[0] == '-' then -(DigitsValue(s[1..]) as int) else DigitsValue(s)
  }

  lemma {:induction false} NatDecimalDigits(n: nat)
    ensures NatDecimal(n) != [] && AllDigits(NatDecimal(n))
    ensures DigitsValue(NatDecimal(n)) == n
    decreases n
  {
    if n >= 10 {
      NatDecimalDigits(n / 10);
      var s := NatDecimal(n);
      assert s[..|s| - 1] == NatDecimal(n / 10);
    }
  }

  lemma ItoaRoundTrip(n: int)
    ensures ParseDecimal(Itoa(n)) == n
  {
    if n < 0 {
      NatDecimalDigits(-n);
      assert Itoa(n)[1..] == NatDecimal(-n);
    } else {
      NatDecimalDigits(n);
      assert IsDigit(NatDecimal(n)[0]);
    }
  }

  function Pow10(w: nat): nat {
    if w == 0 then 1 else 10 * Pow10(w - 1)
  }

  /** fmt's `%0wd` for a value below 10^w: exactly `w` digits, zero padded. */
  function Fixed(n: nat, w: nat): string
    decreases w
  {
    if w == 0 then "" else Fixed(n / 10, w - 1) + [DigitChar(n % 10)]
  }

  lemma {:induction false} FixedDigits(n: nat, w: nat)
    requires n < Pow10(w)
    ensures |Fixed(n, w)| == w && AllDigits(Fixed(n, w))
    ensures DigitsValue(Fixed(n, w)) == n
    decreases w
  {
    if w > 0 {
      FixedDigits(n / 10, w - 1);
      var s := Fixed(n, w);
      assert s[..|s| - 1] == Fixed(n / 10, w - 1);
    }
  }

  // ---------------------------------------------------------------------------
  // Byte-wise ordering of names (the order os.ReadDir returns entries in)

  predicate Less(a: string, b: string)
    decreases |a|
  {
    if a == [] then b != []
    else if b == [] then false
    else if a[0] < b[0] then true
    else if a[0] > b[0] then false
    else Less(a[1..], b[1..])
  }

  lemma {:induction false} LessTotal(a: string, b: string)
    ensures a == b || Less(a, b) || Less(b, a)
    decreases |a|
  {
    if a != [] && b != [] && a[0] == b[0] {
      LessTotal(a[1..], b[1..]);
      if a[1..] == b[1..] {
        assert a == [a[0]] + a[1..];
        assert b == [b[0]] + b[1..];
      }
    }
  }

  lemma {:induction false} LessAsymmetric(a: string, b: string)
    ensures !(Less(a, b) && Less(b, a))
    decreases |a|
  {
    if a != [] && b != [] && a[0] == b[0] {
      LessAsymmetric(a[1..], b[1..]);
    }
  }

  lemma {:induction false} LessTransitive(a: string, b: string, c: string)
    requires Less(a, b) && Less(b, c)
    ensures Less(a, c)
    decreases |a|
  {
    if a != [] && b != [] && c != [] && a[0] == b[0] && b[0] == c[0] {
      LessTransitive(a[1..], b[1..], c[1..]);
    }
  }

  predicate IsLeast(m: string, s: set<string>) {
    m in s && forall x :: x in s && x != m ==> Less(m, x)
  }

  lemma {:induction false} LeastExists(s: set<string>)
    requires s != {}
    ensures exists m :: IsLeast(m, s)
    decreases |s|
  {
    var y :| y in s;
    if s == {y} {
      assert IsLeast(y, s);
    } else {
      LeastExists(s - {y});
      var m :| IsLeast(m, s - {y});
      LessTotal(m, y);
      if Less(m, y) {
        assert IsLeast(m, s);
      } else {
        forall x | x in s && x != y
          ensures Less(y, x)
        {
          if x != m { LessTransitive(y, m, x); }
        }
        assert IsLeast(y, s);
      }
    }
  }

  lemma LeastUnique(s: set<string>)
    ensures forall a, b :: IsLeast(a, s) && IsLeast(b, s) ==> a == b
  {
    forall a, b | IsLeast(a, s) && IsLeast(b, s)
      ensures a == b
    {
      if a != b { LessAsymmetric(a, b); }
    }
  }

  function Least(s: set<string>): (m: string)
    requires s != {}
    ensures IsLeast(m, s)
  {
    LeastExists(s);
    LeastUnique(s);
    var m :| IsLeast(m, s);
    m
  }

  predicate StrictlySorted(r: seq<string>) {
    forall i, j :: 0 <= i < j < |r| ==> Less(r[i], r[j])
  }

  /** The names of a set in ascending byte-wise order, each once. */
  function SortedNames(s: set<string>): (r: seq<string>)
    ensures |r| == |s|
    ensures forall x :: x in r <==> x in s
    ensures StrictlySorted(r)
    decreases |s|
  {
    if s == {} then []
    else
      var m := Least(s);
      var rest := SortedNames(s - {m});
      ConsSorted(m, s, rest);
      [m] + rest
  }

  /** The least name of a set, put before the sorted rest, keeps the list sorted. */
  lemma ConsSorted(m: string, s: set<string>, rest: seq<string>)
    requires IsLeast(m, s)
    requires forall x :: x in rest <==> x in s - {m}
    requires StrictlySorted(rest)
    ensures StrictlySorted([m] + rest)
    ensures forall x :: x in [m] + rest <==> x in s
  {
    var r := [m] + rest;
    forall i, j | 0 <= i < j < |r|
      ensures Less(r[i], r[j])
    {
      assert r[j] == rest[j - 1];
      if i == 0 {
        assert rest[j - 1] in rest;
        assert rest[j - 1] in s && rest[j - 1] != m;
      } else {
        assert r[i] == rest[i - 1];
      }
    }
    forall x
      ensures x in r <==> x in s
    {
      assert x in r <==> x == m || x in rest;
    }
  }

  // ---------------------------------------------------------------------------
  // strings.Split / strings.Join on a one-character separator

  function Split(s: string, sep: char): (r: seq<string>)
    ensures |r| >= 1
    ensures forall i :: 0 <= i < |r| ==> sep !in r[i]
    decreases |s|
  {
    if s == [] then [""]
    else if s[0] == sep then [""] + Split(s[1..], sep)
    else
      var rest := Split(s[1..], sep);
      [[s[0]] + rest[0]] + rest[1..]
  }

  function Join(parts: seq<string>, sep: char): string
    decreases |parts|
  {
    if |parts| == 0 then ""
    else if |parts| == 1 then parts[0]
    else parts[0] + [sep] + Join(parts[1..], sep)
  }

  /** Splitting on a separator and joining with it again gives back the text. */
  lemma {:induction false} JoinSplit(s: string, sep: char)
    ensures Join(Split(s, sep), sep) == s
    decreases |s|
  {
    if s != [] {
      JoinSplit(s[1..], sep);
      var rest := Split(s[1..], sep);
      if s[0] == sep {
        assert s == [sep] + s[1..];
      } else {
        if |rest| == 1 {
          assert s == [s[0]] + rest[0];
        } else {
          assert Join(rest, sep) == rest[0] + [sep] + Join(rest[1..], sep);
          assert s == [s[0]] + s[1..];
        }
      }
    }
  }

  // ---------------------------------------------------------------------------
  // strings.ReplaceAll with a non-empty pattern: leftmost, non-overlapping

  predicate OccursAt(s: string, p: string, i: int) {
    0 <= i && i + |p| <= |s| && s[i..i + |p|] == p
  }

  predicate Contains(s: string, p: string) {
    exists i :: 0 <= i <= |s| && OccursAt(s, p, i)
  }

  function ReplaceAll(s: string, pat: string, rep: string): string
    requires pat != []
    decreases |s|
  {
    if |s| < |pat| then s
    else if s[..|pat|] == pat then rep + ReplaceAll(s[|pat|..], pat, rep)
    else [s[0]] + ReplaceAll(s[1..], pat, rep)
  }

  /** Number of occurrences ReplaceAll replaces. */
  function CountReplaced(s: string, pat: string): nat
    requires pat != []
    decreases |s|
  {
    if |s| < |pat| then 0
    else if s[..|pat|] == pat then 1 + CountReplaced(s[|pat|..], pat)
    else CountReplaced(s[1..], pat)
  }

  /** Text that does not contain the pattern comes back unchanged. */
  lemma {:induction false} ReplaceAllAbsent(s: string, pat: string, rep: string)
    requires pat != [] && !Contains(s, pat)
    ensures ReplaceAll(s, pat, rep) == s
    decreases |s|
  {
    if |s| >= |pat| {
      assert !OccursAt(s, pat, 0);
      assert s[0..|pat|] == s[..|pat|];
      forall i | 0 <= i <= |s| - 1
        ensures !OccursAt(s[1..], pat, i)
      {
        assert !OccursAt(s, pat, i + 1);
        if i + |pat| <= |s| - 1 {
          assert s[1..][i..i + |pat|] == s[i + 1..i + 1 + |pat|];
        }
      }
      ReplaceAllAbsent(s[1..], pat, rep);
      assert s == [s[0]] + s[1..];
    }
  }

  /** Replacing a pattern by itself changes nothing. */
  lemma {:induction false} ReplaceAllSelf(s: string, pat: string)
    requires pat != []
    ensures ReplaceAll(s, pat, pat) == s
    decreases |s|
  {
    if |s| >= |pat| {
      if s[..|pat|] == pat {
        ReplaceAllSelf(s[|pat|..], pat);
        assert s == s[..|pat|] + s[|pat|..];
      } else {
        ReplaceAllSelf(s[1..], pat);
        assert s == [s[0]] + s[1..];
      }
    }
  }

  /** No occurrence of `p` in `s` starts before `cut` and ends after it. */
  predicate NoStraddle(s: string, p: string, cut: int) {
    forall i :: 0 <= i < cut < i + |p| ==> !OccursAt(s, p, i)
  }

  /** Without a match at its first position, ReplaceAll keeps the first character. */
  lemma ReplaceAllFirst(s: string, pat: string, rep: string)
    requires pat != [] && s != [] && !OccursAt(s, pat, 0)
    ensures ReplaceAll(s, pat, rep) == [s[0]] + ReplaceAll(s[1..], pat, rep)
  {
    if |s| < |pat| {
      assert s == [s[0]] + s[1..];
    } else {
      assert s[0..|pat|] == s[..|pat|];
    }
  }

  lemma NoStraddleDrop(x: string, z: string, p: string, d: nat)
    requires d <= |x| && NoStraddle(x + z, p, |x|)
    ensures NoStraddle(x[d..] + z, p, |x| - d)
  {
    assert x[d..] + z == (x + z)[d..];
    forall i | 0 <= i < |x| - d < i + |p|
      ensures !OccursAt(x[d..] + z, p, i)
    {
      assert !OccursAt(x + z, p, i + d);
      if i + |p| <= |x[d..] + z| {
        assert (x + z)[d..][i..i + |p|] == (x + z)[i + d..i + d + |p|];
      }
    }
  }

  /** When no occurrence crosses the boundary, replacing in a concatenation is replacing
      in each part. */
  lemma {:induction false} ReplaceAllConcat(x: string, z: string, pat: string, rep: string)
    requires pat != [] && NoStraddle(x + z, pat, |x|)
    ensures ReplaceAll(x + z, pat, rep) == ReplaceAll(x, pat, rep) + ReplaceAll(z, pat, rep)
    decreases |x|
  {
    var s := x + z;
    if x == [] {
      assert s == z;
    } else if |s| < |pat| {
      assert |x| < |pat| && |z| < |pat|;
    } else if s[..|pat|] == pat {
      ConcatMatch(x, z, pat, rep);
    } else {
      ConcatNoMatch(x, z, pat, rep);
    }
  }

  lemma {:induction false} ConcatMatch(x: string, z: string, pat: string, rep: string)
    requires pat != [] && x != [] && |x + z| >= |pat| && (x + z)[..|pat|] == pat
    requires NoStraddle(x + z, pat, |x|)
    ensures ReplaceAll(x + z, pat, rep) == ReplaceAll(x, pat, rep) + ReplaceAll(z, pat, rep)
    decreases |x|, 0
  {
    var s := x + z;
    assert OccursAt(s, pat, 0);
    assert |pat| <= |x|;
    var x' := x[|pat|..];
    assert x[..|pat|] == pat;
    assert s[|pat|..] == x' + z;
    NoStraddleDrop(x, z, pat, |pat|);
    ReplaceAllConcat(x', z, pat, rep);
    var a := ReplaceAll(x', pat, rep);
    var b := ReplaceAll(z, pat, rep);
    assert ReplaceAll(s, pat, rep) == rep + (a + b);
    assert ReplaceAll(x, pat, rep) == rep + a;
  }

  lemma {:induction false} ConcatNoMatch(x: string, z: string, pat: string, rep: string)
    requires pat != [] && x != [] && |x + z| >= |pat| && (x + z)[..|pat|] != pat
    requires NoStraddle(x + z, pat, |x|)
    ensures ReplaceAll(x + z, pat, rep) == ReplaceAll(x, pat, rep) + ReplaceAll(z, pat, rep)
    decreases |x|, 0
  {
    var s := x + z;
    assert !OccursAt(x, pat, 0) by {
      if |pat| <= |x| { assert x[..|pat|] == s[..|pat|]; }
    }
    var x' := x[1..];
    assert s[1..] == x' + z;
    ReplaceAllFirst(x, pat, rep);
    NoStraddleDrop(x, z, pat, 1);
    ReplaceAllConcat(x', z, pat, rep);
    var a := ReplaceAll(x', pat, rep);
    var b := ReplaceAll(z, pat, rep);
    assert ReplaceAll(s, pat, rep) == [x[0]] + (a + b);
    assert ReplaceAll(x, pat, rep) == [x[0]] + a;
  }

  lemma Distribute(c: int, d: int)
    ensures (1 + c) * d == d + c * d
  {
  }

  /** Each replacement changes the length by the difference of the two texts. */
  lemma {:induction false} ReplaceAllLength(s: string, pat: string, rep: string)
    requires pat != []
    ensures |ReplaceAll(s, pat, rep)| == |s| + CountReplaced(s, pat) * (|rep| - |pat|)
    decreases |s|
  {
    if |s| >= |pat| {
      if s[..|pat|] == pat {
        ReplaceAllLength(s[|pat|..], pat, rep);
        Distribute(CountReplaced(s[|pat|..], pat), |rep| - |pat|);
      } else {
        ReplaceAllLength(s[1..], pat, rep);
      }
    }
  }
}
