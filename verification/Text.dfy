/** The string operations of the Rust standard library that the parsers rely on. */
module Text {
  import opened Wrappers

  const U64_LIMIT: nat := 0x1_0000_0000_0000_0000

  /** Position of the first `c` in `s`, or `|s|` when there is none. */
  function Find(s: string, c: char): (i: nat)
    ensures i <= |s| && c !in s[..i]
    ensures i < |s| ==> s[i] == c
    ensures i < |s| <==> c in s
  {
    if s == "" then 0
    else if s[0] == c then 0
    else
      var i := 1 + Find(s[1..], c);
      assert s[..i] == [s[0]] + s[1..][..i - 1];
      i
  }

  /** `str::split_once`. */
  function SplitOnce(s: string, c: char): Option<(string, string)> {
    var i := Find(s, c);
    if i < |s| then Some((s[..i], s[i + 1..])) else None
  }

  /** `str::splitn`: at most `n` pieces, the last one unsplit. */
  function SplitN(s: string, n: nat, c: char): (parts: seq<string>)
    requires n > 0
    ensures 1 <= |parts| <= n
    decreases n
  {
    var i := Find(s, c);
    if n == 1 || i == |s| then [s] else [s[..i]] + SplitN(s[i + 1..], n - 1, c)
  }

  /** `str::split`: there are never more than `|s| + 1` pieces. */
  function Split(s: string, c: char): (parts: seq<string>)
    ensures 1 <= |parts|
  {
    SplitN(s, |s| + 1, c)
  }

  /** The pieces with one `c` between neighbours. */
  function Join(parts: seq<string>, c: char): string
    requires parts != []
  {
    if |parts| == 1 then parts[0] else parts[0] + [c] + Join(parts[1..], c)
  }

  predicate StartsWith(s: string, prefix: string) {
    prefix <= s
  }

  predicate EndsWith(s: string, suffix: string) {
    |suffix| <= |s| && s[|s| - |suffix|..] == suffix
  }

  predicate IsDigit(c: char) {
    '0' <= c <= '9'
  }

  function DigitValue(c: char): nat
    requires IsDigit(c)
  {
    c as int - '0' as int
  }

  predicate AllDigits(s: string) {
    forall i :: 0 <= i < |s| ==> IsDigit(s[i])
  }

  /** Value of a decimal numeral read left to right. */
  function DecimalValue(digits: string): nat
    requires AllDigits(digits)
  {
    if digits == "" then 0
    else DecimalValue(digits[..|digits| - 1]) * 10 + DigitValue(digits[|digits| - 1])
  }

  /** `str::parse::<u64>` succeeds: an optional plus sign, then digits that fit. */
  predicate IsU64(s: string) {
    var digits := if |s| > 1 && s[0] == '+' then s[1..] else s;
    && digits != ""
    && AllDigits(digits)
    && DecimalValue(digits) < U64_LIMIT
  }

  /** The usual decimal text of a number. */
  function Decimal(n: nat): (s: string)
    ensures s != "" && AllDigits(s)
  {
    (if n < 10 then "" else Decimal(n / 10)) + [('0' as int + n % 10) as char]
  }

  lemma {:induction false} DecimalHasItsValue(n: nat)
    ensures DecimalValue(Decimal(n)) == n
    decreases n
  {
    var s := Decimal(n);
    var front := if n < 10 then "" else Decimal(n / 10);
    assert s[..|s| - 1] == front;
    if n >= 10 { DecimalHasItsValue(n / 10); }
  }

  lemma DigitsAreU64(digits: string)
    requires digits != "" && AllDigits(digits)
    ensures IsU64(digits) <==> DecimalValue(digits) < 0x1_0000_0000_0000_0000
  {
    assert IsDigit(digits[0]);
  }

  lemma FirstOfU64(s: string)
    ensures IsU64(s) ==> IsDigit(s[0]) || s[0] == '+'
  {
    if IsU64(s) && s[0] != '+' { assert AllDigits(s); }
  }

  lemma SignedIsU64(sign: char, digits: string)
    requires digits != "" && AllDigits(digits) && !IsDigit(sign)
    ensures IsU64([sign] + digits) <==> sign == '+' && IsU64(digits)
  {
    var s := [sign] + digits;
    assert s[0] == sign && IsDigit(digits[0]);
    if sign == '+' {
      DigitsAreU64(digits);
      var rest := s[1..];
      assert rest == digits;
      assert IsU64(s) <==> DecimalValue(rest) < U64_LIMIT;
    } else {
      FirstOfU64(s);
    }
  }

  /** The decimal text of a number, with or without a plus sign, is accepted exactly below two to the
      power of 64; with a minus sign it never is. */
  lemma NumeralIff(n: nat)
    ensures IsU64(Decimal(n)) <==> n < 0x1_0000_0000_0000_0000
    ensures IsU64(['+'] + Decimal(n)) <==> n < 0x1_0000_0000_0000_0000
    ensures !IsU64(['-'] + Decimal(n))
  {
    var digits := Decimal(n);
    assert IsDigit(digits[0]);
    DecimalHasItsValue(n);
    DigitsAreU64(digits);
    SignedIsU64('+', digits);
    SignedIsU64('-', digits);
  }

  /** No piece holds the separator, except perhaps the last of a full set of `n`. */
  predicate CleanPieces(parts: seq<string>, n: nat, c: char) {
    if |parts| == 0 then true
    else if |parts| == 1 then n <= 1 || c !in parts[0]
    else n > 1 && c !in parts[0] && CleanPieces(parts[1..], n - 1, c)
  }

  lemma JoinCons(head: string, rest: seq<string>, c: char)
    requires rest != []
    ensures Join([head] + rest, c) == head + [c] + Join(rest, c)
  {
    assert ([head] + rest)[1..] == rest;
  }

  /** Joining what was split gives the text back. */
  lemma {:induction false} JoinOfSplitN(s: string, n: nat, c: char)
    requires n > 0
    ensures Join(SplitN(s, n, c), c) == s
    decreases n
  {
    var i := Find(s, c);
    if n > 1 && i < |s| {
      JoinOfSplitN(s[i + 1..], n - 1, c);
      JoinCons(s[..i], SplitN(s[i + 1..], n - 1, c), c);
      assert s == s[..i] + [c] + s[i + 1..];
    }
  }

  lemma {:induction false} SplitNIsClean(s: string, n: nat, c: char)
    requires n > 0
    ensures CleanPieces(SplitN(s, n, c), n, c)
    decreases n
  {
    var i := Find(s, c);
    if n == 1 || i == |s| {
      assert SplitN(s, n, c) == [s];
    } else {
      var rest := SplitN(s[i + 1..], n - 1, c);
      SplitNIsClean(s[i + 1..], n - 1, c);
      CleanCons(s[..i], rest, n, c);
    }
  }

  /** With enough pieces to go round, none of them holds the separator. */
  lemma {:induction false} SplitHasNo(s: string, n: nat, c: char)
    requires n > |s|
    ensures forall i :: 0 <= i < |SplitN(s, n, c)| ==> c !in SplitN(s, n, c)[i]
    decreases n
  {
    var i := Find(s, c);
    if n > 1 && i < |s| { SplitHasNo(s[i + 1..], n - 1, c); }
  }

  lemma CleanCons(head: string, rest: seq<string>, n: nat, c: char)
    requires n > 1 && c !in head && rest != [] && CleanPieces(rest, n - 1, c)
    ensures CleanPieces([head] + rest, n, c)
  {
    var parts := [head] + rest;
    assert parts[1..] == rest;
  }

  /** The first `c` is where the prefix without `c` ends. */
  lemma {:induction false} FindIs(s: string, c: char, i: nat)
    requires i < |s| && s[i] == c && c !in s[..i]
    ensures Find(s, c) == i
  {
    if i > 0 {
      assert s[0] in s[..i];
      assert s[1..][..i - 1] == s[..i][1..];
      FindIs(s[1..], c, i - 1);
    }
  }

  lemma SplitOnceOfConcat(left: string, right: string, c: char)
    requires c !in left
    ensures Find(left + [c] + right, c) == |left|
    ensures SplitOnce(left + [c] + right, c) == Some((left, right))
  {
    var s := left + [c] + right;
    assert s[..|left|] == left && s[|left| + 1..] == right;
    FindIs(s, c, |left|);
  }

  lemma SplitNStep(left: string, right: string, n: nat, c: char)
    requires n > 1 && c !in left
    ensures SplitN(left + [c] + right, n, c) == [left] + SplitN(right, n - 1, c)
  {
    var s := left + [c] + right;
    SplitOnceOfConcat(left, right, c);
    assert s[..|left|] == left && s[|left| + 1..] == right;
  }

  lemma SplitNUnsplit(s: string, n: nat, c: char)
    requires n > 0 && (n == 1 || c !in s)
    ensures SplitN(s, n, c) == [s]
  {
  }

  /** Splitting what was joined gives clean pieces back. */
  lemma {:induction false} SplitNOfJoin(parts: seq<string>, n: nat, c: char)
    requires 1 <= |parts| <= n && CleanPieces(parts, n, c)
    ensures SplitN(Join(parts, c), n, c) == parts
    decreases n
  {
    if |parts| == 1 {
      SplitNUnsplit(parts[0], n, c);
    } else {
      SplitNOfJoin(parts[1..], n - 1, c);
      SplitNStep(parts[0], Join(parts[1..], c), n, c);
      assert parts == [parts[0]] + parts[1..];
    }
  }

  lemma {:induction false} CleanWhenAbsent(parts: seq<string>, n: nat, c: char)
    requires |parts| <= n
    requires forall k :: 0 <= k < |parts| ==> c !in parts[k]
    ensures CleanPieces(parts, n, c)
  {
    if |parts| > 1 { CleanWhenAbsent(parts[1..], n - 1, c); }
  }

  /** Joined text is at least as long as its number of separators. */
  lemma {:induction false} JoinLength(parts: seq<string>, c: char)
    requires parts != []
    ensures |parts| <= |Join(parts, c)| + 1
  {
    if |parts| > 1 { JoinLength(parts[1..], c); }
  }

  /** `Split` inverts `Join` when no piece holds the separator. */
  lemma SplitOfJoin(parts: seq<string>, c: char)
    requires parts != []
    requires forall k :: 0 <= k < |parts| ==> c !in parts[k]
    ensures Split(Join(parts, c), c) == parts
  {
    JoinLength(parts, c);
    CleanWhenAbsent(parts, |Join(parts, c)| + 1, c);
    SplitNOfJoin(parts, |Join(parts, c)| + 1, c);
  }

  /** A joined text holds a character other than the separator only if a piece does. */
  lemma {:induction false} JoinHasNo(parts: seq<string>, sep: char, c: char)
    requires parts != [] && c != sep
    requires forall k :: 0 <= k < |parts| ==> c !in parts[k]
    ensures c !in Join(parts, sep)
  {
    if |parts| > 1 { JoinHasNo(parts[1..], sep, c); }
  }
}
