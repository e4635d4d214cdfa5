/**
 The parts of Go's `strings` and `strconv` packages the program relies on.
 A Go string is a byte sequence; here one `char` stands for one byte.
 */
module Strings {
  import opened Wrappers

  lemma Associative<T>(a: seq<T>, b: seq<T>, d: seq<T>)
    ensures a + (b + d) == a + b + d
  {
  }

  /* ---------- substrings ---------- */

  predicate OccursAt(s: string, sep: string, i: nat) {
    i + |sep| <= |s| && s[i..i + |sep|] == sep
  }

  /** strings.Contains */
  predicate Contains(s: string, sep: string) {
    exists i :: 0 <= i <= |s| && OccursAt(s, sep, i)
  }

  predicate HasSuffix(s: string, suffix: string) {
    |suffix| <= |s| && s[|s| - |suffix|..] == suffix
  }

  function TrimSuffix(s: string, suffix: string): string {
    if HasSuffix(s, suffix) then s[..|s| - |suffix|] else s
  }

  /** strings.Index, searching from position `i`. */
  function IndexFrom(s: string, sep: string, i: nat): (r: Option<nat>)
    ensures r.Some? ==> i <= r.value && r.value + |sep| <= |s|
    decreases |s| + 1 - i
  {
    if i > |s| then None
    else if OccursAt(s, sep, i) then Some(i)
    else IndexFrom(s, sep, i + 1)
  }

  /** strings.Split for a non-empty separator: cut at the leftmost occurrence, again and again. */
  function Split(s: string, sep: string): (parts: seq<string>)
    requires sep != ""
    ensures |parts| >= 1
    decreases |s|
  {
    match IndexFrom(s, sep, 0)
    case None => [s]
    case Some(i) => [s[..i]] + Split(s[i + |sep|..], sep)
  }

  lemma {:induction false} IndexFromIsFirst(s: string, sep: string, i: nat)
    ensures var r := IndexFrom(s, sep, i);
            && (r.Some? ==> OccursAt(s, sep, r.value))
            && forall j :: i <= j < (if r.Some? then r.value else |s| + 1) ==> !OccursAt(s, sep, j)
    decreases |s| + 1 - i
  {
    if i <= |s| && !OccursAt(s, sep, i) {
      IndexFromIsFirst(s, sep, i + 1);
    }
  }

  lemma SplitSingle(s: string, sep: string)
    requires sep != ""
    ensures |Split(s, sep)| == 1 <==> !Contains(s, sep)
    ensures |Split(s, sep)| == 1 ==> Split(s, sep) == [s]
  {
    IndexFromIsFirst(s, sep, 0);
  }

  /** strings.Join */
  function Join(parts: seq<string>, sep: string): string {
    if parts == [] then ""
    else if |parts| == 1 then parts[0]
    else parts[0] + sep + Join(parts[1..], sep)
  }

  /** No proper prefix of `sep` is also a suffix: two occurrences never overlap. */
  predicate BorderFree(sep: string) {
    sep != "" && forall k :: 0 < k < |sep| ==> sep[k..] != sep[..|sep| - k]
  }

  lemma CommonSeparatorsAreBorderFree()
    ensures BorderFree(",") && BorderFree(":") && BorderFree(".") && BorderFree("://")
  {
    forall k | 0 < k < |"://"| ensures "://"[k..] != "://"[..|"://"| - k] {
      assert k == 1 || k == 2;
      assert "://"[k..][0] == '/' && "://"[..|"://"| - k][0] == ':';
    }
  }

  /** An occurrence across the boundary would make a suffix of sep one of its prefixes. */
  lemma Straddling(a: string, sep: string, b: string, j: nat)
    requires j < |a| < j + |sep| && OccursAt(a + sep + b, sep, j)
    ensures sep[|a| - j..] == sep[..|sep| - (|a| - j)]
  {
    var s := a + sep + b;
    var x, y := sep[|a| - j..], sep[..|sep| - (|a| - j)];
    forall t | 0 <= t < |x| ensures x[t] == y[t] {
      assert s[j..j + |sep|][|a| - j + t] == s[|a| + t];
    }
  }

  /** An occurrence in a + sep + b that starts inside a ends inside a. */
  lemma NoStraddling(a: string, sep: string, b: string, j: nat)
    requires BorderFree(sep) && j < |a| && OccursAt(a + sep + b, sep, j)
    ensures OccursAt(a, sep, j)
  {
    if |a| < j + |sep| {
      Straddling(a, sep, b, j);
    } else {
      assert a[j..j + |sep|] == (a + sep + b)[j..j + |sep|];
    }
  }

  ghost predicate IsFirst(s: string, sep: string, i: nat) {
    OccursAt(s, sep, i) && forall j :: 0 <= j < i ==> !OccursAt(s, sep, j)
  }

  lemma FirstIsIndex(s: string, sep: string, i: nat)
    requires IsFirst(s, sep, i)
    ensures IndexFrom(s, sep, 0) == Some(i)
  {
    IndexFromIsFirst(s, sep, 0);
  }

  /** The first occurrence in a + sep + b lies at the first occurrence in a, or else exactly at |a|. */
  lemma FirstOccurrence(a: string, sep: string, b: string)
    requires BorderFree(sep)
    ensures IndexFrom(a + sep + b, sep, 0)
         == if Contains(a, sep) then IndexFrom(a, sep, 0) else Some(|a|)
  {
    var s := a + sep + b;
    forall j | 0 <= j < |a| && OccursAt(s, sep, j) ensures OccursAt(a, sep, j) {
      NoStraddling(a, sep, b, j);
    }
    var first := |a|;
    if Contains(a, sep) {
      IndexFromIsFirst(a, sep, 0);
      first := IndexFrom(a, sep, 0).value;
      assert s[first..first + |sep|] == a[first..first + |sep|];
    } else {
      assert s[|a|..|a| + |sep|] == sep;
    }
    FirstIsIndex(s, sep, first);
  }

  lemma SplitAt(s: string, sep: string, i: nat)
    requires sep != "" && IndexFrom(s, sep, 0) == Some(i)
    ensures Split(s, sep) == [s[..i]] + Split(s[i + |sep|..], sep)
  {
  }

  /** Splitting distributes over a separator that cannot overlap itself. */
  lemma {:induction false} SplitAppend(a: string, sep: string, b: string)
    requires BorderFree(sep)
    ensures Split(a + sep + b, sep) == Split(a, sep) + Split(b, sep)
    decreases |a|
  {
    if Contains(a, sep) {
      var i := SplitTogether(a, sep, b);
      var rest := a[i + |sep|..];
      SplitAppend(rest, sep, b);
      var head, x, y := [a[..i]], Split(rest, sep), Split(b, sep);
      assert head + (x + y) == head + x + y;
    } else {
      FirstOccurrence(a, sep, b);
      var s := a + sep + b;
      SplitAt(s, sep, |a|);
      SplitSingle(a, sep);
      assert s[|a| + |sep|..] == b && s[..|a|] == a;
    }
  }

  /** Both texts are first cut at the same place. */
  lemma SplitTogether(a: string, sep: string, b: string) returns (i: nat)
    requires BorderFree(sep) && Contains(a, sep)
    ensures i + |sep| <= |a|
    ensures Split(a, sep) == [a[..i]] + Split(a[i + |sep|..], sep)
    ensures Split(a + sep + b, sep) == [a[..i]] + Split(a[i + |sep|..] + sep + b, sep)
  {
    FirstOccurrence(a, sep, b);
    IndexFromIsFirst(a, sep, 0);
    i := IndexFrom(a, sep, 0).value;
    SplitAt(a, sep, i);
    var s := a + sep + b;
    SplitAt(s, sep, i);
    assert s[i + |sep|..] == a[i + |sep|..] + sep + b && s[..i] == a[..i];
  }

  /** Joining undoes splitting. */
  lemma {:induction false} JoinOfSplit(s: string, sep: string)
    requires sep != ""
    ensures Join(Split(s, sep), sep) == s
    decreases |s|
  {
    IndexFromIsFirst(s, sep, 0);
    if Contains(s, sep) {
      var i := IndexFrom(s, sep, 0).value;
      var rest := s[i + |sep|..];
      JoinOfSplit(rest, sep);
      JoinInFront(s[..i], Split(rest, sep), sep);
      assert s == s[..i] + sep + rest;
    } else {
      SplitSingle(s, sep);
    }
  }

  lemma JoinInFront(part: string, parts: seq<string>, sep: string)
    requires parts != []
    ensures Join([part] + parts, sep) == part + sep + Join(parts, sep)
  {
    assert ([part] + parts)[1..] == parts;
  }

  /** No piece holds the separator, so that splitting is the only way to undo joining. */
  lemma {:induction false} PiecesAreClean(s: string, sep: string)
    requires sep != ""
    ensures forall p :: p in Split(s, sep) ==> !Contains(p, sep)
    decreases |s|
  {
    IndexFromIsFirst(s, sep, 0);
    if Contains(s, sep) {
      var i := IndexFrom(s, sep, 0).value;
      PiecesAreClean(s[i + |sep|..], sep);
      CleanBefore(s, sep, i);
    } else {
      SplitSingle(s, sep);
    }
  }

  lemma CleanBefore(s: string, sep: string, i: nat)
    requires sep != "" && i <= |s| && forall j :: 0 <= j < i ==> !OccursAt(s, sep, j)
    ensures !Contains(s[..i], sep)
  {
    forall j | 0 <= j <= i ensures OccursAt(s[..i], sep, j) ==> j < i && OccursAt(s, sep, j) {
      if OccursAt(s[..i], sep, j) {
        assert s[..i][j..j + |sep|] == s[j..j + |sep|];
      }
    }
  }

  function SplitEach(parts: seq<string>, sep: string): seq<string>
    requires sep != ""
  {
    if parts == [] then [] else Split(parts[0], sep) + SplitEach(parts[1..], sep)
  }

  lemma {:induction false} SplitOfJoin(parts: seq<string>, sep: string)
    requires BorderFree(sep) && parts != []
    ensures Split(Join(parts, sep), sep) == SplitEach(parts, sep)
  {
    if |parts| == 1 {
      assert SplitEach(parts[1..], sep) == [];
    } else {
      SplitAppend(parts[0], sep, Join(parts[1..], sep));
      SplitOfJoin(parts[1..], sep);
    }
  }

  /** Splitting yields the parts themselves when none holds the separator, and more pieces otherwise. */
  lemma {:induction false} SplitEachLength(parts: seq<string>, sep: string)
    requires sep != ""
    ensures |SplitEach(parts, sep)| >= |parts|
    ensures |SplitEach(parts, sep)| == |parts| <==> forall p :: p in parts ==> !Contains(p, sep)
    ensures |SplitEach(parts, sep)| == |parts| ==> SplitEach(parts, sep) == parts
  {
    if parts != [] {
      SplitSingle(parts[0], sep);
      SplitEachLength(parts[1..], sep);
      assert parts == [parts[0]] + parts[1..];
    }
  }

  /* ---------- decimal numbers ---------- */

  predicate IsDigit(c: char) { '0' <= c <= '9' }

  predicate AllDigits(s: string) { forall i :: 0 <= i < |s| ==> IsDigit(s[i]) }

  function DigitValue(c: char): nat requires IsDigit(c) { c as int - '0' as int }

  function DigitChar(n: nat): (c: char)
    requires n < 10
    ensures IsDigit(c) && DigitValue(c) == n
  {
    ('0' as int + n) as char
  }

  /** fmt's %d for a natural number. */
  function Digits(n: nat): (s: string)
    ensures s != "" && AllDigits(s)
  {
    if n < 10 then [DigitChar(n)] else Digits(n / 10) + [DigitChar(n % 10)]
  }

  lemma {:induction false} NumberOfDigits(n: nat)
    ensures Number(Digits(n)) == n
  {
    var s := Digits(n);
    if n < 10 {
      assert Number(s) == 10 * Number("") + n;
    } else {
      NumberOfDigits(n / 10);
      assert s[..|s| - 1] == Digits(n / 10);
    }
  }

  function Number(s: string): nat
    requires AllDigits(s)
  {
    if s == "" then 0 else 10 * Number(s[..|s| - 1]) + DigitValue(s[|s| - 1])
  }

  /** Digits without a leading zero. */
  predicate Canonical(s: string) {
    s != "" && AllDigits(s) && (|s| == 1 || s[0] != '0')
  }

  lemma {:induction false} CanonicalIsPositive(s: string)
    requires Canonical(s) && s[0] != '0'
    ensures Number(s) > 0
  {
    if |s| > 1 {
      assert s[..|s| - 1][0] == s[0];
      CanonicalIsPositive(s[..|s| - 1]);
    } else {
      assert Number(s) == 10 * Number("") + DigitValue(s[0]);
    }
  }

  lemma {:induction false} NoLeadingZero(n: nat)
    requires n > 0
    ensures Digits(n)[0] != '0'
  {
    if n >= 10 {
      NoLeadingZero(n / 10);
    }
  }

  lemma DigitsAreCanonical(n: nat)
    ensures Canonical(Digits(n))
  {
    if n > 0 {
      NoLeadingZero(n);
    }
  }

  lemma {:induction false} CanonicalIsDigits(s: string)
    requires Canonical(s)
    ensures s == Digits(Number(s))
  {
    if |s| == 1 {
      assert Number(s) == 10 * Number("") + DigitValue(s[0]);
    } else {
      var init := s[..|s| - 1];
      assert init[0] == s[0];
      CanonicalIsDigits(init);
      CanonicalIsPositive(init);
      assert s == init + [s[|s| - 1]];
    }
  }

  /** The printed number is the one text of digits without a leading zero that has the value. */
  lemma PrintedNumberIff(n: nat, s: string)
    ensures s == Digits(n) <==> Canonical(s) && Number(s) == n
  {
    DigitsAreCanonical(n);
    NumberOfDigits(n);
    if Canonical(s) {
      CanonicalIsDigits(s);
    }
  }

  function Zeros(k: nat): (s: string)
    ensures |s| == k && forall i :: 0 <= i < k ==> s[i] == '0'
  {
    seq(k, _ => '0')
  }

  lemma {:induction false} LeadingZero(s: string)
    requires AllDigits(s)
    ensures AllDigits("0" + s) && Number("0" + s) == Number(s)
  {
    if s == "" {
      assert "0" + s == "0" && Number("0") == 10 * Number("") + 0;
    } else {
      LeadingZero(s[..|s| - 1]);
      assert ("0" + s)[..|"0" + s| - 1] == "0" + s[..|s| - 1];
    }
  }

  /** A text of digits is a printed number behind zeros. */
  lemma {:induction false} DigitsBehindZeros(s: string) returns (k: nat)
    requires s != "" && AllDigits(s)
    ensures s == Zeros(k) + Digits(Number(s))
  {
    if Canonical(s) {
      CanonicalIsDigits(s);
      return 0;
    }
    k := DigitsBehindZeros(s[1..]);
    LeadingZero(s[1..]);
    assert s == "0" + s[1..] && Zeros(k + 1) == "0" + Zeros(k);
    Associative("0", Zeros(k), Digits(Number(s)));
    k := k + 1;
  }

  lemma {:induction false} NumberBehindZeros(k: nat, n: nat)
    ensures AllDigits(Zeros(k) + Digits(n)) && Number(Zeros(k) + Digits(n)) == n
  {
    if k == 0 {
      assert Zeros(0) + Digits(n) == Digits(n);
      NumberOfDigits(n);
    } else {
      NumberBehindZeros(k - 1, n);
      assert Zeros(k) + Digits(n) == "0" + (Zeros(k - 1) + Digits(n));
      LeadingZero(Zeros(k - 1) + Digits(n));
    }
  }

  /** fmt's %d */
  function Itoa(n: int): (s: string)
    ensures forall c :: c in s ==> IsDigit(c) || c == '-'
  {
    if n < 0 then "-" + Digits(-n) else Digits(n)
  }

  const MAX_INT64 := 0x7fff_ffff_ffff_ffff

  function Signed(negative: bool, digits: string): Option<int> {
    if digits == "" || !AllDigits(digits) then None
    else
      var n: int := if negative then -(Number(digits) as int) else Number(digits);
      if -MAX_INT64 - 1 <= n <= MAX_INT64 then Some(n) else None
  }

  /** strconv.Atoi on a 64-bit platform: an optional sign, at least one digit, within int64. */
  function Atoi(s: string): Option<int> {
    if s != "" && s[0] == '-' then Signed(true, s[1..])
    else if s != "" && s[0] == '+' then Signed(false, s[1..])
    else Signed(false, s)
  }

  lemma AtoiOfItoa(n: int)
    requires -MAX_INT64 - 1 <= n <= MAX_INT64
    ensures Atoi(Itoa(n)) == Some(n)
  {
    NumberOfDigits(if n < 0 then -n else n);
    if n < 0 {
      assert Itoa(n)[1..] == Digits(-n);
    } else {
      assert IsDigit(Itoa(n)[0]);
    }
  }

  /** The printed integer: digits without a leading zero, behind a minus if it is negative. */
  lemma PrintedIntegerIff(n: int, s: string)
    ensures s == Itoa(n) <==>
            if n < 0 then s != "" && s[0] == '-' && Canonical(s[1..]) && Number(s[1..]) == -n
            else Canonical(s) && Number(s) == n
  {
    if n < 0 {
      if s != "" {
        PrintedNumberIff(-n, s[1..]);
        assert s == [s[0]] + s[1..];
      }
      assert Itoa(n)[1..] == Digits(-n);
    } else {
      PrintedNumberIff(n, s);
    }
  }

  ghost predicate BehindZeros(s: string, n: nat) {
    exists k: nat :: s == Zeros(k) + Digits(n)
  }

  /** The number printed behind zeros, if any, and a sign, if any. */
  ghost predicate SpellsInteger(s: string, n: int) {
    || (n >= 0 && BehindZeros(s, n))
    || (n >= 0 && s != "" && s[0] == '+' && BehindZeros(s[1..], n))
    || (n <= 0 && s != "" && s[0] == '-' && BehindZeros(s[1..], -n))
  }

  lemma ReadsIffBehindZeros(s: string, n: nat)
    ensures s != "" && AllDigits(s) && Number(s) == n <==> BehindZeros(s, n)
  {
    if s != "" && AllDigits(s) && Number(s) == n {
      var k := DigitsBehindZeros(s);
    }
    if k: nat :| s == Zeros(k) + Digits(n) {
      NumberBehindZeros(k, n);
    }
  }

  /** What Atoi reads, by the characters of the text: a sign if any, zeros if any, and a printed number
      in the int64 range. Anything else is an error. */
  lemma AtoiReads(s: string, n: int)
    ensures Atoi(s) == Some(n) <==> -MAX_INT64 - 1 <= n <= MAX_INT64 && SpellsInteger(s, n)
  {
    ReadsIffBehindZeros(s, if n < 0 then -n else n);
    if s != "" {
      ReadsIffBehindZeros(s[1..], if n < 0 then -n else n);
      assert AllDigits(s) ==> IsDigit(s[0]);
    }
  }

  /** Printed numbers are determined by their value, at every size. */
  lemma ItoaInjective(m: int, n: int)
    ensures Itoa(m) == Itoa(n) ==> m == n
  {
    NumberOfDigits(if m < 0 then -m else m);
    NumberOfDigits(if n < 0 then -n else n);
    if Itoa(m) == Itoa(n) {
      assert m < 0 ==> Itoa(m)[1..] == Digits(-m) && Itoa(m)[0] == '-';
      assert n < 0 ==> Itoa(n)[1..] == Digits(-n) && Itoa(n)[0] == '-';
      assert m >= 0 ==> IsDigit(Itoa(m)[0]);
      assert n >= 0 ==> IsDigit(Itoa(n)[0]);
    }
  }

  lemma OccurrenceIsMember(s: string, c: char, i: nat)
    requires OccursAt(s, [c], i)
    ensures c in s
  {
    assert s[i] == s[i..i + 1][0];
  }

  lemma ContainsChar(s: string, c: char)
    ensures Contains(s, [c]) ==> c in s
  {
    if Contains(s, [c]) {
      var i :| 0 <= i <= |s| && OccursAt(s, [c], i);
      OccurrenceIsMember(s, c, i);
    }
  }
}
