/** The parts of Go's strings and strconv packages that the model needs. */
module Text {

  predicate HasPrefix(s: string, p: string) {
    |p| <= |s| && s[..|p|] == p
  }

  predicate HasSuffix(s: string, p: string) {
    |p| <= |s| && s[|s| - |p|..] == p
  }

  function TrimSuffix(s: string, p: string): (r: string)
    ensures HasSuffix(s, p) ==> s == r + p
    ensures !HasSuffix(s, p) ==> r == s
  {
    if HasSuffix(s, p) then s[..|s| - |p|] else s
  }

  lemma TrimOfAppend(a: string, p: string)
    ensures HasSuffix(a + p, p) && TrimSuffix(a + p, p) == a
  {
  }

  /** strings.Split on a one-character separator: always at least one part. */
  function Split(s: string, sep: char): (parts: seq<string>)
    ensures |parts| >= 1
    ensures forall i | 0 <= i < |parts| :: sep !in parts[i]
    ensures sep !in s <==> |parts| == 1
    ensures |parts| == 1 ==> parts[0] == s
  {
    if s == "" then [""]
    else
      var rest := Split(s[1..], sep);
      if s[0] == sep then [""] + rest else [[s[0]] + rest[0]] + rest[1..]
  }

  function Join(parts: seq<string>, sep: char): (s: string)
    requires |parts| >= 1
  {
    if |parts| == 1 then parts[0] else parts[0] + [sep] + Join(parts[1..], sep)
  }

  lemma JoinEmptyFirst(rest: seq<string>, sep: char)
    requires |rest| >= 1
    ensures Join([""] + rest, sep) == [sep] + Join(rest, sep)
  {
    assert ([""] + rest)[1..] == rest;
    assert "" + [sep] == [sep];
  }

  lemma JoinLongerFirst(c: char, rest: seq<string>, sep: char)
    requires |rest| >= 1
    ensures Join([[c] + rest[0]] + rest[1..], sep) == [c] + Join(rest, sep)
  {
    var parts := [[c] + rest[0]] + rest[1..];
    assert parts[1..] == rest[1..];
    if |rest| > 1 {
      var tail := [sep] + Join(rest[1..], sep);
      assert Join(parts, sep) == ([c] + rest[0]) + tail && Join(rest, sep) == rest[0] + tail;
    }
  }

  lemma {:induction false} JoinSplit(s: string, sep: char)
    ensures Join(Split(s, sep), sep) == s
  {
    hide Join;
    if s == "" {
      JoinOne("", sep);
    } else {
      var rest := Split(s[1..], sep);
      JoinSplit(s[1..], sep);
      JoinEmptyFirst(rest, sep);
      JoinLongerFirst(s[0], rest, sep);
      assert s == [s[0]] + s[1..];
    }
  }

  lemma JoinOne(part: string, sep: char)
    ensures Join([part], sep) == part
  {
  }

  lemma SplitInjective(s: string, t: string, sep: char)
    requires Split(s, sep) == Split(t, sep)
    ensures s == t
  {
    JoinSplit(s, sep);
    JoinSplit(t, sep);
  }

  predicate OccursAt(s: string, p: string, i: nat) {
    i + |p| <= |s| && s[i..i + |p|] == p
  }

  lemma OccursShift(s: string, p: string)
    requires s != ""
    ensures forall j: nat | j > 0 :: OccursAt(s, p, j) <==> OccursAt(s[1..], p, j - 1)
  {
  }

  /** strings.Index: the leftmost occurrence, or -1. */
  function Index(s: string, p: string): (i: int)
    ensures i >= 0 ==> OccursAt(s, p, i) && forall j: nat | j < i :: !OccursAt(s, p, j)
    ensures i < 0 ==> i == -1 && forall j: nat :: !OccursAt(s, p, j)
  {
    if |p| <= |s| && s[..|p|] == p then 0
    else if s == "" then -1
    else
      var k := Index(s[1..], p);
      OccursShift(s, p);
      if k < 0 then -1 else k + 1
  }

  /** strings.LastIndexByte: the rightmost occurrence of a character, or -1. */
  function LastIndexOf(s: string, c: char): (i: int)
    ensures -1 <= i < |s|
    ensures i >= 0 ==> s[i] == c
    ensures forall j | i < j < |s| :: s[j] != c
  {
    if s == "" then -1 else if s[|s| - 1] == c then |s| - 1 else LastIndexOf(s[..|s| - 1], c)
  }

  lemma LastIndexUnique(s: string, c: char, i: nat)
    requires i < |s| && s[i] == c && forall j | i < j < |s| :: s[j] != c
    ensures LastIndexOf(s, c) == i
  {
  }

  lemma LastIndexInTail(a: string, b: string, c: char)
    requires c in b
    ensures LastIndexOf(a + b, c) == |a| + LastIndexOf(b, c)
  {
    var i := LastIndexOf(b, c);
    LastIndexUnique(a + b, c, |a| + i);
  }

  lemma InAppend(a: string, b: string, c: char)
    ensures c in a + b <==> c in a || c in b
  {
  }

  /** A separator-free head is the first part. */
  lemma {:induction false} SplitHead(a: string, sep: char, b: string)
    requires sep !in a
    ensures Split(a + [sep] + b, sep) == [a] + Split(b, sep)
  {
    var s := a + [sep] + b;
    if a == "" {
      assert s == [sep] + b && s[1..] == b;
    } else {
      SplitHead(a[1..], sep, b);
      assert s[1..] == a[1..] + [sep] + b;
      assert [a[0]] + a[1..] == a;
      assert ([a[1..]] + Split(b, sep))[1..] == Split(b, sep);
    }
  }

  // ---- Decimal numbers -------------------------------------------------------------------------

  function Digit(d: nat): (c: char)
    requires d < 10
    ensures '0' <= c <= '9'
  {
    '0' + d as char
  }

  predicate IsDigits(s: string) {
    forall i | 0 <= i < |s| :: '0' <= s[i] <= '9'
  }

  function NatText(n: nat): (s: string)
    ensures |s| >= 1 && IsDigits(s)
  {
    if n < 10 then [Digit(n)] else NatText(n / 10) + [Digit(n % 10)]
  }

  /** fmt's %d and strconv.Itoa. */
  function Itoa(n: int): (s: string)
    ensures |s| >= 1
    ensures forall c | c in s :: '0' <= c <= '9' || c == '-'
  {
    if n < 0 then "-" + NatText(-n) else NatText(n)
  }

  /** The number a digit string denotes. */
  function ParseDigits(s: string): (n: nat)
    requires IsDigits(s)
  {
    if s == "" then 0 else ParseDigits(s[..|s| - 1]) * 10 + (s[|s| - 1] - '0') as nat
  }

  lemma {:induction false} ParseNatText(n: nat)
    ensures ParseDigits(NatText(n)) == n
  {
    if n >= 10 {
      ParseNatText(n / 10);
      var s := NatText(n / 10) + [Digit(n % 10)];
      assert s[..|s| - 1] == NatText(n / 10);
    }
  }

  /** A printed positive number never starts with a zero. */
  lemma {:induction false} NoLeadingZero(n: nat)
    ensures n > 0 ==> NatText(n)[0] != '0'
    ensures NatText(0) == "0"
  {
    if n >= 10 {
      NoLeadingZero(n / 10);
    }
  }

  /** Every digit string without a leading zero is the printed form of the number it denotes: numbers and
      their printed forms correspond one to one. */
  lemma {:induction false} NatTextOfParsed(s: string)
    requires s != "" && IsDigits(s) && (|s| == 1 || s[0] != '0')
    ensures NatText(ParseDigits(s)) == s
  {
    var n := |s| - 1;
    var d := (s[n] - '0') as nat;
    if n > 0 {
      NatTextOfParsed(s[..n]);
      PositiveWithoutLeadingZero(s[..n]);
      assert ParseDigits(s) / 10 == ParseDigits(s[..n]) && ParseDigits(s) % 10 == d;
      assert s == s[..n] + [s[n]];
    } else {
      assert s[..0] == "" && s == [s[0]];
    }
  }

  lemma {:induction false} PositiveWithoutLeadingZero(s: string)
    requires s != "" && IsDigits(s) && s[0] != '0'
    ensures ParseDigits(s) > 0
  {
    if |s| > 1 {
      PositiveWithoutLeadingZero(s[..|s| - 1]);
    } else {
      assert s[..0] == "";
    }
  }

  /** Numbers are printed in base ten, negative ones behind a minus sign. */
  lemma PrintedInDecimal()
    ensures Itoa(443) == "443" && Itoa(10199) == "10199" && Itoa(0) == "0" && Itoa(-1) == "-1"
  {
    assert NatText(4) == "4" && NatText(44) == "44" && NatText(443) == "443";
    assert NatText(1) == "1" && NatText(10) == "10" && NatText(101) == "101" && NatText(1019) == "1019";
    assert NatText(10199) == "10199";
  }
}
