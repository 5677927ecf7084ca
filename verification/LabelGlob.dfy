/**
 Matching one DNS label against a pattern with stars (labelGlob in
 internal/egress/store.go), against the usual recursive meaning of a glob and against
 the non-greedy statement "the middle parts occur in order and disjointly".
 */
module LabelGlob {
  import opened Text
  import opened Wrappers

  /** The usual glob: '*' stands for any run of characters, every other character for itself. */
  predicate Glob(p: string, l: string)
    decreases |p| + |l|
  {
    if p == "" then l == ""
    else if p[0] == '*' then Glob(p[1..], l) || (l != "" && Glob(p, l[1..]))
    else l != "" && l[0] == p[0] && Glob(p[1..], l[1..])
  }

  /** The source's scan: take each part at its leftmost occurrence in what is left. */
  function Greedy(mids: seq<string>, rest: string): (r: Option<string>) {
    if mids == [] then Some(rest)
    else
      var i := Index(rest, mids[0]);
      if i < 0 then None else Greedy(mids[1..], rest[i + |mids[0]|..])
  }

  function First(p: string): (r: string) {
    Split(p, '*')[0]
  }

  function Last(p: string): (r: string) {
    var parts := Split(p, '*');
    parts[|parts| - 1]
  }

  /** The parts strictly between the first and the last; a pattern with a star has at least two parts. */
  function Middle(p: string): (r: seq<string>) {
    var parts := Split(p, '*');
    if |parts| < 2 then [] else parts[1..|parts| - 1]
  }

  function AfterPrefix(l: string, p: string): (r: string)
    requires HasPrefix(l, p)
    ensures l == p + r
  {
    l[|p|..]
  }

  /** What the scan leaves of the label behind the prefix. */
  function Remainder(p: string, l: string): (r: Option<string>) {
    if HasPrefix(l, First(p)) then Greedy(Middle(p), AfterPrefix(l, First(p))) else None
  }

  predicate Accepts(p: string, l: string) {
    if '*' !in p then p == l
    else HasPrefix(l, First(p)) && HasSuffix(l, Last(p)) && Remainder(p, l).Some?
  }

  /** The loop over the middle parts, with its early exit. */
  method Scan(mids: seq<string>, tail: string) returns (r: Option<string>)
    ensures r == Greedy(mids, tail)
  {
    hide Index;
    var rest := tail;
    assert mids[0..] == mids;
    for k := 0 to |mids|
      invariant Greedy(mids, tail) == Greedy(mids[k..], rest)
    {
      var idx := Index(rest, mids[k]);
      assert mids[k..][1..] == mids[k + 1..];
      if idx < 0 {
        return None;
      }
      rest := rest[idx + |mids[k]|..];
    }
    return Some(rest);
  }

  method MatchLabel(pattern: string, host: string) returns (ok: bool)
    ensures ok == Accepts(pattern, host)
  {
    hide Split, Greedy, HasPrefix, HasSuffix;
    if '*' !in pattern {
      return pattern == host;
    }
    var parts := Split(pattern, '*');
    if !HasPrefix(host, parts[0]) || !HasSuffix(host, parts[|parts| - 1]) {
      return false;
    }
    var scanned := Scan(parts[1..|parts| - 1], AfterPrefix(host, parts[0]));
    return scanned.Some?;
  }

  // ---- Greedy search is as good as any -----------------------------------------------------------

  /** The parts occur in order and disjointly in `rest`, with at least m characters after the last. */
  ghost predicate Embeds(mids: seq<string>, rest: string, m: nat)
    decreases |mids|
  {
    if mids == [] then m <= |rest|
    else exists i: nat :: OccursAt(rest, mids[0], i) && Embeds(mids[1..], rest[i + |mids[0]|..], m)
  }

  lemma {:induction false} EmbedsFits(mids: seq<string>, rest: string, m: nat)
    requires Embeds(mids, rest, m)
    ensures m <= |rest|
    decreases |mids|
  {
    if mids != [] {
      var i: nat :| OccursAt(rest, mids[0], i) && Embeds(mids[1..], rest[i + |mids[0]|..], m);
      EmbedsFits(mids[1..], rest[i + |mids[0]|..], m);
    }
  }

  lemma EmbedsInLonger(mids: seq<string>, rest: string, k: nat, m: nat)
    requires k <= |rest| && Embeds(mids, rest[k..], m)
    ensures Embeds(mids, rest, m)
  {
    if mids != [] {
      var p := mids[0];
      var i: nat :| OccursAt(rest[k..], p, i) && Embeds(mids[1..], rest[k..][i + |p|..], m);
      assert rest[k..][i..i + |p|] == rest[k + i..k + i + |p|];
      DropDrop(rest, k, i + |p|);
      assert OccursAt(rest, p, k + i);
    }
  }

  /** The leftmost scan leaves the longest remainder of any embedding: an embedding with m characters
      to spare exists exactly when the scan succeeds and leaves at least m. */
  lemma {:induction false} GreedyIsBest(mids: seq<string>, rest: string, m: nat)
    ensures Embeds(mids, rest, m) <==> Greedy(mids, rest).Some? && m <= |Greedy(mids, rest).value|
    decreases |mids|
  {
    hide Index;
    if mids == [] {
      return;
    }
    var p, ms := mids[0], mids[1..];
    var j := Index(rest, p);
    if j >= 0 {
      GreedyIsBest(ms, rest[j + |p|..], m);
    }
    hide Greedy;
    GreedyStep(mids, rest);
    if Embeds(mids, rest, m) {
      var i: nat :| OccursAt(rest, p, i) && Embeds(ms, rest[i + |p|..], m);
      LeftmostWorks(p, ms, rest, i, m);
    }
  }

  lemma GreedyStep(mids: seq<string>, rest: string)
    requires mids != []
    ensures
      var j := Index(rest, mids[0]);
      Greedy(mids, rest) == if j < 0 then None else Greedy(mids[1..], rest[j + |mids[0]|..])
  {
    hide Index;
  }

  /** Moving the first part to its leftmost occurrence never spoils an embedding. */
  lemma LeftmostWorks(p: string, mids: seq<string>, rest: string, i: nat, m: nat)
    requires OccursAt(rest, p, i) && Embeds(mids, rest[i + |p|..], m)
    ensures 0 <= Index(rest, p) <= i && Embeds(mids, rest[Index(rest, p) + |p|..], m)
  {
    hide Embeds;
    var j := Index(rest, p);
    assert i + |p| <= |rest| && 0 <= j <= i;
    hide OccursAt;
    DropDrop(rest, j + |p|, i - j);
    EmbedsInLonger(mids, rest[j + |p|..], i - j, m);
  }

  lemma DropDrop(s: string, a: nat, b: nat)
    requires a + b <= |s|
    ensures s[a..][b..] == s[a + b..]
  {
  }

  // ---- The glob in terms of parts ------------------------------------------------------------------

  /** The pattern's parts laid out in the label with arbitrary gaps between them. */
  ghost predicate PartsMatch(parts: seq<string>, l: string)
    requires |parts| >= 1
    decreases |parts|, 0
  {
    if |parts| == 1 then l == parts[0]
    else HasPrefix(l, parts[0]) && TailMatch(parts[1..], l[|parts[0]|..])
  }

  ghost predicate TailMatch(parts: seq<string>, r: string)
    requires |parts| >= 1
    decreases |parts|, 1
  {
    exists k: nat :: k <= |r| && PartsMatch(parts, r[k..])
  }

  lemma StarStep(rest: seq<string>, l: string)
    requires |rest| >= 1
    ensures TailMatch(rest, l) <==> PartsMatch(rest, l) || (l != "" && TailMatch(rest, l[1..]))
  {
    if TailMatch(rest, l) {
      var k: nat :| k <= |l| && PartsMatch(rest, l[k..]);
      if k > 0 {
        assert l[1..][k - 1..] == l[k..];
      } else {
        assert l[0..] == l;
      }
    }
    if PartsMatch(rest, l) {
      assert l[0..] == l;
    }
    if l != "" && TailMatch(rest, l[1..]) {
      var k: nat :| k <= |l[1..]| && PartsMatch(rest, l[1..][k..]);
      assert l[1..][k..] == l[k + 1..];
    }
  }

  lemma CharStep(c: char, rest: seq<string>, l: string)
    requires |rest| >= 1
    ensures PartsMatch([[c] + rest[0]] + rest[1..], l) <==> l != "" && l[0] == c && PartsMatch(rest, l[1..])
  {
    var parts := [[c] + rest[0]] + rest[1..];
    assert parts[1..] == rest[1..];
    if l != "" {
      assert l == [l[0]] + l[1..];
      if |rest| > 1 && |parts[0]| <= |l| {
        assert l[..|parts[0]|] == [l[0]] + l[1..][..|rest[0]|];
        assert l[|parts[0]|..] == l[1..][|rest[0]|..];
      }
    }
  }

  lemma {:induction false} GlobIsParts(p: string, l: string)
    ensures Glob(p, l) <==> PartsMatch(Split(p, '*'), l)
    decreases |p| + |l|
  {
    if p != "" {
      var rest := Split(p[1..], '*');
      if p[0] == '*' {
        assert ([""] + rest)[1..] == rest && l[0..] == l;
        assert PartsMatch(Split(p, '*'), l) <==> TailMatch(rest, l);
        GlobIsParts(p[1..], l);
        if l != "" {
          GlobIsParts(p, l[1..]);
          assert l[1..][0..] == l[1..];
        }
        StarStep(rest, l);
      } else {
        if l != "" {
          GlobIsParts(p[1..], l[1..]);
        }
        CharStep(p[0], rest, l);
      }
    }
  }

  lemma SuffixOfTail(r: string, k: nat, last: string)
    requires k <= |r| && |last| <= |r| - k
    ensures HasSuffix(r[k..], last) <==> HasSuffix(r, last)
  {
  }

  /** One position k for the first part, given the claim for what is left behind it. */
  lemma PartAt(p: string, ms: seq<string>, last: string, r: string, k: nat)
    requires k <= |r|
    requires k + |p| <= |r| ==>
               var tail := r[k + |p|..];
               TailMatch(ms + [last], tail) <==> HasSuffix(tail, last) && Embeds(ms, tail, |last|)
    ensures PartsMatch([p] + (ms + [last]), r[k..]) <==>
            OccursAt(r, p, k) && HasSuffix(r, last) && Embeds(ms, r[k + |p|..], |last|)
  {
    hide TailMatch, Embeds, HasSuffix;
    var parts := [p] + (ms + [last]);
    assert parts[0] == p && parts[1..] == ms + [last];
    assert HasPrefix(r[k..], p) <==> OccursAt(r, p, k) by {
      PrefixIsOccurrence(r, p, k);
    }
    if k + |p| <= |r| {
      var tail := r[k + |p|..];
      DropDrop(r, k, |p|);
      if Embeds(ms, tail, |last|) {
        EmbedsFits(ms, tail, |last|);
        SuffixOfTail(r, k + |p|, last);
      }
    }
  }

  lemma PrefixIsOccurrence(r: string, p: string, k: nat)
    requires k <= |r|
    ensures HasPrefix(r[k..], p) <==> OccursAt(r, p, k)
  {
    if k + |p| <= |r| {
      assert r[k..][..|p|] == r[k..k + |p|];
    }
  }

  /** Gaps between all parts, the last one anchored at the end, is an embedding that leaves room for it. */
  lemma {:induction false} TailIsEmbedding(mids: seq<string>, last: string, r: string)
    ensures TailMatch(mids + [last], r) <==> HasSuffix(r, last) && Embeds(mids, r, |last|)
    decreases |mids|
  {
    if mids == [] {
      assert mids + [last] == [last];
      if HasSuffix(r, last) {
        assert PartsMatch([last], r[|r| - |last|..]);
      }
      return;
    }
    hide PartsMatch, HasSuffix, OccursAt;
    var p, ms := mids[0], mids[1..];
    assert mids + [last] == [p] + (ms + [last]);
    forall k: nat | k <= |r|
      ensures PartsMatch(mids + [last], r[k..]) <==>
              OccursAt(r, p, k) && HasSuffix(r, last) && Embeds(ms, r[k + |p|..], |last|)
    {
      if k + |p| <= |r| {
        TailIsEmbedding(ms, last, r[k + |p|..]);
      }
      PartAt(p, ms, last, r, k);
    }
    assert forall k: nat | OccursAt(r, p, k) :: k <= |r| by {
      OccurrencesFit(r, p);
    }
  }

  lemma OccurrencesFit(r: string, p: string)
    ensures forall k: nat | OccursAt(r, p, k) :: k + |p| <= |r|
  {
  }

  // ---- Main results ----------------------------------------------------------------------------

  /** labelGlob accepts exactly when prefix and suffix hold and the middle parts embed, in order and
      disjointly, after the prefix; the suffix need not lie behind them. */
  lemma AcceptsIsEmbedding(p: string, l: string)
    requires '*' in p
    ensures Accepts(p, l) <==>
            HasPrefix(l, First(p)) && HasSuffix(l, Last(p)) && Embeds(Middle(p), l[|First(p)|..], 0)
  {
    if HasPrefix(l, First(p)) {
      GreedyIsBest(Middle(p), l[|First(p)|..], 0);
    }
  }

  /** The glob holds exactly when labelGlob accepts and, if there is a star, its scan left at least as
      many characters as the last part has. */
  lemma GlobIffAcceptsWithRoom(p: string, l: string)
    ensures Glob(p, l) <==> Accepts(p, l) && ('*' in p ==> |Remainder(p, l).value| >= |Last(p)|)
  {
    hide Split, Glob, HasPrefix, HasSuffix, TailMatch, Embeds, Greedy;
    GlobIsParts(p, l);
    if '*' in p && HasPrefix(l, First(p)) {
      var parts := Split(p, '*');
      var r := AfterPrefix(l, First(p));
      assert parts[1..] == Middle(p) + [Last(p)];
      TailIsEmbedding(Middle(p), Last(p), r);
      GreedyIsBest(Middle(p), r, |Last(p)|);
      if Embeds(Middle(p), r, |Last(p)|) {
        EmbedsFits(Middle(p), r, |Last(p)|);
        SuffixOfTail(l, |First(p)|, Last(p));
      }
    }
  }

  /** The two differ: "a*a" accepts the one-letter label "a", which no run of '*' can explain. */
  lemma AcceptsMoreThanTheGlob()
    ensures Accepts("a*a", "a") && !Glob("a*a", "a")
  {
    var empty: string := "";
    assert Split(empty, '*') == [empty];
    var one := "a";
    assert one[1..] == empty && Split(one, '*') == [one];
    var two := "*a";
    assert two[1..] == one && Split(two, '*') == [empty, one];
    var pattern := "a*a";
    assert pattern[1..] == two && [[pattern[0]] + empty] + [one] == [one, one];
    assert Split(pattern, '*') == [one, one];
    hide Split, Glob;
    assert First(pattern) == one && Last(pattern) == one && Middle(pattern) == [];
    assert HasPrefix(one, one) && HasSuffix(one, one) && one[1..] == empty;
    assert Remainder(pattern, one) == Some(empty);
    GlobIffAcceptsWithRoom(pattern, one);
  }

  lemma {:induction false} GlobReflexive(p: string)
    ensures Glob(p, p)
  {
    if p != "" {
      GlobReflexive(p[1..]);
      if p[0] == '*' {
        assert Glob(p[1..], p[1..]);
        StarSkips(p, p[1..]);
      }
    }
  }

  lemma StarSkips(p: string, l: string)
    requires p != "" && p[0] == '*' && Glob(p[1..], l)
    ensures Glob(p, l)
  {
  }

  /** A pattern read as a host label matches itself, stars included. */
  lemma AcceptsReflexive(p: string)
    ensures Accepts(p, p)
  {
    GlobReflexive(p);
    GlobIffAcceptsWithRoom(p, p);
  }
}
