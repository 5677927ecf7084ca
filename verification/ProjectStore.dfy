/**
 The project table (internal/project/store.go, internal/project/project.go): the name
 grammar, the allocation of a PROD+DEV port pair and the unique-name insert.
 */
module ProjectStore {
  import opened Text

  const PORT_RANGE_START: int := 10000
  const PUBLISHED_PORT_RANGE_END: int := 10199

  // ---- Names -----------------------------------------------------------------------------------

  predicate IsLower(c: char) { 'a' <= c <= 'z' }

  predicate IsAlnum(c: char) { IsLower(c) || '0' <= c <= '9' }

  /** The anchored slug pattern: a letter, up to 61 of [a-z0-9-], then a letter or digit. */
  predicate MatchesSlug(name: string) {
    && 2 <= |name| <= 63
    && IsLower(name[0]) && IsAlnum(name[|name| - 1])
    && forall i | 0 <= i < |name| :: IsAlnum(name[i]) || name[i] == '-'
  }

  const DEV_SUFFIX: string := "-dev"

  predicate ValidName(name: string) {
    MatchesSlug(name) && !HasSuffix(name, DEV_SUFFIX)
  }

  /** The grammar in the text of ErrInvalidName: a letter, then up to 61 of [a-z0-9-]. */
  predicate DocumentedName(name: string) {
    && 1 <= |name| <= 62 && IsLower(name[0])
    && forall i | 0 <= i < |name| :: IsAlnum(name[i]) || name[i] == '-'
  }

  /** The pattern against the text: it also wants two characters and a letter or digit at the end, and it
      allows one character more, which continues a documented name of 62. */
  lemma PatternIffDocumented(name: string)
    ensures MatchesSlug(name) <==>
            && 2 <= |name| <= 63 && IsAlnum(name[|name| - 1])
            && DocumentedName(if |name| == 63 then name[..62] else name)
  {
    if |name| == 63 {
      assert forall i | 0 <= i < 62 :: name[..62][i] == name[i];
      assert DocumentedName(name[..62]) ==> forall i | 0 <= i < 62 :: IsAlnum(name[i]) || name[i] == '-';
    }
  }

  /** Neither contains the other. */
  lemma PatternAndTextDiffer()
    ensures
      var longest := seq(63, i => 'a');
      && ValidName(longest) && !DocumentedName(longest)
      && DocumentedName("a") && !MatchesSlug("a")
      && DocumentedName("a-") && !MatchesSlug("a-")
  {
    var longest := seq(63, i => 'a');
    assert longest[62] != DEV_SUFFIX[3];
  }

  // ---- Rows and results ------------------------------------------------------------------------

  type Id = nat  // fresh UUIDs

  datatype Port = Null | Port(number: int)

  /** A legacy row may lack a port, hold equal or unaligned ports, or lie above the published range. */
  datatype Row = Row(name: string, prod: Port, dev: Port)

  type Rows = map<Id, Row>

  datatype Pair = NoPair | Pair(prod: int, dev: int)

  datatype Outcome = Created | InvalidName | ReservedNameSuffix | NoPortAvailable | DuplicateName

  function PortSet(p: Port): (r: set<int>) {
    if p.Null? then {} else {p.number}
  }

  /** Every port held by either environment of any project. */
  function Used(rows: Rows): (r: set<int>) {
    set id, p | id in rows && p in PortSet(rows[id].prod) + PortSet(rows[id].dev) :: p
  }

  /** The lowest unused port from `from` on, or one past the range. */
  function NextFree(used: set<int>, from: int): (p: int)
    requires PORT_RANGE_START <= from <= PUBLISHED_PORT_RANGE_END + 1
    ensures from <= p <= PUBLISHED_PORT_RANGE_END + 1
    ensures p <= PUBLISHED_PORT_RANGE_END ==> p !in used
    ensures forall q | from <= q < p :: q in used
    decreases PUBLISHED_PORT_RANGE_END + 1 - from
  {
    if from > PUBLISHED_PORT_RANGE_END || from !in used then from else NextFree(used, from + 1)
  }

  lemma NextFreeStep(used: set<int>, from: int)
    requires PORT_RANGE_START <= from <= PUBLISHED_PORT_RANGE_END
    ensures NextFree(used, from) == if from !in used then from else NextFree(used, from + 1)
  {
  }

  function NextPair(used: set<int>): (r: Pair) {
    var prod := NextFree(used, PORT_RANGE_START);
    if prod > PUBLISHED_PORT_RANGE_END then NoPair
    else
      var dev := NextFree(used, prod + 1);
      if dev > PUBLISHED_PORT_RANGE_END then NoPair else Pair(prod, dev)
  }

  ghost predicate Free(used: set<int>, p: int) {
    PORT_RANGE_START <= p <= PUBLISHED_PORT_RANGE_END && p !in used
  }

  /** For any rows, legacy ones included: the pair is the two lowest free ports, lower one first, and
      there is none exactly when fewer than two ports are free. */
  lemma PairIsTwoLowestFree(used: set<int>)
    ensures
      match NextPair(used)
      case Pair(prod, dev) =>
        && prod < dev && Free(used, prod) && Free(used, dev)
        && forall p | Free(used, p) :: p == prod || dev <= p
      case NoPair => forall p, q | Free(used, p) && Free(used, q) :: p == q
  {
  }

  /** Store.Create: name check, then allocation, then the insert guarded by the unique name. */
  function CreateOutcome(rows: Rows, name: string): (r: Outcome) {
    if !MatchesSlug(name) then InvalidName
    else if HasSuffix(name, DEV_SUFFIX) then ReservedNameSuffix
    else if NextPair(Used(rows)).NoPair? then NoPortAvailable
    else if exists id :: id in rows && rows[id].name == name then DuplicateName
    else Created
  }

  function Create(rows: Rows, id: Id, name: string): (r: Rows) {
    if id in rows || CreateOutcome(rows, name) != Created then rows
    else
      var pair := NextPair(Used(rows));
      rows[id := Row(name, Port(pair.prod), Port(pair.dev))]
  }

  // ---- The same on rows and ports ----------------------------------------------------------------

  /** Either environment of some project holds the port. */
  ghost predicate Held(rows: Rows, p: int) {
    exists i :: i in rows && (rows[i].prod == Port(p) || rows[i].dev == Port(p))
  }

  ghost predicate InRange(p: int) {
    10000 <= p <= 10199
  }

  lemma UsedIsHeld(rows: Rows)
    ensures forall p :: p in Used(rows) <==> Held(rows, p)
  {
    forall p ensures p in Used(rows) <==> Held(rows, p) {
      if p in Used(rows) {
        var id :| id in rows && p in PortSet(rows[id].prod) + PortSet(rows[id].dev);
        assert rows[id].prod == Port(p) || rows[id].dev == Port(p);
      }
      if Held(rows, p) {
        var i :| i in rows && (rows[i].prod == Port(p) || rows[i].dev == Port(p));
        assert p in PortSet(rows[i].prod) + PortSet(rows[i].dev);
      }
    }
  }

  /** At most one port of the range is held by nobody. */
  ghost predicate Crowded(rows: Rows) {
    forall p, q | InRange(p) && InRange(q) && !Held(rows, p) && !Held(rows, q) :: p == q
  }

  /** For arbitrary rows, legacy ones included: a created row holds two ports of the range that nobody held
      in either environment, PROD the lower one, and every lower port of the range was held. */
  lemma CreatedPortsWereFree(rows: Rows, id: Id, name: string)
    requires id !in rows && CreateOutcome(rows, name) == Created
    ensures
      var created := Create(rows, id, name);
      && created.Keys == rows.Keys + {id} && (forall i | i in rows :: created[i] == rows[i])
      && created[id].name == name && created[id].prod.Port? && created[id].dev.Port?
      && var prod, dev := created[id].prod.number, created[id].dev.number;
         && InRange(prod) && InRange(dev) && prod < dev && !Held(rows, prod) && !Held(rows, dev)
         && forall p | InRange(p) && p < dev && p != prod :: Held(rows, p)
  {
    hide Used, NextPair, Held;
    UsedIsHeld(rows);
    PairIsTwoLowestFree(Used(rows));
    var pair := NextPair(Used(rows));
    assert Free(Used(rows), pair.prod) && Free(Used(rows), pair.dev);
    forall p | InRange(p) && p < pair.dev && p != pair.prod ensures Held(rows, p) {
      assert !Free(Used(rows), p);
    }
  }

  /** Allocation fails exactly when fewer than two ports of the range are held by nobody. */
  lemma CrowdedIffNoPair(rows: Rows)
    ensures NextPair(Used(rows)).NoPair? <==> Crowded(rows)
  {
    hide Used, NextPair, Held;
    UsedIsHeld(rows);
    PairIsTwoLowestFree(Used(rows));
    if NextPair(Used(rows)).Pair? {
      var pair := NextPair(Used(rows));
      assert Free(Used(rows), pair.prod) && Free(Used(rows), pair.dev);
      assert InRange(pair.prod) && InRange(pair.dev);
    } else {
      forall p, q | InRange(p) && InRange(q) && !Held(rows, p) && !Held(rows, q) ensures p == q {
        assert Free(Used(rows), p) && Free(Used(rows), q);
      }
    }
  }

  const LETTERS: string := "abcdefghijklmnopqrstuvwxyz"

  const DIGITS: string := "0123456789"

  const LETTERS_AND_DIGITS: string := LETTERS + DIGITS

  lemma LettersAre(c: char)
    ensures c in LETTERS <==> 'a' <= c <= 'z'
  {
    assert forall i | 0 <= i < 26 :: LETTERS[i] == 'a' + i as char;
    if 'a' <= c <= 'z' {
      assert LETTERS[(c - 'a') as int] == c;
    }
  }

  lemma DigitsAre(c: char)
    ensures c in DIGITS <==> '0' <= c <= '9'
  {
    assert forall i | 0 <= i < 10 :: DIGITS[i] == '0' + i as char;
    if '0' <= c <= '9' {
      assert DIGITS[(c - '0') as int] == c;
    }
  }

  lemma Alphabets(c: char)
    ensures IsLower(c) <==> c in LETTERS
    ensures IsAlnum(c) <==> c in LETTERS_AND_DIGITS
  {
    var letters, digits := LETTERS, DIGITS;
    LettersAre(c);
    DigitsAre(c);
    InAppend(letters, digits, c);
  }

  /** The pattern, spelled with its alphabets. */
  ghost predicate Slug(name: string) {
    && 2 <= |name| <= 63 && name[0] in LETTERS && name[|name| - 1] in LETTERS_AND_DIGITS
    && forall i | 0 <= i < |name| :: name[i] in LETTERS_AND_DIGITS + "-"
  }

  lemma SlugIsPattern(name: string)
    ensures Slug(name) <==> MatchesSlug(name)
  {
    hide IsLower, IsAlnum;
    forall i | 0 <= i < |name|
      ensures IsLower(name[i]) <==> name[i] in LETTERS
      ensures IsAlnum(name[i]) <==> name[i] in LETTERS_AND_DIGITS
      ensures IsAlnum(name[i]) || name[i] == '-' <==> name[i] in LETTERS_AND_DIGITS + "-"
    {
      Alphabets(name[i]);
      InAppend(LETTERS_AND_DIGITS, "-", name[i]);
    }
  }

  ghost predicate EndsInDev(name: string) {
    exists base: string :: name == base + "-dev"
  }

  lemma SuffixIsEnding(name: string)
    ensures HasSuffix(name, DEV_SUFFIX) <==> EndsInDev(name)
  {
    if HasSuffix(name, DEV_SUFFIX) {
      assert name == TrimSuffix(name, DEV_SUFFIX) + "-dev";
    }
    if EndsInDev(name) {
      var base: string :| name == base + "-dev";
      TrimOfAppend(base, DEV_SUFFIX);
    }
  }

  /** Which failure gives which error, and which of several comes first. */
  lemma OutcomeTable(rows: Rows, name: string)
    ensures
      var taken := exists i :: i in rows && rows[i].name == name;
      CreateOutcome(rows, name) ==
        if !Slug(name) then InvalidName
        else if EndsInDev(name) then ReservedNameSuffix
        else if Crowded(rows) then NoPortAvailable
        else if taken then DuplicateName
        else Created
  {
    hide MatchesSlug, Slug, EndsInDev, HasSuffix, NextPair, Used, Crowded;
    SlugIsPattern(name);
    SuffixIsEnding(name);
    CrowdedIffNoPair(rows);
  }

  datatype Event = CreateProject(id: Id, name: string) | DeleteProject(id: Id)

  function Apply(rows: Rows, e: Event): (r: Rows) {
    match e
    case CreateProject(id, name) => Create(rows, id, name)
    case DeleteProject(id) => rows - {id}
  }

  function Run(es: seq<Event>): (r: Rows) {
    if es == [] then map[] else Apply(Run(es[..|es| - 1]), es[|es| - 1])
  }

  /** Which rows there are after a step: a create adds its row exactly when it succeeds, a delete takes its row
      away, and every other row stays what it was. */
  lemma StepRows(rows: Rows, e: Event, i: Id)
    ensures
      var after := Apply(rows, e);
      && (i in after <==>
          match e
          case CreateProject(id, name) => i in rows || (i == id && CreateOutcome(rows, name) == Created)
          case DeleteProject(id) => i in rows && i != id)
      && (i in after && i in rows ==> after[i] == rows[i])
  {
    hide CreateOutcome, Used, NextPair;
  }

  // ---- The shape every reachable store has -------------------------------------------------------

  /** PROD even and in range, DEV right above it. */
  ghost predicate AlignedPair(row: Row) {
    && row.prod.Port? && row.dev == Port(row.prod.number + 1)
    && PORT_RANGE_START <= row.prod.number < PUBLISHED_PORT_RANGE_END && row.prod.number % 2 == 0
  }

  ghost predicate PortsAligned(rows: Rows) {
    && (forall id | id in rows :: AlignedPair(rows[id]))
    && (forall i, j | i in rows && j in rows && i != j :: rows[i].prod != rows[j].prod)
  }

  ghost predicate NamesOk(rows: Rows) {
    && (forall id | id in rows :: ValidName(rows[id].name))
    && (forall i, j | i in rows && j in rows && i != j :: rows[i].name != rows[j].name)
  }

  ghost predicate Aligned(rows: Rows) {
    PortsAligned(rows) && NamesOk(rows)
  }

  /** Some project's PROD port is p. */
  ghost predicate HasProd(rows: Rows, p: int) {
    exists id :: id in rows && rows[id].prod == Port(p)
  }

  /** A used port belongs to the project whose PROD port is that port or the even one below it. */
  lemma UsedWhenAligned(rows: Rows, p: int)
    requires PortsAligned(rows)
    ensures p in Used(rows) <==> HasProd(rows, p - p % 2)
  {
    if p in Used(rows) {
      var id :| id in rows && p in PortSet(rows[id].prod) + PortSet(rows[id].dev);
      assert AlignedPair(rows[id]);
      assert rows[id].prod == Port(p - p % 2);
    }
    if HasProd(rows, p - p % 2) {
      var id :| id in rows && rows[id].prod == Port(p - p % 2);
      assert AlignedPair(rows[id]);
      assert p in PortSet(rows[id].prod) + PortSet(rows[id].dev);
    }
  }

  /** In an aligned store the two lowest free ports are a pair of neighbours starting at an even one. */
  lemma AllocatedPairIsAligned(rows: Rows)
    requires PortsAligned(rows) && NextPair(Used(rows)).Pair?
    ensures
      var pair := NextPair(Used(rows));
      pair.prod % 2 == 0 && pair.dev == pair.prod + 1 && !HasProd(rows, pair.prod)
  {
    hide Used, PortsAligned, HasProd;
    var used := Used(rows);
    var prod := NextFree(used, PORT_RANGE_START);
    UsedWhenAligned(rows, prod);
    UsedWhenAligned(rows, prod - 1);
    UsedWhenAligned(rows, prod + 1);
  }

  lemma InsertKeepsPorts(rows: Rows, id: Id, row: Row)
    requires PortsAligned(rows) && AlignedPair(row) && forall i | i in rows :: rows[i].prod != row.prod
    ensures PortsAligned(rows[id := row])
  {
    hide AlignedPair;
  }

  lemma InsertKeepsNames(rows: Rows, id: Id, row: Row)
    requires NamesOk(rows) && ValidName(row.name) && forall i | i in rows :: rows[i].name != row.name
    ensures NamesOk(rows[id := row])
  {
    hide ValidName;
  }

  lemma CreateKeepsAligned(rows: Rows, id: Id, name: string)
    requires Aligned(rows)
    ensures Aligned(Create(rows, id, name))
  {
    if id in rows || CreateOutcome(rows, name) != Created {
      return;
    }
    AllocatedPairIsAligned(rows);
    PairIsTwoLowestFree(Used(rows));
    var pair := NextPair(Used(rows));
    var row := Row(name, Port(pair.prod), Port(pair.dev));
    assert ValidName(name) && forall i | i in rows :: rows[i].name != name;
    assert forall i | i in rows :: rows[i].prod != row.prod;
    hide NextPair, Used, ValidName, HasProd, PortsAligned, NamesOk;
    InsertKeepsPorts(rows, id, row);
    InsertKeepsNames(rows, id, row);
  }

  /** From an empty store, every sequence of creates and deletes leaves aligned, pairwise distinct port
      pairs inside 10000-10199, and distinct valid names. */
  lemma {:induction false} EveryRunIsAligned(es: seq<Event>)
    ensures Aligned(Run(es))
  {
    if es != [] {
      var rows, e := Run(es[..|es| - 1]), es[|es| - 1];
      EveryRunIsAligned(es[..|es| - 1]);
      hide Create;
      if e.CreateProject? {
        CreateKeepsAligned(rows, e.id, e.name);
      }
    }
  }

  /** All ports of an aligned store, PROD and DEV together, are pairwise distinct. */
  lemma PortsAreDistinct(rows: Rows, i: Id, j: Id)
    requires PortsAligned(rows) && i in rows && j in rows
    ensures rows[i].prod != rows[j].dev
    ensures i != j ==> rows[i].prod != rows[j].prod && rows[i].dev != rows[j].dev
  {
  }

  // ---- Capacity: exactly one hundred projects ----------------------------------------------------

  /** The first n even ports of the range. */
  ghost function EvenPorts(n: nat): (r: set<int>) {
    if n == 0 then {} else EvenPorts(n - 1) + {PORT_RANGE_START + 2 * (n - 1)}
  }

  lemma {:induction false} EvenPortsAre(n: nat)
    ensures |EvenPorts(n)| == n
    ensures forall p :: p in EvenPorts(n) <==> PORT_RANGE_START <= p < PORT_RANGE_START + 2 * n && p % 2 == 0
  {
    if n > 0 {
      EvenPortsAre(n - 1);
    }
  }

  ghost function ProdPorts(rows: Rows): (r: set<int>)
    requires PortsAligned(rows)
  {
    set id | id in rows :: (assert AlignedPair(rows[id]); rows[id].prod.number)
  }

  lemma ProdPortsAre(rows: Rows, p: int)
    requires PortsAligned(rows)
    ensures p in ProdPorts(rows) <==> HasProd(rows, p)
    ensures HasProd(rows, p) ==> PORT_RANGE_START <= p < PUBLISHED_PORT_RANGE_END && p % 2 == 0
  {
  }

  lemma {:induction false} OneProdPortEach(rows: Rows)
    requires PortsAligned(rows)
    ensures |ProdPorts(rows)| == |rows|
    decreases |rows|
  {
    if rows.Keys == {} {
      assert rows == map[] && ProdPorts(rows) == {};
    } else {
      var id :| id in rows.Keys;
      var rest := rows - {id};
      assert AlignedPair(rows[id]) && |rest| == |rows| - 1;
      OneProdPortEach(rest);
      var p := rows[id].prod.number;
      forall q ensures q in ProdPorts(rows) <==> q in ProdPorts(rest) || q == p {
        ProdPortsAre(rows, q);
        ProdPortsAre(rest, q);
        OneMore(rows, id, q);
      }
      assert ProdPorts(rows) == ProdPorts(rest) + {p};
      ProdPortsAre(rest, p);
    }
  }

  lemma OneMore(rows: Rows, id: Id, q: int)
    requires id in rows
    ensures HasProd(rows, q) <==> HasProd(rows - {id}, q) || rows[id].prod == Port(q)
  {
    if HasProd(rows, q) && rows[id].prod != Port(q) {
      var i :| i in rows && rows[i].prod == Port(q);
      assert i in rows - {id};
    }
  }

  /** A subset is smaller than the set exactly when something is missing from it. */
  lemma SubsetSize<T(0)>(a: set<T>, b: set<T>) returns (p: T)
    requires a <= b
    ensures |a| <= |b| && (|a| == |b| ==> a == b) && (|a| < |b| ==> p in b && p !in a)
  {
    var rest := b - a;
    assert b == a + rest && a * rest == {};
    p := *;
    if |rest| > 0 {
      p :| p in rest;
    }
  }

  /** In a store built by creates and deletes, allocation fails exactly when 100 projects exist. */
  lemma FullAtOneHundred(rows: Rows)
    requires PortsAligned(rows)
    ensures |rows| <= 100
    ensures NextPair(Used(rows)).NoPair? <==> |rows| == 100
  {
    hide PortsAligned, HasProd, ProdPorts, EvenPorts, Used, NextPair;
    var all, taken := EvenPorts(100), ProdPorts(rows);
    OneProdPortEach(rows);
    EvenPortsAre(100);
    forall p | p in taken ensures p in all {
      ProdPortsAre(rows, p);
    }
    var missing := SubsetSize(taken, all);
    PairIsTwoLowestFree(Used(rows));
    if |rows| == 100 {
      forall p | PORT_RANGE_START <= p <= PUBLISHED_PORT_RANGE_END ensures p in Used(rows) {
        ProdPortsAre(rows, p - p % 2);
        UsedWhenAligned(rows, p);
      }
    } else {
      ProdPortsAre(rows, missing);
      UsedWhenAligned(rows, missing);
      UsedWhenAligned(rows, missing + 1);
      assert Free(Used(rows), missing) && Free(Used(rows), missing + 1);
    }
  }

  // ---- The store object --------------------------------------------------------------------------

  class Store {
    var rows: Rows

    constructor ()
      ensures rows == map[]
    {
      rows := map[];
    }

    /** usedPortsTx: one pass over all rows. */
    method UsedPorts() returns (used: set<int>)
      ensures used == Used(rows)
      ensures forall p :: p in used <==> Held(rows, p)
    {
      UsedIsHeld(rows);
      used := {};
      var todo := rows.Keys;
      while todo != {}
        invariant todo <= rows.Keys
        invariant forall p :: p in used <==>
                    exists id :: id in rows && id !in todo && p in PortSet(rows[id].prod) + PortSet(rows[id].dev)
        decreases todo
      {
        var id :| id in todo;
        todo := todo - {id};
        used := used + PortSet(rows[id].prod) + PortSet(rows[id].dev);
      }
      assert forall p :: p in used <==> p in Used(rows);
    }

    /** nextAvailablePortPairTx: a single upward scan that stops at the second free port. */
    method NextAvailablePortPair() returns (r: Pair)
      ensures r == NextPair(Used(rows))
    {
      hide NextFree, Used;
      var used := UsedPorts();
      var pair := [];
      var port := PORT_RANGE_START;
      while port <= PUBLISHED_PORT_RANGE_END
        invariant PORT_RANGE_START <= port <= PUBLISHED_PORT_RANGE_END + 1 && |pair| <= 1
        invariant |pair| == 0 ==> NextFree(used, PORT_RANGE_START) == NextFree(used, port)
        invariant |pair| == 1 ==> pair[0] < port && pair[0] == NextFree(used, PORT_RANGE_START)
        invariant |pair| == 1 ==> NextFree(used, pair[0] + 1) == NextFree(used, port)
      {
        NextFreeStep(used, port);
        if port !in used {
          pair := pair + [port];
          if |pair| == 2 {
            return Pair(pair[0], pair[1]);
          }
        }
        port := port + 1;
      }
      return NoPair;
    }

    method CreateProject(id: Id, name: string) returns (r: Outcome)
      requires id !in rows
      modifies this
      ensures r == CreateOutcome(old(rows), name) && rows == Create(old(rows), id, name)
      ensures r == Created <==> id in rows
      ensures r != Created ==> rows == old(rows)
    {
      if !MatchesSlug(name) {
        return InvalidName;
      }
      if HasSuffix(name, DEV_SUFFIX) {
        return ReservedNameSuffix;
      }
      var pair := NextAvailablePortPair();
      if pair.NoPair? {
        return NoPortAvailable;
      }
      if exists i :: i in rows && rows[i].name == name {
        return DuplicateName;
      }
      rows := rows[id := Row(name, Port(pair.prod), Port(pair.dev))];
      return Created;
    }

    method DeleteProject(id: Id) returns (found: bool)
      modifies this
      ensures found == (id in old(rows)) && rows == old(rows) - {id}
    {
      found := id in rows;
      rows := rows - {id};
    }
  }
}
