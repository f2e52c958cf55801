/** Migration consolidation of cmd/sng-migrate/squash.go. A directory entry is
    given with its name already split by the file-name pattern; the text of a
    migration is opaque and its effect on a database is any function. */
module Squash {
  import opened Options
  import opened Ordering

  const VERSION_LIMIT: nat := 0x1_0000_0000

  datatype Direction = Up | Down

  // Other: a name the migration pattern does not match.
  datatype Entry =
    | Directory(name: string)
    | Other(name: string, sqlSuffix: bool)
    | Migration(name: string, version: nat, direction: Direction, content: Option<string>)

  datatype File = File(version: nat, name: string, sql: string)

  datatype Plan = Plan(ups: seq<File>, downs: seq<File>, maxVersion: nat)

  datatype Refusal =
    | Unrecognized(x: Entry)
    | VersionRange(x: Entry)
    | Unreadable(x: Entry)
    | Duplicate(x: Entry, y: Entry)
    | NoDown(x: Entry)
    | NoUp(x: Entry)

  // ---------------------------------------------------------- what a listing means

  predicate InCut(version: nat, through: nat) { through == 0 || version <= through }

  predicate Kept(x: Entry, through: nat, direction: Direction) {
    x.Migration? && x.direction == direction && InCut(x.version, through)
  }

  function FileOf(x: Entry): File
    requires x.Migration? && x.content.Some?
  {
    File(x.version, x.name, x.content.value)
  }

  // The faults of a directory, as a set of entries.
  ghost predicate Fault(dir: set<Entry>, through: nat, e: Refusal) {
    match e
    case Unrecognized(x) => x in dir && x.Other? && x.sqlSuffix
    case VersionRange(x) => x in dir && x.Migration? && x.version >= VERSION_LIMIT
    case Unreadable(x) => x in dir && x.Migration? && InCut(x.version, through) && x.content.None?
    case Duplicate(x, y) =>
      && x in dir && y in dir && x != y && x.Migration? && Kept(x, through, x.direction)
      && Kept(y, through, x.direction) && x.version == y.version
    case NoDown(x) =>
      x in dir && Kept(x, through, Up) && forall y <- dir :: Kept(y, through, Down) ==> y.version != x.version
    case NoUp(x) =>
      x in dir && Kept(x, through, Down) && forall y <- dir :: Kept(y, through, Up) ==> y.version != x.version
  }

  ghost predicate Clean(dir: set<Entry>, through: nat) {
    forall e: Refusal :: !Fault(dir, through, e)
  }

  ghost predicate Ascends(s: seq<File>) {
    forall i, j :: 0 <= i < j < |s| ==> s[i].version < s[j].version
  }

  // s holds exactly the files of the kept entries of one direction.
  ghost predicate Holds(dir: set<Entry>, through: nat, direction: Direction, s: seq<File>) {
    && (forall x <- dir :: Kept(x, through, direction) ==> x.content.Some? && FileOf(x) in s)
    && (forall f <- s :: exists x <- dir :: IsFileOf(x, f, through, direction))
  }

  ghost predicate IsFileOf(x: Entry, f: File, through: nat, direction: Direction) {
    Kept(x, through, direction) && x.content.Some? && FileOf(x) == f
  }

  // ... in strictly ascending version order.
  ghost predicate Lists(dir: set<Entry>, through: nat, direction: Direction, s: seq<File>) {
    Holds(dir, through, direction, s) && Ascends(s)
  }

  ghost predicate IsMax(dir: set<Entry>, through: nat, max: nat) {
    && (forall x <- dir :: x.Migration? && InCut(x.version, through) ==> x.version <= max)
    && (max == 0 || exists x <- dir :: x.Migration? && InCut(x.version, through) && x.version == max)
  }

  ghost predicate IsPlan(dir: set<Entry>, through: nat, p: Plan) {
    Lists(dir, through, Up, p.ups) && Lists(dir, through, Down, p.downs) && IsMax(dir, through, p.maxVersion)
  }

  ghost function Entries(listing: seq<Entry>): set<Entry> { set x | x in listing }

  // A file system never lists one name twice.
  ghost predicate DistinctNames(listing: seq<Entry>) {
    forall i, j :: 0 <= i < j < |listing| ==> listing[i].name != listing[j].name
  }

  // ------------------------------------------------------------- sorting by version

  predicate VersionLe(a: File, b: File) { a.version <= b.version }
  predicate VersionGe(a: File, b: File) { a.version >= b.version }

  lemma VersionOrders()
    ensures TotalOrder(VersionLe) && TotalOrder(VersionGe)
  {}

  // One file per version, stated on the multiset so that sorting keeps it.
  ghost predicate Distinct(s: seq<File>) {
    && (forall f <- s :: multiset(s)[f] == 1)
    && (forall f <- s, g <- s :: f.version == g.version ==> f == g)
  }

  lemma DistinctAt(s: seq<File>, i: nat, j: nat)
    requires Distinct(s) && i < j < |s|
    ensures s[i].version != s[j].version
  {
    if s[i] == s[j] { CountedTwice(s, i, j); }
  }

  lemma CountedTwice(s: seq<File>, i: nat, j: nat)
    requires i < j < |s| && s[i] == s[j]
    ensures multiset(s)[s[i]] >= 2
  {
    assert s == s[..j] + ([s[j]] + s[j + 1..]);
    assert s[i] in s[..j];
  }

  lemma DistinctAppend(s: seq<File>, f: File)
    requires Distinct(s) && forall g <- s :: g.version != f.version
    ensures Distinct(s + [f])
  {
    var t := s + [f];
    assert f !in s;
    forall g | g in t ensures multiset(t)[g] == 1 {
      assert multiset(t) == multiset(s) + multiset{f};
    }
  }

  lemma DistinctPermute(s: seq<File>, t: seq<File>)
    requires Distinct(s) && multiset(t) == multiset(s)
    ensures Distinct(t) && forall f :: f in s <==> f in t
  {
    assert forall f :: f in t <==> f in multiset(t);
    assert forall f :: f in s <==> f in multiset(s);
  }

  lemma AscendsDistinct(s: seq<File>)
    requires Ascends(s)
    ensures Distinct(s)
    decreases |s|
  {
    if s == [] {
    } else {
      var k := |s| - 1;
      AscendsDistinct(s[..k]);
      assert s == s[..k] + [s[k]];
      DistinctAppend(s[..k], s[k]);
    }
  }

  lemma {:induction false} SortedAscends(s: seq<File>)
    requires Distinct(s)
    ensures Ascends(Sort(s, VersionLe)) && forall f :: f in s <==> f in Sort(s, VersionLe)
  {
    hide Distinct, Sort;
    VersionOrders();
    var t := Sort(s, VersionLe);
    SortAscends(s, VersionLe);
    SortPermutes(s, VersionLe);
    DistinctPermute(s, t);
    forall i, j | 0 <= i < j < |t| ensures t[i].version < t[j].version {
      DistinctAt(t, i, j);
      assert VersionLe(t[i], t[j]);
    }
  }

  /** A strictly ascending list is determined by its elements. */
  lemma {:induction false} AscendingUnique(s: seq<File>, t: seq<File>)
    requires Ascends(s) && Ascends(t) && forall f :: f in s <==> f in t
    ensures s == t
  {
    if s == [] {
      if t != [] { HasMember(t); }
    } else {
      assert s[0] in t && t != [];
      var i :| 0 <= i < |t| && t[i] == s[0];
      assert t[0] in s;
      var j :| 0 <= j < |s| && s[j] == t[0];
      assert s[0] == t[0];
      forall f ensures f in s[1..] <==> f in t[1..] { TailMembers(s, f); TailMembers(t, f); }
      AscendingUnique(s[1..], t[1..]);
    }
  }

  lemma HasMember(s: seq<File>)
    requires s != []
    ensures exists f :: f in s
  {
    assert s[0] in s;
  }

  lemma TailMembers(s: seq<File>, f: File)
    requires s != [] && Ascends(s)
    ensures f in s[1..] <==> f in s && f != s[0]
  {
    if f in s[1..] {
      var i :| 0 <= i < |s[1..]| && s[1..][i] == f;
      assert s[i + 1] == f;
    }
  }

  // -------------------------------------------------------------------- collecting

  // Loop state: what has been kept of the entries read so far.
  ghost predicate Gathered(dir: set<Entry>, through: nat, direction: Direction, s: seq<File>, seen: map<nat, Entry>) {
    && Holds(dir, through, direction, s) && Distinct(s)
    && (forall f <- s :: f.version in seen)
    && (forall v <- seen :: seen[v] in dir && Kept(seen[v], through, direction) && v == seen[v].version)
  }

  // No fault that one entry, or a pair of them, can show.
  ghost predicate WellFormed(dir: set<Entry>, through: nat) {
    forall e: Refusal :: Fault(dir, through, e) ==> e.NoDown? || e.NoUp?
  }

  lemma GatherSkip(dir: set<Entry>, through: nat, direction: Direction, s: seq<File>, seen: map<nat, Entry>, x: Entry)
    requires Gathered(dir, through, direction, s, seen) && !Kept(x, through, direction)
    ensures Gathered(dir + {x}, through, direction, s, seen)
  {
    forall f | f in s ensures exists y <- dir + {x} :: IsFileOf(y, f, through, direction) {
      var y :| y in dir && IsFileOf(y, f, through, direction);
      assert y in dir + {x};
    }
  }

  lemma GatherAdd(dir: set<Entry>, through: nat, direction: Direction, s: seq<File>, seen: map<nat, Entry>, x: Entry)
    requires Gathered(dir, through, direction, s, seen) && Kept(x, through, direction) && x.content.Some?
    requires x.version !in seen
    ensures Gathered(dir + {x}, through, direction, s + [FileOf(x)], seen[x.version := x])
  {
    var t := s + [FileOf(x)];
    DistinctAppend(s, FileOf(x));
    forall f | f in t ensures exists y <- dir + {x} :: IsFileOf(y, f, through, direction) {
      if f in s {
        var y :| y in dir && IsFileOf(y, f, through, direction);
        assert y in dir + {x};
      } else {
        assert IsFileOf(x, f, through, direction);
      }
    }
  }

  // Reading one more faultless entry keeps the directory read so far faultless.
  lemma WellFormedAdd(dir: set<Entry>, through: nat, x: Entry)
    requires WellFormed(dir, through)
    requires !(x.Other? && x.sqlSuffix) && (x.Migration? ==> x.version < VERSION_LIMIT)
    requires x.Migration? && InCut(x.version, through) ==> x.content.Some?
    requires x.Migration? && InCut(x.version, through) ==>
               forall y <- dir :: Kept(y, through, x.direction) ==> y.version != x.version
    ensures WellFormed(dir + {x}, through)
  {
    forall e: Refusal | Fault(dir + {x}, through, e) ensures e.NoDown? || e.NoUp? {
      if !e.NoDown? && !e.NoUp? { assert Fault(dir, through, e); }
    }
  }

  method CollectSquashFiles(listing: seq<Entry>, through: nat) returns (r: Result<Plan, Refusal>)
    requires DistinctNames(listing)
    ensures r.Err? ==> Fault(Entries(listing), through, r.error)
    ensures r.Ok? ==> Clean(Entries(listing), through) && IsPlan(Entries(listing), through, r.value)
  {
    hide Gathered, WellFormed, Fault, IsMax, Holds, Clean;
    var ups: seq<File>, downs: seq<File>, max: nat := [], [], 0;
    var seenUp: map<nat, Entry>, seenDown: map<nat, Entry> := map[], map[];
    ghost var dir: set<Entry> := {};
    StartsEmpty(through);
    for i := 0 to |listing|
      invariant dir == Entries(listing[..i])
      invariant WellFormed(dir, through) && IsMax(dir, through, max)
      invariant Gathered(dir, through, Up, ups, seenUp) && Gathered(dir, through, Down, downs, seenDown)
    {
      var x := listing[i];
      ghost var dir0 := dir;
      dir := dir0 + {x};
      ReadOne(listing, i);
      if x.Directory? || (x.Other? && !x.sqlSuffix) ||
         (x.Migration? && x.version < VERSION_LIMIT && !InCut(x.version, through)) {
        StepOver(dir0, through, x, max);
        GatherSkip(dir0, through, Up, ups, seenUp, x);
        GatherSkip(dir0, through, Down, downs, seenDown, x);
        continue;
      }
      if x.Other? { NamedFault(listing, through, x); return Err(Unrecognized(x)); }
      if x.version >= VERSION_LIMIT { NamedFault(listing, through, x); return Err(VersionRange(x)); }
      if x.content.None? { NamedFault(listing, through, x); return Err(Unreadable(x)); }
      if x.direction == Up {
        if x.version in seenUp {
          PairFault(listing, i, through, ups, seenUp);
          return Err(Duplicate(seenUp[x.version], x));
        }
        StepKeep(dir0, through, ups, seenUp, x, max);
        GatherAdd(dir0, through, Up, ups, seenUp, x);
        GatherSkip(dir0, through, Down, downs, seenDown, x);
        seenUp, ups := seenUp[x.version := x], ups + [FileOf(x)];
      } else {
        if x.version in seenDown {
          PairFault(listing, i, through, downs, seenDown);
          return Err(Duplicate(seenDown[x.version], x));
        }
        StepKeep(dir0, through, downs, seenDown, x, max);
        GatherAdd(dir0, through, Down, downs, seenDown, x);
        GatherSkip(dir0, through, Up, ups, seenUp, x);
        seenDown, downs := seenDown[x.version := x], downs + [FileOf(x)];
      }
      if x.version > max { max := x.version; }
    }
    assert listing[..|listing|] == listing;
    var lonely := FirstUnpaired(seenUp, seenDown);
    if lonely.Some? {
      UnpairedFault(dir, through, Up, ups, seenUp, downs, seenDown, lonely.value);
      return Err(NoDown(seenUp[lonely.value]));
    }
    lonely := FirstUnpaired(seenDown, seenUp);
    if lonely.Some? {
      UnpairedFault(dir, through, Down, downs, seenDown, ups, seenUp, lonely.value);
      return Err(NoUp(seenDown[lonely.value]));
    }
    PairedIsClean(dir, through, ups, seenUp, downs, seenDown);
    SortedLists(dir, through, Up, ups, seenUp);
    SortedLists(dir, through, Down, downs, seenDown);
    return Ok(Plan(Sort(ups, VersionLe), Sort(downs, VersionLe), max));
  }

  // Any version of the first map that the second lacks; map order is arbitrary.
  method FirstUnpaired(seen: map<nat, Entry>, other: map<nat, Entry>) returns (v: Option<nat>)
    ensures v.Some? ==> v.value in seen && v.value !in other
    ensures v.None? ==> forall k <- seen :: k in other
  {
    var left := seen.Keys;
    while left != {}
      invariant left <= seen.Keys
      invariant forall k <- seen :: k in left || k in other
      decreases left
    {
      var k :| k in left;
      if k !in other { return Some(k); }
      left := left - {k};
    }
    return None;
  }

  lemma StartsEmpty(through: nat)
    ensures WellFormed({}, through) && IsMax({}, through, 0)
    ensures Entries([]) == {}
    ensures Gathered({}, through, Up, [], map[]) && Gathered({}, through, Down, [], map[])
  {}

  lemma ReadOne(listing: seq<Entry>, i: nat)
    requires i < |listing|
    ensures Entries(listing[..i + 1]) == Entries(listing[..i]) + {listing[i]}
    ensures Entries(listing[..i]) + {listing[i]} <= Entries(listing)
  {
    assert listing[..i + 1] == listing[..i] + [listing[i]];
  }

  lemma StepOver(dir: set<Entry>, through: nat, x: Entry, max: nat)
    requires WellFormed(dir, through) && IsMax(dir, through, max)
    requires x.Directory? || (x.Other? && !x.sqlSuffix) ||
             (x.Migration? && x.version < VERSION_LIMIT && !InCut(x.version, through))
    ensures WellFormed(dir + {x}, through) && IsMax(dir + {x}, through, max)
  {
    hide WellFormed, Fault;
    WellFormedAdd(dir, through, x);
    if max != 0 {
      var y :| y in dir && y.Migration? && InCut(y.version, through) && y.version == max;
      assert y in dir + {x};
    }
  }

  lemma StepKeep(dir: set<Entry>, through: nat, s: seq<File>, seen: map<nat, Entry>, x: Entry, max: nat)
    requires WellFormed(dir, through) && IsMax(dir, through, max)
    requires x.Migration? && Kept(x, through, x.direction) && x.version < VERSION_LIMIT && x.content.Some?
    requires Gathered(dir, through, x.direction, s, seen) && x.version !in seen
    ensures WellFormed(dir + {x}, through)
    ensures IsMax(dir + {x}, through, if x.version > max then x.version else max)
  {
    hide WellFormed, Fault, Distinct;
    forall y | y in dir && Kept(y, through, x.direction) ensures y.version != x.version {
      assert FileOf(y) in s;
    }
    WellFormedAdd(dir, through, x);
    if x.version <= max && max != 0 {
      var y :| y in dir && y.Migration? && InCut(y.version, through) && y.version == max;
      assert y in dir + {x};
    }
  }

  lemma NamedFault(listing: seq<Entry>, through: nat, x: Entry)
    requires x in listing
    ensures x.Other? && x.sqlSuffix ==> Fault(Entries(listing), through, Unrecognized(x))
    ensures x.Migration? && x.version >= VERSION_LIMIT ==> Fault(Entries(listing), through, VersionRange(x))
    ensures x.Migration? && InCut(x.version, through) && x.content.None? ==>
              Fault(Entries(listing), through, Unreadable(x))
  {}

  lemma PairFault(listing: seq<Entry>, i: nat, through: nat, s: seq<File>, seen: map<nat, Entry>)
    requires DistinctNames(listing) && i < |listing|
    requires listing[i].Migration? && Kept(listing[i], through, listing[i].direction)
    requires listing[i].version in seen
    requires Gathered(Entries(listing[..i]), through, listing[i].direction, s, seen)
    ensures Fault(Entries(listing), through, Duplicate(seen[listing[i].version], listing[i]))
  {
    hide Distinct, Holds;
    var x := listing[i];
    var y := seen[x.version];
    var j :| 0 <= j < i && listing[..i][j] == y;
    assert listing[j] == y && y.name != x.name;
  }

  lemma UnpairedFault(dir: set<Entry>, through: nat, direction: Direction, s: seq<File>, seen: map<nat, Entry>,
                      s': seq<File>, seen': map<nat, Entry>, v: nat)
    requires Gathered(dir, through, direction, s, seen)
    requires Gathered(dir, through, if direction == Up then Down else Up, s', seen')
    requires v in seen && v !in seen'
    ensures Fault(dir, through, if direction == Up then NoDown(seen[v]) else NoUp(seen[v]))
  {
    hide Distinct;
    var other := if direction == Up then Down else Up;
    forall y | y in dir && Kept(y, through, other) ensures y.version != v {
      assert FileOf(y) in s';
    }
  }

  lemma PairedIsClean(dir: set<Entry>, through: nat, ups: seq<File>, seenUp: map<nat, Entry>,
                      downs: seq<File>, seenDown: map<nat, Entry>)
    requires WellFormed(dir, through)
    requires Gathered(dir, through, Up, ups, seenUp) && Gathered(dir, through, Down, downs, seenDown)
    requires (forall k <- seenUp :: k in seenDown) && (forall k <- seenDown :: k in seenUp)
    ensures Clean(dir, through)
  {
    hide Distinct;
    forall x | x in dir && Kept(x, through, Up)
      ensures exists y <- dir :: Kept(y, through, Down) && y.version == x.version
    {
      assert FileOf(x) in ups;
      assert Kept(seenDown[x.version], through, Down);
    }
    forall x | x in dir && Kept(x, through, Down)
      ensures exists y <- dir :: Kept(y, through, Up) && y.version == x.version
    {
      assert FileOf(x) in downs;
      assert Kept(seenUp[x.version], through, Up);
    }
  }

  lemma {:induction false} SortedLists(dir: set<Entry>, through: nat, direction: Direction, s: seq<File>,
                                       seen: map<nat, Entry>)
    requires Gathered(dir, through, direction, s, seen)
    ensures Lists(dir, through, direction, Sort(s, VersionLe))
  {
    hide Distinct, Sort;
    SortedAscends(s);
  }

  // ------------------------------------------------------ properties of collecting

  // Clean is decided by the collector, both ways.
  lemma FaultIsUnclean(dir: set<Entry>, through: nat, e: Refusal)
    requires Fault(dir, through, e)
    ensures !Clean(dir, through)
  {}

  lemma {:induction false} ListsUnique(dir: set<Entry>, through: nat, direction: Direction, s: seq<File>, t: seq<File>)
    requires Lists(dir, through, direction, s) && Lists(dir, through, direction, t)
    ensures s == t
  {
    forall f ensures f in s <==> f in t { }
    AscendingUnique(s, t);
  }

  /** The plan is a function of the directory, not of the order it is listed in. */
  lemma PlanUnique(dir: set<Entry>, through: nat, p: Plan, q: Plan)
    requires IsPlan(dir, through, p) && IsPlan(dir, through, q)
    ensures p == q
  {
    hide Lists;
    ListsUnique(dir, through, Up, p.ups, q.ups);
    ListsUnique(dir, through, Down, p.downs, q.downs);
  }

  // Two listings of one directory: both refused, or the same plan.
  method CollectTwice(listing: seq<Entry>, listing': seq<Entry>, through: nat)
    returns (r: Result<Plan, Refusal>, r': Result<Plan, Refusal>)
    requires DistinctNames(listing) && DistinctNames(listing')
    requires multiset(listing) == multiset(listing')
    ensures r.Ok? <==> r'.Ok?
    ensures r.Ok? ==> r == r'
  {
    hide Fault, IsPlan, Clean;
    assert Entries(listing) == Entries(listing') by {
      assert forall x :: x in listing <==> x in multiset(listing);
      assert forall x :: x in listing' <==> x in multiset(listing');
    }
    r := CollectSquashFiles(listing, through);
    r' := CollectSquashFiles(listing', through);
    if r.Err? { FaultIsUnclean(Entries(listing), through, r.error); }
    if r'.Err? { FaultIsUnclean(Entries(listing), through, r'.error); }
    if r.Ok? && r'.Ok? { PlanUnique(Entries(listing), through, r.value, r'.value); }
  }

  // The migration lies within the cut; zero means no cut.
  predicate Within(x: Entry, through: nat) {
    x.Migration? && (through == 0 || x.version <= through)
  }

  ghost predicate Readable(dir: set<Entry>, through: nat) {
    forall x <- dir ::
      && (x.Other? ==> !x.sqlSuffix) && (x.Migration? ==> x.version < 4294967296)
      && (Within(x, through) ==> x.content.Some?)
  }

  ghost predicate OnePerVersion(dir: set<Entry>, through: nat) {
    forall x <- dir, y <- dir :: Within(x, through) && Within(y, through) && SameSlot(x, y) ==> x == y
  }

  predicate SameSlot(x: Entry, y: Entry)
    requires x.Migration? && y.Migration?
  {
    x.version == y.version && x.direction == y.direction
  }

  ghost predicate Paired(dir: set<Entry>, through: nat) {
    forall x <- dir :: Within(x, through) ==> exists y <- dir :: Opposite(x, y)
  }

  predicate Opposite(x: Entry, y: Entry) {
    x.Migration? && y.Migration? && y.version == x.version && y.direction != x.direction
  }

  /** A clean directory, in full: no SQL file with another kind of name, every
      version below 2^32, and within the cut every file readable, one file per
      version and direction, and both directions of each version. */
  lemma CleanExact(dir: set<Entry>, through: nat)
    ensures Clean(dir, through) <==> Readable(dir, through) && OnePerVersion(dir, through) && Paired(dir, through)
  {
    if Clean(dir, through) {
      CleanMeansReadable(dir, through);
      CleanMeansPaired(dir, through);
    }
    if Readable(dir, through) && OnePerVersion(dir, through) && Paired(dir, through) {
      forall e: Refusal ensures !Fault(dir, through, e) { NoFault(dir, through, e); }
    }
  }

  lemma CleanMeansReadable(dir: set<Entry>, through: nat)
    requires Clean(dir, through)
    ensures Readable(dir, through) && OnePerVersion(dir, through)
  {
    forall x | x in dir ensures
      && (x.Other? ==> !x.sqlSuffix) && (x.Migration? ==> x.version < 4294967296)
      && (Within(x, through) ==> x.content.Some?)
    {
      assert !Fault(dir, through, Unrecognized(x));
      assert !Fault(dir, through, VersionRange(x));
      assert !Fault(dir, through, Unreadable(x));
    }
    forall x, y | x in dir && y in dir && Within(x, through) && Within(y, through) && SameSlot(x, y) ensures x == y {
      assert !Fault(dir, through, Duplicate(x, y));
    }
  }

  lemma CleanMeansPaired(dir: set<Entry>, through: nat)
    requires Clean(dir, through)
    ensures Paired(dir, through)
  {
    forall x | x in dir && Within(x, through) ensures exists y <- dir :: Opposite(x, y) {
      if x.direction == Up {
        assert !Fault(dir, through, NoDown(x));
        var y :| y in dir && Kept(y, through, Down) && y.version == x.version;
        assert Opposite(x, y);
      } else {
        assert !Fault(dir, through, NoUp(x));
        var y :| y in dir && Kept(y, through, Up) && y.version == x.version;
        assert Opposite(x, y);
      }
    }
  }

  lemma NoFault(dir: set<Entry>, through: nat, e: Refusal)
    requires Readable(dir, through) && OnePerVersion(dir, through) && Paired(dir, through)
    ensures !Fault(dir, through, e)
  {
    hide Readable, OnePerVersion, Paired, Fault;
    match e
    case NoDown(x) => NotLonely(dir, through, x);
    case NoUp(x) => NotLonely(dir, through, x);
    case Duplicate(x, y) => NotDoubled(dir, through, x, y);
    case _ => NotMalformed(dir, through, e);
  }

  lemma NotLonely(dir: set<Entry>, through: nat, x: Entry)
    requires Paired(dir, through)
    ensures !Fault(dir, through, NoDown(x)) && !Fault(dir, through, NoUp(x))
  {
    if x in dir && Within(x, through) {
      var y :| y in dir && Opposite(x, y);
      assert Kept(y, through, y.direction) && y.version == x.version;
    }
  }

  lemma NotDoubled(dir: set<Entry>, through: nat, x: Entry, y: Entry)
    requires OnePerVersion(dir, through)
    ensures !Fault(dir, through, Duplicate(x, y))
  {
    if x in dir && y in dir && Within(x, through) && Within(y, through) { assert SameSlot(x, y) ==> x == y; }
  }

  lemma NotMalformed(dir: set<Entry>, through: nat, e: Refusal)
    requires Readable(dir, through) && (e.Unrecognized? || e.VersionRange? || e.Unreadable?)
    ensures !Fault(dir, through, e)
  {
    assert e.x in dir && Within(e.x, through) ==> e.x.content.Some?;
  }

  // x is a readable migration of one direction within the cut, and f its file.
  predicate Supplies(x: Entry, f: File, through: nat, direction: Direction) {
    && Within(x, through) && x.direction == direction
    && x.content == Some(f.sql) && x.version == f.version && x.name == f.name
  }

  // Every migration within the cut supplies a file, and every file is supplied.
  ghost predicate AllSupplied(dir: set<Entry>, through: nat, d: Direction, s: seq<File>) {
    && (forall x <- dir :: Within(x, through) && x.direction == d ==> exists f <- s :: Supplies(x, f, through, d))
    && (forall f <- s :: exists x <- dir :: Supplies(x, f, through, d))
  }

  /** A listed direction, in full: exactly the files of its migrations within the
      cut, each readable, by rising version. */
  lemma ListsExact(dir: set<Entry>, through: nat, d: Direction, s: seq<File>)
    ensures Lists(dir, through, d, s) <==>
            AllSupplied(dir, through, d, s) && forall i, j :: 0 <= i < j < |s| ==> s[i].version < s[j].version
  {
    hide Holds, AllSupplied;
    if Holds(dir, through, d, s) { HoldsSupplied(dir, through, d, s); }
    if AllSupplied(dir, through, d, s) { SuppliedHolds(dir, through, d, s); }
  }

  lemma HoldsSupplied(dir: set<Entry>, through: nat, d: Direction, s: seq<File>)
    requires Holds(dir, through, d, s)
    ensures AllSupplied(dir, through, d, s)
  {
    forall x | x in dir && Within(x, through) && x.direction == d ensures exists f <- s :: Supplies(x, f, through, d) {
      assert Kept(x, through, d);
      assert Supplies(x, FileOf(x), through, d);
    }
    forall f | f in s ensures exists x <- dir :: Supplies(x, f, through, d) {
      var x :| x in dir && IsFileOf(x, f, through, d);
      assert Supplies(x, f, through, d);
    }
  }

  lemma SuppliedHolds(dir: set<Entry>, through: nat, d: Direction, s: seq<File>)
    requires AllSupplied(dir, through, d, s)
    ensures Holds(dir, through, d, s)
  {
    forall x | x in dir && Kept(x, through, d) ensures x.content.Some? && FileOf(x) in s {
      var f :| f in s && Supplies(x, f, through, d);
      assert FileOf(x) == f;
    }
    forall f | f in s ensures exists x <- dir :: IsFileOf(x, f, through, d) {
      var x :| x in dir && Supplies(x, f, through, d);
      assert IsFileOf(x, f, through, d);
    }
  }

  /** A directory that squashes whole also squashes up to any cut. */
  lemma CutKeepsClean(dir: set<Entry>, through: nat)
    requires Clean(dir, 0)
    ensures Clean(dir, through)
  {
    forall e: Refusal ensures !Fault(dir, through, e) {
      assert !Fault(dir, 0, e);
    }
  }

  // ------------------------------------------------------------------- rendering

  function TrimNewlines(s: string): (r: string)
    ensures r <= s && (r == [] || r[|r| - 1] != '\n')
    ensures forall i :: |r| <= i < |s| ==> s[i] == '\n'
  {
    if s != [] && s[|s| - 1] == '\n' then TrimNewlines(s[..|s| - 1]) else s
  }

  function Bar(n: nat): (r: string)
    ensures |r| == n && forall c :: c in r ==> c == '='
  {
    if n == 0 then [] else ['='] + Bar(n - 1)
  }

  function Rule(): string { "-- " + Bar(75) + "\n" }

  function Banner(f: File): string { Rule() + "-- " + f.name + "\n" + Rule() }

  // One file of a baseline: a comment naming it, its text without trailing
  // newlines, and a blank line.
  function Section(f: File): string {
    Banner(f) + TrimNewlines(f.sql) + "\n" + "\n"
  }

  function Sections(files: seq<File>): string {
    if files == [] then [] else Section(files[0]) + Sections(files[1..])
  }

  lemma {:induction false} SectionsAppend(files: seq<File>, f: File)
    ensures Sections(files + [f]) == Sections(files) + Section(f)
  {
    hide Section;
    if files == [] {
      assert files + [f] == [f] && [f][1..] == [];
    } else {
      assert (files + [f])[1..] == files[1..] + [f];
      SectionsAppend(files[1..], f);
    }
  }

  function Reversed<T>(s: seq<T>): (r: seq<T>)
    ensures |r| == |s|
    ensures forall i :: 0 <= i < |s| ==> r[i] == s[|s| - 1 - i]
  {
    seq(|s|, i requires 0 <= i < |s| => s[|s| - 1 - i])
  }

  /** The generated comment lines at the top are `header`. */
  method RenderBaseline(files: seq<File>, reverse: bool, header: string) returns (text: string)
    ensures text == header + Sections(if reverse then Sort(files, VersionGe) else Sort(files, VersionLe))
    ensures Ascends(files) ==> text == header + Sections(if reverse then Reversed(files) else files)
    ensures Ascends(files) && (forall f <- files :: '\n' !in f.name) ==>
              var rendered := if reverse then Reversed(files) else files;
              exists offsets :: HoldsSql(text, |header|, rendered, offsets)
  {
    hide Sort, Ascends, Section, Sections;
    var ordered := if reverse then Sort(files, VersionGe) else Sort(files, VersionLe);
    if Ascends(files) {
      if reverse { DescendingIsReversed(files); } else { AscendingIsSorted(files); }
    }
    text := AppendSections(header, ordered);
    if Ascends(files) && forall f <- files :: '\n' !in f.name {
      forall f | f in ordered ensures '\n' !in f.name { if reverse { ReversedMembers(files, f); } }
      ghost var offsets := BaselineText(header, ordered);
    }
  }

  method AppendSections(header: string, ordered: seq<File>) returns (text: string)
    ensures text == header + Sections(ordered)
  {
    hide Section, Sections;
    text := header;
    NoSections(header);
    for i := 0 to |ordered|
      invariant text == header + Sections(ordered[..i])
    {
      NextSection(header, ordered, i);
      text := text + Section(ordered[i]);
    }
    assert ordered[..|ordered|] == ordered;
  }

  lemma NoSections(header: string)
    ensures header + Sections([]) == header
  {
    assert Sections([]) == [];
  }

  lemma NextSection(header: string, ordered: seq<File>, i: nat)
    requires i < |ordered|
    ensures header + Sections(ordered[..i]) + Section(ordered[i]) == header + Sections(ordered[..i + 1])
  {
    hide Section, Sections;
    SectionsAppend(ordered[..i], ordered[i]);
    assert ordered[..i + 1] == ordered[..i] + [ordered[i]];
    Associates(header, Sections(ordered[..i]), Section(ordered[i]));
  }

  lemma Associates(a: string, b: string, c: string)
    ensures a + b + c == a + (b + c)
  {}

  lemma {:induction false} AscendingIsSorted(s: seq<File>)
    requires Ascends(s)
    ensures Sort(s, VersionLe) == s
  {
    hide Sort;
    AscendsDistinct(s);
    SortedAscends(s);
    AscendingUnique(s, Sort(s, VersionLe));
  }

  lemma {:induction false} DescendingIsReversed(s: seq<File>)
    requires Ascends(s)
    ensures Sort(s, VersionGe) == Reversed(s)
  {
    hide Sort, Distinct, Ascends, Ascending;
    var t := Sort(s, VersionGe);
    assert Ascending(t, VersionGe) by {
      VersionOrders();
      SortAscends(s, VersionGe);
    }
    AscendsDistinct(s);
    SortPermutes(s, VersionGe);
    DistinctPermute(s, t);
    ReversedAscends(t);
    forall f ensures f in Reversed(t) <==> f in s { ReversedMembers(t, f); }
    AscendingUnique(s, Reversed(t));
    assert Reversed(Reversed(t)) == t;
  }

  lemma ReversedAscends(t: seq<File>)
    requires Distinct(t) && Ascending(t, VersionGe)
    ensures Ascends(Reversed(t))
  {
    hide Distinct;
    var u := Reversed(t);
    forall i, j | 0 <= i < j < |u| ensures u[i].version < u[j].version {
      DistinctAt(t, |t| - 1 - j, |t| - 1 - i);
      assert VersionGe(t[|t| - 1 - j], t[|t| - 1 - i]);
    }
  }

  lemma ReversedMembers<T>(s: seq<T>, f: T)
    ensures f in Reversed(s) <==> f in s
  {
    if f in s {
      var i :| 0 <= i < |s| && s[i] == f;
      assert Reversed(s)[|s| - 1 - i] == f;
    }
  }

  // ---------------------------------------------------------- what the text holds

  // What follows the first line of a text.
  function AfterLine(g: string): (r: string)
    ensures g != [] ==> |r| < |g|
  {
    if g == [] then [] else if g[0] == '\n' then g[1..] else AfterLine(g[1..])
  }

  predicate IsComment(g: string) { |g| >= 2 && g[0] == '-' && g[1] == '-' }

  // Whole lines, each empty or a comment.
  predicate Skippable(g: string)
    decreases |g|
  {
    g == [] || ('\n' in g && (g[0] == '\n' || IsComment(g)) && Skippable(AfterLine(g)))
  }

  lemma {:induction false} AfterLineConcat(a: string, b: string)
    requires '\n' in a
    ensures AfterLine(a + b) == AfterLine(a) + b
  {
    if a[0] == '\n' {
      assert (a + b)[1..] == a[1..] + b;
    } else {
      assert (a + b)[1..] == a[1..] + b;
      AfterLineConcat(a[1..], b);
    }
  }

  lemma {:induction false} SkippableConcat(a: string, b: string)
    requires Skippable(a) && Skippable(b)
    ensures Skippable(a + b)
    decreases |a|
  {
    if a == [] {
      assert a + b == b;
    } else {
      AfterLineConcat(a, b);
      SkippableConcat(AfterLine(a), b);
      assert IsComment(a) ==> IsComment(a + b);
    }
  }

  lemma {:induction false} LineIsSkipped(x: string)
    requires '\n' !in x
    ensures AfterLine(x + "\n") == []
  {
    if x == [] {
    } else {
      assert (x + "\n")[1..] == x[1..] + "\n";
      LineIsSkipped(x[1..]);
    }
  }

  lemma {:induction false} CommentIsSkippable(x: string)
    requires '\n' !in x && IsComment(x)
    ensures Skippable(x + "\n")
  {
    LineIsSkipped(x);
    assert (x + "\n")[|x|] == '\n';
    assert IsComment(x + "\n");
  }

  lemma RuleIsSkippable()
    ensures Skippable(Rule())
  {
    hide Bar;
    var x: string := "-- " + Bar(75);
    assert forall c :: c in x ==> c in "-- " || c in Bar(75);
    CommentIsSkippable(x);
  }

  lemma BannerIsSkippable(f: File)
    requires '\n' !in f.name
    ensures Skippable(Banner(f))
  {
    hide Skippable, Rule;
    var line: string := "-- " + f.name;
    RuleIsSkippable();
    CommentIsSkippable(line);
    SkippableConcat(line + "\n", Rule());
    SkippableConcat(Rule(), line + "\n" + Rule());
    Regroup(Rule(), "-- ", f.name, "\n", Rule());
  }

  lemma Regroup(a: string, b: string, c: string, d: string, e: string)
    ensures a + b + c + d + e == a + (b + c + d + e)
  {}

  lemma BlankIsSkippable()
    ensures Skippable("\n") && Skippable("\n" + "\n")
  {
    assert AfterLine("\n") == [];
    SkippableConcat("\n", "\n");
  }

  // From `start` on, the text holds each file's SQL without its trailing
  // newlines, one after the other at the given offsets, and between them only
  // comment lines and blank lines.
  ghost predicate HoldsSql(text: string, start: nat, files: seq<File>, offsets: seq<nat>)
    decreases |files|
  {
    if files == [] then offsets == [] && start <= |text| && Skippable(text[start..])
    else
      var body := TrimNewlines(files[0].sql);
      && offsets != [] && start <= offsets[0] && offsets[0] + |body| <= |text|
      && Skippable(text[start..offsets[0]])
      && text[offsets[0]..offsets[0] + |body|] == body
      && HoldsSql(text, offsets[0] + |body|, files[1..], offsets[1..])
  }

  lemma {:induction false} SectionsHoldSql(pre: string, gap: string, files: seq<File>) returns (offsets: seq<nat>)
    requires Skippable(gap) && forall f <- files :: '\n' !in f.name
    ensures HoldsSql(pre + gap + Sections(files), |pre|, files, offsets)
    decreases |files|
  {
    hide Skippable, Sections, Banner, HoldsSql, TwoBlanks, TrimNewlines;
    if files == [] {
      offsets := [];
      HoldsNone(pre, gap);
    } else {
      var f := files[0];
      var rest := SectionsHoldSql(pre + gap + Banner(f) + TrimNewlines(f.sql), TwoBlanks(), files[1..]);
      BannerIsSkippable(f);
      SkippableConcat(gap, Banner(f));
      FirstSection(pre, gap, files);
      offsets := [|pre| + |gap| + |Banner(f)|] + rest;
      HoldsFirst(pre + gap + Sections(files), |pre|, files, |pre| + |gap| + |Banner(f)|, rest);
    }
  }

  lemma {:induction false} HoldsNone(pre: string, gap: string)
    requires Skippable(gap)
    ensures HoldsSql(pre + gap + Sections([]), |pre|, [], [])
  {
    hide Skippable;
    assert (pre + gap + Sections([]))[|pre|..] == gap;
  }

  // Where the first file's SQL lies.
  lemma {:induction false} FirstSection(pre: string, gap: string, files: seq<File>)
    requires files != []
    ensures var text, banner, body := pre + gap + Sections(files), Banner(files[0]), TrimNewlines(files[0].sql);
            var at := |pre| + |gap| + |banner|;
            && text == pre + gap + banner + body + TwoBlanks() + Sections(files[1..])
            && at + |body| <= |text| && |pre + gap + banner + body| == at + |body|
            && text[|pre|..at] == gap + banner && text[at..at + |body|] == body
  {
    var banner, body, more := Banner(files[0]), TrimNewlines(files[0].sql), Sections(files[1..]);
    assert Sections(files) == banner + body + "\n" + "\n" + more;
    hide Sections, Banner, Skippable;
    SplitText(pre, gap, banner, body, more);
  }

  lemma {:induction false} HoldsFirst(text: string, start: nat, files: seq<File>, at: nat, rest: seq<nat>)
    requires files != [] && start <= at && at + |TrimNewlines(files[0].sql)| <= |text|
    requires Skippable(text[start..at])
    requires text[at..at + |TrimNewlines(files[0].sql)|] == TrimNewlines(files[0].sql)
    requires HoldsSql(text, at + |TrimNewlines(files[0].sql)|, files[1..], rest)
    ensures HoldsSql(text, start, files, [at] + rest)
  {
    hide Skippable;
    assert ([at] + rest)[1..] == rest;
  }

  function TwoBlanks(): (r: string)
    ensures Skippable(r) && r == "\n" + "\n"
  {
    BlankIsSkippable();
    "\n" + "\n"
  }

  lemma SplitText(pre: string, gap: string, banner: string, body: string, rest: string)
    ensures var text := pre + gap + (banner + body + "\n" + "\n" + rest);
            var at := |pre| + |gap| + |banner|;
            && text == pre + gap + banner + body + ("\n" + "\n") + rest
            && text[|pre|..at] == gap + banner
            && text[at..at + |body|] == body
            && |pre + gap + banner + body| == at + |body|
  {}

  /** The baseline is its header, then every file's SQL in the rendered order and
      nothing else but comments and blank lines. */
  lemma BaselineText(header: string, files: seq<File>) returns (offsets: seq<nat>)
    requires forall f <- files :: '\n' !in f.name
    ensures HoldsSql(header + Sections(files), |header|, files, offsets)
  {
    hide HoldsSql, Sections;
    offsets := SectionsHoldSql(header, [], files);
    assert header + [] + Sections(files) == header + Sections(files);
  }

  // ---------------------------------------------------------------- what it does

  // Replaying the individual files.
  function Replay<S>(run: (S, string) -> S, db: S, files: seq<File>): S {
    if files == [] then db else run(Replay(run, db, files[..|files| - 1]), files[|files| - 1].sql)
  }

  // Running a text skips leading comment and blank lines, and no text does nothing.
  ghost predicate SkipsComments<S(!new)>(run: (S, string) -> S) {
    && (forall db: S, g: string, rest: string ::
          Skippable(g) ==> run(db, g + rest) == run(db, rest))
    && (forall db: S :: run(db, []) == db)
  }

  function Followed(sql: string, rest: string): string { sql + "\n" + rest }

  // The last statement of the SQL is ended: with a newline and more text behind
  // it, the two run in turn. SQL that is not would run on into what follows.
  ghost predicate Ended<S(!new)>(run: (S, string) -> S, sql: string) {
    forall db: S, rest: string :: run(db, Followed(sql, rest)) == run(run(db, sql), rest)
  }

  // What consolidation asks of a file: a name on one line, as the file-name
  // pattern ensures, and SQL whose last statement is ended.
  ghost predicate Consolidable<S(!new)>(run: (S, string) -> S, f: File) {
    '\n' !in f.name && Ended(run, TrimNewlines(f.sql))
  }

  // Trailing newlines do nothing.
  lemma TrimRuns<S(!new)>(run: (S, string) -> S, db: S, f: File)
    requires SkipsComments(run) && Consolidable(run, f)
    ensures run(db, f.sql) == run(db, TrimNewlines(f.sql))
  {
    var t := TrimNewlines(f.sql);
    if |t| < |f.sql| {
      var blanks := f.sql[|t| + 1..];
      assert f.sql == Followed(t, blanks) by { assert f.sql[|t|] == '\n'; }
      NewlinesSkippable(blanks);
      assert run(run(db, t), blanks) == run(db, t) by {
        assert blanks + [] == blanks;
        assert run(run(db, t), blanks + []) == run(run(db, t), []);
      }
    } else {
      assert t == f.sql;
    }
  }

  lemma {:induction false} NewlinesSkippable(s: string)
    requires forall i :: 0 <= i < |s| ==> s[i] == '\n'
    ensures Skippable(s)
    decreases |s|
  {
    if s == [] {
    } else {
      NewlinesSkippable(s[1..]);
      assert AfterLine(s) == s[1..];
    }
  }

  lemma SectionRuns<S(!new)>(run: (S, string) -> S, db: S, f: File, rest: string)
    requires SkipsComments(run) && Consolidable(run, f)
    ensures run(db, Section(f) + rest) == run(run(db, f.sql), rest)
  {
    hide Skippable, Banner;
    var t := TrimNewlines(f.sql);
    BannerIsSkippable(f);
    BlankIsSkippable();
    TrimRuns(run, db, f);
    assert Section(f) + rest == Banner(f) + Followed(t, "\n" + rest);
    assert run(db, Followed(t, "\n" + rest)) == run(run(db, t), "\n" + rest);
  }

  lemma {:induction false} SectionsReplay<S(!new)>(run: (S, string) -> S, db: S, files: seq<File>)
    requires SkipsComments(run) && forall f <- files :: Consolidable(run, f)
    ensures run(db, Sections(files)) == Replay(run, db, files)
  {
    if files == [] {
    } else {
      hide Section, Consolidable;
      var f := files[0];
      SectionRuns(run, db, f, Sections(files[1..]));
      SectionsReplay(run, run(db, f.sql), files[1..]);
      ReplayConcat(run, db, [f], files[1..]);
      assert [f] + files[1..] == files;
      ReplayOne(run, db, f);
    }
  }

  lemma ReplayOne<S>(run: (S, string) -> S, db: S, f: File)
    ensures Replay(run, db, [f]) == run(db, f.sql)
  {
    assert [f][..0] == [];
  }

  /** Running a baseline text is replaying its files. */
  lemma {:induction false} BaselineReplay<S(!new)>(run: (S, string) -> S, db: S, header: string, files: seq<File>)
    requires SkipsComments(run) && Skippable(header) && forall f <- files :: Consolidable(run, f)
    ensures run(db, header + Sections(files)) == Replay(run, db, files)
  {
    hide Consolidable, Sections, Replay, Skippable;
    SectionsReplay(run, db, files);
  }

  lemma {:induction false} ReplayConcat<S>(run: (S, string) -> S, db: S, a: seq<File>, b: seq<File>)
    ensures Replay(run, db, a + b) == Replay(run, Replay(run, db, a), b)
  {
    if b == [] {
      assert a + b == a;
    } else {
      var k := |b| - 1;
      ReplayConcat(run, db, a, b[..k]);
      assert (a + b)[..|a + b| - 1] == a + b[..k];
    }
  }

  function Later(files: seq<File>, version: nat): seq<File> {
    if files == [] then []
    else (if files[0].version > version then [files[0]] else []) + Later(files[1..], version)
  }

  ghost predicate IsUpTo(cut: seq<File>, full: seq<File>, version: nat) {
    forall f :: f in cut <==> f in full && f.version <= version
  }

  lemma SameFirst(full: seq<File>, cut: seq<File>, version: nat)
    requires Ascends(full) && Ascends(cut) && IsUpTo(cut, full, version)
    requires full != [] && full[0].version <= version
    ensures cut != [] && cut[0] == full[0] && IsUpTo(cut[1..], full[1..], version)
  {
    assert full[0] in full && full[0] in cut;
    assert cut[0] in cut && cut[0] in full;
    forall f ensures f in cut[1..] <==> f in full[1..] && f.version <= version {
      TailMembers(full, f);
      TailMembers(cut, f);
    }
  }

  // An ascending list splits at any version into the files up to it and after it.
  lemma {:induction false} AscendingSplits(full: seq<File>, cut: seq<File>, version: nat)
    requires Ascends(full) && Ascends(cut) && IsUpTo(cut, full, version)
    ensures full == cut + Later(full, version)
  {
    if full == [] || full[0].version > version {
      AllLater(full, version);
      if cut != [] { HasMember(cut); }
    } else {
      SameFirst(full, cut, version);
      hide IsUpTo;
      AscendingSplits(full[1..], cut[1..], version);
    }
  }

  lemma {:induction false} AllLater(s: seq<File>, version: nat)
    requires s != [] ==> s[0].version > version
    requires Ascends(s)
    ensures Later(s, version) == s
    ensures forall f <- s :: f.version > version
  {
    if s == [] {
    } else {
      AllLater(s[1..], version);
    }
  }

  lemma CutIsUpTo(dir: set<Entry>, through: nat, p: Plan, full: seq<File>)
    requires IsPlan(dir, through, p) && Lists(dir, 0, Up, full)
    ensures IsUpTo(p.ups, full, p.maxVersion)
  {
    forall f ensures f in p.ups <==> f in full && f.version <= p.maxVersion {
      if f in p.ups {
        var x :| x in dir && IsFileOf(x, f, through, Up);
        assert Kept(x, 0, Up);
      }
      if f in full && f.version <= p.maxVersion {
        var x :| x in dir && IsFileOf(x, f, 0, Up);
        if p.maxVersion != 0 {
          var y :| y in dir && y.Migration? && InCut(y.version, through) && y.version == p.maxVersion;
        }
        assert Kept(x, through, Up);
      }
    }
  }

  /** A fresh database that applies the baseline text and then, as the baseline's
      recorded version directs, every migration above it, ends in the state of
      the full ordered replay, whatever the migrations do, as long as each
      consolidated one ends its last statement. */
  lemma {:induction false} BaselineThenRest<S(!new)>(dir: set<Entry>, through: nat, p: Plan, full: seq<File>,
                                                     header: string, run: (S, string) -> S, db: S)
    requires IsPlan(dir, through, p) && Lists(dir, 0, Up, full)
    requires SkipsComments(run) && Skippable(header) && forall f <- p.ups :: Consolidable(run, f)
    ensures Replay(run, run(db, header + Sections(p.ups)), Later(full, p.maxVersion)) == Replay(run, db, full)
  {
    CutIsUpTo(dir, through, p, full);
    hide SkipsComments, Consolidable, Skippable, Sections, Replay, Later, IsUpTo;
    AscendingSplits(full, p.ups, p.maxVersion);
    BaselineReplay(run, db, header, p.ups);
    ReplayConcat(run, db, p.ups, Later(full, p.maxVersion));
  }

  ghost predicate HasVersion(s: seq<File>, v: nat) { exists f <- s :: f.version == v }

  lemma TailVersions(s: seq<File>, v: nat)
    requires s != [] && Ascends(s)
    ensures HasVersion(s[1..], v) <==> HasVersion(s, v) && v != s[0].version
  {
    if HasVersion(s[1..], v) {
      var f :| f in s[1..] && f.version == v;
      TailMembers(s, f);
      var i :| 0 <= i < |s[1..]| && s[1..][i] == f;
      assert s[i + 1] == f;
    }
    if HasVersion(s, v) && v != s[0].version {
      var f :| f in s && f.version == v;
      TailMembers(s, f);
    }
  }

  lemma FirstIsLeast(s: seq<File>, v: nat)
    requires s != [] && Ascends(s)
    ensures HasVersion(s, s[0].version)
    ensures HasVersion(s, v) ==> s[0].version <= v
  {
    assert s[0] in s;
  }

  // The two lists pair up position by position.
  lemma {:induction false} VersionsAlign(s: seq<File>, t: seq<File>)
    requires Ascends(s) && Ascends(t) && forall v :: HasVersion(s, v) <==> HasVersion(t, v)
    ensures |s| == |t| && forall i :: 0 <= i < |s| ==> s[i].version == t[i].version
  {
    hide HasVersion;
    if s == [] || t == [] {
      if s != [] { FirstIsLeast(s, 0); NoVersion(t, s[0].version); }
      if t != [] { FirstIsLeast(t, 0); NoVersion(s, t[0].version); }
    } else {
      FirstIsLeast(s, t[0].version);
      FirstIsLeast(t, s[0].version);
      forall v ensures HasVersion(s[1..], v) <==> HasVersion(t[1..], v) {
        TailVersions(s, v);
        TailVersions(t, v);
      }
      VersionsAlign(s[1..], t[1..]);
    }
  }

  lemma NoVersion(s: seq<File>, v: nat)
    requires s == []
    ensures !HasVersion(s, v)
  {}

  lemma PlanAligned(dir: set<Entry>, through: nat, p: Plan)
    requires Clean(dir, through) && IsPlan(dir, through, p)
    ensures |p.ups| == |p.downs| && forall i :: 0 <= i < |p.ups| ==> p.ups[i].version == p.downs[i].version
  {
    forall v ensures HasVersion(p.ups, v) <==> HasVersion(p.downs, v) {
      if HasVersion(p.ups, v) {
        var f :| f in p.ups && f.version == v;
        var x :| x in dir && IsFileOf(x, f, through, Up);
        assert !Fault(dir, through, NoDown(x));
        var y :| y in dir && Kept(y, through, Down) && y.version == x.version;
        assert FileOf(y) in p.downs;
      }
      if HasVersion(p.downs, v) {
        var g :| g in p.downs && g.version == v;
        var x :| x in dir && IsFileOf(x, g, through, Down);
        assert !Fault(dir, through, NoUp(x));
        var y :| y in dir && Kept(y, through, Up) && y.version == x.version;
        assert FileOf(y) in p.ups;
      }
    }
    VersionsAlign(p.ups, p.downs);
  }

  ghost predicate Inverts<S(!new)>(run: (S, string) -> S, up: File, down: File) {
    forall db: S :: run(run(db, up.sql), down.sql) == db
  }

  lemma {:induction false} ReplayBack<S(!new)>(run: (S, string) -> S, db: S, ups: seq<File>, downs: seq<File>)
    requires |ups| == |downs| && forall i :: 0 <= i < |ups| ==> Inverts(run, ups[i], downs[i])
    ensures Replay(run, Replay(run, db, ups), Reversed(downs)) == db
  {
    hide Inverts;
    if ups == [] {
    } else {
      var k := |ups| - 1;
      var mid := Replay(run, db, ups[..k]);
      assert Reversed(downs) == [downs[k]] + Reversed(downs[..k]);
      ReplayConcat(run, Replay(run, db, ups), [downs[k]], Reversed(downs[..k]));
      UndoOne(run, mid, ups[k], downs[k]);
      ReplayBack(run, db, ups[..k], downs[..k]);
    }
  }

  lemma UndoOne<S(!new)>(run: (S, string) -> S, db: S, up: File, down: File)
    requires Inverts(run, up, down)
    ensures Replay(run, run(db, up.sql), [down]) == db
  {
    ReplayOne(run, run(db, up.sql), down);
  }

  /** If each down migration undoes its up, the down baseline undoes the up
      baseline: the reverse order is exactly right. */
  lemma {:induction false} BaselineRoundTrip<S(!new)>(dir: set<Entry>, through: nat, p: Plan, upHeader: string,
                                                      downHeader: string, run: (S, string) -> S, db: S)
    requires Clean(dir, through) && IsPlan(dir, through, p)
    requires SkipsComments(run) && Skippable(upHeader) && Skippable(downHeader)
    requires forall f <- p.ups + p.downs :: Consolidable(run, f)
    requires forall u <- p.ups, d <- p.downs :: u.version == d.version ==> Inverts(run, u, d)
    ensures run(run(db, upHeader + Sections(p.ups)), downHeader + Sections(Reversed(p.downs))) == db
  {
    hide Clean, IsPlan, Inverts, SkipsComments, Consolidable, Skippable, Sections, Replay;
    PlanAligned(dir, through, p);
    forall f | f in Reversed(p.downs) ensures Consolidable(run, f) { ReversedMembers(p.downs, f); }
    BaselineReplay(run, db, upHeader, p.ups);
    BaselineReplay(run, Replay(run, db, p.ups), downHeader, Reversed(p.downs));
    ReplayBack(run, db, p.ups, p.downs);
  }
}
