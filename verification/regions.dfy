/**
 * Region analysis: the flood fill that counts the connected clusters of one
 * colour, the scan over all squares that collects the cluster sizes per
 * colour, and the descending sort of those lists.  Everything here is a pure
 * function of the cells; the Board class runs the same computation
 * imperatively and is proved to produce these values.
 *
 * The meaning of the result is stated in terms of closed sets: a set of
 * squares is closed for a colour when no piece of that colour touches it from
 * outside.  The pieces of a colour are contiguous when the only non-empty
 * closed subset of them is the whole set.
 */
module Regions {
  import opened Types

  /** The 64 cells, indexed by square. */
  type Cells = c: seq<Piece> | |c| == 64 witness seq(64, i => EMP)

  /** The visited marks of one flood fill, indexed by square. */
  type Marks = v: seq<bool> | |v| == 64 witness seq(64, i => false)

  function NoMarks(): Marks { seq(64, i => false) }

  function Marked(v: Marks): set<int> { set i | 0 <= i < 64 && v[i] }

  function Unvisited(v: Marks): set<int> { set i | 0 <= i < 64 && !v[i] }

  /** The squares holding p. */
  function PieceSet(cells: Cells, p: Piece): set<int> { set i | 0 <= i < 64 && cells[i] == p }

  /** v2 keeps every mark of v1. */
  predicate Grows(v1: Marks, v2: Marks)
  {
    forall i | 0 <= i < 64 :: v1[i] ==> v2[i]
  }

  /** Marking an unmarked square, and maybe more, leaves fewer squares
   *  unmarked. */
  lemma FewerUnvisited(v0: Marks, v: Marks, sq: Square)
    requires !v0[sq] && v[sq] && Grows(v0, v)
    ensures Unvisited(v) < Unvisited(v0)
  {
    assert sq in Unvisited(v0) - Unvisited(v);
  }

  /** Every mark v2 adds to v1 is on a square holding p. */
  predicate NewMarksHold(cells: Cells, p: Piece, v1: Marks, v2: Marks)
  {
    forall i | 0 <= i < 64 :: v2[i] && !v1[i] ==> cells[i] == p
  }

  /** The flood fill from sq: the number of unvisited squares holding p in
   *  the cluster at sq, and the marks with those squares added.  A square
   *  that is empty, holds the other colour or is already marked counts 0. */
  function Contig(cells: Cells, v: Marks, p: Piece, sq: Square): (r: (nat, Marks))
    ensures Grows(v, r.1)
    decreases Unvisited(v), 0, 0
  {
    if p == EMP || cells[sq] != p || v[sq] then (0, v)
    else
      var v1 := v[sq := true];
      assert Unvisited(v1) == Unvisited(v) - {sq};
      var rest := ContigDirs(cells, v1, p, sq, 0);
      (1 + rest.0, rest.1)
  }

  /** The flood fill continued from the neighbours of sq in directions
   *  d..7, in that order. */
  function ContigDirs(cells: Cells, v: Marks, p: Piece, sq: Square, d: int): (r: (nat, Marks))
    requires 0 <= d <= 8
    ensures Grows(v, r.1)
    decreases Unvisited(v), 1, 8 - d
  {
    if d == 8 then (0, v)
    else
      var first := if MoveDest(sq, d, 1).None? then (0, v) else Contig(cells, v, p, MoveDest(sq, d, 1).value);
      assert Unvisited(first.1) <= Unvisited(v);
      var rest := ContigDirs(cells, first.1, p, sq, d + 1);
      (first.0 + rest.0, rest.1)
  }

  /** The flood fill marks only p-squares, marks sq itself when it holds p,
   *  and counts exactly the squares it marks. */
  lemma {:induction false} ContigMarks(cells: Cells, v: Marks, p: Piece, sq: Square)
    ensures var r := Contig(cells, v, p, sq);
      NewMarksHold(cells, p, v, r.1) && |Marked(r.1)| == |Marked(v)| + r.0 &&
      (p != EMP && cells[sq] == p ==> r.1[sq])
    decreases Unvisited(v), 0, 0
  {
    if p == EMP || cells[sq] != p || v[sq] {
    } else {
      var v1 := v[sq := true];
      assert Marked(v1) == Marked(v) + {sq};
      assert Unvisited(v1) == Unvisited(v) - {sq};
      ContigDirsMarks(cells, v1, p, sq, 0);
    }
  }

  lemma {:induction false} ContigDirsMarks(cells: Cells, v: Marks, p: Piece, sq: Square, d: int)
    requires 0 <= d <= 8
    ensures var r := ContigDirs(cells, v, p, sq, d);
      NewMarksHold(cells, p, v, r.1) && |Marked(r.1)| == |Marked(v)| + r.0
    decreases Unvisited(v), 1, 8 - d
  {
    if d < 8 {
      var first := if MoveDest(sq, d, 1).None? then (0, v) else Contig(cells, v, p, MoveDest(sq, d, 1).value);
      if MoveDest(sq, d, 1).Some? {
        ContigMarks(cells, v, p, MoveDest(sq, d, 1).value);
      }
      assert Unvisited(first.1) <= Unvisited(v);
      ContigDirsMarks(cells, first.1, p, sq, d + 1);
    }
  }

  /** A fill from an unvisited p-square marks it and continues with its
   *  neighbours. */
  lemma ContigEnter(cells: Cells, v: Marks, p: Piece, sq: Square)
    requires p != EMP && cells[sq] == p && !v[sq]
    ensures Contig(cells, v, p, sq).0 == 1 + ContigDirs(cells, v[sq := true], p, sq, 0).0
    ensures Contig(cells, v, p, sq).1 == ContigDirs(cells, v[sq := true], p, sq, 0).1
  {
  }

  /** One direction of the fill: the neighbour first, then the rest. */
  lemma ContigDirsStep(cells: Cells, v: Marks, p: Piece, sq: Square, d: int, n: nat, v': Marks)
    requires 0 <= d < 8
    requires (n, v') == if MoveDest(sq, d, 1).None? then (0, v) else Contig(cells, v, p, MoveDest(sq, d, 1).value)
    ensures ContigDirs(cells, v, p, sq, d).0 == n + ContigDirs(cells, v', p, sq, d + 1).0
    ensures ContigDirs(cells, v, p, sq, d).1 == ContigDirs(cells, v', p, sq, d + 1).1
  {
  }

  /** Every square newly marked in v2 has all its p-neighbours marked. */
  ghost predicate ClosedNew(cells: Cells, p: Piece, v1: Marks, v2: Marks)
  {
    forall x, y :: 0 <= x < 64 && v2[x] && !v1[x] && Adjacent(x, y) && cells[y] == p ==> v2[y]
  }

  /** No square holding p touches S from outside. */
  ghost predicate Closed(cells: Cells, p: Piece, S: set<int>)
  {
    forall x, y :: x in S && Adjacent(x, y) && cells[y] == p ==> y in S
  }

  /** The pieces of colour p form one region: there are some, and no proper
   *  non-empty subset of them is closed. */
  ghost predicate Contiguous(cells: Cells, p: Piece)
  {
    PieceSet(cells, p) != {} &&
    forall S :: S <= PieceSet(cells, p) && S != {} && Closed(cells, p, S) ==> S == PieceSet(cells, p)
  }

  /** The flood fill leaves no unmarked p-neighbour next to a square it marks. */
  lemma {:induction false} ContigClosed(cells: Cells, v: Marks, p: Piece, sq: Square)
    ensures ClosedNew(cells, p, v, Contig(cells, v, p, sq).1)
    decreases Unvisited(v), 0, 0
  {
    if p == EMP || cells[sq] != p || v[sq] {
    } else {
      var v1 := v[sq := true];
      assert Unvisited(v1) == Unvisited(v) - {sq};
      ContigDirsClosed(cells, v1, p, sq, 0);
      var v2 := ContigDirs(cells, v1, p, sq, 0).1;
      forall x, y | 0 <= x < 64 && v2[x] && !v[x] && Adjacent(x, y) && cells[y] == p
        ensures v2[y]
      {
        if x == sq {
          AdjacentDir(sq, y);
        }
      }
    }
  }

  lemma {:induction false} ContigDirsClosed(cells: Cells, v: Marks, p: Piece, sq: Square, d: int)
    requires 0 <= d <= 8
    ensures var v2 := ContigDirs(cells, v, p, sq, d).1;
      ClosedNew(cells, p, v, v2) &&
      (p != EMP ==> forall e: Dir | d <= e && MoveDest(sq, e, 1).Some? && cells[MoveDest(sq, e, 1).value] == p ::
                      v2[MoveDest(sq, e, 1).value])
    decreases Unvisited(v), 1, 8 - d
  {
    if d < 8 {
      var md := MoveDest(sq, d, 1);
      var first := if md.None? then (0, v) else Contig(cells, v, p, md.value);
      if md.Some? {
        ContigClosed(cells, v, p, md.value);
      }
      assert Unvisited(first.1) <= Unvisited(v);
      ContigDirsClosed(cells, first.1, p, sq, d + 1);
      var v2 := ContigDirs(cells, first.1, p, sq, d + 1).1;
      assert v2 == ContigDirs(cells, v, p, sq, d).1;
      forall x, y | 0 <= x < 64 && v2[x] && !v[x] && Adjacent(x, y) && cells[y] == p
        ensures v2[y]
      {
        if first.1[x] {
          assert first.1[y];
        }
      }
      if p != EMP {
        forall e: Dir | d <= e && MoveDest(sq, e, 1).Some? && cells[MoveDest(sq, e, 1).value] == p
          ensures v2[MoveDest(sq, e, 1).value]
        {
          if e == d {
            assert first.1[md.value];
          }
        }
      }
    }
  }

  /** Whatever the flood fill from sq marks lies in every closed set that
   *  contains sq: the squares it reaches are connected to sq. */
  lemma {:induction false} ContigWithin(cells: Cells, v: Marks, p: Piece, sq: Square, S: set<int>)
    requires Closed(cells, p, S) && sq in S
    ensures var v2 := Contig(cells, v, p, sq).1;
      forall i | 0 <= i < 64 && v2[i] && !v[i] :: i in S
    decreases Unvisited(v), 0, 0
  {
    if p == EMP || cells[sq] != p || v[sq] {
    } else {
      var v1 := v[sq := true];
      assert Unvisited(v1) == Unvisited(v) - {sq};
      ContigDirsWithin(cells, v1, p, sq, 0, S);
    }
  }

  lemma {:induction false} ContigDirsWithin(cells: Cells, v: Marks, p: Piece, sq: Square, d: int, S: set<int>)
    requires 0 <= d <= 8
    requires Closed(cells, p, S) && sq in S
    ensures var v2 := ContigDirs(cells, v, p, sq, d).1;
      forall i | 0 <= i < 64 && v2[i] && !v[i] :: i in S
    decreases Unvisited(v), 1, 8 - d
  {
    if d < 8 {
      var first := if MoveDest(sq, d, 1).None? then (0, v) else Contig(cells, v, p, MoveDest(sq, d, 1).value);
      if MoveDest(sq, d, 1).Some? {
        var nb := MoveDest(sq, d, 1).value;
        DirectionOfDest(sq, d, 1);
        if cells[nb] == p {
          assert Adjacent(sq, nb);
          ContigWithin(cells, v, p, nb, S);
        }
      }
      assert Unvisited(first.1) <= Unvisited(v);
      ContigDirsWithin(cells, first.1, p, sq, d + 1, S);
    }
  }

  /** The region sizes found so far, per colour, and the marks of the two
   *  flood fills. */
  datatype Tally = Tally(white: seq<int>, black: seq<int>, visitedWhite: Marks, visitedBlack: Marks)

  function Sizes(t: Tally, p: Piece): seq<int> { if p == WP then t.white else t.black }

  function Visits(t: Tally, p: Piece): Marks { if p == WP then t.visitedWhite else t.visitedBlack }

  /** One square of the scan: a piece starts a flood fill of its colour, and
   *  a cluster not counted before adds its size to that colour's list. */
  function ScanStep(cells: Cells, s: Square, t: Tally): Tally
  {
    if cells[s] == WP then
      AddRegion(t, WP, Contig(cells, t.visitedWhite, WP, s))
    else if cells[s] == BP then
      AddRegion(t, BP, Contig(cells, t.visitedBlack, BP, s))
    else t
  }

  /** Record a flood fill of colour p: its marks, and its size when it is
   *  not zero. */
  function AddRegion(t: Tally, p: Piece, r: (nat, Marks)): (t': Tally)
    requires p != EMP
    ensures Visits(t', p) == r.1 && Visits(t', Opposite(p)) == Visits(t, Opposite(p))
    ensures Sizes(t', Opposite(p)) == Sizes(t, Opposite(p))
  {
    var sizes := if r.0 > 0 then Sizes(t, p) + [r.0] else Sizes(t, p);
    if p == WP then Tally(sizes, t.black, r.1, t.visitedBlack)
    else Tally(t.white, sizes, t.visitedWhite, r.1)
  }

  /** The scan over squares 0 .. i-1. */
  function ScanTo(cells: Cells, i: int): Tally
    requires 0 <= i <= 64
  {
    if i == 0 then Tally([], [], NoMarks(), NoMarks()) else ScanStep(cells, i - 1, ScanTo(cells, i - 1))
  }

  function Sum(s: seq<int>): int
  {
    if s == [] then 0 else s[0] + Sum(s[1..])
  }

  predicate Descending(s: seq<int>)
  {
    forall i, j :: 0 <= i < j < |s| ==> s[i] >= s[j]
  }

  /** Insert x before the first element not above it. */
  function Insert(x: int, s: seq<int>): seq<int>
  {
    if s == [] || x >= s[0] then [x] + s
    else [s[0]] + Insert(x, s[1..])
  }

  /** The list in descending order (the sort with a reversed comparator). */
  function SortDesc(s: seq<int>): seq<int>
  {
    if s == [] then [] else Insert(s[0], SortDesc(s[1..]))
  }

  /** Inserting a value no greater than a bound into a list bounded by it
   *  keeps the list bounded. */
  lemma {:induction false} InsertBelow(x: int, s: seq<int>, b: int)
    requires x <= b && forall k | 0 <= k < |s| :: s[k] <= b
    ensures forall k | 0 <= k < |Insert(x, s)| :: Insert(x, s)[k] <= b
  {
    if s != [] && x < s[0] {
      InsertBelow(x, s[1..], b);
    }
  }

  /** Inserting into a descending list keeps it descending and adds x. */
  lemma InsertFacts(x: int, s: seq<int>)
    requires Descending(s)
    ensures var r := Insert(x, s);
      Descending(r) && multiset(r) == multiset(s) + multiset{x}
  {
    InsertDescends(x, s);
    InsertCounts(x, s);
  }

  lemma {:induction false} InsertDescends(x: int, s: seq<int>)
    requires Descending(s)
    ensures Descending(Insert(x, s))
  {
    if s != [] && x < s[0] {
      InsertDescends(x, s[1..]);
      InsertBelow(x, s[1..], s[0]);
      var t := Insert(x, s[1..]);
      var r := [s[0]] + t;
      assert Insert(x, s) == r;
      forall i, j | 0 <= i < j < |r|
        ensures r[i] >= r[j]
      {
        if i > 0 {
          assert r[i] == t[i - 1] && r[j] == t[j - 1];
        }
      }
    }
  }

  lemma {:induction false} InsertCounts(x: int, s: seq<int>)
    ensures multiset(Insert(x, s)) == multiset(s) + multiset{x}
  {
    if s != [] && x < s[0] {
      InsertCounts(x, s[1..]);
      assert s == [s[0]] + s[1..];
    }
  }

  /** Sorting gives a descending permutation. */
  lemma {:induction false} SortDescFacts(s: seq<int>)
    ensures Descending(SortDesc(s)) && multiset(SortDesc(s)) == multiset(s)
  {
    if s != [] {
      assert s == [s[0]] + s[1..];
      SortDescFacts(s[1..]);
      InsertFacts(s[0], SortDesc(s[1..]));
    }
  }

  /** The sizes of the regions of colour p, largest first.  For any other
   *  argument than WP the black list is returned, as the board does. */
  function RegionSizes(cells: Cells, p: Piece): seq<int>
  {
    SortDesc(Sizes(ScanTo(cells, 64), p))
  }

  lemma {:induction false} SumAppend(s: seq<int>, x: int)
    ensures Sum(s + [x]) == Sum(s) + x
  {
    if s != [] {
      assert (s + [x])[1..] == s[1..] + [x];
      SumAppend(s[1..], x);
    }
  }

  lemma {:induction false} SumInsert(x: int, s: seq<int>)
    requires Descending(s)
    ensures Sum(Insert(x, s)) == x + Sum(s)
  {
    if s != [] && x < s[0] {
      assert Insert(x, s)[1..] == Insert(x, s[1..]);
      SumInsert(x, s[1..]);
    }
  }

  /** Sorting does not change the total. */
  lemma {:induction false} SumSortDesc(s: seq<int>)
    ensures Sum(SortDesc(s)) == Sum(s)
  {
    if s != [] {
      SumSortDesc(s[1..]);
      SortDescFacts(s[1..]);
      SumInsert(s[0], SortDesc(s[1..]));
    }
  }

  /** A list of positive sizes has a total of at least its head, and more
   *  than its head when it has a second element. */
  lemma {:induction false} SumPositive(s: seq<int>)
    requires forall k | 0 <= k < |s| :: s[k] > 0
    ensures Sum(s) >= 0
    ensures |s| >= 1 ==> Sum(s) >= s[0]
    ensures |s| >= 2 ==> Sum(s) > s[0]
  {
    if s != [] {
      SumPositive(s[1..]);
    }
  }

  /** A subset as large as the set is the set. */
  lemma SubsetOfSameSize(A: set<int>, B: set<int>)
    requires A <= B && |A| == |B|
    ensures A == B
  {
    var C := B - A;
    assert B == A + C && A !! C;
    assert |B| == |A| + |C|;
    assert C == {};
  }

  /** The pieces of p outside a closed set of them form a closed set too. */
  lemma ComplementClosed(cells: Cells, p: Piece, S: set<int>)
    requires S <= PieceSet(cells, p) && Closed(cells, p, S)
    ensures Closed(cells, p, PieceSet(cells, p) - S)
  {
    forall x, y | x in PieceSet(cells, p) - S && Adjacent(x, y) && cells[y] == p
      ensures y in PieceSet(cells, p) - S
    {
      if y in S {
        assert Adjacent(y, x);
      }
    }
  }

  /** The first square at index i or later that holds p, or 64. */
  function FirstOf(cells: Cells, p: Piece, i: int): (f: int)
    requires 0 <= i <= 64
    ensures i <= f <= 64
    ensures f < 64 ==> cells[f] == p
    ensures forall j | i <= j < f :: cells[j] != p
    decreases 64 - i
  {
    if i == 64 then 64 else if cells[i] == p then i else FirstOf(cells, p, i + 1)
  }

  /** The cluster of the first square holding p. */
  function FirstRegion(cells: Cells, p: Piece): set<int>
    requires FirstOf(cells, p, 0) < 64
  {
    Marked(Contig(cells, NoMarks(), p, FirstOf(cells, p, 0)).1)
  }

  /** What the scan over squares 0 .. i-1 has established for colour p,
   *  given its list L and its marks V. */
  ghost predicate Facts(cells: Cells, i: int, p: Piece, L: seq<int>, V: Marks)
    requires 0 <= i <= 64
  {
    var f := FirstOf(cells, p, 0);
    (forall k | 0 <= k < |L| :: L[k] > 0) &&
    (forall j | 0 <= j < 64 :: V[j] ==> cells[j] == p) &&
    Sum(L) == |Marked(V)| &&
    (forall j | 0 <= j < i :: cells[j] == p ==> V[j]) &&
    ClosedNew(cells, p, NoMarks(), V) &&
    (f < i ==> |L| >= 1 && L[0] == |FirstRegion(cells, p)| && FirstRegion(cells, p) <= Marked(V)) &&
    (f >= i ==> L == [] && V == NoMarks())
  }

  ghost predicate ScanFacts(cells: Cells, i: int, p: Piece)
    requires 0 <= i <= 64
  {
    Facts(cells, i, p, Sizes(ScanTo(cells, i), p), Visits(ScanTo(cells, i), p))
  }

  /** How one scan step changes the list and the marks of colour p. */
  lemma ScanStepOf(cells: Cells, s: Square, t: Tally, p: Piece)
    requires p != EMP
    ensures var t' := ScanStep(cells, s, t);
      if cells[s] == p then
        var r := Contig(cells, Visits(t, p), p, s);
        Sizes(t', p) == (if r.0 > 0 then Sizes(t, p) + [r.0] else Sizes(t, p)) && Visits(t', p) == r.1
      else
        Sizes(t', p) == Sizes(t, p) && Visits(t', p) == Visits(t, p)
  {
    if cells[s] != p && cells[s] != EMP {
      assert p == Opposite(cells[s]);
    }
  }

  /** Scan step at a square not holding p. */
  lemma ScanStepOther(cells: Cells, i: int, p: Piece)
    requires 0 < i <= 64 && p != EMP && cells[i - 1] != p
    requires ScanFacts(cells, i - 1, p)
    ensures ScanFacts(cells, i, p)
  {
    var t := ScanTo(cells, i - 1);
    ScanStepOf(cells, i - 1, t, p);
    assert ScanTo(cells, i) == ScanStep(cells, i - 1, t);
    FactsPast(cells, i, p, Sizes(t, p), Visits(t, p));
  }

  /** The facts carry over a square not holding p. */
  lemma FactsPast(cells: Cells, i: int, p: Piece, L: seq<int>, V: Marks)
    requires 0 < i <= 64 && cells[i - 1] != p
    requires Facts(cells, i - 1, p, L, V)
    ensures Facts(cells, i, p, L, V)
  {
    var f := FirstOf(cells, p, 0);
    assert f != i - 1;
  }

  /** Marks closed around every square stay closed after a flood fill. */
  lemma ClosedAfterFill(cells: Cells, p: Piece, V: Marks, V': Marks)
    requires ClosedNew(cells, p, NoMarks(), V) && ClosedNew(cells, p, V, V') && Grows(V, V')
    ensures ClosedNew(cells, p, NoMarks(), V')
  {
    forall x, y | 0 <= x < 64 && V'[x] && !NoMarks()[x] && Adjacent(x, y) && cells[y] == p
      ensures V'[y]
    {
      if V[x] {
        assert V[y];
      }
    }
  }

  /** A flood fill from a square holding p keeps the facts. */
  lemma FillFacts(cells: Cells, i: int, p: Piece, L: seq<int>, V: Marks, n: nat, V': Marks)
    requires 0 < i <= 64 && p != EMP && cells[i - 1] == p
    requires Facts(cells, i - 1, p, L, V)
    requires (n, V') == Contig(cells, V, p, i - 1)
    ensures Facts(cells, i, p, if n > 0 then L + [n] else L, V')
  {
    FillMarks(cells, i, p, L, V, n, V');
    FillFirst(cells, i, p, L, V, n, V');
  }

  /** The fill keeps the list positive, its marks on p-squares and counted
   *  by the list, every p-square so far marked, and the marks closed. */
  lemma FillMarks(cells: Cells, i: int, p: Piece, L: seq<int>, V: Marks, n: nat, V': Marks)
    requires 0 < i <= 64 && p != EMP && cells[i - 1] == p
    requires Facts(cells, i - 1, p, L, V)
    requires (n, V') == Contig(cells, V, p, i - 1)
    ensures var L' := if n > 0 then L + [n] else L;
      (forall k | 0 <= k < |L'| :: L'[k] > 0) &&
      (forall j | 0 <= j < 64 :: V'[j] ==> cells[j] == p) &&
      Sum(L') == |Marked(V')| &&
      (forall j | 0 <= j < i :: cells[j] == p ==> V'[j]) &&
      ClosedNew(cells, p, NoMarks(), V')
  {
    var s := i - 1;
    ContigMarks(cells, V, p, s);
    ContigClosed(cells, V, p, s);
    ClosedAfterFill(cells, p, V, V');
    SumAppend(L, n);
    forall j | 0 <= j < i && cells[j] == p
      ensures V'[j]
    {
      if j < s {
        assert V[j];
      }
    }
  }

  /** The fill keeps the first list entry the size of the first region. */
  lemma FillFirst(cells: Cells, i: int, p: Piece, L: seq<int>, V: Marks, n: nat, V': Marks)
    requires 0 < i <= 64 && p != EMP && cells[i - 1] == p
    requires Facts(cells, i - 1, p, L, V)
    requires (n, V') == Contig(cells, V, p, i - 1)
    ensures var L' := if n > 0 then L + [n] else L;
      var f := FirstOf(cells, p, 0);
      (f < i ==> |L'| >= 1 && L'[0] == |FirstRegion(cells, p)| && FirstRegion(cells, p) <= Marked(V')) &&
      (f >= i ==> L' == [] && V' == NoMarks())
  {
    var s := i - 1;
    var f := FirstOf(cells, p, 0);
    ContigMarks(cells, V, p, s);
    assert f <= s;
    if f == s {
      assert V == NoMarks();
      assert V'[s] && s in Marked(V');
    } else {
      assert Marked(V) <= Marked(V');
    }
  }

  /** Scan step at a square holding p. */
  lemma ScanStepOwn(cells: Cells, i: int, p: Piece)
    requires 0 < i <= 64 && p != EMP && cells[i - 1] == p
    requires ScanFacts(cells, i - 1, p)
    ensures ScanFacts(cells, i, p)
  {
    var t := ScanTo(cells, i - 1);
    ScanStepOf(cells, i - 1, t, p);
    var r := Contig(cells, Visits(t, p), p, i - 1);
    FillFacts(cells, i, p, Sizes(t, p), Visits(t, p), r.0, r.1);
  }

  lemma {:induction false} ScanInvariant(cells: Cells, i: int, p: Piece)
    requires 0 <= i <= 64 && p != EMP
    ensures ScanFacts(cells, i, p)
  {
    if i == 0 {
      assert Marked(NoMarks()) == {};
    } else {
      ScanInvariant(cells, i - 1, p);
      if cells[i - 1] == p {
        ScanStepOwn(cells, i, p);
      } else {
        ScanStepOther(cells, i, p);
      }
    }
  }

  /** What the whole scan establishes for colour p. */
  lemma ScanComplete(cells: Cells, p: Piece)
    requires p != EMP
    ensures var L := Sizes(ScanTo(cells, 64), p);
      (forall k | 0 <= k < |L| :: L[k] > 0) &&
      Sum(L) == |PieceSet(cells, p)| &&
      (FirstOf(cells, p, 0) == 64 ==> L == []) &&
      (FirstOf(cells, p, 0) < 64 ==> |L| >= 1 && L[0] == |FirstRegion(cells, p)|)
  {
    ScanInvariant(cells, 64, p);
    var V := Visits(ScanTo(cells, 64), p);
    assert Marked(V) == PieceSet(cells, p);
  }

  /** The flood fill from the first piece of p finds a closed set that
   *  contains that piece and lies in every closed set containing it. */
  lemma FirstRegionFacts(cells: Cells, p: Piece)
    requires p != EMP && FirstOf(cells, p, 0) < 64
    ensures FirstOf(cells, p, 0) in FirstRegion(cells, p)
    ensures FirstRegion(cells, p) <= PieceSet(cells, p)
    ensures Closed(cells, p, FirstRegion(cells, p))
    ensures forall S :: Closed(cells, p, S) && FirstOf(cells, p, 0) in S ==> FirstRegion(cells, p) <= S
  {
    var f := FirstOf(cells, p, 0);
    var F := FirstRegion(cells, p);
    var v2 := Contig(cells, NoMarks(), p, f).1;
    ContigClosed(cells, NoMarks(), p, f);
    forall x, y | x in F && Adjacent(x, y) && cells[y] == p ensures y in F {
      assert v2[x] && !NoMarks()[x];
    }
    forall S | Closed(cells, p, S) && f in S ensures F <= S {
      ContigWithin(cells, NoMarks(), p, f, S);
    }
  }

  /** The region sizes of p are positive, largest first, and add up to the
   *  number of p's pieces: no piece is counted twice or left out. */
  lemma RegionSizesSum(cells: Cells, p: Piece)
    requires p != EMP
    ensures var L := RegionSizes(cells, p);
      Descending(L) && (forall k | 0 <= k < |L| :: L[k] > 0) && Sum(L) == |PieceSet(cells, p)|
  {
    ScanComplete(cells, p);
    var L := Sizes(ScanTo(cells, 64), p);
    SumSortDesc(L);
    SortDescFacts(L);
    var R := SortDesc(L);
    forall k | 0 <= k < |R| ensures R[k] > 0 {
      assert R[k] in multiset(R);
    }
  }

  /** With exactly one region, the first region holds all of p's pieces. */
  lemma OneRegionContiguous(cells: Cells, p: Piece)
    requires p != EMP && |Sizes(ScanTo(cells, 64), p)| == 1
    ensures Contiguous(cells, p)
  {
    ScanComplete(cells, p);
    var L := Sizes(ScanTo(cells, 64), p);
    var P := PieceSet(cells, p);
    var f := FirstOf(cells, p, 0);
    assert f < 64;
    assert f in P;
    FirstRegionFacts(cells, p);
    var F := FirstRegion(cells, p);
    assert Sum(L) == L[0] + Sum(L[1..]) && L[1..] == [];
    SubsetOfSameSize(F, P);
    forall S | S <= P && S != {} && Closed(cells, p, S) ensures S == P {
      if f !in S {
        ComplementClosed(cells, p, S);
        assert false;
      }
    }
  }

  /** With two or more regions, the first region is a proper closed subset. */
  lemma SeveralRegionsNotContiguous(cells: Cells, p: Piece)
    requires p != EMP && |Sizes(ScanTo(cells, 64), p)| != 1
    ensures !Contiguous(cells, p)
  {
    ScanComplete(cells, p);
    var L := Sizes(ScanTo(cells, 64), p);
    var P := PieceSet(cells, p);
    var f := FirstOf(cells, p, 0);
    if f == 64 {
      assert P == {};
    } else {
      assert f in P;
      FirstRegionFacts(cells, p);
      var F := FirstRegion(cells, p);
      SumPositive(L);
      assert F != P;
      assert Closed(cells, p, F);
    }
  }

  /** A colour has exactly one region precisely when its pieces are
   *  contiguous.  A colour without pieces has no region. */
  lemma OneRegionIffContiguous(cells: Cells, p: Piece)
    requires p != EMP
    ensures |RegionSizes(cells, p)| == 1 <==> Contiguous(cells, p)
  {
    var L := Sizes(ScanTo(cells, 64), p);
    SortDescFacts(L);
    assert |SortDesc(L)| == |multiset(SortDesc(L))| == |multiset(L)| == |L|;
    if |L| == 1 {
      OneRegionContiguous(cells, p);
    } else {
      SeveralRegionsNotContiguous(cells, p);
    }
  }
}
