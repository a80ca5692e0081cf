/**
 The simulation engine of Conway's Game of Life on an unbounded integer grid.

 Live cells are kept sparsely in a dictionary from coordinates to `true`; one
 generation step builds the candidate set (the 3x3 blocks around every live
 cell), counts the live neighbours of every candidate against the old store,
 applies the life/death rule, and swaps the whole store in one assignment.
 */
module Conway {

  /** A grid coordinate, the `(x, y)` key of the live-cell store. */
  type Coord = (int, int)

  /** The input cell record: just an (x, y) pair. */
  datatype Cell = Cell(x: int, y: int)

  /** `d` lies within distance 1 of `c` in both axes (`c` itself included). */
  predicate Adjacent(c: Coord, d: Coord) {
    -1 <= d.0 - c.0 <= 1 && -1 <= d.1 - c.1 <= 1
  }

  // ---------------------------------------------------------------------------
  // The neighbour generator, as the sequence it yields
  // ---------------------------------------------------------------------------

  /** The coordinate visited at step `k` (0..8) of the generator's two nested
      loops: rows `y-1..y+1` outside, columns `x-1..x+1` inside. */
  function StepCoord(x: int, y: int, k: int): Coord {
    (x - 1 + k % 3, y - 1 + k / 3)
  }

  /** What the generator has yielded after its first `k` loop steps: the
      centre is skipped unless it is to be included. */
  function Yielded(x: int, y: int, included: bool, k: nat): seq<Coord>
    requires k <= 9
  {
    if k == 0 then []
    else
      var c := StepCoord(x, y, k - 1);
      Yielded(x, y, included, k - 1) + (if !included && c == (x, y) then [] else [c])
  }

  /** Everything the generator yields for `(x, y)`, in its order. */
  function NeighbourSeq(x: int, y: int, included: bool): seq<Coord> {
    [(x - 1, y - 1), (x, y - 1), (x + 1, y - 1), (x - 1, y)]
    + (if included then [(x, y)] else [])
    + [(x + 1, y), (x - 1, y + 1), (x, y + 1), (x + 1, y + 1)]
  }

  /** The nine steps of the two nested loops yield exactly `NeighbourSeq`. */
  lemma YieldedAll(x: int, y: int, included: bool)
    ensures Yielded(x, y, included, 9) == NeighbourSeq(x, y, included)
  {
    assert Yielded(x, y, included, 1) == [(x - 1, y - 1)];
    assert Yielded(x, y, included, 2) == [(x - 1, y - 1), (x, y - 1)];
    assert Yielded(x, y, included, 3) == [(x - 1, y - 1), (x, y - 1), (x + 1, y - 1)];
    assert Yielded(x, y, included, 4) == [(x - 1, y - 1), (x, y - 1), (x + 1, y - 1), (x - 1, y)];
    assert Yielded(x, y, included, 5) == Yielded(x, y, included, 4) + (if included then [(x, y)] else []);
    assert Yielded(x, y, included, 7) == Yielded(x, y, included, 5) + [(x + 1, y), (x - 1, y + 1)];
  }

  /** Without the centre: exactly 8 distinct coordinates, each adjacent to
      `(x, y)` and different from it, and every such coordinate among them.
      With the centre: exactly 9 distinct coordinates, the 3x3 block. */
  lemma NeighbourSeqShape(x: int, y: int, included: bool)
    ensures |NeighbourSeq(x, y, included)| == if included then 9 else 8
    ensures forall i, j :: 0 <= i < j < |NeighbourSeq(x, y, included)| ==>
              NeighbourSeq(x, y, included)[i] != NeighbourSeq(x, y, included)[j]
    ensures forall d :: d in NeighbourSeq(x, y, included) <==>
              Adjacent((x, y), d) && (included || d != (x, y))
  {
  }

  // ---------------------------------------------------------------------------
  // The specification of one generation
  // ---------------------------------------------------------------------------

  /** The live cells among the 8 coordinates around `c` (never `c` itself). */
  ghost function LiveNeighbourSet(live: set<Coord>, c: Coord): set<Coord> {
    set d | d in live && Adjacent(c, d) && d != c
  }

  /** The live-neighbour count of `c`. */
  ghost function LiveNeighbours(live: set<Coord>, c: Coord): nat {
    |LiveNeighbourSet(live, c)|
  }

  /** `c` moved by the offset `(dx, dy)`. */
  function Shift(c: Coord, dx: int, dy: int): Coord {
    (c.0 + dx, c.1 + dy)
  }

  /** The candidate set: the union of the 3x3 blocks around the live cells. */
  ghost function Candidates(live: set<Coord>): set<Coord> {
    set c, dx, dy | c in live && -1 <= dx <= 1 && -1 <= dy <= 1 :: Shift(c, dx, dy)
  }

  /** The members of `area` whose rule outcome against `live` is "alive". */
  ghost function Judged(live: set<Coord>, area: set<Coord>): set<Coord> {
    set c | c in area && Conway.ApplyRules(c in live, LiveNeighbours(live, c))
  }

  /** The next generation: every candidate whose rule outcome is "alive". */
  ghost function NextGen(live: set<Coord>): set<Coord> {
    Judged(live, Candidates(live))
  }

  /** Judging one more candidate `c` (taken from the unjudged part `rest`)
      adds it to the judged live cells iff the rule makes it live. */
  lemma JudgedStep(live: set<Coord>, area: set<Coord>, rest: set<Coord>, c: Coord,
                   judged: set<Coord>, alive: bool)
    requires c in rest && rest <= area
    requires judged == Judged(live, area - rest)
    requires alive == Conway.ApplyRules(c in live, LiveNeighbours(live, c))
    ensures Judged(live, area - (rest - {c})) == if alive then judged + {c} else judged
  {
    assert area - (rest - {c}) == (area - rest) + {c};
  }

  /** A coordinate is a candidate iff it lies next to (or on) a live cell. */
  lemma CandidatesNearLive(live: set<Coord>, d: Coord)
    ensures d in Candidates(live) <==> exists c :: c in live && Adjacent(c, d)
  {
    if c :| c in live && Adjacent(c, d) {
      var dx, dy := d.0 - c.0, d.1 - c.1;
      assert d == Shift(c, dx, dy);
    }
  }

  /** The entries of a sequence, as a set. */
  function Elements(s: seq<Coord>): set<Coord> {
    set d | d in s
  }

  /** Adding one live cell adds its 3x3 block, as the generator yields it, to
      the candidate set. */
  lemma CandidatesInsert(live: set<Coord>, c: Coord)
    ensures Candidates(live + {c}) == Candidates(live) + Elements(NeighbourSeq(c.0, c.1, true))
  {
    NeighbourSeqShape(c.0, c.1, true);
    forall d ensures d in Candidates(live + {c}) <==> d in Candidates(live) || Adjacent(c, d) {
      CandidatesNearLive(live + {c}, d);
      CandidatesNearLive(live, d);
    }
  }

  /** The number of entries of `s` that are live. */
  function CountLive(live: set<Coord>, s: seq<Coord>): nat {
    if s == [] then 0
    else CountLive(live, s[..|s| - 1]) + (if s[|s| - 1] in live then 1 else 0)
  }

  /** Counting over a duplicate-free sequence is the size of its live part. */
  lemma {:induction false} CountLiveIsCardinality(live: set<Coord>, s: seq<Coord>)
    requires forall i, j :: 0 <= i < j < |s| ==> s[i] != s[j]
    ensures CountLive(live, s) == |live * Elements(s)|
  {
    if s != [] {
      var p, e := s[..|s| - 1], s[|s| - 1];
      CountLiveIsCardinality(live, p);
      ElementsSnoc(s);
      assert e !in Elements(p) by {
        forall i | 0 <= i < |p| ensures p[i] != e {
          assert p[i] == s[i];
        }
      }
      LiveCardinalityInsert(live, Elements(p), e);
    }
  }

  /** The elements of a non-empty sequence: those of its prefix and its last. */
  lemma ElementsSnoc(s: seq<Coord>)
    requires s != []
    ensures Elements(s) == Elements(s[..|s| - 1]) + {s[|s| - 1]}
  {
    assert s == s[..|s| - 1] + [s[|s| - 1]];
  }

  /** Adding a new element to a set adds one to the size of its live part
      exactly when that element is live. */
  lemma LiveCardinalityInsert(live: set<Coord>, area: set<Coord>, e: Coord)
    requires e !in area
    ensures |live * (area + {e})| == |live * area| + (if e in live then 1 else 0)
  {
    if e in live {
      assert live * (area + {e}) == live * area + {e};
    } else {
      assert live * (area + {e}) == live * area;
    }
  }

  /** Counting the live entries of the generator's 8 neighbours, as the
      generation step does, gives the live-neighbour count, which is at most 8. */
  lemma CountedNeighbours(live: set<Coord>, c: Coord)
    ensures CountLive(live, NeighbourSeq(c.0, c.1, false)) == LiveNeighbours(live, c)
    ensures LiveNeighbours(live, c) <= 8
  {
    var s := NeighbourSeq(c.0, c.1, false);
    NeighbourSeqShape(c.0, c.1, false);
    CountLiveIsCardinality(live, s);
    assert live * Elements(s) == LiveNeighbourSet(live, c);
    CardinalityOfElements(s);
    assert |live * Elements(s)| <= |Elements(s)| by {
      assert Elements(s) == live * Elements(s) + (Elements(s) - live);
    }
  }

  /** A sequence has at least as many entries as distinct elements. */
  lemma {:induction false} CardinalityOfElements(s: seq<Coord>)
    ensures |Elements(s)| <= |s|
  {
    if s != [] {
      CardinalityOfElements(s[..|s| - 1]);
      ElementsSnoc(s);
    }
  }

  /**
   Restricting evaluation to the candidate set loses nothing: for EVERY
   coordinate, it is live in the next generation iff the rule says so for its
   current state and its live-neighbour count. A coordinate outside the
   candidate set is dead and has no live neighbour, and the rule keeps it dead.
   */
  lemma NextGenExact(live: set<Coord>, c: Coord)
    ensures c in NextGen(live) <==> Conway.ApplyRules(c in live, LiveNeighbours(live, c))
  {
    if c !in Candidates(live) {
      CandidatesNearLive(live, c);
      assert c !in live by {
        assert Adjacent(c, c);
      }
      var near := LiveNeighbourSet(live, c);
      assert near == {} by {
        forall d | d in near ensures false {
          assert Adjacent(d, c);
        }
      }
    }
  }

  /** Every cell live in the next generation lies within distance 1 of a cell
      live in the current one. */
  lemma NextGenNearLive(live: set<Coord>, c: Coord)
    requires c in NextGen(live)
    ensures exists l :: l in live && Adjacent(l, c)
  {
    CandidatesNearLive(live, c);
  }

  /** A lone live cell dies of underpopulation and gives birth to nothing. */
  lemma LoneCellDies(p: Coord)
    ensures NextGen({p}) == {}
  {
    forall c ensures c !in NextGen({p}) {
      NextGenExact({p}, c);
      var near := LiveNeighbourSet({p}, c);
      if c == p {
        assert near == {};
      } else {
        assert |near| <= 1 by {
          if p in near { assert near == {p}; } else { assert near == {}; }
        }
      }
    }
  }

  /** An empty store stays empty. */
  lemma ExtinctionIsFinal()
    ensures Candidates({}) == {}
    ensures NextGen({}) == {}
  {
  }

  // ---------------------------------------------------------------------------
  // The engine
  // ---------------------------------------------------------------------------

  class Conway {
    /** The sparse live-cell store: live coordinates map to `true`. */
    var currentLiveCells: map<Coord, bool>

    /** Every stored value is `true`, so the store is a set of coordinates. */
    ghost predicate Valid()
      reads this
    {
      forall c :: c in currentLiveCells ==> currentLiveCells[c]
    }

    /** The live coordinates. */
    ghost function LiveCells(): set<Coord>
      reads this
    {
      currentLiveCells.Keys
    }

    /** Fills the store from the input cells; duplicates collapse. */
    constructor (liveCells: seq<Cell>)
      ensures Valid()
      ensures LiveCells() == set c | c in liveCells :: (c.x, c.y)
    {
      var store: map<Coord, bool> := map[];
      for k := 0 to |liveCells|
        invariant forall c :: c in store ==> store[c]
        invariant store.Keys == set c | c in liveCells[..k] :: (c.x, c.y)
      {
        var c := liveCells[k];
        assert liveCells[..k + 1] == liveCells[..k] + [c];
        store := store[(c.x, c.y) := true];
      }
      assert liveCells[..|liveCells|] == liveCells;
      currentLiveCells := store;
    }

    /** The generator of the Moore neighbourhood of `(x, y)`, with or without
        `(x, y)` itself, as the sequence of coordinates it yields: 8 distinct
        neighbours, or the 9 cells of the 3x3 block. */
    static method Neighbours(x: int, y: int, included: bool) returns (nbrs: seq<Coord>)
      ensures nbrs == NeighbourSeq(x, y, included)
      ensures |nbrs| == if included then 9 else 8
      ensures forall i, j :: 0 <= i < j < |nbrs| ==> nbrs[i] != nbrs[j]
      ensures forall d :: d in nbrs <==> Adjacent((x, y), d) && (included || d != (x, y))
    {
      nbrs := [];
      var j := y - 1;
      while j < y + 2
        invariant y - 1 <= j <= y + 2
        invariant nbrs == Yielded(x, y, included, 3 * (j - (y - 1)))
      {
        var i := x - 1;
        while i < x + 2
          invariant x - 1 <= i <= x + 2
          invariant nbrs == Yielded(x, y, included, 3 * (j - (y - 1)) + (i - (x - 1)))
        {
          ghost var k := 3 * (j - (y - 1)) + (i - (x - 1));
          assert StepCoord(x, y, k) == (i, j);
          if !included && i == x && j == y {
          } else {
            nbrs := nbrs + [(i, j)];
          }
          i := i + 1;
        }
        j := j + 1;
      }
      YieldedAll(x, y, included);
      NeighbourSeqShape(x, y, included);
    }

    /** Looks a coordinate up in the store; an absent key means dead. */
    function IsAlive(x: int, y: int): (alive: bool)
      reads this
      ensures alive ==> (x, y) in currentLiveCells
      ensures Valid() ==> (alive <==> (x, y) in LiveCells())
    {
      if (x, y) in currentLiveCells then currentLiveCells[(x, y)] else false
    }

    /** The life/death rule for a cell's current state and its live-neighbour count. */
    static function ApplyRules(alive: bool, numLiveNbrs: int): (nextAlive: bool)
      ensures alive && numLiveNbrs < 2 ==> !nextAlive
      ensures alive && numLiveNbrs > 3 ==> !nextAlive
      ensures alive && 2 <= numLiveNbrs <= 3 ==> nextAlive
      ensures !alive ==> (nextAlive <==> numLiveNbrs == 3)
    {
      if alive then
        if numLiveNbrs < 2 then false
        else if numLiveNbrs > 3 then false
        else true
      else
        numLiveNbrs == 3
    }

    /** The rule in its usual short form: a cell is live next iff it has 3
        live neighbours, or it is live and has 2. */
    static lemma RulesAsBirthAndSurvival(alive: bool, numLiveNbrs: int)
      ensures ApplyRules(alive, numLiveNbrs) <==> numLiveNbrs == 3 || (alive && numLiveNbrs == 2)
    {
    }

    /** The first phase of a generation step: the union of the 3x3 blocks
        around the live cells. */
    method ProcessSet() returns (processSet: set<Coord>)
      ensures processSet == Candidates(LiveCells())
    {
      processSet := {};
      var pending := currentLiveCells.Keys;
      ghost var visited: set<Coord> := {};
      while pending != {}
        invariant pending + visited == LiveCells() && pending !! visited
        invariant processSet == Candidates(visited)
        decreases |pending|
      {
        var c :| c in pending;
        var nbrs := Neighbours(c.0, c.1, true);
        var nbrSet := Elements(nbrs);
        CandidatesInsert(visited, c);
        processSet := processSet + nbrSet;
        pending := pending - {c};
        visited := visited + {c};
      }
    }

    /** The second phase for one candidate: its live neighbours are counted
        in the current store and the rule decides its next state. */
    method NextGenAlive(x: int, y: int) returns (nextGenAlive: bool)
      requires Valid()
      ensures nextGenAlive == ApplyRules((x, y) in LiveCells(), LiveNeighbours(LiveCells(), (x, y)))
    {
      var numLiveNbrs := 0;
      var nbrs := Neighbours(x, y, false);
      for k := 0 to |nbrs|
        invariant numLiveNbrs == CountLive(LiveCells(), nbrs[..k])
      {
        assert nbrs[..k + 1][..k] == nbrs[..k];
        if IsAlive(nbrs[k].0, nbrs[k].1) {
          numLiveNbrs := numLiveNbrs + 1;
        }
      }
      assert nbrs[..|nbrs|] == nbrs;
      CountedNeighbours(LiveCells(), (x, y));
      var processedCellAlive := IsAlive(x, y);
      nextGenAlive := ApplyRules(processedCellAlive, numLiveNbrs);
    }

    /** The second phase of a generation step: every candidate is judged
        against the current store, and the ones the rule makes live are
        collected into a new store holding `true` for each of them. */
    method NextGeneration(processSet: set<Coord>) returns (nextGen: map<Coord, bool>)
      requires Valid()
      ensures forall c :: c in nextGen ==> nextGen[c]
      ensures nextGen.Keys == Judged(LiveCells(), processSet)
    {
      nextGen := map[];
      var toProcess := processSet;
      while toProcess != {}
        invariant toProcess <= processSet
        invariant forall c :: c in nextGen ==> nextGen[c]
        invariant nextGen.Keys == Judged(LiveCells(), processSet - toProcess)
        decreases |toProcess|
      {
        var c :| c in toProcess;
        var nextGenAlive := NextGenAlive(c.0, c.1);
        JudgedStep(LiveCells(), processSet, toProcess, c, nextGen.Keys, nextGenAlive);
        if nextGenAlive {
          nextGen := nextGen[c := nextGenAlive];
        }
        toProcess := toProcess - {c};
      }
      assert processSet - toProcess == processSet;
    }

    /** Advances one generation: the store is replaced, in one assignment,
        by the next generation of the old store, so that every coordinate is
        live afterwards iff the rule, applied to its state and live-neighbour
        count in the OLD store, says so. */
    method Play()
      requires Valid()
      modifies this
      ensures Valid()
      ensures LiveCells() == NextGen(old(LiveCells()))
      ensures forall c :: c in LiveCells() <==>
                ApplyRules(c in old(LiveCells()), LiveNeighbours(old(LiveCells()), c))
    {
      ghost var live := LiveCells();
      var processSet := ProcessSet();
      var nextGen := NextGeneration(processSet);
      currentLiveCells := nextGen;
      forall c ensures c in LiveCells() <==> ApplyRules(c in live, LiveNeighbours(live, c)) {
        NextGenExact(live, c);
      }
    }
  }
}
