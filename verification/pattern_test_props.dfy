/** What `TestEXTSRAM` promises: which test it reports, which address it
    blames, what memory it leaves behind, and exactly which stuck cells it
    can see. */
module PatternTestProps {
  import opened Common
  import opened Sram
  import opened PatternTest

  /** The memory after the write loops of the first k tests, whatever their
      verify loops saw. */
  function State(m: Memory, size: U16, k: nat): (r: Memory)
    requires m.Valid() && k <= TestCount
    ensures r.Valid() && r.stuck == m.stuck
    decreases k
  {
    if k == 0 then m else WritePass(State(m, size, k - 1), Passes[k - 1], size)
  }

  /** What the verify loop of test k+1 reports, should the run reach it. */
  function Miss(m: Memory, size: U16, k: nat): Option<U16>
    requires m.Valid() && k < TestCount
  {
    Verify(State(m, size, k + 1), Passes[k], size)
  }

  /** The first test, from test k+1 on, whose verify loop would see a
      mismatch; `TestCount` when there is none. */
  function FirstMiss(m: Memory, size: U16, k: nat): (t: nat)
    requires m.Valid() && k <= TestCount
    ensures k <= t <= TestCount
    ensures t < TestCount ==> Miss(m, size, t).Some?
    ensures forall j | k <= j < t :: Miss(m, size, j).None?
    decreases TestCount - k
  {
    if k == TestCount then TestCount
    else if Miss(m, size, k).Some? then k
    else FirstMiss(m, size, k + 1)
  }

  /** The outcome of tests k+1 .. 7 stated without the run's control flow:
      the failing test is the first with a miss, and the memory holds the
      writes of every test up to and including it. */
  function ReferenceFrom(m: Memory, base: U16, size: U16, k: nat): Outcome
    requires m.Valid() && k <= TestCount
  {
    Reference(m, base, size, FirstMiss(m, size, k))
  }

  /** The outcome of a run whose first miss is in test t+1, or which has
      none when t is `TestCount`. */
  function Reference(m: Memory, base: U16, size: U16, t: nat): Outcome
    requires m.Valid() && t <= TestCount
    requires t < TestCount ==> Miss(m, size, t).Some?
  {
    if t == TestCount then Outcome(Passed, State(m, size, t))
    else Outcome(Failed(t + 1, Trunc16(base + Miss(m, size, t).value)), State(m, size, t + 1))
  }

  lemma {:induction false} RunFromState(m: Memory, base: U16, size: U16, k: nat)
    requires m.Valid() && k <= TestCount
    ensures RunFrom(State(m, size, k), k, base, size) == ReferenceFrom(m, base, size, k)
    decreases TestCount - k
  {
    if k < TestCount {
      if Miss(m, size, k).Some? {
        StopsAtMiss(m, base, size, k);
      } else {
        ContinuesPastMatch(m, base, size, k);
        RunFromState(m, base, size, k + 1);
      }
    }
  }

  /** A test whose verify loop sees a mismatch ends the run. */
  lemma StopsAtMiss(m: Memory, base: U16, size: U16, k: nat)
    requires m.Valid() && k < TestCount && Miss(m, size, k).Some?
    ensures RunFrom(State(m, size, k), k, base, size) == ReferenceFrom(m, base, size, k)
  {
    var here, written := State(m, size, k), State(m, size, k + 1);
    assert written == WritePass(here, Passes[k], size);
    assert FirstMiss(m, size, k) == k;
  }

  /** A test whose verify loop sees no mismatch hands its memory on. */
  lemma ContinuesPastMatch(m: Memory, base: U16, size: U16, k: nat)
    requires m.Valid() && k < TestCount && Miss(m, size, k).None?
    ensures RunFrom(State(m, size, k), k, base, size) == RunFrom(State(m, size, k + 1), k + 1, base, size)
    ensures ReferenceFrom(m, base, size, k) == ReferenceFrom(m, base, size, k + 1)
  {
    var here, written := State(m, size, k), State(m, size, k + 1);
    assert written == WritePass(here, Passes[k], size);
    SameReference(m, base, size, k);
  }

  lemma SameReference(m: Memory, base: U16, size: U16, k: nat)
    requires m.Valid() && k < TestCount && Miss(m, size, k).None?
    ensures ReferenceFrom(m, base, size, k) == ReferenceFrom(m, base, size, k + 1)
  {
    assert FirstMiss(m, size, k) == FirstMiss(m, size, k + 1);
  }

  /** The test reported is the first one whose verify loop saw a mismatch,
      the address is `base` plus the first mismatching index in that loop's
      order, and no later test wrote anything. With no mismatch anywhere the
      result is 0 and all seven passes have run. */
  lemma FirstFailure(m: Memory, base: U16, startAddress: U16, endAddress: U16)
    requires m.Valid()
    ensures RunTests(m, base, startAddress, endAddress) == ReferenceFrom(m, base, ArraySize(startAddress, endAddress), 0)
  {
    var size := ArraySize(startAddress, endAddress);
    assert State(m, size, 0) == m;
    RunFromState(m, base, size, 0);
  }

  /** A cell of pass k's range reads back wrong exactly when it is stuck at a
      value other than the one the pass wrote. */
  lemma MissSeesStuckCells(m: Memory, size: U16, k: nat, j: U16)
    requires m.Valid() && k < TestCount && Covers(Passes[k].dir, size, j)
    ensures !Matches(State(m, size, k + 1), Passes[k].pattern, j) <==>
              j in m.stuck && m.stuck[j] != Expected(Passes[k].pattern, j)
  {
  }

  /** A stuck cell the passes can notice: one below the array size (the 0xFF
      and 0x00 fills cannot both read back from it), or the cell at the array
      size, seen only by the descending pass, stuck at anything but its count. */
  predicate Detectable(m: Memory, size: U16)
  {
    || (exists j: U16 :: j < size && j in m.stuck)
    || (1 <= size && size in m.stuck && m.stuck[size] != Trunc8(size))
  }

  /** `TestEXTSRAM` returns 0 exactly when the memory has no stuck cell it
      can notice. */
  lemma PassesIffUndetectable(m: Memory, base: U16, startAddress: U16, endAddress: U16)
    requires m.Valid()
    ensures RunTests(m, base, startAddress, endAddress).verdict.Passed? <==>
              !Detectable(m, ArraySize(startAddress, endAddress))
  {
    var size := ArraySize(startAddress, endAddress);
    FirstFailure(m, base, startAddress, endAddress);
    if Detectable(m, size) {
      if exists j: U16 :: j < size && j in m.stuck {
        var j: U16 :| j < size && j in m.stuck;
        if m.stuck[j] != 0xFF {
          MissSeesStuckCells(m, size, 2, j);
          assert Miss(m, size, 2).Some?;
        } else {
          MissSeesStuckCells(m, size, 3, j);
          assert Miss(m, size, 3).Some?;
        }
      } else {
        MissSeesStuckCells(m, size, 1, size);
        assert Miss(m, size, 1).Some?;
      }
    } else {
      forall k | 0 <= k < TestCount
        ensures Miss(m, size, k).None?
      {
        forall j: U16 | Covers(Passes[k].dir, size, j)
          ensures Matches(State(m, size, k + 1), Passes[k].pattern, j)
        {
          MissSeesStuckCells(m, size, k, j);
        }
      }
    }
  }

  /** On a memory without faults every pass reads back what it wrote. */
  lemma FaultFreePasses(m: Memory, base: U16, startAddress: U16, endAddress: U16)
    requires m.Valid() && m.FaultFree()
    ensures RunTests(m, base, startAddress, endAddress).verdict == Passed
  {
    PassesIffUndetectable(m, base, startAddress, endAddress);
  }

  /** The memory at index i is the same after tests lo+1 .. k as before them
      when none of those passes covers i. */
  lemma {:induction false} Untouched(m: Memory, size: U16, lo: nat, k: nat, i: U16)
    requires m.Valid() && lo <= k <= TestCount
    requires forall j | lo <= j < k :: !Covers(Passes[j].dir, size, i)
    ensures State(m, size, k).cells[i] == State(m, size, lo).cells[i]
    decreases k - lo
  {
    if k > lo {
      Untouched(m, size, lo, k - 1, i);
    }
  }

  /** After a return of 0 the cells below the array size read back their
      count (left by test 7), the cell at the array size reads back its count
      (left by test 2, the only pass that reaches it), and nothing above it
      was written; an empty range leaves memory as it was. */
  lemma PassedLeavesCountPattern(m: Memory, base: U16, startAddress: U16, endAddress: U16)
    requires m.Valid()
    requires RunTests(m, base, startAddress, endAddress).verdict.Passed?
    ensures var size, after := ArraySize(startAddress, endAddress), RunTests(m, base, startAddress, endAddress).after;
      && (forall i: U16 | i < size :: after.Read(i) == Trunc8(i))
      && (1 <= size ==> after.Read(size) == Trunc8(size))
      && (forall i: U16 | size < i :: after.cells[i] == m.cells[i])
      && (size == 0 ==> after == m)
  {
    var size := ArraySize(startAddress, endAddress);
    FirstFailure(m, base, startAddress, endAddress);
    PassesIffUndetectable(m, base, startAddress, endAddress);
    var after := State(m, size, TestCount);
    forall i: U16 | size < i
      ensures after.cells[i] == m.cells[i]
    {
      Untouched(m, size, 0, TestCount, i);
    }
    if 1 <= size {
      Untouched(m, size, 2, TestCount, size);
    } else {
      Untouched(m, size, 0, TestCount, 0);
      assert after.cells == m.cells;
    }
  }

  /** Test k+1 notices a cell stuck at s at index c. */
  predicate Detects(size: U16, c: U16, s: Byte, k: nat)
    requires k < TestCount
  {
    Covers(Passes[k].dir, size, c) && Expected(Passes[k].pattern, c) != s
  }

  /** The first test, from test k+1 on, that notices a cell stuck at s at c. */
  function FirstDetecting(size: U16, c: U16, s: Byte, k: nat): (r: Option<nat>)
    requires k <= TestCount
    ensures r.Some? ==> k <= r.value < TestCount && Detects(size, c, s, r.value)
    ensures r.Some? ==> forall j | k <= j < r.value :: !Detects(size, c, s, j)
    ensures r.None? ==> forall j | k <= j < TestCount :: !Detects(size, c, s, j)
    decreases TestCount - k
  {
    if k == TestCount then None
    else if Detects(size, c, s, k) then Some(k)
    else FirstDetecting(size, c, s, k + 1)
  }

  /** With a single cell c stuck at s, the result is the first test whose
      pass covers c with a value other than s, and the address reported is
      `base + c`; when no pass does, the result is 0. */
  lemma SingleStuckCell(m: Memory, base: U16, startAddress: U16, endAddress: U16, c: U16, s: Byte)
    requires m.Valid() && m.stuck == map[c := s]
    ensures RunTests(m, base, startAddress, endAddress).verdict ==
              match FirstDetecting(ArraySize(startAddress, endAddress), c, s, 0)
              case None => Passed
              case Some(k) => Failed(k + 1, Trunc16(base + c))
  {
    var size := ArraySize(startAddress, endAddress);
    var t := FirstMiss(m, size, 0);
    FirstFailure(m, base, startAddress, endAddress);
    assert RunTests(m, base, startAddress, endAddress) == Reference(m, base, size, t);
    FirstMissOfStuckCell(m, size, c, s, 0);
    if t < TestCount {
      StuckCellMiss(m, size, c, s, t);
      assert FirstDetecting(size, c, s, 0) == Some(t);
    } else {
      assert FirstDetecting(size, c, s, 0) == None;
    }
  }

  /** With only c stuck at s, the verify loop of test k+1 blames c exactly
      when that test notices it. */
  lemma StuckCellMiss(m: Memory, size: U16, c: U16, s: Byte, k: nat)
    requires m.Valid() && m.stuck == map[c := s] && k < TestCount
    ensures Miss(m, size, k) == if Detects(size, c, s, k) then Some(c) else None
  {
    forall j: U16 | Covers(Passes[k].dir, size, j)
      ensures !Matches(State(m, size, k + 1), Passes[k].pattern, j) <==> j == c && Detects(size, c, s, k)
    {
      MissSeesStuckCells(m, size, k, j);
    }
  }

  lemma {:induction false} FirstMissOfStuckCell(m: Memory, size: U16, c: U16, s: Byte, k: nat)
    requires m.Valid() && m.stuck == map[c := s] && k <= TestCount
    ensures FirstMiss(m, size, k) == match FirstDetecting(size, c, s, k)
                                     case None => TestCount
                                     case Some(t) => t
    decreases TestCount - k
  {
    if k < TestCount {
      StuckCellMiss(m, size, c, s, k);
      FirstMissOfStuckCell(m, size, c, s, k + 1);
    }
  }

  /** A cell below the array size stuck at s fails test 1 unless s is its
      count, and otherwise test 3 (0xFF) or, when s is 0xFF, test 4 (0x00). */
  lemma StuckCellInRange(m: Memory, base: U16, startAddress: U16, endAddress: U16, c: U16, s: Byte)
    requires m.Valid() && m.stuck == map[c := s]
    requires c < ArraySize(startAddress, endAddress)
    ensures RunTests(m, base, startAddress, endAddress).verdict ==
              Failed(if s != Trunc8(c) then 1 else if s != 0xFF then 3 else 4, Trunc16(base + c))
  {
    var size := ArraySize(startAddress, endAddress);
    SingleStuckCell(m, base, startAddress, endAddress, c, s);
    if s != Trunc8(c) {
      assert Detects(size, c, s, 0);
    } else if s != 0xFF {
      assert !Detects(size, c, s, 0) && !Detects(size, c, s, 1) && Detects(size, c, s, 2);
    } else {
      assert !Detects(size, c, s, 0) && !Detects(size, c, s, 1) && !Detects(size, c, s, 2);
      assert Detects(size, c, s, 3);
    }
  }
}
