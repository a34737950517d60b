/** `TestEXTSRAM`: seven write-then-verify passes over the external SRAM,
    stopping at the first cell that does not read back what its pass wrote.

    The functional definition (`RunFrom`, `RunTests`) is the reference; the
    method `TestExtSram` runs the same passes with loops over an array and is
    proved to agree with it. */
module PatternTest {
  import opened Common
  import opened Sram

  /** What a pass writes to cell i: the low byte of the index, or a constant. */
  datatype Pattern = Count | Fill(value: Byte)

  /** Ascending passes visit 0 .. size-1; the descending pass visits size
      down to 1, one cell past the others at the top and none at index 0. */
  datatype Direction = Up | Down

  datatype Pass = Pass(dir: Direction, pattern: Pattern)

  const TestCount: nat := 7

  /** The passes in the order they run; test number n is `Passes[n - 1]`. */
  const Passes: seq<Pass> := [
    Pass(Up, Count),
    Pass(Down, Count),
    Pass(Up, Fill(0xFF)),
    Pass(Up, Fill(0x00)),
    Pass(Up, Fill(0xAA)),
    Pass(Up, Fill(0x55)),
    Pass(Up, Count)
  ]

  /** `0` when every pass read back what it wrote; otherwise the number of
      the failing test and `(uint16_t)&array[i]` for the failing index i. */
  datatype Verdict = Passed | Failed(test: nat, addr: U16)

  datatype Outcome = Outcome(verdict: Verdict, after: Memory)

  /** The value `TestEXTSRAM` returns and the firmware keeps in
      `SRAMTestStatus`. */
  function Status(v: Verdict): nat
  {
    match v
    case Passed => 0
    case Failed(t, _) => t
  }

  function Expected(p: Pattern, i: nat): Byte
  {
    match p
    case Count => Trunc8(i)
    case Fill(b) => b
  }

  /** `(uint16_t)(endAddress - startAddress)`. */
  function ArraySize(startAddress: U16, endAddress: U16): U16
  {
    Trunc16(endAddress - startAddress)
  }

  predicate Covers(d: Direction, size: U16, i: nat)
  {
    match d
    case Up => i < size
    case Down => 1 <= i <= size
  }

  /** j is visited before i by a verify loop running in direction d. */
  predicate Before(d: Direction, j: nat, i: nat)
  {
    match d
    case Up => j < i
    case Down => j > i
  }

  predicate Matches(m: Memory, p: Pattern, i: U16)
    requires m.Valid()
  {
    m.Read(i) == Expected(p, i)
  }

  /** The stored cells after a pass's write loop. Writes land in the cell
      store even for stuck cells; only reads see the fault. */
  function Written(cells: seq<Byte>, p: Pass, size: U16): (r: seq<Byte>)
    requires |cells| == CellCount
    ensures |r| == CellCount
  {
    seq(CellCount, i requires 0 <= i < CellCount =>
      if Covers(p.dir, size, i) then Expected(p.pattern, i) else cells[i])
  }

  function WritePass(m: Memory, p: Pass, size: U16): (r: Memory)
    requires m.Valid()
    ensures r.Valid() && r.stuck == m.stuck
  {
    m.(cells := Written(m.cells, p, size))
  }

  /** The ascending verify loop from index i on: the first index below size
      whose cell does not read back the pattern. */
  function ScanUp(m: Memory, p: Pattern, i: U16, size: U16): (r: Option<U16>)
    requires m.Valid() && i <= size
    ensures r.None? <==> forall j: U16 | i <= j < size :: Matches(m, p, j)
    ensures r.Some? ==> i <= r.value < size && !Matches(m, p, r.value)
    ensures r.Some? ==> forall j: U16 | i <= j < r.value :: Matches(m, p, j)
    decreases size - i
  {
    if i == size then None
    else if !Matches(m, p, i) then Some(i)
    else ScanUp(m, p, i + 1, size)
  }

  /** The descending verify loop from index i down to 1. */
  function ScanDown(m: Memory, p: Pattern, i: U16): (r: Option<U16>)
    requires m.Valid()
    ensures r.None? <==> forall j: U16 | 1 <= j <= i :: Matches(m, p, j)
    ensures r.Some? ==> 1 <= r.value <= i && !Matches(m, p, r.value)
    ensures r.Some? ==> forall j: U16 | r.value < j <= i :: Matches(m, p, j)
    decreases i
  {
    if i == 0 then None
    else if !Matches(m, p, i) then Some(i)
    else ScanDown(m, p, i - 1)
  }

  /** A pass's verify loop: the first index, in the loop's own order, whose
      cell does not read back the pattern, or None when all of them do. */
  function Verify(m: Memory, p: Pass, size: U16): (r: Option<U16>)
    requires m.Valid()
    ensures r.None? <==> forall j: U16 | Covers(p.dir, size, j) :: Matches(m, p.pattern, j)
    ensures r.Some? ==> Covers(p.dir, size, r.value) && !Matches(m, p.pattern, r.value)
    ensures r.Some? ==> forall j: U16 | Covers(p.dir, size, j) && Before(p.dir, j, r.value) ::
                          Matches(m, p.pattern, j)
  {
    match p.dir
    case Up => ScanUp(m, p.pattern, 0, size)
    case Down => ScanDown(m, p.pattern, size)
  }

  /** Tests k+1 .. 7 run on memory m. */
  function RunFrom(m: Memory, k: nat, base: U16, size: U16): (o: Outcome)
    requires m.Valid() && k <= TestCount
    ensures o.after.Valid() && o.after.stuck == m.stuck
    ensures o.verdict.Failed? ==> k < o.verdict.test <= TestCount
    decreases TestCount - k
  {
    if k == TestCount then Outcome(Passed, m)
    else
      var written := WritePass(m, Passes[k], size);
      match Verify(written, Passes[k], size)
      case Some(i) => Outcome(Failed(k + 1, Trunc16(base + i)), written)
      case None => RunFrom(written, k + 1, base, size)
  }

  /** `TestEXTSRAM(array, startAddress, endAddress)` as a function of the
      memory it runs on; `base` is the address the `array` pointer holds. */
  function RunTests(m: Memory, base: U16, startAddress: U16, endAddress: U16): (o: Outcome)
    requires m.Valid()
    ensures o.after.Valid() && o.after.stuck == m.stuck
    ensures o.verdict.Failed? ==> 1 <= o.verdict.test <= TestCount
  {
    RunFrom(m, 0, base, ArraySize(startAddress, endAddress))
  }

  /** `TestEXTSRAM` over an array holding the stored cells; the stuck map is
      the fault the hardware adds on every read. */
  method TestExtSram(m: Memory, base: U16, startAddress: U16, endAddress: U16)
      returns (status: nat, verdict: Verdict, after: Memory)
    requires m.Valid()
    ensures Outcome(verdict, after) == RunTests(m, base, startAddress, endAddress)
    ensures status == Status(verdict) && 0 <= status <= TestCount
  {
    var size := ArraySize(startAddress, endAddress);
    var a := new Byte[CellCount](i requires 0 <= i < CellCount => m.cells[i]);
    assert a[..] == m.cells;
    ghost var spec := RunFrom(m, 0, base, size);
    var k := 0;
    while k < TestCount
      invariant 0 <= k <= TestCount && a.Length == CellCount
      invariant spec == RunFrom(Memory(a[..], m.stuck), k, base, size)
    {
      ghost var before := Memory(a[..], m.stuck);
      var miss := RunPass(a, m.stuck, Passes[k], size);
      RunFromStep(before, Memory(a[..], m.stuck), miss, k, base, size);
      if miss.Some? {
        verdict := Failed(k + 1, Trunc16(base + miss.value));
        return k + 1, verdict, Memory(a[..], m.stuck);
      }
      k := k + 1;
    }
    return 0, Passed, Memory(a[..], m.stuck);
  }

  /** One step of `RunFrom`, seen from the memory test k+1 leaves and what
      its verify loop found. */
  lemma RunFromStep(before: Memory, after: Memory, miss: Option<U16>, k: nat, base: U16, size: U16)
    requires before.Valid() && k < TestCount
    requires after == WritePass(before, Passes[k], size) && miss == Verify(after, Passes[k], size)
    ensures after.Valid()
    ensures miss.Some? ==> RunFrom(before, k, base, size) == Outcome(Failed(k + 1, Trunc16(base + miss.value)), after)
    ensures miss.None? ==> RunFrom(before, k, base, size) == RunFrom(after, k + 1, base, size)
  {
  }

  /** One test: its write loop, then its verify loop. */
  method RunPass(a: array<Byte>, stuck: map<nat, Byte>, p: Pass, size: U16) returns (miss: Option<U16>)
    requires a.Length == CellCount
    modifies a
    ensures Memory(a[..], stuck) == WritePass(Memory(old(a[..]), stuck), p, size)
    ensures miss == Verify(Memory(a[..], stuck), p, size)
  {
    WriteLoop(a, p, size);
    miss := VerifyLoop(a, stuck, p, size);
  }

  /** One pass's write loop, ascending `for (i = 0; i < ArraySize; i++)` or
      descending `for (i = ArraySize; i > 0; i--)`. */
  method WriteLoop(a: array<Byte>, p: Pass, size: U16)
    requires a.Length == CellCount
    modifies a
    ensures a[..] == Written(old(a[..]), p, size)
  {
    if p.dir == Up {
      var i: U16 := 0;
      while i < size
        invariant i <= size
        invariant forall j | 0 <= j < CellCount ::
          a[j] == if j < i then Expected(p.pattern, j) else old(a[j])
      {
        a[i] := Expected(p.pattern, i);
        i := i + 1;
      }
    } else {
      var i: U16 := size;
      while i > 0
        invariant i <= size
        invariant forall j | 0 <= j < CellCount ::
          a[j] == if i < j <= size then Expected(p.pattern, j) else old(a[j])
      {
        a[i] := Expected(p.pattern, i);
        i := i - 1;
      }
    }
    assert forall j | 0 <= j < CellCount :: a[..][j] == Written(old(a[..]), p, size)[j];
  }

  /** One pass's verify loop; reads see the stuck value of a stuck cell. */
  method VerifyLoop(a: array<Byte>, stuck: map<nat, Byte>, p: Pass, size: U16) returns (miss: Option<U16>)
    requires a.Length == CellCount
    ensures miss == Verify(Memory(a[..], stuck), p, size)
  {
    ghost var m := Memory(a[..], stuck);
    if p.dir == Up {
      var i: U16 := 0;
      while i < size
        invariant i <= size
        invariant Verify(m, p, size) == ScanUp(m, p.pattern, i, size)
      {
        var observed := if i in stuck then stuck[i] else a[i];
        assert observed == m.Read(i);
        if observed != Expected(p.pattern, i) {
          return Some(i);
        }
        i := i + 1;
      }
      return None;
    } else {
      var i: U16 := size;
      while i > 0
        invariant Verify(m, p, size) == ScanDown(m, p.pattern, i)
      {
        var observed := if i in stuck then stuck[i] else a[i];
        assert observed == m.Read(i);
        if observed != Expected(p.pattern, i) {
          return Some(i);
        }
        i := i - 1;
      }
      return None;
    }
  }
}
