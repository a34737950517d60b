/** `MainTask`: the single-character command interpreter, and the startup
    sequence that tests both SRAM banks before it first runs.

    The firmware's globals (`EMAindex`, `currentHelpPage`, the selected
    bank, `SRAMTestStatus`, `firstSRAMfailAddress`) and the contents of the
    two banks form an explicit `Session`; one command is a pure `Step` from
    a session and the inbound queue to a new session, the rest of the queue
    and the responses printed. */
module Interpreter {
  import opened Common
  import opened Sram
  import opened ByteQueue
  import opened Responses
  import PatternTest

  datatype Bank = Bank0 | Bank1

  /** What the firmware takes from its header and from the chip: the SRAM
      window's start, end and size, and what an absolute address outside
      that window reads. */
  datatype Config = Config(sramStart: U16, sramEnd: U16, sramSize: U16, rawRead: U16 -> Byte)

  datatype Session = Session(
    index: U16,            // EMAindex
    helpPage: Byte,        // currentHelpPage
    bank: Bank,            // the bank SELECT_EXT_SRAM_BANK* last mapped
    bank0: Memory,
    bank1: Memory,
    testStatus: Byte,      // SRAMTestStatus
    failAddr: U16)         // firstSRAMfailAddress
  {
    predicate Valid()
    {
      bank0.Valid() && bank1.Valid()
    }

    /** The memory `ExtMemArray` currently shows. */
    function Mem(): Memory
    {
      if bank == Bank0 then bank0 else bank1
    }

    function WithMem(m: Memory): Session
    {
      if bank == Bank0 then this.(bank0 := m) else this.(bank1 := m)
    }
  }

  /** The number `CURRENT_SRAM_BANK` reports for a bank. */
  function BankNumber(b: Bank): nat
  {
    if b == Bank0 then 0 else 1
  }

  datatype StepResult = StepResult(session: Session, inbound: Queue, out: seq<Response>)

  /** stdio's `EOF`, which `getchar` returns when `getData` reports
      `_FDEV_EOF`. */
  const Eof: int := -1

  /** `x = getchar()` with x a `uint8_t`: the oldest inbound byte, or, when
      the queue is empty, the low byte of `EOF`. */
  function GetChar(q: Queue): (r: (Byte, Queue))
    requires q.Valid()
    ensures r.1.Valid() && r.1.capacity == q.capacity
    ensures q.IsEmpty() ==> r == (0xFF, q)
    ensures !q.IsEmpty() ==> r.0 == q.items[0] && r.1.items == q.items[1..]
  {
    var (c, rest) := GetData(q);
    (Trunc8(if c < 0 then Eof else c), rest)
  }

  /** The command bytes `MainTask` recognises; every other byte is answered
      with the error token. */
  predicate IsCommand(c: Byte)
  {
    c in {Ascii('n'), Ascii('h'), Ascii('?'), Ascii('o'), Ascii('t'), Ascii('s'), Ascii('f'),
          Ascii('g'), Ascii('b'), Ascii('0'), Ascii('1'), Ascii('a'), Ascii('i')}
  }

  /** The character codes of the command bytes. */
  lemma CommandCodes()
    ensures Ascii('n') == 110 && Ascii('h') == 104 && Ascii('?') == 63 && Ascii('o') == 111
    ensures Ascii('t') == 116 && Ascii('s') == 115 && Ascii('f') == 102 && Ascii('g') == 103
    ensures Ascii('b') == 98 && Ascii('0') == 48 && Ascii('1') == 49 && Ascii('a') == 97
    ensures Ascii('i') == 105
  {
  }

  /** Argument bytes each command reads after its command byte. */
  function Arity(c: Byte): nat
  {
    if c == Ascii('f') || c == Ascii('g') then 3
    else if c == Ascii('a') || c == Ascii('i') then 2
    else 0
  }

  function Min(a: nat, b: nat): nat
  {
    if a < b then a else b
  }

  /** The help page after `h` or `?`: 0 → 1 → … → 5, and any other value
      back to 0. */
  function NextHelpPage(p: Byte): Byte
  {
    if p < 5 then p + 1 else 0
  }

  /** The help page printed for the current page counter. */
  function ShownPage(p: Byte): nat
  {
    if p < 5 then p else 5
  }

  /** The `getchar` calls after a command byte: n bytes in arrival order,
      each missing one read as the low byte of `EOF`. */
  function ReadArgs(q: Queue, n: nat): (r: (seq<Byte>, Queue))
    requires q.Valid()
    ensures r.1.Valid() && r.1.capacity == q.capacity
    ensures |r.0| == n && r.1.items == q.items[Min(n, |q.items|)..]
    ensures forall i | 0 <= i < n :: r.0[i] == if i < |q.items| then q.items[i] else 0xFF
    decreases n
  {
    if n == 0 then ([], q)
    else
      var (c, q1) := GetChar(q);
      var (more, rest) := ReadArgs(q1, n - 1);
      ([c] + more, rest)
  }

  /** What one command does once its arguments are read: the new session
      and what it prints. */
  function Act(cfg: Config, s: Session, c: Byte, args: seq<Byte>): (r: (Session, seq<Response>))
    requires s.Valid() && |args| == Arity(c)
    ensures r.0.Valid()
    ensures s.helpPage <= 5 ==> r.0.helpPage <= 5
  {
    if c == Ascii('n') then
      (s.(index := Add16(s.index, 1)), [Value(s.Mem().Read(s.index))])
    else if c == Ascii('h') || c == Ascii('?') then
      (s.(helpPage := NextHelpPage(s.helpPage)), [Help(ShownPage(s.helpPage))])
    else if c == Ascii('o') then
      (s, [Info(cfg.sramStart, cfg.sramEnd, cfg.sramSize)])
    else if c == Ascii('t') then
      (s, [if s.testStatus != 0 then TestFailed(s.failAddr, s.testStatus) else TestPassed])
    else if c == Ascii('s') then
      (s, [Size(cfg.sramSize)])
    else if c == Ascii('f') || c == Ascii('g') then
      var w := Word(args[0], args[1]);
      var s' := s.WithMem(s.Mem().Write(w, args[2]));
      (s', if c == Ascii('f') then [Filled(w, s'.Mem().Read(w))] else [])
    else if c == Ascii('b') then
      (s, [CurrentBank(BankNumber(s.bank))])
    else if c == Ascii('0') then
      (s.(bank := Bank0), [])
    else if c == Ascii('1') then
      (s.(bank := Bank1), [])
    else if c == Ascii('a') then
      var w := Word(args[0], args[1]);
      (s, [RawByte(w, RawRead(cfg, s, w))])
    else if c == Ascii('i') then
      IndexTo(cfg, s, Word(args[0], args[1]))
    else
      (s, [Error])
  }

  /** `*(uint8_t*)w`, the read behind `a`: inside the SRAM window the byte
      is the mapped bank's cell `w - EXT_SRAM_START`, the cell `ExtMemArray`
      names at that address; elsewhere it is what the chip holds there. */
  function RawRead(cfg: Config, s: Session, w: U16): Byte
    requires s.Valid()
  {
    if cfg.sramStart <= w <= cfg.sramEnd then s.Mem().Read(w - cfg.sramStart) else cfg.rawRead(w)
  }

  /** `i hi lo` once its address w is assembled: `EMAindex = w`, then the
      index, `&ExtMemArray[w]` and the byte there are printed. */
  function IndexTo(cfg: Config, s: Session, w: U16): (Session, seq<Response>)
    requires s.Valid()
  {
    (s.(index := w), [Indexed(w, Add16(cfg.sramStart, w), s.Mem().Read(w))])
  }

  /** One pass of `MainTask`'s loop body: read a command byte, then its
      arguments, act, and print. */
  function Step(cfg: Config, s: Session, q: Queue): (r: StepResult)
    requires s.Valid() && q.Valid() && !q.IsEmpty()
    ensures r.session.Valid() && r.inbound.Valid() && r.inbound.capacity == q.capacity
    ensures r.inbound.items == q.items[Min(1 + Arity(q.items[0]), |q.items|)..]
    ensures s.helpPage <= 5 ==> r.session.helpPage <= 5
  {
    var (c, q1) := GetChar(q);
    var (args, rest) := ReadArgs(q1, Arity(c));
    var (s', out) := Act(cfg, s, c, args);
    StepResult(s', rest, out)
  }

  /** `MainTask`: commands are executed while the inbound queue holds a
      byte; the responses of successive commands follow each other. */
  function Run(cfg: Config, s: Session, q: Queue): (r: StepResult)
    requires s.Valid() && q.Valid()
    ensures r.session.Valid() && r.inbound.Valid() && r.inbound.capacity == q.capacity
    ensures r.inbound.IsEmpty()
    ensures s.helpPage <= 5 ==> r.session.helpPage <= 5
    decreases |q.items|
  {
    if HaveData(q) == 0 then StepResult(s, q, [])
    else
      var first := Step(cfg, s, q);
      var rest := Run(cfg, first.session, first.inbound);
      StepResult(rest.session, rest.inbound, first.out + rest.out)
  }

  /** A run's result with `earlier` printed before it. */
  function After(earlier: seq<Response>, r: StepResult): StepResult
  {
    r.(out := earlier + r.out)
  }

  /** One more command of the loop, seen from the whole run. */
  lemma RunStep(cfg: Config, s: Session, q: Queue, earlier: seq<Response>)
    requires s.Valid() && q.Valid() && !q.IsEmpty()
    ensures var r := Step(cfg, s, q);
      After(earlier, Run(cfg, s, q)) == After(earlier + r.out, Run(cfg, r.session, r.inbound))
  {
    var r := Step(cfg, s, q);
    var later := Run(cfg, r.session, r.inbound);
    assert earlier + (r.out + later.out) == (earlier + r.out) + later.out;
  }

  /** Printing one more command's responses extends the output stream. */
  lemma PrintStep(out0: Queue, earlier: seq<Response>, more: seq<Response>)
    requires out0.Valid()
    ensures SendAll(SendAll(out0, Encode(earlier)), Encode(more)) == SendAll(out0, Encode(earlier + more))
  {
    SendAllAppend(out0, Encode(earlier), Encode(more));
    EncodeAppend(earlier, more);
  }

  /** `MainTask` with its output: each response is printed through
      `sendData` as soon as its command has run. Nothing drains the outbound
      queue meanwhile, so once it is full the rest of the text is lost. */
  method MainTask(cfg: Config, s0: Session, in0: Queue, out0: Queue)
      returns (s: Session, inbound: Queue, outbound: Queue, printed: seq<Response>)
    requires s0.Valid() && in0.Valid() && out0.Valid()
    ensures StepResult(s, inbound, printed) == Run(cfg, s0, in0)
    ensures outbound == SendAll(out0, Encode(printed))
  {
    s, inbound, outbound, printed := s0, in0, out0, [];
    assert After([], Run(cfg, s0, in0)) == Run(cfg, s0, in0);
    while HaveData(inbound) == 1
      invariant s.Valid() && inbound.Valid() && outbound.Valid()
      invariant Run(cfg, s0, in0) == After(printed, Run(cfg, s, inbound))
      invariant outbound == SendAll(out0, Encode(printed))
      decreases |inbound.items|
    {
      var r := Step(cfg, s, inbound);
      RunStep(cfg, s, inbound, printed);
      PrintStep(out0, printed, r.out);
      outbound := SendAll(outbound, Encode(r.out));
      s, inbound, printed := r.session, r.inbound, printed + r.out;
    }
    assert printed + [] == printed;
  }

  /** The value `firstSRAMfailAddress` holds after a test run: the failing
      address when the run failed, and what it held before otherwise. */
  function RecordFailure(v: PatternTest.Verdict, failAddr: U16): U16
  {
    match v
    case Passed => failAddr
    case Failed(_, addr) => addr
  }

  /** The end of `SetupHardware`: with bank 0 mapped, test it; with bank 1
      mapped, test it, overwriting the status; map bank 0 again. */
  method Startup(cfg: Config, mem0: Memory, mem1: Memory) returns (s: Session)
    requires mem0.Valid() && mem1.Valid()
    ensures s.Valid()
    ensures s == Boot(cfg, mem0, mem1)
  {
    var status0, verdict0, after0 := PatternTest.TestExtSram(mem0, cfg.sramStart, cfg.sramStart, cfg.sramEnd);
    var failAddr := RecordFailure(verdict0, 0);
    var status1, verdict1, after1 := PatternTest.TestExtSram(mem1, cfg.sramStart, cfg.sramStart, cfg.sramEnd);
    failAddr := RecordFailure(verdict1, failAddr);
    s := Session(0, 0, Bank0, after0, after1, Trunc8(status1), failAddr);
  }

  /** The session the firmware starts `MainTask` with. */
  function Boot(cfg: Config, mem0: Memory, mem1: Memory): (s: Session)
    requires mem0.Valid() && mem1.Valid()
    ensures s.Valid() && s.index == 0 && s.helpPage == 0 && s.bank == Bank0
  {
    Booted(PatternTest.RunTests(mem0, cfg.sramStart, cfg.sramStart, cfg.sramEnd),
           PatternTest.RunTests(mem1, cfg.sramStart, cfg.sramStart, cfg.sramEnd))
  }

  /** The session left by the two bank tests, whatever their outcomes. */
  function Booted(o0: PatternTest.Outcome, o1: PatternTest.Outcome): (s: Session)
    requires o0.after.Valid() && o1.after.Valid()
    ensures s.Valid() && s.index == 0 && s.helpPage == 0 && s.bank == Bank0
  {
    Session(0, 0, Bank0, o0.after, o1.after, Trunc8(PatternTest.Status(o1.verdict)),
            RecordFailure(o1.verdict, RecordFailure(o0.verdict, 0)))
  }
}
