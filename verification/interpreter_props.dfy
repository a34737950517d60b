/** What each command of `MainTask` does to the session, the queues and the
    output, and what the startup sequence leaves for the `t` command. */
module InterpreterProps {
  import opened Common
  import opened Sram
  import opened ByteQueue
  import opened Responses
  import opened Interpreter
  import PatternTest
  import PatternTestProps
  import Decimal

  /** A command whose arguments have all arrived consumes exactly them and
      leaves the bytes after it queued. */
  lemma StepReads(cfg: Config, s: Session, c: Byte, args: seq<Byte>, rest: seq<Byte>, capacity: nat)
    requires s.Valid() && |args| == Arity(c) && 1 + |args| + |rest| <= capacity
    ensures var r, a := Step(cfg, s, Queue([c] + args + rest, capacity)), Act(cfg, s, c, args);
      r.session == a.0 && r.out == a.1 && r.inbound == Queue(rest, capacity)
  {
    var q := Queue([c] + args + rest, capacity);
    assert q.items[0] == c && q.items[1..] == args + rest;
    var (_, q1) := GetChar(q);
    var (got, left) := ReadArgs(q1, |args|);
    assert got == args;
    assert left.items == (args + rest)[|args|..] == rest;
  }

  /** An argument byte that has not arrived reads as 0xFF, the low byte of
      `EOF`: a command cut short acts as if its missing arguments were 0xFF
      and leaves the inbound queue empty. */
  lemma MissingArguments(cfg: Config, s: Session, q: Queue)
    requires s.Valid() && q.Valid() && !q.IsEmpty() && |q.items| < 1 + Arity(q.items[0])
    ensures var c := q.items[0];
      var r, a := Step(cfg, s, q), Act(cfg, s, c, q.items[1..] + seq(1 + Arity(c) - |q.items|, _ => 0xFF));
      r.session == a.0 && r.out == a.1 && r.inbound.IsEmpty()
  {
    var c := q.items[0];
    var (_, q1) := GetChar(q);
    var (got, _) := ReadArgs(q1, Arity(c));
    assert got == q.items[1..] + seq(1 + Arity(c) - |q.items|, _ => 0xFF);
  }

  /** `f hi lo v` and `g hi lo v` store v at index `hi*256 + lo` of the
      mapped bank; nothing else in the session changes. `f` then prints the
      index and the value read back, which is v unless the cell is stuck;
      `g` prints nothing. */
  lemma FillCommand(cfg: Config, s: Session, cmd: Byte, hi: Byte, lo: Byte, v: Byte)
    requires s.Valid() && (cmd == Ascii('f') || cmd == Ascii('g'))
    ensures var w, r := Word(hi, lo), Act(cfg, s, cmd, [hi, lo, v]);
      && r.0.Mem().cells == s.Mem().cells[w := v]
      && r.0.Mem().stuck == s.Mem().stuck
      && r.0 == s.WithMem(r.0.Mem())
      && r.1 == (if cmd == Ascii('f') then [Filled(w, r.0.Mem().Read(w))] else [])
      && (w !in s.Mem().stuck ==> r.0.Mem().Read(w) == v)
      && (forall j: U16 | j != w :: r.0.Mem().Read(j) == s.Mem().Read(j))
  {
    CommandCodes();
  }

  /** `i hi lo` moves the index to `hi*256 + lo`; nothing else in the
      session changes. */
  lemma IndexCommand(cfg: Config, s: Session, hi: Byte, lo: Byte)
    requires s.Valid()
    ensures Act(cfg, s, Ascii('i'), [hi, lo]).0 == s.(index := Word(hi, lo))
  {
    IndexBranch(cfg, s, hi, lo);
  }

  /** `i hi lo` prints the new index with its absolute address and the byte
      the mapped bank reads there. */
  lemma IndexReport(cfg: Config, s: Session, hi: Byte, lo: Byte)
    requires s.Valid()
    ensures var w := Word(hi, lo);
      Act(cfg, s, Ascii('i'), [hi, lo]).1 == [Indexed(w, Add16(cfg.sramStart, w), s.Mem().Read(w))]
  {
    IndexBranch(cfg, s, hi, lo);
  }

  /** The byte `i` selects `IndexTo` in the dispatch. */
  lemma IndexBranch(cfg: Config, s: Session, hi: Byte, lo: Byte)
    requires s.Valid()
    ensures Act(cfg, s, Ascii('i'), [hi, lo]) == IndexTo(cfg, s, Word(hi, lo))
  {
    CommandCodes();
  }

  /** `n` prints the byte at the index and then advances the index, wrapping
      from 0xFFFF to 0. */
  lemma NextCommand(cfg: Config, s: Session)
    requires s.Valid()
    ensures var r := Act(cfg, s, Ascii('n'), []);
      && r.0 == s.(index := (s.index + 1) % 0x1_0000)
      && r.1 == [Value(s.Mem().Read(s.index))]
      && (s.index == 0xFFFF ==> r.0.index == 0)
  {
    CommandCodes();
  }

  /** The reporting commands `o`, `t`, `s`, `b` and `a` leave the session as
      it was and print one response each: the SRAM window, the test verdict,
      the size, the mapped bank, and the byte at an absolute address. */
  lemma ReadOnlyCommands(cfg: Config, s: Session, c: Byte, args: seq<Byte>)
    requires s.Valid() && |args| == Arity(c)
    requires c == Ascii('o') || c == Ascii('t') || c == Ascii('s') || c == Ascii('b') || c == Ascii('a')
    ensures var r := Act(cfg, s, c, args);
      && r.0 == s
      && (c == Ascii('o') ==> r.1 == [Info(cfg.sramStart, cfg.sramEnd, cfg.sramSize)])
      && (c == Ascii('t') ==> r.1 == [if s.testStatus != 0 then TestFailed(s.failAddr, s.testStatus) else TestPassed])
      && (c == Ascii('s') ==> r.1 == [Size(cfg.sramSize)])
      && (c == Ascii('b') ==> r.1 == [CurrentBank(BankNumber(s.bank))])
      && (c == Ascii('a') ==> r.1 == [RawByte(Word(args[0], args[1]), RawRead(cfg, s, Word(args[0], args[1])))])
  {
    CommandCodes();
  }

  /** No command touches the test result, and only `f`/`g` write memory,
      and then only the mapped bank. */
  lemma CommandFrame(cfg: Config, s: Session, c: Byte, args: seq<Byte>)
    requires s.Valid() && |args| == Arity(c)
    ensures var r := Act(cfg, s, c, args).0;
      && r.testStatus == s.testStatus && r.failAddr == s.failAddr
      && (c != Ascii('f') && c != Ascii('g') ==> r.bank0 == s.bank0 && r.bank1 == s.bank1)
      && (s.bank == Bank0 ==> r.bank1 == s.bank1)
      && (s.bank == Bank1 ==> r.bank0 == s.bank0)
  {
    CommandCodes();
  }

  /** `0` or `1` prints nothing, changes only which bank is mapped (keeping
      both banks' contents), and a following `b` reports the bank it mapped. */
  lemma SelectThenReport(cfg: Config, s: Session, c: Byte)
    requires s.Valid() && (c == Ascii('0') || c == Ascii('1'))
    ensures var r := Act(cfg, s, c, []);
      && r.1 == []
      && r.0 == s.(bank := if c == Ascii('0') then Bank0 else Bank1)
      && r.0.bank0 == s.bank0 && r.0.bank1 == s.bank1
      && Act(cfg, r.0, Ascii('b'), []).1 == [CurrentBank(c - Ascii('0'))]
  {
    CommandCodes();
  }

  /** A byte stored with `f` or `g` is what `i` at the same index then
      reports, unless that cell is stuck. */
  lemma FillThenIndex(cfg: Config, s: Session, c: Byte, hi: Byte, lo: Byte, v: Byte)
    requires s.Valid() && (c == Ascii('f') || c == Ascii('g'))
    ensures var w, s1 := Word(hi, lo), Act(cfg, s, c, [hi, lo, v]).0;
      Act(cfg, s1, Ascii('i'), [hi, lo]).1 ==
        [Indexed(w, Add16(cfg.sramStart, w), if w in s.Mem().stuck then s.Mem().stuck[w] else v)]
  {
    FillCommand(cfg, s, c, hi, lo, v);
    var s1 := Act(cfg, s, c, [hi, lo, v]).0;
    IndexReport(cfg, s1, hi, lo);
  }

  /** Inside the SRAM window, `a ahi alo` at the absolute address of index
      `hi lo` reads the mapped bank's cell at that index: the byte `i hi lo`
      reports, with the same address (`IndexReport`). */
  lemma AddressMatchesIndex(cfg: Config, s: Session, hi: Byte, lo: Byte, ahi: Byte, alo: Byte)
    requires s.Valid() && Word(ahi, alo) == cfg.sramStart + Word(hi, lo) <= cfg.sramEnd
    ensures Add16(cfg.sramStart, Word(hi, lo)) == Word(ahi, alo)
    ensures Act(cfg, s, Ascii('a'), [ahi, alo]).1 == [RawByte(Word(ahi, alo), s.Mem().Read(Word(hi, lo)))]
  {
    AddressBranch(cfg, s, ahi, alo);
  }

  /** The byte `a` selects the raw read in the dispatch. */
  lemma AddressBranch(cfg: Config, s: Session, hi: Byte, lo: Byte)
    requires s.Valid()
    ensures var w := Word(hi, lo);
      Act(cfg, s, Ascii('a'), [hi, lo]) == (s, [RawByte(w, RawRead(cfg, s, w))])
  {
    CommandCodes();
  }

  /** Mapping bank 1 and then reading from it reaches bank 1's cells; bank
      0 keeps its contents meanwhile. */
  lemma SelectThenRead(cfg: Config, s: Session)
    requires s.Valid()
    ensures var s1 := Act(cfg, s, Ascii('1'), []).0;
      Act(cfg, s1, Ascii('n'), []).1 == [Value(s.bank1.Read(s.index))] && s1.bank0 == s.bank0
  {
    CommandCodes();
  }

  /** A run whose first command has all its arguments: that command's
      output, then the rest of the run from the session it leaves. */
  lemma RunCons(cfg: Config, s: Session, c: Byte, args: seq<Byte>, rest: seq<Byte>, capacity: nat)
    requires s.Valid() && |args| == Arity(c) && 1 + |args| + |rest| <= capacity
    ensures var a := Act(cfg, s, c, args);
      var later := Run(cfg, a.0, Queue(rest, capacity));
      Run(cfg, s, Queue([c] + args + rest, capacity)) == later.(out := a.1 + later.out)
  {
    StepReads(cfg, s, c, args, rest, capacity);
  }

  /** `i hi lo` followed by `n` reports the chosen cell twice and leaves
      the index on the cell after it. */
  lemma IndexThenNext(cfg: Config, s: Session, hi: Byte, lo: Byte, capacity: nat)
    requires s.Valid() && 4 <= capacity
    ensures var w, r := Word(hi, lo), Run(cfg, s, Queue([Ascii('i'), hi, lo, Ascii('n')], capacity));
      && r.session == s.(index := Add16(w, 1))
      && r.out == [Indexed(w, Add16(cfg.sramStart, w), s.Mem().Read(w)), Value(s.Mem().Read(w))]
  {
    var w := Word(hi, lo);
    assert [Ascii('i'), hi, lo, Ascii('n')] == [Ascii('i')] + [hi, lo] + ([Ascii('n')] + []);
    RunPair(cfg, s, Ascii('i'), [hi, lo], Ascii('n'), [], capacity);
    IndexBranch(cfg, s, hi, lo);
    NextBranch(cfg, s.(index := w));
  }

  /** A run of two commands, each with all its arguments: the second acts
      on the session the first leaves, and their outputs follow each other. */
  lemma RunPair(cfg: Config, s: Session, c1: Byte, args1: seq<Byte>, c2: Byte, args2: seq<Byte>, capacity: nat)
    requires s.Valid() && |args1| == Arity(c1) && |args2| == Arity(c2)
    requires 2 + |args1| + |args2| <= capacity
    ensures var x := Act(cfg, s, c1, args1);
      var y := Act(cfg, x.0, c2, args2);
      Run(cfg, s, Queue([c1] + args1 + ([c2] + args2), capacity)) == StepResult(y.0, Queue([], capacity), x.1 + y.1)
  {
    RunCons(cfg, s, c1, args1, [c2] + args2, capacity);
    RunLast(cfg, Act(cfg, s, c1, args1).0, c2, args2, capacity);
  }

  /** A run of one command with all its arguments. */
  lemma RunLast(cfg: Config, s: Session, c: Byte, args: seq<Byte>, capacity: nat)
    requires s.Valid() && |args| == Arity(c) && 1 + |args| <= capacity
    ensures var a := Act(cfg, s, c, args);
      Run(cfg, s, Queue([c] + args, capacity)) == StepResult(a.0, Queue([], capacity), a.1)
  {
    assert [c] + args + [] == [c] + args;
    StepReads(cfg, s, c, args, [], capacity);
  }

  /** The byte `n` selects the read-and-advance branch of the dispatch. */
  lemma NextBranch(cfg: Config, s: Session)
    requires s.Valid()
    ensures Act(cfg, s, Ascii('n'), []) == (s.(index := Add16(s.index, 1)), [Value(s.Mem().Read(s.index))])
  {
    CommandCodes();
  }

  /** Any byte outside the command table prints the error token and
      changes nothing. */
  lemma UnknownCommand(cfg: Config, s: Session, c: Byte)
    requires s.Valid() && !IsCommand(c)
    ensures var r := Act(cfg, s, c, []);
      r.0 == s && r.1 == [Error] && Encode(r.1) == Bytes("102-ERROR\r\n")
  {
    CommandCodes();
    ErrorToken();
    EncodeSingle(Error);
  }

  /** Every recognised byte is handled by its own branch: none of them is
      answered with the error token. */
  lemma KnownCommand(cfg: Config, s: Session, c: Byte, args: seq<Byte>)
    requires s.Valid() && IsCommand(c) && |args| == Arity(c)
    ensures Error !in Act(cfg, s, c, args).1
  {
    CommandCodes();
  }

  /** `h` and `?` print the page the counter names and advance it
      cyclically; nothing else changes. */
  lemma HelpCommand(cfg: Config, s: Session, c: Byte)
    requires s.Valid() && (c == Ascii('h') || c == Ascii('?'))
    ensures var r := Act(cfg, s, c, []);
      && r.0 == s.(helpPage := NextHelpPage(s.helpPage))
      && r.1 == [Help(ShownPage(s.helpPage))]
      && r.0.helpPage <= 5
      && (s.helpPage <= 5 ==> r.0.helpPage == (s.helpPage + 1) % HelpPageCount && r.1 == [Help(s.helpPage)])
  {
    CommandCodes();
  }

  /** n copies of one command byte. */
  function Repeat(c: Byte, n: nat): (r: seq<Byte>)
    ensures |r| == n
  {
    if n == 0 then [] else [c] + Repeat(c, n - 1)
  }

  /** The page counter after n help commands. */
  function PageAfter(p: Byte, n: nat): Byte
    decreases n
  {
    if n == 0 then p else PageAfter(NextHelpPage(p), n - 1)
  }

  /** The pages n help commands print, the counter starting at p. */
  function HelpPages(p: Byte, n: nat): (r: seq<Response>)
    ensures |r| == n
    decreases n
  {
    if n == 0 then [] else [Help(ShownPage(p))] + HelpPages(NextHelpPage(p), n - 1)
  }

  /** n help commands in a row print the pages the counter names, one after
      the other, and leave the counter n pages on. */
  lemma {:induction false} HelpRun(cfg: Config, s: Session, n: nat, capacity: nat)
    requires s.Valid() && n <= capacity
    ensures var r := Run(cfg, s, Queue(Repeat(Ascii('h'), n), capacity));
      r.session == s.(helpPage := PageAfter(s.helpPage, n)) && r.out == HelpPages(s.helpPage, n)
    decreases n
  {
    if n == 0 {
      assert s.(helpPage := s.helpPage) == s;
    } else {
      var s1 := s.(helpPage := NextHelpPage(s.helpPage));
      var tail := Repeat(Ascii('h'), n - 1);
      assert Repeat(Ascii('h'), n) == [Ascii('h')] + [] + tail;
      HelpCommand(cfg, s, Ascii('h'));
      RunCons(cfg, s, Ascii('h'), [], tail, capacity);
      HelpRun(cfg, s1, n - 1, capacity);
    }
  }

  /** From a page in range the counter moves on cyclically modulo six, and
      the i-th page printed is page p+i modulo six. */
  lemma {:induction false} PagesCycle(p: Byte, n: nat)
    requires p < HelpPageCount
    ensures PageAfter(p, n) == (p + n) % 6
    ensures forall i | 0 <= i < n :: HelpPages(p, n)[i] == Help((p + i) % 6)
    decreases n
  {
    if n > 0 {
      var q := NextHelpPage(p);
      PagesCycle(q, n - 1);
      NextPageShift(p, n - 1);
      forall i | 0 < i < n
        ensures HelpPages(p, n)[i] == Help((p + i) % 6)
      {
        assert HelpPages(p, n)[i] == HelpPages(q, n - 1)[i - 1];
        NextPageShift(p, i - 1);
      }
    }
  }

  /** Counting k pages on from the next page is counting k+1 from p. */
  lemma NextPageShift(p: Byte, k: nat)
    requires p < HelpPageCount
    ensures (NextHelpPage(p) + k) % 6 == (p + 1 + k) % 6
  {
    if p == 5 {
      assert p + 1 + k == k + 6;
    }
  }

  /** Six help commands in a row (see `HelpRun`) show all six pages and
      bring the counter back to where it started. */
  lemma HelpCycle(p: Byte)
    requires p < HelpPageCount
    ensures PageAfter(p, HelpPageCount) == p
    ensures forall page | 0 <= page < HelpPageCount :: Help(page) in HelpPages(p, HelpPageCount)
  {
    PagesCycle(p, HelpPageCount);
    forall page | 0 <= page < HelpPageCount
      ensures Help(page) in HelpPages(p, HelpPageCount)
    {
      var i := (page - p + 6) % 6;
      assert HelpPages(p, HelpPageCount)[i] == Help(page);
    }
  }

  /** The startup sequence keeps only bank 1's verdict: `t` reports bank 1
      whatever bank 0's test found. */
  lemma StartupReportsBankOne(cfg: Config, o0: PatternTest.Outcome, o1: PatternTest.Outcome)
    requires o0.after.Valid() && o1.after.Valid()
    requires o1.verdict.Failed? ==> 1 <= o1.verdict.test <= PatternTest.TestCount
    ensures Act(cfg, Booted(o0, o1), Ascii('t'), []).1 ==
      [match o1.verdict case Passed => TestPassed case Failed(t, addr) => TestFailed(addr, t)]
  {
  }

  /** With both banks free of faults, `t` reports that the tests passed and
      no failing address is recorded. */
  lemma FaultFreeStartup(cfg: Config, mem0: Memory, mem1: Memory)
    requires mem0.Valid() && mem1.Valid() && mem0.FaultFree() && mem1.FaultFree()
    ensures Boot(cfg, mem0, mem1).testStatus == 0 && Boot(cfg, mem0, mem1).failAddr == 0
  {
    PatternTestProps.FaultFreePasses(mem0, cfg.sramStart, cfg.sramStart, cfg.sramEnd);
    PatternTestProps.FaultFreePasses(mem1, cfg.sramStart, cfg.sramStart, cfg.sramEnd);
    BootedStatus(PatternTest.RunTests(mem0, cfg.sramStart, cfg.sramStart, cfg.sramEnd),
                 PatternTest.RunTests(mem1, cfg.sramStart, cfg.sramStart, cfg.sramEnd));
  }

  /** What the startup leaves in `SRAMTestStatus` and `firstSRAMfailAddress`:
      bank 1's status alone, and the failing address of the last bank that
      failed. In particular a bank 0 failure followed by a bank 1 pass
      leaves status 0 beside bank 0's failing address. */
  lemma BootedStatus(o0: PatternTest.Outcome, o1: PatternTest.Outcome)
    requires o0.after.Valid() && o1.after.Valid()
    requires o1.verdict.Failed? ==> 1 <= o1.verdict.test <= PatternTest.TestCount
    ensures var s := Booted(o0, o1);
      && (s.testStatus == 0 <==> o1.verdict.Passed?)
      && (o1.verdict.Failed? ==> s.testStatus == o1.verdict.test && s.failAddr == o1.verdict.addr)
      && (o1.verdict.Passed? && o0.verdict.Failed? ==> s.failAddr == o0.verdict.addr)
      && (o1.verdict.Passed? && o0.verdict.Passed? ==> s.failAddr == 0)
  {
  }

  /** `f 0x00 0x05 0x2A` on a cell that is not stuck stores 42 at index 5 and
      prints `Filled EMA[    5] with  42`. */
  lemma FillExample(cfg: Config, s: Session)
    requires s.Valid() && 5 !in s.Mem().stuck
    ensures var r := Act(cfg, s, Ascii('f'), [0x00, 0x05, 0x2A]);
      && r.0.Mem().Read(5) == 42
      && Encode(r.1) == Bytes("Filled EMA[    5] with  42\r\n")
  {
    CommandCodes();
    FillCommand(cfg, s, Ascii('f'), 0x00, 0x05, 0x2A);
    FilledText();
    EncodeSingle(Filled(5, 42));
  }

  lemma FilledText()
    ensures Text(Filled(5, 42)) == "Filled EMA[    5] with  42\r\n"
  {
    FieldOfFive();
    FieldOfFortyTwo();
  }

  lemma FieldOfFive()
    ensures Decimal.Field(5, 5) == "    5"
  {
    assert Decimal.Digits(5) == "5";
  }

  lemma FieldOfFortyTwo()
    ensures Decimal.Field(42, 3) == " 42"
  {
    assert Decimal.Digits(42) == Decimal.Digits(4) + "2";
  }

  /** `s` with an 8192-byte SRAM prints the size in a five-wide field. */
  lemma SizeExample(cfg: Config, s: Session)
    requires s.Valid() && cfg.sramSize == 8192
    ensures Encode(Act(cfg, s, Ascii('s'), []).1) == Bytes(" 8192\r\n")
  {
    CommandCodes();
    assert Act(cfg, s, Ascii('s'), []).1 == [Size(8192)];
    EncodeSingle(Size(8192));
    SizeText();
  }

  lemma SizeText()
    ensures Text(Size(8192)) == " 8192\r\n"
  {
    DigitsOf8192();
  }

  lemma DigitsOf8192()
    ensures Decimal.Digits(8192) == "8192"
  {
    assert Decimal.Digits(81) == "81";
    assert Decimal.Digits(8192) == Decimal.Digits(819) + "2";
  }
}
