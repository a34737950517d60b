/** What the command interpreter answers, as events, and the exact text each
    event's `printf`/`printf_P` calls put on the output stream. */
module Responses {
  import opened Common
  import opened Decimal

  datatype Response =
    | Value(value: Byte)                              // `n`
    | Help(page: nat)                                 // `h` or `?`
    | Info(start: U16, end: U16, size: U16)           // `o`
    | TestPassed                                      // `t`, status 0
    | TestFailed(failAddr: U16, test: Byte)           // `t`, status nonzero
    | Size(size: U16)                                 // `s`
    | Filled(index: U16, value: Byte)                 // `f`
    | CurrentBank(id: nat)                            // `b`
    | RawByte(addr: U16, value: Byte)                 // `a`
    | Indexed(index: U16, addr: U16, value: Byte)     // `i`
    | Error                                           // any other byte

  const HelpPageCount: nat := 6

  /** A line of output: its text followed by CR LF. */
  function Line(s: string): (t: string)
    ensures |t| == |s| + 2 && t[..|s|] == s && t[|s|..] == "\r\n"
  {
    s + "\r\n"
  }

  /** The six help pages, each without its final CR LF; the first five end
      with a prompt for the next. */
  function HelpPage(page: nat): string
  {
    if page == 0 then
      "\nAvailable Commnds\r\n" + "o - print info\r\n" + "\tPress h again for next page"
    else if page == 1 then
      "t - SRAM test status\r\n" + "s - size of SRAM\r\n" + "\tPress h again for next page"
    else if page == 2 then
      "b - current bank\r\n" + "0 - select bank 0\r\n" + "\tPress h again for next page"
    else if page == 3 then
      "1 - select bank 1\r\n" + "f??? - fill array at index ?? with data byte ? and return status\r\n"
      + "\tPress h again for next page"
    else if page == 4 then
      "g??? - fill array at index ?? with data byte ? but no status msg\r\n" + "a?? - data at address ?? \r\n"
      + "\tPress h again for next page"
    else
      "i?? - data at SRAM array index ?? \r\n" + "n - data at next SRAM array index - set start index with i?? \r\n"
      + "\tThis is the end of the help page.\r\n"
  }

  /** The characters one response prints; every response ends its line. */
  function Text(r: Response): (t: string)
    ensures 2 <= |t| && t[|t| - 2..] == "\r\n"
  {
    match r
    case Value(v) => Line(Field(v, 3))
    case Help(page) => Line(HelpPage(page))
    case Info(start, end, size) =>
      Line("SRAM StartAddr = " + Field(start, 5) + "," + " EndAddr = " + Field(end, 5) + ","
      + " Size = " + Field(size, 5) + " bytes")
    case TestPassed => Line("External_SRAM_Passed_Pattern_Tests")
    case TestFailed(addr, test) =>
      Line("SRAM_Fail_Addr = " + Field(addr, 5) + "," + " Failed_Test " + Field(test, 0))
    case Size(size) => Line(Field(size, 5))
    case Filled(index, v) => Line("Filled EMA[" + Field(index, 5) + "] with " + Field(v, 3))
    case CurrentBank(id) => Line("SRAM_Bank = " + Field(id, 0))
    case RawByte(addr, v) => Line("Addr: " + Field(addr, 5) + ": = " + Field(v, 3))
    case Indexed(index, addr, v) =>
      Line("EMA[" + Field(index, 5) + "] = Addr:" + Field(addr, 5) + " = " + Field(v, 3))
    case Error => Line(Field(Ascii('f'), 3) + "-ERROR")
  }

  /** A string as the bytes `sendData` receives, each `(uint8_t)c`. */
  function Bytes(s: string): (b: seq<Byte>)
    ensures |b| == |s| && forall i | 0 <= i < |s| :: b[i] == Ascii(s[i])
  {
    seq(|s|, i requires 0 <= i < |s| => Ascii(s[i]))
  }

  /** The bytes a sequence of responses puts on the output stream. */
  function Encode(rs: seq<Response>): seq<Byte>
    decreases |rs|
  {
    if rs == [] then [] else Bytes(Text(rs[0])) + Encode(rs[1..])
  }

  lemma {:induction false} EncodeAppend(a: seq<Response>, b: seq<Response>)
    ensures Encode(a + b) == Encode(a) + Encode(b)
    decreases |a|
  {
    if a == [] {
      assert a + b == b;
    } else {
      assert (a + b)[1..] == a[1..] + b;
      EncodeAppend(a[1..], b);
    }
  }

  lemma EncodeSingle(r: Response)
    ensures Encode([r]) == Bytes(Text(r))
  {
    assert [r][1..] == [];
  }

  /** An unrecognised command byte prints the fixed error token: the
      character code of 'f' in a three-wide field, then `-ERROR`. */
  lemma ErrorToken()
    ensures Text(Error) == "102-ERROR\r\n"
  {
    assert Ascii('f') == 102;
    assert Digits(1) == "1";
    assert Digits(10) == Digits(1) + "0" == "10";
    assert Digits(102) == Digits(10) + "2" == "102";
    assert Field(102, 3) == "102";
  }
}
