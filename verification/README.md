# SRAM_Test firmware core in Dafny

This project models the logic of the Micropendous `SRAM_Test` firmware, which tests
external SRAM on an AVR board and then serves a one-character command
protocol over a USB virtual serial port. It has three parts.

- **The pattern tester `TestEXTSRAM`**
  - It runs seven write-then-verify passes over the SRAM array, in order:
    1. ascending count `i mod 256`;
    2. descending count;
    3. fill with 0xFF;
    4. fill with 0x00;
    5. fill with 0xAA;
    6. fill with 0x55;
    7. ascending count again.
  - It stops at the first mismatch and returns that test's number, or 0 if all seven passes succeed.
  - It records the failing address `&array[i]`, which is `base + i` truncated to 16 bits.
  - Memory has a stuck-cell fault model (`Sram.Memory`): writes are always stored, but a read of a stuck cell returns its stuck value.
  - The tester is an imperative method over an array (`PatternTest.TestExtSram`), proved equal to a functional reference (`PatternTest.RunTests`).
  - `PatternTestProps` characterises the reference in terms of the fault: which test fails, which address is blamed, and which stuck cells can be seen at all.
- **The queue adapters `haveData`, `sendData` and `getData`** (`ByteQueue`)
  - They work on a bounded FIFO of bytes.
  - `sendData` drops the byte and returns 1 when the queue is full.
  - `getData` returns `_FDEV_EOF` on an empty queue.
  - `SendAll` is a `printf` pushing its text through `sendData` one byte at a time.
- **The command interpreter `MainTask`** (`Interpreter`)
  - The firmware's globals and the two SRAM banks form an explicit `Session`.
  - `ReadArgs` reads a command's argument bytes, `Act` performs the command, and `Step` is one pass of the loop.
  - `Run` repeats commands while the inbound queue holds a byte. `MainTask` is the same loop as a method that also pushes every response's text to the outbound queue.
  - Responses are events (`Responses.Response`). `Responses.Text` gives the exact characters the firmware's `printf`/`printf_P` calls produce, using `Decimal.Field` for `%u`, `%3u` and `%5u`.
  - `Interpreter.Startup` is the end of `SetupHardware`: test bank 0, test bank 1, map bank 0 again.

Two consequences of the code are easy to miss:

- `s` prints `EXT_SRAM_SIZE` with `%5u` (`SRAM_Test.c:559`), so an 8192-byte SRAM gives `" 8192\r\n"`, padded to five characters (`InterpreterProps.SizeExample`).
- A command does not wait for argument bytes that have not arrived. The model makes this choice explicit:
  - `getData` returns `_FDEV_EOF` on an empty queue instead of blocking (`SRAM_Test.c:398-399`).
  - avr-libc's `getchar` turns that into `EOF` (-1).
  - Storing that in a `uint8_t` gives 0xFF.
  - `Interpreter.GetChar` models exactly that, and `InterpreterProps.MissingArguments` states the consequence.

## Model

| member | source | states |
|---|---|---|
| ByteQueue.HaveData | Micropendous/Firmware/SRAM_Test/SRAM_Test.c:373-375 | the result is 1 exactly when the inbound queue holds a byte, and 0 exactly when it is empty |
| ByteQueue.SendData | Micropendous/Firmware/SRAM_Test/SRAM_Test.c:381-393 | with room left, returns 0 and the byte is appended behind the others; when full, returns 1 and the queue is unchanged |
| ByteQueue.GetData | Micropendous/Firmware/SRAM_Test/SRAM_Test.c:396-402 | on an empty queue, returns `_FDEV_EOF` and leaves the queue as it was; otherwise returns the oldest byte and keeps the others in order |
| ByteQueue.SendAll | Micropendous/Firmware/SRAM_Test/SRAM_Test.c:381-393 | a text sent one `sendData` per byte: if it fits, it is appended whole; otherwise exactly the bytes that fit are kept, in order, and the queue is left full |
| ByteQueue.SendAllAppend | Micropendous/Firmware/SRAM_Test/SRAM_Test.c:381-393 | sending two texts one after the other leaves the same queue as sending their concatenation, whichever of them overflows |
| ByteQueue.Fifo | Micropendous/Firmware/SRAM_Test/SRAM_Test.c:381-402 | bytes sent into an empty queue with room for them come back from as many `getData` calls in the order they went in, and the queue is empty again |
| ByteQueue.DrainsInOrder | Micropendous/Firmware/SRAM_Test/SRAM_Test.c:396-402 | n reads from a queue holding at least n bytes return its first n bytes and leave the rest |
| Sram.Memory.Write | Micropendous/Firmware/SRAM_Test/SRAM_Test.c:565 | a store into `ExtMemArray` makes that cell read back the stored byte unless it is stuck, and every other cell reads as before |
| PatternTest.ScanUp | Micropendous/Firmware/SRAM_Test/SRAM_Test.c:417-422 | an ascending verify loop finds a mismatch exactly when some index in range reads wrong; the one it finds is the lowest |
| PatternTest.ScanDown | Micropendous/Firmware/SRAM_Test/SRAM_Test.c:428-433 | the descending verify loop checks indices ArraySize down to 1; the mismatch it finds is the highest one, and index 0 is never checked |
| PatternTest.Verify | Micropendous/Firmware/SRAM_Test/SRAM_Test.c:414-433 | a pass reports no mismatch exactly when every cell it covers matches; otherwise it reports a covered, mismatching cell with every cell before it in loop order matching |
| PatternTest.RunFrom | Micropendous/Firmware/SRAM_Test/SRAM_Test.c:408-491 | a failing run names a test after the ones already done and at most 7; the stuck cells are the same afterwards |
| PatternTest.RunTests | Micropendous/Firmware/SRAM_Test/SRAM_Test.c:408-491 | `TestEXTSRAM` as a function of the memory: the result is 0 or a test number 1..7, and memory stays a full bank with the same stuck cells (`PatternTestProps.FirstFailure` characterises the result) |
| PatternTest.TestExtSram | Micropendous/Firmware/SRAM_Test/SRAM_Test.c:408-491 | the array implementation returns a status in 0..7 that is 0 exactly on a pass and the failing test's number otherwise, with the verdict and final memory of the functional reference |
| PatternTest.VerifyLoop | Micropendous/Firmware/SRAM_Test/SRAM_Test.c:417-421 | the verify loop with its early exit reports the mismatch that `Verify` describes |
| PatternTest.WriteLoop | Micropendous/Firmware/SRAM_Test/SRAM_Test.c:425-427 | the write loop, ascending or descending, leaves the array holding the pass's pattern on its range and nothing else changed |
| PatternTestProps.FirstFailure | Micropendous/Firmware/SRAM_Test/SRAM_Test.c:417-487 | a nonzero result is the first test whose verify loop sees a mismatch; the blamed address is base plus the first mismatching index in that loop's order; no later test writes anything |
| PatternTestProps.MissSeesStuckCells | Micropendous/Firmware/SRAM_Test/SRAM_Test.c:408-491 | a covered cell reads back wrong in a pass exactly when it is stuck at a value other than the one the pass wrote |
| PatternTestProps.PassesIffUndetectable | Micropendous/Firmware/SRAM_Test/SRAM_Test.c:408-491 | returns 0 exactly when no cell below ArraySize is stuck and, when ArraySize is at least 1, cell ArraySize is not stuck at a value other than ArraySize mod 256; with ArraySize 0 a stuck cell 0 goes unnoticed |
| PatternTestProps.FaultFreePasses | Micropendous/Firmware/SRAM_Test/SRAM_Test.c:408-491 | on memory with no stuck cell the result is 0 |
| PatternTestProps.PassedLeavesCountPattern | Micropendous/Firmware/SRAM_Test/SRAM_Test.c:424-490 | after a pass, cells below ArraySize read i mod 256; when ArraySize is at least 1, cell ArraySize reads ArraySize mod 256 (written only by test 2); no cell above ArraySize was written, and with ArraySize 0 memory is as it was |
| PatternTestProps.SingleStuckCell | Micropendous/Firmware/SRAM_Test/SRAM_Test.c:408-491 | with one stuck cell the run passes or fails exactly at that cell's address, in the first test whose pattern differs from the stuck value there |
| PatternTestProps.StuckCellInRange | Micropendous/Firmware/SRAM_Test/SRAM_Test.c:414-455 | a single stuck cell below ArraySize fails test 1 unless it is stuck at its own count, then test 3 unless stuck at 0xFF, and otherwise test 4 |
| Decimal.FieldRoundTrip | Micropendous/Firmware/SRAM_Test/SRAM_Test.c:507 | a number printed with `%3u` (or any width) reads back as the same number once the padding is removed |
| Decimal.ValueOfDigits | Micropendous/Firmware/SRAM_Test/SRAM_Test.c:554 | the digits `%u` prints spell the number |
| Responses.EncodeAppend | Micropendous/Firmware/SRAM_Test/SRAM_Test.c:503-601 | the bytes of successive responses are the bytes of each response, one after the other |
| Responses.ErrorToken | Micropendous/Firmware/SRAM_Test/SRAM_Test.c:598-601 | an unrecognised command prints exactly `102-ERROR` and CRLF |
| Responses.Text | Micropendous/Firmware/SRAM_Test/SRAM_Test.c:506-601 | the characters each response prints; every one, help pages included, ends its line with CR LF |
| Interpreter.GetChar | Micropendous/Firmware/SRAM_Test/SRAM_Test.c:396-402 | `getchar` into a `uint8_t` returns the oldest byte and removes it, or returns 0xFF on an empty queue, which stays empty |
| Interpreter.ReadArgs | Micropendous/Firmware/SRAM_Test/SRAM_Test.c:561-563 | argument reads return the next bytes in arrival order, with 0xFF for each one that has not arrived, and leave the queue holding what follows |
| Interpreter.Act | Micropendous/Firmware/SRAM_Test/SRAM_Test.c:506-601 | the dispatch on the command byte keeps both banks full-sized and the help counter in 0..5, whatever the command |
| Interpreter.Step | Micropendous/Firmware/SRAM_Test/SRAM_Test.c:503-601 | one command consumes its byte plus three argument bytes for f/g, two for a/i and none otherwise, or all that is left if fewer arrived |
| Interpreter.Run | Micropendous/Firmware/SRAM_Test/SRAM_Test.c:503-602 | the loop ends with the inbound queue empty, and a help counter in 0..5 stays in 0..5 |
| Interpreter.MainTask | Micropendous/Firmware/SRAM_Test/SRAM_Test.c:495-604 | the loop leaves the session and responses of `Run`, and the outbound queue holds as much of their text as fitted |
| Interpreter.Startup | Micropendous/Firmware/SRAM_Test/SRAM_Test.c:217-221 | testing bank 0, then bank 1, then mapping bank 0 leaves the session described by `Boot` |
| Interpreter.Boot | Micropendous/Firmware/SRAM_Test/SRAM_Test.c:217-221 | `MainTask` starts on bank 0 with index 0 and help page 0 |
| InterpreterProps.StepReads | Micropendous/Firmware/SRAM_Test/SRAM_Test.c:503-592 | a command whose arguments have all arrived consumes exactly them and leaves the later bytes queued |
| InterpreterProps.RunCons | Micropendous/Firmware/SRAM_Test/SRAM_Test.c:503-504 | a run prints the first command's output and then the rest of the run, started from the session that command leaves |
| InterpreterProps.RunPair | Micropendous/Firmware/SRAM_Test/SRAM_Test.c:503-601 | a run of two complete commands is the second acting on the session the first leaves, their outputs in order, and the inbound queue ends empty |
| InterpreterProps.MissingArguments | Micropendous/Firmware/SRAM_Test/SRAM_Test.c:561-563 | a command cut short acts as if each missing argument byte were 0xFF, and leaves the inbound queue empty |
| InterpreterProps.FillCommand | Micropendous/Firmware/SRAM_Test/SRAM_Test.c:560-575 | `f`/`g hi lo v` stores v at index hi*256+lo and leaves every other cell, the index and the rest of the session unchanged; `f` echoes the index and the value read back, which is v unless the cell is stuck; `g` prints nothing |
| InterpreterProps.IndexCommand | Micropendous/Firmware/SRAM_Test/SRAM_Test.c:589-593 | `i hi lo` sets the index to hi*256+lo and changes nothing else in the session, memory included |
| InterpreterProps.IndexReport | Micropendous/Firmware/SRAM_Test/SRAM_Test.c:592-597 | `i hi lo` reports the new index, its absolute address `EXT_SRAM_START` plus the index modulo 2^16, and the byte the mapped bank reads there |
| InterpreterProps.NextCommand | Micropendous/Firmware/SRAM_Test/SRAM_Test.c:506-508 | `n` prints the byte at the index, then advances the index modulo 2^16 |
| Common.Add16Wraps | Micropendous/Firmware/SRAM_Test/SRAM_Test.c:508 | adding two `uint16_t` values and keeping 16 bits, as `EMAindex++` and `&ExtMemArray[w]` do, is the sum modulo 2^16 |
| InterpreterProps.IndexThenNext | Micropendous/Firmware/SRAM_Test/SRAM_Test.c:506-597 | `i hi lo` then `n` reports the chosen cell twice and leaves the index one past it, modulo 2^16 (so `i 0 10 n` ends at 11) |
| InterpreterProps.ReadOnlyCommands | Micropendous/Firmware/SRAM_Test/SRAM_Test.c:541-588 | `o`, `t`, `s`, `b` and `a` leave the whole session unchanged and each print one response: `o` the SRAM start, end and size; `t` the failing address and test number when the stored status is non-zero, otherwise a pass; `s` the size; `b` the number of the mapped bank; `a` the two argument bytes as an address together with the byte read there (from the selected bank inside the SRAM window, from outside memory otherwise) |
| InterpreterProps.CommandFrame | Micropendous/Firmware/SRAM_Test/SRAM_Test.c:503-601 | no command changes the test status or the failing address; only `f`/`g` change memory, and then only the mapped bank |
| InterpreterProps.SelectThenReport | Micropendous/Firmware/SRAM_Test/SRAM_Test.c:576-582 | `0`/`1` print nothing and change nothing but the mapped bank: both banks' contents, the index, the help counter, the status and the failing address stay as they were; a following `b` reports the bank just mapped |
| InterpreterProps.FillThenIndex | Micropendous/Firmware/SRAM_Test/SRAM_Test.c:560-597 | after `f`/`g hi lo v`, `i hi lo` reports v at that index, or the stuck value if the cell is stuck |
| InterpreterProps.AddressMatchesIndex | Micropendous/Firmware/SRAM_Test/SRAM_Test.c:583-597 | inside the SRAM window, `a` at the absolute address `i` reports for index w reads the mapped bank's cell w |
| InterpreterProps.SelectThenRead | Micropendous/Firmware/SRAM_Test/SRAM_Test.c:579-582 | after `1`, reads go to bank 1 while bank 0 keeps its contents |
| InterpreterProps.UnknownCommand | Micropendous/Firmware/SRAM_Test/SRAM_Test.c:598-601 | a byte outside the command table changes nothing and prints the bytes `102-ERROR` and CRLF |
| InterpreterProps.KnownCommand | Micropendous/Firmware/SRAM_Test/SRAM_Test.c:506-597 | none of the recognised command bytes is answered with the error token |
| InterpreterProps.HelpCommand | Micropendous/Firmware/SRAM_Test/SRAM_Test.c:509-540 | `h`/`?` prints the current page, moves the counter to the next page, from 5 back to 0, and keeps it in 0..5 |
| InterpreterProps.HelpRun | Micropendous/Firmware/SRAM_Test/SRAM_Test.c:509-540 | n help commands print the pages the counter passes through, in order, and leave the counter n pages on |
| InterpreterProps.PagesCycle | Micropendous/Firmware/SRAM_Test/SRAM_Test.c:509-540 | from a page p in range, the counter after n help commands is (p+n) mod 6, and the i-th page printed is (p+i) mod 6 |
| InterpreterProps.HelpCycle | Micropendous/Firmware/SRAM_Test/SRAM_Test.c:509-540 | six help commands show all six pages and return the counter to its starting page |
| InterpreterProps.StartupReportsBankOne | Micropendous/Firmware/SRAM_Test/SRAM_Test.c:217-221 | after startup, `t` reports bank 1's verdict alone, whatever bank 0's test found |
| InterpreterProps.BootedStatus | Micropendous/Firmware/SRAM_Test/SRAM_Test.c:217-221 | the status is 0 exactly when bank 1 passed; a bank 0 failure followed by a bank 1 pass leaves status 0 beside bank 0's failing address |
| InterpreterProps.FaultFreeStartup | Micropendous/Firmware/SRAM_Test/SRAM_Test.c:217-221 | with both banks fault-free, the status is 0 and no failing address is recorded |
| InterpreterProps.FillExample | Micropendous/Firmware/SRAM_Test/SRAM_Test.c:560-569 | `f 0x00 0x05 0x2A` on a healthy cell stores 42 and prints `Filled EMA[    5] with  42` and CRLF |
| InterpreterProps.SizeExample | Micropendous/Firmware/SRAM_Test/SRAM_Test.c:558-559 | `s` with an 8192-byte SRAM prints ` 8192` and CRLF |

## Left out

- The USB main loop (`SRAM_Test.c:87-123`), which moves bytes between the CDC endpoint and the two queues. The model's queues are the state it leaves behind; it is I/O plumbing.
- `SetupHardware`'s register writes (clock, JTAG, ports, `XMCRA`/`XMCRB`). These are hardware bring-up; only the bank-test sequence at its end is modelled.
- The USB/CDC event handlers, which are empty or call into LUFA.
- LUFA's `RingBuff_t` implementation, which is not part of this model. The queues are abstract bounded sequences with the same contract.
- The `SELECT_EXT_SRAM_BANK*` and `CURRENT_SRAM_BANK` macros. These are a bank field in the session.
- `SRAM_Test.h` is not part of this model. `EXT_SRAM_START`, `EXT_SRAM_END` and `EXT_SRAM_SIZE` are the parameters `Interpreter.Config` carries.
- The `a` command's raw pointer read of an address outside the SRAM window (`SRAM_Test.c:587-588`). Inside `[EXT_SRAM_START, EXT_SRAM_END]` it reads the mapped bank's cell, as `ExtMemArray` does. Outside the window it reads `Interpreter.Config.rawRead`, a fixed function that ignores the session: registers, internal RAM and flash-mapped space are not part of this model.
- Each bank is modelled as 65536 cells indexed from the array's base. An index past the physical SRAM window is a cell of that bank, not a wrap into other address space.
- `volatile` qualifiers. The command path runs single-threaded, so there is no concurrency to model.
- `Interpreter.MainTask`: nothing drains the outbound queue while commands run. Text that no longer fits is dropped, as `sendData` drops it, rather than flushed to the host mid-loop by the USB task.
