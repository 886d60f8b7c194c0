# CPP_Basic_Projects_WareHouse, modelled in Dafny

This project models the deterministic core of six small C++ exercises from
the CPP_Basic_Projects_WareHouse collection and proves properties of the model.
It has one Dafny module per exercise, plus two shared ones.

- **QR segments and symbols** (`QrSegment`, `QrCode`, `BitBuffer`).
  - The mode table of QRCodeGenerator: the 4-bit indicators and the
    character-count widths of Table 3 of ISO/IEC 18004:2015, and the
    version bracket `(ver + 7) / 17`.
  - The byte-mode factory `makeBytes`.
  - The numeric and alphanumeric classifiers.
  - `getTotalBits`.
  - The error-correction levels.
  - The immutable `QrCode` value with its version, size, mask and module
    queries.
- **Maze solver** (`MazeSolve`).
  - The route stack of `stack_of_maze`: a linked LIFO list, modelled as a
    sequence with the top first.
  - `createMaze`, with the `rand()` results as a parameter.
  - The depth-first walk `check` over a copy of the 20 by 30 grid.
- **Leak checker** (`LeakDetector`).
  - The circular list of allocation records hanging off `_root`, modelled
    as the sequence of records from `_root.next` round to `_root.prev`.
  - The counter `_memory_allocated`.
  - The report `LeakDetector`.
  - The reference count `callCount` of `_leak_detector`.
- **CSV error records** (`CsvError`). The `with_file_name` buffer of 256
  characters with its truncating copy, and the `with_file_line` and
  `with_errno` holders.
- **Employee store** (`WorkerManager`).
  - `addEmp` grows the worker array by reallocation. The console answers
    become parameters.
  - `saveFile` becomes the text it writes. A reader for that text is the
    reference it is checked against.
- **Speech contest** (`SpeechManager`). `initSpeech`, `createSpeaker` and the
  constructor, which enrol twelve speakers under the ids 10001 to 10012.

Design decisions:
- **Unsigned wrap-around is written out.** `callCount` and the leak count
  are `unsigned int` (modulo 2^32). `_memory_allocated` is `unsigned long`
  (modulo 2^64 on an LP64 target).
- **Undefined behaviour is an explicit outcome**, not a precondition, where
  the code can reach it:
  - `check` reading outside `temp` gives `OutOfRange`;
  - `saveFile` dereferencing a NULL slot gives `SaveError`.
- **Memory addresses are handles.** A block's address is a natural-number
  handle. `MemoryList.nextHandle` plays the part of a fresh `malloc`
  address.

One place where the documentation and the code disagree: the comments of
`check` describe a walk to the exit. The code tests a cell that
`createMaze` never opens (see Findings). The model follows the code.

## Model

| member | source | states |
|---|---|---|
| BitBuffer.AppendBits | QRCodeGenerator/generator.cpp:43 | `appendBits(val, len)` keeps the old bits as a prefix and appends exactly `len` bits that read back, most significant first, as `val` |
| BitBuffer.IntToBitsRoundTrip | QRCodeGenerator/generator.cpp:43 | the bits written for a value below 2^len read back as that value |
| BitBuffer.BitsToIntRoundTrip | QRCodeGenerator/generator.cpp:43 | writing the value a bit sequence reads as gives back the same bits |
| QrSegment.TruncDiv | QRCodeGenerator/generator.cpp:29 | C++ `/` truncates toward zero: the remainder a - r·b is smaller than b in magnitude and has the sign of the dividend a |
| QrSegment.VersionBrackets | QRCodeGenerator/generator.cpp:28-30 | for versions 1 to 40 the bracket index is 0, 1 or 2: it is 0 exactly for 1-9, 1 exactly for 10-26 and 2 exactly for 27-40 |
| QrSegment.Mode.ModeBits | QRCodeGenerator/generator.cpp:24-26 | each mode indicator fits in 4 bits |
| QrSegment.ModeBitsInjective | QRCodeGenerator/generator.cpp:32-36 | the five indicators 0x1, 0x2, 0x4, 0x8 and 0x7 are pairwise distinct |
| QrSegment.Mode.CharCountWidths | QRCodeGenerator/generator.cpp:18-22 | every mode has exactly three count widths, one per version bracket |
| QrSegment.Mode.NumCharCountBits | QRCodeGenerator/generator.cpp:28-36 | the read is in bounds; every width lies in 0 to 16; ECI's width is 0 |
| QrSegment.MakeBytes | QRCodeGenerator/generator.cpp:38-46 | fails with the length error exactly when there are more than INT_MAX bytes; otherwise: a valid BYTE segment, numChars equal to the byte count, 8·n bits that decode back to the data, byte i at bits 8i to 8i+7 |
| QrSegment.ByteBits | QRCodeGenerator/generator.cpp:41-44 | the loop appends 8 bits per byte, and the result decodes back to the input bytes |
| QrSegment.DecodeBytesChunks | QRCodeGenerator/generator.cpp:41-44 | bits that decode to `data` hold byte k as its 8-bit big-endian form at bits 8k to 8k+7 |
| QrSegment.IsNumeric | QRCodeGenerator/generator.hpp:118-123 | true exactly when every character is in '0' to '9' |
| QrSegment.AlphanumericCharset | QRCodeGenerator/generator.hpp:197-202 | the charset has 45 characters |
| QrSegment.CharsetMembers | QRCodeGenerator/generator.hpp:109-116 | a character is in the charset exactly when it is a digit, an upper-case letter, or one of space $ % * + - . / : |
| QrSegment.CharsetDistinct | QRCodeGenerator/generator.hpp:197-202 | no character appears twice in the charset |
| QrSegment.IsAlphanumeric | QRCodeGenerator/generator.hpp:109-116 | true exactly when every character is in the charset |
| QrSegment.NumericIsAlphanumeric | QRCodeGenerator/generator.hpp:109-123 | text that passes the numeric test passes the alphanumeric test |
| QrSegment.AlphanumericValue | QRCodeGenerator/generator.hpp:197-202 | an encodable character's value is below 45 and indexes that character in the charset |
| QrSegment.AlphanumericValueOfIndex | QRCodeGenerator/generator.hpp:197-202 | the value of the character at index i is i |
| QrSegment.TotalBitsFrom | QRCodeGenerator/generator.hpp:184-192 | counting from `acc`, the result is acc plus the exact bit length when every count fits its field and the sum stays within INT_MAX, and -1 otherwise |
| QrSegment.GetTotalBits | QRCodeGenerator/generator.hpp:184-192 | the result is -1 or in 0 to INT_MAX. It is non-negative exactly when every count fits its field and the exact total is at most INT_MAX, and then it is that total |
| QrCode.Ecc.Ordinal | QRCodeGenerator/generator.hpp:233-238 | each level's enumerator value is in 0 to 3 |
| QrCode.EccOrdering | QRCodeGenerator/generator.hpp:233-238 | LOW is 0 and LOW < MEDIUM < QUARTILE < HIGH |
| QrCode.Ecc.FormatBits | QRCodeGenerator/generator.hpp:240-243 | the format code is in 0 to 3, an unsigned 2-bit value |
| QrCode.FormatBitsInjective | QRCodeGenerator/generator.hpp:240-243 | distinct levels have distinct format codes |
| QrCode.QrCode.GetSize | QRCodeGenerator/generator.hpp:296-300 | for a valid symbol the size is version·4+17, between 21 and 177 |
| QrCode.QrCode.GetModule | QRCodeGenerator/generator.hpp:364-370 | false (white) for any coordinate outside the grid; the stored module otherwise |
| QrCode.ChooseMask | QRCodeGenerator/generator.hpp:307-313 | the automatic mask is in 0 to 7, has the minimal penalty of the eight, and no earlier mask has that penalty |
| QrCode.New | QRCodeGenerator/generator.hpp:332-339 | fails exactly when the version is outside 1 to 40 or the mask outside -1 to 7, with the version error exactly for a bad version. Otherwise: a valid symbol with that version and level, the given mask, or ChooseMask's when -1 was requested |
| QrCode.NewModules | QRCodeGenerator/generator.hpp:317-321 | a constructed symbol shows the rendered colour of each module inside the grid and white outside |
| MazeSolve.Step | MazeSolve/mazeSolve.cpp:148-203 | each of 'D', 'R', 'U' and 'L' moves exactly one cell horizontally or vertically |
| MazeSolve.Pushed | MazeSolve/mazeSolve.cpp:48-63 | push puts the new entry on top and leaves the old entries, unchanged, beneath it |
| MazeSolve.Popped | MazeSolve/mazeSolve.cpp:68-77 | pop on an empty stack leaves xx, yy and the stack alone; otherwise it removes the top and writes its position out. The returned pointer is NULL exactly when the stack is then empty, and is the new top otherwise |
| MazeSolve.PushPop | MazeSolve/mazeSolve.cpp:48-77 | LIFO: a pop straight after a push returns the pushed position and restores the stack |
| MazeSolve.RouteStack.constructor | MazeSolve/mazeSolve.cpp:31-33 | a new stack is empty |
| MazeSolve.RouteStack.Push | MazeSolve/mazeSolve.cpp:48-63 | the stack becomes Pushed of the old stack |
| MazeSolve.RouteStack.Pop | MazeSolve/mazeSolve.cpp:68-77 | the stack, the two out-arguments and the returned head are exactly Popped of the old stack |
| MazeSolve.Board.constructor | MazeSolve/mazeSolve.cpp:13-16 | `flag` starts false over the given maze |
| MazeSolve.Dig | MazeSolve/mazeSolve.cpp:105-107 | every cell a pair of draws opens is interior |
| MazeSolve.Dug | MazeSolve/mazeSolve.cpp:104-108 | all cells the draws open are interior |
| MazeSolve.DugMembers | MazeSolve/mazeSolve.cpp:104-108 | a cell is opened exactly when some pair of draws picks it |
| MazeSolve.FillWalls | MazeSolve/mazeSolve.cpp:98-100 | every cell becomes a wall (1) |
| MazeSolve.DigCells | MazeSolve/mazeSolve.cpp:104-108 | in a maze of walls, exactly the picked cells become 0 |
| MazeSolve.RouteStack.CreateMaze | MazeSolve/mazeSolve.cpp:93-115 | cell (0, 1) is 3. The start (1, 1), the cells (18, 28) and (19, 28), and every picked cell are 0. Every other cell is 1 |
| MazeSolve.CreatedOnlyOpening | MazeSolve/mazeSolve.cpp:93-115 | in a created maze every open cell is interior except (19, 28) |
| MazeSolve.CreatedExitIsWall | MazeSolve/mazeSolve.cpp:110-115 | in a created maze (19, 29) is not open |
| MazeSolve.CopyMaze | MazeSolve/mazeSolve.cpp:140-143 | temp is a fresh array equal to the maze cell by cell |
| MazeSolve.At | MazeSolve/mazeSolve.cpp:149 | a read of temp is defined exactly inside the 20 by 30 bounds |
| MazeSolve.StartWalk | MazeSolve/mazeSolve.cpp:140-144 | before the first pass the walk is empty at (1, 1) and temp's open cells are tracked |
| MazeSolve.Close | MazeSolve/mazeSolve.cpp:146 | the current cell becomes 2 and every other cell keeps its value; the set of open cells loses exactly the current cell, and the walk invariant holds |
| MazeSolve.MarkStep | MazeSolve/mazeSolve.cpp:151-153 | the cell left gets the given mark and the cell entered gets 7, and every other cell keeps its value. The open cells lose exactly those two. The entered cell was open in the maze and not entered before |
| MazeSolve.WalkExtends | MazeSolve/mazeSolve.cpp:149-153 | pushing the departure cell of a step into an open, unvisited cell extends the walk by that step |
| MazeSolve.Advance | MazeSolve/mazeSolve.cpp:149-160 | one move: the departure cell is pushed with its direction, the position is the neighbour in that direction, and the walk grows by that step. The cell left gets the mark and the cell entered 7, with every other cell unchanged |
| MazeSolve.Pick | MazeSolve/mazeSolve.cpp:148-203 | tests taken in order: the first open reading picks its direction, a read outside the array before any open one picks ReadsOutside, and NoneOpen exactly when every reading is a closed cell |
| MazeSolve.FirstOfPicks | MazeSolve/mazeSolve.cpp:148-203 | the program's four tests are Pick over the directions Down, Right, Up, Left |
| MazeSolve.FirstOpen | MazeSolve/mazeSolve.cpp:149-192 | the tests at (x, y) read temp[x+1][y], temp[x][y+1], temp[x-1][y], temp[x][y-1]: a chosen direction leads to a cell that is 0 in temp; NoneOpen exactly when all four neighbours are inside and closed; a read outside temp happens only off the interior |
| MazeSolve.FirstFree | MazeSolve/mazeSolve.cpp:148-203 | the same tests stated on the maze: a chosen direction leads to an open maze cell that is neither the start nor entered before |
| MazeSolve.FirstOpenIsFree | MazeSolve/mazeSolve.cpp:146-203 | while temp's open cells are the maze's open cells minus the start and the entered cells, the tests on temp choose as the tests on the maze |
| MazeSolve.OrderedPush | MazeSolve/mazeSolve.cpp:149-153 | a step that is the tests' choice extends a route in which every step was the tests' choice when taken |
| MazeSolve.PassOrdered | MazeSolve/mazeSolve.cpp:146-211 | a pass that moves or pops keeps every route step the tests' choice when it was taken, and keeps temp's open cells equal to the maze's free cells |
| MazeSolve.OpenedExitReadsOutside | MazeSolve/mazeSolve.cpp:149 | a pass at (19, 28), the border cell createMaze opens, first reads temp[20][28], outside the array |
| MazeSolve.Forward | MazeSolve/mazeSolve.cpp:148-203 | the choice is FirstOpen of temp. On a chosen direction d the current cell is pushed with d and marked 3, 4, 6 or 5 (Down, Right, Up, Left), the neighbour in direction d is entered and marked 7, and every other cell keeps its value. Otherwise temp, the stack and the position are unchanged |
| MazeSolve.AllClosed | MazeSolve/mazeSolve.cpp:207 | the NULL-pop test is true exactly when all four neighbours are inside temp and closed |
| MazeSolve.Retreat | MazeSolve/mazeSolve.cpp:207 | the pop is Popped of the stack; the walk loses its top step, or restarts below once empty |
| MazeSolve.GiveUp | MazeSolve/mazeSolve.cpp:208-209 | (0, 1) becomes 7, (1, 1) becomes 2 unless it is a wall, and every other cell keeps its value |
| MazeSolve.Backtrack | MazeSolve/mazeSolve.cpp:205-211 | a pass with no open neighbour either pops one entry and goes on, or gives up with an empty stack. It never reports Found, and never faults when the border is closed |
| MazeSolve.Explore | MazeSolve/mazeSolve.cpp:148-211 | after the cell is closed: the chosen direction is FirstOpen of temp; a move pushes that step and enters exactly that cell; no open neighbour pops one step; a read outside temp stops with OutOfRange |
| MazeSolve.Round | MazeSolve/mazeSolve.cpp:145-211 | one pass of the loop keeps the walk invariant, and on an empty starting stack keeps every step the tests' choice when taken. A pass that goes on either closes a cell or pops an entry. Found means the walk reached the exit |
| MazeSolve.Search | MazeSolve/mazeSolve.cpp:139-212 | the maze is not written. `flag` is set exactly on Found. The stack is the walk from (1, 1) over open cells on top of the old entries. Each cell is entered at most once and only if open. Found means the walk reached the exit; NoRoute means the stack is empty. OutOfRange is impossible from an empty stack when only the exit cell is open on the border. From an empty stack every step of the route was, when taken, the first of Down, Right, Up and Left leading to an open cell not entered before |
| MazeSolve.RouteStack.Check | MazeSolve/mazeSolve.cpp:139-213 | Search with the exit test at (19, 29), as written: from an empty stack every route step is the first of Down, Right, Up, Left leading to an open cell not entered before, and Found also means (19, 29) is open in the maze |
| MazeSolve.RouteStack.CheckToExit | MazeSolve/mazeSolve.cpp:139-213 | Search with the exit test at (19, 28): on a created maze it never reads outside temp, and Found means the walk reached (19, 28) |
| LeakDetector.SumSizesRemove | MemoryLeakingChecker/LeakDetector.cpp:78-80 | removing a record takes exactly its size off the sum of sizes |
| LeakDetector.Unlinked | MemoryLeakingChecker/LeakDetector.cpp:78-79 | the list loses exactly the record at i; the records before it and after it keep their order |
| LeakDetector.UnlinkedRelink | MemoryLeakingChecker/LeakDetector.cpp:78-79 | re-inserting the unlinked record where it was restores the list |
| LeakDetector.Find | MemoryLeakingChecker/LeakDetector.cpp:73 | the index found holds the record with that handle; None means no record has it |
| LeakDetector.ReportOf | MemoryLeakingChecker/LeakDetector.cpp:116-135 | one line per record, in list order, with its size. The count is the record count as an `unsigned int`. The "Total" line appears exactly when the count is not 0, and shows the count and the byte counter |
| LeakDetector.EmptyReport | MemoryLeakingChecker/LeakDetector.cpp:132-135 | with no block outstanding the report prints nothing and returns 0 |
| LeakDetector.MemoryList.constructor | MemoryLeakingChecker/LeakDetector.cpp:19-27 | `_root` points to itself and nothing is allocated |
| LeakDetector.MemoryList.AllocateMemory | MemoryLeakingChecker/LeakDetector.cpp:34-66 | the new record, with size, flag, file copy and line, is inserted right after `_root` and the others follow in their order. The counter grows by the size modulo 2^64. The handle is new. Handles stay distinct and the counter stays the sum of sizes |
| LeakDetector.MemoryList.DeleteMemory | MemoryLeakingChecker/LeakDetector.cpp:71-85 | a mismatched array flag changes nothing. A matching flag unlinks exactly that record and takes its size off the counter modulo 2^64, keeping the invariant |
| LeakDetector.ExitCounter.constructor | MemoryLeakingChecker/LeakDetector.cpp:29 | callCount starts at 0 |
| LeakDetector.ExitCounter.Construct | MemoryLeakingChecker/LeakDetector.hpp:16-18 | callCount goes up by one, as an `unsigned int` |
| LeakDetector.ExitCounter.Destruct | MemoryLeakingChecker/LeakDetector.hpp:20-22 | callCount goes down by one, as an `unsigned int`. The report runs exactly when the result is 0, and it is the report of the current list |
| LeakDetector.ExitCounter.LeakDetector | MemoryLeakingChecker/LeakDetector.cpp:116-135 | the traversal returns exactly ReportOf of the list and counter |
| LeakDetector.Step | MemoryLeakingChecker/LeakDetector.hpp:16-22 | increments and decrements modulo 2^32; the report runs exactly on a destruction from 1 |
| LeakDetector.CountIsDepth | MemoryLeakingChecker/LeakDetector.hpp:13-22 | while between 0 and 2^32 - 1 objects are alive after every prefix, callCount equals the number alive |
| LeakDetector.ReportsWhenNoneAlive | MemoryLeakingChecker/LeakDetector.hpp:20-22 | under the same bound, the report runs at exactly those destructions that leave no object alive |
| LeakDetector.BalancedReports | MemoryLeakingChecker/LeakDetector.hpp:13-21 | with 1 to 2^32 - 1 objects built and then destroyed, event i runs the report exactly when it is the last destruction |
| LeakDetector.BalancedReportsOnce | MemoryLeakingChecker/LeakDetector.hpp:13-21 | the report runs once, at index 2n - 1 |
| CsvError.CString | CSV_Parser/csv.h:57 | the string in a buffer has no NUL, is a prefix of the buffer, and is followed by a NUL when shorter than the buffer |
| CsvError.Strncpy | CSV_Parser/csv.h:50 | `strncpy` into n characters copies src and pads with NULs up to n |
| CsvError.StoredName | CSV_Parser/csv.h:50-51 | the stored buffer has 256 characters and ends in a NUL |
| CsvError.ShortNameStored | CSV_Parser/csv.h:50-51 | a name of at most 255 characters is stored exactly |
| CsvError.LongNameTruncated | CSV_Parser/csv.h:50-51 | a longer name is stored as its first 255 characters |
| CsvError.WithFileName.constructor | CSV_Parser/csv.h:43-45 | all 256 bytes are 0, so the name is empty |
| CsvError.WithFileName.SetFileName | CSV_Parser/csv.h:47-55 | for a name the buffer becomes StoredName, holding name[..min(|name|, 255)]. For NULL only byte 0 becomes NUL and the name is empty |
| CsvError.WithFileLine.constructor | CSV_Parser/csv.h:61-63 | file_line starts at -1 |
| CsvError.WithFileLine.SetFileLine | CSV_Parser/csv.h:65-67 | file_line becomes the argument |
| CsvError.WithErrno.constructor | CSV_Parser/csv.h:73-75 | errno_value starts at 0 |
| CsvError.WithErrno.SetErrno | CSV_Parser/csv.h:77-79 | errno_value becomes the argument |
| WorkerManager.MakeWorker | EmployeeManagementSystem/src/workerManager.cpp:71-86 | title code 1, 2, 3 gives an Employee, Manager or Boss with the input's id and name and that code as deptId; any other code gives NULL |
| WorkerManager.NewWorkers | EmployeeManagementSystem/src/workerManager.cpp:55-89 | one slot per input, in input order |
| WorkerManager.WorkerManager.constructor | EmployeeManagementSystem/src/workerManager.cpp:3-11 | count 0 and a NULL array |
| WorkerManager.WorkerManager.AddEmp | EmployeeManagementSystem/src/workerManager.cpp:35-104 | addNum ≤ 0 changes nothing and saves nothing. Otherwise: a fresh array, count old + addNum, the old slots in order followed by the new ones in input order, then saveFile of the new contents |
| WorkerManager.CopySlots | EmployeeManagementSystem/src/workerManager.cpp:48-52 | the first n slots are copied and the rest are untouched |
| WorkerManager.FillSlots | EmployeeManagementSystem/src/workerManager.cpp:55-89 | slot old + i holds the worker of input i and the old prefix is untouched |
| WorkerManager.NatToString | EmployeeManagementSystem/src/workerManager.cpp:112-114 | a non-negative int is written as at least one decimal digit |
| WorkerManager.IntToString | EmployeeManagementSystem/src/workerManager.cpp:112-114 | a written int contains no space and no newline |
| WorkerManager.IntToStringRoundTrip | EmployeeManagementSystem/src/workerManager.cpp:112-114 | a written int reads back as itself |
| WorkerManager.LineRoundTrip | EmployeeManagementSystem/src/workerManager.cpp:112-114 | a line `id name deptId` reads back as those three fields when the name is a token, and contains no newline |
| WorkerManager.SaveFile | EmployeeManagementSystem/src/workerManager.cpp:106-118 | succeeds exactly when no slot is NULL; otherwise reports the first NULL slot |
| WorkerManager.SaveFileReadsBack | EmployeeManagementSystem/src/workerManager.cpp:106-118 | when all slots are set and all names are tokens, the file reads back as the workers' (id, name, deptId), one line per slot, in array order |
| SpeechManager.NewSpeakerFields | SpeechContestManagementSystem/src/speechManagement.cpp:42-48 | speaker i is named "Student " plus seed letter i, and both its scores are 0 |
| SpeechManager.SpeakerNamesDistinct | SpeechContestManagementSystem/src/speechManagement.cpp:40-43 | different speakers get different names |
| SpeechManager.Ids | SpeechContestManagementSystem/src/speechManagement.cpp:50 | the k-th id pushed is 10001 + k |
| SpeechManager.EnrolledKeys | SpeechContestManagementSystem/src/speechManagement.cpp:52 | after n inserts the keys are the old keys plus 10001 to 10000 + n |
| SpeechManager.EnrolledKeeps | SpeechContestManagementSystem/src/speechManagement.cpp:52 | `map::insert` keeps an entry already present |
| SpeechManager.EnrolledNew | SpeechContestManagementSystem/src/speechManagement.cpp:52 | an absent id gets the speaker of its position |
| SpeechManager.EnrolledSize | SpeechContestManagementSystem/src/speechManagement.cpp:52 | into a map holding none of the ids, n inserts add n keys |
| SpeechManager.EnrolledAllNew | SpeechContestManagementSystem/src/speechManagement.cpp:52 | in such a map every new id gets the speaker of its position |
| SpeechManager.SpeechManager.InitSpeech | SpeechContestManagementSystem/src/speechManagement.cpp:28-37 | the three id lists and the speaker map become empty and the round becomes 1; fileIsEmpty and the record map are unchanged |
| SpeechManager.SpeechManager.CreateSpeaker | SpeechContestManagementSystem/src/speechManagement.cpp:39-54 | the ids 10001 to 10012 are appended in order, the map is the old one after the twelve inserts, and the other fields are unchanged |
| SpeechManager.SpeechManager.constructor | SpeechContestManagementSystem/src/speechManagement.cpp:3-10 | 12 students in id order and 12 speaker keys, exactly 10001 to 10012, each with the speaker of its position. Both round lists are empty, the round is 1 and the record map is empty |

## Left out

**QR code generator**
- The QR encoder internals have no bodies in the repository, so the model does not invent them. This covers `encodeText`, `encodeBinary`, `encodeSegments`, `makeNumeric`, `makeAlphanumeric`, `makeEci`, the drawing of function patterns, codeword placement, Reed–Solomon, the masks and their penalties, and `toSvgString`. `QrCode.New` takes the eight penalties and the rendered colours as parameters.
- `BitBuffer` is not defined in the repository. `appendBits` is modelled as appending bits most significant first. Its `len <= 31` and fit checks become a precondition.
- QrCode.Ecc.FormatBits: the values L = 1, M = 0, Q = 3, H = 2 come from ISO/IEC 18004, because the body of `getFormatBits` is not in the repository. Only the range 0 to 3 is stated.
- QrCode.ChooseMask: the header only says an appropriate mask is chosen. The tie-break toward the lowest index is a modelling choice.
- The namespace `qrcodeGen` in generator.hpp against `qrcodegen` in generator.cpp is a build matter, not behaviour. The console driver in main.cpp is I/O.

**Maze solver**
- The maze solver's output is not modelled: `print`, `printMaze`, `system("clear")`, `sleep`, and the `slow` and `autogame` switches.
- `srand`/`rand` become the `rolls` parameter of `CreateMaze`.
- `push`'s "Allocate memory fail" branch is not modelled, because `new` is assumed to succeed.
- The stack destructor only frees the nodes.
- MazeSolve.Forward: an out-of-range read of `temp`, which is undefined behaviour in C++, is the choice `ReadsOutside`, which ends the search with the outcome `OutOfRange`, rather than whatever the program would read.
- MazeSolve.RouteStack.Check: the marks 3, 4, 6, 5, 7 and 2 are written to `temp`, a local array the caller never sees. They are stated pass by pass in `Forward`, `Close` and `GiveUp`, not in Check's ensures. The direction order is stated for the route only when the stack starts empty, because entries already on the stack were not chosen by this search.

**Leak checker**
- The leak checker's raw memory plumbing is not modelled: `malloc`, `free`, the header arithmetic, the `operator new`/`delete` overloads and the `#define new` macro. The list is a sequence of records, and a block's address is a handle.
- Leak report text goes through `std::cout`; only its content is modelled (`Report`).
- LeakDetector.MemoryList.DeleteMemory requires a live handle. In C++, deleting a pointer the tracker never handed out is undefined behaviour.
- CountIsDepth and ReportsWhenNoneAlive assume fewer than 2^32 objects alive, with no destruction before its construction. Outside that range only `Step` describes callCount.

**CSV error records**
- `format_error_message` and the `snprintf`/`strerror` formatting are not modelled. Its second branch passes a string to `%d` (CSV_Parser/csv.h:95-96).
- The CSV byte sources are I/O and are not modelled.
- CsvError.WithFileName.SetFileName requires the name to contain no NUL, as every C string does.

**Employee store**
- The console menus, `ExitSystem`, `exitSystem` and every `main.cpp` are I/O, as are all `cin`/`cout`/`ofstream` handling and the file name `FILENAME`.
- The worker classes (employee, manager and boss) are folded into one record with a title tag. `showInfo` and `getDeptName` print or return constant strings and are not modelled.
- AddEmp: requires `m_EmpNum + addNum` to fit an `int`, because the overflow is undefined behaviour in C++. It also requires the number of inputs to equal `addNum`, as the console loop reads exactly that many.
- AddEmp: `delete[]` of the old array is not modelled. The array holds worker values, so pointer aliasing between the old and new arrays is not captured.
- Reading the file back is not part of the source. `ParseFile` exists only as the reference for `SaveFile`.

**Speech contest**
- speaker.h is not part of this model. A speaker is a name and a sequence of two `real` scores.
- `fileIsEmpty` is never initialised by the constructor. The model leaves it unconstrained.
- The other speech methods (`startSpeech`, `speechDraw`, `speechContest`, `showScore`, `saveRecord`, `loadRecord`, `showRecord`) are declared in speechManagement.h without bodies in the repository.
- SpeechContextManagementSystem/speechManagement.h contains declarations only.

**Other**
- MyDocker is Linux system calls (`clone`, `mount`, `chroot`, `execv`), network namespaces and foreign calls, and is not modelled.

## Findings

| source | as written | input that shows it | evidently intended | confidence | as-written member | corrected member |
|---|---|---|---|---|---|---|
| MazeSolve/mazeSolve.cpp:155 | `check` stops with success only on entering (MAX_X - 1, MAX_Y - 1) = (19, 29), a cell `createMaze` never opens (lines 110-115) | any maze `createMaze` builds, for any draws: (19, 29) stays a wall, so success is impossible. A pass at the opened cell (19, 28) first reads `temp[20][28]`, outside the array (MazeSolve.OpenedExitReadsOutside) | stop at (MAX_X - 1, MAX_Y - 2), the border cell `createMaze` opens as the exit | not executed | MazeSolve.RouteStack.Check, MazeSolve.CreatedExitIsWall | MazeSolve.RouteStack.CheckToExit |
