/**
 * The employee store of EmployeeManagementSystem: WorkerManager keeps a
 * count and a heap array of worker pointers, grows it by reallocation when
 * employees are added, and writes one `id name deptId` line per worker to
 * its file. The console prompts become the parameters of AddEmp and the
 * file becomes the text SaveFile produces.
 */
module WorkerManager {
  import opened Wrappers

  const INT_MAX: int := 0x7fff_ffff

  /** C++ `int`. */
  type Int32 = x: int | -0x8000_0000 <= x <= INT_MAX

  /** The three concrete Worker classes. */
  datatype Title = Employee | Manager | Boss

  /** A worker object: its class and the fields m_Id, m_Name and m_DeptId. */
  datatype Worker = Worker(title: Title, id: Int32, name: string, deptId: Int32)

  /** What addEmp reads from the console for one new employee. */
  datatype Input = Input(id: Int32, name: string, dSelect: Int32)

  /**
   * The switch on the title code: 1, 2 and 3 build an Employee, a Manager
   * and a Boss whose department id is that code; any other code leaves the
   * slot NULL.
   */
  function MakeWorker(input: Input): (r: Option<Worker>)
    ensures r.Some? <==> 1 <= input.dSelect <= 3
    ensures r.Some? ==> r.value.id == input.id && r.value.name == input.name && r.value.deptId == input.dSelect
    ensures r.Some? ==> (r.value.title == Employee <==> input.dSelect == 1)
    ensures r.Some? ==> (r.value.title == Manager <==> input.dSelect == 2)
    ensures r.Some? ==> (r.value.title == Boss <==> input.dSelect == 3)
  {
    match input.dSelect
    case 1 => Some(Worker(Employee, input.id, input.name, 1))
    case 2 => Some(Worker(Manager, input.id, input.name, 2))
    case 3 => Some(Worker(Boss, input.id, input.name, 3))
    case _ => None
  }

  /** The records addEmp builds from its inputs, in input order. */
  function NewWorkers(inputs: seq<Input>): (r: seq<Option<Worker>>)
    ensures |r| == |inputs|
    ensures forall i :: 0 <= i < |inputs| ==> r[i] == MakeWorker(inputs[i])
  {
    seq(|inputs|, i requires 0 <= i < |inputs| => MakeWorker(inputs[i]))
  }

  class WorkerManager {
    var empNum: Int32
    var empArray: array?<Option<Worker>>

    /** The array is NULL only while there are no employees, and otherwise holds exactly empNum slots. */
    ghost predicate Valid()
      reads this
    {
      && (empArray == null ==> empNum == 0)
      && (empArray != null ==> empArray.Length == empNum)
    }

    /** The slots in array order; a NULL pointer is None. */
    function Contents(): (r: seq<Option<Worker>>)
      requires Valid()
      reads this, empArray
      ensures |r| == empNum
    {
      if empArray == null then [] else empArray[..]
    }

    /** No employees and no array. */
    constructor()
      ensures Valid() && empNum == 0 && empArray == null
      ensures Contents() == []
    {
      empNum := 0;
      empArray := null;
    }

    /**
     * addEmp with its console inputs as parameters: a positive count
     * allocates a new array, copies the old slots, appends one slot per
     * input and then saves the file; any other count changes nothing.
     */
    method AddEmp(addNum: Int32, inputs: seq<Input>) returns (saved: Option<Result<string, SaveError>>)
      requires Valid()
      requires addNum > 0 ==> |inputs| == addNum && empNum + addNum <= INT_MAX
      modifies this
      ensures Valid()
      ensures addNum <= 0 ==> empNum == old(empNum) && empArray == old(empArray) && saved.None?
      ensures addNum > 0 ==> fresh(empArray) && empNum == old(empNum) + addNum
      ensures addNum > 0 ==> Contents() == old(Contents()) + NewWorkers(inputs)
      ensures addNum > 0 ==> saved == Some(SaveFile(Contents()))
    {
      if addNum > 0 {
        var oldNum := empNum;
        var newSize := oldNum + addNum;
        var newSpace := new Option<Worker>[newSize];
        if empArray != null {
          CopySlots(empArray, newSpace, oldNum);
        }
        assert newSpace[..oldNum] == old(Contents());
        FillSlots(newSpace, oldNum, inputs);
        assert newSpace[..] == newSpace[..oldNum] + newSpace[oldNum..newSize];
        empArray := newSpace;
        empNum := newSize;
        saved := Some(SaveFile(Contents()));
      } else {
        saved := None;
      }
    }
  }

  /** The copy loop of addEmp: the first n slots of `src` into `dst`. */
  method CopySlots(src: array<Option<Worker>>, dst: array<Option<Worker>>, n: int)
    requires 0 <= n <= src.Length && n <= dst.Length && src != dst
    modifies dst
    ensures dst[..n] == src[..n]
    ensures dst[n..] == old(dst[n..])
  {
    for i := 0 to n
      invariant dst[..i] == src[..i]
      invariant dst[n..] == old(dst[n..])
    {
      dst[i] := src[i];
    }
  }

  /** The input loop of addEmp: one new slot per input, from index `start` on. */
  method FillSlots(dst: array<Option<Worker>>, start: int, inputs: seq<Input>)
    requires 0 <= start && start + |inputs| == dst.Length
    modifies dst
    ensures dst[..start] == old(dst[..start])
    ensures dst[start..] == NewWorkers(inputs)
  {
    for i := 0 to |inputs|
      invariant dst[..start] == old(dst[..start])
      invariant dst[start..start + i] == NewWorkers(inputs)[..i]
    {
      dst[start + i] := MakeWorker(inputs[i]);
      assert dst[start..start + i + 1] == dst[start..start + i] + [dst[start + i]];
    }
  }

  /** Writing a NULL slot dereferences a null pointer; the first such slot is reported. */
  datatype SaveError = NullEntry(index: nat)

  /** The decimal digit for 0..9. */
  function Digit(d: int): (c: char)
    requires 0 <= d <= 9
    ensures '0' <= c <= '9'
  {
    ('0' as int + d) as char
  }

  /** `ofs << n` for a non-negative int: its decimal digits, most significant first. */
  function NatToString(n: nat): (r: string)
    ensures |r| >= 1
    ensures forall i :: 0 <= i < |r| ==> '0' <= r[i] <= '9'
  {
    if n < 10 then [Digit(n)] else NatToString(n / 10) + [Digit(n % 10)]
  }

  /** `ofs << n` for any int: a minus sign before a negative number. */
  function IntToString(n: int): (r: string)
    ensures ' ' !in r && '\n' !in r
  {
    if n < 0 then "-" + NatToString(-n) else NatToString(n)
  }

  /** One line of the file, without its end of line. */
  function Line(w: Worker): string
  {
    IntToString(w.id) + " " + w.name + " " + IntToString(w.deptId)
  }

  /**
   * saveFile: one `id name deptId` line per slot in array order, each
   * ended by a newline; a NULL slot makes it fail.
   */
  function SaveFile(entries: seq<Option<Worker>>): (r: Result<string, SaveError>)
    ensures r.Ok? <==> forall i :: 0 <= i < |entries| ==> entries[i].Some?
    ensures r.Err? ==> r.error.index < |entries| && entries[r.error.index].None?
    ensures r.Err? ==> forall j :: 0 <= j < r.error.index ==> entries[j].Some?
  {
    if entries == [] then Ok("")
    else if entries[0].None? then Err(NullEntry(0))
    else match SaveFile(entries[1..])
      case Ok(rest) => Ok(Line(entries[0].value) + "\n" + rest)
      case Err(NullEntry(i)) => Err(NullEntry(i + 1))
  }

  // A reader for the saved text, the reference the file format is checked against.

  /** Splits `s` at the first `c`. */
  function SplitFirst(s: string, c: char): (r: Option<(string, string)>)
    ensures r.None? <==> c !in s
    ensures r.Some? ==> s == r.value.0 + [c] + r.value.1 && c !in r.value.0
  {
    if s == [] then None
    else if s[0] == c then Some(([], s[1..]))
    else match SplitFirst(s[1..], c)
      case None => None
      case Some((a, b)) => Some(([s[0]] + a, b))
  }

  lemma {:induction false} SplitFirstAt(a: string, c: char, b: string)
    requires c !in a
    ensures SplitFirst(a + [c] + b, c) == Some((a, b))
  {
    if a != [] {
      assert (a + [c] + b)[0] == a[0];
      assert (a + [c] + b)[1..] == a[1..] + [c] + b;
      SplitFirstAt(a[1..], c, b);
      assert [a[0]] + a[1..] == a;
    }
  }

  /** A non-empty string of decimal digits, read from the most significant end. */
  function ParseNat(s: string): (r: Option<nat>)
  {
    if s == [] then None
    else if !('0' <= s[|s| - 1] <= '9') then None
    else if |s| == 1 then Some((s[0] - '0') as nat)
    else match ParseNat(s[..|s| - 1])
      case None => None
      case Some(n) => Some(n * 10 + (s[|s| - 1] - '0') as nat)
  }

  function ParseInt(s: string): (r: Option<int>)
  {
    if s != [] && s[0] == '-' then
      match ParseNat(s[1..])
      case None => None
      case Some(n) => Some(-(n as int))
    else ParseNat(s)
  }

  lemma {:induction false} DigitValue(d: int)
    requires 0 <= d <= 9
    ensures (Digit(d) - '0') as int == d
  {
  }

  lemma {:induction false} NatToStringRoundTrip(n: nat)
    ensures ParseNat(NatToString(n)) == Some(n)
  {
    DigitValue(n % 10);
    if n >= 10 {
      var s := NatToString(n);
      assert s[..|s| - 1] == NatToString(n / 10);
      NatToStringRoundTrip(n / 10);
    }
  }

  lemma ParseSigned(digits: string)
    requires ParseNat(digits).Some?
    ensures ParseInt(['-'] + digits) == Some(-(ParseNat(digits).value as int))
  {
    assert (['-'] + digits)[1..] == digits;
  }

  lemma ParseUnsigned(digits: string)
    requires digits != [] && '0' <= digits[0] <= '9'
    ensures ParseInt(digits) == ParseNat(digits)
  {
  }

  /** Reading back a written number gives the number. */
  lemma IntToStringRoundTrip(n: int)
    ensures ParseInt(IntToString(n)) == Some(n)
  {
    var s := IntToString(n);
    if n < 0 {
      var digits := NatToString(-n);
      assert s == ['-'] + digits;
      NatToStringRoundTrip(-n);
      ParseSigned(digits);
    } else {
      var digits := NatToString(n);
      assert s == digits;
      NatToStringRoundTrip(n);
      ParseUnsigned(digits);
    }
  }

  /** Reads one line back into (id, name, deptId). */
  function ParseLine(line: string): Option<(int, string, int)>
  {
    match SplitFirst(line, ' ')
    case None => None
    case Some((idText, rest)) =>
      match SplitFirst(rest, ' ')
      case None => None
      case Some((name, deptText)) =>
        match (ParseInt(idText), ParseInt(deptText))
        case (Some(id), Some(dept)) => Some((id, name, dept))
        case _ => None
  }

  /** Reads a whole file back, one record per newline-ended line. */
  function ParseFile(text: string): Option<seq<(int, string, int)>>
    decreases |text|
  {
    if text == [] then Some([])
    else match SplitFirst(text, '\n')
      case None => None
      case Some((line, rest)) =>
        match (ParseLine(line), ParseFile(rest))
        case (Some(r), Some(rs)) => Some([r] + rs)
        case _ => None
  }

  /** A name as `cin >> name` delivers it: no space and no newline inside. */
  predicate IsToken(name: string)
  {
    ' ' !in name && '\n' !in name
  }

  lemma LineRoundTrip(w: Worker)
    requires IsToken(w.name)
    ensures ParseLine(Line(w)) == Some((w.id as int, w.name, w.deptId as int))
    ensures '\n' !in Line(w)
  {
    var idText := IntToString(w.id);
    var deptText := IntToString(w.deptId);
    var rest := w.name + [' '] + deptText;
    assert Line(w) == idText + [' '] + rest;
    SplitFirstAt(idText, ' ', rest);
    SplitFirstAt(w.name, ' ', deptText);
    IntToStringRoundTrip(w.id);
    IntToStringRoundTrip(w.deptId);
  }

  /** The (id, name, deptId) fields of set slots, in order. */
  function Fields(entries: seq<Option<Worker>>): (r: seq<(int, string, int)>)
    requires forall i :: 0 <= i < |entries| ==> entries[i].Some?
    ensures |r| == |entries|
    ensures forall i :: 0 <= i < |entries| ==>
      r[i] == (entries[i].value.id as int, entries[i].value.name, entries[i].value.deptId as int)
  {
    seq(|entries|, i requires 0 <= i < |entries| =>
      (entries[i].value.id as int, entries[i].value.name, entries[i].value.deptId as int))
  }

  lemma SaveFileCons(entries: seq<Option<Worker>>)
    requires entries != [] && forall i :: 0 <= i < |entries| ==> entries[i].Some?
    ensures SaveFile(entries).Ok? && SaveFile(entries[1..]).Ok?
    ensures SaveFile(entries).value == Line(entries[0].value) + ['\n'] + SaveFile(entries[1..]).value
  {
  }

  /** A written line followed by a readable rest reads back as that worker's fields, then the rest. */
  lemma ParseFileCons(w: Worker, rest: string, rs: seq<(int, string, int)>)
    requires IsToken(w.name) && ParseFile(rest) == Some(rs)
    ensures ParseFile(Line(w) + ['\n'] + rest) == Some([(w.id as int, w.name, w.deptId as int)] + rs)
  {
    LineRoundTrip(w);
    SplitFirstAt(Line(w), '\n', rest);
  }

  /**
   * The saved file reads back as the workers' fields, one line per slot and
   * in array order, when every slot is set and every name is a token.
   */
  lemma {:induction false} SaveFileReadsBack(entries: seq<Option<Worker>>)
    requires forall i :: 0 <= i < |entries| ==> entries[i].Some? && IsToken(entries[i].value.name)
    ensures SaveFile(entries).Ok?
    ensures ParseFile(SaveFile(entries).value) == Some(Fields(entries))
  {
    if entries != [] {
      var w := entries[0].value;
      SaveFileCons(entries);
      SaveFileReadsBack(entries[1..]);
      ParseFileCons(w, SaveFile(entries[1..]).value, Fields(entries[1..]));
      assert Fields(entries) == [Fields(entries)[0]] + Fields(entries[1..]);
    }
  }
}
