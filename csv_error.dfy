/**
 * The error-record mixins of CSV_Parser's `io::error` namespace: a fixed
 * 256-byte buffer holding a file name, a line number and an errno value,
 * each with its default and its setter.
 */
module CsvError {
  import opened Wrappers

  /** `max_file_name_length`: the buffer holds that many characters and a NUL. */
  const MAX_FILE_NAME_LENGTH: int := 255
  const BUFFER_SIZE: int := MAX_FILE_NAME_LENGTH + 1

  type Int32 = x: int | -0x8000_0000 <= x < 0x8000_0000

  /** The contents of a NUL-terminated C string: no NUL inside. */
  predicate IsCString(s: seq<char>)
  {
    forall i :: 0 <= i < |s| ==> s[i] != '\0'
  }

  /**
   * The string a buffer holds: its characters up to the first NUL (all of
   * them when there is none).
   */
  function CString(buf: seq<char>): (r: seq<char>)
    ensures IsCString(r) && |r| <= |buf| && r == buf[..|r|]
    ensures |r| < |buf| ==> buf[|r|] == '\0'
  {
    if buf == [] || buf[0] == '\0' then [] else [buf[0]] + CString(buf[1..])
  }

  /** A NUL-free prefix followed by a NUL is the string the buffer holds. */
  lemma {:induction false} CStringOfTerminated(buf: seq<char>, s: seq<char>)
    requires IsCString(s) && |s| < |buf| && buf[..|s|] == s && buf[|s|] == '\0'
    ensures CString(buf) == s
  {
    if s != [] {
      assert buf[0] == s[0];
      assert buf[1..][..|s| - 1] == s[1..];
      CStringOfTerminated(buf[1..], s[1..]);
    }
  }

  /**
   * strncpy(dest, src, n) on a dest of n characters: the characters of src,
   * then NULs up to n (and no terminator when src has n or more).
   */
  function Strncpy(src: seq<char>, n: nat): (r: seq<char>)
    ensures |r| == n
    ensures forall i :: 0 <= i < n && i < |src| ==> r[i] == src[i]
    ensures forall i :: |src| <= i < n ==> r[i] == '\0'
  {
    seq(n, i requires 0 <= i < n => if i < |src| then src[i] else '\0')
  }

  /** The buffer set_file_name leaves for a non-null name: strncpy, then a NUL in the last byte. */
  function StoredName(name: seq<char>): (r: seq<char>)
    ensures |r| == BUFFER_SIZE && r[BUFFER_SIZE - 1] == '\0'
  {
    Strncpy(name, BUFFER_SIZE)[BUFFER_SIZE - 1 := '\0']
  }

  /** A name of at most 255 characters is stored exactly. */
  lemma ShortNameStored(name: seq<char>)
    requires IsCString(name) && |name| <= MAX_FILE_NAME_LENGTH
    ensures CString(StoredName(name)) == name
  {
    var buf := StoredName(name);
    assert buf[..|name|] == name;
    CStringOfTerminated(buf, name);
  }

  /** A longer name is truncated to its first 255 characters. */
  lemma LongNameTruncated(name: seq<char>)
    requires IsCString(name) && |name| > MAX_FILE_NAME_LENGTH
    ensures CString(StoredName(name)) == name[..MAX_FILE_NAME_LENGTH]
  {
    var buf := StoredName(name);
    assert buf[..MAX_FILE_NAME_LENGTH] == name[..MAX_FILE_NAME_LENGTH];
    CStringOfTerminated(buf, name[..MAX_FILE_NAME_LENGTH]);
  }

  function Min(a: int, b: int): int
  {
    if a < b then a else b
  }

  /** `with_file_name`: the fixed buffer `file_name`. */
  class WithFileName {
    const fileName: array<char>

    /** The constructor's memset: every byte 0, so the name is empty. */
    constructor()
      ensures fresh(fileName) && fileName.Length == BUFFER_SIZE
      ensures forall i :: 0 <= i < BUFFER_SIZE ==> fileName[i] == '\0'
      ensures CString(fileName[..]) == []
    {
      fileName := new char[BUFFER_SIZE](_ => '\0');
    }

    /**
     * set_file_name: for a name, strncpy into the buffer and force a NUL
     * into its last byte; for NULL, only a NUL into its first byte.
     */
    method SetFileName(name: Option<seq<char>>)
      requires fileName.Length == BUFFER_SIZE
      requires name.Some? ==> IsCString(name.value)
      modifies fileName
      ensures name.Some? ==> fileName[..] == StoredName(name.value)
      ensures name.None? ==> fileName[..] == old(fileName[..])[0 := '\0']
      ensures CString(fileName[..]) == if name.Some? then name.value[..Min(|name.value|, MAX_FILE_NAME_LENGTH)] else []
    {
      if name.Some? {
        var src := name.value;
        for i := 0 to BUFFER_SIZE
          invariant forall k :: 0 <= k < i ==> fileName[k] == Strncpy(src, BUFFER_SIZE)[k]
        {
          fileName[i] := if i < |src| then src[i] else '\0';
        }
        fileName[BUFFER_SIZE - 1] := '\0';
        assert fileName[..] == StoredName(src);
        if |src| <= MAX_FILE_NAME_LENGTH {
          ShortNameStored(src);
        } else {
          LongNameTruncated(src);
        }
      } else {
        fileName[0] := '\0';
      }
    }
  }

  /** `with_file_line`: the line number, -1 until it is set. */
  class WithFileLine {
    var fileLine: Int32

    constructor()
      ensures fileLine == -1
    {
      fileLine := -1;
    }

    method SetFileLine(fileLine: Int32)
      modifies this
      ensures this.fileLine == fileLine
    {
      this.fileLine := fileLine;
    }
  }

  /** `with_errno`: the errno value, 0 until it is set. */
  class WithErrno {
    var errnoValue: Int32

    constructor()
      ensures errnoValue == 0
    {
      errnoValue := 0;
    }

    method SetErrno(errnoValue: Int32)
      modifies this
      ensures this.errnoValue == errnoValue
    {
      this.errnoValue := errnoValue;
    }
  }
}
