/**
 * QR Code symbols (QrCode in QRCodeGenerator): the error-correction levels,
 * the immutable symbol with its version, size, level, mask and module grid,
 * and its queries. The drawing of function patterns, the codeword placement,
 * the masks themselves and their penalty scores have no code in this
 * repository; they enter the model as parameters of `New`.
 */
module QrCode {
  import opened Wrappers

  const MIN_VERSION: int := 1
  const MAX_VERSION: int := 40

  /** QrCode::Ecc: the error-correction level, from weakest to strongest. */
  datatype Ecc = Low | Medium | Quartile | High
  {
    /** The enumerator's value: LOW = 0, and each later level one more. */
    function Ordinal(): (r: int)
      ensures 0 <= r <= 3
    {
      match this
      case Low => 0
      case Medium => 1
      case Quartile => 2
      case High => 3
    }

    /**
     * getFormatBits: the level's 2-bit code in the format information
     * (L = 01, M = 00, Q = 11, H = 10 in ISO/IEC 18004).
     */
    function FormatBits(): (r: int)
      ensures 0 <= r <= 3
    {
      match this
      case Low => 1
      case Medium => 0
      case Quartile => 3
      case High => 2
    }
  }

  /** The levels are ordered LOW < MEDIUM < QUARTILE < HIGH, starting at 0. */
  lemma EccOrdering()
    ensures Low.Ordinal() == 0
    ensures Low.Ordinal() < Medium.Ordinal() < Quartile.Ordinal() < High.Ordinal()
  {
  }

  /** Distinct levels have distinct format codes, so the code identifies the level. */
  lemma FormatBitsInjective(e1: Ecc, e2: Ecc)
    ensures e1.FormatBits() == e2.FormatBits() ==> e1 == e2
  {
  }

  datatype Error = VersionOutOfRange | MaskOutOfRange

  /**
   * A QR Code symbol. `modules[y][x]` is the module in column x of row y
   * (true = black); the grid is size by size.
   */
  datatype QrCode = QrCode(version: int, size: int, errorCorrectionLevel: Ecc, mask: int, modules: seq<seq<bool>>)
  {
    /** The field invariants the header documents. */
    predicate Valid()
    {
      && MIN_VERSION <= version <= MAX_VERSION
      && size == version * 4 + 17
      && 0 <= mask <= 7
      && |modules| == size
      && forall y :: 0 <= y < size ==> |modules[y]| == size
    }

    /** getSize: the width and height in modules, version * 4 + 17, between 21 and 177. */
    function GetSize(): (r: int)
      requires Valid()
      ensures r == version * 4 + 17
      ensures 21 <= r <= 177
    {
      size
    }

    /**
     * getModule: the colour at (x, y), false (white) for any coordinate
     * outside the grid.
     */
    function GetModule(x: int, y: int): (r: bool)
      requires Valid()
      ensures !(0 <= x < size && 0 <= y < size) ==> !r
      ensures 0 <= x < size && 0 <= y < size ==> r == modules[y][x]
    {
      0 <= x < size && 0 <= y < size && modules[y][x]
    }
  }

  /**
   * The automatic mask choice: the lowest index among the eight candidates
   * whose penalty is minimal (a later mask replaces the incumbent only with
   * a strictly lower penalty).
   */
  function ChooseMask(penalties: seq<int>): (r: int)
    requires |penalties| == 8
    ensures 0 <= r <= 7
    ensures forall j :: 0 <= j < 8 ==> penalties[r] <= penalties[j]
    ensures forall j :: 0 <= j < r ==> penalties[j] > penalties[r]
  {
    ChooseMaskFrom(penalties, 1, 0)
  }

  /** The scan behind ChooseMask: masks before `i` are done and `best` is the incumbent. */
  function ChooseMaskFrom(penalties: seq<int>, i: int, best: int): (r: int)
    requires |penalties| == 8 && 0 <= best < i <= 8
    requires forall j :: 0 <= j < i ==> penalties[best] <= penalties[j]
    requires forall j :: 0 <= j < best ==> penalties[j] > penalties[best]
    ensures 0 <= r <= 7
    ensures forall j :: 0 <= j < 8 ==> penalties[r] <= penalties[j]
    ensures forall j :: 0 <= j < r ==> penalties[j] > penalties[r]
    decreases 8 - i
  {
    if i == 8 then best
    else ChooseMaskFrom(penalties, i + 1, if penalties[i] < penalties[best] then i else best)
  }

  /**
   * The QrCode(ver, ecl, dataCodewords, msk) constructor, at the level of
   * detail the header gives: the version must be 1 to 40 and the mask -1
   * (automatic) or 0 to 7. `penalties[i]` is the penalty score of the
   * symbol drawn with mask i, and `render(m, x, y)` the colour of module
   * (x, y) once the data is placed and mask m applied.
   */
  function New(ver: int, ecl: Ecc, msk: int, penalties: seq<int>, render: (int, int, int) -> bool): (r: Result<QrCode, Error>)
    requires |penalties| == 8
    ensures r.Err? <==> !(MIN_VERSION <= ver <= MAX_VERSION) || !(-1 <= msk <= 7)
    ensures r.Err? ==> (r.error == VersionOutOfRange <==> !(MIN_VERSION <= ver <= MAX_VERSION))
    ensures r.Ok? ==> r.value.Valid()
    ensures r.Ok? ==> r.value.version == ver && r.value.errorCorrectionLevel == ecl
    ensures r.Ok? && msk != -1 ==> r.value.mask == msk
    ensures r.Ok? && msk == -1 ==> r.value.mask == ChooseMask(penalties)
  {
    if !(MIN_VERSION <= ver <= MAX_VERSION) then Err(VersionOutOfRange)
    else if !(-1 <= msk <= 7) then Err(MaskOutOfRange)
    else
      var size := ver * 4 + 17;
      var mask := if msk == -1 then ChooseMask(penalties) else msk;
      Ok(QrCode(ver, size, ecl, mask, seq(size, y => seq(size, x => render(mask, x, y)))))
  }

  /** A constructed symbol shows the rendered colours inside the grid and white outside it. */
  lemma NewModules(ver: int, ecl: Ecc, msk: int, penalties: seq<int>, render: (int, int, int) -> bool, x: int, y: int)
    requires |penalties| == 8
    requires New(ver, ecl, msk, penalties, render).Ok?
    ensures var q := New(ver, ecl, msk, penalties, render).value;
      q.GetModule(x, y) == (0 <= x < q.GetSize() && 0 <= y < q.GetSize() && render(q.mask, x, y))
  {
  }
}
