/** The 3D Slicer fiducial (`.fcsv`) readers: the C++ `readSlicerFiducials`
    (identical in three programs) and the Python `read_slicer_fiducials`.
    Both skip a version line, classify the coordinate system from the end of
    the second line, skip a column-header line and read one landmark per
    remaining line from comma fields 1..3 (field 0 is the id).  Landmarks in
    RAS coordinates are converted to ITK's LPS by negating x and y.

    Number parsing is a parameter: `toReal` is `operator>>` into a double,
    `parse` is Python's `float`, which may raise. */
module Fiducials {
  import opened Wrappers
  import opened Text
  import opened Geometry

  /** The two coordinate systems the readers accept. */
  datatype Frame = Ras | Lps

  /** Why a read fails: the C++ `substr` on a second line shorter than three
      characters, the two classification errors (shared by both readers),
      and Python's `IndexError` / `ValueError`. */
  datatype ReadError = OutOfRange | IjkNotSupported | Unrecognized | IndexError | ValueError

  /** The last character of `s`, if any (`s[-1:]` in Python). */
  function LastChar(s: string): Option<char>
  {
    if s == [] then None else Some(s[|s| - 1])
  }

  /** The classification both readers apply to the tail of the second line:
      RAS (name or code 0), else LPS (name or code 1), else IJK (name or
      code 2) is refused, else the system is unrecognised. */
  function ClassifyFrame(cs: string): (r: Result<Frame, ReadError>)
    ensures r == Success(Ras) <==> cs == "RAS" || LastChar(cs) == Some('0')
    ensures r == Success(Lps) <==> !(cs == "RAS" || LastChar(cs) == Some('0')) && (cs == "LPS" || LastChar(cs) == Some('1'))
    ensures r.Failure? <==> cs !in {"RAS", "LPS"} && LastChar(cs) !in {Some('0'), Some('1')}
    ensures r == Failure(IjkNotSupported) <==> r.Failure? && (cs == "IJK" || LastChar(cs) == Some('2'))
    ensures r.Failure? ==> r.error in {IjkNotSupported, Unrecognized}
  {
    if cs == "RAS" || LastChar(cs) == Some('0') then Success(Ras)
    else if cs == "LPS" || LastChar(cs) == Some('1') then Success(Lps)
    else if cs == "IJK" || LastChar(cs) == Some('2') then Failure(IjkNotSupported)
    else Failure(Unrecognized)
  }

  /** The headers Slicer writes are classified as intended, by name and by
      numeric code. */
  lemma SlicerHeaders()
    ensures ClassifyFrame("RAS") == Success(Ras) && ClassifyFrame("= 0") == Success(Ras)
    ensures ClassifyFrame("LPS") == Success(Lps) && ClassifyFrame("= 1") == Success(Lps)
    ensures ClassifyFrame("IJK") == Failure(IjkNotSupported) && ClassifyFrame("= 2") == Failure(IjkNotSupported)
    ensures ClassifyFrame("= 3") == Failure(Unrecognized)
  {
  }

  /** Coordinate `d` of a point converted from `f` to LPS: negated for
      the first two axes of RAS. */
  function Signed(f: Frame, d: nat, v: real): real
  {
    if f == Ras && d < 2 then -v else v
  }


  /** RAS to LPS: x and y negated, z kept; LPS is left alone. */
  function ToLps(f: Frame, v: Vec3): (w: Vec3)
    ensures f == Lps ==> w == v
    ensures f == Ras ==> w.x == -v.x && w.y == -v.y && w.z == v.z
  {
    Vec3(Signed(f, 0, v.x), Signed(f, 1, v.y), Signed(f, 2, v.z))
  }

  /** Converting twice gives the point back. */
  lemma ToLpsInvolution(f: Frame, v: Vec3)
    ensures ToLps(f, ToLps(f, v)) == v
  {
  }

  // ---------------------------------------------------------------- C++

  /** The second line as the C++ reader sees it.  `std::getline` empties its
      string only when the stream is still readable, so when the file is a
      single unterminated line the first line's text is still there; a
      missing line otherwise reads as empty. */
  function CppSecondLine(ls: seq<Line>): string
  {
    if |ls| >= 2 then ls[1].text
    else if |ls| == 1 && !ls[0].terminated then ls[0].text
    else ""
  }

  /** `line.substr(line.length() - 3)`: throws `out_of_range` on a line
      shorter than three characters (the unsigned subtraction wraps). */
  function CppTail(line: string): (r: Result<string, ReadError>)
    ensures r.Failure? <==> |line| < 3
    ensures r.Success? ==> |r.value| == 3 && line == line[..|line| - 3] + r.value
  {
    if |line| < 3 then Failure(OutOfRange) else Success(line[|line| - 3..])
  }

  /** The column loop for columns `col..2`: column `c` reads field `c + 1`
      and is stored only if that `getline` stopped at a comma (the stream is
      still good); the first column that is not stored ends the loop. */
  function CppColumns(fs: seq<string>, f: Frame, toReal: string -> real, p: Vec3, col: nat): (q: Vec3)
    requires col <= 3
    ensures forall c | 0 <= c < col :: Coord(q, c) == Coord(p, c)
    ensures forall c | col <= c < 3 ::
      Coord(q, c) == (if c + 3 <= |fs| then Signed(f, c, toReal(fs[c + 1])) else Coord(p, c))
    decreases 3 - col
  {
    if col == 3 || |fs| < col + 3 then p
    else CppColumns(fs, f, toReal, With(p, col, Signed(f, col, toReal(fs[col + 1]))), col + 1)
  }

  /** One landmark from a data line.  The point starts uninitialised in the
      source; `unset` stands for whatever it holds. */
  function CppPoint(text: string, f: Frame, toReal: string -> real, unset: Vec3): Vec3
  {
    CppColumns(Split(text, ','), f, toReal, unset, 0)
  }

  /** The data loop pushes a line only when the stream is still good and not
      at end of file after reading it, that is, when a newline ended it. */
  function CppData(ls: seq<Line>, f: Frame, toReal: string -> real, unset: Vec3): (ps: seq<Vec3>)
    ensures |ps| <= |ls|
  {
    if ls == [] then []
    else
      var here := if ls[0].terminated then [CppPoint(ls[0].text, f, toReal, unset)] else [];
      here + CppData(ls[1..], f, toReal, unset)
  }

  /** The lines after the three header lines; none if there are fewer. */
  function DataLines(ls: seq<Line>): seq<Line>
  {
    if |ls| <= 3 then [] else ls[3..]
  }

  /** The header part of the C++ reader: the tail of the second line,
      classified. */
  function CppFrame(ls: seq<Line>): (r: Result<Frame, ReadError>)
    ensures r.Failure? <==> |CppSecondLine(ls)| < 3 || ClassifyFrame(CppTail(CppSecondLine(ls)).value).Failure?
  {
    var cs :- CppTail(CppSecondLine(ls));
    ClassifyFrame(cs)
  }

  /** `readSlicerFiducials` as written, on the lines of the file. */
  function ReadCppLines(ls: seq<Line>, toReal: string -> real, unset: Vec3): (r: Result<seq<Vec3>, ReadError>)
    ensures r.Failure? <==> CppFrame(ls).Failure?
    ensures r.Failure? ==> r.error == CppFrame(ls).error
  {
    var f :- CppFrame(ls);
    Success(CppData(DataLines(ls), f, toReal, unset))
  }

  /** `readSlicerFiducials` as written. */
  function ReadCpp(file: string, toReal: string -> real, unset: Vec3): Result<seq<Vec3>, ReadError>
  {
    ReadCppLines(SplitLines(file), toReal, unset)
  }

  /** The evidently intended C++ reader, on the lines of the file: every
      data line gives a landmark, the last one too when no newline ends it. */
  function ReadCppFixedLines(ls: seq<Line>, toReal: string -> real, unset: Vec3): (r: Result<seq<Vec3>, ReadError>)
    ensures r.Failure? <==> CppFrame(ls).Failure?
    ensures r.Success? ==> |r.value| == |DataLines(ls)|
    ensures r.Success? ==> forall k | 0 <= k < |r.value| ::
      r.value[k] == CppPoint(DataLines(ls)[k].text, CppFrame(ls).value, toReal, unset)
  {
    var f :- CppFrame(ls);
    Success(AllPoints(DataLines(ls), f, toReal, unset))
  }

  /** One landmark per line. */
  function AllPoints(data: seq<Line>, f: Frame, toReal: string -> real, unset: Vec3): (ps: seq<Vec3>)
    ensures |ps| == |data|
    ensures forall k | 0 <= k < |data| :: ps[k] == CppPoint(data[k].text, f, toReal, unset)
  {
    seq(|data|, k requires 0 <= k < |data| => CppPoint(data[k].text, f, toReal, unset))
  }

  /** The evidently intended C++ reader. */
  function ReadCppFixed(file: string, toReal: string -> real, unset: Vec3): Result<seq<Vec3>, ReadError>
  {
    ReadCppFixedLines(SplitLines(file), toReal, unset)
  }

  /** Lines as a file cut by `SplitLines` has them: no newline inside a
      line, and only the last line may lack one. */
  ghost predicate FileLines(ls: seq<Line>)
  {
    && (forall j | 0 <= j < |ls| :: '\n' !in ls[j].text)
    && (forall j | 0 <= j < |ls| - 1 :: ls[j].terminated)
  }

  lemma FileLinesOfFile(file: string)
    ensures FileLines(SplitLines(file))
    ensures SplitLines(file) != [] ==> (SplitLines(file)[|SplitLines(file)| - 1].terminated <==> file[|file| - 1] == '\n')
  {
  }

  /** The lines that `CppData` pushes: every line but an unterminated last. */
  lemma {:induction false} CppDataCount(ls: seq<Line>, f: Frame, toReal: string -> real, unset: Vec3)
    requires forall j | 0 <= j < |ls| - 1 :: ls[j].terminated
    ensures |CppData(ls, f, toReal, unset)| == if ls != [] && !ls[|ls| - 1].terminated then |ls| - 1 else |ls|
    ensures forall k | 0 <= k < |CppData(ls, f, toReal, unset)| ::
      CppData(ls, f, toReal, unset)[k] == CppPoint(ls[k].text, f, toReal, unset)
  {
    if ls != [] {
      CppDataCount(ls[1..], f, toReal, unset);
      assert forall k | 1 <= k < |ls| :: ls[1..][k - 1] == ls[k];
    }
  }

  /** On the data lines: the pushed points are all points but the last when
      the last line is unterminated, and all of them otherwise. */
  lemma CppDataPrefix(data: seq<Line>, f: Frame, toReal: string -> real, unset: Vec3)
    requires forall j | 0 <= j < |data| - 1 :: data[j].terminated
    ensures data != [] && !data[|data| - 1].terminated ==>
      CppData(data, f, toReal, unset) == AllPoints(data, f, toReal, unset)[..|data| - 1]
    ensures data == [] || data[|data| - 1].terminated ==>
      CppData(data, f, toReal, unset) == AllPoints(data, f, toReal, unset)
  {
    CppDataCount(data, f, toReal, unset);
  }

  /** The as-written reader drops a last data line that no newline ends,
      and otherwise returns the landmarks of the intended one. */
  lemma CppDropsUnterminatedLastLine(ls: seq<Line>, toReal: string -> real, unset: Vec3)
    requires FileLines(ls) && CppFrame(ls).Success?
    ensures DataLines(ls) != [] && !ls[|ls| - 1].terminated ==>
      ReadCppLines(ls, toReal, unset).value == ReadCppFixedLines(ls, toReal, unset).value[..|DataLines(ls)| - 1]
    ensures DataLines(ls) == [] || ls[|ls| - 1].terminated ==>
      ReadCppLines(ls, toReal, unset).value == ReadCppFixedLines(ls, toReal, unset).value
  {
    var data := DataLines(ls);
    var f := CppFrame(ls).value;
    forall j | 0 <= j < |data| - 1
      ensures data[j].terminated
    {
      assert data[j] == ls[j + 3];
    }
    CppDataPrefix(data, f, toReal, unset);
    assert ReadCppLines(ls, toReal, unset).value == CppData(data, f, toReal, unset);
    assert ReadCppFixedLines(ls, toReal, unset).value == AllPoints(data, f, toReal, unset);
    if data != [] {
      assert |ls| > 3 && data == ls[3..];
      assert data[|data| - 1] == ls[|ls| - 1];
    }
  }

  // ------------------------------------------------------------- Python

  /** One line as `readlines()` returns it: the newline kept. */
  function PyLine(l: Line): string
  {
    l.text + (if l.terminated then "\n" else "")
  }

  /** `s[-4:-1]`: the three characters before the last, fewer near the
      start of a short string. */
  function PyTail(s: string): (t: string)
    ensures |s| >= 4 ==> |t| == 3 && t + [s[|s| - 1]] == s[|s| - 4..]
    ensures |s| < 4 ==> |s| >= 1 ==> t + [s[|s| - 1]] == s
    ensures s == [] ==> t == []
  {
    var hi := if |s| >= 1 then |s| - 1 else 0;
    var lo := if |s| >= 4 then |s| - 4 else 0;
    s[lo..hi]
  }

  /** `s.split(d, m)`: at most `m` cuts; the rest of the text stays in the
      last field. */
  function SplitAtMost(s: string, d: char, m: nat): (fs: seq<string>)
    ensures |fs| >= 1
    decreases m
  {
    if m == 0 || d !in s then [s]
    else
      var k := IndexOf(s, d);
      [s[..k]] + SplitAtMost(s[k + 1..], d, m - 1)
  }

  /** Limiting the number of cuts changes only the last field. */
  lemma {:induction false} SplitAtMostPrefix(s: string, d: char, m: nat)
    ensures |Split(s, d)| <= m + 1 ==> |SplitAtMost(s, d, m)| == |Split(s, d)|
    ensures |Split(s, d)| > m + 1 ==> |SplitAtMost(s, d, m)| == m + 1
    ensures forall j | 0 <= j < |SplitAtMost(s, d, m)| - 1 :: SplitAtMost(s, d, m)[j] == Split(s, d)[j]
    decreases m
  {
    var lim, all := SplitAtMost(s, d, m), Split(s, d);
    if d !in s {
      assert lim == [s] && all == [s];
      assert |all| <= m + 1 ==> |lim| == |all|;
      assert |all| > m + 1 ==> |lim| == m + 1;
    } else if m == 0 {
      var k := IndexOf(s, d);
      assert all == [s[..k]] + Split(s[k + 1..], d);
      assert lim == [s];
      assert |all| >= 2 && |lim| == 1;
      assert |all| <= m + 1 ==> |lim| == |all|;
      assert |all| > m + 1 ==> |lim| == m + 1;
    } else {
      var k := IndexOf(s, d);
      var lim', all' := SplitAtMost(s[k + 1..], d, m - 1), Split(s[k + 1..], d);
      SplitAtMostPrefix(s[k + 1..], d, m - 1);
      assert lim == [s[..k]] + lim';
      assert all == [s[..k]] + all';
      assert |lim| == |lim'| + 1 && |all| == |all'| + 1;
      assert |all| <= m + 1 ==> |lim| == |all|;
      assert |all| > m + 1 ==> |lim| == m + 1;
      forall j | 0 <= j < |lim| - 1
        ensures lim[j] == all[j]
      {
        if j > 0 {
          assert lim[j] == lim'[j - 1] && all[j] == all'[j - 1];
        }
      }
    }
  }

  /** Columns `i..2` of one Python line: `float(e[i + 1])`, raising
      `IndexError` when the field is missing and `ValueError` when it is not
      a number. */
  function PyColumns(e: seq<string>, f: Frame, parse: string -> Option<real>, p: Vec3, i: nat)
    : (r: Result<Vec3, ReadError>)
    requires i <= 3
    ensures r.Success? <==> (i < 3 ==> |e| >= 4) && forall c | i + 1 <= c < 4 && c < |e| :: parse(e[c]).Some?
    ensures r.Success? ==> forall c | 0 <= c < i :: Coord(r.value, c) == Coord(p, c)
    ensures r.Success? ==> forall c | i <= c < 3 :: Coord(r.value, c) == Signed(f, c, parse(e[c + 1]).value)
    decreases 3 - i
  {
    if i == 3 then Success(p)
    else if |e| <= i + 1 then Failure(IndexError)
    else match parse(e[i + 1])
      case None => Failure(ValueError)
      case Some(v) => PyColumns(e, f, parse, With(p, i, Signed(f, i, v)), i + 1)
  }

  /** One landmark from a Python line. */
  function PyPoint(line: string, f: Frame, parse: string -> Option<real>): Result<Vec3, ReadError>
  {
    PyColumns(SplitAtMost(line, ',', 4), f, parse, Zero, 0)
  }

  /** A loop that stops at the first failing step: every value when all
      steps succeed, otherwise the error of the first failure. */
  function Collect<T>(rs: seq<Result<T, ReadError>>): (r: Result<seq<T>, ReadError>)
    ensures r.Success? <==> forall k | 0 <= k < |rs| :: rs[k].Success?
    ensures r.Success? ==> |r.value| == |rs| && forall k | 0 <= k < |rs| :: r.value[k] == rs[k].value
    ensures r.Failure? ==> exists k | 0 <= k < |rs| ::
      (rs[k].Failure? && r.error == rs[k].error && forall j | 0 <= j < k :: rs[j].Success?)
  {
    if rs == [] then Success([])
    else
      assert forall k | 1 <= k < |rs| :: rs[k] == rs[1..][k - 1];
      match rs[0]
      case Failure(e) => Failure(e)
      case Success(v) =>
        match Collect(rs[1..])
        case Failure(e) =>
          assert exists k | 1 <= k < |rs| ::
            (rs[k].Failure? && e == rs[k].error && forall j | 0 <= j < k :: rs[j].Success?);
          Failure(e)
        case Success(vs) => Success([v] + vs)
  }

  /** The data loop over the remaining lines. */
  function PyData(ls: seq<Line>, f: Frame, parse: string -> Option<real>): Result<seq<Vec3>, ReadError>
  {
    Collect(seq(|ls|, k requires 0 <= k < |ls| => PyPoint(PyLine(ls[k]), f, parse)))
  }

  /** `read_slicer_fiducials` on the lines of the file: the first `pop` and
      the read of the second line need two lines, the two further `pop`s a
      third. */
  function ReadPyLines(ls: seq<Line>, parse: string -> Option<real>): (r: Result<seq<Vec3>, ReadError>)
    ensures |ls| < 2 ==> r == Failure(IndexError)
    ensures |ls| >= 2 && ClassifyFrame(PyTail(PyLine(ls[1]))).Failure? ==> r == ClassifyFrame(PyTail(PyLine(ls[1]))).PropagateFailure()
    ensures |ls| == 2 && ClassifyFrame(PyTail(PyLine(ls[1]))).Success? ==> r == Failure(IndexError)
    ensures r.Success? ==> |r.value| == |DataLines(ls)|
  {
    if |ls| < 2 then Failure(IndexError)
    else
      var f :- ClassifyFrame(PyTail(PyLine(ls[1])));
      if |ls| < 3 then Failure(IndexError)
      else PyData(DataLines(ls), f, parse)
  }

  /** `read_slicer_fiducials`. */
  function ReadPy(file: string, parse: string -> Option<real>): Result<seq<Vec3>, ReadError>
  {
    ReadPyLines(SplitLines(file), parse)
  }

  // --------------------------------------------------------- agreement

  /** A line from which both readers take the same numbers: at least four
      commas (Slicer writes thirteen), and fields 1..3 parse alike. */
  predicate WellFormedData(text: string, toReal: string -> real, parse: string -> Option<real>)
  {
    var fs := Split(text, ',');
    |fs| >= 5 && forall c | 1 <= c <= 3 :: parse(fs[c]) == Some(toReal(fs[c]))
  }

  /** Appending text free of `d` to `s` only extends the last field. */
  lemma {:induction false} SplitAppendPlain(s: string, t: string, d: char)
    requires d !in t
    ensures |Split(s, d)| == |Split(s + t, d)|
    ensures forall j | 0 <= j < |Split(s, d)| - 1 :: Split(s, d)[j] == Split(s + t, d)[j]
    decreases |s|
  {
    if d in s {
      var k := IndexOf(s, d);
      assert (s + t)[..k] == s[..k] && (s + t)[k] == d;
      IndexOfFirst(s + t, s[..k], d);
      assert (s + t)[k + 1..] == s[k + 1..] + t;
      SplitAppendPlain(s[k + 1..], t, d);
      assert Split(s, d) == [s[..k]] + Split(s[k + 1..], d);
      assert Split(s + t, d) == [s[..k]] + Split(s[k + 1..] + t, d);
    } else {
      assert d !in s + t;
    }
  }

  /** The fields a Python line hands to `float` are the C++ fields 1..3. */
  lemma PyFields(text: string, nl: string)
    requires nl == "" || nl == "\n"
    requires |Split(text, ',')| >= 5
    ensures |SplitAtMost(text + nl, ',', 4)| == 5
    ensures forall c | 1 <= c <= 3 :: SplitAtMost(text + nl, ',', 4)[c] == Split(text, ',')[c]
  {
    SplitAppendPlain(text, nl, ',');
    SplitAtMostPrefix(text + nl, ',', 4);
  }

  /** One turn of the C++ column loop. */
  lemma CppColumnsStep(fs: seq<string>, f: Frame, toReal: string -> real, p: Vec3, col: nat)
    requires col < 3 && |fs| >= col + 3
    ensures CppColumns(fs, f, toReal, p, col)
      == CppColumns(fs, f, toReal, With(p, col, Signed(f, col, toReal(fs[col + 1]))), col + 1)
  {
  }

  /** With three coordinate columns the C++ column loop sets all three. */
  lemma CppColumnsFull(fs: seq<string>, f: Frame, toReal: string -> real, unset: Vec3)
    requires |fs| >= 5
    ensures CppColumns(fs, f, toReal, unset, 0)
      == Vec3(Signed(f, 0, toReal(fs[1])), Signed(f, 1, toReal(fs[2])), Signed(f, 2, toReal(fs[3])))
  {
    var p1 := With(unset, 0, Signed(f, 0, toReal(fs[1])));
    var p2 := With(p1, 1, Signed(f, 1, toReal(fs[2])));
    var p3 := With(p2, 2, Signed(f, 2, toReal(fs[3])));
    CppColumnsStep(fs, f, toReal, unset, 0);
    CppColumnsStep(fs, f, toReal, p1, 1);
    CppColumnsStep(fs, f, toReal, p2, 2);
    assert p3 == Vec3(Signed(f, 0, toReal(fs[1])), Signed(f, 1, toReal(fs[2])), Signed(f, 2, toReal(fs[3])));
  }

  /** One turn of the Python column loop on a field that parses. */
  lemma PyColumnsStep(e: seq<string>, f: Frame, parse: string -> Option<real>, p: Vec3, i: nat, v: real)
    requires i < 3 && |e| > i + 1 && parse(e[i + 1]) == Some(v)
    ensures PyColumns(e, f, parse, p, i) == PyColumns(e, f, parse, With(p, i, Signed(f, i, v)), i + 1)
  {
  }

  /** When columns 1..3 parse, the Python column loop sets all three. */
  lemma PyColumnsFull(e: seq<string>, f: Frame, parse: string -> Option<real>, x: real, y: real, z: real)
    requires |e| >= 4 && parse(e[1]) == Some(x) && parse(e[2]) == Some(y) && parse(e[3]) == Some(z)
    ensures PyColumns(e, f, parse, Zero, 0) == Success(Vec3(Signed(f, 0, x), Signed(f, 1, y), Signed(f, 2, z)))
  {
    var z1 := With(Zero, 0, Signed(f, 0, x));
    var z2 := With(z1, 1, Signed(f, 1, y));
    var z3 := With(z2, 2, Signed(f, 2, z));
    PyColumnsStep(e, f, parse, Zero, 0, x);
    PyColumnsStep(e, f, parse, z1, 1, y);
    PyColumnsStep(e, f, parse, z2, 2, z);
    assert z3 == Vec3(Signed(f, 0, x), Signed(f, 1, y), Signed(f, 2, z));
  }

  /** The two column loops agree on fields that parse alike. */
  lemma ColumnsAgree(e: seq<string>, fs: seq<string>, f: Frame, toReal: string -> real, parse: string -> Option<real>,
                     unset: Vec3)
    requires |e| >= 4 && |fs| >= 5
    requires forall c | 1 <= c <= 3 :: e[c] == fs[c] && parse(fs[c]) == Some(toReal(fs[c]))
    ensures PyColumns(e, f, parse, Zero, 0) == Success(CppColumns(fs, f, toReal, unset, 0))
  {
    assert e[1] == fs[1] && e[2] == fs[2] && e[3] == fs[3];
    CppColumnsFull(fs, f, toReal, unset);
    PyColumnsFull(e, f, parse, toReal(fs[1]), toReal(fs[2]), toReal(fs[3]));
  }



  /** On a well-formed line the Python point is the C++ point, whatever the
      line ending. */
  lemma PointsAgree(l: Line, f: Frame, toReal: string -> real, parse: string -> Option<real>, unset: Vec3)
    requires WellFormedData(l.text, toReal, parse)
    ensures PyPoint(PyLine(l), f, parse) == Success(CppPoint(l.text, f, toReal, unset))
  {
    var nl := if l.terminated then "\n" else "";
    assert PyLine(l) == l.text + nl;
    PyFields(l.text, nl);
    ColumnsAgree(SplitAtMost(l.text + nl, ',', 4), Split(l.text, ','), f, toReal, parse, unset);
  }

  /** The second-line tail Python reads is the C++ one when the line is
      terminated and at least three characters long. */
  lemma TailsAgree(l: Line)
    requires l.terminated && |l.text| >= 3
    ensures PyTail(PyLine(l)) == CppTail(l.text).value
  {
    var s := PyLine(l);
    assert s == l.text + "\n";
    assert s[|s| - 4..] == l.text[|l.text| - 3..] + "\n";
  }

  /** Data points agree line by line on well-formed data. */
  lemma DataAgree(ls: seq<Line>, f: Frame, toReal: string -> real, parse: string -> Option<real>, unset: Vec3)
    requires forall k | 0 <= k < |ls| :: WellFormedData(ls[k].text, toReal, parse)
    ensures PyData(ls, f, parse) == Success(AllPoints(ls, f, toReal, unset))
  {
    forall k | 0 <= k < |ls|
      ensures PyPoint(PyLine(ls[k]), f, parse) == Success(CppPoint(ls[k].text, f, toReal, unset))
    {
      PointsAgree(ls[k], f, toReal, parse, unset);
    }
    var rs := seq(|ls|, k requires 0 <= k < |ls| => PyPoint(PyLine(ls[k]), f, parse));
    CollectOf(rs, AllPoints(ls, f, toReal, unset));
  }

  /** The loop returns the given values when every step gives its value. */
  lemma CollectOf<T>(rs: seq<Result<T, ReadError>>, ps: seq<T>)
    requires |ps| == |rs|
    requires forall k | 0 <= k < |rs| :: rs[k] == Success(ps[k])
    ensures Collect(rs) == Success(ps)
  {
    var r := Collect(rs);
    assert r.Success?;
    assert forall k | 0 <= k < |rs| :: r.value[k] == ps[k];
    assert r.value == ps;
  }

  /** Both readers classify a terminated second line of three or more
      characters alike. */
  lemma FramesAgree(ls: seq<Line>)
    requires |ls| >= 2 && ls[1].terminated && |ls[1].text| >= 3
    ensures ClassifyFrame(PyTail(PyLine(ls[1]))) == CppFrame(ls)
  {
    TailsAgree(ls[1]);
  }

  /** The intended C++ reader and the Python reader agree on every file
      whose second line is terminated and long enough and whose data lines
      are well formed, the last one with or without a newline. */
  lemma FixedReaderAgrees(ls: seq<Line>, toReal: string -> real, parse: string -> Option<real>, unset: Vec3)
    requires |ls| >= 3 && ls[1].terminated && |ls[1].text| >= 3
    requires forall k | 0 <= k < |DataLines(ls)| :: WellFormedData(DataLines(ls)[k].text, toReal, parse)
    ensures ReadPyLines(ls, parse) == ReadCppFixedLines(ls, toReal, unset)
  {
    FramesAgree(ls);
    var fr := CppFrame(ls);
    if fr.Success? {
      DataAgree(DataLines(ls), fr.value, toReal, parse, unset);
    }
  }

  /** When every line ends with a newline, the second line has at least
      three characters and every data line is well formed, the as-written
      C++ reader and the Python reader return the same landmarks or the same
      classification error. */
  lemma ReadersAgree(ls: seq<Line>, toReal: string -> real, parse: string -> Option<real>, unset: Vec3)
    requires FileLines(ls) && |ls| >= 3 && ls[|ls| - 1].terminated
    requires |ls[1].text| >= 3
    requires forall k | 0 <= k < |DataLines(ls)| :: WellFormedData(DataLines(ls)[k].text, toReal, parse)
    ensures ReadPyLines(ls, parse) == ReadCppLines(ls, toReal, unset)
  {
    FixedReaderAgrees(ls, toReal, parse, unset);
    if CppFrame(ls).Success? {
      CppDropsUnterminatedLastLine(ls, toReal, unset);
    }
  }

  /** On a file whose every data line is well formed and whose last line has
      no newline, Python returns one landmark more than the as-written C++
      reader. */
  lemma PythonReadsOneMore(ls: seq<Line>, toReal: string -> real, parse: string -> Option<real>, unset: Vec3)
    requires FileLines(ls) && |ls| >= 4 && !ls[|ls| - 1].terminated
    requires |ls[1].text| >= 3 && CppFrame(ls).Success?
    requires forall k | 0 <= k < |DataLines(ls)| :: WellFormedData(DataLines(ls)[k].text, toReal, parse)
    ensures ReadPyLines(ls, parse).Success? && ReadCppLines(ls, toReal, unset).Success?
    ensures |ReadPyLines(ls, parse).value| == |ReadCppLines(ls, toReal, unset).value| + 1
  {
    FixedReaderAgrees(ls, toReal, parse, unset);
    CppDropsUnterminatedLastLine(ls, toReal, unset);
  }
}
