/** The case bookkeeping of the morphometry pipeline script: the sorted,
    de-duplicated list of file stems in a folder, the validation that the
    data and landmark folders hold the same cases, and the command-line
    dispatch between a whole run and one case. */
module CaseLists {
  import opened Wrappers

  // ------------------------------------------------------ string order

  /** Python's `str` order: lexicographic by character, a proper prefix
      first. */
  function Less(a: string, b: string): bool
  {
    if a == [] then b != []
    else if b == [] then false
    else if a[0] != b[0] then a[0] < b[0]
    else Less(a[1..], b[1..])
  }

  lemma {:induction false} LessIrreflexive(a: string)
    ensures !Less(a, a)
  {
    if a != [] {
      LessIrreflexive(a[1..]);
    }
  }

  lemma {:induction false} LessTransitive(a: string, b: string, c: string)
    requires Less(a, b) && Less(b, c)
    ensures Less(a, c)
  {
    if a != [] && b != [] && c != [] && a[0] == b[0] && b[0] == c[0] {
      LessTransitive(a[1..], b[1..], c[1..]);
    }
  }

  lemma {:induction false} LessTotal(a: string, b: string)
    ensures a == b || Less(a, b) || Less(b, a)
  {
    if a != [] && b != [] && a[0] == b[0] {
      LessTotal(a[1..], b[1..]);
      if a[1..] == b[1..] {
        assert a == [a[0]] + a[1..] && b == [b[0]] + b[1..];
      }
    }
  }

  /** Strictly increasing, hence free of duplicates. */
  predicate StrictlySorted(s: seq<string>)
  {
    forall i, j | 0 <= i < j < |s| :: Less(s[i], s[j])
  }

  /** Inserts `x` into a strictly sorted list unless it is already there. */
  function Insert(s: seq<string>, x: string): (r: seq<string>)
    requires StrictlySorted(s)
    ensures StrictlySorted(r)
    ensures forall y :: y in r <==> y in s || y == x
  {
    if s == [] then [x]
    else if x == s[0] then s
    else
      LessTotal(x, s[0]);
      if Less(x, s[0]) then
        InsertFront(s, x);
        [x] + s
      else
        var rest := Insert(s[1..], x);
        InsertBehind(s, x, rest);
        [s[0]] + rest
  }

  lemma InsertFront(s: seq<string>, x: string)
    requires StrictlySorted(s) && s != [] && Less(x, s[0])
    ensures StrictlySorted([x] + s)
  {
    forall j | 0 < j < |s|
      ensures Less(x, s[j])
    {
      LessTransitive(x, s[0], s[j]);
    }
  }

  lemma InsertBehind(s: seq<string>, x: string, rest: seq<string>)
    requires StrictlySorted(s) && s != [] && Less(s[0], x)
    requires StrictlySorted(rest) && forall y :: y in rest <==> y in s[1..] || y == x
    ensures StrictlySorted([s[0]] + rest)
  {
    forall j | 0 <= j < |rest|
      ensures Less(s[0], rest[j])
    {
      if rest[j] != x {
        assert rest[j] in s[1..];
        var k :| 0 <= k < |s[1..]| && s[1..][k] == rest[j];
        assert s[k + 1] == rest[j];
      }
    }
  }

  /** `list(set(xs))` followed by `sort()`: the distinct elements of `xs`,
      ascending. */
  function SortedDistinct(xs: seq<string>): (r: seq<string>)
    ensures StrictlySorted(r)
    ensures forall y :: y in r <==> y in xs
  {
    if xs == [] then []
    else Insert(SortedDistinct(xs[..|xs| - 1]), xs[|xs| - 1])
  }

  lemma SameElementsEmpty(a: seq<string>, b: seq<string>)
    requires forall x :: x in a <==> x in b
    ensures a == [] <==> b == []
  {
    if a != [] {
      assert a[0] in b;
    }
    if b != [] {
      assert b[0] in a;
    }
  }

  /** Two strictly sorted lists with the same elements are the same list,
      so the sorted list is determined by its set. */
  lemma {:induction false} SortedUnique(a: seq<string>, b: seq<string>)
    requires StrictlySorted(a) && StrictlySorted(b)
    requires forall x :: x in a <==> x in b
    ensures a == b
    decreases |a|
  {
    SameElementsEmpty(a, b);
    if a != [] && b != [] {
      if a[0] != b[0] {
        assert a[0] in b && b[0] in a;
        var j :| 0 <= j < |b| && b[j] == a[0];
        var i :| 0 <= i < |a| && a[i] == b[0];
        assert Less(b[0], a[0]) by { assert j > 0; }
        assert Less(a[0], b[0]) by { assert i > 0; }
        LessTransitive(a[0], b[0], a[0]);
        LessIrreflexive(a[0]);
      }
      forall x
        ensures x in a[1..] <==> x in b[1..]
      {
        if x in a[1..] {
          var i :| 0 <= i < |a[1..]| && a[1..][i] == x;
          assert Less(a[0], a[i + 1]);
          LessIrreflexive(x);
          assert x in b && x != b[0];
          var j :| 0 <= j < |b| && b[j] == x;
          assert b[1..][j - 1] == x;
        }
        if x in b[1..] {
          var i :| 0 <= i < |b[1..]| && b[1..][i] == x;
          assert Less(b[0], b[i + 1]);
          LessIrreflexive(x);
          assert x in a && x != a[0];
          var j :| 0 <= j < |a| && a[j] == x;
          assert a[1..][j - 1] == x;
        }
      }
      SortedUnique(a[1..], b[1..]);
    }
  }

  // ------------------------------------------------------- file names

  predicate EndsWith(s: string, suffix: string)
  {
    |suffix| <= |s| && s[|s| - |suffix|..] == suffix
  }

  /** The last position of `c` in `s`, if any. */
  function LastIndex(s: string, c: char): (k: Option<nat>)
    ensures k.Some? ==> k.value < |s| && s[k.value] == c && forall j | k.value < j < |s| :: s[j] != c
    ensures k.None? ==> forall j | 0 <= j < |s| :: s[j] != c
  {
    if s == [] then None
    else if s[|s| - 1] == c then Some(|s| - 1)
    else LastIndex(s[..|s| - 1], c)
  }

  /** `os.path.splitext(name)[0]` for a name without a directory part: cut
      at the last dot unless only dots come before it (a leading-dot name
      has no extension). */
  function SplitExtRoot(name: string): (r: string)
    ensures |r| <= |name| && r == name[..|r|]
  {
    match LastIndex(name, '.')
    case None => name
    case Some(k) => if exists j | 0 <= j < k :: name[j] != '.' then name[..k] else name
  }

  /** `Path(name).stem`: the name without its last suffix, where a suffix
      needs a dot that is neither the first nor the last character. */
  function Stem(name: string): (r: string)
    ensures |r| <= |name| && r == name[..|r|]
  {
    match LastIndex(name, '.')
    case None => name
    case Some(k) => if 0 < k < |name| - 1 then name[..k] else name
  }

  /** The case name of a matching file: both cuts applied. */
  function CaseName(name: string): string
  {
    Stem(SplitExtRoot(name))
  }

  /** The loop of `sorted_file_list`: the case name of every entry with
      the extension, in listing order. */
  function Matching(entries: seq<string>, ext: string): (names: seq<string>)
    ensures forall x :: x in names <==> exists e | e in entries :: EndsWith(e, ext) && CaseName(e) == x
  {
    if entries == [] then []
    else
      var e := entries[|entries| - 1];
      var front := Matching(entries[..|entries| - 1], ext);
      assert entries == entries[..|entries| - 1] + [e];
      if EndsWith(e, ext) then front + [CaseName(e)] else front
  }

  /** `sorted_file_list(folder, extension)` on the folder's entries. */
  function SortedFileList(entries: seq<string>, ext: string): (r: seq<string>)
    ensures StrictlySorted(r)
    ensures forall x :: x in r <==> exists e | e in entries :: EndsWith(e, ext) && CaseName(e) == x
  {
    SortedDistinct(Matching(entries, ext))
  }

  /** The last dot is the one before a dot-free tail. */
  lemma {:induction false} LastIndexBefore(a: string, b: string, c: char)
    requires c !in b
    ensures LastIndex(a + [c] + b, c) == Some(|a|)
    decreases |b|
  {
    if b != [] {
      var s := a + [c] + b;
      assert s[..|s| - 1] == a + [c] + b[..|b| - 1];
      LastIndexBefore(a, b[..|b| - 1], c);
    }
  }

  /** A data file and a landmark file of the same case give the same name:
      `907-L.nrrd` and `907-L.fcsv` both name case `907-L`. */
  lemma CaseNameOfOneExtension(stem: string, ext: string)
    requires stem != [] && '.' !in stem && '.' !in ext
    ensures CaseName(stem + "." + ext) == stem
  {
    var name := stem + "." + ext;
    LastIndexBefore(stem, ext, '.');
    assert stem + ['.'] + ext == name;
    assert name[0] == stem[0] != '.';
    assert SplitExtRoot(name) == stem;
    NoDot(stem);
  }

  /** A doubly suffixed file, such as a segmentation `907-L.seg.nrrd`,
      loses both extensions. */
  lemma CaseNameOfTwoExtensions(stem: string, inner: string, ext: string)
    requires stem != [] && '.' !in stem && inner != [] && '.' !in inner && '.' !in ext
    ensures CaseName(stem + "." + inner + "." + ext) == stem
  {
    var base := stem + "." + inner;
    var name := base + "." + ext;
    LastIndexBefore(base, ext, '.');
    assert base + ['.'] + ext == name;
    assert name[0] == stem[0] != '.';
    assert SplitExtRoot(name) == base;
    LastIndexBefore(stem, inner, '.');
    assert stem + ['.'] + inner == base;
  }

  /** A name without a dot is its own stem. */
  lemma NoDot(name: string)
    requires '.' !in name
    ensures Stem(name) == name
  {
  }

  // ------------------------------------------------------- validation

  /** `list.remove(x)`: the first occurrence goes; `ValueError` if absent. */
  function RemoveFirst(s: seq<string>, x: string): (r: seq<string>)
    requires x in s
    ensures |r| == |s| - 1
    ensures forall y :: y in r ==> y in s
    ensures forall y | y in s && y != x :: y in r
  {
    if s[0] == x then s[1..]
    else [s[0]] + RemoveFirst(s[1..], x)
  }

  /** Removing from a strictly sorted list keeps it strictly sorted and drops
      exactly that element. */
  lemma {:induction false} RemoveSorted(s: seq<string>, x: string)
    requires x in s && StrictlySorted(s)
    ensures StrictlySorted(RemoveFirst(s, x))
    ensures x !in RemoveFirst(s, x)
  {
    if s[0] == x {
      forall y | y in s[1..]
        ensures y != x
      {
        var i :| 1 <= i < |s| && s[i] == y;
        assert Less(s[0], s[i]);
        LessIrreflexive(x);
      }
    } else {
      RemoveSorted(s[1..], x);
      var r := RemoveFirst(s, x);
      forall i, j | 0 <= i < j < |r|
        ensures Less(r[i], r[j])
      {
        if i == 0 {
          assert r[j] in s[1..];
          var k :| 1 <= k < |s| && s[k] == r[j];
        }
      }
    }
  }

  /** What `main_processing` does before processing cases. */
  datatype Outcome =
    | MissingAtlasData          // RuntimeError('Missing data file for the atlas')
    | MissingPose               // RuntimeError('Missing Pose.fcsv file')
    | Discrepancy               // sys.exit(1)
    | Proceed(cases: seq<string>, atlasLandmarksMissing: bool)

  const PoseName: string := "Pose"

  /** The list checks of `main_processing`: the atlas must have a data
      file; a missing atlas landmark file is only reported; the pose file
      must exist; then the remaining data and landmark lists must be equal. */
  function ValidateCases(dataList: seq<string>, landmarksList: seq<string>, atlas: string): (o: Outcome)
    ensures o == MissingAtlasData <==> atlas !in dataList
    ensures atlas != PoseName ==> (o == MissingPose <==> atlas in dataList && PoseName !in landmarksList)
    ensures o.Proceed? ==> o.cases == RemoveFirst(dataList, atlas)
    ensures o.Proceed? ==> (o.atlasLandmarksMissing <==> atlas !in landmarksList)
  {
    if atlas !in dataList then MissingAtlasData
    else
      var data := RemoveFirst(dataList, atlas);
      var marks := if atlas in landmarksList then RemoveFirst(landmarksList, atlas) else landmarksList;
      if PoseName !in marks then MissingPose
      else if data != RemoveFirst(marks, PoseName) then Discrepancy
      else Proceed(data, atlas !in landmarksList)
  }

  /** On sorted, duplicate-free folder lists (as `sorted_file_list` gives):
      the run proceeds exactly when the atlas has data, the pose file exists,
      and the data cases other than the atlas are the landmark cases other
      than the atlas and the pose; the cases then exclude both. */
  lemma ValidateMeaning(dataList: seq<string>, landmarksList: seq<string>, atlas: string)
    requires StrictlySorted(dataList) && StrictlySorted(landmarksList)
    requires atlas != PoseName
    ensures ValidateCases(dataList, landmarksList, atlas).Proceed? <==>
      && atlas in dataList && PoseName in landmarksList
      && (forall x :: (x in dataList && x != atlas) <==> (x in landmarksList && x != atlas && x != PoseName))
    ensures ValidateCases(dataList, landmarksList, atlas).Proceed? ==>
      var cs := ValidateCases(dataList, landmarksList, atlas).cases;
      StrictlySorted(cs) && atlas !in cs && PoseName !in cs
  {
    if atlas in dataList {
      var data := RemoveFirst(dataList, atlas);
      RemoveSorted(dataList, atlas);
      var marks := if atlas in landmarksList then RemoveFirst(landmarksList, atlas) else landmarksList;
      if atlas in landmarksList {
        RemoveSorted(landmarksList, atlas);
      }
      assert StrictlySorted(marks);
      assert forall x :: x in marks <==> x in landmarksList && x != atlas;
      if PoseName in marks {
        var rest := RemoveFirst(marks, PoseName);
        RemoveSorted(marks, PoseName);
        assert forall x :: x in rest <==> x in landmarksList && x != atlas && x != PoseName;
        assert forall x :: x in data <==> x in dataList && x != atlas;
        if forall x :: (x in dataList && x != atlas) <==> (x in landmarksList && x != atlas && x != PoseName) {
          SortedUnique(data, rest);
        }
      }
    }
  }

  // --------------------------------------------------------- dispatch

  /** The four runs of a direct invocation: root, bone, atlas, bone label. */
  const DirectRuns: seq<(string, string, string, int)> := [
    ("../../", "Femur", "907-L", 1),
    ("../../", "Femur", "907-R", 1),
    ("../../", "Tibia", "901-L", 2),
    ("../../", "Tibia", "901-R", 2)
  ]

  /** What the script does for a given `sys.argv`. */
  datatype Action =
    | ProcessCase(root: string, bone: string, caseName: string, boneLabel: int, atlas: string)
    | MainRuns(runs: seq<(string, string, string, int)>)
    | Exit(code: nat)

  /** The `__main__` block: six entries run one case (the label through
      `int`, which may raise `ValueError`), one entry runs the four fixed
      jobs, anything else exits with the entry count. */
  function Dispatch(argv: seq<string>, toInt: string -> Option<int>): (r: Result<Action, string>)
    ensures r.Failure? <==> |argv| == 6 && toInt(argv[4]).None?
    ensures r.Success? && |argv| == 6 ==> r.value == ProcessCase(argv[1], argv[2], argv[3], toInt(argv[4]).value, argv[5])
    ensures |argv| == 1 ==> r == Success(MainRuns(DirectRuns))
    ensures |argv| != 6 && |argv| != 1 ==> r == Success(Exit(|argv|))
  {
    if |argv| == 6 then
      match toInt(argv[4])
      case None => Failure("ValueError")
      case Some(boneLabel) => Success(ProcessCase(argv[1], argv[2], argv[3], boneLabel, argv[5]))
    else if |argv| == 1 then Success(MainRuns(DirectRuns))
    else Success(Exit(|argv|))
  }

  /** The command line `main_processing` hands each case to a child
      interpreter: `python <script> root bone case str(label) atlas`; the
      child's `sys.argv` drops the interpreter. */
  function ChildArgv(script: string, root: string, bone: string, caseName: string, boneLabel: int, atlas: string,
                     show: int -> string): (argv: seq<string>)
    ensures |argv| == 6
  {
    [script, root, bone, caseName, show(boneLabel), atlas]
  }

  /** The child run processes exactly the case it was started for, provided
      `int(str(label))` gives the label back. */
  lemma ChildProcessesItsCase(script: string, root: string, bone: string, caseName: string, boneLabel: int, atlas: string,
                              show: int -> string, toInt: string -> Option<int>)
    requires toInt(show(boneLabel)) == Some(boneLabel)
    ensures Dispatch(ChildArgv(script, root, bone, caseName, boneLabel, atlas, show), toInt)
      == Success(ProcessCase(root, bone, caseName, boneLabel, atlas))
  {
  }
}
