/**
 * What the three importer versions share: the content digest of a file, the
 * photo destination path `dest/YYYY/MM-Month/DD-Weekday/HHMMSS-HASH.ext`, the
 * verdict on one file and the filesystem operations that carry it out.
 */
module Placement {
  import opened GoStrings
  import opened ExifDates
  import Calendar

  predicate IsHexDigit(c: char) {
    '0' <= c <= '9' || 'a' <= c <= 'f'
  }

  /** A file's SHA-1 as `checksum.File` renders it: lower-case hexadecimal; only its first four characters are used. */
  type Digest = s: string | 4 <= |s| && forall i :: 0 <= i < |s| ==> IsHexDigit(s[i])
    witness "0000"

  /** The files the importer sees, source and destination alike: path to content digest. */
  type FileTree = map<string, Digest>

  datatype Mode = Copy | Move

  /** What the importer decides for a file whose destination path it could build. */
  datatype Verdict =
    | Transfer(mode: Mode)  // the destination is free: copy or move the file there
    | RemoveDuplicate       // the destination holds the same content: remove the original
    | Skip                  // the destination is taken: leave the file where it is

  /** The result of processing one file: no destination (no usable tags or date), or a destination and a verdict. */
  datatype Outcome = Unresolved | Resolved(target: string, verdict: Verdict)

  /** The filesystem operations an import performs, in order. */
  datatype FsOp =
    | MakeParentDirs(of: string)     // `os.MkdirAll(path.Dir(of), …)`
    | CopyFile(src: string, dst: string)
    | MoveFile(src: string, dst: string)
    | RemoveFile(path: string)

  /** The run counters of all versions; each version uses some of them. */
  datatype Counter = Copied | Moved | Skipped | Deleted | Unknown | NotExif

  /** The operations of a non-dry-run transfer: create the parent directories, then copy or move. */
  function TransferOps(mode: Mode, name: string, target: string): (ops: seq<FsOp>)
    ensures |ops| == 2 && ops[0] == MakeParentDirs(target)
    ensures ops[1] == if mode == Move then MoveFile(name, target) else CopyFile(name, target)
  {
    [MakeParentDirs(target), if mode == Move then MoveFile(name, target) else CopyFile(name, target)]
  }

  /**
   * The operations of photopy.go and phosphor.go: a transfer outside a dry run
   * creates the parent directories, then copies or moves; nothing else is done.
   */
  function CopyOrMoveOps(o: Outcome, name: string, dryRun: bool): (ops: seq<FsOp>)
    ensures ops != [] <==> o.Resolved? && o.verdict.Transfer? && !dryRun
    ensures o.Resolved? && o.verdict.Transfer? && !dryRun ==>
      ops == [MakeParentDirs(o.target), if o.verdict.mode == Move then MoveFile(name, o.target) else CopyFile(name, o.target)]
    ensures forall k :: 0 <= k < |ops| ==> o.Resolved? && Touches(ops[k], name, o.target) && ops[k] != RemoveFile(name)
  {
    match o
    case Resolved(p, Transfer(mode)) => if dryRun then [] else TransferOps(mode, name, p)
    case _ => []
  }

  /** An operation that acts on the file `name` or its destination `target` and on nothing else. */
  predicate Touches(op: FsOp, name: string, target: string) {
    op == MakeParentDirs(target) || op == CopyFile(name, target) || op == MoveFile(name, target) || op == RemoveFile(name)
  }

  /**
   * The decision of photopy.go and phosphor.go, which compare no content: a
   * free destination is transferred to as the move flag says, a taken one is
   * skipped.
   */
  function SkipOrTransfer(destExists: bool, move: bool): (v: Verdict)
    ensures v != RemoveDuplicate
    ensures v == Skip <==> destExists
    ensures v.Transfer? ==> (v.mode == Move <==> move)
  {
    if destExists then Skip else Transfer(if move then Move else Copy)
  }

  /** The effect of one operation on the files; directories are not tracked. */
  function Step(fs: FileTree, op: FsOp): FileTree {
    match op
    case MakeParentDirs(_) => fs
    case CopyFile(src, dst) => if src in fs then fs[dst := fs[src]] else fs
    case MoveFile(src, dst) => if src in fs then (fs - {src})[dst := fs[src]] else fs
    case RemoveFile(p) => fs - {p}
  }

  function Apply(fs: FileTree, ops: seq<FsOp>): FileTree
    decreases |ops|
  {
    if ops == [] then fs else Apply(Step(fs, ops[0]), ops[1..])
  }

  /**
   * A transfer puts the original's content at the destination, keeps the
   * original on a copy and removes it on a move, and touches no other file.
   */
  lemma ApplyTransfer(fs: FileTree, mode: Mode, name: string, target: string)
    requires name in fs && name != target
    ensures var after := Apply(fs, TransferOps(mode, name, target));
      && target in after && after[target] == fs[name]
      && (name in after <==> mode == Copy)
      && (mode == Copy ==> after[name] == fs[name])
      && forall p :: p != name && p != target ==> (p in after <==> p in fs) && (p in fs ==> after[p] == fs[p])
  {
    var ops := TransferOps(mode, name, target);
    var mid := Step(fs, ops[0]);
    assert ops[1..][1..] == [];
    assert Apply(mid, ops[1..]) == Apply(Step(mid, ops[1]), []);
  }

  /** Removing the original removes it and nothing else. */
  lemma ApplyRemove(fs: FileTree, name: string)
    ensures var after := Apply(fs, [RemoveFile(name)]);
      name !in after && forall p :: p != name ==> (p in after <==> p in fs) && (p in fs ==> after[p] == fs[p])
  {
    assert [RemoveFile(name)][1..] == [];
  }

  /** The four path segments below `dest` for a photo taken at `dt`. */
  function PhotoSegments(dt: DateTime, name: string, hash: Digest): (segs: seq<string>)
    requires ValidDateTime(dt)
    ensures |segs| == 4
  {
    [ DecimalString(dt.year),
      Pad2(dt.month) + "-" + Calendar.MonthName(dt.month),
      Pad2(dt.day) + "-" + Calendar.WeekdayName(Calendar.Weekday(dt.year, dt.month, dt.day)),
      Pad2(dt.hour) + Pad2(dt.minute) + Pad2(dt.second) + "-" + ToUpperAscii(hash[..4]) + ToLower(Ext(name)) ]
  }

  /** The `strings.Join` of `dest` and the photo segments, with `/` as `os.PathSeparator`. */
  function PhotoPath(dest: string, dt: DateTime, name: string, hash: Digest): (p: string)
    requires ValidDateTime(dt)
    ensures |p| > |dest| && p[..|dest|] == dest && p[|dest|] == '/'
  {
    JoinUnder(dest, PhotoSegments(dt, name, hash), '/')
  }

  /** Lower-casing never makes a `/`. */
  lemma ToLowerNoSlash(s: string)
    requires '/' !in s
    ensures '/' !in ToLower(s)
  {
    var r := ToLower(s);
    assert forall i :: 0 <= i < |r| ==> r[i] != '/' by {
      forall i | 0 <= i < |r| ensures r[i] != '/' {
        assert r[i] == Lower(s[i]) && s[i] != '/';
      }
    }
  }

  lemma NamesNoSlash(m: int, w: nat)
    requires 1 <= m <= 12 && w < 7
    ensures '/' !in Calendar.MonthName(m) && '/' !in Calendar.WeekdayName(w)
  {
  }

  /** No photo segment holds the path separator. */
  lemma SegmentsNoSlash(dt: DateTime, name: string, hash: Digest)
    requires ValidDateTime(dt)
    ensures forall i :: 0 <= i < 4 ==> '/' !in PhotoSegments(dt, name, hash)[i]
  {
    var segs := PhotoSegments(dt, name, hash);
    NamesNoSlash(dt.month, Calendar.Weekday(dt.year, dt.month, dt.day));
    ToLowerNoSlash(Ext(name));
    var up := ToUpperAscii(hash[..4]);
    assert forall i :: 0 <= i < 4 ==> up[i] != '/' by {
      forall i | 0 <= i < 4 ensures up[i] != '/' {
        assert IsHexDigit(hash[i]);
      }
    }
    assert '/' !in DecimalString(dt.year) by {
      var d := DecimalString(dt.year);
      assert forall i :: 0 <= i < |d| ==> IsDigit(d[i]);
    }
  }

  /**
   * Splitting a photo path on `/` gives the pieces of `dest` followed by exactly
   * the four photo segments.
   */
  lemma PhotoPathSplits(dest: string, dt: DateTime, name: string, hash: Digest)
    requires ValidDateTime(dt)
    ensures Split(PhotoPath(dest, dt, name, hash), '/') == Split(dest, '/') + PhotoSegments(dt, name, hash)
  {
    SegmentsNoSlash(dt, name, hash);
    SplitJoinUnder(dest, PhotoSegments(dt, name, hash), '/');
  }

  /** The year directory reads back to the year. */
  lemma PhotoYearDecode(dt: DateTime, name: string, hash: Digest)
    requires ValidDateTime(dt)
    ensures var seg := PhotoSegments(dt, name, hash)[0];
      IsDigits(seg) && DigitsValue(seg) == dt.year
  {
    DecimalRoundTrip(dt.year);
  }

  /** The month directory reads back to the two-digit month, `-` and the month's English name. */
  lemma PhotoMonthDecode(dt: DateTime, name: string, hash: Digest)
    requires ValidDateTime(dt)
    ensures var seg := PhotoSegments(dt, name, hash)[1];
      && |seg| > 3 && IsDigits(seg[..2]) && DigitsValue(seg[..2]) == dt.month
      && seg[2..] == "-" + Calendar.MonthName(dt.month)
  {
    NamesNoSlash(dt.month, Calendar.Weekday(dt.year, dt.month, dt.day));
    NamedDecode(dt.month, Calendar.MonthName(dt.month));
  }

  /** The day directory reads back to the two-digit day, `-` and the English name of its weekday. */
  lemma PhotoDayDecode(dt: DateTime, name: string, hash: Digest)
    requires ValidDateTime(dt)
    ensures var seg := PhotoSegments(dt, name, hash)[2];
      && |seg| > 3 && IsDigits(seg[..2]) && DigitsValue(seg[..2]) == dt.day
      && seg[2..] == "-" + Calendar.WeekdayName(Calendar.Weekday(dt.year, dt.month, dt.day))
  {
    NamesNoSlash(dt.month, Calendar.Weekday(dt.year, dt.month, dt.day));
    NamedDecode(dt.day, Calendar.WeekdayName(Calendar.Weekday(dt.year, dt.month, dt.day)));
  }

  /**
   * The file name reads back to the `HHMMSS` stamp, followed by `-`, the
   * upper-cased hash prefix and the lower-cased extension.
   */
  lemma PhotoStampDecode(dt: DateTime, name: string, hash: Digest)
    requires ValidDateTime(dt)
    ensures var seg := PhotoSegments(dt, name, hash)[3];
      && |seg| >= 11 && IsDigits(seg[..6])
      && DigitsValue(seg[0..2]) == dt.hour && DigitsValue(seg[2..4]) == dt.minute
      && DigitsValue(seg[4..6]) == dt.second
      && seg[6..] == "-" + ToUpperAscii(hash[..4]) + ToLower(Ext(name))
  {
    var rest := "-" + ToUpperAscii(hash[..4]) + ToLower(Ext(name));
    assert |rest| >= 5;
    assert PhotoSegments(dt, name, hash)[3] == Pad2(dt.hour) + Pad2(dt.minute) + Pad2(dt.second) + rest;
    StampDecode(dt.hour, dt.minute, dt.second, rest);
  }

  /** `%02d-Name` reads back to the number and the name. */
  lemma NamedDecode(n: nat, word: string)
    requires n < 100 && word != ""
    ensures var seg := Pad2(n) + "-" + word;
      |seg| > 3 && IsDigits(seg[..2]) && DigitsValue(seg[..2]) == n && seg[2..] == "-" + word
  {
    var seg := Pad2(n) + "-" + word;
    assert seg[..2] == Pad2(n);
    assert seg[2..] == "-" + word;
    Pad2RoundTrip(n);
  }

  /** `%02d%02d%02d` followed by `rest` reads back to the three numbers and `rest`. */
  lemma StampDecode(h: nat, mi: nat, sec: nat, rest: string)
    requires h < 100 && mi < 100 && sec < 100
    ensures var seg := Pad2(h) + Pad2(mi) + Pad2(sec) + rest;
      && |seg| >= 6 + |rest| && IsDigits(seg[..6])
      && DigitsValue(seg[0..2]) == h && DigitsValue(seg[2..4]) == mi && DigitsValue(seg[4..6]) == sec
      && seg[6..] == rest
  {
    var stamp := Pad2(h) + Pad2(mi) + Pad2(sec);
    var seg := stamp + rest;
    assert seg[..6] == stamp;
    assert seg[0..2] == Pad2(h);
    assert seg[2..4] == Pad2(mi);
    assert seg[4..6] == Pad2(sec);
    assert seg[6..] == rest;
    Pad2RoundTrip(h);
    Pad2RoundTrip(mi);
    Pad2RoundTrip(sec);
  }
}

/** A worked example of the photo path. */
module PlacementExamples {
  import opened GoStrings
  import opened ExifDates
  import opened Placement
  import Calendar

  lemma ExampleExt()
    ensures ToLower(Ext("DSC_0042.JPG")) == ".jpg"
  {
    ExampleSuffix();
    ExtOfDotted("DSC_0042", "JPG");
    ExampleName();
    ExampleLower();
  }

  lemma ExampleSuffix()
    ensures '.' !in "JPG" && '/' !in "JPG"
  {
  }

  lemma ExampleName()
    ensures "DSC_0042" + "." + "JPG" == "DSC_0042.JPG" && "." + "JPG" == ".JPG"
  {
  }

  lemma ExampleLower()
    ensures ToLower(".JPG") == ".jpg"
  {
  }

  lemma ExampleFields()
    ensures DecimalString(2020) == "2020"
    ensures Pad2(5) == "05" && Pad2(3) == "03"
    ensures Pad2(10) + Pad2(15) + Pad2(0) == "101500"
  {
  }

  lemma ExampleNames()
    ensures Calendar.MonthName(5) == "May"
    ensures Calendar.WeekdayName(Calendar.Weekday(2020, 5, 3)) == "Sunday"
  {
    Calendar.KnownWeekdays();
  }

  /** A worked example: a photo of Sunday 3 May 2020, 10:15:00. */
  const Taken := DateTime(2020, 5, 3, 10, 15, 0)

  lemma ExampleYear()
    ensures PhotoSegments(Taken, "DSC_0042.JPG", "ab12cd")[0] == "2020"
  {
    ExampleFields();
  }

  lemma ExampleMonth()
    ensures PhotoSegments(Taken, "DSC_0042.JPG", "ab12cd")[1] == "05-May"
  {
    ExampleFields();
    ExampleNames();
    assert "05" + "-" + "May" == "05-May";
  }

  lemma ExampleDay()
    ensures PhotoSegments(Taken, "DSC_0042.JPG", "ab12cd")[2] == "03-Sunday"
  {
    ExampleFields();
    ExampleNames();
    assert "03" + "-" + "Sunday" == "03-Sunday";
  }

  lemma ExampleStamp()
    ensures PhotoSegments(Taken, "DSC_0042.JPG", "ab12cd")[3] == "101500-AB12.jpg"
  {
    ExampleExt();
    ExampleFields();
    assert ToUpperAscii("ab12cd"[..4]) == "AB12";
    assert "101500" + "-" + "AB12" + ".jpg" == "101500-AB12.jpg";
  }

  lemma FourParts(segs: seq<string>, a: string, b: string, c: string, d: string)
    requires |segs| == 4 && segs[0] == a && segs[1] == b && segs[2] == c && segs[3] == d
    ensures segs == [a, b, c, d]
  {
  }

  lemma PhotoSegmentsExample()
    ensures PhotoSegments(Taken, "DSC_0042.JPG", "ab12cd")
      == ["2020", "05-May", "03-Sunday", "101500-AB12.jpg"]
  {
    ExampleYear();
    ExampleMonth();
    ExampleDay();
    ExampleStamp();
    FourParts(PhotoSegments(Taken, "DSC_0042.JPG", "ab12cd"), "2020", "05-May", "03-Sunday", "101500-AB12.jpg");
  }

  lemma ExampleJoin()
    ensures Join(["/photos", "2020", "05-May", "03-Sunday", "101500-AB12.jpg"], '/')
      == "/photos" + "/" + "2020" + "/" + "05-May" + "/" + "03-Sunday" + "/" + "101500-AB12.jpg"
  {
  }

  /** The photo is filed as `/photos/2020/05-May/03-Sunday/101500-AB12.jpg`. */
  lemma PhotoPathExample()
    ensures PhotoPath("/photos", Taken, "DSC_0042.JPG", "ab12cd")
      == "/photos" + "/" + "2020" + "/" + "05-May" + "/" + "03-Sunday" + "/" + "101500-AB12.jpg"
  {
    PhotoSegmentsExample();
    ExampleJoin();
    assert ["/photos"] + ["2020", "05-May", "03-Sunday", "101500-AB12.jpg"]
      == ["/photos", "2020", "05-May", "03-Sunday", "101500-AB12.jpg"];
  }
}
