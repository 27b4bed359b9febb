/**
 * The importer of photopy.go: photos only, filed by the first of two date
 * fields; an existing destination is skipped without comparing content, and
 * four run counters record what happened.
 */
module PhotopyImport {
  import opened Wrappers
  import opened GoStrings
  import opened Tags
  import opened ExifDates
  import opened Placement

  /** `dateTimeFields`, in the order they are tried. */
  const DateFields: seq<string> := ["Date and Time (Original)", "Date/Time Original"]

  /**
   * `getExifData`: with the exiftool flag, the process output (`None`: it
   * failed) parsed with `strings.Trim(_, " ")` on both columns; without it,
   * libexif's tags (`None`: the file could not be opened).
   */
  function ExifData(exifTool: bool, libexif: Option<TagMap>, exiftool: Option<string>): (tags: Option<TagMap>)
    requires exifTool && exiftool.Some? ==> WellFormed(OutputLines(exiftool.value))
    ensures tags.None? <==> if exifTool then exiftool.None? else libexif.None?
  {
    if !exifTool then libexif
    else if exiftool.Some? then Some(ExifToolTags(exiftool.value, TrimBlanks))
    else None
  }

  /** One reader only: the flag chooses it, and its failure means no tags. */
  lemma ExifDataSources(exifTool: bool, libexif: Option<TagMap>, exiftool: Option<string>)
    requires exifTool && exiftool.Some? ==> WellFormed(OutputLines(exiftool.value))
    ensures var tags := ExifData(exifTool, libexif, exiftool);
      && (!exifTool ==> tags == libexif)
      && (exifTool ==> (tags.None? <==> exiftool.None?))
      && (exifTool && exiftool.Some? ==> tags == Some(ExifToolTags(exiftool.value, TrimBlanks)))
  {
  }

  /** The reader selection of `getExifData`, with the exiftool line loop. */
  method GetExifData(exifTool: bool, libexif: Option<TagMap>, exiftool: Option<string>) returns (tags: Option<TagMap>)
    requires exifTool && exiftool.Some? ==> WellFormed(OutputLines(exiftool.value))
    ensures tags == ExifData(exifTool, libexif, exiftool)
  {
    if exifTool {
      if exiftool.None? {
        return None;
      }
      var parsed := ParseExifTool(exiftool.value, TrimBlanks);
      return Some(parsed);
    }
    return libexif;
  }

  /** The date value a photo is filed by: the first non-empty date field. */
  function Taken(tags: TagMap): string {
    FirstNonEmpty(tags, DateFields)
  }

  /** A date value, when there is one, holds the date pattern and a valid date. */
  predicate DateReadable(tags: TagMap) {
    Taken(tags) == "" || Parses(Taken(tags))
  }

  /** The destination path, or `None` when no date field is set. */
  function Target(tags: TagMap, name: string, dest: string, hash: Digest): (p: Option<string>)
    requires DateReadable(tags)
    ensures p.None? <==> Taken(tags) == ""
  {
    if Taken(tags) == "" then None
    else Some(PhotoPath(dest, ParseExifDate(Taken(tags)).value, name, hash))
  }

  /**
   * A photo with a date is filed under `dest` by the four photo segments of its
   * date: year, month, day and stamp.
   */
  lemma TargetSplits(tags: TagMap, name: string, dest: string, hash: Digest)
    requires DateReadable(tags) && Taken(tags) != ""
    ensures var p := Target(tags, name, dest, hash);
      p.Some? && Split(p.value, '/') == Split(dest, '/') + PhotoSegments(ParseExifDate(Taken(tags)).value, name, hash)
  {
    PhotoPathSplits(dest, ParseExifDate(Taken(tags)).value, name, hash);
  }

  /** Only the two date fields are looked at, the first one first. */
  lemma DateFieldOrder(tags: TagMap)
    ensures Lookup(tags, "Date and Time (Original)") != "" ==> Taken(tags) == Lookup(tags, "Date and Time (Original)")
    ensures Lookup(tags, "Date and Time (Original)") == "" ==> Taken(tags) == Lookup(tags, "Date/Time Original")
  {
    var rest := DateFields[1..];
    assert rest == ["Date/Time Original"] && rest[1..] == [];
    assert FirstNonEmpty(tags, rest[1..]) == "";
    assert FirstNonEmpty(tags, rest) == Lookup(tags, "Date/Time Original");
  }

  predicate Importable(tags: Option<TagMap>, name: string, fs: FileTree) {
    name in fs && (tags.Some? ==> DateReadable(tags.value))
  }

  /** The whole decision for a file `name` of `fs`, given the tags read from it. */
  function Decide(tags: Option<TagMap>, name: string, dest: string, fs: FileTree, move: bool): (o: Outcome)
    requires Importable(tags, name, fs)
    ensures o == Unresolved <==> tags.None? || Target(tags.value, name, dest, fs[name]).None?
    ensures o.Resolved? ==> tags.Some? && Target(tags.value, name, dest, fs[name]) == Some(o.target)
    ensures o.Resolved? ==> (o.verdict == Skip <==> o.target in fs) && o.verdict != RemoveDuplicate
    ensures o.Resolved? && o.verdict.Transfer? ==> (o.verdict.mode == Move <==> move)
  {
    if tags.None? then Unresolved
    else
      match Target(tags.value, name, dest, fs[name])
      case None => Unresolved
      case Some(p) => Resolved(p, SkipOrTransfer(p in fs, move))
  }

  /**
   * The counter bumped: `statsNotExif` for a file without tags or date, a
   * transfer only outside a dry run, a skip always.
   */
  function Bump(o: Outcome, dryRun: bool): (c: Option<Counter>)
    ensures c == Some(NotExif) <==> o == Unresolved
    ensures c == Some(Skipped) <==> o.Resolved? && o.verdict == Skip
    ensures c.None? <==> o.Resolved? && (o.verdict == RemoveDuplicate || (o.verdict.Transfer? && dryRun))
    ensures c == Some(Moved) <==> o.Resolved? && o.verdict == Transfer(Move) && !dryRun
    ensures c == Some(Copied) <==> o.Resolved? && o.verdict == Transfer(Copy) && !dryRun
    ensures c != Some(Deleted) && c != Some(Unknown)
  {
    match o
    case Unresolved => Some(NotExif)
    case Resolved(_, Transfer(Move)) => if dryRun then None else Some(Moved)
    case Resolved(_, Transfer(Copy)) => if dryRun then None else Some(Copied)
    case Resolved(_, Skip) => Some(Skipped)
    case Resolved(_, RemoveDuplicate) => None  // never decided here
  }

  function Inc(c: Option<Counter>, which: Counter): int {
    if c == Some(which) then 1 else 0
  }

  /** The globals `statsCopied`, `statsMoved`, `statsSkipped` and `statsNotExif`. */
  class PhotoStats {
    var copied: int
    var moved: int
    var skipped: int
    var notExif: int

    constructor()
      ensures copied == 0 && moved == 0 && skipped == 0 && notExif == 0
    {
      copied, moved, skipped, notExif := 0, 0, 0, 0;
    }

    /** Bumps the one counter named by `c`, if it is one of the four. */
    method Tally(c: Option<Counter>)
      modifies this
      ensures copied == old(copied) + Inc(c, Copied)
      ensures moved == old(moved) + Inc(c, Moved)
      ensures skipped == old(skipped) + Inc(c, Skipped)
      ensures notExif == old(notExif) + Inc(c, NotExif)
    {
      match c {
        case Some(Copied) => copied := copied + 1;
        case Some(Moved) => moved := moved + 1;
        case Some(Skipped) => skipped := skipped + 1;
        case Some(NotExif) => notExif := notExif + 1;
        case _ =>
      }
    }
  }

  /**
   * `Import`: reads the tags, builds the destination, skips or transfers, and
   * bumps the counters.
   */
  method Import(stats: PhotoStats, exifTool: bool, libexif: Option<TagMap>, exiftool: Option<string>,
                name: string, dest: string, fs: FileTree, move: bool, dryRun: bool)
      returns (o: Outcome, ops: seq<FsOp>)
    requires exifTool && exiftool.Some? ==> WellFormed(OutputLines(exiftool.value))
    requires Importable(ExifData(exifTool, libexif, exiftool), name, fs)
    modifies stats
    ensures o == Decide(ExifData(exifTool, libexif, exiftool), name, dest, fs, move)
    ensures ops == CopyOrMoveOps(o, name, dryRun)
    ensures stats.copied == old(stats.copied) + Inc(Bump(o, dryRun), Copied)
    ensures stats.moved == old(stats.moved) + Inc(Bump(o, dryRun), Moved)
    ensures stats.skipped == old(stats.skipped) + Inc(Bump(o, dryRun), Skipped)
    ensures stats.notExif == old(stats.notExif) + Inc(Bump(o, dryRun), NotExif)
  {
    var tags := GetExifData(exifTool, libexif, exiftool);
    if tags.None? {
      stats.Tally(Some(NotExif));
      return Unresolved, [];
    }
    var rename := Rename(tags.value, name, dest, fs[name]);
    if rename.None? {
      stats.Tally(Some(NotExif));
      return Unresolved, [];
    }
    o, ops := Place(stats, name, rename.value, fs, move, dryRun);
  }

  /** The middle of `Import`: the `for … break` search for a date, then the photo path. */
  method Rename(t: TagMap, name: string, dest: string, hash: Digest) returns (rename: Option<string>)
    requires DateReadable(t)
    ensures rename == Target(t, name, dest, hash)
  {
    var taken := FindFirstNonEmpty(t, DateFields);
    if taken == "" {
      return None;
    }
    var dt := ParseExifDate(taken).value;
    return Some(PhotoPath(dest, dt, name, hash));
  }

  /** The last part of `Import`: skip a taken destination, otherwise copy or move unless in a dry run. */
  method Place(stats: PhotoStats, name: string, rename: string, fs: FileTree, move: bool, dryRun: bool)
      returns (o: Outcome, ops: seq<FsOp>)
    modifies stats
    ensures o == Resolved(rename, SkipOrTransfer(rename in fs, move))
    ensures ops == CopyOrMoveOps(o, name, dryRun)
    ensures stats.copied == old(stats.copied) + Inc(Bump(o, dryRun), Copied)
    ensures stats.moved == old(stats.moved) + Inc(Bump(o, dryRun), Moved)
    ensures stats.skipped == old(stats.skipped) + Inc(Bump(o, dryRun), Skipped)
    ensures stats.notExif == old(stats.notExif) + Inc(Bump(o, dryRun), NotExif)
  {
    ops := [];
    if rename !in fs {
      if !dryRun {
        ops := ops + [MakeParentDirs(rename)];
      }
      if move {
        if !dryRun {
          ops := ops + [MoveFile(name, rename)];
          stats.Tally(Some(Moved));
        }
        o := Resolved(rename, Transfer(Move));
      } else {
        if !dryRun {
          ops := ops + [CopyFile(name, rename)];
          stats.Tally(Some(Copied));
        }
        o := Resolved(rename, Transfer(Copy));
      }
    } else {
      stats.Tally(Some(Skipped));
      o := Resolved(rename, Skip);
    }
  }

  /**
   * Outside a dry run exactly one of the four counters goes up per file; in a
   * dry run a copy or a move is never counted.
   */
  lemma OneCounterPerFile(tags: Option<TagMap>, name: string, dest: string, fs: FileTree, move: bool, dryRun: bool)
    requires Importable(tags, name, fs)
    ensures var b := Bump(Decide(tags, name, dest, fs, move), dryRun);
      && (!dryRun ==> Inc(b, Copied) + Inc(b, Moved) + Inc(b, Skipped) + Inc(b, NotExif) == 1)
      && (dryRun ==> Inc(b, Copied) + Inc(b, Moved) == 0)
  {
  }

  /**
   * A file is not-EXIF exactly when no tags could be read or neither date field
   * is set; then nothing is done to the files.
   */
  lemma NotExifFiles(tags: Option<TagMap>, name: string, dest: string, fs: FileTree, move: bool, dryRun: bool)
    requires Importable(tags, name, fs)
    ensures var o := Decide(tags, name, dest, fs, move);
      && (o == Unresolved <==> tags.None? || forall i :: 0 <= i < |DateFields| ==> Lookup(tags.value, DateFields[i]) == "")
      && (o == Unresolved ==> CopyOrMoveOps(o, name, dryRun) == [] && Bump(o, dryRun) == Some(NotExif))
  {
  }

  /** A taken destination is skipped and counted, with no content comparison and no change to any file. */
  lemma ExistingSkipped(tags: Option<TagMap>, name: string, dest: string, fs: FileTree, move: bool, dryRun: bool)
    requires Importable(tags, name, fs)
    requires var o := Decide(tags, name, dest, fs, move); o.Resolved? && o.target in fs
    ensures var o := Decide(tags, name, dest, fs, move);
      o.verdict == Skip && CopyOrMoveOps(o, name, dryRun) == [] && Bump(o, dryRun) == Some(Skipped)
  {
  }

  /** A dry run performs no operation at all and leaves the files as they are. */
  lemma DryRunEffects(tags: Option<TagMap>, name: string, dest: string, fs: FileTree, move: bool)
    requires Importable(tags, name, fs)
    ensures var ops := CopyOrMoveOps(Decide(tags, name, dest, fs, move), name, true);
      ops == [] && Apply(fs, ops) == fs
  {
  }

  /**
   * A transfer outside a dry run puts the file's content at its destination,
   * keeping the original on a copy and removing it on a move.
   */
  lemma TransferEffects(tags: Option<TagMap>, name: string, dest: string, fs: FileTree, move: bool)
    requires Importable(tags, name, fs)
    requires var o := Decide(tags, name, dest, fs, move); o.Resolved? && o.target != name
    requires Decide(tags, name, dest, fs, move).verdict.Transfer?
    ensures var o := Decide(tags, name, dest, fs, move);
      var after := Apply(fs, CopyOrMoveOps(o, name, false));
      && o.target in after && after[o.target] == fs[name]
      && (name in after <==> !move)
  {
    var o := Decide(tags, name, dest, fs, move);
    ApplyTransfer(fs, o.verdict.mode, name, o.target);
  }

  /**
   * Importing a copied photo a second time finds its copy in place and skips
   * it: the run is repeatable.
   */
  lemma ReimportSkips(tags: Option<TagMap>, name: string, dest: string, fs: FileTree, move: bool)
    requires Importable(tags, name, fs)
    requires var o := Decide(tags, name, dest, fs, false); o.Resolved? && o.target != name
    requires Decide(tags, name, dest, fs, false).verdict == Transfer(Copy)
    ensures var o := Decide(tags, name, dest, fs, false);
      var after := Apply(fs, CopyOrMoveOps(o, name, false));
      && Importable(tags, name, after)
      && Decide(tags, name, dest, after, move) == Resolved(o.target, Skip)
  {
    var o := Decide(tags, name, dest, fs, false);
    ApplyTransfer(fs, Copy, name, o.target);
  }
}
