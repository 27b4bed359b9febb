/**
 * The importer of phosphor.go, the oldest version: libexif only, one date
 * field, an existing destination skipped without comparing content, and no
 * counters at all.
 */
module PhosphorImport {
  import opened Wrappers
  import opened GoStrings
  import opened Tags
  import opened ExifDates
  import opened Placement

  /** `dateTimeFields`: a single field. */
  const DateFields: seq<string> := ["Date and Time (Original)"]

  /** The date value a photo is filed by. */
  function Taken(tags: TagMap): string {
    FirstNonEmpty(tags, DateFields)
  }

  /** The single field is the only one looked at. */
  lemma TakenIsOriginal(tags: TagMap)
    ensures Taken(tags) == Lookup(tags, "Date and Time (Original)")
  {
    assert DateFields[1..] == [];
  }

  predicate DateReadable(tags: TagMap) {
    Taken(tags) == "" || Parses(Taken(tags))
  }

  /** The destination path, or `None` when the date field is not set. */
  function Target(tags: TagMap, name: string, dest: string, hash: Digest): (p: Option<string>)
    requires DateReadable(tags)
    ensures p.None? <==> Lookup(tags, "Date and Time (Original)") == ""
  {
    TakenIsOriginal(tags);
    if Taken(tags) == "" then None
    else Some(PhotoPath(dest, ParseExifDate(Taken(tags)).value, name, hash))
  }

  /** A photo with a date is filed under `dest` by the four photo segments of its date. */
  lemma TargetSplits(tags: TagMap, name: string, dest: string, hash: Digest)
    requires DateReadable(tags) && Taken(tags) != ""
    ensures var p := Target(tags, name, dest, hash);
      p.Some? && Split(p.value, '/') == Split(dest, '/') + PhotoSegments(ParseExifDate(Taken(tags)).value, name, hash)
  {
    PhotoPathSplits(dest, ParseExifDate(Taken(tags)).value, name, hash);
  }

  /** libexif's tags (`None`: the file could not be opened). */
  predicate Importable(tags: Option<TagMap>, name: string, fs: FileTree) {
    name in fs && (tags.Some? ==> DateReadable(tags.value))
  }

  function Decide(tags: Option<TagMap>, name: string, dest: string, fs: FileTree, move: bool): (o: Outcome)
    requires Importable(tags, name, fs)
    ensures o == Unresolved <==> tags.None? || Target(tags.value, name, dest, fs[name]).None?
    ensures o.Resolved? ==> tags.Some? && Target(tags.value, name, dest, fs[name]) == Some(o.target)
    ensures o.Resolved? ==> (o.verdict == Skip <==> o.target in fs) && o.verdict != RemoveDuplicate
    ensures o.Resolved? && o.verdict.Transfer? ==> (o.verdict.mode == Move <==> move)
  {
    if tags.None? then Unresolved
    else
      match Target(tags.value, name, dest, fs[name])
      case None => Unresolved
      case Some(p) => Resolved(p, SkipOrTransfer(p in fs, move))
  }

  /**
   * `Import`: opens the file with libexif, looks for the date, builds the path,
   * and skips, or copies or moves as the move flag says; it keeps no state.
   */
  method Import(tags: Option<TagMap>, name: string, dest: string, fs: FileTree, move: bool, dryRun: bool)
      returns (o: Outcome, ops: seq<FsOp>)
    requires Importable(tags, name, fs)
    ensures o == Decide(tags, name, dest, fs, move)
    ensures ops == CopyOrMoveOps(o, name, dryRun)
  {
    if tags.None? {
      return Unresolved, [];
    }
    var taken := FindFirstNonEmpty(tags.value, DateFields);
    if taken == "" {
      return Unresolved, [];
    }
    var dt := ParseExifDate(taken).value;
    var hash := fs[name];
    var rename := PhotoPath(dest, dt, name, hash);
    o, ops := Place(name, rename, fs, move, dryRun);
  }

  /** The `os.Stat` branch of `Import`: skip a taken destination, otherwise copy or move unless in a dry run. */
  method Place(name: string, rename: string, fs: FileTree, move: bool, dryRun: bool) returns (o: Outcome, ops: seq<FsOp>)
    ensures o == Resolved(rename, SkipOrTransfer(rename in fs, move))
    ensures ops == CopyOrMoveOps(o, name, dryRun)
  {
    ops := [];
    if rename !in fs {
      if !dryRun {
        ops := ops + [MakeParentDirs(rename)];
      }
      if move {
        if !dryRun {
          ops := ops + [MoveFile(name, rename)];
        }
        o := Resolved(rename, Transfer(Move));
      } else {
        if !dryRun {
          ops := ops + [CopyFile(name, rename)];
        }
        o := Resolved(rename, Transfer(Copy));
      }
    } else {
      o := Resolved(rename, Skip);
    }
  }

  /** A file that cannot be opened or has no date is left alone: no path and no operation. */
  lemma UnresolvedDoesNothing(tags: Option<TagMap>, name: string, dest: string, fs: FileTree, move: bool, dryRun: bool)
    requires Importable(tags, name, fs)
    ensures var o := Decide(tags, name, dest, fs, move);
      && (o == Unresolved <==> tags.None? || Lookup(tags.value, "Date and Time (Original)") == "")
      && (o == Unresolved ==> CopyOrMoveOps(o, name, dryRun) == [])
  {
    if tags.Some? {
      TakenIsOriginal(tags.value);
    }
  }

  /** A taken destination is skipped and no file changes. */
  lemma ExistingSkipped(tags: Option<TagMap>, name: string, dest: string, fs: FileTree, move: bool, dryRun: bool)
    requires Importable(tags, name, fs)
    requires var o := Decide(tags, name, dest, fs, move); o.Resolved? && o.target in fs
    ensures var o := Decide(tags, name, dest, fs, move);
      o.verdict == Skip && CopyOrMoveOps(o, name, dryRun) == []
  {
  }

  /** A dry run still chooses between a move and a copy, but performs no operation. */
  lemma DryRunEffects(tags: Option<TagMap>, name: string, dest: string, fs: FileTree, move: bool)
    requires Importable(tags, name, fs)
    ensures var o := Decide(tags, name, dest, fs, move);
      && CopyOrMoveOps(o, name, true) == [] && Apply(fs, CopyOrMoveOps(o, name, true)) == fs
      && (o.Resolved? && o.verdict.Transfer? ==> (o.verdict.mode == Move <==> move))
  {
  }

  /** The move flag selects a move, otherwise a copy, after creating the parent directories. */
  lemma MoveFlag(tags: Option<TagMap>, name: string, dest: string, fs: FileTree, move: bool)
    requires Importable(tags, name, fs)
    requires var o := Decide(tags, name, dest, fs, move); o.Resolved? && o.target !in fs
    ensures var o := Decide(tags, name, dest, fs, move);
      && o.verdict == Transfer(if move then Move else Copy)
      && CopyOrMoveOps(o, name, false) == [MakeParentDirs(o.target),
           if move then MoveFile(name, o.target) else CopyFile(name, o.target)]
  {
  }
}
