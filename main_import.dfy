/**
 * The importer of main.go: where `startImport` files one media file, what it
 * does to the files when the destination is free or taken, and which of the
 * five run counters it bumps.
 */
module MainImport {
  import opened Wrappers
  import opened GoStrings
  import opened Tags
  import opened ExifDates
  import opened Naming
  import opened Placement

  /** `dateTimeFields`, in the order they are tried. */
  const DateFields: seq<string> :=
    ["Date and Time (Original)", "Date/Time Original", "Media Create Date", "Track Create Date", "Create Date"]

  /** The flags that choose the tag reader. */
  datatype Readers = Readers(exifTool: bool, tryExifTool: bool)

  /** The libexif reader runs unless only exiftool is asked for. */
  predicate UsesLibExif(r: Readers) {
    !r.exifTool || r.tryExifTool
  }

  /** The exiftool reader runs when asked for, alone or as the fallback. */
  predicate UsesExifTool(r: Readers) {
    r.exifTool || r.tryExifTool
  }

  /**
   * exiftool runs only when asked for and libexif did not already deliver the
   * tags; only then must its output reach the value column on every line.
   */
  predicate ExifToolReadable(r: Readers, libexif: Option<TagMap>, exiftool: Option<string>) {
    UsesExifTool(r) && !(UsesLibExif(r) && libexif.Some?) && exiftool.Some? ==> WellFormed(OutputLines(exiftool.value))
  }

  /**
   * `getExifData`: libexif's tags (`None`: the file could not be opened) or the
   * output of the exiftool process (`None`: it failed), parsed with
   * `strings.TrimSpace` on both columns.
   */
  function ExifData(r: Readers, libexif: Option<TagMap>, exiftool: Option<string>): (tags: Option<TagMap>)
    requires ExifToolReadable(r, libexif, exiftool)
    ensures tags.None? <==> (!UsesLibExif(r) || libexif.None?) && (!UsesExifTool(r) || exiftool.None?)
    ensures UsesLibExif(r) && libexif.Some? ==> tags == libexif
    ensures !(UsesLibExif(r) && libexif.Some?) && UsesExifTool(r) && exiftool.Some? ==>
      tags == Some(ExifToolTags(exiftool.value, TrimWhitespace))
  {
    if UsesLibExif(r) && libexif.Some? then libexif
    else if UsesExifTool(r) && exiftool.Some? then Some(ExifToolTags(exiftool.value, TrimWhitespace))
    else None
  }

  /**
   * libexif wins whenever it is used and succeeds; otherwise the exiftool tags
   * are taken when that reader is on and succeeds; no tags at all exactly when
   * every reader that ran failed.
   */
  lemma ExifDataSources(r: Readers, libexif: Option<TagMap>, exiftool: Option<string>)
    requires ExifToolReadable(r, libexif, exiftool)
    ensures var tags := ExifData(r, libexif, exiftool);
      && (UsesLibExif(r) && libexif.Some? ==> tags == libexif)
      && (!(UsesLibExif(r) && libexif.Some?) && UsesExifTool(r) && exiftool.Some? ==>
            tags == Some(ExifToolTags(exiftool.value, TrimWhitespace)))
      && (tags.None? <==> (!UsesLibExif(r) || libexif.None?) && (!UsesExifTool(r) || exiftool.None?))
      && (!r.exifTool && !r.tryExifTool ==> tags == libexif)
  {
  }

  /** The reader selection of `getExifData`, with the exiftool line loop. */
  method GetExifData(r: Readers, libexif: Option<TagMap>, exiftool: Option<string>) returns (tags: Option<TagMap>)
    requires ExifToolReadable(r, libexif, exiftool)
    ensures tags == ExifData(r, libexif, exiftool)
  {
    if !r.exifTool || r.tryExifTool {
      if libexif.Some? {
        return libexif;
      }
    }
    if r.exifTool || r.tryExifTool {
      if exiftool.None? {
        return None;
      }
      var parsed := ParseExifTool(exiftool.value, TrimWhitespace);
      return Some(parsed);
    }
    return None;
  }

  /** An MP3 file, by its `File Type` tag. */
  predicate IsMp3(tags: TagMap) {
    Lookup(tags, "File Type") == "MP3"
  }

  /** The artist directory: the normalized `Artist` tag, `Unknown Artist` when it is blank. */
  function Mp3Artist(tags: TagMap): (artist: string)
    ensures forall c :: c in artist ==> IsLowerAlnum(c) || c == '_' || c == '-'
  {
    NormalizedChars([Picked([Lookup(tags, "Artist"), "Unknown Artist"])]);
    Normalized([Picked([Lookup(tags, "Artist"), "Unknown Artist"])])
  }

  /** The album directory: the normalized `Album` tag, `Unknown Album` when it is blank. */
  function Mp3Album(tags: TagMap): (album: string)
    ensures forall c :: c in album ==> IsLowerAlnum(c) || c == '_' || c == '-'
  {
    NormalizedChars([Picked([Lookup(tags, "Album"), "Unknown Album"])]);
    Normalized([Picked([Lookup(tags, "Album"), "Unknown Album"])])
  }

  /** The file stem: the normalized track and title (`Unknown Title` when blank), joined to the hash prefix. */
  function Mp3Stem(tags: TagMap, hash: Digest): (stem: string)
    ensures forall c :: c in stem ==> IsLowerAlnum(c) || c == '_' || c == '-'
  {
    NormalizedChars([Lookup(tags, "Track"), Picked([Lookup(tags, "Title"), "Unknown Title"]) + "-" + hash[..4]]);
    Normalized([Lookup(tags, "Track"), Picked([Lookup(tags, "Title"), "Unknown Title"]) + "-" + hash[..4]])
  }

  /** The file extension: the lower-cased extension of `name`, `.mp3` when it is blank. */
  function Mp3Ext(name: string): (ext: string)
    ensures |ext| > 0
  {
    PickedExtNonEmpty(ToLower(Ext(name)));
    Picked([ToLower(Ext(name)), ".mp3"])
  }

  lemma DefaultExtNotBlank()
    ensures !IsBlank(".mp3")
  {
    MissingExtTrimmed();
  }

  /** Whatever the extension, picking it against the `.mp3` default gives something. */
  lemma PickedExtNonEmpty(ext: string)
    ensures |Picked([ext, ".mp3"])| > 0
  {
    DefaultExtNotBlank();
    PickedNonEmpty(ext, ".mp3");
  }

  /** The three segments below `dest` for an MP3: artist, album, and stem with extension. */
  function Mp3Segments(tags: TagMap, name: string, hash: Digest): (segs: seq<string>)
    ensures |segs| == 3
  {
    [Mp3Artist(tags), Mp3Album(tags), Mp3Stem(tags, hash) + Mp3Ext(name)]
  }

  /** The MP3 destination: under `dest`, the three segments joined with `/`. */
  function Mp3Path(tags: TagMap, name: string, dest: string, hash: Digest): (p: string)
    ensures |p| > |dest| && p[..|dest|] == dest && p[|dest|] == '/'
  {
    JoinUnder(dest, Mp3Segments(tags, name, hash), '/')
  }

  /** The date value a non-MP3 file is filed by: the first non-empty date field. */
  function Taken(tags: TagMap): string {
    FirstNonEmpty(tags, DateFields)
  }

  /**
   * What `startImport` needs of a non-MP3 file with a date value: the value holds
   * the date pattern (`all[0]` panics otherwise) and the date is a valid one.
   */
  predicate DateReadable(tags: TagMap) {
    IsMp3(tags) || Taken(tags) == "" || Parses(Taken(tags))
  }

  /** The destination path, or `None` for a non-MP3 file with no date value. */
  function Target(tags: TagMap, name: string, dest: string, hash: Digest): (p: Option<string>)
    requires DateReadable(tags)
    ensures p.None? <==> !IsMp3(tags) && Taken(tags) == ""
  {
    if IsMp3(tags) then Some(Mp3Path(tags, name, dest, hash))
    else if Taken(tags) == "" then None
    else Some(PhotoPath(dest, ParseExifDate(Taken(tags)).value, name, hash))
  }

  /** The decision of main.go: a free destination is transferred to, a taken one with the same content means a duplicate. */
  function Classify(destExists: bool, sameHash: bool, move: bool): (v: Verdict)
    ensures v.Transfer? <==> !destExists
    ensures v.Transfer? ==> (v.mode == Move <==> move)
    ensures v == RemoveDuplicate <==> destExists && sameHash
    ensures v == Skip <==> destExists && !sameHash
  {
    if !destExists then Transfer(if move then Move else Copy)
    else if sameHash then RemoveDuplicate
    else Skip
  }

  /** The whole decision for a file `name` of `fs`, given the tags read from it. */
  predicate Importable(tags: Option<TagMap>, name: string, fs: FileTree) {
    name in fs && (tags.Some? ==> DateReadable(tags.value))
  }

  function Decide(tags: Option<TagMap>, name: string, dest: string, fs: FileTree, move: bool): (o: Outcome)
    requires Importable(tags, name, fs)
    ensures o == Unresolved <==> tags.None? || Target(tags.value, name, dest, fs[name]).None?
    ensures o.Resolved? ==> tags.Some? && Target(tags.value, name, dest, fs[name]) == Some(o.target)
    ensures o.Resolved? ==> (o.verdict.Transfer? <==> o.target !in fs)
    ensures o.Resolved? ==> (o.verdict == RemoveDuplicate <==> o.target in fs && fs[o.target] == fs[name])
    ensures o.Resolved? && o.verdict.Transfer? ==> (o.verdict.mode == Move <==> move)
  {
    if tags.None? then Unresolved
    else
      match Target(tags.value, name, dest, fs[name])
      case None => Unresolved
      case Some(p) => Resolved(p, Classify(p in fs, p in fs && fs[p] == fs[name], move))
  }

  /**
   * The filesystem operations: the transfer of photopy.go and phosphor.go,
   * plus the removal of a duplicate, which is not guarded by the dry-run flag.
   */
  function Ops(o: Outcome, name: string, dryRun: bool): (ops: seq<FsOp>)
    ensures ops != [] <==> o.Resolved? && (o.verdict == RemoveDuplicate || (o.verdict.Transfer? && !dryRun))
    ensures o.Resolved? && o.verdict == RemoveDuplicate ==> ops == [RemoveFile(name)]
    ensures o.Resolved? && o.verdict.Transfer? && !dryRun ==>
      ops == [MakeParentDirs(o.target), if o.verdict.mode == Move then MoveFile(name, o.target) else CopyFile(name, o.target)]
    ensures forall k :: 0 <= k < |ops| ==> o.Resolved? && Touches(ops[k], name, o.target)
  {
    if o.Resolved? && o.verdict == RemoveDuplicate then [RemoveFile(name)]
    else CopyOrMoveOps(o, name, dryRun)
  }

  /** The counter bumped: transfers only outside a dry run, every other outcome always. */
  function Bump(o: Outcome, dryRun: bool): (c: Option<Counter>)
    ensures c.None? <==> dryRun && o.Resolved? && o.verdict.Transfer?
    ensures c == Some(Unknown) <==> o == Unresolved
    ensures c == Some(Moved) <==> o.Resolved? && o.verdict == Transfer(Move) && !dryRun
    ensures c == Some(Copied) <==> o.Resolved? && o.verdict == Transfer(Copy) && !dryRun
    ensures c == Some(Deleted) <==> o.Resolved? && o.verdict == RemoveDuplicate
    ensures c == Some(Skipped) <==> o.Resolved? && o.verdict == Skip
    ensures c != Some(NotExif)
  {
    match o
    case Unresolved => Some(Unknown)
    case Resolved(_, Transfer(Move)) => if dryRun then None else Some(Moved)
    case Resolved(_, Transfer(Copy)) => if dryRun then None else Some(Copied)
    case Resolved(_, RemoveDuplicate) => Some(Deleted)
    case Resolved(_, Skip) => Some(Skipped)
  }

  function Inc(c: Option<Counter>, which: Counter): int {
    if c == Some(which) then 1 else 0
  }

  /** The global `stats` of main.go. */
  class Stats {
    var copied: int
    var moved: int
    var skipped: int
    var deleted: int
    var unknown: int

    constructor()
      ensures copied == 0 && moved == 0 && skipped == 0 && deleted == 0 && unknown == 0
    {
      copied, moved, skipped, deleted, unknown := 0, 0, 0, 0, 0;
    }

    /** Bumps the one counter named by `c`, if any. */
    method Tally(c: Option<Counter>)
      modifies this
      ensures copied == old(copied) + Inc(c, Copied)
      ensures moved == old(moved) + Inc(c, Moved)
      ensures skipped == old(skipped) + Inc(c, Skipped)
      ensures deleted == old(deleted) + Inc(c, Deleted)
      ensures unknown == old(unknown) + Inc(c, Unknown)
    {
      match c {
        case Some(Copied) => copied := copied + 1;
        case Some(Moved) => moved := moved + 1;
        case Some(Skipped) => skipped := skipped + 1;
        case Some(Deleted) => deleted := deleted + 1;
        case Some(Unknown) => unknown := unknown + 1;
        case _ =>
      }
    }
  }

  /**
   * The second half of `startImport`: given the destination `rename` that was
   * built, transfer the file, remove it as a duplicate, or skip it.
   */
  method Place(stats: Stats, name: string, rename: string, fs: FileTree, move: bool, dryRun: bool)
      returns (o: Outcome, ops: seq<FsOp>)
    requires name in fs
    modifies stats
    ensures o == Resolved(rename, Classify(rename in fs, rename in fs && fs[rename] == fs[name], move))
    ensures ops == Ops(o, name, dryRun)
    ensures stats.copied == old(stats.copied) + Inc(Bump(o, dryRun), Copied)
    ensures stats.moved == old(stats.moved) + Inc(Bump(o, dryRun), Moved)
    ensures stats.skipped == old(stats.skipped) + Inc(Bump(o, dryRun), Skipped)
    ensures stats.deleted == old(stats.deleted) + Inc(Bump(o, dryRun), Deleted)
    ensures stats.unknown == old(stats.unknown) + Inc(Bump(o, dryRun), Unknown)
  {
    var hash := fs[name];
    ops := [];
    if rename !in fs {
      if !dryRun {
        ops := ops + [MakeParentDirs(rename)];
      }
      if move {
        if !dryRun {
          ops := ops + [MoveFile(name, rename)];
          stats.Tally(Some(Moved));
        }
        o := Resolved(rename, Transfer(Move));
      } else {
        if !dryRun {
          ops := ops + [CopyFile(name, rename)];
          stats.Tally(Some(Copied));
        }
        o := Resolved(rename, Transfer(Copy));
      }
    } else {
      var rehash := fs[rename];
      if hash == rehash {
        ops := ops + [RemoveFile(name)];
        stats.Tally(Some(Deleted));
        o := Resolved(rename, RemoveDuplicate);
      } else {
        stats.Tally(Some(Skipped));
        o := Resolved(rename, Skip);
      }
    }
  }

  /**
   * `startImport`: reads the tags, builds the destination, decides, performs
   * (here: returns) the filesystem operations and bumps the counters.
   */
  method StartImport(stats: Stats, r: Readers, libexif: Option<TagMap>, exiftool: Option<string>,
                     name: string, dest: string, fs: FileTree, move: bool, dryRun: bool)
      returns (o: Outcome, ops: seq<FsOp>)
    requires ExifToolReadable(r, libexif, exiftool)
    requires Importable(ExifData(r, libexif, exiftool), name, fs)
    modifies stats
    ensures o == Decide(ExifData(r, libexif, exiftool), name, dest, fs, move)
    ensures ops == Ops(o, name, dryRun)
    ensures stats.copied == old(stats.copied) + Inc(Bump(o, dryRun), Copied)
    ensures stats.moved == old(stats.moved) + Inc(Bump(o, dryRun), Moved)
    ensures stats.skipped == old(stats.skipped) + Inc(Bump(o, dryRun), Skipped)
    ensures stats.deleted == old(stats.deleted) + Inc(Bump(o, dryRun), Deleted)
    ensures stats.unknown == old(stats.unknown) + Inc(Bump(o, dryRun), Unknown)
  {
    var tags := GetExifData(r, libexif, exiftool);
    if tags.None? {
      stats.Tally(Some(Unknown));
      return Unresolved, [];
    }
    var rename := Rename(tags.value, name, dest, fs[name]);
    if rename.None? {
      stats.Tally(Some(Unknown));
      return Unresolved, [];
    }
    o, ops := Place(stats, name, rename.value, fs, move, dryRun);
  }

  /**
   * The middle of `startImport`: the MP3 path for an MP3, otherwise the photo
   * path from the first date field that is set, or nothing when none is.
   */
  method Rename(t: TagMap, name: string, dest: string, hash: Digest) returns (rename: Option<string>)
    requires DateReadable(t)
    ensures rename == Target(t, name, dest, hash)
  {
    if Lookup(t, "File Type") == "MP3" {
      return Some(Mp3Path(t, name, dest, hash));
    }
    var taken := FindFirstNonEmpty(t, DateFields);
    if taken == "" {
      return None;
    }
    var dt := ParseExifDate(taken).value;
    return Some(PhotoPath(dest, dt, name, hash));
  }

  /**
   * A path is always built once the tags are read and a date value found, and
   * it is never empty: the `rename == ""` branch of `startImport` is dead.
   */
  lemma TargetNeverEmpty(tags: TagMap, name: string, dest: string, hash: Digest)
    requires DateReadable(tags)
    ensures var p := Target(tags, name, dest, hash); p.Some? ==> '/' in p.value
  {
    var p := Target(tags, name, dest, hash);
    if p.Some? {
      assert p.value[|dest|] == '/';
    }
  }

  /**
   * An MP3 is filed under `dest` by artist, album and file name; any other file
   * with a date value by the four photo segments of the first date field set.
   */
  lemma TargetSplits(tags: TagMap, name: string, dest: string, hash: Digest)
    requires DateReadable(tags)
    ensures var p := Target(tags, name, dest, hash);
      && (IsMp3(tags) ==> p.Some? && Split(p.value, '/') == Split(dest, '/') + Mp3Segments(tags, name, hash))
      && (!IsMp3(tags) && Taken(tags) != "" ==>
            p.Some? && Split(p.value, '/') == Split(dest, '/') + PhotoSegments(ParseExifDate(Taken(tags)).value, name, hash))
  {
    if IsMp3(tags) {
      Mp3PathSplits(tags, name, dest, hash);
    } else if Taken(tags) != "" {
      PhotoPathSplits(dest, ParseExifDate(Taken(tags)).value, name, hash);
    }
  }

  /**
   * A destination that holds the same content makes the original go, in a dry
   * run as well, counted as deleted; the copy at the destination stays, unless
   * the file already is that destination, in which case it is removed too.
   */
  lemma DuplicateRemoved(tags: Option<TagMap>, name: string, dest: string, fs: FileTree, move: bool, dryRun: bool)
    requires Importable(tags, name, fs)
    requires var o := Decide(tags, name, dest, fs, move); o.Resolved? && o.target in fs && fs[o.target] == fs[name]
    ensures var o := Decide(tags, name, dest, fs, move);
      var after := Apply(fs, Ops(o, name, dryRun));
      && o.verdict == RemoveDuplicate && Ops(o, name, dryRun) == [RemoveFile(name)]
      && Bump(o, dryRun) == Some(Deleted)
      && name !in after
      && (o.target != name ==> o.target in after && after[o.target] == fs[name])
  {
    ApplyRemove(fs, name);
  }

  /** A destination that holds other content is left alone with the original, counted as skipped. */
  lemma DifferentSkipped(tags: Option<TagMap>, name: string, dest: string, fs: FileTree, move: bool, dryRun: bool)
    requires Importable(tags, name, fs)
    requires var o := Decide(tags, name, dest, fs, move); o.Resolved? && o.target in fs && fs[o.target] != fs[name]
    ensures var o := Decide(tags, name, dest, fs, move);
      && o.verdict == Skip && Ops(o, name, dryRun) == [] && Apply(fs, Ops(o, name, dryRun)) == fs
      && Bump(o, dryRun) == Some(Skipped)
  {
  }

  /**
   * A free destination outside a dry run receives the file's content; the
   * original stays on a copy and goes on a move, and the counter says which.
   */
  lemma TransferEffects(tags: Option<TagMap>, name: string, dest: string, fs: FileTree, move: bool)
    requires Importable(tags, name, fs)
    requires var o := Decide(tags, name, dest, fs, move); o.Resolved? && o.target !in fs
    ensures var o := Decide(tags, name, dest, fs, move);
      var after := Apply(fs, Ops(o, name, false));
      && o.verdict == Transfer(if move then Move else Copy)
      && o.target in after && after[o.target] == fs[name]
      && (name in after <==> !move)
      && Bump(o, false) == Some(if move then Moved else Copied)
  {
    var o := Decide(tags, name, dest, fs, move);
    ApplyTransfer(fs, o.verdict.mode, name, o.target);
  }

  /** Exactly one counter goes up per file outside a dry run; a dry run never counts a copy or a move. */
  lemma OneCounterPerFile(o: Outcome, dryRun: bool)
    ensures !dryRun ==> Bump(o, dryRun).Some?
    ensures Bump(o, dryRun).None? <==> dryRun && o.Resolved? && o.verdict.Transfer?
    ensures dryRun ==> Bump(o, dryRun) != Some(Copied) && Bump(o, dryRun) != Some(Moved)
    ensures Bump(o, dryRun) != Some(NotExif)
  {
  }

  /**
   * A file is unknown exactly when no tags could be read, or it is no MP3 and
   * none of the five date fields is set; then nothing is done to the files and
   * `unknown` goes up.
   */
  lemma UnknownFiles(tags: Option<TagMap>, name: string, dest: string, fs: FileTree, move: bool, dryRun: bool)
    requires Importable(tags, name, fs)
    ensures var o := Decide(tags, name, dest, fs, move);
      && (o == Unresolved <==> tags.None? || (!IsMp3(tags.value) && forall i :: 0 <= i < |DateFields| ==> Lookup(tags.value, DateFields[i]) == ""))
      && (o == Unresolved ==> Ops(o, name, dryRun) == [] && Bump(o, dryRun) == Some(Unknown))
  {
  }

  /** The date fields are tried in order: the first one set is the one used. */
  lemma DateFieldOrder(tags: TagMap, i: nat)
    requires i < |DateFields|
    requires Lookup(tags, DateFields[i]) != ""
    requires forall j :: 0 <= j < i ==> Lookup(tags, DateFields[j]) == ""
    ensures Taken(tags) == Lookup(tags, DateFields[i])
  {
    var k: nat := 0;
    while k < i
      invariant k <= i
      invariant FirstNonEmpty(tags, DateFields) == FirstNonEmpty(tags, DateFields[k..])
    {
      assert DateFields[k..][1..] == DateFields[k + 1..];
      k := k + 1;
    }
  }

  /**
   * A dry run leaves every file in place, except that a file whose destination
   * already holds the same content is still removed (the `os.Remove` is not
   * guarded by the dry-run flag).
   */
  lemma DryRunEffects(tags: Option<TagMap>, name: string, dest: string, fs: FileTree, move: bool)
    requires Importable(tags, name, fs)
    ensures var o := Decide(tags, name, dest, fs, move);
      && (o.Resolved? && o.verdict == RemoveDuplicate ==> Ops(o, name, true) == [RemoveFile(name)])
      && (!(o.Resolved? && o.verdict == RemoveDuplicate) ==> Apply(fs, Ops(o, name, true)) == fs)
  {
  }

  /**
   * Importing a copied file a second time finds its copy in place and removes
   * the original, counted as deleted; the copy stays.
   */
  lemma ReimportRemovesOriginal(tags: Option<TagMap>, name: string, dest: string, fs: FileTree, move: bool)
    requires Importable(tags, name, fs)
    requires Decide(tags, name, dest, fs, false).Resolved?
    requires Decide(tags, name, dest, fs, false).verdict == Transfer(Copy)
    ensures var o := Decide(tags, name, dest, fs, false);
      var after := Apply(fs, Ops(o, name, false));
      && Importable(tags, name, after)
      && Decide(tags, name, dest, after, move) == Resolved(o.target, RemoveDuplicate)
      && Bump(Decide(tags, name, dest, after, move), false) == Some(Deleted)
      && o.target in Apply(after, [RemoveFile(name)]) && name !in Apply(after, [RemoveFile(name)])
  {
    var o := Decide(tags, name, dest, fs, false);
    var p := o.target;
    ApplyTransfer(fs, Copy, name, p);
    var after := Apply(fs, Ops(o, name, false));
    assert after[name] == fs[name];
    ApplyRemove(after, name);
  }

  lemma DefaultExtNoSlash()
    ensures '/' !in ".mp3"
  {
  }

  /** The extension part of an MP3 name: the lower-cased extension, or `.mp3` when it is blank. */
  lemma Mp3ExtNoSlash(name: string)
    ensures '/' !in Mp3Ext(name)
  {
    var ext := ToLower(Ext(name));
    PickDefault(ext, ".mp3");
    ToLowerNoSlash(Ext(name));
    if IsBlank(ext) {
      DefaultExtNoSlash();
      TrimSpaceKeepsOut(".mp3", '/');
    } else {
      TrimSpaceKeepsOut(ext, '/');
    }
  }

  lemma Mp3ArtistNoSlash(tags: TagMap)
    ensures '/' !in Mp3Artist(tags)
  {
    NormalizedNoSlash([Picked([Lookup(tags, "Artist"), "Unknown Artist"])]);
  }

  lemma Mp3AlbumNoSlash(tags: TagMap)
    ensures '/' !in Mp3Album(tags)
  {
    NormalizedNoSlash([Picked([Lookup(tags, "Album"), "Unknown Album"])]);
  }

  lemma Mp3FileNoSlash(tags: TagMap, name: string, hash: Digest)
    ensures '/' !in Mp3Stem(tags, hash) + Mp3Ext(name)
  {
    NormalizedNoSlash([Lookup(tags, "Track"), Picked([Lookup(tags, "Title"), "Unknown Title"]) + "-" + hash[..4]]);
    Mp3ExtNoSlash(name);
  }

  /** Three separator-free segments under `dest` split back out of their join. */
  lemma SplitThree(dest: string, a: string, b: string, c: string)
    requires '/' !in a && '/' !in b && '/' !in c
    ensures Split(Join([dest] + [a, b, c], '/'), '/') == Split(dest, '/') + [a, b, c]
  {
    SplitJoinUnder(dest, [a, b, c], '/');
  }

  /** Splitting an MP3 path on `/` gives the pieces of `dest` followed by artist, album and file name. */
  lemma Mp3PathSplits(tags: TagMap, name: string, dest: string, hash: Digest)
    ensures Split(Mp3Path(tags, name, dest, hash), '/') == Split(dest, '/') + Mp3Segments(tags, name, hash)
  {
    Mp3ArtistNoSlash(tags);
    Mp3AlbumNoSlash(tags);
    Mp3FileNoSlash(tags, name, hash);
    SplitThree(dest, Mp3Artist(tags), Mp3Album(tags), Mp3Stem(tags, hash) + Mp3Ext(name));
  }

  lemma BlankedUnknownWord()
    ensures Blanked("Unknown") == "unknown"
  {
    KeepAscii('U'); KeepAscii('n'); KeepAscii('k'); KeepAscii('o'); KeepAscii('w');
  }

  lemma BlankedArtistWord()
    ensures Blanked(" Artist") == " artist"
  {
    KeepAscii(' '); KeepAscii('A'); KeepAscii('r'); KeepAscii('t'); KeepAscii('i'); KeepAscii('s');
  }

  lemma BlankedUnknownArtist()
    ensures Blanked("Unknown Artist") == "unknown artist"
  {
    BlankedAppend("Unknown", " Artist");
    BlankedUnknownWord();
    BlankedArtistWord();
    assert "Unknown" + " Artist" == "Unknown Artist" && "unknown" + " artist" == "unknown artist";
  }

  lemma SpacedUnknownArtist()
    ensures NoDoubleSpace("unknown artist")
  {
  }

  lemma ReplacedUnknownArtist()
    ensures ReplaceSpaces("unknown artist") == "unknown_artist"
  {
  }

  lemma UnknownArtistToken()
    ensures Normalized([TrimSpace("Unknown Artist")]) == "unknown_artist"
  {
    TrimSpaceNoop("Unknown Artist");
    NormalizedOne("Unknown Artist");
    BlankedUnknownArtist();
    SpacedUnknownArtist();
    TextilizeSpaced("Unknown Artist");
    ReplacedUnknownArtist();
  }

  lemma BlankedAlbumWord()
    ensures Blanked(" Album") == " album"
  {
    KeepAscii(' '); KeepAscii('A'); KeepAscii('l'); KeepAscii('b'); KeepAscii('u'); KeepAscii('m');
  }

  lemma BlankedUnknownAlbum()
    ensures Blanked("Unknown Album") == "unknown album"
  {
    BlankedAppend("Unknown", " Album");
    BlankedUnknownWord();
    BlankedAlbumWord();
    assert "Unknown" + " Album" == "Unknown Album" && "unknown" + " album" == "unknown album";
  }

  lemma SpacedUnknownAlbum()
    ensures NoDoubleSpace("unknown album")
  {
  }

  lemma ReplacedUnknownAlbum()
    ensures ReplaceSpaces("unknown album") == "unknown_album"
  {
  }

  lemma UnknownAlbumToken()
    ensures Normalized([TrimSpace("Unknown Album")]) == "unknown_album"
  {
    TrimSpaceNoop("Unknown Album");
    NormalizedOne("Unknown Album");
    BlankedUnknownAlbum();
    SpacedUnknownAlbum();
    TextilizeSpaced("Unknown Album");
    ReplacedUnknownAlbum();
  }

  /** A blank artist files under `unknown_artist`; any other is normalized as it stands. */
  lemma Mp3ArtistDefault(tags: TagMap)
    ensures var artist := Lookup(tags, "Artist");
      Mp3Artist(tags) == if IsBlank(artist) then "unknown_artist" else Normalized([artist])
  {
    var artist := Lookup(tags, "Artist");
    PickDefault(artist, "Unknown Artist");
    if IsBlank(artist) {
      UnknownArtistToken();
    } else {
      NormalizedTrimmed(artist);
    }
  }

  /** A blank album files under `unknown_album`; any other is normalized as it stands. */
  lemma Mp3AlbumDefault(tags: TagMap)
    ensures var album := Lookup(tags, "Album");
      Mp3Album(tags) == if IsBlank(album) then "unknown_album" else Normalized([album])
  {
    var album := Lookup(tags, "Album");
    PickDefault(album, "Unknown Album");
    if IsBlank(album) {
      UnknownAlbumToken();
    } else {
      NormalizedTrimmed(album);
    }
  }

  lemma BlankedTitleWord()
    ensures Blanked(" Title-") == " title "
  {
    KeepAscii(' '); KeepAscii('T'); KeepAscii('i'); KeepAscii('t'); KeepAscii('l'); KeepAscii('e'); KeepAscii('-');
  }

  lemma BlankedUnknownTitle()
    ensures Blanked("Unknown Title-") == "unknown title "
  {
    BlankedAppend("Unknown", " Title-");
    BlankedUnknownWord();
    BlankedTitleWord();
    assert "Unknown" + " Title-" == "Unknown Title-" && "unknown" + " title " == "unknown title ";
  }

  lemma SpacedUnknownTitle(h: string)
    requires forall i :: 0 <= i < |h| ==> IsLowerAlnum(h[i])
    ensures NoDoubleSpace("unknown title " + h)
  {
    var u := "unknown title " + h;
    forall i | 0 <= i < |u| - 1 ensures !(u[i] == ' ' && u[i + 1] == ' ') {
      if i >= 13 {
        assert u[i + 1] == h[i - 13];
      }
    }
  }

  lemma ReplacedUnknownTitle(h: string)
    requires forall i :: 0 <= i < |h| ==> IsLowerAlnum(h[i])
    ensures ReplaceSpaces("unknown title " + h) == "unknown_title_" + h
  {
    var u, r := "unknown title " + h, "unknown_title_" + h;
    forall i | 0 <= i < |u| ensures ReplaceSpaces(u)[i] == r[i] {
      if i >= 14 {
        assert u[i] == h[i - 14] == r[i];
      }
    }
  }

  lemma TextilizeUnknownTitle(h: string)
    requires |h| == 4 && forall i :: 0 <= i < |h| ==> IsLowerAlnum(h[i])
    ensures Textilize("Unknown Title-" + h) == "unknown_title_" + h
  {
    BlankedAppend("Unknown Title-", h);
    BlankedUnknownTitle();
    BlankedAlnum(h);
    SpacedUnknownTitle(h);
    TextilizeSpaced("Unknown Title-" + h);
    ReplacedUnknownTitle(h);
  }

  lemma UnknownTitleJoined(h: string)
    ensures "Unknown Title" + "-" + h == "Unknown Title-" + h
  {
  }

  lemma UnknownTitleTrimmed(h: string)
    requires |h| == 4 && forall i :: 0 <= i < 4 ==> IsLowerAlnum(h[i])
    ensures TrimSpace("Unknown Title-" + h) == "Unknown Title-" + h
  {
    TrimSpaceNoop("Unknown Title-" + h);
  }

  /** With no track and no title, the stem is `unknown_title_` and the hash prefix. */
  lemma UnknownTitleToken(track: string, h: string)
    requires IsBlank(track)
    requires |h| == 4 && forall i :: 0 <= i < 4 ==> IsLowerAlnum(h[i])
    ensures Normalized([track, "Unknown Title" + "-" + h]) == "unknown_title_" + h
  {
    UnknownTitleJoined(h);
    UnknownTitleTrimmed(h);
    TextilizeUnknownTitle(h);
    NormalizedBlankFirst(track, "Unknown Title-" + h);
    NormalizedOne("Unknown Title-" + h);
  }

  lemma UnknownTitleTrimmedDefault()
    ensures TrimSpace("Unknown Title") == "Unknown Title"
  {
    TrimSpaceNoop("Unknown Title");
  }

  lemma HashPrefixAlnum(hash: Digest)
    ensures |hash[..4]| == 4 && forall i :: 0 <= i < 4 ==> IsLowerAlnum(hash[..4][i])
  {
    assert forall i :: 0 <= i < 4 ==> IsHexDigit(hash[..4][i]);
  }

  /** A blank title is filed as `Unknown Title`, next to the track and before the hash prefix. */
  lemma Mp3TitleDefault(tags: TagMap, hash: Digest)
    requires IsBlank(Lookup(tags, "Title"))
    ensures Mp3Stem(tags, hash) == Normalized([Lookup(tags, "Track"), "Unknown Title" + "-" + hash[..4]])
  {
    PickDefault(Lookup(tags, "Title"), "Unknown Title");
    UnknownTitleTrimmedDefault();
  }

  /**
   * The stem normalizes the track and the trimmed title (`Unknown Title` when
   * it is blank) joined by `-` to the first four characters of the hash.
   */
  lemma Mp3StemValue(tags: TagMap, hash: Digest)
    ensures var title := Lookup(tags, "Title");
      Mp3Stem(tags, hash)
        == Normalized([Lookup(tags, "Track"), (if IsBlank(title) then "Unknown Title" else TrimSpace(title)) + "-" + hash[..4]])
  {
    if IsBlank(Lookup(tags, "Title")) {
      Mp3TitleDefault(tags, hash);
    } else {
      Mp3TitleKept(tags, hash);
    }
  }

  lemma Mp3TitleKept(tags: TagMap, hash: Digest)
    requires !IsBlank(Lookup(tags, "Title"))
    ensures Mp3Stem(tags, hash) == Normalized([Lookup(tags, "Track"), TrimSpace(Lookup(tags, "Title")) + "-" + hash[..4]])
  {
    PickDefault(Lookup(tags, "Title"), "Unknown Title");
  }

  lemma MissingExtTrimmed()
    ensures TrimSpace(".mp3") == ".mp3"
  {
    TrimSpaceNoop(".mp3");
  }

  /** A name without extension gets `.mp3`. */
  lemma Mp3ExtMissing(name: string)
    requires Ext(name) == ""
    ensures Mp3Ext(name) == ".mp3"
  {
    assert ToLower(Ext(name)) == "";
    PickedMissing();
  }

  lemma PickedMissing()
    ensures Picked(["", ".mp3"]) == ".mp3"
  {
    assert IsBlank("");
    MissingExtTrimmed();
    PickDefault("", ".mp3");
  }

  /** An extension that does not end in white space is kept, lower-cased. */
  lemma Mp3ExtKept(name: string)
    requires Ext(name) != "" && !IsSpace(Ext(name)[|Ext(name)| - 1])
    ensures Mp3Ext(name) == ToLower(Ext(name))
  {
    var e := Ext(name);
    var l := ToLower(e);
    LowerNotSpace(e[|e| - 1]);
    assert l[0] == Lower('.') == '.';
    TrimSpaceNoop(l);
    PickDefault(l, ".mp3");
  }
}
