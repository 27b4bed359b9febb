/**
 * The tag map every importer works from, the ordered search for the first
 * non-empty date field, and the parser for `exiftool`'s fixed-column text output.
 */
module Tags {
  import opened GoStrings

  /** Tag name to value, as `libexif` or the exiftool parser returns it. */
  type TagMap = map<string, string>

  /** `tags[key]`: a missing key yields Go's zero value, the empty string. */
  function Lookup(tags: TagMap, key: string): (v: string)
    ensures key !in tags ==> v == ""
    ensures key in tags ==> v == tags[key]
  {
    if key in tags then tags[key] else ""
  }

  /**
   * The value of the first field in `fields` whose value is non-empty, or `""`
   * when every field is missing or empty.
   */
  function FirstNonEmpty(tags: TagMap, fields: seq<string>): (taken: string)
    ensures taken == "" <==> forall i :: 0 <= i < |fields| ==> Lookup(tags, fields[i]) == ""
    ensures taken != "" ==>
      exists i :: 0 <= i < |fields| && taken == Lookup(tags, fields[i])
        && forall j :: 0 <= j < i ==> Lookup(tags, fields[j]) == ""
  {
    if fields == [] then ""
    else if Lookup(tags, fields[0]) != "" then Lookup(tags, fields[0])
    else
      var rest := FirstNonEmpty(tags, fields[1..]);
      assert forall i :: 1 <= i < |fields| ==> fields[i] == fields[1..][i - 1];
      rest
  }

  /** The `for … break` search over the date fields. */
  method FindFirstNonEmpty(tags: TagMap, fields: seq<string>) returns (taken: string)
    ensures taken == FirstNonEmpty(tags, fields)
  {
    taken := "";
    var i := 0;
    while i < |fields|
      invariant 0 <= i <= |fields|
      invariant taken == ""
      invariant FirstNonEmpty(tags, fields) == FirstNonEmpty(tags, fields[i..])
    {
      var field := fields[i];
      if Lookup(tags, field) != "" {
        taken := Lookup(tags, field);
        break;
      }
      assert fields[i..][1..] == fields[i + 1..];
      i := i + 1;
    }
  }

  /** How a version trims a column: `strings.TrimSpace` (main.go) or `strings.Trim(_, " ")` (photopy.go). */
  datatype FieldTrim = TrimWhitespace | TrimBlanks

  function TrimField(s: string, how: FieldTrim): string {
    match how
    case TrimWhitespace => TrimSpace(s)
    case TrimBlanks => Trim(s, {' '})
  }

  /** The key occupies columns 0 to 31; the value starts at column 33. */
  const KeyWidth := 32
  const ValueColumn := 33

  /** Every line reaches the value column; a shorter one makes the slicing panic. */
  predicate WellFormed(lines: seq<string>) {
    forall i :: 0 <= i < |lines| ==> |lines[i]| >= ValueColumn
  }

  /** The output trimmed of `" \r\n"` at both ends and split on `\n`. */
  function OutputLines(out: string): seq<string> {
    Split(Trim(out, {' ', '\r', '\n'}), '\n')
  }

  /** The (key, value) pair a line contributes. */
  function Entry(line: string, how: FieldTrim): (string, string)
    requires |line| >= ValueColumn
  {
    (TrimField(line[..KeyWidth], how), TrimField(line[ValueColumn..], how))
  }

  function Entries(lines: seq<string>, how: FieldTrim): (es: seq<(string, string)>)
    requires WellFormed(lines)
    ensures |es| == |lines| && forall i :: 0 <= i < |lines| ==> es[i] == Entry(lines[i], how)
  {
    seq(|lines|, i requires 0 <= i < |lines| && WellFormed(lines) => Entry(lines[i], how))
  }

  /** The map built by storing the pairs in order, each `tags[k] = v` overwriting earlier ones. */
  function MapOf(es: seq<(string, string)>): TagMap {
    if es == [] then map[] else MapOf(es[..|es| - 1])[es[|es| - 1].0 := es[|es| - 1].1]
  }

  /** Every key of the map comes from some pair, and every pair's key is in the map. */
  lemma {:induction false} MapOfKeys(es: seq<(string, string)>)
    ensures MapOf(es).Keys == set i | 0 <= i < |es| :: es[i].0
  {
    if es != [] {
      var n := |es| - 1;
      MapOfKeys(es[..n]);
      assert forall i :: 0 <= i < n ==> es[..n][i] == es[i];
      assert (set i | 0 <= i < |es| :: es[i].0) == (set i | 0 <= i < n :: es[..n][i].0) + {es[n].0};
    }
  }

  /** A later pair with the same key overwrites an earlier one: the value kept is the last one given. */
  lemma {:induction false} MapOfLastWins(es: seq<(string, string)>, i: nat)
    requires i < |es|
    requires forall j :: i < j < |es| ==> es[j].0 != es[i].0
    ensures es[i].0 in MapOf(es) && MapOf(es)[es[i].0] == es[i].1
  {
    var n := |es| - 1;
    if i < n {
      assert es[..n][i] == es[i];
      MapOfLastWins(es[..n], i);
    }
  }

  /** The map `getExifData` returns for exiftool's output `out`. */
  function ExifToolTags(out: string, how: FieldTrim): TagMap
    requires WellFormed(OutputLines(out))
  {
    MapOf(Entries(OutputLines(out), how))
  }

  /**
   * The parsed map has exactly the keys of the lines, and for a key given on
   * several lines the value of the last of them.
   */
  lemma ExifToolTagsLastWins(out: string, how: FieldTrim, i: nat)
    requires WellFormed(OutputLines(out))
    requires i < |OutputLines(out)|
    requires forall j :: i < j < |OutputLines(out)| ==>
      Entry(OutputLines(out)[j], how).0 != Entry(OutputLines(out)[i], how).0
    ensures var tags := ExifToolTags(out, how); var e := Entry(OutputLines(out)[i], how);
      e.0 in tags && tags[e.0] == e.1
  {
    MapOfLastWins(Entries(OutputLines(out), how), i);
  }

  lemma ExifToolTagsKeys(out: string, how: FieldTrim)
    requires WellFormed(OutputLines(out))
    ensures var lines := OutputLines(out);
      ExifToolTags(out, how).Keys == set i | 0 <= i < |lines| :: Entry(lines[i], how).0
  {
    var lines := OutputLines(out);
    var es := Entries(lines, how);
    MapOfKeys(es);
    assert (set i | 0 <= i < |es| :: es[i].0) == set i | 0 <= i < |lines| :: Entry(lines[i], how).0;
  }

  /** `getExifData` on exiftool's output: trim it, split it into lines, and parse them. */
  method ParseExifTool(out: string, how: FieldTrim) returns (tags: TagMap)
    requires WellFormed(OutputLines(out))
    ensures tags == ExifToolTags(out, how)
  {
    var data := Trim(out, {' ', '\r', '\n'});
    var lines := Split(data, '\n');
    tags := ParseLines(lines, how);
  }

  /** The line loop of `getExifData`: each line stores its trimmed key and value. */
  method ParseLines(lines: seq<string>, how: FieldTrim) returns (tags: TagMap)
    requires WellFormed(lines)
    ensures tags == MapOf(Entries(lines, how))
  {
    ghost var es := Entries(lines, how);
    tags := map[];
    for i := 0 to |lines|
      invariant tags == MapOf(es[..i])
    {
      var line := lines[i];
      var key := TrimField(line[..KeyWidth], how);
      var value := TrimField(line[ValueColumn..], how);
      assert es[i] == (key, value);
      MapOfSnoc(es, i);
      tags := tags[key := value];
    }
    assert es[..|lines|] == es;
  }

  /** Storing one more pair. */
  lemma MapOfSnoc(es: seq<(string, string)>, i: nat)
    requires i < |es|
    ensures MapOf(es[..i + 1]) == MapOf(es[..i])[es[i].0 := es[i].1]
  {
    assert es[..i + 1][..i] == es[..i];
  }
}
