/**
 * The parts of Go's `strings`, `strconv`, `unicode` and `path` packages that the
 * importer relies on, restricted to what it uses: space trimming, cut-set trimming,
 * splitting and joining on a one-character separator, case mapping, `path.Ext`,
 * and decimal formatting and parsing of naturals.
 */
module GoStrings {

  /** `unicode.IsSpace`: the Latin-1 spaces and the other Unicode White_Space characters. */
  predicate IsSpace(c: char) {
    || c == '\t' || c == '\n' || c == '\U{000B}' || c == '\U{000C}' || c == '\r' || c == ' '
    || c == '\U{0085}' || c == '\U{00A0}' || c == '\U{1680}'
    || ('\U{2000}' <= c <= '\U{200A}')
    || c == '\U{2028}' || c == '\U{2029}' || c == '\U{202F}' || c == '\U{205F}' || c == '\U{3000}'
  }

  /** The characters a trim removes: white space (`strings.TrimSpace`) or a cut set (`strings.Trim`). */
  datatype CharClass = WhiteSpace | CutSet(chars: set<char>)

  predicate In(k: CharClass, c: char) {
    match k
    case WhiteSpace => IsSpace(c)
    case CutSet(chars) => c in chars
  }

  /** Drops the longest prefix of characters of class `k`. */
  function TrimLeft(s: string, k: CharClass): (r: string)
    ensures |r| <= |s| && r == s[|s| - |r|..]
    ensures r != [] ==> !In(k, r[0])
    ensures forall i :: 0 <= i < |s| - |r| ==> In(k, s[i])
  {
    if s != [] && In(k, s[0]) then TrimLeft(s[1..], k) else s
  }

  /** Drops the longest suffix of characters of class `k`. */
  function TrimRight(s: string, k: CharClass): (r: string)
    ensures |r| <= |s| && r == s[..|r|]
    ensures r != [] ==> !In(k, r[|r| - 1])
    ensures forall i :: |r| <= i < |s| ==> In(k, s[i])
  {
    if s != [] && In(k, s[|s| - 1]) then TrimRight(s[..|s| - 1], k) else s
  }

  /** The number of characters `TrimLeft` drops. */
  function TrimOffset(s: string, k: CharClass): nat {
    |s| - |TrimLeft(s, k)|
  }

  /** Trims both ends, leaving a slice of `s`. */
  function TrimBoth(s: string, k: CharClass): (r: string)
    ensures TrimOffset(s, k) + |r| <= |s| && r == s[TrimOffset(s, k)..TrimOffset(s, k) + |r|]
    ensures r != [] ==> !In(k, r[0]) && !In(k, r[|r| - 1])
    ensures forall i :: 0 <= i < TrimOffset(s, k) ==> In(k, s[i])
    ensures forall i :: TrimOffset(s, k) + |r| <= i < |s| ==> In(k, s[i])
  {
    TrimRight(TrimLeft(s, k), k)
  }

  /** `strings.TrimSpace`. */
  function TrimSpace(s: string): string {
    TrimBoth(s, WhiteSpace)
  }

  /** `strings.Trim(s, cutset)`: trims every leading and trailing character of the cut set. */
  function Trim(s: string, cutset: set<char>): string {
    TrimBoth(s, CutSet(cutset))
  }

  /** A string is blank when `strings.TrimSpace` leaves nothing of it. */
  predicate IsBlank(s: string) {
    TrimSpace(s) == ""
  }

  /** A string with no character of class `k` at either end is left alone. */
  lemma TrimNoop(s: string, k: CharClass)
    requires s != [] ==> !In(k, s[0]) && !In(k, s[|s| - 1])
    ensures TrimBoth(s, k) == s
  {
  }

  /** A string that neither starts nor ends with white space is its own `strings.TrimSpace`. */
  lemma TrimSpaceNoop(s: string)
    requires s != [] ==> !IsSpace(s[0]) && !IsSpace(s[|s| - 1])
    ensures TrimSpace(s) == s
  {
    TrimNoop(s, WhiteSpace);
  }

  /** Trimming removes characters of the class only: `s` is some of them, the result, and some more of them. */
  lemma TrimParts(s: string, k: CharClass) returns (head: string, tail: string)
    ensures s == head + TrimBoth(s, k) + tail
    ensures forall i :: 0 <= i < |head| ==> In(k, head[i])
    ensures forall i :: 0 <= i < |tail| ==> In(k, tail[i])
  {
    var r := TrimBoth(s, k);
    var off := TrimOffset(s, k);
    head, tail := s[..off], s[off + |r|..];
    SliceThree(s, off, off + |r|);
  }

  lemma SliceThree(s: string, a: nat, b: nat)
    requires a <= b <= |s|
    ensures s == s[..a] + s[a..b] + s[b..]
  {
  }

  /** `strings.TrimSpace` is idempotent. */
  lemma TrimSpaceIdempotent(s: string)
    ensures TrimSpace(TrimSpace(s)) == TrimSpace(s)
  {
    TrimSpaceNoop(TrimSpace(s));
  }

  /** `strings.Split(s, sep)` for a one-character separator: never empty, `[""]` for `""`. */
  function Split(s: string, sep: char): (r: seq<string>)
    ensures |r| >= 1
  {
    if s == [] then [""]
    else
      var rest := Split(s[1..], sep);
      if s[0] == sep then [""] + rest else [[s[0]] + rest[0]] + rest[1..]
  }

  /** `strings.Join(xs, sep)` for a one-character separator. */
  function Join(xs: seq<string>, sep: char): (r: string)
  {
    if xs == [] then ""
    else if |xs| == 1 then xs[0]
    else xs[0] + [sep] + Join(xs[1..], sep)
  }

  /** Splitting a string that holds no separator gives back that string alone. */
  lemma {:induction false} SplitNoSep(s: string, sep: char)
    requires sep !in s
    ensures Split(s, sep) == [s]
  {
    if s != [] {
      SplitNoSep(s[1..], sep);
      assert [s[0]] + s[1..] == s;
    }
  }

  /** A separator in the middle splits the two sides independently. */
  lemma {:induction false} SplitAround(a: string, b: string, sep: char)
    ensures Split(a + [sep] + b, sep) == Split(a, sep) + Split(b, sep)
  {
    if a == [] {
      assert a + [sep] + b == [sep] + b;
      assert ([sep] + b)[1..] == b;
    } else {
      var s := a + [sep] + b;
      assert s[0] == a[0];
      assert s[1..] == a[1..] + [sep] + b;
      SplitAround(a[1..], b, sep);
    }
  }

  /** Joining pieces that hold no separator and splitting the result is the identity. */
  lemma {:induction false} SplitJoin(xs: seq<string>, sep: char)
    requires |xs| >= 1
    requires forall i :: 0 <= i < |xs| ==> sep !in xs[i]
    ensures Split(Join(xs, sep), sep) == xs
  {
    if |xs| == 1 {
      SplitNoSep(xs[0], sep);
    } else {
      SplitJoin(xs[1..], sep);
      SplitAround(xs[0], Join(xs[1..], sep), sep);
      SplitNoSep(xs[0], sep);
      assert [xs[0]] + xs[1..] == xs;
    }
  }

  /** Unfolds `Split` once at the front of a string. */
  lemma SplitCons(c: char, x: string, sep: char)
    ensures Split([c] + x, sep) ==
      if c == sep then [""] + Split(x, sep) else [[c] + Split(x, sep)[0]] + Split(x, sep)[1..]
  {
    assert ([c] + x)[1..] == x;
  }

  /** No piece of a split holds the separator. */
  lemma {:induction false} SplitPiecesNoSep(s: string, sep: char)
    ensures forall i :: 0 <= i < |Split(s, sep)| ==> sep !in Split(s, sep)[i]
  {
    if s != [] {
      SplitPiecesNoSep(s[1..], sep);
      SplitCons(s[0], s[1..], sep);
      assert [s[0]] + s[1..] == s;
      var rest := Split(s[1..], sep);
      if s[0] != sep {
        assert sep !in [s[0]] + rest[0];
        assert forall i :: 1 <= i < |Split(s, sep)| ==> Split(s, sep)[i] == rest[i];
      } else {
        assert forall i :: 1 <= i < |Split(s, sep)| ==> Split(s, sep)[i] == rest[i - 1];
      }
    }
  }

  /** Joining `p + ys[0]` with the rest of `ys` puts `p` in front of the join of `ys`. */
  lemma JoinHead(p: string, ys: seq<string>, sep: char)
    requires ys != []
    ensures Join([p + ys[0]] + ys[1..], sep) == p + Join(ys, sep)
  {
    if |ys| > 1 {
      JoinCons(p + ys[0], ys[1..], sep);
      assert ys == [ys[0]] + ys[1..];
      JoinCons(ys[0], ys[1..], sep);
    }
  }

  /** Joining the pieces of a split gives back the string. */
  lemma {:induction false} JoinSplit(s: string, sep: char)
    ensures Join(Split(s, sep), sep) == s
  {
    if s != [] {
      var rest := Split(s[1..], sep);
      JoinSplit(s[1..], sep);
      SplitCons(s[0], s[1..], sep);
      assert [s[0]] + s[1..] == s;
      if s[0] == sep {
        JoinCons("", rest, sep);
      } else {
        JoinHead([s[0]], rest, sep);
      }
    }
  }

  /** The non-empty strings of `xs`, in order. */
  function NonEmptyPieces(xs: seq<string>): (r: seq<string>)
    ensures |r| <= |xs|
    ensures forall i :: 0 <= i < |r| ==> r[i] != ""
    ensures forall w :: w in r ==> w in xs
  {
    if xs == [] then []
    else
      var rest := NonEmptyPieces(xs[1..]);
      if xs[0] == "" then rest else [xs[0]] + rest
  }

  lemma {:induction false} PiecesAppend(xs: seq<string>, ys: seq<string>)
    ensures NonEmptyPieces(xs + ys) == NonEmptyPieces(xs) + NonEmptyPieces(ys)
  {
    if xs == [] {
      assert xs + ys == ys;
    } else {
      assert (xs + ys)[0] == xs[0] && (xs + ys)[1..] == xs[1..] + ys;
      PiecesAppend(xs[1..], ys);
    }
  }

  /** Pieces that are all non-empty are kept as they are. */
  lemma {:induction false} PiecesAllNonEmpty(xs: seq<string>)
    requires forall i :: 0 <= i < |xs| ==> xs[i] != ""
    ensures NonEmptyPieces(xs) == xs
  {
    if xs != [] {
      PiecesAllNonEmpty(xs[1..]);
    }
  }

  /** Joining `x` in front of at least one more piece puts a separator after it. */
  lemma JoinCons(x: string, xs: seq<string>, sep: char)
    requires xs != []
    ensures Join([x] + xs, sep) == x + [sep] + Join(xs, sep)
  {
    assert ([x] + xs)[1..] == xs;
  }

  /** `strings.Join` of `base` and at least one more piece: it starts with `base` and the separator. */
  function JoinUnder(base: string, xs: seq<string>, sep: char): (p: string)
    requires xs != []
    ensures |p| > |base| && p[..|base|] == base && p[|base|] == sep
  {
    JoinCons(base, xs, sep);
    Join([base] + xs, sep)
  }

  /**
   * A path made of a base and pieces free of the separator splits into the
   * base's own pieces followed by exactly those pieces.
   */
  lemma SplitJoinUnder(base: string, xs: seq<string>, sep: char)
    requires xs != []
    requires forall i :: 0 <= i < |xs| ==> sep !in xs[i]
    ensures Split(Join([base] + xs, sep), sep) == Split(base, sep) + xs
  {
    JoinCons(base, xs, sep);
    SplitJoin(xs, sep);
    SplitAround(base, Join(xs, sep), sep);
  }

  /** Trimming never brings in a character that was not there. */
  lemma TrimKeepsOut(s: string, k: CharClass, c: char)
    requires c !in s
    ensures c !in TrimBoth(s, k)
  {
    var r := TrimBoth(s, k);
    var off := TrimOffset(s, k);
    assert forall i :: 0 <= i < |r| ==> r[i] == s[off + i];
  }

  lemma TrimSpaceKeepsOut(s: string, c: char)
    requires c !in s
    ensures c !in TrimSpace(s)
  {
    TrimKeepsOut(s, WhiteSpace, c);
  }

  /** The joined string holds only the pieces' characters and the separator. */
  lemma {:induction false} JoinChars(xs: seq<string>, sep: char, c: char)
    requires c in Join(xs, sep)
    ensures c == sep || exists i :: 0 <= i < |xs| && c in xs[i]
  {
    if |xs| > 1 {
      var rest := Join(xs[1..], sep);
      assert Join(xs, sep) == xs[0] + [sep] + rest;
      if c in rest {
        JoinChars(xs[1..], sep, c);
        if c != sep {
          var i :| 0 <= i < |xs[1..]| && c in xs[1..][i];
          assert c in xs[i + 1];
        }
      } else if c != sep {
        assert c in xs[0];
      }
    } else if |xs| == 1 {
      assert c in xs[0];
    }
  }

  /**
   * `unicode.ToLower` on the characters the importer is meant for: ASCII, the
   * Latin-1 capitals (U+00C0..U+00DE except the multiplication sign) and the
   * three capitals with tilde outside Latin-1 whose small forms `textilize` folds
   * (U+1EBC, U+0128, U+0168). Every other character is returned unchanged.
   */
  function Lower(c: char): (r: char)
    ensures 'a' <= r <= 'z' ==> 'A' <= c <= 'Z' || c == r
    ensures '0' <= r <= '9' || r == ' ' || r == '/' || r == '_' || r == '-' ==> c == r
  {
    if 'A' <= c <= 'Z' then (c as int + 32) as char
    else if '\U{00C0}' <= c <= '\U{00DE}' && c != '\U{00D7}' then (c as int + 32) as char
    else if c == '\U{1EBC}' || c == '\U{0128}' || c == '\U{0168}' then (c as int + 1) as char
    else c
  }

  /** `strings.ToLower` on the modelled characters. */
  function ToLower(s: string): (r: string)
    ensures |r| == |s| && forall i :: 0 <= i < |s| ==> r[i] == Lower(s[i])
  {
    seq(|s|, i requires 0 <= i < |s| => Lower(s[i]))
  }

  /** Lower-casing never makes a white-space character out of another one. */
  lemma LowerNotSpace(c: char)
    requires !IsSpace(c)
    ensures !IsSpace(Lower(c))
  {
  }

  /** `strings.ToUpper` on ASCII, the only characters a hexadecimal digest holds. */
  function ToUpperAscii(s: string): (r: string)
    ensures |r| == |s|
    ensures forall i :: 0 <= i < |s| ==> r[i] == (if 'a' <= s[i] <= 'z' then (s[i] as int - 32) as char else s[i])
  {
    seq(|s|, i requires 0 <= i < |s| => if 'a' <= s[i] <= 'z' then (s[i] as int - 32) as char else s[i])
  }

  /** The scan of `path.Ext` over `path[..i]`, from the right; `path[i..]` holds no `.` or `/`. */
  function ExtBefore(path: string, i: nat): (r: string)
    requires i <= |path|
    requires forall k :: i <= k < |path| ==> path[k] != '.' && path[k] != '/'
    ensures r == "" || (r[0] == '.' && |r| <= |path| && |path| - |r| < i && r == path[|path| - |r|..])
    ensures '/' !in r
  {
    if i == 0 || path[i - 1] == '/' then ""
    else if path[i - 1] == '.' then path[i - 1..]
    else ExtBefore(path, i - 1)
  }

  /**
   * `path.Ext`: the suffix from the last `.` of the last slash-separated element,
   * or `""` if that element has no dot.
   */
  function Ext(path: string): (r: string)
    ensures r == "" || (r[0] == '.' && |r| <= |path| && r == path[|path| - |r|..])
    ensures '/' !in r
  {
    ExtBefore(path, |path|)
  }

  /** The scan stops at the nearest `.` to the left of position `i`. */
  lemma {:induction false} ExtBeforeDot(path: string, i: nat, j: nat)
    requires j < i <= |path| && path[j] == '.'
    requires forall k :: j < k < |path| ==> path[k] != '.' && path[k] != '/'
    ensures ExtBefore(path, i) == path[j..]
    decreases i
  {
    if i - 1 != j {
      ExtBeforeDot(path, i - 1, j);
    }
  }

  /** The extension of `stem.ext` is `.ext` when `ext` holds neither `.` nor `/`. */
  lemma ExtOfDotted(stem: string, ext: string)
    requires '.' !in ext && '/' !in ext
    ensures Ext(stem + "." + ext) == "." + ext
  {
    var path := stem + "." + ext;
    assert forall k :: |stem| < k < |path| ==> path[k] == ext[k - |stem| - 1];
    ExtBeforeDot(path, |path|, |stem|);
    assert path[|stem|..] == "." + ext;
  }

  /** A name whose last element has no dot has no extension, with or without a directory in front. */
  lemma ExtUndotted(dir: string, name: string)
    requires '.' !in name && '/' !in name
    ensures Ext(name) == ""
    ensures Ext(dir + "/" + name) == ""
  {
    ExtBeforeNone(name, |name|, 0);
    var path := dir + "/" + name;
    assert forall k :: |dir| < k < |path| ==> path[k] == name[k - |dir| - 1];
    ExtBeforeNone(path, |path|, |dir| + 1);
  }

  /** From `i` leftwards the scan finds no dot before `j`, where it stops at a `/` or the start. */
  lemma {:induction false} ExtBeforeNone(path: string, i: nat, j: nat)
    requires j <= i <= |path|
    requires j == 0 || path[j - 1] == '/'
    requires forall k :: j <= k < |path| ==> path[k] != '.' && path[k] != '/'
    ensures ExtBefore(path, i) == ""
    decreases i
  {
    if i != j {
      ExtBeforeNone(path, i - 1, j);
    }
  }

  predicate IsDigit(c: char) {
    '0' <= c <= '9'
  }

  predicate IsDigits(s: string) {
    forall i :: 0 <= i < |s| ==> IsDigit(s[i])
  }

  function DigitChar(d: nat): (c: char)
    requires d < 10
    ensures IsDigit(c) && c as int - '0' as int == d
  {
    ('0' as int + d) as char
  }

  /** The value of a string of decimal digits (what `to.Int` returns for one). */
  function DigitsValue(s: string): nat
    requires IsDigits(s)
  {
    if s == [] then 0 else DigitsValue(s[..|s| - 1]) * 10 + (s[|s| - 1] as int - '0' as int)
  }

  /** `strconv.Itoa` (and `to.String`) for a natural number: no sign, no padding. */
  function DecimalString(n: nat): (r: string)
    ensures IsDigits(r) && 1 <= |r|
  {
    if n < 10 then [DigitChar(n)] else DecimalString(n / 10) + [DigitChar(n % 10)]
  }

  /** `fmt.Sprintf("%02d", n)` for `n < 100`. */
  function Pad2(n: nat): (r: string)
    requires n < 100
    ensures |r| == 2 && IsDigits(r)
  {
    [DigitChar(n / 10), DigitChar(n % 10)]
  }

  /** Reading back a decimal rendering gives the number. */
  lemma {:induction false} DecimalRoundTrip(n: nat)
    ensures DigitsValue(DecimalString(n)) == n
  {
    if n >= 10 {
      DecimalRoundTrip(n / 10);
      var s := DecimalString(n);
      assert s[..|s| - 1] == DecimalString(n / 10);
    }
  }

  /** Reading back a two-digit rendering gives the number. */
  lemma Pad2RoundTrip(n: nat)
    requires n < 100
    ensures DigitsValue(Pad2(n)) == n
  {
    var s := Pad2(n);
    assert s[..1] == [s[0]] && s[..1][..0] == [];
    assert DigitsValue(s[..1]) == n / 10;
  }
}
