/**
 * main.go's filename normalizer: `textilize` turns free text into a path token of
 * `[a-z0-9]` words joined by `_`; `normalize` joins the tokens of the non-blank
 * chunks with `-`; `pick` chooses the first non-blank value.
 */
module Naming {
  import opened GoStrings

  /** The six accent classes of `reSpecialA` … `reSpecialN`, all precomposed characters. */
  const AccentsA: set<char> := {'\U{00E1}', '\U{00E4}', '\U{00E2}', '\U{00E3}', '\U{00E0}'}
  const AccentsE: set<char> := {'\U{00E9}', '\U{00EB}', '\U{00EA}', '\U{1EBD}', '\U{00E8}'}
  const AccentsI: set<char> := {'\U{00ED}', '\U{00EF}', '\U{00EE}', '\U{0129}', '\U{00EC}'}
  const AccentsO: set<char> := {'\U{00F3}', '\U{00F6}', '\U{00F4}', '\U{00F5}', '\U{00F2}'}
  const AccentsU: set<char> := {'\U{00FA}', '\U{00FC}', '\U{00FB}', '\U{0169}', '\U{00F9}'}
  const AccentsN: set<char> := {'\U{00F1}'}

  predicate IsLowerAlnum(c: char) {
    'a' <= c <= 'z' || '0' <= c <= '9'
  }

  /** Only `[a-z0-9]` and spaces. */
  predicate IsSpaced(s: string) {
    forall i :: 0 <= i < |s| ==> IsLowerAlnum(s[i]) || s[i] == ' '
  }

  /** No two spaces in a row. */
  predicate NoDoubleSpace(s: string) {
    forall i :: 0 <= i < |s| - 1 ==> !(s[i] == ' ' && s[i + 1] == ' ')
  }

  /**
   * What `textilize` promises: only `[a-z0-9_]`, no `_` at either end and never
   * two `_` in a row.
   */
  predicate IsToken(t: string) {
    && (forall i :: 0 <= i < |t| ==> IsLowerAlnum(t[i]) || t[i] == '_')
    && (t != [] ==> t[0] != '_' && t[|t| - 1] != '_')
    && (forall i :: 0 <= i < |t| - 1 ==> !(t[i] == '_' && t[i + 1] == '_'))
  }

  /** `ReplaceAllLiteralString` for a one-character class: each character of `chars` becomes `r`. */
  function ReplaceClass(s: string, chars: set<char>, r: char): (t: string)
    ensures |t| == |s| && forall i :: 0 <= i < |s| ==> t[i] == (if s[i] in chars then r else s[i])
  {
    seq(|s|, i requires 0 <= i < |s| => if s[i] in chars then r else s[i])
  }

  /** `reSpecialNotAlpha` (`[^a-z0-9]`) replaced by a space. */
  function BlankOthers(s: string): (t: string)
    ensures |t| == |s| && forall i :: 0 <= i < |s| ==> t[i] == (if IsLowerAlnum(s[i]) then s[i] else ' ')
    ensures IsSpaced(t)
  {
    seq(|s|, i requires 0 <= i < |s| => if IsLowerAlnum(s[i]) then s[i] else ' ')
  }

  /** The words of `s`: the non-empty pieces between its spaces, in order. */
  function Words(s: string): seq<string> {
    NonEmptyPieces(Split(s, ' '))
  }

  /** A space in front adds no word. */
  lemma WordsSpaceCons(x: string)
    ensures Words([' '] + x) == Words(x)
  {
    SplitCons(' ', x, ' ');
    assert ([""] + Split(x, ' '))[1..] == Split(x, ' ');
  }

  /** In front of a non-space, the first piece grows by that character and the other pieces stay. */
  lemma WordsCharCons(c: char, x: string)
    requires c != ' '
    ensures var xs := Split(x, ' ');
      && Split([c] + x, ' ')[0] == [c] + xs[0]
      && Words([c] + x) == [[c] + xs[0]] + NonEmptyPieces(xs[1..])
      && Words(x) == NonEmptyPieces([xs[0]]) + NonEmptyPieces(xs[1..])
  {
    var xs := Split(x, ' ');
    SplitCons(c, x, ' ');
    PiecesAppend([[c] + xs[0]], xs[1..]);
    assert [[c] + xs[0]][1..] == [];
    assert xs == [xs[0]] + xs[1..];
    PiecesAppend([xs[0]], xs[1..]);
  }

  /**
   * `reSpecialSpaces` (` +`) replaced by one space: every run of spaces shrinks
   * to one. The words, the first and last characters and the text before the
   * first space are kept, and no two spaces are left in a row; together these
   * fix the result.
   */
  function CollapseSpaces(s: string): (t: string)
    ensures |t| <= |s|
    ensures s != [] ==> t != [] && t[0] == s[0] && t[|t| - 1] == s[|s| - 1]
    ensures Words(t) == Words(s)
    ensures Split(t, ' ')[0] == Split(s, ' ')[0]
    ensures NoDoubleSpace(t)
    ensures IsSpaced(s) ==> IsSpaced(t)
  {
    if |s| <= 1 then s
    else
      var rest := CollapseSpaces(s[1..]);
      var t := if s[0] == ' ' && s[1] == ' ' then rest else [s[0]] + rest;
      CollapseStep(s, rest, t);
      t
  }

  /** One step of the collapse keeps every property of the collapsed tail. */
  lemma CollapseStep(s: string, rest: string, t: string)
    requires |s| > 1
    requires |rest| <= |s[1..]|
    requires s[1..] != [] ==> rest != [] && rest[0] == s[1..][0] && rest[|rest| - 1] == s[1..][|s[1..]| - 1]
    requires Words(rest) == Words(s[1..])
    requires Split(rest, ' ')[0] == Split(s[1..], ' ')[0]
    requires NoDoubleSpace(rest)
    requires IsSpaced(s[1..]) ==> IsSpaced(rest)
    requires t == if s[0] == ' ' && s[1] == ' ' then rest else [s[0]] + rest
    ensures |t| <= |s|
    ensures s != [] ==> t != [] && t[0] == s[0] && t[|t| - 1] == s[|s| - 1]
    ensures Words(t) == Words(s)
    ensures Split(t, ' ')[0] == Split(s, ' ')[0]
    ensures NoDoubleSpace(t)
    ensures IsSpaced(s) ==> IsSpaced(t)
  {
    if s[0] == ' ' && s[1] == ' ' {
      CollapseDropsSpace(s, rest);
      if IsSpaced(s) {
        assert forall i :: 0 <= i < |s| - 1 ==> s[1..][i] == s[i + 1];
      }
    } else {
      CollapseKeepsHead(s, rest);
      CollapseHeadShape(s, rest);
    }
  }

  /** Putting the first character back in front of a collapsed tail keeps its shape. */
  lemma CollapseHeadShape(s: string, rest: string)
    requires |s| > 1 && !(s[0] == ' ' && s[1] == ' ')
    requires rest != [] && rest[0] == s[1] && rest[|rest| - 1] == s[|s| - 1]
    requires NoDoubleSpace(rest) && (IsSpaced(s[1..]) ==> IsSpaced(rest))
    ensures var t := [s[0]] + rest;
      t[0] == s[0] && t[|t| - 1] == s[|s| - 1] && NoDoubleSpace(t) && (IsSpaced(s) ==> IsSpaced(t))
  {
    var t := [s[0]] + rest;
    forall i | 0 <= i < |t| - 1
      ensures !(t[i] == ' ' && t[i + 1] == ' ')
    {
      if i > 0 {
        assert t[i] == rest[i - 1] && t[i + 1] == rest[i];
      }
    }
    if IsSpaced(s) {
      assert forall i :: 0 <= i < |s| - 1 ==> s[1..][i] == s[i + 1];
      forall i | 0 <= i < |t|
        ensures IsLowerAlnum(t[i]) || t[i] == ' '
      {
        if i > 0 {
          assert t[i] == rest[i - 1];
        }
      }
    }
  }

  /** Dropping the first of two spaces keeps the words and the (empty) first piece. */
  lemma CollapseDropsSpace(s: string, rest: string)
    requires |s| > 1 && s[0] == ' ' && s[1] == ' '
    requires Words(rest) == Words(s[1..]) && Split(rest, ' ')[0] == Split(s[1..], ' ')[0]
    ensures Words(rest) == Words(s) && Split(rest, ' ')[0] == Split(s, ' ')[0]
  {
    assert [s[0]] + s[1..] == s;
    SplitCons(s[0], s[1..], ' ');
    WordsSpaceCons(s[1..]);
    assert [s[1]] + s[2..] == s[1..];
    SplitCons(s[1], s[2..], ' ');
  }

  /** Keeping the first character in front of a collapsed tail keeps the words and the first piece. */
  lemma CollapseKeepsHead(s: string, rest: string)
    requires |s| > 1 && !(s[0] == ' ' && s[1] == ' ')
    requires Words(rest) == Words(s[1..]) && Split(rest, ' ')[0] == Split(s[1..], ' ')[0]
    ensures Words([s[0]] + rest) == Words(s) && Split([s[0]] + rest, ' ')[0] == Split(s, ' ')[0]
  {
    assert [s[0]] + s[1..] == s;
    SplitCons(s[0], s[1..], ' ');
    SplitCons(s[0], rest, ' ');
    if s[0] == ' ' {
      WordsSpaceCons(s[1..]);
      WordsSpaceCons(rest);
    } else {
      WordsCharCons(s[0], s[1..]);
      WordsCharCons(s[0], rest);
      var r, x := Split(rest, ' '), Split(s[1..], ' ');
      var head := NonEmptyPieces([r[0]]);
      assert head == NonEmptyPieces([x[0]]);
      assert NonEmptyPieces(r[1..]) == (head + NonEmptyPieces(r[1..]))[|head|..];
      assert NonEmptyPieces(x[1..]) == (head + NonEmptyPieces(x[1..]))[|head|..];
    }
  }

  /** `strings.Replace(s, " ", "_", -1)`. */
  function ReplaceSpaces(s: string): (t: string)
    ensures |t| == |s| && forall i :: 0 <= i < |s| ==> t[i] == (if s[i] == ' ' then '_' else s[i])
  {
    seq(|s|, i requires 0 <= i < |s| => if s[i] == ' ' then '_' else s[i])
  }

  /** Trimming a spaced string with no double space leaves one that starts and ends with a non-space. */
  lemma TrimmedSpaced(s: string)
    requires IsSpaced(s) && NoDoubleSpace(s)
    ensures var r := TrimSpace(s);
      IsSpaced(r) && NoDoubleSpace(r) && (r != [] ==> r[0] != ' ' && r[|r| - 1] != ' ')
  {
    TrimmedClassSpaced(s, WhiteSpace);
  }

  lemma TrimmedClassSpaced(s: string, k: CharClass)
    requires IsSpaced(s) && NoDoubleSpace(s) && In(k, ' ')
    ensures var r := TrimBoth(s, k);
      IsSpaced(r) && NoDoubleSpace(r) && (r != [] ==> r[0] != ' ' && r[|r| - 1] != ' ')
  {
    var r := TrimBoth(s, k);
    var off := TrimOffset(s, k);
    SlicePart(s, off, r);
    RimsNotIn(r, k);
  }

  lemma SlicePart(s: string, off: nat, r: string)
    requires IsSpaced(s) && NoDoubleSpace(s) && off + |r| <= |s| && r == s[off..off + |r|]
    ensures IsSpaced(r) && NoDoubleSpace(r)
  {
    assert forall i :: 0 <= i < |r| ==> r[i] == s[off + i];
  }

  lemma RimsNotIn(r: string, k: CharClass)
    requires In(k, ' ') && (r != [] ==> !In(k, r[0]) && !In(k, r[|r| - 1]))
    ensures r != [] ==> r[0] != ' ' && r[|r| - 1] != ' '
  {
  }


  /** Lower-casing, then folding each accented character to its ASCII letter, then keeping only each character that is still alphanumeric. */
  function Keep(c: char): (k: char)
    ensures IsLowerAlnum(k) || k == ' '
  {
    var l := Lower(c);
    var f :=
      if l in AccentsA then 'a' else if l in AccentsE then 'e' else if l in AccentsI then 'i'
      else if l in AccentsO then 'o' else if l in AccentsU then 'u' else if l in AccentsN then 'n'
      else l;
    if IsLowerAlnum(f) then f else ' '
  }

  /**
   * The first stages of `textilize`, as written: `strings.ToLower`, the six
   * accent replacements and the blanking of `[^a-z0-9]`.
   */
  function Stages(input: string): (output: string)
    ensures |output| == |input| && IsSpaced(output)
  {
    var output := ToLower(input);
    var output := ReplaceClass(output, AccentsA, 'a');
    var output := ReplaceClass(output, AccentsE, 'e');
    var output := ReplaceClass(output, AccentsI, 'i');
    var output := ReplaceClass(output, AccentsO, 'o');
    var output := ReplaceClass(output, AccentsU, 'u');
    var output := ReplaceClass(output, AccentsN, 'n');
    BlankOthers(output)
  }

  /** The same stages one character at a time. */
  function Blanked(input: string): (output: string)
    ensures |output| == |input| && forall i :: 0 <= i < |input| ==> output[i] == Keep(input[i])
    ensures IsSpaced(output)
  {
    seq(|input|, i requires 0 <= i < |input| => Keep(input[i]))
  }

  /** Each stage acts on one character at a time, so together they are `Keep` applied to every character. */
  lemma StagesBlank(input: string)
    ensures Stages(input) == Blanked(input)
  {
  }

  /** Single spaces between words become single `_` between words: a token. */
  lemma ReplacedToken(s: string)
    requires IsSpaced(s) && NoDoubleSpace(s) && (s != [] ==> s[0] != ' ' && s[|s| - 1] != ' ')
    ensures IsToken(ReplaceSpaces(s))
  {
  }

  /** `textilize`: the per-character stages, then collapsing the spaces, trimming, and spaces to `_`. */
  function Textilize(input: string): (r: string)
    ensures IsToken(r)
  {
    var output := Blanked(input);
    var output := CollapseSpaces(output);
    TrimmedSpaced(output);
    ReplacedToken(TrimSpace(output));
    ReplaceSpaces(TrimSpace(output))
  }

  /** Accented vowels and `ñ`, small or capital, fold to their ASCII letter; ASCII letters and digits are lower-cased. */
  lemma KeepFolds(c: char)
    ensures Lower(c) in AccentsA ==> Keep(c) == 'a'
    ensures Lower(c) in AccentsE ==> Keep(c) == 'e'
    ensures Lower(c) in AccentsI ==> Keep(c) == 'i'
    ensures Lower(c) in AccentsO ==> Keep(c) == 'o'
    ensures Lower(c) in AccentsU ==> Keep(c) == 'u'
    ensures Lower(c) in AccentsN ==> Keep(c) == 'n'
    ensures 'A' <= c <= 'Z' ==> Keep(c) == (c as int + 32) as char
    ensures IsLowerAlnum(c) ==> Keep(c) == c
    ensures c == '_' ==> Keep(c) == ' '
  {
  }

  /** An ASCII letter, digit, space or `-` survives blanking lower-cased, or as a space. */
  lemma KeepAscii(c: char)
    requires 'A' <= c <= 'Z' || IsLowerAlnum(c) || c == ' ' || c == '-'
    ensures Keep(c) == if 'A' <= c <= 'Z' then (c as int + 32) as char else if IsLowerAlnum(c) then c else ' '
  {
  }

  /** The per-character stages work on each part of a string separately. */
  lemma BlankedAppend(a: string, b: string)
    ensures Blanked(a + b) == Blanked(a) + Blanked(b)
  {
  }

  /** Lower-case letters and digits pass the per-character stages unchanged. */
  lemma BlankedAlnum(s: string)
    requires forall i :: 0 <= i < |s| ==> IsLowerAlnum(s[i])
    ensures Blanked(s) == s
  {
    forall i | 0 <= i < |s| ensures Keep(s[i]) == s[i] {
      KeepAscii(s[i]);
    }
  }

  /** A single character that survives blanking is the whole of its own token. */
  lemma TextilizeOneChar(c: char)
    requires Keep(c) != ' '
    ensures Textilize([c]) == [Keep(c)]
  {
    BlankedOne(c);
    TextilizeSpaced([c]);
    ReplacedOne(Keep(c));
  }

  lemma BlankedOne(c: char)
    ensures Blanked([c]) == [Keep(c)]
  {
  }

  lemma ReplacedOne(k: char)
    requires k != ' '
    ensures ReplaceSpaces([k]) == [k]
  {
  }

  /** Each accented vowel or `ñ`, small or capital, textilizes to its plain letter. */
  lemma TextilizeFoldsA(c: char)
    requires Lower(c) in AccentsA
    ensures Textilize([c]) == "a"
  {
    KeepFolds(c);
    TextilizeOneChar(c);
  }

  lemma TextilizeFoldsE(c: char)
    requires Lower(c) in AccentsE
    ensures Textilize([c]) == "e"
  {
    KeepFolds(c);
    TextilizeOneChar(c);
  }

  lemma TextilizeFoldsI(c: char)
    requires Lower(c) in AccentsI
    ensures Textilize([c]) == "i"
  {
    KeepFolds(c);
    TextilizeOneChar(c);
  }

  lemma TextilizeFoldsO(c: char)
    requires Lower(c) in AccentsO
    ensures Textilize([c]) == "o"
  {
    KeepFolds(c);
    TextilizeOneChar(c);
  }

  lemma TextilizeFoldsU(c: char)
    requires Lower(c) in AccentsU
    ensures Textilize([c]) == "u"
  {
    KeepFolds(c);
    TextilizeOneChar(c);
  }

  lemma TextilizeFoldsN(c: char)
    requires Lower(c) in AccentsN
    ensures Textilize([c]) == "n"
  {
    KeepFolds(c);
    TextilizeOneChar(c);
  }

  /** The letters and digits of a string, in order. */
  function Letters(s: string): string {
    if s == [] then [] else (if IsLowerAlnum(s[0]) then [s[0]] else []) + Letters(s[1..])
  }

  lemma {:induction false} LettersAppend(a: string, b: string)
    ensures Letters(a + b) == Letters(a) + Letters(b)
  {
    if a != [] {
      var head := if IsLowerAlnum(a[0]) then [a[0]] else [];
      assert (a + b)[0] == a[0] && (a + b)[1..] == a[1..] + b;
      assert Letters(a + b) == head + Letters(a[1..] + b);
      LettersAppend(a[1..], b);
      assert Letters(a) == head + Letters(a[1..]);
    } else {
      assert a + b == b;
    }
  }

  /** Two strings that agree wherever either holds a letter or digit have the same letters. */
  lemma {:induction false} LettersAgree(a: string, b: string)
    requires |a| == |b|
    requires forall i :: 0 <= i < |a| && (IsLowerAlnum(a[i]) || IsLowerAlnum(b[i])) ==> a[i] == b[i]
    ensures Letters(a) == Letters(b)
  {
    if a != [] {
      LettersAgree(a[1..], b[1..]);
    }
  }

  lemma {:induction false} LettersCollapse(s: string)
    ensures Letters(CollapseSpaces(s)) == Letters(s)
  {
    if |s| > 1 {
      LettersCollapse(s[1..]);
      if !(s[0] == ' ' && s[1] == ' ') {
        assert ([s[0]] + CollapseSpaces(s[1..]))[1..] == CollapseSpaces(s[1..]);
      }
    }
  }

  lemma {:induction false} LettersOfSpaces(s: string)
    requires forall i :: 0 <= i < |s| ==> IsSpace(s[i])
    ensures Letters(s) == []
  {
    if s != [] {
      LettersOfSpaces(s[1..]);
    }
  }

  lemma LettersTrim(s: string)
    ensures Letters(TrimSpace(s)) == Letters(s)
  {
    var r := TrimSpace(s);
    var head, tail := TrimParts(s, WhiteSpace);
    LettersOfSpaces(head);
    LettersOfSpaces(tail);
    LettersAppend(head + r, tail);
    LettersAppend(head, r);
  }

  /**
   * `textilize` keeps every letter and digit of the lower-cased, accent-folded
   * input, in order, and nothing else but the `_` separators.
   */
  lemma TextilizeKeepsLetters(input: string)
    ensures Letters(Textilize(input)) == Letters(Blanked(input))
  {
    var collapsed := CollapseSpaces(Blanked(input));
    LettersCollapse(Blanked(input));
    LettersTrim(collapsed);
    LettersAgree(TrimSpace(collapsed), ReplaceSpaces(TrimSpace(collapsed)));
  }

  lemma {:induction false} CollapseNoop(s: string)
    requires NoDoubleSpace(s)
    ensures CollapseSpaces(s) == s
  {
    if |s| > 1 {
      CollapseNoop(s[1..]);
      assert [s[0]] + s[1..] == s;
    }
  }

  /**
   * When the per-character stages already leave single spaces between words,
   * `textilize` only turns those spaces into `_`.
   */
  lemma TextilizeSpaced(input: string)
    requires var b := Blanked(input); NoDoubleSpace(b) && (b != [] ==> b[0] != ' ' && b[|b| - 1] != ' ')
    ensures Textilize(input) == ReplaceSpaces(Blanked(input))
  {
    var b := Blanked(input);
    CollapseNoop(b);
    TrimSpaceNoop(b);
  }

  /** A token is left unchanged by `textilize`. */
  lemma TextilizeToken(t: string)
    requires IsToken(t)
    ensures Textilize(t) == t
  {
    BlankedToken(t);
    TextilizeSpaced(t);
  }

  /** Blanking a token turns its `_` into single spaces between words, and back. */
  lemma BlankedToken(t: string)
    requires IsToken(t)
    ensures var u := Blanked(t);
      NoDoubleSpace(u) && (u != [] ==> u[0] != ' ' && u[|u| - 1] != ' ') && ReplaceSpaces(u) == t
  {
    var u := Blanked(t);
    forall i | 0 <= i < |t|
      ensures u[i] == (if t[i] == '_' then ' ' else t[i])
    {
      KeepFolds(t[i]);
    }
    assert ReplaceSpaces(u) == t;
  }

  /** `textilize` is idempotent. */
  lemma TextilizeIdempotent(s: string)
    ensures Textilize(Textilize(s)) == Textilize(s)
  {
    TextilizeToken(Textilize(s));
  }

  /** Spaces at either end add no word. */
  lemma {:induction false} WordsLeadingSpaces(head: string, x: string)
    requires forall i :: 0 <= i < |head| ==> head[i] == ' '
    ensures Words(head + x) == Words(x)
  {
    if head != [] {
      WordsLeadingSpaces(head[1..], x);
      assert head + x == [' '] + (head[1..] + x);
      WordsSpaceCons(head[1..] + x);
    } else {
      assert head + x == x;
    }
  }

  lemma {:induction false} WordsTrailingSpaces(x: string, tail: string)
    requires forall i :: 0 <= i < |tail| ==> tail[i] == ' '
    ensures Words(x + tail) == Words(x)
  {
    if tail != [] {
      var n := |tail| - 1;
      WordsTrailingSpaces(x, tail[..n]);
      assert x + tail == (x + tail[..n]) + [' '] + "";
      SplitAround(x + tail[..n], "", ' ');
      PiecesAppend(Split(x + tail[..n], ' '), [""]);
    } else {
      assert x + tail == x;
    }
  }

  /** The only white space in a string of `[a-z0-9 ]` is the space. */
  lemma SpacedWhite(c: string, part: string, off: nat)
    requires IsSpaced(c) && off + |part| <= |c| && part == c[off..off + |part|]
    requires forall i :: 0 <= i < |part| ==> IsSpace(part[i])
    ensures forall i :: 0 <= i < |part| ==> part[i] == ' '
  {
    forall i | 0 <= i < |part| ensures part[i] == ' ' {
      assert part[i] == c[off + i];
    }
  }

  /** Trimming a string of `[a-z0-9 ]` keeps its words. */
  lemma WordsTrim(c: string)
    requires IsSpaced(c)
    ensures Words(TrimSpace(c)) == Words(c)
  {
    var head, tail := TrimParts(c, WhiteSpace);
    WordsBetween(c, head, TrimSpace(c), tail);
  }

  lemma WordsBetween(c: string, head: string, r: string, tail: string)
    requires IsSpaced(c) && c == head + r + tail
    requires forall i :: 0 <= i < |head| ==> IsSpace(head[i])
    requires forall i :: 0 <= i < |tail| ==> IsSpace(tail[i])
    ensures Words(r) == Words(c)
  {
    assert head == c[0..|head|];
    assert (head + r) + tail == c;
    assert tail == c[|head| + |r|..|head| + |r| + |tail|];
    SpacedWhite(c, head, 0);
    SpacedWhite(c, tail, |head| + |r|);
    WordsTrailingSpaces(head + r, tail);
    WordsLeadingSpaces(head, r);
  }

  /**
   * A non-empty string with no double space and no space at its end splits into
   * non-empty pieces after the first, which is empty exactly when it starts with a space.
   */
  lemma {:induction false} PiecesOfSpaced(x: string)
    requires x != [] && NoDoubleSpace(x) && x[|x| - 1] != ' '
    ensures var xs := Split(x, ' ');
      (xs[0] != "" <==> x[0] != ' ') && forall i :: 1 <= i < |xs| ==> xs[i] != ""
  {
    assert [x[0]] + x[1..] == x;
    SplitCons(x[0], x[1..], ' ');
    if |x| > 1 {
      PiecesOfSpaced(x[1..]);
      var ys := Split(x[1..], ' ');
      if x[0] == ' ' {
        assert x[1] != ' ';
        assert forall i :: 1 <= i < |Split(x, ' ')| ==> Split(x, ' ')[i] == ys[i - 1];
      } else {
        assert forall i :: 1 <= i < |Split(x, ' ')| ==> Split(x, ' ')[i] == ys[i];
      }
    }
  }

  /** A string with single spaces between its words and none at its ends is its words joined by spaces. */
  lemma JoinWords(r: string)
    requires NoDoubleSpace(r) && (r != [] ==> r[0] != ' ' && r[|r| - 1] != ' ')
    ensures Join(Words(r), ' ') == r
  {
    if r != [] {
      PiecesOfSpaced(r);
      PiecesAllNonEmpty(Split(r, ' '));
      JoinSplit(r, ' ');
    }
  }

  lemma ReplaceSpacesAppend(a: string, b: string)
    ensures ReplaceSpaces(a + b) == ReplaceSpaces(a) + ReplaceSpaces(b)
  {
  }

  /** Turning the spaces of a join of space-free words into `_` joins them with `_`. */
  lemma {:induction false} ReplaceJoin(ws: seq<string>)
    requires forall w :: w in ws ==> ' ' !in w
    ensures ReplaceSpaces(Join(ws, ' ')) == Join(ws, '_')
  {
    if ws != [] {
      assert ws[0] in ws;
      ReplaceNoSpace(ws[0]);
      if |ws| > 1 {
        var rest := ws[1..];
        assert forall w :: w in rest ==> w in ws;
        ReplaceJoin(rest);
        calc {
          ReplaceSpaces(Join(ws, ' '));
          ReplaceSpaces(ws[0] + [' '] + Join(rest, ' '));
          { ReplaceSpacesAppend(ws[0] + [' '], Join(rest, ' ')); ReplaceSpacesAppend(ws[0], [' ']); }
          ReplaceSpaces(ws[0]) + ReplaceSpaces([' ']) + ReplaceSpaces(Join(rest, ' '));
          ws[0] + ['_'] + Join(rest, '_');
        }
      }
    }
  }

  lemma ReplaceNoSpace(w: string)
    requires ' ' !in w
    ensures ReplaceSpaces(w) == w
  {
  }

  /**
   * `textilize` as a whole: the words left by the per-character stages, joined
   * with `_`.
   */
  lemma TextilizeWords(input: string)
    ensures Textilize(input) == Join(Words(Blanked(input)), '_')
  {
    var b := Blanked(input);
    var c := CollapseSpaces(b);
    var r := TrimSpace(c);
    WordsTrim(c);
    TrimmedSpaced(c);
    JoinWords(r);
    SplitPiecesNoSep(r, ' ');
    ReplaceJoin(Words(r));
  }

  /** A token never holds the chunk separator `-` nor the path separator `/`. */
  lemma TokenHasNoSeparators(t: string)
    requires IsToken(t)
    ensures '-' !in t && '/' !in t
  {
  }

  /** The non-blank chunks, trimmed, in order. */
  function NonBlank(chunks: seq<string>): (kept: seq<string>)
    ensures |kept| <= |chunks|
    ensures forall i :: 0 <= i < |kept| ==> kept[i] != ""
    ensures kept == [] <==> forall i :: 0 <= i < |chunks| ==> IsBlank(chunks[i])
  {
    if chunks == [] then []
    else
      var n := |chunks| - 1;
      var init := NonBlank(chunks[..n]);
      var chunk := TrimSpace(chunks[n]);
      AllSnoc(chunks, chunks[..n], IsBlank);
      if chunk != "" then
        NonEmptyAppend(init, chunk);
        init + [chunk]
      else init
  }

  /** Every element satisfies `p` exactly when every element but the last does and the last does too. */
  lemma AllSnoc(xs: seq<string>, init: seq<string>, p: string -> bool)
    requires xs != [] && init == xs[..|xs| - 1]
    ensures (forall i :: 0 <= i < |xs| ==> p(xs[i])) <==>
      (forall i :: 0 <= i < |init| ==> p(init[i])) && p(xs[|xs| - 1])
  {
    assert forall i :: 0 <= i < |init| ==> init[i] == xs[i];
  }

  lemma NonEmptyAppend(init: seq<string>, chunk: string)
    requires forall i :: 0 <= i < |init| ==> init[i] != ""
    requires chunk != ""
    ensures forall i :: 0 <= i < |init| + 1 ==> (init + [chunk])[i] != ""
  {
    assert forall i :: 0 <= i < |init| ==> (init + [chunk])[i] == init[i];
  }

  /** Unfolds `NonBlank` once at the end. */
  lemma NonBlankSnoc(xs: seq<string>)
    requires xs != []
    ensures var n := |xs| - 1;
      NonBlank(xs) == NonBlank(xs[..n]) + if IsBlank(xs[n]) then [] else [TrimSpace(xs[n])]
  {
  }

  /** One chunk is kept, trimmed, exactly when it is not blank. */
  lemma NonBlankOne(chunk: string)
    ensures NonBlank([chunk]) == if IsBlank(chunk) then [] else [TrimSpace(chunk)]
  {
    NonBlankSnoc([chunk]);
    assert [chunk][..0] == [];
  }

  /**
   * The chunks of `a + b` kept are those of `a` followed by those of `b`: with
   * `NonBlankOne`, the kept chunks are the trimmed non-blank ones, in order.
   */
  lemma {:induction false} NonBlankAppend(a: seq<string>, b: seq<string>)
    ensures NonBlank(a + b) == NonBlank(a) + NonBlank(b)
  {
    if b == [] {
      assert a + b == a;
    } else {
      var n := |b| - 1;
      var ab := a + b;
      var last := if IsBlank(b[n]) then [] else [TrimSpace(b[n])];
      assert ab[..|ab| - 1] == a + b[..n] && ab[|ab| - 1] == b[n];
      calc {
        NonBlank(ab);
        { NonBlankSnoc(ab); }
        NonBlank(a + b[..n]) + last;
        { NonBlankAppend(a, b[..n]); }
        NonBlank(a) + NonBlank(b[..n]) + last;
        { NonBlankSnoc(b); }
        NonBlank(a) + NonBlank(b);
      }
    }
  }

  /** The textilized non-blank chunks, in order: the `name` slice `normalize` builds. */
  function Chunks(chunks: seq<string>): (names: seq<string>)
    ensures |names| == |NonBlank(chunks)|
    ensures forall i :: 0 <= i < |names| ==> names[i] == Textilize(NonBlank(chunks)[i])
    ensures forall i :: 0 <= i < |names| ==> IsToken(names[i])
  {
    if chunks == [] then []
    else
      var n := |chunks| - 1;
      var init := Chunks(chunks[..n]);
      var chunk := TrimSpace(chunks[n]);
      NonBlankSnoc(chunks);
      if chunk != "" then
        TokensAppend(init, Textilize(chunk));
        NamesAppend(init, NonBlank(chunks[..n]), chunk, Textilize);
        init + [Textilize(chunk)]
      else init
  }

  /** Names that map one to one onto the kept chunks still do after one more chunk. */
  lemma NamesAppend(names: seq<string>, kept: seq<string>, chunk: string, name: string -> string)
    requires |names| == |kept| && forall i :: 0 <= i < |names| ==> names[i] == name(kept[i])
    ensures var n, k := names + [name(chunk)], kept + [chunk];
      |n| == |k| && forall i :: 0 <= i < |n| ==> n[i] == name(k[i])
  {
    var n, k := names + [name(chunk)], kept + [chunk];
    forall i | 0 <= i < |n|
      ensures n[i] == name(k[i])
    {
      if i < |names| {
        assert n[i] == names[i] && k[i] == kept[i];
      }
    }
  }

  lemma TokensAppend(init: seq<string>, t: string)
    requires forall i :: 0 <= i < |init| ==> IsToken(init[i])
    requires IsToken(t)
    ensures forall i :: 0 <= i < |init| + 1 ==> IsToken((init + [t])[i])
  {
    assert forall i :: 0 <= i < |init| ==> (init + [t])[i] == init[i];
  }

  /**
   * `normalize(chunks...)`: the tokens of the non-blank chunks joined with `-`.
   * Splitting it on `-` gives back exactly those tokens.
   */
  function Normalized(chunks: seq<string>): (r: string)
    ensures Chunks(chunks) == [] ==> r == ""
    ensures Chunks(chunks) != [] ==> Split(r, '-') == Chunks(chunks)
  {
    var names := Chunks(chunks);
    forall i | 0 <= i < |names|
      ensures '-' !in names[i]
    {
      TokenHasNoSeparators(names[i]);
    }
    if names != [] then
      SplitJoin(names, '-');
      Join(names, '-')
    else Join(names, '-')
  }

  /** The chunk loop of `normalize`. */
  method Normalize(chunks: seq<string>) returns (r: string)
    ensures r == Normalized(chunks)
  {
    var name: seq<string> := [];
    for i := 0 to |chunks|
      invariant name == Chunks(chunks[..i])
    {
      var chunk := TrimSpace(chunks[i]);
      assert chunks[..i + 1][..i] == chunks[..i];
      if chunk != "" {
        name := name + [Textilize(chunk)];
      }
    }
    assert chunks[..|chunks|] == chunks;
    r := Join(name, '-');
  }

  /** Blank input normalizes to the empty string. */
  lemma NormalizeAllBlank(chunks: seq<string>)
    requires forall i :: 0 <= i < |chunks| ==> IsBlank(chunks[i])
    ensures Normalized(chunks) == ""
  {
  }

  /** A normalized name holds only `[a-z0-9_-]`, so never a `/`. */
  lemma NormalizedChars(chunks: seq<string>)
    ensures forall c :: c in Normalized(chunks) ==> IsLowerAlnum(c) || c == '_' || c == '-'
  {
    var names := Chunks(chunks);
    forall c | c in Normalized(chunks)
      ensures IsLowerAlnum(c) || c == '_' || c == '-'
    {
      JoinChars(names, '-', c);
    }
  }

  lemma NormalizedNoSlash(chunks: seq<string>)
    ensures '/' !in Normalized(chunks)
  {
    NormalizedChars(chunks);
  }

  /** One chunk normalized twice is normalized once. */
  lemma NormalizeIdempotent(x: string)
    ensures Normalized([Normalized([x])]) == Normalized([x])
  {
    assert [x][..0] == [];
    var n := Normalized([x]);
    assert [n][..0] == [];
    if !IsBlank(x) {
      var t := Textilize(TrimSpace(x));
      assert n == t;
      if t != "" {
        TrimSpaceNoop(t);
        TextilizeToken(t);
      }
    }
  }

  /** A single chunk normalizes to nothing when blank and to the token of its trimmed text otherwise. */
  lemma NormalizedOne(x: string)
    ensures Normalized([x]) == if IsBlank(x) then "" else Textilize(TrimSpace(x))
  {
    assert [x][..0] == [];
  }

  /** A blank chunk in front contributes nothing. */
  lemma NormalizedBlankFirst(blank: string, x: string)
    requires IsBlank(blank)
    ensures Normalized([blank, x]) == Normalized([x])
  {
    ChunksBlankFirst(blank, x);
    assert Normalized([blank, x]) == Join(Chunks([blank, x]), '-');
    assert Normalized([x]) == Join(Chunks([x]), '-');
  }

  lemma ChunksBlankFirst(blank: string, x: string)
    requires IsBlank(blank)
    ensures Chunks([blank, x]) == Chunks([x])
  {
    assert [blank, x][..1] == [blank] && [blank][..0] == [] && [x][..0] == [];
  }

  /** Trimming a chunk first does not change its normalization. */
  lemma NormalizedTrimmed(x: string)
    ensures Normalized([TrimSpace(x)]) == Normalized([x])
  {
    NormalizedOne(x);
    NormalizedOne(TrimSpace(x));
    TrimSpaceIdempotent(x);
  }

  /** `pick(values...)`: the first non-blank value, trimmed, or `""` when there is none. */
  function Picked(values: seq<string>): (r: string)
    ensures r == "" <==> forall i :: 0 <= i < |values| ==> IsBlank(values[i])
    ensures r != "" ==>
      exists i :: 0 <= i < |values| && r == TrimSpace(values[i])
        && forall j :: 0 <= j < i ==> IsBlank(values[j])
  {
    if values == [] then ""
    else if !IsBlank(values[0]) then TrimSpace(values[0])
    else
      var rest := Picked(values[1..]);
      PickedFromTail(values, rest, IsBlank, TrimSpace);
      rest
  }

  /** The witness of the tail's first non-blank value, shifted by the blank head. */
  lemma PickedFromTail(values: seq<string>, rest: string, blank: string -> bool, trim: string -> string)
    requires values != [] && blank(values[0])
    requires rest == "" <==> forall i :: 0 <= i < |values| - 1 ==> blank(values[1..][i])
    requires rest != "" ==>
      exists i :: 0 <= i < |values| - 1 && rest == trim(values[1..][i])
        && forall j :: 0 <= j < i ==> blank(values[1..][j])
    ensures rest == "" <==> forall i :: 0 <= i < |values| ==> blank(values[i])
    ensures rest != "" ==>
      exists i :: 0 <= i < |values| && rest == trim(values[i])
        && forall j :: 0 <= j < i ==> blank(values[j])
  {
    var tail := values[1..];
    if rest == "" {
      forall i | 0 <= i < |values| ensures blank(values[i]) {
        if i > 0 {
          assert values[i] == tail[i - 1];
        }
      }
    } else {
      var k :| 0 <= k < |tail| && rest == trim(tail[k]) && forall j :: 0 <= j < k ==> blank(tail[j]);
      assert !forall i :: 0 <= i < |tail| ==> blank(tail[i]);
      assert values[k + 1] == tail[k];
      forall j | 0 <= j < k + 1 ensures blank(values[j]) {
        if j > 0 {
          assert values[j] == tail[j - 1];
        }
      }
    }
  }

  /** The early-return loop of `pick`. */
  method Pick(values: seq<string>) returns (r: string)
    ensures r == Picked(values)
  {
    var i := 0;
    while i < |values|
      invariant 0 <= i <= |values|
      invariant Picked(values) == Picked(values[i..])
    {
      var value := TrimSpace(values[i]);
      if value != "" {
        return value;
      }
      assert values[i..][1..] == values[i + 1..];
      i := i + 1;
    }
    return "";
  }

  /** `pick(v, default)` is the trimmed `v`, or the trimmed default when `v` is blank. */
  lemma PickDefault(v: string, default: string)
    ensures Picked([v, default]) == if IsBlank(v) then TrimSpace(default) else TrimSpace(v)
  {
    assert [v, default][1..] == [default];
    PickedOne(default);
  }

  /** A non-blank default makes `pick` give something. */
  lemma PickedNonEmpty(v: string, default: string)
    requires !IsBlank(default)
    ensures |Picked([v, default])| > 0
  {
    assert [v, default][1] == default;
  }

  lemma PickedOne(v: string)
    ensures Picked([v]) == TrimSpace(v)
  {
    var vs := [v];
    PickedCons(vs);
    assert vs[0] == v;
    if IsBlank(v) {
      var none: seq<string> := [];
      assert vs[1..] == none;
      PickedNone();
    }
  }

  lemma PickedNone()
    ensures Picked([]) == ""
  {
  }

  /** One step of `pick`'s loop: the head when it is not blank, the pick of the tail otherwise. */
  lemma PickedCons(values: seq<string>)
    requires values != []
    ensures Picked(values) == if IsBlank(values[0]) then Picked(values[1..]) else TrimSpace(values[0])
  {
  }
}
