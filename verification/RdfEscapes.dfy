/** Escapes by code point, comment lines and blank lines, and which line an error names. */
module RdfEscapes {
  import opened Wrappers
  import opened RdfStore
  import opened RdfText
  import opened RdfTextProofs
  import opened TurtlePrefixes

  // ---------------------------------------------------------------- hexadecimal numbers

  function HexChar(d: nat): char
    requires d < 16
  {
    if d < 10 then '0' + d as char else 'a' + (d - 10) as char
  }

  /** The number in `width` hexadecimal digits. */
  function HexText(v: nat, width: nat): (text: string)
    ensures |text| == width
  {
    if width == 0 then "" else HexText(v / 16, width - 1) + [HexChar(v % 16)]
  }

  function Power16(n: nat): nat { if n == 0 then 1 else 16 * Power16(n - 1) }

  lemma {:induction false} HexReads(v: nat, width: nat)
    requires v < Power16(width)
    ensures HexValue(HexText(v, width)) == Some(v)
  {
    if width > 0 {
      HexReads(v / 16, width - 1);
      var text := HexText(v, width);
      assert text[..|text| - 1] == HexText(v / 16, width - 1);
      assert HexDigit(HexChar(v % 16)) == Some(v % 16);
    }
  }

  lemma {:induction false} HexHasNoSign(v: nat, width: nat)
    requires width > 0
    ensures HexText(v, width)[0] != '+'
  {
    if width > 1 {
      HexHasNoSign(v / 16, width - 1);
    }
  }

  lemma CodeReads(s: string, pos: nat, v: nat, width: nat)
    requires width > 0 && v < Power16(width) && Here(s, pos, HexText(v, width))
    ensures ReadCode(s, pos, width) == Some((CodePoint(v), pos + width))
  {
    HexReads(v, width);
    HexHasNoSign(v, width);
    HereSlice(s, pos, HexText(v, width));
  }

  // ---------------------------------------------------------------- the ways to write a character

  predicate IsRaw(piece: string, c: char, quote: char) { piece == [c] && c != quote && c != '\\' }

  predicate IsEscaped(piece: string, c: char) {
    c in "\"'\\\n\r\t" && piece == if c == '\'' then "\\'" else EscapeChar(c)
  }

  /** By the code point, in four digits behind `u` or in eight behind `U`. */
  predicate IsCoded(piece: string, c: char, mark: char, width: nat) {
    piece == ['\\', mark] + HexText(c as int, width)
  }

  /** The piece writes the character, in one of the ways there are, between such quotes. */
  predicate SpellsOne(piece: string, c: char, quote: char) {
    || IsRaw(piece, c, quote) || IsEscaped(piece, c)
    || (c as int < 0x1_0000 && IsCoded(piece, c, 'u', 4)) || IsCoded(piece, c, 'U', 8)
  }

  lemma RawReads(s: string, pos: nat, piece: string, c: char, quote: char, next: nat)
    requires IsRaw(piece, c, quote) && Here(s, pos, piece) && next == pos + |piece|
    ensures pos < |s| && s[pos] != quote && ReadChar(s, pos) == Some(([c], next))
  {
    assert s[pos + 0] == piece[0];
  }

  lemma EscapedReads(s: string, pos: nat, piece: string, c: char, next: nat)
    requires IsEscaped(piece, c) && Here(s, pos, piece) && next == pos + |piece|
    ensures pos < |s| && s[pos] == '\\' && ReadChar(s, pos) == Some(([c], next))
  {
    assert s[pos + 0] == piece[0] && s[pos + 1] == piece[1];
  }

  lemma CodedReads(s: string, pos: nat, piece: string, c: char, mark: char, width: nat, next: nat)
    requires (mark == 'u' && width == 4 && c as int < 0x1_0000) || (mark == 'U' && width == 8)
    requires IsCoded(piece, c, mark, width) && Here(s, pos, piece) && next == pos + |piece|
    ensures pos < |s| && s[pos] == '\\' && ReadChar(s, pos) == Some(([c], next))
  {
    var head := ['\\', mark];
    HereSplit(s, pos, head, HexText(c as int, width));
    assert s[pos + 0] == head[0] && s[pos + 1] == head[1];
    assert Power16(4) == 0x1_0000 && Power16(8) == 0x1_0000_0000 by {
      assert Power16(2) == 0x100 && Power16(4) == 0x1_0000 && Power16(6) == 0x100_0000;
    }
    CodeReads(s, pos + 2, c as int, width);
  }

  lemma OneReads(s: string, pos: nat, piece: string, c: char, quote: char, next: nat)
    requires SpellsOne(piece, c, quote) && quote in "\"'" && Here(s, pos, piece) && next == pos + |piece|
    ensures pos < |s| && s[pos] != quote && ReadChar(s, pos) == Some(([c], next))
  {
    if IsRaw(piece, c, quote) {
      RawReads(s, pos, piece, c, quote, next);
    } else if IsEscaped(piece, c) {
      EscapedReads(s, pos, piece, c, next);
    } else if c as int < 0x1_0000 && IsCoded(piece, c, 'u', 4) {
      CodedReads(s, pos, piece, c, 'u', 4, next);
    } else {
      CodedReads(s, pos, piece, c, 'U', 8, next);
    }
  }

  function Joined(pieces: seq<string>): string { if pieces == [] then "" else pieces[0] + Joined(pieces[1..]) }

  /** The pieces write the characters of the text, each in some way. */
  ghost predicate Spell(pieces: seq<string>, text: string, quote: char) {
    |pieces| == |text| && forall i :: 0 <= i < |text| ==> SpellsOne(pieces[i], text[i], quote)
  }

  lemma CharThen(s: string, pos: nat, text: string, quote: char, next: nat, end: nat)
    requires text != "" && pos < |s| && s[pos] != quote && ReadChar(s, pos) == Some(([text[0]], next))
    requires ReadChars(s, next, quote) == Some((text[1..], end))
    ensures ReadChars(s, pos, quote) == Some((text, end))
  {
    assert [text[0]] + text[1..] == text;
  }

  lemma PieceThen(s: string, pos: nat, text: string, pieces: seq<string>, quote: char, next: nat, end: nat)
    requires quote in "\"'" && Spell(pieces, text, quote) && text != ""
    requires Here(s, pos, pieces[0]) && next == pos + |pieces[0]| && ReadChars(s, next, quote) == Some((text[1..], end))
    ensures ReadChars(s, pos, quote) == Some((text, end))
  {
    SpellRest(pieces, text, quote);
    OneReads(s, pos, pieces[0], text[0], quote, next);
    CharThen(s, pos, text, quote, next, end);
  }

  lemma PiecesSplit(s: string, pos: nat, pieces: seq<string>, next: nat, end: nat)
    requires pieces != [] && Here(s, pos, Joined(pieces)) && end == pos + |Joined(pieces)| && next == pos + |pieces[0]|
    ensures Here(s, pos, pieces[0]) && Here(s, next, Joined(pieces[1..])) && end == next + |Joined(pieces[1..])|
  {
    HereSplit(s, pos, pieces[0], Joined(pieces[1..]));
  }

  lemma SpellRest(pieces: seq<string>, text: string, quote: char)
    requires text != "" && Spell(pieces, text, quote)
    ensures SpellsOne(pieces[0], text[0], quote) && Spell(pieces[1..], text[1..], quote)
  {
  }

  /** However the characters of a literal are written, raw, escaped or by code point, and between either
      quotes, the text is read back. */
  lemma {:induction false} SpellingReads(s: string, pos: nat, text: string, pieces: seq<string>, quote: char, end: nat)
    requires quote in "\"'" && Spell(pieces, text, quote)
    requires Here(s, pos, Joined(pieces)) && end == pos + |Joined(pieces)| && Is(s, end, quote)
    ensures ReadChars(s, pos, quote) == Some((text, end + 1))
    decreases |text|
  {
    if text != "" {
      var next := pos + |pieces[0]|;
      SpellRest(pieces, text, quote);
      PiecesSplit(s, pos, pieces, next, end);
      SpellingReads(s, next, text[1..], pieces[1..], quote, end);
      PieceThen(s, pos, text, pieces, quote, next, end + 1);
    }
  }

  /** A backslash before any other character stands for itself, and so does the character. */
  lemma UnknownEscape(s: string, pos: nat, c: char)
    requires c !in "nrtuU\"'\\" && Here(s, pos, ['\\', c])
    ensures pos < |s| && ReadChar(s, pos) == Some((['\\', c], pos + 2))
  {
    var text := ['\\', c];
    assert s[pos + 0] == text[0] && s[pos + 1] == text[1];
  }

  // ---------------------------------------------------------------- trimming

  predicate Spaces(s: string) { forall c :: c in s ==> Space(c) }

  predicate Trimmed(s: string) { s == "" || (!Space(s[0]) && !Space(s[|s| - 1])) }

  lemma {:induction false} TrimEndExact(t: string, b: string)
    requires Trimmed(t) && Spaces(b)
    ensures TrimEnd(t + b) == t
    decreases |b|
  {
    if b == "" {
      assert t + b == t;
    } else {
      var n := |b| - 1;
      assert b[n] in b && (t + b)[|t + b| - 1] == b[n];
      assert (t + b)[..|t + b| - 1] == t + b[..n];
      assert forall c :: c in b[..n] ==> c in b;
      TrimEndExact(t, b[..n]);
    }
  }

  lemma {:induction false} SkipFront(s: string, pos: nat, a: string)
    requires Here(s, pos, a) && Spaces(a) && (pos + |a| < |s| ==> !Space(s[pos + |a|]))
    ensures SkipSpace(s, pos) == pos + |a|
    decreases |a|
  {
    if a != "" {
      assert s[pos + 0] == a[0] && a[0] in a && a == [a[0]] + a[1..];
      HereSplit(s, pos, [a[0]], a[1..]);
      assert forall c :: c in a[1..] ==> c in a;
      SkipFront(s, pos + 1, a[1..]);
    }
  }

  /** Trimming takes the white space off both ends, and nothing else. */
  lemma TrimExact(a: string, t: string, b: string)
    requires Spaces(a) && Trimmed(t) && t != "" && Spaces(b)
    ensures Trim(a + t + b) == t
  {
    var s := a + t + b;
    assert s == a + (t + b);
    HereWhole(s);
    HereSplit(s, 0, a, t + b);
    assert s[|a|] == t[0];
    SkipFront(s, 0, a);
    assert s[|a|..] == t + b;
    TrimEndExact(t, b);
  }

  lemma TrimBlank(a: string)
    requires Spaces(a)
    ensures Trim(a) == ""
  {
    HereWhole(a);
    SkipFront(a, 0, a);
    assert a[|a|..] == "";
  }

  // ---------------------------------------------------------------- lines

  /** A blank line is nothing. */
  lemma BlankLine(a: string, number: nat)
    requires Spaces(a)
    ensures ReadRaw(a, number) == Ok([])
  {
    TrimBlank(a);
  }

  /** A line whose first character that is no space is `#` is nothing, whatever follows. */
  lemma CommentLine(a: string, text: string, number: nat)
    requires Spaces(a)
    ensures ReadRaw(a + "#" + text, number) == Ok([])
  {
    var s := a + "#" + text;
    assert s == a + ("#" + text);
    HereWhole(s);
    HereSplit(s, 0, a, "#" + text);
    assert s[|a|] == '#';
    SkipFront(s, 0, a);
    assert s[|a|..] == "#" + text;
    TrimKeepsFirst("#" + text);
  }

  lemma {:induction false} TrimKeepsFirst(s: string)
    requires s != "" && !Space(s[0])
    ensures TrimEnd(s) != "" && TrimEnd(s)[0] == s[0]
    decreases |s|
  {
    if Space(s[|s| - 1]) {
      TrimKeepsFirst(s[..|s| - 1]);
    }
  }

  /** A triple may be indented and followed by white space. */
  lemma IndentedLine(a: string, line: string, b: string, number: nat)
    requires Spaces(a) && Spaces(b) && Trimmed(line) && line != "" && line[0] != '#'
    ensures ReadRaw(a + line + b, number) == match ReadLine(line) case Some(t) => Ok([t]) case None => Err(number)
  {
    TrimExact(a, line, b);
  }

  /** The triples of all lines. */
  function Values(lines: seq<string>, number: nat): seq<Triple> {
    if lines == [] then []
    else (match ReadRaw(lines[0], number) case Ok(ts) => ts case Err(_) => []) + Values(lines[1..], number + 1)
  }

  /** If every line is right, the triples of the lines come in their order; otherwise the error is the
      number of the first line that is wrong. */
  lemma {:induction false} LinesExact(lines: seq<string>, number: nat, bad: nat)
    requires bad <= |lines| && forall j :: 0 <= j < bad ==> ReadRaw(lines[j], number + j).Ok?
    requires bad < |lines| ==> ReadRaw(lines[bad], number + bad).Err?
    ensures ReadLines(lines, number, ReadRaw) ==
            if bad < |lines| then Err(number + bad) else Ok(Values(lines, number))
  {
    if lines != [] && bad > 0 {
      assert ReadRaw(lines[0], number + 0).Ok?;
      forall j | 0 <= j < bad - 1 ensures ReadRaw(lines[1..][j], number + 1 + j).Ok? {
        assert ReadRaw(lines[j + 1], number + (j + 1)).Ok?;
      }
      LinesExact(lines[1..], number + 1, bad - 1);
    }
  }

  /** A text is split at its line breaks. */
  lemma LinesSplit(a: string, rest: string)
    requires '\n' !in a
    ensures Lines(a + "\n" + rest) == [a] + Lines(rest)
    ensures a != "" ==> Lines(a) == [a]
  {
    var s := a + "\n" + rest;
    BreakAt(s, a, rest);
    assert s[..|a|] == a && s[|a| + 1..] == rest;
    if a != "" {
      NoBreak(a);
    }
  }

  lemma BreakAt(s: string, a: string, rest: string)
    requires s == a + "\n" + rest && '\n' !in a
    ensures LineEnd(s) == |a|
  {
    assert s[|a|] == '\n';
    assert forall i :: 0 <= i < |a| ==> s[i] == a[i] && a[i] in a;
  }

  lemma NoBreak(a: string)
    requires '\n' !in a
    ensures LineEnd(a) == |a|
  {
    assert forall i :: 0 <= i < |a| ==> a[i] in a;
  }

  // ---------------------------------------------------------------- names

  /** Without declarations a name means its local part. */
  lemma LocalReads(s: string, pos: nat, name: string, local: string)
    requires Here(s, pos, ShortText(name, local) + " ") && CleanName(name) && CleanLabel(local)
    ensures ReadSubject(s, pos) == ReadObject(s, pos) == ReadPredicate(s, pos) ==
            Some((Uri(local), pos + |ShortText(name, local)|))
  {
    NameReads(s, pos, name, local);
    NameStarts(s, pos, name, local);
  }
}
