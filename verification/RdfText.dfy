/** N-Triples and Turtle text: the printed form of terms and triples, and what the reader makes of a
    text. Texts are ASCII, so a byte of the input is a character. */
module RdfText {
  import opened Wrappers
  import opened RdfStore

  /** `None` is a syntax error; a reading carries the position behind what was read. */
  type Reading<+T> = Option<(T, nat)>

  const RDF_TYPE := "http://www.w3.org/" + "1999/02/22-rdf-" + "syntax-ns#type"

  // ---------------------------------------------------------------- characters

  predicate Space(c: char) { c == ' ' || '\t' <= c <= '\r' }

  predicate Letter(c: char) { 'a' <= c <= 'z' || 'A' <= c <= 'Z' }

  predicate TagChar(c: char) { Letter(c) || '0' <= c <= '9' || c == '-' }

  /** What ends a blank node label or the local part of a prefixed name. */
  predicate LabelStop(c: char) { Space(c) || c in ".;,)(" }

  predicate Is(s: string, pos: nat, c: char) { pos < |s| && s[pos] == c }

  // ---------------------------------------------------------------- printing

  function EscapeChar(c: char): string {
    match c
    case '"' => "\\\""
    case '\\' => "\\\\"
    case '\n' => "\\n"
    case '\r' => "\\r"
    case '\t' => "\\t"
    case _ => [c]
  }

  function Replaced(text: string, shown: char -> string): string {
    if text == "" then "" else shown(text[0]) + Replaced(text[1..], shown)
  }

  function Escape(text: string): string { Replaced(text, EscapeChar) }

  function FormatTag(annotation: Option<string>): string {
    match annotation
    case None => ""
    case Some(tag) => if tag != "" && tag[0] == '@' then tag else "^^<" + tag + ">"
  }

  function Format(t: Term): string {
    match t
    case Uri(iri) => "<" + iri + ">"
    case Blank(name) => "_:" + name
    case Literal(text, annotation) => "\"" + Escape(text) + "\"" + FormatTag(annotation)
  }

  function FormatLine(t: Triple): string { Format(t.s) + " " + Format(t.p) + " " + Format(t.o) + " ." }

  function Chunk(t: Triple): string { FormatLine(t) + "\n" }

  function Document(ts: seq<Triple>, chunk: Triple -> string): string {
    if ts == [] then "" else chunk(ts[0]) + Document(ts[1..], chunk)
  }

  function NTriples(ts: seq<Triple>): string { Document(ts, Chunk) }

  // ---------------------------------------------------------------- reading terms

  function SkipSpace(s: string, pos: nat): (r: nat)
    ensures pos <= r && (r < |s| ==> !Space(s[r])) && (pos <= |s| ==> r <= |s|)
    decreases |s| - pos
  {
    if pos < |s| && Space(s[pos]) then SkipSpace(s, pos + 1) else pos
  }

  /** Where an IRI ends: at the first `>` that no backslash skips, or at the end of the text. */
  function IriEnd(s: string, pos: nat): (r: nat)
    requires pos <= |s|
    ensures pos <= r <= |s| && (r < |s| ==> s[r] == '>')
    decreases |s| - pos
  {
    if pos == |s| || s[pos] == '>' then pos
    else if s[pos] == '\\' && pos + 1 < |s| then IriEnd(s, pos + 2)
    else IriEnd(s, pos + 1)
  }

  function ReadIri(s: string, pos: nat): (r: Reading<string>)
    requires pos <= |s|
    ensures r.Some? ==> pos + 1 < r.value.1 <= |s|
  {
    if !Is(s, pos, '<') then None
    else
      var end := IriEnd(s, pos + 1);
      if end < |s| then Some((s[pos + 1..end], end + 1)) else None
  }

  function LabelEnd(s: string, pos: nat): (r: nat)
    requires pos <= |s|
    ensures pos <= r <= |s|
    decreases |s| - pos
  {
    if pos < |s| && !LabelStop(s[pos]) then LabelEnd(s, pos + 1) else pos
  }

  function ReadBlank(s: string, pos: nat): (r: Reading<Term>)
    requires pos <= |s|
    ensures r.Some? ==> pos + 1 < r.value.1 <= |s|
  {
    if Is(s, pos, '_') && Is(s, pos + 1, ':') then
      var end := LabelEnd(s, pos + 2);
      Some((Blank(s[pos + 2..end]), end))
    else None
  }

  function HexDigit(c: char): Option<nat> {
    if '0' <= c <= '9' then Some(c as int - '0' as int)
    else if 'a' <= c <= 'f' then Some(c as int - 'a' as int + 10)
    else if 'A' <= c <= 'F' then Some(c as int - 'A' as int + 10)
    else None
  }

  function HexValue(digits: string): Option<nat> {
    if digits == "" then Some(0)
    else
      match (HexValue(digits[..|digits| - 1]), HexDigit(digits[|digits| - 1]))
      case (Some(v), Some(d)) => Some(16 * v + d)
      case _ => None
  }

  /** `u32::from_str_radix(hex, 16)`, which allows a plus sign. */
  function ParseHex(hex: string): Option<nat> {
    var digits := if hex != "" && hex[0] == '+' then hex[1..] else hex;
    if digits == "" then None else HexValue(digits)
  }

  /** The text of a code point; a number that is none stands for nothing. */
  function CodePoint(v: nat): string {
    if v < 0xD800 || 0xE000 <= v < 0x11_0000 then [v as char] else ""
  }

  /** Up to `width` characters of hexadecimal code point. */
  function ReadCode(s: string, pos: nat, width: nat): (r: Reading<string>)
    requires pos <= |s|
    ensures r.Some? ==> pos <= r.value.1 <= |s|
  {
    var end := if pos + width <= |s| then pos + width else |s|;
    match ParseHex(s[pos..end])
    case None => None
    case Some(v) => Some((CodePoint(v), end))
  }

  /** What stands behind a backslash. */
  function ReadEscape(s: string, pos: nat): (r: Reading<string>)
    requires pos <= |s|
    ensures r.Some? ==> pos < r.value.1 <= |s|
  {
    if pos == |s| then None
    else
      match s[pos]
      case 'n' => Some(("\n", pos + 1))
      case 'r' => Some(("\r", pos + 1))
      case 't' => Some(("\t", pos + 1))
      case 'u' => ReadCode(s, pos + 1, 4)
      case 'U' => ReadCode(s, pos + 1, 8)
      case c => Some((if c in "\"\\'" then [c] else ['\\', c], pos + 1))
  }

  /** One character of a literal, or an escape for one. */
  function ReadChar(s: string, pos: nat): (r: Reading<string>)
    requires pos < |s|
    ensures r.Some? ==> pos < r.value.1 <= |s|
  {
    if s[pos] == '\\' then ReadEscape(s, pos + 1) else Some(([s[pos]], pos + 1))
  }

  /** The characters of a literal up to and including the closing quote. */
  function ReadChars(s: string, pos: nat, quote: char): (r: Reading<string>)
    requires pos <= |s|
    ensures r.Some? ==> pos < r.value.1 <= |s|
    decreases |s| - pos
  {
    if pos == |s| then None
    else if s[pos] == quote then Some(("", pos + 1))
    else
      match ReadChar(s, pos)
      case None => None
      case Some((c, p)) =>
        match ReadChars(s, p, quote)
        case None => None
        case Some((rest, q)) => Some((c + rest, q))
  }

  function TagEnd(s: string, pos: nat): (r: nat)
    requires pos <= |s|
    ensures pos <= r <= |s|
    decreases |s| - pos
  {
    if pos < |s| && TagChar(s[pos]) then TagEnd(s, pos + 1) else pos
  }

  /** The language tag, with its `@`, or the datatype of a literal. */
  function ReadTag(s: string, pos: nat): (r: Reading<Option<string>>)
    requires pos <= |s|
    ensures r.Some? ==> pos <= r.value.1 <= |s|
  {
    if Is(s, pos, '@') then
      var end := TagEnd(s, pos + 1);
      Some((Some("@" + s[pos + 1..end]), end))
    else if Is(s, pos, '^') then
      if !Is(s, pos + 1, '^') then None
      else
        match ReadIri(s, pos + 2)
        case None => None
        case Some((iri, p)) => Some((Some(iri), p))
    else Some((None, pos))
  }

  /** The character at `pos` is the quote. */
  function ReadLiteral(s: string, pos: nat): (r: Reading<Term>)
    requires pos < |s|
    ensures r.Some? ==> pos + 1 < r.value.1 <= |s|
  {
    match ReadChars(s, pos + 1, s[pos])
    case None => None
    case Some((text, p)) =>
      match ReadTag(s, p)
      case None => None
      case Some((tag, q)) => Some((Literal(text, tag), q))
  }

  /** The colon of a prefixed name, if only prefix characters come before it. */
  function PrefixEnd(s: string, pos: nat): (r: Option<nat>)
    requires pos <= |s|
    ensures r.Some? ==> pos <= r.value < |s|
    decreases |s| - pos
  {
    if pos == |s| then None
    else if s[pos] == ':' then Some(pos)
    else if LabelStop(s[pos]) then None
    else PrefixEnd(s, pos + 1)
  }

  function ReadPrefixed(s: string, pos: nat): (r: Reading<(string, string)>)
    requires pos <= |s|
    ensures r.Some? ==> pos < r.value.1 <= |s|
  {
    match PrefixEnd(s, pos)
    case None => None
    case Some(colon) =>
      var end := LabelEnd(s, colon + 1);
      Some(((s[pos..colon], s[colon + 1..end]), end))
  }

  function AsUri(r: Reading<string>): Reading<Term> {
    match r case None => None case Some((iri, p)) => Some((Uri(iri), p))
  }

  /** N-Triples has no prefixes; the reader takes the local part for the IRI. */
  function ReadLocal(s: string, pos: nat): (r: Reading<Term>)
    requires pos <= |s|
    ensures r.Some? ==> pos < r.value.1 <= |s|
  {
    match ReadPrefixed(s, pos) case None => None case Some((name, p)) => Some((Uri(name.1), p))
  }

  // ---------------------------------------------------------------- reading N-Triples

  function ReadSubject(s: string, pos: nat): (r: Reading<Term>)
    ensures r.Some? ==> pos < r.value.1 <= |s|
  {
    if pos >= |s| then None
    else if s[pos] == '<' then AsUri(ReadIri(s, pos))
    else if s[pos] == '_' then ReadBlank(s, pos)
    else if Letter(s[pos]) || s[pos] == ':' then ReadLocal(s, pos)
    else None
  }

  /** The keyword `a`: on its own, or before white space. */
  predicate TypeKeyword(s: string, pos: nat) { Is(s, pos, 'a') && (pos + 1 < |s| ==> Space(s[pos + 1])) }

  function ReadPredicate(s: string, pos: nat): (r: Reading<Term>)
    ensures r.Some? ==> pos < r.value.1 <= |s|
  {
    if pos >= |s| then None
    else if TypeKeyword(s, pos) then Some((Uri(RDF_TYPE), pos + 1))
    else if s[pos] == '<' then AsUri(ReadIri(s, pos))
    else if Letter(s[pos]) || s[pos] == ':' then ReadLocal(s, pos)
    else None
  }

  function ReadObject(s: string, pos: nat): (r: Reading<Term>)
    ensures r.Some? ==> pos < r.value.1 <= |s|
  {
    if Is(s, pos, '"') || Is(s, pos, '\'') then ReadLiteral(s, pos) else ReadSubject(s, pos)
  }

  type TermReader = (string, nat) -> Reading<Term>

  /** Three terms and a dot; whatever follows the dot is ignored. */
  function ReadParts(line: string, subject: TermReader, verb: TermReader, object': TermReader): Option<Triple> {
    match subject(line, SkipSpace(line, 0))
    case None => None
    case Some((s, p)) =>
      match verb(line, SkipSpace(line, p))
      case None => None
      case Some((v, q)) =>
        match object'(line, SkipSpace(line, q))
        case None => None
        case Some((o, r)) => if Is(line, SkipSpace(line, r), '.') then Some(Triple(s, v, o)) else None
  }

  function ReadLine(line: string): Option<Triple> { ReadParts(line, ReadSubject, ReadPredicate, ReadObject) }

  function LineEnd(s: string): (r: nat)
    ensures r <= |s| && (r < |s| ==> s[r] == '\n') && '\n' !in s[..r]
  {
    if s == "" || s[0] == '\n' then 0
    else
      var r := LineEnd(s[1..]);
      assert s[..1 + r] == [s[0]] + s[1..][..r];
      1 + r
  }

  /** `str::lines`, except that a carriage return at the end of a line is left for `Trim`. */
  function Lines(s: string): seq<string>
    decreases |s|, 1
  {
    if s == "" then [] else LinesFrom(s, LineEnd(s))
  }

  function LinesFrom(s: string, end: nat): seq<string>
    requires s != "" && end <= |s|
    decreases |s|, 0
  {
    if end == |s| then [s] else [s[..end]] + Lines(s[end + 1..])
  }

  function TrimEnd(s: string): string {
    if s != "" && Space(s[|s| - 1]) then TrimEnd(s[..|s| - 1]) else s
  }

  function Trim(s: string): string { TrimEnd(s[SkipSpace(s, 0)..]) }

  /** Nothing for a blank line or a comment; the error is the number of the line. */
  function ReadRaw(raw: string, number: nat): Result<seq<Triple>, nat> {
    var line := Trim(raw);
    if line == "" || line[0] == '#' then Ok([])
    else match ReadLine(line) case None => Err(number) case Some(t) => Ok([t])
  }

  function Then(r: Result<seq<Triple>, nat>, next: Result<seq<Triple>, nat>): Result<seq<Triple>, nat> {
    if r.Err? then r else if next.Err? then next else Ok(r.value + next.value)
  }

  type LineReader = (string, nat) -> Result<seq<Triple>, nat>

  function ReadLines(lines: seq<string>, number: nat, read: LineReader): Result<seq<Triple>, nat> {
    if lines == [] then Ok([]) else Then(read(lines[0], number), ReadLines(lines[1..], number + 1, read))
  }

  function ReadNTriples(s: string): Result<seq<Triple>, nat> { ReadLines(Lines(s), 1, ReadRaw) }
}
