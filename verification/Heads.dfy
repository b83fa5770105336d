/**
 Message heads: reading a header block off the wire, parsing it, and printing it.
 */
module Heads {
  import opened Basics
  import opened PyText
  import opened Streams
  import opened Headers

  const MAX_HEADER_BYTES := 65536
  const MAX_HEADER_COUNT := 200

  datatype Request = Request(verb: string, target: string, version: string, fields: seq<Field>)

  datatype Response = Response(version: string, status: int, reason: string, fields: seq<Field>)

  // ------------------------------------------------------------------ printing

  function ShowField(f: Field): string {
    f.name + ": " + f.value + "\r\n"
  }

  function ShowFields(fs: seq<Field>): string {
    if fs == [] then "" else ShowField(fs[0]) + ShowFields(fs[1..])
  }

  /** The request line; an empty `target` means the one in the head. */
  function RequestLine(r: Request, target: string): string {
    r.verb + " " + (if target == "" then r.target else target) + " " + r.version + "\r\n"
  }

  function ShowRequest(r: Request, target: string): string {
    RequestLine(r, target) + ShowFields(r.fields) + "\r\n"
  }

  function StatusLine(r: Response): string {
    r.version + " " + ShowInt(r.status) + " " + r.reason + "\r\n"
  }

  function ShowResponse(r: Response): string {
    StatusLine(r) + ShowFields(r.fields) + "\r\n"
  }

  // ------------------------------------------------------------ header blocks

  /** The lines of a header block (None for a protocol error) and what follows it. */
  datatype Block = Block(lines: Option<seq<string>>, rest: string)

  function ScanBlock(input: string, lines: seq<string>, total: nat): (b: Block)
    ensures |b.rest| <= |input|
    ensures b.lines.Some? && b.lines.value != [] && lines == [] ==> |b.rest| < |input|
    decreases |input|
  {
    var line := Line(input);
    var rest := input[|line|..];
    if line == "" then Block(if lines == [] then Some([]) else None, rest)
    else if total + |line| > MAX_HEADER_BYTES then Block(None, rest)
    else if IsBlank(line) then Block(Some(lines), rest)
    else if lines == [] && All(line, ByteSpace) then ScanBlock(rest, lines, total + |line|)
    else if |lines| + 1 > MAX_HEADER_COUNT then Block(None, rest)
    else ScanBlock(rest, lines + [line], total + |line|)
  }

  /** A line that a header block holds rather than ends with. */
  predicate IsContent(line: string) {
    IsLine(line) && !IsBlank(line)
  }

  predicate AreContent(lines: seq<string>) {
    forall line :: line in lines ==> IsContent(line)
  }

  function Concat(parts: seq<string>): string {
    if parts == [] then "" else parts[0] + Concat(parts[1..])
  }

  lemma ScanBlankLine(suffix: string, lines: seq<string>, total: nat)
    ensures ScanBlock("\r\n" + suffix, lines, total) ==
      if total + 2 <= MAX_HEADER_BYTES then Block(Some(lines), suffix) else Block(None, suffix)
  {
    var blank := "\r\n";
    assert IsLine(blank);
    LineOfLine(blank, suffix);
    assert (blank + suffix)[|blank|..] == suffix;
  }

  lemma ScanContentLine(line: string, rest: string, lines: seq<string>, total: nat)
    requires IsContent(line) && |lines| < MAX_HEADER_COUNT
    requires lines == [] ==> !All(line, ByteSpace)
    ensures ScanBlock(line + rest, lines, total) ==
      if total + |line| <= MAX_HEADER_BYTES then ScanBlock(rest, lines + [line], total + |line|) else Block(None, rest)
  {
    LineOfLine(line, rest);
    assert (line + rest)[|line|..] == rest;
  }

  /** A printed block is read back line by line exactly when it fits the size limit. */
  lemma {:induction false} ScanPrinted(lines: seq<string>, suffix: string, acc: seq<string>, total: nat)
    requires AreContent(lines) && |acc| + |lines| <= MAX_HEADER_COUNT
    requires acc == [] && lines != [] ==> !All(lines[0], ByteSpace)
    ensures var b := ScanBlock(Concat(lines) + "\r\n" + suffix, acc, total);
      if total + |Concat(lines)| + 2 <= MAX_HEADER_BYTES
      then b == Block(Some(acc + lines), suffix)
      else b.lines == None
    decreases |lines|
  {
    if lines == [] {
      ScanBlankLine(suffix, acc, total);
      assert Concat(lines) + "\r\n" + suffix == "\r\n" + suffix;
      assert acc + lines == acc;
    } else {
      ScanPrintedLine(lines, suffix, acc, total);
      if total + |lines[0]| <= MAX_HEADER_BYTES {
        ScanPrinted(lines[1..], suffix, acc + [lines[0]], total + |lines[0]|);
      }
    }
  }

  lemma ScanPrintedLine(lines: seq<string>, suffix: string, acc: seq<string>, total: nat)
    requires lines != [] && AreContent(lines) && |acc| + |lines| <= MAX_HEADER_COUNT
    requires acc == [] ==> !All(lines[0], ByteSpace)
    ensures var others := Concat(lines[1..]) + "\r\n" + suffix;
      ScanBlock(Concat(lines) + "\r\n" + suffix, acc, total) ==
      if total + |lines[0]| <= MAX_HEADER_BYTES then ScanBlock(others, acc + [lines[0]], total + |lines[0]|)
      else Block(None, others)
    ensures acc + [lines[0]] + lines[1..] == acc + lines && AreContent(lines[1..])
  {
    assert IsContent(lines[0]);
    PrintedCons(lines, suffix, acc);
    ScanContentLine(lines[0], Concat(lines[1..]) + "\r\n" + suffix, acc, total);
  }

  lemma PrintedCons(lines: seq<string>, suffix: string, acc: seq<string>)
    requires lines != []
    ensures Concat(lines) + "\r\n" + suffix == lines[0] + (Concat(lines[1..]) + "\r\n" + suffix)
    ensures acc + lines == acc + [lines[0]] + lines[1..]
  {
    SeqAssoc(lines[0], Concat(lines[1..]), "\r\n");
    SeqAssoc(lines[0], Concat(lines[1..]) + "\r\n", suffix);
    SeqAssoc(acc, [lines[0]], lines[1..]);
    assert [lines[0]] + lines[1..] == lines;
  }

  lemma ContentSnoc(lines: seq<string>, line: string)
    requires AreContent(lines) && IsContent(line)
    ensures AreContent(lines + [line])
  {
  }

  /** Every line a scan returns is a terminated line, and none of them is blank. */
  lemma {:induction false} ScanContent(input: string, lines: seq<string>, total: nat)
    requires AreContent(lines) && |lines| <= MAX_HEADER_COUNT
    ensures var b := ScanBlock(input, lines, total);
      b.lines.Some? ==> AreContent(b.lines.value) && |b.lines.value| <= MAX_HEADER_COUNT
    decreases |input|
  {
    var line := Line(input);
    var rest := input[|line|..];
    if line != "" && total + |line| <= MAX_HEADER_BYTES && !IsBlank(line) {
      LineShape(input);
      if lines == [] && All(line, ByteSpace) {
        ScanContent(rest, lines, total + |line|);
      } else if |lines| + 1 <= MAX_HEADER_COUNT {
        if IsLine(line) {
          ContentSnoc(lines, line);
          ScanContent(rest, lines + [line], total + |line|);
        } else {
          assert rest == "";
          assert ScanBlock(rest, lines + [line], total + |line|).lines == None;
        }
      }
    }
  }

  // ------------------------------------------------------------------- parsing

  predicate IsFold(line: string) {
    line != "" && (line[0] == ' ' || line[0] == '\t')
  }

  /** The list after one more header line, or None for a malformed line. */
  function AddLine(fs: seq<Field>, raw: string): Option<seq<Field>> {
    var line := TrimRight(raw, LineEnd);
    if IsFold(line) && fs != [] then
      var last := fs[|fs| - 1];
      Some(fs[..|fs| - 1] + [last.(value := last.value + " " + Strip(line))])
    else
      match Cut(line, ':')
      case None => None
      case Some((name, value)) => Some(fs + [Field(Strip(name), Strip(value))])
  }

  function ParseFields(lines: seq<string>, fs: seq<Field>): Option<seq<Field>> {
    if lines == [] then Some(fs)
    else match AddLine(fs, lines[0])
      case None => None
      case Some(next) => ParseFields(lines[1..], next)
  }

  /** A field that some header lines can produce. */
  predicate Accepted(f: Field) {
    Trimmed(f.name, Space) && ':' !in f.name && Unterminated(f.name) && Unterminated(f.value)
  }

  predicate AllAccepted(fs: seq<Field>) {
    forall f :: f in fs ==> Accepted(f)
  }

  /** A field whose value carries no white space margin: folding alone can add one. */
  predicate Normal(f: Field) {
    Accepted(f) && Trimmed(f.value, Space)
  }

  predicate AllNormal(fs: seq<Field>) {
    forall f :: f in fs ==> Normal(f)
  }

  function Normalised(fs: seq<Field>): (r: seq<Field>)
    ensures |r| == |fs| && forall i :: 0 <= i < |fs| ==> r[i] == Field(fs[i].name, Strip(fs[i].value))
  {
    seq(|fs|, i requires 0 <= i < |fs| => Field(fs[i].name, Strip(fs[i].value)))
  }

  lemma StripUnterminated(s: string)
    requires Unterminated(s)
    ensures Unterminated(Strip(s)) && Trimmed(Strip(s), Space)
  {
    var a, b := TrimMargins(s, Space);
  }

  lemma CutUnterminated(s: string, c: char)
    requires Unterminated(s) && Cut(s, c).Some?
    ensures Unterminated(Cut(s, c).value.0) && Unterminated(Cut(s, c).value.1)
  {
  }

  /** The text of a header line: without its end, so without any LF. */
  lemma LineText(raw: string)
    requires IsLine(raw)
    ensures Unterminated(TrimRight(raw, LineEnd)) && |TrimRight(raw, LineEnd)| < |raw|
  {
    var init := raw[..|raw| - 1];
    assert LineEnd.Has(raw[|raw| - 1]);
    assert TrimRight(raw, LineEnd) == TrimRight(init, LineEnd);
    var tail := TrimRightMargin(init, LineEnd);
  }

  lemma AddLineAccepts(fs: seq<Field>, raw: string)
    requires AllAccepted(fs) && IsLine(raw) && AddLine(fs, raw).Some?
    ensures AllAccepted(AddLine(fs, raw).value) && |AddLine(fs, raw).value| <= |fs| + 1
  {
    var line := TrimRight(raw, LineEnd);
    LineText(raw);
    StripUnterminated(line);
    if IsFold(line) && fs != [] {
      assert Accepted(fs[|fs| - 1]);
    } else {
      CutUnterminated(line, ':');
      var (name, value) := Cut(line, ':').value;
      StripUnterminated(name);
      StripUnterminated(value);
      var a, b := TrimMargins(name, Space);
    }
  }

  lemma {:induction false} ParseAccepts(lines: seq<string>, fs: seq<Field>)
    requires AllAccepted(fs) && AreContent(lines) && ParseFields(lines, fs).Some?
    ensures AllAccepted(ParseFields(lines, fs).value) && |ParseFields(lines, fs).value| <= |fs| + |lines|
    decreases |lines|
  {
    if lines != [] {
      assert IsContent(lines[0]);
      AddLineAccepts(fs, lines[0]);
      ParseAccepts(lines[1..], AddLine(fs, lines[0]).value);
    }
  }

  lemma UnterminatedConcat(a: string, b: string)
    ensures Unterminated(a + b) <==> Unterminated(a) && Unterminated(b)
  {
  }

  /** Text free of LF, closed by CRLF, is one line; it is blank only when empty. */
  lemma PrintedLine(text: string)
    requires Unterminated(text)
    ensures IsLine(text + "\r\n") && (text != "" ==> !IsBlank(text + "\r\n"))
  {
    var raw := text + "\r\n";
    assert raw[..|raw| - 1] == text + "\r";
    UnterminatedConcat(text, "\r");
  }

  lemma PrintedFieldIsContent(f: Field)
    requires Accepted(f)
    ensures IsContent(ShowField(f))
  {
    UnterminatedConcat(f.name, ": ");
    UnterminatedConcat(f.name + ": ", f.value);
    PrintedLine(f.name + ": " + f.value);
  }

  /** The text of a printed field, as far as the end of the line. */
  lemma PrintedFieldText(f: Field) returns (ending: string)
    requires Accepted(f)
    ensures TrimRight(ShowField(f), LineEnd) == f.name + [':'] + ending && !IsFold(f.name + [':'] + ending)
    ensures Strip(ending) == Strip(f.value)
  {
    var head := f.name + ": ";
    var tail := f.value + "\r\n";
    var raw := ShowField(f);
    assert raw == head + tail;
    TrimRightKeeps(head, tail, LineEnd);
    ending := " " + TrimRight(tail, LineEnd);
    assert head + TrimRight(tail, LineEnd) == f.name + [':'] + ending;
    assert (f.name + [':'] + ending)[0] == if f.name == "" then ':' else f.name[0];
    StripPrintedValue(f.value, TrimRight(tail, LineEnd));
  }

  lemma LineEndsAreSpace(s: string)
    requires All(s, LineEnd)
    ensures All(s, Space)
  {
    assert forall i :: 0 <= i < |s| ==> LineEnd.Has(s[i]);
  }

  lemma StripPrintedValue(value: string, ending: string)
    requires ending == TrimRight(value + "\r\n", LineEnd)
    ensures Strip(" " + ending) == Strip(value)
  {
    var breaks := "\r\n";
    var tail := TrimRightMargin(value + breaks, LineEnd);
    LineEndsAreSpace(breaks);
    LineEndsAreSpace(tail);
    TrimUniqueRight(ending, tail, Space);
    TrimUniqueRight(value, breaks, Space);
    TrimUniqueLeft(" ", ending, Space);
  }

  /** A printed field is one header line, and parsing it appends the field, trimmed. */
  lemma ParsePrintedField(fs: seq<Field>, f: Field)
    requires Accepted(f)
    ensures AddLine(fs, ShowField(f)) == Some(fs + [Field(f.name, Strip(f.value))])
  {
    var ending := PrintedFieldText(f);
    CutFirst(f.name, ':', ending);
    TrimIdempotent(f.name, Space);
  }

  function FieldLines(fs: seq<Field>): (lines: seq<string>)
    ensures |lines| == |fs| && forall i :: 0 <= i < |fs| ==> lines[i] == ShowField(fs[i])
  {
    seq(|fs|, i requires 0 <= i < |fs| => ShowField(fs[i]))
  }

  lemma ConcatFieldLines(fs: seq<Field>)
    ensures Concat(FieldLines(fs)) == ShowFields(fs)
  {
    if fs != [] {
      ConcatFieldLines(fs[1..]);
      assert FieldLines(fs)[1..] == FieldLines(fs[1..]);
    }
  }

  lemma FieldLinesContent(fs: seq<Field>)
    requires AllAccepted(fs)
    ensures AreContent(FieldLines(fs))
  {
    forall i | 0 <= i < |fs|
      ensures IsContent(FieldLines(fs)[i])
    {
      assert Accepted(fs[i]);
      PrintedFieldIsContent(fs[i]);
    }
  }

  lemma NormalisedCons(fs: seq<Field>)
    requires fs != []
    ensures Normalised(fs) == [Field(fs[0].name, Strip(fs[0].value))] + Normalised(fs[1..])
  {
  }

  lemma ParseFirstPrinted(fs: seq<Field>, acc: seq<Field>)
    requires fs != [] && Accepted(fs[0])
    ensures ParseFields(FieldLines(fs), acc) ==
      ParseFields(FieldLines(fs[1..]), acc + [Field(fs[0].name, Strip(fs[0].value))])
  {
    ParsePrintedField(acc, fs[0]);
    assert FieldLines(fs)[1..] == FieldLines(fs[1..]);
  }

  /** Parsing printed fields gives them back, in order, with trimmed values. */
  lemma {:induction false} ParsePrinted(fs: seq<Field>, acc: seq<Field>)
    requires AllAccepted(fs)
    ensures ParseFields(FieldLines(fs), acc) == Some(acc + Normalised(fs))
    decreases |fs|
  {
    if fs == [] {
      assert acc + Normalised(fs) == acc;
    } else {
      var first := [Field(fs[0].name, Strip(fs[0].value))];
      assert Accepted(fs[0]);
      ParseFirstPrinted(fs, acc);
      ParsePrinted(fs[1..], acc + first);
      NormalisedCons(fs);
      SeqAssoc(acc, first, Normalised(fs[1..]));
    }
  }

  lemma NormalisedNormal(fs: seq<Field>)
    requires AllAccepted(fs)
    ensures AllNormal(Normalised(fs))
  {
    forall i | 0 <= i < |fs|
      ensures Normal(Normalised(fs)[i])
    {
      assert Accepted(fs[i]);
      StripUnterminated(fs[i].value);
    }
  }

  lemma NormalisedIdentity(fs: seq<Field>)
    requires AllNormal(fs)
    ensures Normalised(fs) == fs
  {
    forall i | 0 <= i < |fs|
      ensures Normalised(fs)[i] == fs[i]
    {
      assert Normal(fs[i]);
      TrimIdempotent(fs[i].value, Space);
    }
  }
}
