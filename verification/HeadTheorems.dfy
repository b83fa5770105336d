/**
 What header lines, folds, first lines and header blocks are read as, line by line.
 */
module HeadTheorems {
  import opened Basics
  import opened PyText
  import opened Streams
  import opened Headers
  import opened Heads
  import opened HeadReading

  // ---------------------------------------------------------------- header lines

  /** How a line ends on the wire. */
  predicate IsLineEnd(e: string) {
    e == "\r\n" || e == "\n"
  }

  /** The text of a line as far as its end, with its white space margin. */
  lemma LineEndTrimmed(head: string, text: string, e: string)
    requires IsLineEnd(e) && head != "" && !LineEnd.Has(head[|head| - 1])
    ensures TrimRight(head + text + e, LineEnd) == head + TrimRight(text + e, LineEnd)
    ensures Strip(TrimRight(text + e, LineEnd)) == Strip(text)
  {
    SeqAssoc(head, text, e);
    TrimRightKeeps(head, text + e, LineEnd);
    var ending := TrimRight(text + e, LineEnd);
    var tail := TrimRightMargin(text + e, LineEnd);
    LineEndsAreSpace(e);
    LineEndsAreSpace(tail);
    TrimUniqueRight(ending, tail, Space);
    TrimUniqueRight(text, e, Space);
  }

  /** A line that is no fold adds the field it spells, name and value trimmed; so does one before any field. */
  lemma HeaderLineParsed(fs: seq<Field>, name: string, value: string, e: string)
    requires ':' !in name && IsLineEnd(e)
    requires fs == [] || name == "" || (name[0] != ' ' && name[0] != '\t')
    ensures AddLine(fs, name + ":" + value + e) == Some(fs + [Field(Strip(name), Strip(value))])
  {
    var head := name + ":";
    LineEndTrimmed(head, value, e);
    var ending := TrimRight(value + e, LineEnd);
    var line := name + [':'] + ending;
    assert head + value + e == name + ":" + value + e;
    assert line == head + ending;
    assert line[0] == if name == "" then ':' else name[0];
    CutFirst(name, ':', ending);
  }

  /** A line without a colon is refused, unless it folds a field. */
  lemma NoColonRefused(fs: seq<Field>, text: string, e: string, more: seq<string>)
    requires ':' !in text && IsLineEnd(e)
    requires fs == [] || text == "" || (text[0] != ' ' && text[0] != '\t')
    ensures ParseFields([text + e] + more, fs) == None
  {
    var tail := TrimRightMargin(text + e, LineEnd);
    var line := TrimRight(text + e, LineEnd);
    assert line <= text + e;
    assert ':' !in line;
    assert line != "" && IsFold(line) ==> text != "" && line[0] == text[0];
  }

  // ----------------------------------------------------------------------- folds

  /** An obsolete fold: a line that begins with white space and continues the field before it. */
  datatype Fold = Fold(mark: char, text: string, ending: string)

  predicate IsFoldLine(f: Fold) {
    (f.mark == ' ' || f.mark == '\t') && IsLineEnd(f.ending)
  }

  function ShowFold(f: Fold): string {
    [f.mark] + f.text + f.ending
  }

  /** A value with the trimmed continuations after it, one space before each. */
  function FoldedValue(value: string, folds: seq<Fold>): string {
    if folds == [] then value
    else FoldedValue(value, folds[..|folds| - 1]) + " " + Strip(folds[|folds| - 1].text)
  }

  function FoldLines(folds: seq<Fold>): (lines: seq<string>)
    ensures |lines| == |folds| && forall i :: 0 <= i < |folds| ==> lines[i] == ShowFold(folds[i])
  {
    seq(|folds|, i requires 0 <= i < |folds| => ShowFold(folds[i]))
  }

  /** A fold extends the value of the last field by a space and its trimmed text. */
  lemma FoldContinues(fs: seq<Field>, last: Field, fold: Fold)
    requires IsFoldLine(fold)
    ensures AddLine(fs + [last], ShowFold(fold)) ==
      Some(fs + [Field(last.name, last.value + " " + Strip(fold.text))])
  {
    LineEndTrimmed([fold.mark], fold.text, fold.ending);
    var ending := TrimRight(fold.text + fold.ending, LineEnd);
    TrimUniqueLeft([fold.mark], ending, Space);
    assert (fs + [last])[..|fs|] == fs;
  }

  lemma ParseOne(line: string, more: seq<string>, fs: seq<Field>)
    requires AddLine(fs, line).Some?
    ensures ParseFields([line] + more, fs) == ParseFields(more, AddLine(fs, line).value)
  {
    assert ([line] + more)[1..] == more;
  }

  lemma {:induction false} FoldsContinue(fs: seq<Field>, last: Field, folds: seq<Fold>, more: seq<string>)
    requires forall i :: 0 <= i < |folds| ==> IsFoldLine(folds[i])
    ensures ParseFields(FoldLines(folds) + more, fs + [last]) ==
      ParseFields(more, fs + [Field(last.name, FoldedValue(last.value, folds))])
    decreases |folds|
  {
    if folds == [] {
      assert FoldLines(folds) + more == more;
    } else {
      var init, fold := folds[..|folds| - 1], folds[|folds| - 1];
      FoldsContinue(fs, last, init, [ShowFold(fold)] + more);
      FoldContinues(fs, Field(last.name, FoldedValue(last.value, init)), fold);
      ParseOne(ShowFold(fold), more, fs + [Field(last.name, FoldedValue(last.value, init))]);
      LastFold(folds, more);
    }
  }

  lemma LastFold(folds: seq<Fold>, more: seq<string>)
    requires folds != []
    ensures FoldLines(folds) + more ==
      FoldLines(folds[..|folds| - 1]) + ([ShowFold(folds[|folds| - 1])] + more)
  {
    assert FoldLines(folds) == FoldLines(folds[..|folds| - 1]) + [ShowFold(folds[|folds| - 1])];
    SeqAssoc(FoldLines(folds[..|folds| - 1]), [ShowFold(folds[|folds| - 1])], more);
  }

  /**
   A field with any number of folds is read as one field: the trimmed first line and the
   trimmed continuations, joined by single spaces. Then parsing goes on.
   */
  lemma FoldedFieldParsed(fs: seq<Field>, name: string, value: string, e: string, folds: seq<Fold>, more: seq<string>)
    requires ':' !in name && IsLineEnd(e)
    requires fs == [] || name == "" || (name[0] != ' ' && name[0] != '\t')
    requires forall i :: 0 <= i < |folds| ==> IsFoldLine(folds[i])
    ensures ParseFields([name + ":" + value + e] + (FoldLines(folds) + more), fs) ==
      ParseFields(more, fs + [Field(Strip(name), FoldedValue(Strip(value), folds))])
  {
    HeaderLineParsed(fs, name, value, e);
    ParseOne(name + ":" + value + e, FoldLines(folds) + more, fs);
    FoldsContinue(fs, Field(Strip(name), Strip(value)), folds, more);
  }

  // ------------------------------------------------------------------- first lines

  lemma CutIff(text: string, before: string, after: string)
    ensures Cut(text, ' ') == Some((before, after)) <==> text == before + " " + after && ' ' !in before
  {
    if text == before + " " + after && ' ' !in before {
      CutFirst(before, ' ', after);
    }
  }

  lemma RequestTextIff(text: string, verb: string, target: string, version: string)
    ensures text == verb + " " + target + " " + version && ' ' !in verb && ' ' !in target <==>
      Cut(text, ' ').Some? && Cut(text, ' ').value.0 == verb && Cut(Cut(text, ' ').value.1, ' ') == Some((target, version))
  {
    var more := target + " " + version;
    assert verb + " " + target + " " + version == verb + " " + more;
    CutIff(text, verb, more);
    CutIff(more, target, version);
    if Cut(text, ' ').Some? {
      CutIff(Cut(text, ' ').value.1, target, version);
    }
  }

  /** Reading the first line of a request is undoing its three parts. */
  lemma RequestParsesIff(lines: seq<string>, r: Request)
    requires lines != []
    ensures ParseRequest(lines) == Head(r) <==>
      (&& TrimRight(lines[0], LineEnd) == r.verb + " " + r.target + " " + r.version
       && ' ' !in r.verb && ' ' !in r.target && |r.version| >= 5 && r.version[..5] == "HTTP/"
       && ParseFields(lines[1..], []) == Some(r.fields))
    ensures ParseRequest(lines) != Closed
  {
    RequestTextIff(TrimRight(lines[0], LineEnd), r.verb, r.target, r.version);
  }

  /** `text` is a status line with this status; the reason may be missing together with its space. */
  predicate IsStatusText(text: string, r: Response, status: string) {
    && ' ' !in r.version && ' ' !in status
    && (text == r.version + " " + status + " " + r.reason || (r.reason == "" && text == r.version + " " + status))
  }

  /** The version, the status and the reason of a status line. */
  function StatusParts(text: string): Option<(string, string, string)> {
    match Cut(text, ' ')
    case None => None
    case Some((version, more)) =>
      match Cut(more, ' ')
      case None => Some((version, more, ""))
      case Some((status, reason)) => Some((version, status, reason))
  }

  lemma StatusPartsCut(text: string, r: Response, status: string)
    requires StatusParts(text) == Some((r.version, status, r.reason))
    ensures IsStatusText(text, r, status)
  {
    var more := Cut(text, ' ').value.1;
    CutIff(text, r.version, more);
    if Cut(more, ' ').Some? {
      CutIff(more, status, r.reason);
      SeqAssoc(r.version + " ", status, " " + r.reason);
      SeqAssoc(r.version + " " + status, " ", r.reason);
      SeqAssoc(status, " ", r.reason);
    }
  }

  lemma StatusPartsJoin(text: string, r: Response, status: string)
    requires IsStatusText(text, r, status)
    ensures StatusParts(text) == Some((r.version, status, r.reason))
  {
    if text == r.version + " " + status + " " + r.reason {
      SeqAssoc(r.version + " ", status, " " + r.reason);
      SeqAssoc(r.version + " " + status, " ", r.reason);
      SeqAssoc(status, " ", r.reason);
      CutIff(text, r.version, status + " " + r.reason);
      CutIff(status + " " + r.reason, status, r.reason);
    } else {
      CutIff(text, r.version, status);
    }
  }

  /** Reading a status line is undoing its parts; the status is any number that `int` reads. */
  lemma ResponseParsesIff(lines: seq<string>, r: Response)
    requires lines != []
    ensures ParseResponse(lines) == Head(r) <==>
      ((exists status :: IsStatusText(TrimRight(lines[0], LineEnd), r, status) && IntOfText(status) == Some(r.status))
       && ParseFields(lines[1..], []) == Some(r.fields))
    ensures ParseResponse(lines) != Closed
  {
    var text := TrimRight(lines[0], LineEnd);
    var parts := StatusParts(text);
    if status :| IsStatusText(text, r, status) && IntOfText(status) == Some(r.status) {
      StatusPartsJoin(text, r, status);
    }
    if ParseResponse(lines) == Head(r) {
      StatusPartsCut(text, r, parts.value.1);
    }
  }

  // ----------------------------------------------------------------------- limits

  lemma {:induction false} TooManyLines(lines: seq<string>, suffix: string, acc: seq<string>, total: nat)
    requires AreContent(lines) && |acc| <= 200 < |acc| + |lines|
    requires acc == [] && lines != [] ==> !All(lines[0], ByteSpace)
    ensures ScanBlock(Concat(lines) + suffix, acc, total).lines == None
    decreases |lines|
  {
    var others := Concat(lines[1..]) + suffix;
    assert IsContent(lines[0]);
    SeqAssoc(lines[0], Concat(lines[1..]), suffix);
    LineOfLine(lines[0], others);
    SplitConcat(lines[0], others);
    ScanStep(lines[0] + others, lines[0], others, acc, total);
    if |acc| < 200 && total + |lines[0]| <= MAX_HEADER_BYTES {
      TooManyLines(lines[1..], suffix, acc + [lines[0]], total + |lines[0]|);
    }
  }

  /** A block of header lines is read exactly when it has at most 200 lines and 65536 bytes with its empty line. */
  lemma BlockReadIff(lines: seq<string>, suffix: string)
    requires AreContent(lines) && (lines != [] ==> !All(lines[0], ByteSpace))
    ensures var b := ScanBlock(Concat(lines) + "\r\n" + suffix, [], 0);
      if |lines| <= 200 && |Concat(lines)| + 2 <= 65536 then b == Block(Some(lines), suffix) else b.lines == None
  {
    if |lines| <= 200 {
      ScanPrinted(lines, suffix, [], 0);
      assert [] + lines == lines;
    } else {
      SeqAssoc(Concat(lines), "\r\n", suffix);
      TooManyLines(lines, "\r\n" + suffix, [], 0);
    }
  }

  /** Input that ends inside a header block is a protocol error. */
  lemma {:induction false} CutShort(lines: seq<string>, tail: string, acc: seq<string>, total: nat)
    requires AreContent(lines) && Unterminated(tail) && (acc != [] || lines != [])
    requires acc == [] ==> !All(lines[0], ByteSpace)
    ensures ScanBlock(Concat(lines) + tail, acc, total).lines == None
    decreases |lines|
  {
    if lines == [] {
      assert Concat(lines) + tail == tail;
      LineOfUnterminated(tail);
      assert tail[|tail|..] == "";
      ScanStep(tail, tail, "", acc, total);
      if tail != "" { ScanStep("", "", "", acc + [tail], total + |tail|); }
    } else {
      var others := Concat(lines[1..]) + tail;
      assert IsContent(lines[0]);
      SeqAssoc(lines[0], Concat(lines[1..]), tail);
      LineOfLine(lines[0], others);
      SplitConcat(lines[0], others);
      ScanStep(lines[0] + others, lines[0], others, acc, total);
      if |acc| < 200 && total + |lines[0]| <= MAX_HEADER_BYTES {
        CutShort(lines[1..], tail, acc + [lines[0]], total + |lines[0]|);
      }
    }
  }

  /** The end of the input before a head, or behind passed lines, is a clean close. */
  lemma EndCloses(total: nat)
    ensures ReadRequest("") == (Closed, "") && ReadResponse("") == (Closed, "")
    ensures ScanBlock("", [], total) == Block(Some([]), "")
  {
  }

  // ---------------------------------------------------------------------- printing

  /** How heads are printed: the first line, the fields, an empty line. A target given replaces the one in the head. */
  lemma HeadPrinted(r: Request, target: string, q: Response)
    ensures target != "" ==>
      ShowRequest(r, target) == r.verb + " " + target + " " + r.version + "\r\n" + ShowFields(r.fields) + "\r\n"
    ensures ShowRequest(r, "") == r.verb + " " + r.target + " " + r.version + "\r\n" + ShowFields(r.fields) + "\r\n"
    ensures ShowResponse(q) == q.version + " " + ShowInt(q.status) + " " + q.reason + "\r\n" + ShowFields(q.fields) + "\r\n"
  {
  }

  /** The fields are printed in order, a line each. */
  lemma {:induction false} ShowFieldsSnoc(fs: seq<Field>, f: Field)
    ensures ShowFields([]) == ""
    ensures ShowFields(fs + [f]) == ShowFields(fs) + (f.name + ": " + f.value + "\r\n")
  {
    var line := f.name + ": " + f.value + "\r\n";
    if fs == [] {
      assert fs + [f] == [f] && [f][1..] == [];
      assert line + "" == line && "" + line == line;
    } else {
      ConcatTail(fs, [f]);
      ShowFieldsSnoc(fs[1..], f);
      SeqAssoc(ShowField(fs[0]), ShowFields(fs[1..]), line);
    }
  }
}
