/**
 Which framing a head announces, case by case, and what the tee keeps of a body.
 */
module FramingCases {
  import opened Basics
  import opened PyText
  import opened TextTheorems
  import opened Headers
  import opened HeaderTheorems
  import opened Bodies

  // ------------------------------------------------------------ declared lengths

  lemma ShownTrimmed(n: int)
    ensures var s := ShowInt(n); s != "" && Trimmed(s, Space) && Strip(s) == s && ',' !in s
  {
    var s := ShowInt(n);
    ShowIntShape(n);
    assert s[0] == '-' || IsDigit(s[0]);
    assert s[|s| - 1] == '-' || IsDigit(s[|s| - 1]);
    TrimIdempotent(s, Space);
  }

  lemma NoCut(s: string, c: char)
    requires c !in s
    ensures FirstPart(s, c) == s
  {
  }

  /** A length value is the decimal number it spells, whatever white space is around it. */
  lemma LengthDeclared(a: string, n: int, b: string)
    requires All(a, Space) && All(b, Space)
    ensures DeclaredLength(a + ShowInt(n) + b) == Some(n)
  {
    ShownTrimmed(n);
    TrimUnique(a, ShowInt(n), b, Space);
    NoCut(ShowInt(n), ',');
    ShowIntRoundTrip(n);
  }

  lemma StripToComma(a: string, s: string, tail: string)
    requires All(a, Space) && s != "" && !IsSpace(s[0])
    ensures Strip(a + (s + "," + tail)) == s + "," + TrimRight(tail, Space)
  {
    var x := s + "," + tail;
    TrimUniqueLeft(a, x, Space);
    assert x[0] == s[0];
    assert TrimLeft(x, Space) == x;
    var head := s + ",";
    assert head[|head| - 1] == ',';
    TrimRightKeeps(head, tail, Space);
  }

  lemma NothingBefore(s: string, b: string)
    ensures "" + s + b == s + b
  {
  }

  /** Of a list of lengths only the first counts. */
  lemma FirstLengthDeclared(a: string, n: int, b: string, tail: string)
    requires All(a, Space) && All(b, ByteSpace)
    ensures DeclaredLength(a + (ShowInt(n) + b + "," + tail)) == Some(n)
  {
    var s := ShowInt(n) + b;
    ShownTrimmed(n);
    assert s[0] == ShowInt(n)[0];
    StripToComma(a, s, tail);
    NotInMargin(b, ByteSpace, ',');
    CutFirst(s, ',', TrimRight(tail, Space));
    SpacedNumberRead("", n, b);
    NothingBefore(ShowInt(n), b);
  }

  // ------------------------------------------------------------------ the framing

  /** A response to HEAD, or of status 204, 304 or 1xx, has no body, whatever its fields say. */
  lemma BodilessFramed(fs: seq<Field>, status: int, verb: string)
    requires status == 204 || status == 304 || 100 <= status <= 199 || Lower(verb) == "head"
    ensures FramingOf(fs, OfResponse(status, verb)) == Some(NoBody)
  {
  }

  /** The message is one whose fields decide: a request, or a response not excluded by status or method. */
  predicate FieldsDecide(role: Role) {
    role.OfResponse? ==>
      role.status != 204 && role.status != 304 && !(100 <= role.status <= 199) && Lower(role.verb) != "head"
  }

  /** Chunking wins over any length. */
  lemma ChunkedFramed(fs: seq<Field>, role: Role)
    requires FieldsDecide(role) && FirstSays(fs, "transfer-encoding", "chunked")
    ensures FramingOf(fs, role) == Some(Chunked)
  {
    TransferNames();
    FirstSaysIff(fs, "transfer-encoding", "chunked");
  }

  lemma TransferNames()
    ensures Lower("transfer-encoding") == "transfer-encoding" && Lower("content-length") == "content-length"
  {
  }

  lemma NotChunked(fs: seq<Field>)
    requires !FirstSays(fs, "transfer-encoding", "chunked")
    ensures !SaysChunked(fs)
  {
    TransferNames();
    FirstSaysIff(fs, "transfer-encoding", "chunked");
  }

  /** Otherwise the first length field decides, in any letter case of its name: a number, or a protocol error. */
  lemma LengthFramed(fs: seq<Field>, role: Role, i: nat)
    requires FieldsDecide(role) && !FirstSays(fs, "transfer-encoding", "chunked") && FirstAt(fs, "content-length", i)
    ensures FramingOf(fs, role) ==
      match DeclaredLength(fs[i].value) case Some(n) => Some(Sized(n)) case None => None
  {
    NotChunked(fs);
    TransferNames();
    GetFirst(fs, "content-length", i);
  }

  /** So a printed number frames that many bytes. */
  lemma NumberFramed(fs: seq<Field>, role: Role, i: nat, a: string, n: int, b: string)
    requires FieldsDecide(role) && !FirstSays(fs, "transfer-encoding", "chunked") && FirstAt(fs, "content-length", i)
    requires All(a, Space) && All(b, Space) && fs[i].value == a + ShowInt(n) + b
    ensures FramingOf(fs, role) == Some(Sized(n))
  {
    LengthFramed(fs, role, i);
    LengthDeclared(a, n, b);
  }

  /** With neither field a response lasts to the end of the connection and a request has no body. */
  lemma UnannouncedFramed(fs: seq<Field>, role: Role)
    requires FieldsDecide(role) && !FirstSays(fs, "transfer-encoding", "chunked") && Absent(fs, "content-length")
    ensures FramingOf(fs, role) == Some(if role.OfResponse? then UntilEof else NoBody)
  {
    NotChunked(fs);
    TransferNames();
    var i := GetMeaning(fs, "content-length");
  }

  /** A length that holds a character no number has is a protocol error. */
  lemma BadLengthRefused(fs: seq<Field>, role: Role, i: nat, k: nat)
    requires FieldsDecide(role) && !FirstSays(fs, "transfer-encoding", "chunked") && FirstAt(fs, "content-length", i)
    requires k < |fs[i].value| && ',' !in fs[i].value
    requires var c := fs[i].value[k]; !IsDigitOf(c, 10) && c != '_' && c != '+' && c != '-' && !IsSpace(c)
    ensures FramingOf(fs, role) == None
  {
    LengthFramed(fs, role, i);
    NotANumber(fs[i].value, k);
  }

  lemma NotANumber(value: string, k: nat)
    requires k < |value| && ',' !in value
    requires var c := value[k]; !IsDigitOf(c, 10) && c != '_' && c != '+' && c != '-' && !IsSpace(c)
    ensures DeclaredLength(value) == None
  {
    var c := value[k];
    var i := TrimKeepsOthers(value, k, Space);
    var s := Strip(value);
    assert ',' !in s by { var a, b := TrimMargins(value, Space); }
    NoCut(s, ',');
    var t := if IsAscii(s) then Trim(s, ByteSpace) else Strip(s);
    var j := TrimKeepsOthers(s, i, if IsAscii(s) then ByteSpace else Space);
    if t[0] == '+' || t[0] == '-' {
      assert t[1..][j - 1] == c;
      BadDigitRejected(t[1..], 10, j - 1);
    } else {
      BadDigitRejected(t, 10, j);
    }
  }

  // --------------------------------------------------------------- chunks and the tee

  /** An empty chunk size, extension or not, counts as the last chunk. */
  lemma EmptySizeIsLast(ext: string)
    ensures ChunkSize("\r\n") == Some(0) && ChunkSize(";" + ext) == Some(0)
  {
    NoCut("\r\n", ';');
    TrimUnique("\r\n", "", "", ByteSpace);
    assert "\r\n" + "" + "" == "\r\n";
    CutFirst("", ';', ext);
    assert "" + [';'] + ext == ";" + ext;
  }

  /** What is captured is the longest prefix that the limit allows, nothing for a limit of zero or less. */
  lemma CapturedMeaning(payload: string, limit: int)
    ensures Captured(payload, limit) <= payload
    ensures limit <= 0 ==> Captured(payload, limit) == ""
    ensures limit >= 0 && |payload| <= limit ==> Captured(payload, limit) == payload
    ensures 0 <= limit < |payload| ==> |Captured(payload, limit)| == limit
  {
  }
}
