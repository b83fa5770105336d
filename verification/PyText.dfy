/**
 The Python text operations that the proxy applies to header text.

 A byte is modelled as the character Latin-1 decodes it to, so a byte string and
 its decoded text are the same `string`.
 */
module PyText {
  import opened Basics

  // ---------------------------------------------------------------- characters

  /** `str.lower` on one Latin-1 character. */
  function LowerChar(c: char): char {
    if 'A' <= c <= 'Z' || ('\U{C0}' <= c <= '\U{DE}' && c != '\U{D7}')
    then (c as int + 32) as char else c
  }

  function Lower(s: string): (r: string)
    ensures |r| == |s| && forall i :: 0 <= i < |s| ==> r[i] == LowerChar(s[i])
  {
    seq(|s|, i requires 0 <= i < |s| => LowerChar(s[i]))
  }

  /** ASCII white space: what `bytes.strip` removes. */
  predicate IsByteSpace(c: char) {
    c == ' ' || '\t' <= c <= '\r'
  }

  /** Unicode white space within Latin-1: what `str.strip` removes. */
  predicate IsSpace(c: char) {
    IsByteSpace(c) || '\U{1C}' <= c <= '\U{1F}' || c == '\U{85}' || c == '\U{A0}'
  }

  /** The three sets of characters that the proxy trims. */
  datatype Margin = Space | ByteSpace | LineEnd {
    predicate Has(c: char) {
      match this
      case Space => IsSpace(c)
      case ByteSpace => IsByteSpace(c)
      case LineEnd => c == '\r' || c == '\n'
    }
  }

  predicate All(s: string, m: Margin) {
    forall i :: 0 <= i < |s| ==> m.Has(s[i])
  }

  predicate IsAscii(s: string) {
    forall i :: 0 <= i < |s| ==> s[i] < '\U{80}'
  }

  // ------------------------------------------------------------------ trimming

  function TrimLeft(s: string, m: Margin): string {
    if s != "" && m.Has(s[0]) then TrimLeft(s[1..], m) else s
  }

  function TrimRight(s: string, m: Margin): string {
    if s != "" && m.Has(s[|s| - 1]) then TrimRight(s[..|s| - 1], m) else s
  }

  function Trim(s: string, m: Margin): string {
    TrimRight(TrimLeft(s, m), m)
  }

  function Strip(s: string): string {
    Trim(s, Space)
  }

  predicate Trimmed(s: string, m: Margin) {
    s == "" || (!m.Has(s[0]) && !m.Has(s[|s| - 1]))
  }

  lemma {:induction false} TrimLeftMargin(s: string, m: Margin) returns (a: string)
    ensures s == a + TrimLeft(s, m) && All(a, m)
    ensures TrimLeft(s, m) == "" || !m.Has(TrimLeft(s, m)[0])
  {
    a := "";
    if s != "" && m.Has(s[0]) {
      var first, tail := s[..1], s[1..];
      var rest := TrimLeftMargin(tail, m);
      assert s == first + tail;
      SeqAssoc(first, rest, TrimLeft(tail, m));
      a := first + rest;
    }
  }

  lemma {:induction false} TrimRightMargin(s: string, m: Margin) returns (b: string)
    ensures s == TrimRight(s, m) + b && All(b, m)
    ensures TrimRight(s, m) == "" || !m.Has(TrimRight(s, m)[|TrimRight(s, m)| - 1])
  {
    b := "";
    if s != "" && m.Has(s[|s| - 1]) {
      var init, last := s[..|s| - 1], s[|s| - 1..];
      var rest := TrimRightMargin(init, m);
      assert s == init + last;
      SeqAssoc(TrimRight(init, m), rest, last);
      b := rest + last;
    }
  }

  /** Trimming removes a margin on each side and leaves a trimmed text. */
  lemma TrimMargins(s: string, m: Margin) returns (a: string, b: string)
    ensures s == a + Trim(s, m) + b && All(a, m) && All(b, m)
    ensures Trimmed(Trim(s, m), m)
  {
    a := TrimLeftMargin(s, m);
    var l := TrimLeft(s, m);
    b := TrimRightMargin(l, m);
    assert a + l == a + Trim(s, m) + b;
    if Trim(s, m) != "" {
      assert l[0] == Trim(s, m)[0];
    }
  }

  lemma {:induction false} TrimLeftAll(a: string, s: string, m: Margin)
    requires All(a, m)
    ensures TrimLeft(a + s, m) == TrimLeft(s, m)
  {
    if a == "" {
      assert a + s == s;
    } else {
      assert (a + s)[0] == a[0] && (a + s)[1..] == a[1..] + s;
      TrimLeftAll(a[1..], s, m);
    }
  }

  lemma {:induction false} TrimRightAll(s: string, b: string, m: Margin)
    requires All(b, m)
    ensures TrimRight(s + b, m) == TrimRight(s, m)
  {
    if b == "" {
      assert s + b == s;
    } else {
      assert (s + b)[|s + b| - 1] == b[|b| - 1];
      assert (s + b)[..|s + b| - 1] == s + b[..|b| - 1];
      TrimRightAll(s, b[..|b| - 1], m);
    }
  }

  lemma TrimLeftAllGone(b: string, m: Margin)
    requires All(b, m)
    ensures TrimLeft(b, m) == ""
  {
    TrimLeftAll(b, "", m);
    assert b + "" == b;
  }

  /** Margins of trimmed characters do not influence the trimmed text. */
  lemma TrimUnique(a: string, s: string, b: string, m: Margin)
    requires All(a, m) && All(b, m)
    ensures Trim(a + s + b, m) == Trim(s, m)
  {
    var front := TrimLeftMargin(s, m);
    var l := TrimLeft(s, m);
    assert a + s + b == (a + front) + (l + b);
    TrimLeftAll(a + front, l + b, m);
    if l == "" {
      assert l + b == b;
      TrimLeftAllGone(b, m);
    } else {
      assert (l + b)[0] == l[0];
      TrimRightAll(l, b, m);
    }
  }

  lemma TrimUniqueLeft(a: string, s: string, m: Margin)
    requires All(a, m)
    ensures Trim(a + s, m) == Trim(s, m)
  {
    TrimUnique(a, s, "", m);
    assert a + s + "" == a + s;
  }

  lemma TrimUniqueRight(s: string, b: string, m: Margin)
    requires All(b, m)
    ensures Trim(s + b, m) == Trim(s, m)
  {
    TrimUnique("", s, b, m);
    assert "" + s + b == s + b;
  }

  lemma TrimRightKeeps(a: string, b: string, m: Margin)
    requires a != "" && !m.Has(a[|a| - 1])
    ensures TrimRight(a + b, m) == a + TrimRight(b, m)
  {
    var t := TrimRight(b, m);
    var tail := TrimRightMargin(b, m);
    assert a + b == (a + t) + tail;
    TrimRightAll(a + t, tail, m);
    assert (a + t)[|a + t| - 1] == if t == "" then a[|a| - 1] else t[|t| - 1];
  }

  /** Trimming keeps every character outside the margin set. */
  lemma TrimKeepsOthers(s: string, k: nat, m: Margin) returns (j: nat)
    requires k < |s| && !m.Has(s[k])
    ensures j < |Trim(s, m)| && Trim(s, m)[j] == s[k]
  {
    var a, b := TrimMargins(s, m);
    var t := Trim(s, m);
    assert forall i :: 0 <= i < |a| ==> s[i] == a[i];
    assert forall i :: |a| + |t| <= i < |s| ==> s[i] == b[i - |a| - |t|];
    assert |a| <= k < |a| + |t|;
    j := k - |a|;
  }

  lemma NotInMargin(s: string, m: Margin, c: char)
    requires All(s, m) && !m.Has(c)
    ensures c !in s
  {
  }

  lemma TrimIdempotent(s: string, m: Margin)
    requires Trimmed(s, m)
    ensures Trim(s, m) == s
  {
  }

  // ----------------------------------------------------------------- searching

  predicate OccursAt(s: string, sub: string, i: int) {
    0 <= i <= |s| - |sub| && forall k :: 0 <= k < |sub| ==> s[i + k] == sub[k]
  }

  /** `sub in s` */
  predicate Contains(s: string, sub: string) {
    exists i :: 0 <= i <= |s| - |sub| && OccursAt(s, sub, i)
  }

  predicate StartsWith(s: string, prefix: string) {
    |prefix| <= |s| && s[..|prefix|] == prefix
  }

  /** A word free of white space and of capitals. */
  predicate IsWord(sub: string) {
    sub != "" && forall i :: 0 <= i < |sub| ==> !IsSpace(sub[i]) && !('A' <= sub[i] <= 'Z')
  }

  lemma OccursPastMargin(a: string, s: string, b: string, sub: string, i: nat)
    requires OccursAt(Lower(s), sub, i)
    ensures OccursAt(Lower(a + s + b), sub, |a| + i)
  {
    var t := Lower(a + s + b);
    assert forall k :: 0 <= k < |s| ==> t[|a| + k] == Lower(s)[k];
    assert forall k :: 0 <= k < |sub| ==> sub[k] == Lower(s)[i + k] && t[|a| + i + k] == sub[k];
  }

  lemma OccursInside(a: string, s: string, b: string, sub: string, i: nat)
    requires All(a, Space) && All(b, Space) && IsWord(sub)
    requires OccursAt(Lower(a + s + b), sub, i)
    ensures |a| <= i && OccursAt(Lower(s), sub, i - |a|)
  {
    var whole := a + s + b;
    var t := Lower(whole);
    var last := |sub| - 1;
    assert t[i + 0] == sub[0] && t[i + last] == sub[last];
    assert !IsSpace(whole[i]) && !IsSpace(whole[i + last]);
    assert forall k :: 0 <= k < |a| ==> whole[k] == a[k];
    assert forall k :: |a| + |s| <= k < |whole| ==> whole[k] == b[k - |a| - |s|];
    assert |a| <= i && i + last < |a| + |s|;
    assert forall k :: 0 <= k < |s| ==> t[|a| + k] == Lower(s)[k];
    assert forall k :: 0 <= k < |sub| ==> sub[k] == t[i + k] && Lower(s)[i - |a| + k] == sub[k];
  }

  /** Removing white space margins never hides or reveals a word. */
  lemma ContainsIgnoresMargins(a: string, s: string, b: string, sub: string)
    requires All(a, Space) && All(b, Space) && IsWord(sub)
    ensures Contains(Lower(a + s + b), sub) <==> Contains(Lower(s), sub)
  {
    if Contains(Lower(a + s + b), sub) {
      var i: nat :| i <= |Lower(a + s + b)| - |sub| && OccursAt(Lower(a + s + b), sub, i);
      OccursInside(a, s, b, sub, i);
    }
    if Contains(Lower(s), sub) {
      var i: nat :| i <= |Lower(s)| - |sub| && OccursAt(Lower(s), sub, i);
      OccursPastMargin(a, s, b, sub, i);
    }
  }

  /** `s.partition(c)`: the text before the first `c` and the text after it. */
  function Cut(s: string, c: char): (r: Option<(string, string)>)
    ensures r.None? <==> c !in s
    ensures r.Some? ==> s == r.value.0 + [c] + r.value.1 && c !in r.value.0
  {
    if s == "" then None
    else if s[0] == c then Some(("", s[1..]))
    else match Cut(s[1..], c)
      case None => None
      case Some((before, after)) => Some(([s[0]] + before, after))
  }

  lemma {:induction false} CutFirst(before: string, c: char, after: string)
    requires c !in before
    ensures Cut(before + [c] + after, c) == Some((before, after))
  {
    var s := before + [c] + after;
    if before == "" {
      assert s[1..] == after;
    } else {
      var rest := before[1..];
      CutFirst(rest, c, after);
      assert s[0] == before[0] && s[1..] == rest + [c] + after;
      assert before == [before[0]] + rest;
    }
  }

  /** `s.split(c)[0]` */
  function FirstPart(s: string, c: char): string {
    match Cut(s, c)
    case None => s
    case Some((before, _)) => before
  }

  // ------------------------------------------------------------------ integers

  /** The value of a digit in bases up to sixteen, or -1. */
  function DigitValue(c: char): (v: int)
    ensures -1 <= v < 16
  {
    if '0' <= c <= '9' then c as int - '0' as int
    else if 'a' <= c <= 'f' then c as int - 'a' as int + 10
    else if 'A' <= c <= 'F' then c as int - 'A' as int + 10
    else -1
  }

  /** Digits with single underscores between them, as `int` reads them. */
  function ParseDigits(s: string, base: nat): Option<nat>
    requires base == 10 || base == 16
  {
    if s == "" then None else
    var d := DigitValue(s[|s| - 1]);
    if d < 0 || base <= d then None
    else if |s| == 1 then Some(d)
    else
      var before := if s[|s| - 2] == '_' then s[..|s| - 2] else s[..|s| - 1];
      match ParseDigits(before, base)
      case None => None
      case Some(v) => Some(v * base + d)
  }

  function ParseUnsigned(s: string, base: nat): Option<nat>
    requires base == 10 || base == 16
  {
    if base == 16 && |s| > 1 && s[0] == '0' && (s[1] == 'x' || s[1] == 'X')
    then ParseDigits(if |s| > 2 && s[2] == '_' then s[3..] else s[2..], 16)
    else ParseDigits(s, base)
  }

  /** A trimmed number with an optional sign; None is ValueError. */
  function ParseSigned(t: string, base: nat): Option<int>
    requires base == 10 || base == 16
  {
    if t != "" && (t[0] == '+' || t[0] == '-') then
      match ParseUnsigned(t[1..], base)
      case None => None
      case Some(v) =>
        var n: int := v;
        Some(if t[0] == '-' then -n else n)
    else
      ParseUnsigned(t, base)
  }

  /** `int(b, base)` of a byte string: ASCII white space around it is ignored. */
  function IntOfBytes(b: string, base: nat): Option<int>
    requires base == 10 || base == 16
  {
    ParseSigned(Trim(b, ByteSpace), base)
  }

  /** `int(s)` of a text: outside ASCII, any Unicode white space around it is ignored. */
  function IntOfText(s: string): Option<int> {
    ParseSigned(if IsAscii(s) then Trim(s, ByteSpace) else Strip(s), 10)
  }

  /** A digit as `str` and `format` print it, in lower case. */
  function DigitChar(d: nat): (c: char)
    requires d < 16
    ensures IsDigit(c) && DigitValue(c) == d
  {
    if d < 10 then '0' + d as char else 'a' + (d - 10) as char
  }

  predicate IsDigit(c: char) {
    '0' <= c <= '9' || 'a' <= c <= 'f'
  }

  predicate Digits(s: string) {
    s != "" && forall i :: 0 <= i < |s| ==> IsDigit(s[i])
  }

  /** `n` written in `base` with no leading zero. */
  function ShowNat(n: nat, base: nat): (s: string)
    requires base == 10 || base == 16
    ensures Digits(s)
  {
    if n < base then [DigitChar(n)] else ShowNat(n / base, base) + [DigitChar(n % base)]
  }

  /** `str(n)` */
  function ShowInt(n: int): string {
    if n < 0 then "-" + ShowNat(-n, 10) else ShowNat(n, 10)
  }

  lemma ParseOneMore(before: string, d: nat, base: nat)
    requires Digits(before) && (base == 10 || base == 16) && d < base
    requires ParseDigits(before, base).Some?
    ensures ParseDigits(before + [DigitChar(d)], base) == Some(ParseDigits(before, base).value * base + d)
  {
    var s := before + [DigitChar(d)];
    assert s[|s| - 1] == DigitChar(d);
    assert s[|s| - 2] == before[|before| - 1] && IsDigit(s[|s| - 2]);
    assert s[..|s| - 1] == before;
  }

  lemma {:induction false} ShowNatRoundTrip(n: nat, base: nat)
    requires base == 10 || base == 16
    ensures ParseDigits(ShowNat(n, base), base) == Some(n)
  {
    if n >= base {
      ShowNatRoundTrip(n / base, base);
      ParseOneMore(ShowNat(n / base, base), n % base, base);
      DivMod(n, base);
    }
  }

  lemma DivMod(n: nat, base: nat)
    requires base == 10 || base == 16
    ensures n / base * base + n % base == n
  {
    if base == 10 {
      assert n / 10 * 10 + n % 10 == n;
    } else {
      assert n / 16 * 16 + n % 16 == n;
    }
  }

  lemma ShowIntShape(n: int)
    ensures ShowInt(n) != "" && Trim(ShowInt(n), ByteSpace) == ShowInt(n) && IsAscii(ShowInt(n))
    ensures forall i :: 0 <= i < |ShowInt(n)| ==> ShowInt(n)[i] == '-' || IsDigit(ShowInt(n)[i])
  {
    TrimIdempotent(ShowInt(n), ByteSpace);
  }

  lemma ShowIntRoundTrip(n: int)
    ensures IntOfText(ShowInt(n)) == Some(n)
  {
    ShowIntShape(n);
    var size: nat := if n < 0 then -n else n;
    var digits := ShowNat(size, 10);
    ShowNatRoundTrip(size, 10);
    assert ParseUnsigned(digits, 10) == Some(size);
    assert IsDigit(digits[0]);
    if n < 0 {
      assert ShowInt(n)[1..] == digits;
    }
  }
}
