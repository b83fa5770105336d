/**
 What the text operations compute, said without their definitions.
 */
module TextTheorems {
  import opened Basics
  import opened PyText

  // -------------------------------------------------------------------- letters

  const CAPITALS := "ABCDEFGHIJKLMNOPQRSTUVWXYZ"
  const SMALL := "abcdefghijklmnopqrstuvwxyz"

  /** The letters of ASCII and the accented letters of Latin-1 are lowered, every other character stays. */
  lemma LowerMeaning(c: char)
    requires c < '\U{100}'
    ensures forall k :: 0 <= k < 26 ==> LowerChar(CAPITALS[k]) == SMALL[k]
    ensures c < '\U{80}' && c !in CAPITALS ==> LowerChar(c) == c
    ensures LowerChar('\U{C0}') == '\U{E0}' && LowerChar('\U{DE}') == '\U{FE}' && LowerChar('\U{D7}') == '\U{D7}'
    ensures LowerChar(c) != c ==> LowerChar(c) as int == c as int + 32
    ensures LowerChar(LowerChar(c)) == LowerChar(c)
  {
    forall k | 0 <= k < 26
      ensures CAPITALS[k] as int == 65 + k && SMALL[k] as int == 97 + k
    {
      SpelledOut(k);
    }
    if 'A' <= c <= 'Z' {
      CapitalListed(c);
    }
  }

  lemma CapitalListed(c: char)
    requires 'A' <= c <= 'Z'
    ensures c in CAPITALS
  {
    SpelledOut(c as int - 65);
    assert CAPITALS[c as int - 65] == c;
  }

  lemma SpelledOut(k: nat)
    requires k < 26
    ensures CAPITALS[k] as int == 65 + k && SMALL[k] as int == 97 + k
  {
  }

  /** White space of byte strings, and of texts. */
  lemma SpaceMeaning(c: char)
    ensures IsByteSpace(c) <==> c == ' ' || c == '\t' || c == '\n' || c == '\U{0B}' || c == '\U{0C}' || c == '\r'
    ensures IsSpace(c) <==>
      IsByteSpace(c) || c == '\U{1C}' || c == '\U{1D}' || c == '\U{1E}' || c == '\U{1F}' || c == '\U{85}' || c == '\U{A0}'
  {
  }

  // -------------------------------------------------------------------- searching

  /** `word` stands at `k` in some mixture of letter cases. */
  predicate SpelledAt(value: string, word: string, k: nat) {
    k + |word| <= |value| && Lower(value[k..k + |word|]) == word
  }

  /** `word` occurs in `value` in some mixture of letter cases. */
  ghost predicate HasWord(value: string, word: string) {
    exists k :: SpelledAt(value, word, k)
  }

  lemma OccursIff(value: string, word: string, k: nat)
    ensures OccursAt(Lower(value), word, k) <==> SpelledAt(value, word, k)
  {
    if k + |word| <= |value| {
      var piece := Lower(value[k..k + |word|]);
      assert forall i :: 0 <= i < |word| ==> piece[i] == Lower(value)[k + i];
    }
  }

  lemma ContainsIff(value: string, word: string)
    ensures Contains(Lower(value), word) <==> HasWord(value, word)
  {
    if Contains(Lower(value), word) {
      var k: nat :| k <= |Lower(value)| - |word| && OccursAt(Lower(value), word, k);
      OccursIff(value, word, k);
    }
    if k: nat :| SpelledAt(value, word, k) {
      OccursIff(value, word, k);
    }
  }

  // --------------------------------------------------------------------- numbers

  predicate IsDigitOf(c: char, base: nat) {
    0 <= DigitValue(c) < base
  }

  predicate AreDigits(s: string, base: nat) {
    forall i :: 0 <= i < |s| ==> IsDigitOf(s[i], base)
  }

  /** A single underscore between digits changes nothing. */
  lemma {:induction false} UnderscoreIgnored(a: string, b: string, base: nat)
    requires base == 10 || base == 16
    requires ParseDigits(a, base).Some? && b != "" && AreDigits(b, base)
    ensures ParseDigits(a + "_" + b, base) == ParseDigits(a + b, base)
    ensures ParseDigits(a + b, base).Some?
    decreases |b|
  {
    if |b| == 1 {
      FirstDigit(a, b, base);
    } else {
      UnderscoreIgnored(a, b[..|b| - 1], base);
      LastSplit(a, b);
      LastSplit(a + "_", b);
      SameNext(a + "_" + b[..|b| - 1], a + b[..|b| - 1], b[|b| - 1], base);
    }
  }

  lemma LastSplit(p: string, s: string)
    requires s != ""
    ensures p + s == p + s[..|s| - 1] + [s[|s| - 1]]
  {
  }

  lemma FirstDigit(a: string, b: string, base: nat)
    requires (base == 10 || base == 16) && ParseDigits(a, base).Some? && |b| == 1 && AreDigits(b, base)
    ensures ParseDigits(a + "_" + b, base) == ParseDigits(a + b, base) && ParseDigits(a + b, base).Some?
  {
    assert b == [b[0]];
    OneMoreDigit(a, b[0], base);
    UnderscoredDigit(a, b[0], base);
  }

  lemma SameNext(s: string, t: string, c: char, base: nat)
    requires (base == 10 || base == 16) && IsDigitOf(c, base)
    requires ParseDigits(s, base) == ParseDigits(t, base) && ParseDigits(t, base).Some?
    ensures ParseDigits(s + [c], base) == ParseDigits(t + [c], base) && ParseDigits(t + [c], base).Some?
  {
    OneMoreDigit(s, c, base);
    OneMoreDigit(t, c, base);
  }

  lemma OneMoreDigit(s: string, c: char, base: nat)
    requires (base == 10 || base == 16) && ParseDigits(s, base).Some? && IsDigitOf(c, base)
    ensures ParseDigits(s + [c], base) == Some(ParseDigits(s, base).value * base + DigitValue(c))
  {
    LastDigit(s, base);
    var t := s + [c];
    assert t[|t| - 1] == c && t[|t| - 2] == s[|s| - 1] && t[..|t| - 1] == s;
  }

  lemma UnderscoredDigit(s: string, c: char, base: nat)
    requires (base == 10 || base == 16) && ParseDigits(s, base).Some? && IsDigitOf(c, base)
    ensures ParseDigits(s + "_" + [c], base) == Some(ParseDigits(s, base).value * base + DigitValue(c))
  {
    var t := s + "_" + [c];
    assert t[|t| - 1] == c && t[|t| - 2] == '_' && t[..|t| - 2] == s;
  }

  lemma LastDigit(s: string, base: nat)
    requires (base == 10 || base == 16) && ParseDigits(s, base).Some?
    ensures s != "" && IsDigitOf(s[|s| - 1], base) && s[|s| - 1] != '_'
  {
    assert DigitValue('_') == -1;
  }

  /** Any other character makes the text no number. */
  lemma {:induction false} BadDigitRejected(s: string, base: nat, i: nat)
    requires (base == 10 || base == 16) && i < |s| && !IsDigitOf(s[i], base) && s[i] != '_'
    ensures ParseDigits(s, base) == None
    decreases |s|
  {
    if ParseDigits(s, base).Some? {
      var d := DigitValue(s[|s| - 1]);
      assert i < |s| - 1;
      if s[|s| - 2] == '_' {
        assert i < |s| - 2;
        BadDigitRejected(s[..|s| - 2], base, i);
      } else {
        BadDigitRejected(s[..|s| - 1], base, i);
      }
    }
  }

  /** A printed number, with a plus sign or not and with white space around it, is read as that number. */
  lemma SpacedNumberRead(a: string, n: int, b: string)
    requires All(a, ByteSpace) && All(b, ByteSpace)
    ensures IntOfText(a + ShowInt(n) + b) == Some(n)
    ensures n >= 0 ==> IntOfText(a + ("+" + ShowInt(n)) + b) == Some(n)
  {
    ShowIntShape(n);
    ShowIntRoundTrip(n);
    SpacedRead(a, ShowInt(n), b);
    if n >= 0 {
      PlusRead(n);
      SpacedRead(a, "+" + ShowInt(n), b);
    }
  }

  lemma PlusRead(n: nat)
    ensures var plus := "+" + ShowInt(n);
      ParseSigned(plus, 10) == Some(n) && Trim(plus, ByteSpace) == plus && IsAscii(plus)
  {
    var plus := "+" + ShowInt(n);
    ShowIntShape(n);
    ShowNatRoundTrip(n, 10);
    assert plus[1..] == ShowInt(n);
    TrimIdempotent(plus, ByteSpace);
  }

  lemma SpacedRead(a: string, s: string, b: string)
    requires All(a, ByteSpace) && All(b, ByteSpace) && IsAscii(s) && Trim(s, ByteSpace) == s
    ensures IntOfText(a + s + b) == ParseSigned(s, 10)
  {
    TrimUnique(a, s, b, ByteSpace);
    var whole := a + s + b;
    forall i | 0 <= i < |whole|
      ensures whole[i] < '\U{80}'
    {
      if i < |a| {
        assert ByteSpace.Has(a[i]);
      } else if i >= |a| + |s| {
        assert whole[i] == b[i - |a| - |s|] && ByteSpace.Has(b[i - |a| - |s|]);
      } else {
        assert whole[i] == s[i - |a|];
      }
    }
  }

  /** In base sixteen a prefix `0x`, in either case and with an underscore after it or not, changes nothing. */
  lemma HexPrefixRead(s: string, x: char)
    requires (x == 'x' || x == 'X') && s != "" && s[0] != '_'
    ensures ParseUnsigned(['0', x] + s, 16) == ParseDigits(s, 16)
    ensures ParseUnsigned(['0', x, '_'] + s, 16) == ParseDigits(s, 16)
  {
    assert (['0', x] + s)[2..] == s;
    assert (['0', x, '_'] + s)[3..] == s;
  }

  /**
   `int` of a text: as long as it is ASCII only the white space of byte strings is ignored, so
   a separator character next to the number spoils it; beyond ASCII all white space is.
   */
  lemma TextSpaceRead(a: string, n: int, b: string)
    requires All(a, Space) && All(b, Space)
    ensures !IsAscii(a + b) ==> IntOfText(a + ShowInt(n) + b) == Some(n)
    ensures IsAscii(a + b) && !(All(a, ByteSpace) && All(b, ByteSpace)) ==> IntOfText(a + ShowInt(n) + b) == None
  {
    var s := a + ShowInt(n) + b;
    ShowIntShape(n);
    ShowIntRoundTrip(n);
    if !IsAscii(a + b) {
      AsciiParts(a, ShowInt(n), b);
      TrimUnique(a, ShowInt(n), b, Space);
      assert Strip(ShowInt(n)) == ShowInt(n) by { TrimIdempotent(ShowInt(n), Space); }
    } else if !(All(a, ByteSpace) && All(b, ByteSpace)) {
      AsciiParts(a, ShowInt(n), b);
      var k := OddSpace(a, ShowInt(n), b);
      var j := TrimKeepsOthers(s, k, ByteSpace);
      OddCharacterSpoils(Trim(s, ByteSpace), j);
    }
  }

  lemma AsciiConcat(a: string, b: string)
    ensures IsAscii(a + b) <==> IsAscii(a) && IsAscii(b)
  {
    if IsAscii(a + b) {
      assert forall i :: 0 <= i < |a| ==> a[i] == (a + b)[i];
      assert forall i :: 0 <= i < |b| ==> b[i] == (a + b)[|a| + i];
    }
  }

  lemma AsciiParts(a: string, s: string, b: string)
    requires IsAscii(s)
    ensures IsAscii(a + s + b) <==> IsAscii(a + b)
  {
    AsciiConcat(a + s, b);
    AsciiConcat(a, s);
    AsciiConcat(a, b);
  }

  lemma OddSpace(a: string, s: string, b: string) returns (k: nat)
    requires All(a, Space) && All(b, Space) && !(All(a, ByteSpace) && All(b, ByteSpace))
    ensures var whole := a + s + b; k < |whole| && IsSpace(whole[k]) && !IsByteSpace(whole[k])
  {
    if !All(a, ByteSpace) {
      k :| 0 <= k < |a| && !ByteSpace.Has(a[k]);
      assert Space.Has(a[k]) && (a + s + b)[k] == a[k];
    } else {
      var i :| 0 <= i < |b| && !ByteSpace.Has(b[i]);
      k := |a| + |s| + i;
      assert Space.Has(b[i]) && (a + s + b)[k] == b[i];
    }
  }

  lemma OddCharacterSpoils(t: string, j: nat)
    requires j < |t| && IsSpace(t[j])
    ensures ParseSigned(t, 10) == None
  {
    if t[0] == '+' || t[0] == '-' {
      assert t[1..][j - 1] == t[j];
      BadDigitRejected(t[1..], 10, j - 1);
    } else {
      BadDigitRejected(t, 10, j);
    }
  }
}
