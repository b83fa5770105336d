/**
 Masking the values of credential parameters in a URL: a leftmost, non-overlapping scan.
 */
module UrlRedaction {
  import opened Basics
  import opened PyText
  import opened Redaction

  const SECRET_PARAMETERS: set<string> := {
    "access_token", "token", "api_key", "apikey", "password", "secret", "code"
  }

  predicate IsMark(c: char) {
    c == '?' || c == '&'
  }

  /** A character that ends a parameter value. */
  predicate IsStop(c: char) {
    c == '&' || IsSpace(c)
  }

  /** Parameter names: not empty, and free of the characters that begin a parameter. */
  ghost predicate AreNames(names: set<string>) {
    "" !in names && forall s, i :: s in names && 0 <= i < |s| ==> !IsMark(s[i])
  }

  lemma SecretParametersAreNames()
    ensures AreNames(SECRET_PARAMETERS)
  {
  }

  // ------------------------------------------------------------------ the scan

  /** The parameter value that `s` starts with. */
  function ValueOf(s: string): (v: string)
    ensures v <= s
  {
    if s == "" || IsStop(s[0]) then "" else [s[0]] + ValueOf(s[1..])
  }

  /** `?name` or `&name` for a listed name in any letter case. */
  predicate IsOpening(names: set<string>, before: string) {
    before != "" && IsMark(before[0]) && Lower(before[1..]) in names
  }

  /** Where `url` starts with an opening, an equals sign and a value: the three parts it falls into. */
  function FindSecret(names: set<string>, url: string): (found: Option<(string, string, string)>)
    ensures found.Some? ==> |found.value.2| < |url|
  {
    match Cut(url, '=')
    case None => None
    case Some((before, after)) =>
      var v := ValueOf(after);
      if IsOpening(names, before) && v != "" then Some((before, v, after[|v|..])) else None
  }

  /** Every value under an opening is replaced. */
  function Redact(names: set<string>, url: string): string
    decreases |url|
  {
    if url == "" then ""
    else match FindSecret(names, url)
      case Some((before, v, rest)) => before + "=" + REDACTED + Redact(names, rest)
      case None => [url[0]] + Redact(names, url[1..])
  }

  /** `redact_url` */
  function RedactUrl(url: string): string {
    Redact(SECRET_PARAMETERS, url)
  }

  // ------------------------------------------------------------------- pieces

  /** What the scan sees: a character it passes over, or a parameter it masks. */
  datatype Piece = Plain(c: char) | Secret(before: string, value: string)

  function Pieces(names: set<string>, url: string): seq<Piece>
    decreases |url|
  {
    if url == "" then []
    else match FindSecret(names, url)
      case Some((before, v, rest)) => [Secret(before, v)] + Pieces(names, rest)
      case None => [Plain(url[0])] + Pieces(names, url[1..])
  }

  function ShowPiece(p: Piece): string {
    match p case Plain(c) => [c] case Secret(before, value) => before + "=" + value
  }

  function Show(ps: seq<Piece>): string {
    if ps == [] then "" else ShowPiece(ps[0]) + Show(ps[1..])
  }

  function MaskPiece(p: Piece): Piece {
    if p.Secret? then Secret(p.before, REDACTED) else p
  }

  function Mask(ps: seq<Piece>): seq<Piece> {
    if ps == [] then [] else [MaskPiece(ps[0])] + Mask(ps[1..])
  }

  predicate IsValue(v: string) {
    v != "" && forall i :: 0 <= i < |v| ==> !IsStop(v[i])
  }

  /** Nothing, or something that ends a value. */
  predicate Stops(rest: string) {
    rest == "" || IsStop(rest[0])
  }

  /** The same piece, up to the value of a secret. */
  predicate SamePiece(names: set<string>, p: Piece, q: Piece) {
    if p.Plain? then q == p
    else
      q.Secret? && q.before == p.before && IsOpening(names, p.before) && '=' !in p.before
      && IsValue(p.value) && IsValue(q.value)
  }

  predicate SamePieces(names: set<string>, ps: seq<Piece>, qs: seq<Piece>) {
    if ps == [] then qs == []
    else qs != [] && SamePiece(names, ps[0], qs[0]) && SamePieces(names, ps[1..], qs[1..])
  }

  // ---------------------------------------------------------- what the scan finds

  lemma {:induction false} ValueOfFacts(s: string)
    ensures var v := ValueOf(s); Stops(s[|v|..]) && forall i :: 0 <= i < |v| ==> !IsStop(v[i])
  {
    if s != "" && !IsStop(s[0]) {
      ValueOfFacts(s[1..]);
      assert s[|ValueOf(s)|..] == s[1..][|ValueOf(s[1..])|..];
    }
  }

  lemma FindSecretFacts(names: set<string>, url: string)
    requires FindSecret(names, url).Some?
    ensures var (before, v, rest) := FindSecret(names, url).value;
      && IsOpening(names, before) && '=' !in before && IsValue(v) && Stops(rest)
      && url == before + "=" + v + rest
  {
    var (before, after) := Cut(url, '=').value;
    ValueOfFacts(after);
    var v := ValueOf(after);
    SeqAssoc(before + "=", v, after[|v|..]);
    assert after == v + after[|v|..];
  }

  lemma {:induction false} ValueFound(v: string, rest: string)
    requires (forall i :: 0 <= i < |v| ==> !IsStop(v[i])) && Stops(rest)
    ensures ValueOf(v + rest) == v
  {
    if v == "" {
      assert v + rest == rest;
    } else {
      assert (v + rest)[0] == v[0] && (v + rest)[1..] == v[1..] + rest;
      ValueFound(v[1..], rest);
      assert v == [v[0]] + v[1..];
    }
  }

  /** An opening and a value are found wherever they stand. */
  lemma SecretFound(names: set<string>, before: string, v: string, rest: string)
    requires IsOpening(names, before) && '=' !in before && IsValue(v) && Stops(rest)
    ensures FindSecret(names, before + "=" + v + rest) == Some((before, v, rest))
  {
    SeqAssoc(before + "=", v, rest);
    CutFirst(before, '=', v + rest);
    ValueFound(v, rest);
    assert (v + rest)[|v|..] == rest;
  }

  /** The pattern matches at the start of `url` with these parts, the value as long as it can be. */
  predicate IsMatch(names: set<string>, url: string, before: string, v: string, rest: string) {
    url == before + "=" + v + rest && IsOpening(names, before) && '=' !in before && IsValue(v) && Stops(rest)
  }

  /** The scan finds exactly the match of the pattern, which is therefore unique. */
  lemma MatchIff(names: set<string>, url: string, before: string, v: string, rest: string)
    ensures FindSecret(names, url) == Some((before, v, rest)) <==> IsMatch(names, url, before, v, rest)
  {
    if FindSecret(names, url).Some? {
      FindSecretFacts(names, url);
    }
    if IsMatch(names, url, before, v, rest) {
      SecretFound(names, before, v, rest);
    }
  }

  /** An opening before anything but a stop is found. */
  lemma SecretBegins(names: set<string>, before: string, after: string)
    requires IsOpening(names, before) && '=' !in before && !Stops(after)
    ensures FindSecret(names, before + "=" + after).Some?
  {
    CutFirst(before, '=', after);
    assert ValueOf(after) != "";
  }

  // --------------------------------------------------- printing and masking pieces

  lemma ShowCons(p: Piece, ps: seq<Piece>)
    ensures Show([p] + ps) == ShowPiece(p) + Show(ps) && Mask([p] + ps) == [MaskPiece(p)] + Mask(ps)
  {
    assert ([p] + ps)[1..] == ps;
  }

  lemma SameCons(names: set<string>, p: Piece, q: Piece, ps: seq<Piece>, qs: seq<Piece>)
    requires SamePiece(names, p, q) && SamePieces(names, ps, qs)
    ensures SamePieces(names, [p] + ps, [q] + qs)
  {
    assert ([p] + ps)[1..] == ps && ([q] + qs)[1..] == qs;
  }

  /** Scanning is lossless: the pieces print as the URL they came from. */
  lemma {:induction false} PiecesShow(names: set<string>, url: string)
    ensures Show(Pieces(names, url)) == url && SamePieces(names, Pieces(names, url), Pieces(names, url))
    decreases |url|
  {
    if url != "" {
      match FindSecret(names, url) {
        case Some((before, v, rest)) =>
          FindSecretFacts(names, url);
          PiecesShow(names, rest);
          ShowCons(Secret(before, v), Pieces(names, rest));
          SameCons(names, Secret(before, v), Secret(before, v), Pieces(names, rest), Pieces(names, rest));
        case None =>
          var rest := url[1..];
          PiecesShow(names, rest);
          ShowCons(Plain(url[0]), Pieces(names, rest));
          SameCons(names, Plain(url[0]), Plain(url[0]), Pieces(names, rest), Pieces(names, rest));
          assert url == [url[0]] + rest;
      }
    }
  }

  /** The redacted URL is the masked pieces, printed. */
  lemma {:induction false} RedactShows(names: set<string>, url: string)
    ensures Redact(names, url) == Show(Mask(Pieces(names, url)))
    decreases |url|
  {
    if url != "" {
      match FindSecret(names, url) {
        case Some((before, v, rest)) =>
          RedactShows(names, rest);
          ShowCons(Secret(before, v), Pieces(names, rest));
          ShowCons(Secret(before, REDACTED), Mask(Pieces(names, rest)));
        case None =>
          RedactShows(names, url[1..]);
          ShowCons(Plain(url[0]), Pieces(names, url[1..]));
          ShowCons(Plain(url[0]), Mask(Pieces(names, url[1..])));
      }
    }
  }

  lemma RedactedIsValue()
    ensures IsValue(REDACTED)
  {
  }

  lemma {:induction false} MaskSame(names: set<string>, ps: seq<Piece>)
    requires SamePieces(names, ps, ps)
    ensures SamePieces(names, ps, Mask(ps)) && Mask(Mask(ps)) == Mask(ps)
    decreases |ps|
  {
    if ps != [] {
      MaskSame(names, ps[1..]);
      RedactedIsValue();
      ShowCons(MaskPiece(ps[0]), Mask(ps[1..]));
      assert Mask(ps)[1..] == Mask(ps[1..]);
    }
  }

  lemma {:induction false} MaskOfSame(names: set<string>, ps: seq<Piece>, qs: seq<Piece>)
    requires SamePieces(names, ps, qs)
    ensures Mask(ps) == Mask(qs)
    decreases |ps|
  {
    if ps != [] {
      MaskOfSame(names, ps[1..], qs[1..]);
    }
  }

  // -------------------------------------------------- other values, same secrets

  lemma SameFirst(names: set<string>, ps: seq<Piece>, qs: seq<Piece>)
    requires SamePieces(names, ps, qs)
    ensures Stops(Show(ps)) <==> Stops(Show(qs))
  {
    if ps != [] && ps[0].Secret? {
      assert Show(ps)[0] == ps[0].before[0] == Show(qs)[0];
    }
  }

  /** The printed pieces agree as far as the first query mark. */
  lemma {:induction false} AgreeToMark(names: set<string>, ps: seq<Piece>, qs: seq<Piece>, a: string)
    requires SamePieces(names, ps, qs) && a <= Show(qs)
    requires forall j :: 0 <= j < |a| - 1 ==> !IsMark(a[j])
    ensures a <= Show(ps)
    decreases |ps|
  {
    if a != "" {
      if qs[0].Plain? {
        AgreeToMark(names, ps[1..], qs[1..], a[1..]);
        assert a == [qs[0].c] + a[1..];
      } else {
        assert Show(qs)[0] == qs[0].before[0] == Show(ps)[0];
        assert IsMark(a[0]) && |a| == 1;
      }
    }
  }

  lemma OpeningHasOneMark(names: set<string>, before: string, i: nat)
    requires AreNames(names) && IsOpening(names, before) && 1 <= i < |before|
    ensures !IsMark(before[i])
  {
    assert Lower(before[1..])[i - 1] == LowerChar(before[i]);
  }

  /** The rest of an opening, as far as the first value byte. */
  function Remainder(before: string, v: string): string
    requires before != "" && v != ""
  {
    before[1..] + "=" + v[..1]
  }

  lemma RemainderHasNoMark(names: set<string>, before: string, v: string, j: nat)
    requires AreNames(names) && IsOpening(names, before) && v != "" && j < |before|
    ensures !IsMark(Remainder(before, v)[j])
  {
    if j < |before| - 1 {
      OpeningHasOneMark(names, before, j + 1);
    }
  }

  lemma OpeningTransfers(names: set<string>, ps: seq<Piece>, qs: seq<Piece>, before: string, v: string)
    requires AreNames(names) && SamePieces(names, ps, qs) && IsOpening(names, before) && IsValue(v)
    requires Remainder(before, v) <= Show(qs)
    ensures Remainder(before, v) <= Show(ps)
  {
    forall j | 0 <= j < |Remainder(before, v)| - 1
      ensures !IsMark(Remainder(before, v)[j])
    {
      RemainderHasNoMark(names, before, v, j);
    }
    AgreeToMark(names, ps, qs, Remainder(before, v));
  }

  /** Where the scan passes over a character of one text, it does so in a text with other values. */
  lemma PlainStays(names: set<string>, c: char, ps: seq<Piece>, qs: seq<Piece>)
    requires AreNames(names) && SamePieces(names, ps, qs) && FindSecret(names, [c] + Show(ps)) == None
    ensures FindSecret(names, [c] + Show(qs)) == None
  {
    if FindSecret(names, [c] + Show(qs)).Some? {
      var (before, v, rest) := FindSecret(names, [c] + Show(qs)).value;
      FindSecretFacts(names, [c] + Show(qs));
      TailOfOpening(c, before, v, rest, Show(qs));
      OpeningTransfers(names, ps, qs, before, v);
      HeadOfOpening(c, before, v, Show(ps));
      SecretBegins(names, before, Show(ps)[|before|..]);
    }
  }

  lemma TailOfOpening(c: char, before: string, v: string, rest: string, tail: string)
    requires [c] + tail == before + "=" + v + rest && before != "" && v != ""
    ensures before[0] == c && Remainder(before, v) <= tail
  {
    var x := before + "=" + v + rest;
    assert x[0] == before[0] && ([c] + tail)[0] == c;
    assert tail == x[1..];
    var a := Remainder(before, v);
    forall i | 0 <= i < |a|
      ensures a[i] == tail[i]
    {
      assert tail[i] == x[i + 1];
    }
  }

  lemma HeadOfOpening(c: char, before: string, v: string, tail: string)
    requires before != "" && before[0] == c && IsValue(v) && Remainder(before, v) <= tail
    ensures [c] + tail == before + "=" + tail[|before|..] && !Stops(tail[|before|..])
  {
    var a := Remainder(before, v);
    assert a[|before|] == v[0];
    assert forall i :: 0 <= i < |a| ==> tail[i] == a[i];
    assert tail == tail[..|before|] + tail[|before|..];
    assert tail[..|before|] == before[1..] + "=";
    assert [c] + before[1..] == before;
  }

  lemma RescanPlain(names: set<string>, qs: seq<Piece>)
    requires qs != [] && qs[0].Plain? && FindSecret(names, [qs[0].c] + Show(qs[1..])) == None
    requires Pieces(names, Show(qs[1..])) == qs[1..]
    ensures Pieces(names, Show(qs)) == qs
  {
    assert Show(qs)[1..] == Show(qs[1..]);
    assert [qs[0]] + qs[1..] == qs;
  }

  lemma RescanSecret(names: set<string>, qs: seq<Piece>)
    requires qs != [] && qs[0].Secret? && IsOpening(names, qs[0].before) && '=' !in qs[0].before && IsValue(qs[0].value)
    requires Stops(Show(qs[1..])) && Pieces(names, Show(qs[1..])) == qs[1..]
    ensures Pieces(names, Show(qs)) == qs
  {
    SecretFound(names, qs[0].before, qs[0].value, Show(qs[1..]));
    assert [qs[0]] + qs[1..] == qs;
  }

  /** The text after the first piece of `url`. */
  function AfterFirst(names: set<string>, url: string): (rest: string)
    requires url != ""
    ensures |rest| < |url|
  {
    match FindSecret(names, url) case Some((_, _, rest)) => rest case None => url[1..]
  }

  lemma FirstPiece(names: set<string>, url: string)
    requires url != ""
    ensures Pieces(names, url) != [] && Pieces(names, url)[1..] == Pieces(names, AfterFirst(names, url))
    ensures Show(Pieces(names, AfterFirst(names, url))) == AfterFirst(names, url)
    ensures FindSecret(names, url).Some? ==> Pieces(names, url)[0].Secret? && Stops(AfterFirst(names, url))
    ensures FindSecret(names, url).None? ==> Pieces(names, url)[0] == Plain(url[0]) && url == [url[0]] + AfterFirst(names, url)
  {
    PiecesShow(names, AfterFirst(names, url));
    if FindSecret(names, url).Some? {
      FindSecretFacts(names, url);
    }
  }

  /** Replacing secrets by other values never changes what the scan sees as secret. */
  lemma {:induction false} Rescan(names: set<string>, url: string, qs: seq<Piece>)
    requires AreNames(names) && SamePieces(names, Pieces(names, url), qs)
    ensures Pieces(names, Show(qs)) == qs
    decreases |url|
  {
    if url != "" {
      var ps := Pieces(names, url);
      FirstPiece(names, url);
      Rescan(names, AfterFirst(names, url), qs[1..]);
      if ps[0].Secret? {
        SameFirst(names, ps[1..], qs[1..]);
        RescanSecret(names, qs);
      } else {
        PlainStays(names, ps[0].c, ps[1..], qs[1..]);
        RescanPlain(names, qs);
      }
    }
  }

  // ------------------------------------------------------------------ the results

  lemma RedactedPiecesOf(names: set<string>, url: string)
    requires AreNames(names)
    ensures Pieces(names, Redact(names, url)) == Mask(Pieces(names, url))
    ensures Redact(names, url) == Show(Mask(Pieces(names, url)))
    ensures Mask(Mask(Pieces(names, url))) == Mask(Pieces(names, url))
  {
    RedactShows(names, url);
    PiecesShow(names, url);
    MaskSame(names, Pieces(names, url));
    Rescan(names, url, Mask(Pieces(names, url)));
  }

  function PiecesOf(url: string): seq<Piece> {
    Pieces(SECRET_PARAMETERS, url)
  }

  lemma RedactedPieces(url: string)
    ensures PiecesOf(RedactUrl(url)) == Mask(PiecesOf(url)) && RedactUrl(url) == Show(Mask(PiecesOf(url)))
    ensures Mask(Mask(PiecesOf(url))) == Mask(PiecesOf(url))
  {
    SecretParametersAreNames();
    RedactedPiecesOf(SECRET_PARAMETERS, url);
  }

  lemma RedactUrlIdempotent(url: string)
    ensures RedactUrl(RedactUrl(url)) == RedactUrl(url)
  {
    RedactedPieces(url);
    RedactedPieces(RedactUrl(url));
  }

  /**
   The redacted URL is the URL with the values of the listed parameters, and nothing else,
   replaced: the pieces print as the URL, and the masked pieces as what is stored.
   */
  lemma RedactUrlReplacesValues(url: string)
    ensures Show(PiecesOf(url)) == url && RedactUrl(url) == Show(Mask(PiecesOf(url)))
    ensures SamePieces(SECRET_PARAMETERS, PiecesOf(url), PiecesOf(url))
  {
    PiecesShow(SECRET_PARAMETERS, url);
    RedactedPieces(url);
  }

  /** No value of a listed parameter influences the stored URL, whatever is put in its place. */
  lemma RedactUrlIgnoresValues(url: string, qs: seq<Piece>)
    requires SamePieces(SECRET_PARAMETERS, PiecesOf(url), qs)
    ensures RedactUrl(Show(qs)) == RedactUrl(url)
  {
    SecretParametersAreNames();
    Rescan(SECRET_PARAMETERS, url, qs);
    MaskOfSame(SECRET_PARAMETERS, PiecesOf(url), qs);
    RedactedPieces(url);
    RedactedPieces(Show(qs));
  }

  /** And nothing but those values is lost. */
  lemma UrlKernel(a: string, b: string)
    ensures RedactUrl(a) == RedactUrl(b) <==> Mask(PiecesOf(a)) == Mask(PiecesOf(b))
  {
    RedactedPieces(a);
    RedactedPieces(b);
  }

  // --------------------------------------------------------- which values are masked

  /** The value of a listed parameter, after `?` or `&` and in any letter case, is masked up to `&` or white space. */
  lemma ParameterMasked(mark: char, name: string, v: string, rest: string)
    requires mark == '?' || mark == '&'
    requires Lower(name) in {"access_token", "token", "api_key", "apikey", "password", "secret", "code"}
    requires v != "" && forall i :: 0 <= i < |v| ==> v[i] != '&' && !IsSpace(v[i])
    requires rest == "" || rest[0] == '&' || IsSpace(rest[0])
    ensures RedactUrl([mark] + name + "=" + v + rest) == [mark] + name + "=" + "***REDACTED***" + RedactUrl(rest)
  {
    var before := [mark] + name;
    assert before[1..] == name;
    NamesHaveNoEquals(name);
    SecretFound(SECRET_PARAMETERS, before, v, rest);
  }

  lemma NamesHaveNoEquals(name: string)
    requires Lower(name) in SECRET_PARAMETERS
    ensures '=' !in name
  {
    ListedHaveNoEquals(Lower(name));
    assert forall i :: 0 <= i < |name| ==> Lower(name)[i] == LowerChar(name[i]);
  }

  lemma ListedHaveNoEquals(name: string)
    requires name in SECRET_PARAMETERS
    ensures '=' !in name
  {
  }

  /** A character that begins no parameter is kept. */
  lemma OtherCharacterKept(c: char, rest: string)
    requires c != '?' && c != '&'
    ensures RedactUrl([c] + rest) == [c] + RedactUrl(rest)
  {
    var url := [c] + rest;
    assert url[1..] == rest;
    MatchBegins(url);
  }

  lemma MatchBegins(url: string)
    ensures FindSecret(SECRET_PARAMETERS, url).Some? ==> url != "" && IsMark(url[0])
  {
    if FindSecret(SECRET_PARAMETERS, url).Some? {
      FindSecretFacts(SECRET_PARAMETERS, url);
      assert url[0] == FindSecret(SECRET_PARAMETERS, url).value.0[0];
    }
  }

  /** So is the mark before a parameter of any other name, and before one without a value. */
  lemma OtherParameterKept(mark: char, name: string, rest: string)
    requires '=' !in name
    requires Lower(name) !in {"access_token", "token", "api_key", "apikey", "password", "secret", "code"}
      || rest == "" || rest[0] == '&' || IsSpace(rest[0])
    ensures RedactUrl([mark] + name + "=" + rest) == [mark] + RedactUrl(name + "=" + rest)
  {
    var url := [mark] + name + "=" + rest;
    assert url[1..] == name + "=" + rest;
    if mark == '=' {
      assert url[0] == '=';
      MatchBegins(url);
    } else {
      CutFirst([mark] + name, '=', rest);
      assert ([mark] + name)[1..] == name;
    }
  }
}
