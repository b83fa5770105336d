/**
 The header snapshots that a flow record keeps: a dict of the fields, with the values of
 the headers that carry credentials masked when the decision says so.
 */
module HeaderSnapshots {
  import opened Basics
  import opened PyText
  import opened Headers
  import Redaction

  const SENSITIVE_HEADERS: set<string> := {
    "authorization", "proxy-authorization", "cookie", "set-cookie", "x-api-key", "x-auth-token",
    "x-amz-security-token", "x-csrf-token", "x-xsrf-token", "api-key", "authentication"
  }

  predicate IsSensitive(name: string) {
    Lower(name) in SENSITIVE_HEADERS
  }

  // ------------------------------------------------------------- what a dict holds

  /** The spellings of names, each at the place of its first occurrence. */
  function Spellings(fs: seq<Field>): seq<string> {
    if fs == [] then []
    else
      var names := Spellings(fs[..|fs| - 1]);
      if fs[|fs| - 1].name in names then names else names + [fs[|fs| - 1].name]
  }

  /** The values of the fields spelled `name`, in order. */
  function ValuesUnder(fs: seq<Field>, name: string): seq<string> {
    if fs == [] then []
    else ValuesUnder(fs[..|fs| - 1], name) + if fs[|fs| - 1].name == name then [fs[|fs| - 1].value] else []
  }

  function Joined(values: seq<string>): string
    requires values != []
  {
    if |values| == 1 then values[0] else Joined(values[..|values| - 1]) + ", " + values[|values| - 1]
  }

  function Names(d: seq<Field>): (names: seq<string>)
    ensures |names| == |d| && forall i :: 0 <= i < |d| ==> names[i] == d[i].name
  {
    seq(|d|, i requires 0 <= i < |d| => d[i].name)
  }

  /** The entry joins all values that `fs` has under its name. */
  predicate Joins(e: Field, fs: seq<Field>) {
    ValuesUnder(fs, e.name) != [] && e.value == Joined(ValuesUnder(fs, e.name))
  }

  /** `d` has the values of `fs` under each spelling, joined. */
  ghost predicate Gathers(d: seq<Field>, fs: seq<Field>) {
    Names(d) == Spellings(fs) && Distinct(Names(d)) && forall i :: 0 <= i < |d| ==> Joins(d[i], fs)
  }

  lemma {:induction false} NotedNew(d: seq<Field>, f: Field)
    requires forall i :: 0 <= i < |d| ==> d[i].name != f.name
    ensures Noted(d, f) == d + [f]
  {
    if d != [] {
      NotedNew(d[1..], f);
      assert [d[0]] + (d[1..] + [f]) == d + [f];
    }
  }

  lemma {:induction false} NotedOld(d: seq<Field>, f: Field, i: nat)
    requires i < |d| && d[i].name == f.name
    requires forall j :: 0 <= j < i ==> d[j].name != f.name
    ensures Noted(d, f) == d[i := Field(f.name, d[i].value + ", " + f.value)]
  {
    var e := Field(f.name, d[i].value + ", " + f.value);
    if i > 0 {
      NotedOld(d[1..], f, i - 1);
      assert [d[0]] + d[1..][i - 1 := e] == d[i := e];
    }
  }

  lemma JoinsLater(e: Field, fs: seq<Field>)
    requires fs != [] && Joins(e, fs[..|fs| - 1])
    ensures var last := fs[|fs| - 1];
      Joins(if e.name == last.name then Field(e.name, e.value + ", " + last.value) else e, fs)
  {
    var before := ValuesUnder(fs[..|fs| - 1], e.name);
    assert (before + [fs[|fs| - 1].value])[..|before|] == before;
    assert before + [] == before;
  }

  lemma {:induction false} SpelledIff(fs: seq<Field>, name: string)
    ensures name in Spellings(fs) <==> ValuesUnder(fs, name) != []
    decreases |fs|
  {
    if fs != [] {
      SpelledIff(fs[..|fs| - 1], name);
    }
  }

  lemma {:induction false} SpelledSomewhere(fs: seq<Field>, name: string) returns (i: nat)
    requires name in Spellings(fs)
    ensures i < |fs| && fs[i].name == name
    decreases |fs|
  {
    i := |fs| - 1;
    if fs[i].name != name {
      i := SpelledSomewhere(fs[..|fs| - 1], name);
    }
  }

  lemma {:induction false} SpelledThere(fs: seq<Field>, i: nat)
    requires i < |fs|
    ensures fs[i].name in Spellings(fs)
    decreases |fs|
  {
    if i < |fs| - 1 {
      SpelledThere(fs[..|fs| - 1], i);
    }
  }

  /**
   `to_dict`: one entry for each spelling of a name, in the order of first occurrence, with
   the values of all fields so spelled, in their order, joined by commas.
   */
  lemma {:induction false} ToDictGathers(fs: seq<Field>)
    ensures Gathers(ToDict(fs), fs)
    decreases |fs|
  {
    if fs != [] {
      ToDictGathers(fs[..|fs| - 1]);
      GathersNext(fs, ToDict(fs[..|fs| - 1]));
    }
  }

  lemma GathersNext(fs: seq<Field>, d: seq<Field>)
    requires fs != [] && Gathers(d, fs[..|fs| - 1])
    ensures Gathers(Noted(d, fs[|fs| - 1]), fs)
  {
    var init, last := fs[..|fs| - 1], fs[|fs| - 1];
    SpelledIff(init, last.name);
    if last.name in Names(d) {
      var i :| 0 <= i < |d| && Names(d)[i] == last.name;
      GathersOld(fs, d, i);
    } else {
      GathersNew(fs, d);
    }
  }

  lemma GathersOld(fs: seq<Field>, d: seq<Field>, i: nat)
    requires fs != [] && Gathers(d, fs[..|fs| - 1]) && i < |d| && d[i].name == fs[|fs| - 1].name
    ensures Gathers(Noted(d, fs[|fs| - 1]), fs)
  {
    var last := fs[|fs| - 1];
    assert Names(d)[i] == last.name;
    forall j | 0 <= j < |d| && j != i
      ensures d[j].name != last.name && Joins(d[j], fs)
    {
      assert Names(d)[j] != Names(d)[i];
      JoinsLater(d[j], fs);
    }
    JoinsLater(d[i], fs);
    NotedOld(d, last, i);
    NamesKept(d, i, d[i].value + ", " + last.value);
  }

  lemma NamesKept(d: seq<Field>, i: nat, value: string)
    requires i < |d|
    ensures Names(d[i := Field(d[i].name, value)]) == Names(d)
  {
  }

  lemma GathersNew(fs: seq<Field>, d: seq<Field>)
    requires fs != [] && Gathers(d, fs[..|fs| - 1])
    requires fs[|fs| - 1].name !in Names(d) && ValuesUnder(fs[..|fs| - 1], fs[|fs| - 1].name) == []
    ensures Gathers(Noted(d, fs[|fs| - 1]), fs)
  {
    var last := fs[|fs| - 1];
    forall j | 0 <= j < |d|
      ensures d[j].name != last.name && Joins(d[j], fs)
    {
      assert Names(d)[j] != last.name;
      JoinsLater(d[j], fs);
    }
    NotedNew(d, last);
    assert [] + [last.value] == [last.value];
    assert Joins(last, fs);
    assert Names(d + [last]) == Names(d) + [last.name];
  }

  /** Two fields of one spelling are joined by a comma and a space; two spellings stay apart. */
  lemma TwoFieldsJoined(n: string, a: string, m: string, b: string)
    ensures ToDict([Field(n, a), Field(m, b)]) ==
      if n == m then [Field(n, a + ", " + b)] else [Field(n, a), Field(m, b)]
  {
    var f, g := Field(n, a), Field(m, b);
    assert [f, g][..1] == [f] && [f][..0] == [];
    assert ToDict([f]) == [f];
    assert ToDict([f, g]) == Noted([f], g);
  }

  // -------------------------------------------------------------------- redaction

  function Masked(f: Field): Field {
    if IsSensitive(f.name) then Field(f.name, Redaction.REDACTED) else f
  }

  function RedactedHeaders(d: seq<Field>): (r: seq<Field>)
    ensures |r| == |d| && forall i :: 0 <= i < |d| ==> r[i] == Masked(d[i])
  {
    seq(|d|, i requires 0 <= i < |d| => Masked(d[i]))
  }

  predicate Touched(fs: seq<Field>) {
    exists i :: 0 <= i < |fs| && IsSensitive(fs[i].name)
  }

  /** The same names in the same order, and the same values but for those of sensitive headers. */
  predicate AlikeHeaders(a: seq<Field>, b: seq<Field>) {
    |a| == |b| && forall i :: 0 <= i < |a| ==> a[i].name == b[i].name && (IsSensitive(a[i].name) || a[i].value == b[i].value)
  }

  /** Which entries are masked, and by what: the listed headers, in any letter case. */
  lemma MaskedMeaning(f: Field)
    ensures Masked(f) ==
      if Lower(f.name) in {
        "authorization", "proxy-authorization", "cookie", "set-cookie", "x-api-key", "x-auth-token",
        "x-amz-security-token", "x-csrf-token", "x-xsrf-token", "api-key", "authentication"}
      then Field(f.name, "***REDACTED***") else f
  {
  }

  /** Two dicts are redacted to the same one if and only if they differ at most in values of sensitive headers. */
  lemma HeadersKernel(a: seq<Field>, b: seq<Field>)
    ensures RedactedHeaders(a) == RedactedHeaders(b) <==> AlikeHeaders(a, b)
  {
    if RedactedHeaders(a) == RedactedHeaders(b) {
      forall i | 0 <= i < |a|
        ensures a[i].name == b[i].name && (IsSensitive(a[i].name) || a[i].value == b[i].value)
      {
        assert Masked(a[i]) == Masked(b[i]);
      }
    }
  }

  lemma {:induction false} NotedAlike(d: seq<Field>, e: seq<Field>, f: Field, g: Field)
    requires AlikeHeaders(d, e) && AlikeHeaders([f], [g])
    ensures AlikeHeaders(Noted(d, f), Noted(e, g))
    decreases |d|
  {
    assert [f][0].name == [g][0].name && (IsSensitive(f.name) || [f][0].value == [g][0].value);
    if d != [] && d[0].name != f.name {
      NotedAlike(d[1..], e[1..], f, g);
    }
  }

  lemma {:induction false} ToDictAlike(fs: seq<Field>, gs: seq<Field>)
    requires AlikeHeaders(fs, gs)
    ensures AlikeHeaders(ToDict(fs), ToDict(gs))
    decreases |fs|
  {
    if fs != [] {
      ToDictAlike(fs[..|fs| - 1], gs[..|gs| - 1]);
      NotedAlike(ToDict(fs[..|fs| - 1]), ToDict(gs[..|gs| - 1]), fs[|fs| - 1], gs[|gs| - 1]);
    }
  }

  /** No value of a sensitive header reaches a redacted snapshot, however often the header occurs. */
  lemma SnapshotIgnoresSecrets(fs: seq<Field>, gs: seq<Field>)
    requires AlikeHeaders(fs, gs)
    ensures RedactedHeaders(ToDict(fs)) == RedactedHeaders(ToDict(gs))
  {
    ToDictAlike(fs, gs);
    HeadersKernel(ToDict(fs), ToDict(gs));
  }

  /** The snapshot counts as redacted exactly when some field of the head is sensitive. */
  lemma TouchedIff(fs: seq<Field>)
    ensures Touched(ToDict(fs)) <==> Touched(fs)
  {
    var d := ToDict(fs);
    ToDictGathers(fs);
    if Touched(d) {
      var i :| 0 <= i < |d| && IsSensitive(d[i].name);
      assert Names(d)[i] in Names(d);
      var j := SpelledSomewhere(fs, d[i].name);
    }
    if Touched(fs) {
      var i :| 0 <= i < |fs| && IsSensitive(fs[i].name);
      SpelledThere(fs, i);
      var j :| 0 <= j < |d| && Names(d)[j] == fs[i].name;
      assert IsSensitive(d[j].name);
    }
  }

  /** Redaction changes a snapshot only in values of sensitive headers. */
  lemma RedactedHeadersAlike(d: seq<Field>)
    ensures AlikeHeaders(RedactedHeaders(d), d) && (!Touched(d) ==> RedactedHeaders(d) == d)
  {
  }

  /** `redact_headers` */
  method RedactHeaders(headers: seq<Field>) returns (out: seq<Field>, touched: bool)
    ensures out == RedactedHeaders(headers) && (touched <==> Touched(headers))
  {
    out, touched := [], false;
    for i := 0 to |headers|
      invariant |out| == i && forall j :: 0 <= j < i ==> out[j] == Masked(headers[j])
      invariant touched <==> exists j :: 0 <= j < i && IsSensitive(headers[j].name)
    {
      var f := headers[i];
      if IsSensitive(f.name) {
        out := out + [Field(f.name, Redaction.REDACTED)];
        touched := true;
      } else {
        out := out + [f];
      }
    }
  }

  /** What a record keeps of a head under a decision. */
  function Snapshot(redact: bool, fs: seq<Field>): seq<Field> {
    if redact then RedactedHeaders(ToDict(fs)) else ToDict(fs)
  }

  /** Takes the snapshot of a header list that is about to be stripped. */
  method TakeSnapshot(headers: Headers, redact: bool) returns (snapshot: seq<Field>, touched: bool)
    ensures snapshot == Snapshot(redact, headers.items)
    ensures touched == (redact && Touched(headers.items))
  {
    snapshot := headers.Dict();
    touched := false;
    if redact {
      TouchedIff(headers.items);
      snapshot, touched := RedactHeaders(snapshot);
    }
  }
}
