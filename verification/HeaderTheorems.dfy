/**
 What header lookup and stripping compute, said without their definitions.
 */
module HeaderTheorems {
  import opened Basics
  import opened PyText
  import opened TextTheorems
  import opened Headers

  // --------------------------------------------------------------------- lookup

  /** The first field called `name`, in any letter case, stands at `i`. `name` is given in lower case. */
  predicate FirstAt(fs: seq<Field>, name: string, i: nat) {
    i < |fs| && Lower(fs[i].name) == name && forall j :: 0 <= j < i ==> Lower(fs[j].name) != name
  }

  predicate Absent(fs: seq<Field>, name: string) {
    forall j :: 0 <= j < |fs| ==> Lower(fs[j].name) != name
  }

  /** `get` returns the value of the first field of that name, and None exactly when there is none. */
  lemma {:induction false} GetMeaning(fs: seq<Field>, name: string) returns (i: nat)
    requires Lower(name) == name
    ensures Get(fs, name) == None <==> Absent(fs, name)
    ensures Get(fs, name).Some? ==> FirstAt(fs, name, i) && Get(fs, name) == Some(fs[i].value)
    decreases |fs|
  {
    i := 0;
    if fs != [] {
      assert forall j :: 0 < j < |fs| ==> fs[j] == fs[1..][j - 1];
      if Lower(fs[0].name) != name {
        var k := GetMeaning(fs[1..], name);
        i := k + 1;
      }
    }
  }

  lemma GetFirst(fs: seq<Field>, name: string, i: nat)
    requires Lower(name) == name && FirstAt(fs, name, i)
    ensures Get(fs, name) == Some(fs[i].value)
  {
    var k := GetMeaning(fs, name);
    assert !Absent(fs, name);
  }

  /** The first field of that name contains `word` in some mixture of letter cases. */
  ghost predicate FirstSays(fs: seq<Field>, name: string, word: string) {
    exists i: nat :: FirstAt(fs, name, i) && HasWord(fs[i].value, word)
  }

  lemma FirstUnique(fs: seq<Field>, name: string, i: nat, j: nat)
    requires FirstAt(fs, name, i) && FirstAt(fs, name, j)
    ensures i == j
  {
  }

  lemma FirstSaysIff(fs: seq<Field>, name: string, word: string)
    requires Lower(name) == name && word != ""
    ensures FirstSays(fs, name, word) <==>
      Contains(Lower(match Get(fs, name) case None => "" case Some(v) => v), word)
  {
    var i := GetMeaning(fs, name);
    match Get(fs, name) {
      case None =>
      case Some(v) =>
        ContainsIff(v, word);
        if j: nat :| FirstAt(fs, name, j) && HasWord(fs[j].value, word) {
          FirstUnique(fs, name, i, j);
        }
    }
  }

  // -------------------------------------------------------------------- stripping

  /** `part` stands between commas, or between a comma and an end of the text. */
  predicate PartOf(value: string, a: string, part: string, b: string) {
    && value == a + part + b && ',' !in part
    && (a == "" || a[|a| - 1] == ',') && (b == "" || b[0] == ',')
  }

  /** Some part of the value, trimmed and lowered, is `option`. */
  ghost predicate ListsOption(value: string, option: string) {
    exists a, part, b :: PartOf(value, a, part, b) && Lower(Strip(part)) == option
  }

  lemma {:induction false} PartListed(value: string, a: string, part: string, b: string)
    requires PartOf(value, a, part, b)
    ensures part in SplitOn(value, ',')
    decreases |value|
  {
    if a == "" {
      FirstPartListed(value, part, b);
    } else {
      CutPastComma(value, a, part + b);
      var (before, more) := Cut(a, ',').value;
      SeqAssoc(a, part, b);
      SeqAssoc(more, part, b);
      assert more == "" || more[|more| - 1] == a[|a| - 1];
      PartListed(more + part + b, more, part, b);
    }
  }

  lemma FirstPartListed(value: string, part: string, b: string)
    requires value == "" + part + b && ',' !in part && (b == "" || b[0] == ',')
    ensures part in SplitOn(value, ',')
  {
    if b == "" {
      assert value == part;
    } else {
      assert value == part + [','] + b[1..];
      CutFirst(part, ',', b[1..]);
    }
  }

  lemma CutPastComma(value: string, a: string, rest: string)
    requires value == a + rest && ',' in a
    ensures var (before, more) := Cut(a, ',').value; Cut(value, ',') == Some((before, more + rest))
  {
    var (before, more) := Cut(a, ',').value;
    SeqAssoc(before + [','], more, rest);
    CutFirst(before, ',', more + rest);
  }

  lemma {:induction false} ListedPart(value: string, part: string) returns (a: string, b: string)
    requires part in SplitOn(value, ',')
    ensures PartOf(value, a, part, b)
    decreases |value|
  {
    match Cut(value, ',') {
      case None =>
        a, b := "", "";
      case Some((before, after)) =>
        if part == before {
          a, b := "", [','] + after;
        } else {
          a, b := ListedPart(after, part);
          BehindComma(before, a, part, b);
          a := before + [','] + a;
        }
    }
  }

  lemma BehindComma(before: string, a: string, part: string, b: string)
    ensures before + [','] + (a + part + b) == before + [','] + a + part + b
    ensures var more := before + [','] + a; more[|more| - 1] == if a == "" then ',' else a[|a| - 1]
  {
  }

  lemma OptionsIff(value: string, option: string)
    ensures option in OptionsOf(value) <==> ListsOption(value, option)
  {
    var parts := SplitOn(value, ',');
    if option in OptionsOf(value) {
      var k :| 0 <= k < |parts| && Lower(Strip(parts[k])) == option;
      var a, b := ListedPart(value, parts[k]);
    }
    if a, part, b :| PartOf(value, a, part, b) && Lower(Strip(part)) == option {
      PartListed(value, a, part, b);
      var k :| 0 <= k < |parts| && parts[k] == part;
      assert OptionsOf(value)[k] == option;
    }
  }

  /** Some `Connection` field, in any letter case, lists the option. */
  ghost predicate ConnectionLists(fs: seq<Field>, option: string) {
    exists i :: 0 <= i < |fs| && Lower(fs[i].name) == "connection" && ListsOption(fs[i].value, option)
  }

  lemma ConnectionListsIff(fs: seq<Field>, name: string)
    ensures Nominated(fs, name) <==> IsNomination(name) && ConnectionLists(fs, name)
  {
    assert Lower("connection") == "connection";
    if IsNomination(name) && ConnectionLists(fs, name) {
      var i :| 0 <= i < |fs| && Lower(fs[i].name) == "connection" && ListsOption(fs[i].value, name);
      OptionsIff(fs[i].value, name);
      assert fs[i] in fs && Lists(fs[i], name);
    }
    if Nominated(fs, name) {
      var f :| f in fs && Lists(f, name);
      OptionsIff(f.value, name);
      var i :| 0 <= i < |fs| && fs[i] == f;
    }
  }

  /** A field goes on to the next hop unless its name is one of six, or a connection option other than three. */
  lemma StrippedIff(fs: seq<Field>, f: Field)
    requires f in fs
    ensures var name := Lower(f.name);
      f !in Forwarded(fs) <==>
      || name == "proxy-connection" || name == "proxy-authenticate" || name == "proxy-authorization"
      || name == "keep-alive" || name == "te" || name == "trailer"
      || (name != "" && name != "close" && name != "upgrade" && ConnectionLists(fs, name))
  {
    var name := Lower(f.name);
    WithoutContents(fs, DropSet(fs));
    DropSetContents(fs, name);
    ConnectionListsIff(fs, name);
  }
}
