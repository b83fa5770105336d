/**
 The header multi-map: original order and casing, case-insensitive lookup, and the
 removal of the fields that concern one hop only.
 */
module Headers {
  import opened Basics
  import opened PyText

  datatype Field = Field(name: string, value: string)

  const HOP_BY_HOP: set<string> := {
    "proxy-connection", "proxy-authenticate", "proxy-authorization",
    "keep-alive", "te", "trailer"
  }

  const KEPT_OPTIONS: set<string> := {"close", "keep-alive", "upgrade"}

  // ------------------------------------------------------------------- lookup

  predicate Named(f: Field, name: string) {
    Lower(f.name) == Lower(name)
  }

  /** The value of the first field called `name`. */
  function Get(fs: seq<Field>, name: string): Option<string> {
    if fs == [] then None
    else if Named(fs[0], name) then Some(fs[0].value)
    else Get(fs[1..], name)
  }

  /** The values of all fields called `name`. */
  function GetAll(fs: seq<Field>, name: string): seq<string> {
    if fs == [] then []
    else if Named(fs[0], name) then [fs[0].value] + GetAll(fs[1..], name)
    else GetAll(fs[1..], name)
  }

  lemma GetAllContents(fs: seq<Field>, name: string)
    ensures forall f :: f in fs && Named(f, name) ==> f.value in GetAll(fs, name)
    ensures forall v :: v in GetAll(fs, name) ==> exists f :: f in fs && Named(f, name) && f.value == v
  {
  }

  lemma {:induction false} GetAllConcat(a: seq<Field>, b: seq<Field>, name: string)
    ensures GetAll(a + b, name) == GetAll(a, name) + GetAll(b, name)
  {
    if a == [] {
      assert a + b == b;
    } else {
      ConcatTail(a, b);
      GetAllConcat(a[1..], b, name);
    }
  }

  /**
   Every field of that name contributes its value once, after the values of the fields
   before it and before those of the fields after it; a field of another name nothing.
   */
  lemma GetAllInOrder(fs: seq<Field>, name: string, i: nat)
    requires i < |fs|
    ensures GetAll(fs, name) ==
      GetAll(fs[..i], name) + (if Named(fs[i], name) then [fs[i].value] else []) + GetAll(fs[i + 1..], name)
  {
    assert fs == fs[..i] + [fs[i]] + fs[i + 1..];
    GetAllConcat(fs[..i] + [fs[i]], fs[i + 1..], name);
    GetAllConcat(fs[..i], [fs[i]], name);
    assert GetAll([fs[i]], name) == if Named(fs[i], name) then [fs[i].value] else [];
  }

  // ---------------------------------------------------------------- filtering

  /** The fields whose lower-cased name is outside `drop`, in order. */
  function Without(fs: seq<Field>, drop: set<string>): seq<Field> {
    if fs == [] then []
    else (if Lower(fs[0].name) in drop then [] else [fs[0]]) + Without(fs[1..], drop)
  }

  function SplitOn(s: string, c: char): (parts: seq<string>)
    ensures parts != []
    decreases |s|
  {
    match Cut(s, c)
    case None => [s]
    case Some((before, after)) => [before] + SplitOn(after, c)
  }

  /** The connection options that a `Connection` value lists. */
  function OptionsOf(value: string): (options: seq<string>) {
    var parts := SplitOn(value, ',');
    seq(|parts|, i requires 0 <= i < |parts| => Lower(Strip(parts[i])))
  }

  /** A listed option names a field to drop unless it is empty or one of the kept ones. */
  predicate IsNomination(option: string) {
    option != "" && option !in KEPT_OPTIONS
  }

  /** `f` is a `Connection` field that lists `name`. */
  predicate Lists(f: Field, name: string) {
    Named(f, "connection") && name in OptionsOf(f.value)
  }

  predicate Nominated(fs: seq<Field>, name: string) {
    IsNomination(name) && exists f :: f in fs && Lists(f, name)
  }

  /** The options among `options` that name a field to drop. */
  function Nominations(options: seq<string>): set<string> {
    set option | option in options && IsNomination(option)
  }

  function NominatedBy(values: seq<string>): set<string> {
    set v, option | v in values && option in OptionsOf(v) && IsNomination(option) :: option
  }

  /** The names that `strip_hop_by_hop` removes from `fs`. */
  function DropSet(fs: seq<Field>): set<string> {
    HOP_BY_HOP + NominatedBy(GetAll(fs, "connection"))
  }

  /** The fields that go on to the next hop. */
  function Forwarded(fs: seq<Field>): seq<Field> {
    Without(fs, DropSet(fs))
  }

  /** The dropped names are the fixed ones and those that `Connection` nominates. */
  lemma DropSetContents(fs: seq<Field>, name: string)
    ensures name in DropSet(fs) <==> name in HOP_BY_HOP || Nominated(fs, name)
  {
    var values := GetAll(fs, "connection");
    GetAllContents(fs, "connection");
    if Nominated(fs, name) {
      var f :| f in fs && Lists(f, name);
      assert f.value in values;
    }
    if name in NominatedBy(values) {
      var v :| v in values && name in OptionsOf(v) && IsNomination(name);
      var f :| f in fs && Named(f, "connection") && f.value == v;
      assert Lists(f, name);
    }
  }

  /** The positions that survive `Without`. */
  function Kept(fs: seq<Field>, drop: set<string>): (kept: seq<nat>)
    ensures Increasing(kept) && forall k :: 0 <= k < |kept| ==> kept[k] < |fs|
  {
    if fs == [] then []
    else
      var kept := Kept(fs[..|fs| - 1], drop);
      if Lower(fs[|fs| - 1].name) in drop then kept else kept + [|fs| - 1]
  }

  lemma {:induction false} WithoutSnoc(fs: seq<Field>, f: Field, drop: set<string>)
    ensures Without(fs + [f], drop) == Without(fs, drop) + (if Lower(f.name) in drop then [] else [f])
  {
    if fs != [] {
      assert (fs + [f])[1..] == fs[1..] + [f];
      WithoutSnoc(fs[1..], f, drop);
    } else {
      assert fs + [f] == [f];
    }
  }

  /** `out` holds the fields at the positions `kept`, which are those of names outside `drop`. */
  ghost predicate Picks(fs: seq<Field>, kept: seq<nat>, out: seq<Field>, drop: set<string>) {
    && |kept| == |out|
    && (forall k :: 0 <= k < |kept| ==> kept[k] < |fs| && out[k] == fs[kept[k]])
    && (forall i :: 0 <= i < |fs| ==> (i in kept <==> Lower(fs[i].name) !in drop))
  }

  lemma PicksMore(init: seq<Field>, last: Field, kept: seq<nat>, out: seq<Field>, drop: set<string>)
    requires Picks(init, kept, out, drop) && Lower(last.name) !in drop
    ensures Picks(init + [last], kept + [|init|], out + [last], drop)
  {
  }

  lemma PicksSame(init: seq<Field>, last: Field, kept: seq<nat>, out: seq<Field>, drop: set<string>)
    requires Picks(init, kept, out, drop) && Lower(last.name) in drop
    ensures Picks(init + [last], kept, out, drop)
  {
  }

  lemma {:induction false} WithoutSelects(fs: seq<Field>, drop: set<string>)
    ensures Picks(fs, Kept(fs, drop), Without(fs, drop), drop)
    decreases |fs|
  {
    if fs != [] {
      var init, last := fs[..|fs| - 1], fs[|fs| - 1];
      WithoutSelects(init, drop);
      WithoutLast(fs, drop);
      if Lower(last.name) in drop {
        PicksSame(init, last, Kept(init, drop), Without(init, drop), drop);
      } else {
        PicksMore(init, last, Kept(init, drop), Without(init, drop), drop);
      }
    }
  }

  lemma WithoutLast(fs: seq<Field>, drop: set<string>)
    requires fs != []
    ensures var init, last := fs[..|fs| - 1], fs[|fs| - 1];
      init + [last] == fs && Without(fs, drop) == if Lower(last.name) in drop then Without(init, drop) else Without(init, drop) + [last]
  {
    WithoutSnoc(fs[..|fs| - 1], fs[|fs| - 1], drop);
    assert fs[..|fs| - 1] + [fs[|fs| - 1]] == fs;
  }

  /** Hop-by-hop stripping keeps, in order, exactly the fields that no rule drops. */
  lemma ForwardedSelects(fs: seq<Field>) returns (kept: seq<nat>)
    ensures Increasing(kept) && |kept| == |Forwarded(fs)|
    ensures forall k :: 0 <= k < |kept| ==> kept[k] < |fs| && Forwarded(fs)[k] == fs[kept[k]]
    ensures forall i :: 0 <= i < |fs| ==>
      (i in kept <==> Lower(fs[i].name) !in HOP_BY_HOP && !Nominated(fs, Lower(fs[i].name)))
  {
    kept := Kept(fs, DropSet(fs));
    WithoutSelects(fs, DropSet(fs));
    forall name {:trigger Nominated(fs, name)}
      ensures name in DropSet(fs) <==> name in HOP_BY_HOP || Nominated(fs, name)
    {
      DropSetContents(fs, name);
    }
  }

  lemma WithoutContents(fs: seq<Field>, drop: set<string>)
    ensures forall f :: f in Without(fs, drop) <==> f in fs && Lower(f.name) !in drop
  {
  }

  lemma WithoutNothing(fs: seq<Field>, drop: set<string>)
    requires forall f :: f in fs ==> Lower(f.name) !in drop
    ensures Without(fs, drop) == fs
  {
  }

  /** Stripping twice is stripping once. */
  lemma ForwardedIdempotent(fs: seq<Field>)
    ensures Forwarded(Forwarded(fs)) == Forwarded(fs)
  {
    var out := Forwarded(fs);
    WithoutContents(fs, DropSet(fs));
    forall f | f in out
      ensures Lower(f.name) !in DropSet(out)
    {
      DropSetContents(out, Lower(f.name));
      DropSetContents(fs, Lower(f.name));
    }
    WithoutNothing(out, DropSet(out));
  }

  /** Lookup sees a field after filtering exactly when its name was kept. */
  lemma GetWithout(fs: seq<Field>, drop: set<string>, name: string)
    requires Lower(name) == name
    ensures Get(Without(fs, drop), name) == if name in drop then None else Get(fs, name)
  {
    if fs != [] {
      GetWithout(fs[1..], drop, name);
      assert Named(fs[0], name) <==> Lower(fs[0].name) == name;
      if Lower(fs[0].name) !in drop {
        assert Without(fs, drop)[1..] == Without(fs[1..], drop);
      } else {
        assert Without(fs, drop) == Without(fs[1..], drop);
      }
    }
  }

  // ----------------------------------------------------------------- as a dict

  /** A dict that keeps the order of insertion, after the value of `f` is added under its name. */
  function Noted(d: seq<Field>, f: Field): seq<Field> {
    if d == [] then [f]
    else if d[0].name == f.name then [Field(f.name, d[0].value + ", " + f.value)] + d[1..]
    else [d[0]] + Noted(d[1..], f)
  }

  /** The fields as a dict: the values of one spelling of a name joined by commas. */
  function ToDict(fs: seq<Field>): seq<Field> {
    if fs == [] then [] else Noted(ToDict(fs[..|fs| - 1]), fs[|fs| - 1])
  }

  lemma TakeOneMore<T>(s: seq<T>, i: nat)
    requires i < |s|
    ensures s[..i + 1] == s[..i] + [s[i]]
  {
  }

  lemma NominationsSnoc(options: seq<string>, option: string)
    ensures Nominations(options + [option]) ==
      Nominations(options) + (if IsNomination(option) then {option} else {})
  {
  }

  lemma NominatedBySnoc(values: seq<string>, v: string)
    ensures NominatedBy(values + [v]) == NominatedBy(values) + Nominations(OptionsOf(v))
  {
  }

  // -------------------------------------------------------------------- object

  /** The mutable header list of one message. */
  class Headers {
    var items: seq<Field>

    constructor (items: seq<Field>)
      ensures this.items == items
    {
      this.items := items;
    }

    method Dict() returns (out: seq<Field>)
      ensures out == ToDict(items)
    {
      out := [];
      for i := 0 to |items|
        invariant out == ToDict(items[..i])
      {
        assert items[..i + 1][..i] == items[..i];
        out := Noted(out, items[i]);
      }
      assert items[..|items|] == items;
    }

    /** Removes the proxy-only fields and every field that `Connection` nominates. */
    method StripHopByHop()
      modifies this
      ensures items == Forwarded(old(items))
    {
      var drop := HOP_BY_HOP;
      var values := GetAll(items, "connection");
      for i := 0 to |values|
        invariant items == old(items)
        invariant drop == HOP_BY_HOP + NominatedBy(values[..i])
      {
        var options := OptionsOf(values[i]);
        ghost var before := drop;
        for j := 0 to |options|
          invariant items == old(items)
          invariant drop == before + Nominations(options[..j])
        {
          TakeOneMore(options, j);
          NominationsSnoc(options[..j], options[j]);
          if IsNomination(options[j]) {
            drop := drop + {options[j]};
          }
        }
        assert options[..|options|] == options;
        TakeOneMore(values, i);
        NominatedBySnoc(values[..i], values[i]);
      }
      assert values[..|values|] == values;
      items := Without(items, drop);
    }
  }
}
