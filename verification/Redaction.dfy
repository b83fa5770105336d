/**
 Scrubbing credentials out of captured traffic: the JSON tree walk and the URL scan.
 */
module Redaction {
  import opened Basics
  import opened PyText
  import opened TextTheorems

  const REDACTED := "***REDACTED***"

  const SENSITIVE_FIELDS: set<string> := {
    "password", "passwd", "pwd", "secret", "token", "access_token", "refresh_token",
    "id_token", "client_secret", "api_key", "apikey", "private_key", "authorization",
    "session", "otp", "pin", "credit_card", "card_number", "cvv", "ssn"
  }

  predicate IsSensitive(name: string) {
    var lowered := Lower(name);
    || lowered in SENSITIVE_FIELDS
    || Contains(lowered, "password") || Contains(lowered, "secret")
    || Contains(lowered, "token") || Contains(lowered, "api_key")
  }

  // ----------------------------------------------------------------- JSON trees

  /** A parsed JSON value; an object keeps its members in order. */
  datatype Json =
    | Object(members: seq<Member>)
    | Array(items: seq<Json>)
    | Text(text: string)
    | Number(literal: string)
    | Bool(value: bool)
    | Null

  datatype Member = Member(key: string, value: Json)

  /** The redacted tree. */
  function Redacted(node: Json): Json
    decreases node, 1
  {
    match node
    case Object(members) => Object(RedactedMembers(members))
    case Array(items) => Array(RedactedItems(items))
    case _ => node
  }

  function RedactedMember(m: Member): Member
    decreases m
  {
    Member(m.key, if IsSensitive(m.key) then Text(REDACTED) else Redacted(m.value))
  }

  function RedactedMembers(members: seq<Member>): (r: seq<Member>)
    ensures |r| == |members|
    decreases members, 0
  {
    if members == [] then [] else [RedactedMember(members[0])] + RedactedMembers(members[1..])
  }

  function RedactedItems(items: seq<Json>): (r: seq<Json>)
    ensures |r| == |items|
    decreases items, 0
  {
    if items == [] then [] else [Redacted(items[0])] + RedactedItems(items[1..])
  }

  /** Some object in the tree, outside masked values, has a sensitive key. */
  ghost predicate HoldsSecret(node: Json)
    decreases node
  {
    match node
    case Object(members) =>
      exists m :: m in members && (IsSensitive(m.key) || HoldsSecret(m.value))
    case Array(items) => exists item :: item in items && HoldsSecret(item)
    case _ => false
  }

  /**
   Two trees an observer without credentials may not tell apart: they differ at most
   beneath sensitive keys. The shape, the keys and every other leaf are the same.
   */
  ghost predicate Alike(a: Json, b: Json)
    decreases a
  {
    match (a, b)
    case (Object(ms), Object(ns)) =>
      && |ms| == |ns|
      && forall i :: 0 <= i < |ms| ==> ms[i].key == ns[i].key && (IsSensitive(ms[i].key) || Alike(ms[i].value, ns[i].value))
    case (Array(xs), Array(ys)) =>
      |xs| == |ys| && forall i :: 0 <= i < |xs| ==> Alike(xs[i], ys[i])
    case _ => a == b && !a.Object? && !a.Array?
  }

  lemma {:induction false} RedactedMembersAll(members: seq<Member>)
    ensures forall i :: 0 <= i < |members| ==> RedactedMembers(members)[i] == RedactedMember(members[i])
    decreases |members|
  {
    if members != [] {
      var rest := members[1..];
      RedactedMembersAll(rest);
      assert forall i :: 0 < i < |members| ==> members[i] == rest[i - 1];
      assert forall i :: 0 < i < |members| ==> RedactedMembers(members)[i] == RedactedMembers(rest)[i - 1];
    }
  }

  lemma {:induction false} RedactedItemsAll(items: seq<Json>)
    ensures forall i :: 0 <= i < |items| ==> RedactedItems(items)[i] == Redacted(items[i])
    decreases |items|
  {
    if items != [] {
      var rest := items[1..];
      RedactedItemsAll(rest);
      assert forall i :: 0 < i < |items| ==> items[i] == rest[i - 1];
      assert forall i :: 0 < i < |items| ==> RedactedItems(items)[i] == RedactedItems(rest)[i - 1];
    }
  }

  /**
   Non-interference, exactly: redaction identifies two trees if and only if they differ
   at most beneath sensitive keys. So nothing under a sensitive key reaches the stored
   tree, and nothing else is lost.
   */
  lemma {:induction false} RedactionKernel(a: Json, b: Json)
    ensures Redacted(a) == Redacted(b) <==> Alike(a, b)
    decreases a
  {
    match (a, b) {
      case (Object(ms), Object(ns)) =>
        RedactedMembersAll(ms);
        RedactedMembersAll(ns);
        forall i | 0 <= i < |ms| && i < |ns|
          ensures RedactedMember(ms[i]) == RedactedMember(ns[i]) <==>
            ms[i].key == ns[i].key && (IsSensitive(ms[i].key) || Alike(ms[i].value, ns[i].value))
        {
          RedactionKernel(ms[i].value, ns[i].value);
        }
        if Alike(a, b) {
          assert RedactedMembers(ms) == RedactedMembers(ns);
        }
      case (Array(xs), Array(ys)) =>
        RedactedItemsAll(xs);
        RedactedItemsAll(ys);
        forall i | 0 <= i < |xs| && i < |ys|
          ensures Redacted(xs[i]) == Redacted(ys[i]) <==> Alike(xs[i], ys[i])
        {
          RedactionKernel(xs[i], ys[i]);
        }
        if Alike(a, b) {
          assert RedactedItems(xs) == RedactedItems(ys);
        }
      case _ =>
    }
  }

  /** The stored tree is itself alike to the original: keys, order, lengths and other leaves stay. */
  lemma {:induction false} RedactedAlike(a: Json)
    ensures Alike(Redacted(a), a)
    decreases a
  {
    match a {
      case Object(ms) =>
        RedactedMembersAll(ms);
        forall i | 0 <= i < |ms|
          ensures IsSensitive(ms[i].key) || Alike(Redacted(ms[i].value), ms[i].value)
        {
          RedactedAlike(ms[i].value);
        }
      case Array(xs) =>
        RedactedItemsAll(xs);
        forall i | 0 <= i < |xs|
          ensures Alike(Redacted(xs[i]), xs[i])
        {
          RedactedAlike(xs[i]);
        }
      case _ =>
    }
  }

  lemma RedactionIdempotent(a: Json)
    ensures Redacted(Redacted(a)) == Redacted(a)
  {
    RedactedAlike(a);
    RedactionKernel(Redacted(a), a);
  }

  /** Without a reachable sensitive key the tree is stored as it came. */
  lemma {:induction false} NothingToRedact(a: Json)
    requires !HoldsSecret(a)
    ensures Redacted(a) == a
    decreases a
  {
    match a {
      case Object(ms) =>
        RedactedMembersAll(ms);
        forall i | 0 <= i < |ms|
          ensures RedactedMembers(ms)[i] == ms[i]
        {
          assert ms[i] in ms;
          NothingToRedact(ms[i].value);
        }
      case Array(xs) =>
        RedactedItemsAll(xs);
        forall i | 0 <= i < |xs|
          ensures RedactedItems(xs)[i] == xs[i]
        {
          assert xs[i] in xs;
          NothingToRedact(xs[i]);
        }
      case _ =>
    }
  }

  // ---------------------------------------------------------- what is sensitive

  /** A key is sensitive if it is one of the listed names, or contains one of four words, in any letter case. */
  lemma SensitiveIff(name: string)
    ensures IsSensitive(name) <==>
      || Lower(name) in {
           "password", "passwd", "pwd", "secret", "token", "access_token", "refresh_token", "id_token",
           "client_secret", "api_key", "apikey", "private_key", "authorization", "session", "otp", "pin",
           "credit_card", "card_number", "cvv", "ssn"}
      || HasWord(name, "password") || HasWord(name, "secret") || HasWord(name, "token") || HasWord(name, "api_key")
  {
    ContainsIff(name, "password");
    ContainsIff(name, "secret");
    ContainsIff(name, "token");
    ContainsIff(name, "api_key");
  }

  /** What redaction makes of each kind of node: a sensitive value becomes the mask, and nothing else changes. */
  lemma RedactedMeaning(node: Json)
    ensures match node
      case Object(ms) =>
        && Redacted(node).Object? && |Redacted(node).members| == |ms|
        && forall i :: 0 <= i < |ms| ==>
             Redacted(node).members[i] ==
               Member(ms[i].key, if IsSensitive(ms[i].key) then Text("***REDACTED***") else Redacted(ms[i].value))
      case Array(xs) =>
        && Redacted(node).Array? && |Redacted(node).items| == |xs|
        && forall i :: 0 <= i < |xs| ==> Redacted(node).items[i] == Redacted(xs[i])
      case _ => Redacted(node) == node
  {
    match node {
      case Object(ms) => RedactedMembersAll(ms);
      case Array(xs) => RedactedItemsAll(xs);
      case _ =>
    }
  }

  /** The path of positions leads to a member with a sensitive key. */
  predicate SecretAt(node: Json, path: seq<nat>)
    decreases path
  {
    path != [] &&
    match node
    case Object(ms) =>
      path[0] < |ms| &&
      if |path| == 1 then IsSensitive(ms[path[0]].key) else SecretAt(ms[path[0]].value, path[1..])
    case Array(xs) => path[0] < |xs| && SecretAt(xs[path[0]], path[1..])
    case _ => false
  }

  ghost predicate Reaches(node: Json) {
    exists path: seq<nat> :: SecretAt(node, path)
  }

  /** A tree holds a secret exactly when some path leads to one. */
  lemma HoldsSecretIff(node: Json)
    ensures HoldsSecret(node) <==> Reaches(node)
  {
    if HoldsSecret(node) {
      var path := PathToSecret(node);
      assert Reaches(node);
    } else if Reaches(node) {
      var path: seq<nat> :| SecretAt(node, path);
      SecretFound(node, path);
    }
  }

  lemma {:induction false} PathToSecret(node: Json) returns (path: seq<nat>)
    requires HoldsSecret(node)
    ensures SecretAt(node, path)
    decreases node
  {
    match node {
      case Object(ms) =>
        var m :| m in ms && (IsSensitive(m.key) || HoldsSecret(m.value));
        var i :| 0 <= i < |ms| && ms[i] == m;
        if IsSensitive(m.key) {
          path := [i];
        } else {
          var more := PathToSecret(ms[i].value);
          path := [i] + more;
          assert path[1..] == more;
        }
      case Array(xs) =>
        var x :| x in xs && HoldsSecret(x);
        var i :| 0 <= i < |xs| && xs[i] == x;
        var more := PathToSecret(xs[i]);
        path := [i] + more;
        assert path[1..] == more;
    }
  }

  lemma {:induction false} SecretFound(node: Json, path: seq<nat>)
    requires SecretAt(node, path)
    ensures HoldsSecret(node)
    decreases |path|
  {
    match node {
      case Object(ms) =>
        assert ms[path[0]] in ms;
        if |path| > 1 { SecretFound(ms[path[0]].value, path[1..]); }
      case Array(xs) =>
        assert xs[path[0]] in xs;
        SecretFound(xs[path[0]], path[1..]);
    }
  }

  /** `_walk_json`: the redacted copy of a tree and whether anything was masked. */
  method WalkJson(node: Json) returns (out: Json, changed: bool)
    ensures out == Redacted(node)
    ensures changed <==> HoldsSecret(node)
    ensures !changed ==> out == node
    decreases node
  {
    changed := false;
    match node {
      case Object(members) =>
        var fields: seq<Member> := [];
        RedactedMembersAll(members);
        for i := 0 to |members|
          invariant |fields| == i && forall j :: 0 <= j < i ==> fields[j] == RedactedMember(members[j])
          invariant changed <==> exists j :: 0 <= j < i && (IsSensitive(members[j].key) || HoldsSecret(members[j].value))
        {
          var m := members[i];
          if IsSensitive(m.key) {
            fields := fields + [Member(m.key, Text(REDACTED))];
            changed := true;
          } else {
            var sub, subChanged := WalkJson(m.value);
            fields := fields + [Member(m.key, sub)];
            changed := changed || subChanged;
          }
        }
        assert fields == RedactedMembers(members);
        out := Object(fields);
      case Array(items) =>
        var results: seq<Json> := [];
        RedactedItemsAll(items);
        for i := 0 to |items|
          invariant |results| == i && forall j :: 0 <= j < i ==> results[j] == Redacted(items[j])
          invariant changed <==> exists j :: 0 <= j < i && HoldsSecret(items[j])
        {
          var sub, subChanged := WalkJson(items[i]);
          results := results + [sub];
          changed := changed || subChanged;
        }
        assert results == RedactedItems(items);
        out := Array(results);
      case _ =>
        out := node;
    }
    if !changed { NothingToRedact(node); }
  }
}
