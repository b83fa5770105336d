/**
 The certificate-context cache: forged contexts per host, bounded, least recently used
 first out, and emptied whenever the certificate authority changes.
 */
module Certs {
  import opened Basics
  import opened PyText

  // ---------------------------------------------------------------- recency

  function Dropping(s: seq<string>, k: string): seq<string> {
    if s == [] then [] else (if s[0] == k then [] else [s[0]]) + Dropping(s[1..], k)
  }

  /** The distinct hosts of an access history, each at the place of its last access. */
  function LastUses(history: seq<string>): seq<string> {
    if history == [] then []
    else (if history[0] in history[1..] then [] else [history[0]]) + LastUses(history[1..])
  }

  /** The last `n` elements, or all of them. */
  function Suffix<T>(s: seq<T>, n: nat): seq<T> {
    s[|s| - Min(n, |s|)..]
  }

  /** The `n` most recently accessed distinct hosts, the latest last. */
  function Recent(history: seq<string>, n: nat): seq<string> {
    Suffix(LastUses(history), n)
  }

  /** Every access to `x` is followed by an access to `y`. */
  ghost predicate FollowedBy(h: seq<string>, x: string, y: string) {
    forall p :: 0 <= p < |h| && h[p] == x ==> y in h[p + 1..]
  }

  lemma FollowedCons(h: seq<string>, x: string, y: string)
    requires h != [] && y in h[1..] && FollowedBy(h[1..], x, y)
    ensures FollowedBy(h, x, y)
  {
    forall p | 0 <= p < |h| && h[p] == x
      ensures y in h[p + 1..]
    {
      if p > 0 {
        assert h[1..][p - 1] == x;
        assert h[1..][p..] == h[p + 1..];
      }
    }
  }

  lemma {:induction false} LastUsesDistinct(h: seq<string>)
    ensures Distinct(LastUses(h))
    ensures forall x :: x in LastUses(h) <==> x in h
  {
    if h != [] {
      LastUsesDistinct(h[1..]);
      assert forall x :: x in h <==> x == h[0] || x in h[1..];
    }
  }

  /** The hosts of `l` are listed by their last access in `h`. */
  ghost predicate ByLastAccess(h: seq<string>, l: seq<string>) {
    forall i, j :: 0 <= i < j < |l| ==> FollowedBy(h, l[i], l[j])
  }

  lemma ByLastAccessLater(h: seq<string>, m: seq<string>)
    requires h != [] && ByLastAccess(h[1..], m) && forall x :: x in m ==> x in h[1..]
    ensures ByLastAccess(h, m)
  {
    forall i, j | 0 <= i < j < |m|
      ensures FollowedBy(h, m[i], m[j])
    {
      assert m[j] in m;
      FollowedCons(h, m[i], m[j]);
    }
  }

  lemma ByLastAccessFirst(h: seq<string>, m: seq<string>)
    requires h != [] && h[0] !in h[1..] && ByLastAccess(h, m) && forall x :: x in m ==> x in h[1..]
    ensures ByLastAccess(h, [h[0]] + m)
  {
    var l := [h[0]] + m;
    forall i, j | 0 <= i < j < |l|
      ensures FollowedBy(h, l[i], l[j])
    {
      assert l[j] == m[j - 1] && m[j - 1] in m;
      if i == 0 {
        FollowedCons(h, l[0], l[j]);
      } else {
        assert l[i] == m[i - 1];
      }
    }
  }

  /** What `LastUses` means: the hosts accessed, once each, ordered by their last access. */
  lemma {:induction false} LastUsesMeaning(h: seq<string>)
    ensures Distinct(LastUses(h)) && ByLastAccess(h, LastUses(h))
    ensures forall x :: x in LastUses(h) <==> x in h
  {
    LastUsesDistinct(h);
    if h != [] {
      var m := LastUses(h[1..]);
      LastUsesMeaning(h[1..]);
      ByLastAccessLater(h, m);
      if h[0] in h[1..] {
        assert LastUses(h) == m;
      } else {
        ByLastAccessFirst(h, m);
      }
    }
  }

  /** And `Recent`: the last of them, as many as the cache has room for. */
  lemma RecentMeaning(h: seq<string>, n: nat) returns (older: seq<string>)
    ensures LastUses(h) == older + Recent(h, n)
    ensures |Recent(h, n)| <= n && (|Recent(h, n)| < n ==> older == [])
  {
    older := LastUses(h)[..|LastUses(h)| - Min(n, |LastUses(h)|)];
  }

  lemma DroppingAbsent(s: seq<string>, k: string)
    ensures k !in Dropping(s, k)
    ensures k !in s ==> Dropping(s, k) == s
    ensures forall x :: x in Dropping(s, k) ==> x in s
  {
  }

  lemma {:induction false} DroppingConcat(a: seq<string>, b: seq<string>, k: string)
    ensures Dropping(a + b, k) == Dropping(a, k) + Dropping(b, k)
  {
    if a == [] {
      assert a + b == b;
    } else {
      assert (a + b)[0] == a[0] && (a + b)[1..] == a[1..] + b;
      DroppingConcat(a[1..], b, k);
    }
  }

  /** One more access moves its host to the end. */
  lemma {:induction false} LastUsesSnoc(h: seq<string>, k: string)
    ensures LastUses(h + [k]) == Dropping(LastUses(h), k) + [k]
  {
    var l := h + [k];
    if h == [] {
      assert l[1..] == [];
    } else {
      assert l[0] == h[0] && l[1..] == h[1..] + [k];
      LastUsesSnoc(h[1..], k);
      DroppingConcat(if h[0] in h[1..] then [] else [h[0]], LastUses(h[1..]), k);
      assert h[0] in l[1..] <==> h[0] in h[1..] || h[0] == k;
    }
  }

  lemma {:induction false} DroppingOnce(s: seq<string>, k: string)
    requires Distinct(s) && k in s
    ensures |Dropping(s, k)| == |s| - 1
  {
    if s[0] == k {
      DroppingAbsent(s[1..], k);
      assert forall i :: 0 <= i < |s[1..]| ==> s[1..][i] == s[i + 1];
    } else {
      DroppingOnce(s[1..], k);
    }
  }

  lemma SplitDistinct(s: seq<string>, cut: nat, k: string)
    requires Distinct(s) && cut <= |s|
    ensures s == s[..cut] + s[cut..] && Distinct(s[cut..]) && (k in s[cut..] ==> k !in s[..cut])
    ensures Dropping(s, k) == Dropping(s[..cut], k) + Dropping(s[cut..], k)
  {
    assert s == s[..cut] + s[cut..];
    DroppingConcat(s[..cut], s[cut..], k);
    assert forall i :: 0 <= i < |s[cut..]| ==> s[cut..][i] == s[cut + i];
  }

  lemma RecentDistinct(h: seq<string>, n: nat)
    ensures Distinct(Recent(h, n))
  {
    LastUsesDistinct(h);
  }

  lemma SuffixOfConcat<T>(a: seq<T>, b: seq<T>, n: nat)
    requires |b| == Min(n, |a| + |b|)
    ensures Suffix(a + b, n) == b
  {
  }

  lemma HitOnList(l: seq<string>, k: string, n: nat)
    requires Distinct(l) && k in Suffix(l, n)
    ensures Suffix(Dropping(l, k) + [k], n) == Dropping(Suffix(l, n), k) + [k]
  {
    var cut := |l| - Min(n, |l|);
    var front, back := l[..cut], l[cut..];
    SplitDistinct(l, cut, k);
    DroppingAbsent(front, k);
    DroppingOnce(back, k);
    SeqAssoc(front, Dropping(back, k), [k]);
    SuffixOfConcat(front, Dropping(back, k) + [k], n);
  }

  lemma MissOnList(l: seq<string>, k: string, n: nat)
    requires Distinct(l) && k !in Suffix(l, n)
    ensures Suffix(Dropping(l, k) + [k], n) == Suffix(Suffix(l, n) + [k], n)
  {
    var cut := |l| - Min(n, |l|);
    SplitDistinct(l, cut, k);
    DroppingAbsent(l[cut..], k);
    var front, back := Dropping(l[..cut], k), l[cut..];
    SeqAssoc(front, back, [k]);
    FrontIsLongEnough(l, cut, k, n);
    SuffixOfSuffix(front, back + [k], n);
  }

  /** A hit: the cache moves the host to the end, and so does the list of recent hosts. */
  lemma RecentHit(h: seq<string>, k: string, n: nat)
    requires k in Recent(h, n)
    ensures Recent(h + [k], n) == Dropping(Recent(h, n), k) + [k]
  {
    LastUsesDistinct(h);
    LastUsesSnoc(h, k);
    HitOnList(LastUses(h), k, n);
  }

  /** A miss: the host is appended and the oldest make room. */
  lemma RecentMiss(h: seq<string>, k: string, n: nat)
    requires k !in Recent(h, n)
    ensures Recent(h + [k], n) == Suffix(Recent(h, n) + [k], n)
  {
    LastUsesDistinct(h);
    LastUsesSnoc(h, k);
    MissOnList(LastUses(h), k, n);
  }

  lemma FrontIsLongEnough(l: seq<string>, cut: nat, k: string, n: nat)
    requires Distinct(l) && cut <= |l| && (cut > 0 ==> |l| - cut == n)
    ensures |Dropping(l[..cut], k)| > 0 ==> |l| - cut + 1 >= n
  {
    DroppingAbsent(l[..cut], k);
  }

  lemma SuffixOfSuffix<T>(a: seq<T>, b: seq<T>, n: nat)
    requires a != [] ==> |b| >= n
    ensures Suffix(a + b, n) == Suffix(b, n)
  {
    if a == [] {
      assert a + b == b;
    }
  }

  // ------------------------------------------------------------------ the cache

  /** A loaded authority: the CA it signs for and the leaf key it generated. */
  datatype Forge = Forge(fingerprint: string, leafKey: nat)

  /** A server context: the forge that signed its chain and the host it was forged for. */
  datatype Context = Context(forge: Forge, host: string)

  datatype Entry = Entry(key: string, context: Context)

  datatype Served = Serves(context: Context) | NoActiveCa | ForgeFailed

  function Keys(entries: seq<Entry>): (keys: seq<string>)
    ensures |keys| == |entries| && forall i :: 0 <= i < |entries| ==> keys[i] == entries[i].key
  {
    seq(|entries|, i requires 0 <= i < |entries| => entries[i].key)
  }

  lemma KeysConcat(a: seq<Entry>, b: seq<Entry>)
    ensures Keys(a + b) == Keys(a) + Keys(b)
  {
  }

  lemma KeysSnoc(entries: seq<Entry>, e: Entry)
    ensures Keys(entries + [e]) == Keys(entries) + [e.key]
  {
  }

  lemma KeysSuffix(entries: seq<Entry>, n: nat)
    ensures Keys(Suffix(entries, n)) == Suffix(Keys(entries), n)
  {
  }

  function OtherThan(key: string): Entry -> bool {
    (e: Entry) => e.key != key
  }

  /** The entries under other keys. */
  function Others(entries: seq<Entry>, key: string): seq<Entry> {
    Filter(entries, OtherThan(key))
  }

  lemma {:induction false} KeysOfOthers(entries: seq<Entry>, key: string)
    ensures Keys(Others(entries, key)) == Dropping(Keys(entries), key)
    ensures forall e :: e in Others(entries, key) ==> e in entries
  {
    FilterContents(entries, OtherThan(key));
    if entries != [] {
      KeysOfOthers(entries[1..], key);
      assert Keys(entries)[1..] == Keys(entries[1..]);
      KeysConcat(if entries[0].key == key then [] else [entries[0]], Others(entries[1..], key));
    }
  }

  /** Where a key stands in a cache, lookup finds it, and taking its entry out leaves the others. */
  lemma OthersAt(entries: seq<Entry>, i: nat)
    requires i < |entries| && Distinct(Keys(entries))
    ensures Others(entries, entries[i].key) == entries[..i] + entries[i + 1..]
    ensures Lookup(entries, entries[i].key) == Some(entries[i].context)
  {
    forall j | 0 <= j < |entries|
      ensures OtherThan(entries[i].key)(entries[j]) <==> j != i
    {
      assert Keys(entries)[i] == entries[i].key && Keys(entries)[j] == entries[j].key;
    }
    FilterAt(entries, i, OtherThan(entries[i].key));
    LookupAt(entries, i);
  }

  lemma {:induction false} LookupAt(entries: seq<Entry>, i: nat)
    requires i < |entries| && Distinct(Keys(entries))
    ensures Lookup(entries, entries[i].key) == Some(entries[i].context)
  {
    if i > 0 {
      assert Keys(entries)[0] != Keys(entries)[i];
      assert Keys(entries[1..]) == Keys(entries)[1..];
      LookupAt(entries[1..], i - 1);
    }
  }

  function Lookup(entries: seq<Entry>, key: string): Option<Context> {
    if entries == [] then None
    else if entries[0].key == key then Some(entries[0].context)
    else Lookup(entries[1..], key)
  }

  lemma {:induction false} LookupFinds(entries: seq<Entry>, key: string)
    ensures Lookup(entries, key).Some? <==> key in Keys(entries)
    ensures Lookup(entries, key).Some? ==> Entry(key, Lookup(entries, key).value) in entries
  {
    if entries != [] {
      LookupFinds(entries[1..], key);
      assert Keys(entries) == [entries[0].key] + Keys(entries[1..]);
      assert entries[0] in entries;
    }
  }

  // ------------------------------------------------------------------ the provider

  /** What a provider holds: its forge, the fingerprint it loaded, the leaf key in the key file, the cache. */
  datatype Provider = Provider(
    forge: Option<Forge>, fingerprint: Option<string>, keyFile: Option<nat>, contexts: seq<Entry>)

  const EMPTY_PROVIDER := Provider(None, None, None, [])

  /**
   After the row that was read is applied. `leafKey` is the key of the forge built from it,
   or None when unwrapping or building it raises.
   */
  function Loaded(p: Provider, row: Option<string>, leafKey: Option<nat>): Provider {
    if row == None || row == p.fingerprint || leafKey == None then p
    else Provider(Some(Forge(row.value, leafKey.value)), row, leafKey, [])
  }

  predicate Swaps(p: Provider, row: Option<string>, leafKey: Option<nat>) {
    row != None && row != p.fingerprint && leafKey != None
  }

  /** What a host is answered: the cached context, or a new one if it can be forged. */
  function Answered(p: Provider, issuable: string -> bool, hostname: string): Served {
    if p.forge == None then NoActiveCa
    else match Lookup(p.contexts, Lower(hostname))
      case Some(context) => Serves(context)
      case None => if issuable(hostname) then Serves(Context(p.forge.value, hostname)) else ForgeFailed
  }

  /** The cache after `context` was served for a host: a hit moves to the end, a miss evicts the oldest. */
  function Cached(entries: seq<Entry>, cacheSize: nat, e: Entry): seq<Entry> {
    if e.key in Keys(entries) then Others(entries, e.key) + [e] else Suffix(entries + [e], cacheSize)
  }

  function AfterServing(p: Provider, cacheSize: nat, issuable: string -> bool, hostname: string): Provider {
    match Answered(p, issuable, hostname)
    case Serves(context) => p.(contexts := Cached(p.contexts, cacheSize, Entry(Lower(hostname), context)))
    case _ => p
  }

  /** The hosts served since the authority last changed, after one more call. */
  function ServedSince(p: Provider, issuable: string -> bool, hostname: string, served: seq<string>): seq<string> {
    if Answered(p, issuable, hostname).Serves? then served + [Lower(hostname)] else served
  }

  /** There is no answer only without an authority, or for a host that is neither cached nor issuable. */
  lemma AnsweredIff(p: Provider, issuable: string -> bool, hostname: string)
    ensures Answered(p, issuable, hostname) == NoActiveCa <==> p.forge == None
    ensures Answered(p, issuable, hostname) == ForgeFailed <==>
      p.forge.Some? && Lower(hostname) !in Keys(p.contexts) && !issuable(hostname)
    ensures p.forge.Some? && Lower(hostname) !in Keys(p.contexts) && issuable(hostname) ==>
      Answered(p, issuable, hostname) == Serves(Context(p.forge.value, hostname))
    ensures p.forge.Some? && Lower(hostname) in Keys(p.contexts) ==>
      var r := Answered(p, issuable, hostname); r.Serves? && Entry(Lower(hostname), r.context) in p.contexts
  {
    LookupFinds(p.contexts, Lower(hostname));
  }

  /** What was cached last stands last and is found, unless the cache has no room at all. */
  lemma CachedLast(entries: seq<Entry>, cacheSize: nat, e: Entry)
    requires cacheSize > 0 && Distinct(Keys(entries))
    ensures var after := Cached(entries, cacheSize, e);
      after != [] && after[|after| - 1] == e && Lookup(after, e.key) == Some(e.context)
  {
    var after := Cached(entries, cacheSize, e);
    CachedDistinct(entries, cacheSize, e);
    LookupAt(after, |after| - 1);
  }

  lemma CachedDistinct(entries: seq<Entry>, cacheSize: nat, e: Entry)
    requires Distinct(Keys(entries))
    ensures Distinct(Keys(Cached(entries, cacheSize, e)))
  {
    if e.key in Keys(entries) {
      KeysOfOthers(entries, e.key);
      DroppingAbsent(Keys(entries), e.key);
      DroppingDistinct(Keys(entries), e.key);
      KeysSnoc(Others(entries, e.key), e);
    } else {
      KeysSnoc(entries, e);
      KeysSuffix(entries + [e], cacheSize);
    }
  }

  lemma {:induction false} DroppingDistinct(s: seq<string>, k: string)
    requires Distinct(s)
    ensures Distinct(Dropping(s, k))
  {
    if s != [] {
      assert forall i :: 0 <= i < |s[1..]| ==> s[1..][i] == s[i + 1] && s[i + 1] != s[0];
      DroppingDistinct(s[1..], k);
      DroppingAbsent(s[1..], k);
      var rest := Dropping(s[1..], k);
      assert forall i :: 0 <= i < |rest| ==> rest[i] in rest;
    }
  }

  /**
   Serving a host that can be served makes it the most recent entry of a cache that has any
   room, and asking for it again gives the same context.
   */
  lemma ServedAgain(p: Provider, cacheSize: nat, issuable: string -> bool, served: seq<string>, hostname: string)
    requires Coherent(p, cacheSize, served) && cacheSize > 0
    requires p.forge.Some? && (Lower(hostname) in Keys(p.contexts) || issuable(hostname))
    ensures var r := Answered(p, issuable, hostname);
      var q := AfterServing(p, cacheSize, issuable, hostname);
      && r.Serves? && Answered(q, issuable, hostname) == r
      && q.contexts != [] && q.contexts[|q.contexts| - 1] == Entry(Lower(hostname), r.context)
  {
    AnsweredIff(p, issuable, hostname);
    RecentDistinct(served, cacheSize);
    CachedLast(p.contexts, cacheSize, Entry(Lower(hostname), Answered(p, issuable, hostname).context));
  }

  /** An authority is taken over exactly when it was read, is a different one and its forge can be built. */
  lemma LoadedIff(p: Provider, row: Option<string>, leafKey: Option<nat>)
    ensures row == None || row == p.fingerprint || leafKey == None ==> Loaded(p, row, leafKey) == p
    ensures row.Some? && row != p.fingerprint && leafKey.Some? ==>
      Loaded(p, row, leafKey) == Provider(Some(Forge(row.value, leafKey.value)), row, leafKey, [])
  {
  }

  /** The entry was forged by this authority, with the leaf key in the key file, for its host. */
  predicate IsCurrent(p: Provider, e: Entry) {
    p.forge == Some(e.context.forge) && p.keyFile == Some(e.context.forge.leafKey) && Lower(e.context.host) == e.key
  }

  ghost predicate AllCurrent(p: Provider, entries: seq<Entry>) {
    forall e :: e in entries ==> IsCurrent(p, e)
  }

  /**
   The cache refines the recency list of the hosts served since the authority changed, and
   every context in it is one that forging its host afresh could give.
   */
  ghost predicate Coherent(p: Provider, cacheSize: nat, served: seq<string>) {
    && (p.forge.None? ==> p.fingerprint == None && served == [])
    && (p.forge.Some? ==> p.fingerprint == Some(p.forge.value.fingerprint) && p.keyFile == Some(p.forge.value.leafKey))
    && Keys(p.contexts) == Recent(served, cacheSize)
    && AllCurrent(p, p.contexts)
  }

  /** A load keeps coherence; a swapped authority starts with an empty cache. */
  lemma LoadCoherent(p: Provider, cacheSize: nat, served: seq<string>, row: Option<string>, leafKey: Option<nat>)
    requires Coherent(p, cacheSize, served)
    ensures Coherent(Loaded(p, row, leafKey), cacheSize, if Swaps(p, row, leafKey) then [] else served)
  {
  }

  lemma CachedKeys(entries: seq<Entry>, cacheSize: nat, served: seq<string>, e: Entry)
    requires Keys(entries) == Recent(served, cacheSize)
    ensures Keys(Cached(entries, cacheSize, e)) == Recent(served + [e.key], cacheSize)
  {
    if e.key in Keys(entries) {
      RecentHit(served, e.key, cacheSize);
      KeysOfOthers(entries, e.key);
      KeysSnoc(Others(entries, e.key), e);
    } else {
      RecentMiss(served, e.key, cacheSize);
      KeysSnoc(entries, e);
      KeysSuffix(entries + [e], cacheSize);
    }
  }

  lemma CachedFrom(entries: seq<Entry>, cacheSize: nat, e: Entry)
    ensures forall x :: x in Cached(entries, cacheSize, e) ==> x == e || x in entries
  {
    KeysOfOthers(entries, e.key);
  }

  lemma AnsweredCurrent(p: Provider, issuable: string -> bool, hostname: string)
    requires AllCurrent(p, p.contexts)
    requires p.forge.Some? ==> p.keyFile == Some(p.forge.value.leafKey)
    ensures var r := Answered(p, issuable, hostname); r.Serves? ==> IsCurrent(p, Entry(Lower(hostname), r.context))
  {
    LookupFinds(p.contexts, Lower(hostname));
  }

  /** Serving a host keeps coherence, and what is served is current. */
  lemma ServeCoherent(p: Provider, cacheSize: nat, issuable: string -> bool, served: seq<string>, hostname: string)
    requires Coherent(p, cacheSize, served)
    ensures Coherent(AfterServing(p, cacheSize, issuable, hostname), cacheSize, ServedSince(p, issuable, hostname, served))
    ensures var r := Answered(p, issuable, hostname); r.Serves? ==> IsCurrent(p, Entry(Lower(hostname), r.context))
  {
    AnsweredCurrent(p, issuable, hostname);
    var r := Answered(p, issuable, hostname);
    if r.Serves? {
      var e := Entry(Lower(hostname), r.context);
      CachedKeys(p.contexts, cacheSize, served, e);
      CachedFrom(p.contexts, cacheSize, e);
    }
  }

  class CertificateAuthorityProvider {
    const cacheSize: nat
    /** Whether a certificate can be made for a host name. */
    const issuable: string -> bool

    var forge: Option<Forge>
    var fingerprint: Option<string>
    var contexts: seq<Entry>
    /** The leaf key in the key file. */
    var keyFile: Option<nat>
    /** The lower-cased hosts served since the CA last changed. */
    ghost var served: seq<string>

    function View(): Provider
      reads this
    {
      Provider(forge, fingerprint, keyFile, contexts)
    }

    ghost predicate Valid()
      reads this
    {
      Coherent(View(), cacheSize, served)
    }

    constructor (cacheSize: nat, issuable: string -> bool)
      ensures Valid() && View() == EMPTY_PROVIDER && served == []
      ensures this.cacheSize == cacheSize && this.issuable == issuable
    {
      this.cacheSize, this.issuable := cacheSize, issuable;
      forge, fingerprint, contexts, keyFile, served := None, None, [], None, [];
    }

    /**
     Applies the row that was read from the database. An absent, unchanged or failing
     authority changes nothing; a different one empties the cache.
     */
    method Load(row: Option<string>, leafKey: Option<nat>) returns (ok: bool)
      requires Valid()
      modifies this
      ensures Valid() && View() == Loaded(old(View()), row, leafKey)
      ensures ok == (row == None || row == old(fingerprint) || leafKey.Some?)
      ensures served == if Swaps(old(View()), row, leafKey) then [] else old(served)
    {
      LoadCoherent(View(), cacheSize, served, row, leafKey);
      if row == None { return true; }
      if row == fingerprint { return true; }
      if leafKey == None { return false; }
      keyFile := leafKey;
      forge := Some(Forge(row.value, leafKey.value));
      fingerprint := row;
      contexts := [];
      served := [];
      ok := true;
    }

    /** The place of a key in the cache, or -1. */
    method Find(key: string) returns (i: int)
      ensures -1 <= i < |contexts|
      ensures i >= 0 ==> contexts[i].key == key
      ensures i == -1 ==> key !in Keys(contexts)
    {
      for j := 0 to |contexts|
        invariant key !in Keys(contexts)[..j]
      {
        if contexts[j].key == key { return j; }
        assert Keys(contexts)[..j + 1] == Keys(contexts)[..j] + [Keys(contexts)[j]];
      }
      assert Keys(contexts)[..|contexts|] == Keys(contexts);
      i := -1;
    }

    /** The oldest entries go while the cache is over its size. */
    method Evict()
      modifies this`contexts
      ensures contexts == Suffix(old(contexts), cacheSize)
    {
      ghost var full := contexts;
      ghost var evicted := 0;
      while |contexts| > cacheSize
        invariant 0 <= evicted <= |full| && contexts == full[evicted..]
        invariant evicted > 0 ==> |contexts| >= cacheSize
        decreases |contexts|
      {
        contexts := contexts[1..];
        evicted := evicted + 1;
        assert full[evicted - 1..][1..] == full[evicted..];
      }
    }

    /**
     A context for a host. Afterwards the cache again holds exactly the most recently served
     hosts, in order; every context it holds or returns is current.
     */
    method ContextFor(hostname: string) returns (r: Served)
      requires Valid()
      modifies this`contexts, this`served
      ensures Valid() && r == Answered(old(View()), issuable, hostname)
      ensures View() == AfterServing(old(View()), cacheSize, issuable, hostname)
      ensures served == ServedSince(old(View()), issuable, hostname, old(served))
      ensures r.Serves? ==> IsCurrent(View(), Entry(Lower(hostname), r.context))
    {
      ServeCoherent(View(), cacheSize, issuable, served, hostname);
      if forge == None { return NoActiveCa; }
      var key := Lower(hostname);
      var i := Find(key);
      if i >= 0 {
        var hit := contexts[i];
        RecentDistinct(served, cacheSize);
        OthersAt(contexts, i);
        assert Keys(contexts)[i] == key;
        contexts := contexts[..i] + contexts[i + 1..] + [hit];
        served := served + [key];
        return Serves(hit.context);
      }
      LookupFinds(contexts, key);
      if !issuable(hostname) { return ForgeFailed; }
      var context := Context(forge.value, hostname);
      contexts := contexts + [Entry(key, context)];
      Evict();
      served := served + [key];
      r := Serves(context);
    }
  }
}
