/**
 The injection-token cache: region tokens keyed by document and content hash,
 stored in two steps and swept once per parse.
 */
module InjectionCache {
  import opened Wrappers

  type Uri = nat
  type Hash = nat
  type Tokens = seq<nat>

  datatype Region = Region(generation: nat, tokens: Tokens)

  type Cache = map<Uri, map<Hash, Region>>

  function Entry(cache: Cache, uri: Uri, hash: Hash): Option<Region> {
    if uri in cache && hash in cache[uri] then Some(cache[uri][hash]) else None
  }

  function Get(cache: Cache, uri: Uri, hash: Hash, generation: nat): Option<Tokens> {
    if uri in cache && hash in cache[uri] && cache[uri][hash].generation == generation
    then Some(cache[uri][hash].tokens) else None
  }

  /** No per-document map is ever left empty. */
  predicate NoEmptyDocument(cache: Cache) {
    forall u | u in cache :: cache[u] != map[]
  }

  function Inserted(cache: Cache, uri: Uri, hash: Hash, region: Region): Cache {
    cache[uri := (if uri in cache then cache[uri] else map[])[hash := region]]
  }

  function Swept(cache: Cache, uri: Uri, live: set<Hash>): (r: Cache)
    ensures forall u :: u != uri ==> (u in r <==> u in cache) && (u in r ==> r[u] == cache[u])
    ensures forall h :: Entry(r, uri, h) == if h in live then Entry(cache, uri, h) else None
  {
    if uri !in cache then cache
    else
      var kept := map h | h in cache[uri] && h in live :: cache[uri][h];
      assert forall h :: h in cache[uri] && h in live ==> h in kept;
      if kept == map[] then cache - {uri} else cache[uri := kept]
  }

  class InjectionTokenCache {
    var cache: Cache

    constructor ()
      ensures cache == map[]
    {
      cache := map[];
    }

    /** First step of a store: succeed at once if the document already has a map. */
    method StoreIfPresent(uri: Uri, hash: Hash, region: Region) returns (done: bool)
      modifies this
      ensures done == (uri in old(cache))
      ensures cache == if done then Inserted(old(cache), uri, hash, region) else old(cache)
    {
      done := uri in cache;
      if done {
        var document: map<Hash, Region> := cache[uri];
        document := document[hash := region];
        cache := cache[uri := document];
      }
    }

    /** Second step: create the document's map if it is still missing, and insert. */
    method StoreOrCreate(uri: Uri, hash: Hash, region: Region)
      modifies this
      ensures cache == Inserted(old(cache), uri, hash, region)
    {
      var document: map<Hash, Region> := if uri in cache then cache[uri] else map[];
      document := document[hash := region];
      cache := cache[uri := document];
    }

    method Store(uri: Uri, hash: Hash, generation: nat, tokens: Tokens)
      modifies this
      ensures cache == Inserted(old(cache), uri, hash, Region(generation, tokens))
    {
      var done := StoreIfPresent(uri, hash, Region(generation, tokens));
      if !done {
        StoreOrCreate(uri, hash, Region(generation, tokens));
      }
    }

    /** The eviction sweep: drop the hashes that are no longer live, and the
        whole document with the last of them. */
    method RetainDocument(uri: Uri, live: set<Hash>)
      modifies this
      ensures cache == Swept(old(cache), uri, live)
      ensures NoEmptyDocument(old(cache)) ==> NoEmptyDocument(cache)
    {
      if uri in cache {
        var document := cache[uri];
        var hashes := document.Keys;
        while hashes != {}
          invariant hashes <= cache[uri].Keys && uri in cache && cache == old(cache)
          invariant document == map h | h in cache[uri] && (h in live || h in hashes) :: cache[uri][h]
        {
          var h :| h in hashes;
          hashes := hashes - {h};
          if h !in live {
            document := document - {h};
          }
        }
        assert document == map h | h in cache[uri] && h in live :: cache[uri][h];
        cache := if document == map[] then cache - {uri} else cache[uri := document];
      }
    }

    method ClearDocument(uri: Uri)
      modifies this
      ensures cache == old(cache) - {uri}
    {
      cache := cache - {uri};
    }

    method Clear()
      modifies this
      ensures cache == map[]
    {
      cache := map[];
    }
  }

  // ---------------------------------------------------------------- interleavings

  datatype Pending = Pending(uri: Uri, hash: Hash, region: Region)

  /** The shared map plus the stores that have looked and are about to create. */
  datatype State = State(cache: Cache, pending: multiset<Pending>)

  datatype Event =
    | StoreProbe(store: Pending)
    | StoreCommit(store: Pending)
    | Read(uri: Uri, hash: Hash, generation: nat)
    | Sweep(uri: Uri, live: set<Hash>)
    | ClearDocument(uri: Uri)
    | Clear

  predicate Enabled(s: State, e: Event) {
    e.StoreCommit? ==> e.store in s.pending
  }

  function Apply(s: State, e: Event): State
    requires Enabled(s, e)
  {
    match e
    case StoreProbe(p) =>
      if p.uri in s.cache then s.(cache := Inserted(s.cache, p.uri, p.hash, p.region))
      else s.(pending := s.pending + multiset{p})
    case StoreCommit(p) =>
      State(Inserted(s.cache, p.uri, p.hash, p.region), s.pending - multiset{p})
    case Read(_, _, _) => s
    case Sweep(u, live) => s.(cache := Swept(s.cache, u, live))
    case ClearDocument(u) => s.(cache := s.cache - {u})
    case Clear => s.(cache := map[])
  }

  ghost predicate IsRun(states: seq<State>, events: seq<Event>) {
    && |states| == |events| + 1 && states[0] == State(map[], multiset{})
    && forall k :: 0 <= k < |events| ==> Enabled(states[k], events[k]) && states[k + 1] == Apply(states[k], events[k])
  }

  /** Whether event `k` put `region` under this key: a store takes effect at its
      probe when the document was there, and at its commit otherwise. */
  predicate Writes(states: seq<State>, events: seq<Event>, k: nat, uri: Uri, hash: Hash)
    requires k < |events| && k < |states|
  {
    match events[k]
    case StoreProbe(p) => p.uri == uri && p.hash == hash && uri in states[k].cache
    case StoreCommit(p) => p.uri == uri && p.hash == hash
    case _ => false
  }

  predicate Erases(e: Event, uri: Uri, hash: Hash) {
    match e
    case Sweep(u, live) => u == uri && hash !in live
    case ClearDocument(u) => u == uri
    case Clear => true
    case _ => false
  }

  /** The region last written under this key in the first `k` events and not erased since. */
  function LastWritten(states: seq<State>, events: seq<Event>, k: nat, uri: Uri, hash: Hash): Option<Region>
    requires k <= |events| <= |states|
  {
    if k == 0 then None
    else if Writes(states, events, k - 1, uri, hash) then Some(events[k - 1].store.region)
    else if Erases(events[k - 1], uri, hash) then None
    else LastWritten(states, events, k - 1, uri, hash)
  }

  lemma {:induction false} EntryIsLastWritten(states: seq<State>, events: seq<Event>, k: nat, uri: Uri, hash: Hash)
    requires IsRun(states, events) && k <= |events|
    ensures Entry(states[k].cache, uri, hash) == LastWritten(states, events, k, uri, hash)
  {
    if k > 0 {
      EntryIsLastWritten(states, events, k - 1, uri, hash);
      var s, e := states[k - 1], events[k - 1];
      assert states[k] == Apply(s, e);
      if e.Sweep? {
        SweptEntry(s.cache, e.uri, e.live, uri, hash);
      }
    }
  }

  lemma SweptEntry(cache: Cache, uri: Uri, live: set<Hash>, u: Uri, h: Hash)
    ensures Entry(Swept(cache, uri, live), u, h) == if u == uri && h !in live then None else Entry(cache, u, h)
  {
  }

  /** Under every interleaving, a read hits exactly when the tokens last written
      under that document and hash have its generation and have not been erased,
      and then it returns those tokens. */
  lemma HitIsLastStored(states: seq<State>, events: seq<Event>, k: nat, uri: Uri, hash: Hash, generation: nat)
    requires IsRun(states, events) && k <= |events|
    ensures var last := LastWritten(states, events, k, uri, hash);
            Get(states[k].cache, uri, hash, generation) ==
              if last.Some? && last.value.generation == generation then Some(last.value.tokens) else None
  {
    EntryIsLastWritten(states, events, k, uri, hash);
  }

  lemma {:induction false} NeverAnEmptyDocument(states: seq<State>, events: seq<Event>, k: nat)
    requires IsRun(states, events) && k <= |events|
    ensures NoEmptyDocument(states[k].cache)
  {
    if k > 0 {
      NeverAnEmptyDocument(states, events, k - 1);
      var s, e := states[k - 1], events[k - 1];
      match e
      case StoreProbe(p) => InsertedNotEmpty(s.cache, p);
      case StoreCommit(p) => InsertedNotEmpty(s.cache, p);
      case _ =>
    }
  }

  lemma InsertedNotEmpty(cache: Cache, p: Pending)
    requires NoEmptyDocument(cache)
    ensures NoEmptyDocument(Inserted(cache, p.uri, p.hash, p.region))
  {
    assert p.hash in Inserted(cache, p.uri, p.hash, p.region)[p.uri];
  }

  // ---------------------------------------------------------------- the content-addressed key

  const TWO_64: nat := 0x1_0000_0000_0000_0000
  const FNV_PRIME: nat := 0x100000001b3
  /** The inverse of the prime modulo 2^64. */
  const FNV_PRIME_INVERSE: nat := 0xce965057aff6957b

  type U64 = n: nat | n < TWO_64

  function Xor(a: nat, b: nat): (r: nat)
    ensures a == 0 ==> r == b
    decreases a + b
  {
    if a == 0 then b else if b == 0 then a
    else (a % 2 + b % 2) % 2 + 2 * Xor(a / 2, b / 2)
  }

  function RegionValidityHash(contentHash: U64, languageHash: U64): nat {
    Xor(contentHash, languageHash * FNV_PRIME % TWO_64)
  }

  /** Binary digits of the exclusive or, lowest first. */
  lemma XorDigits(a: nat, b: nat)
    ensures Xor(a, b) / 2 == Xor(a / 2, b / 2)
    ensures Xor(a, b) % 2 == (a % 2 + b % 2) % 2
  {
  }

  lemma LowDigitCancels(a: nat, b: nat)
    ensures ((a % 2 + b % 2) % 2 + b % 2) % 2 == a % 2
  {
  }

  lemma DigitsMakeNumber(a: nat, b: nat)
    requires a / 2 == b / 2 && a % 2 == b % 2
    ensures a == b
  {
  }

  lemma {:induction false} XorCancels(a: nat, b: nat)
    ensures Xor(Xor(a, b), b) == a
    decreases a + b
  {
    if a != 0 && b != 0 {
      XorCancels(a / 2, b / 2);
      XorDigits(a, b);
      XorDigits(Xor(a, b), b);
      LowDigitCancels(a, b);
      DigitsMakeNumber(a, Xor(Xor(a, b), b));
    } else if a == 0 {
      XorSelf(b);
    }
  }

  lemma {:induction false} XorSelf(b: nat)
    ensures Xor(b, b) == 0
  {
    if b != 0 {
      XorSelf(b / 2);
    }
  }

  lemma {:induction false} XorBelow(a: nat, b: nat, bits: nat)
    requires a < Pow2(bits) && b < Pow2(bits)
    ensures Xor(a, b) < Pow2(bits)
    decreases bits
  {
    if a != 0 && b != 0 {
      XorBelow(a / 2, b / 2, bits - 1);
    }
  }

  function Pow2(n: nat): nat { if n == 0 then 1 else 2 * Pow2(n - 1) }

  lemma XorCommutes(a: nat, b: nat)
    ensures Xor(a, b) == Xor(b, a)
    decreases a + b
  {
    if a != 0 && b != 0 {
      XorCommutes(a / 2, b / 2);
    }
  }

  /** Multiplying by the odd prime loses nothing modulo 2^64. */
  lemma PrimeIsInvertible(h: U64)
    ensures (h * FNV_PRIME % TWO_64) * FNV_PRIME_INVERSE % TWO_64 == h
  {
    var p := h * FNV_PRIME;
    var q := p / TWO_64;
    assert p % TWO_64 == p - q * TWO_64;
    var t := FNV_PRIME * FNV_PRIME_INVERSE / TWO_64;
    assert FNV_PRIME * FNV_PRIME_INVERSE == 1 + t * TWO_64;
    assert (p % TWO_64) * FNV_PRIME_INVERSE == h + (h * t - q * FNV_PRIME_INVERSE) * TWO_64;
    AddMultiple(h, h * t - q * FNV_PRIME_INVERSE);
  }

  lemma AddMultiple(h: U64, k: int)
    ensures (h + k * TWO_64) % TWO_64 == h
  {
  }

  /** The fold adds no collisions of its own: for one language it is injective in
      the content, and for one content two languages collide exactly when their
      own hashes do. */
  lemma FoldAddsNoCollisions(content: U64, content': U64, language: U64, language': U64)
    ensures RegionValidityHash(content, language) == RegionValidityHash(content', language) <==> content == content'
    ensures RegionValidityHash(content, language) == RegionValidityHash(content, language') <==> language == language'
  {
    var m, m' := language * FNV_PRIME % TWO_64, language' * FNV_PRIME % TWO_64;
    XorCancels(content, m);
    XorCancels(content', m);
    XorCommutes(content, m);
    XorCommutes(content, m');
    XorCancels(m, content);
    XorCancels(m', content);
    PrimeIsInvertible(language);
    PrimeIsInvertible(language');
  }

  /** The key is a 64-bit word again. */
  lemma HashFitsWord(content: U64, language: U64)
    ensures RegionValidityHash(content, language) < TWO_64
  {
    Pow2Is(64);
    XorBelow(content, language * FNV_PRIME % TWO_64, 64);
  }

  lemma Pow2Is(n: nat)
    requires n == 64
    ensures Pow2(n) == TWO_64
  {
    assert Pow2(4) == 16;
    Pow2Adds(4, 4);
    Pow2Adds(8, 8);
    Pow2Adds(16, 16);
    Pow2Adds(32, 32);
  }

  lemma {:induction false} Pow2Adds(a: nat, b: nat)
    ensures Pow2(a + b) == Pow2(a) * Pow2(b)
  {
    if a > 0 {
      Pow2Adds(a - 1, b);
    }
  }
}
