/**
 The semantic-token cache: the tokens last stored for a document, plus a bounded
 history of delta baselines evicted least-recently-used first.
 */
module SemanticCache {
  import opened Wrappers

  type Uri = nat
  type ResultId = nat

  const BASELINE_HISTORY: nat := 8
  const BASELINE_BYTES_PER_DOCUMENT: nat := 512 * 1024
  /** Five u32 fields per token. */
  const TOKEN_SIZE: nat := 20

  /** One response's tokens; `content` stands for the token data itself. */
  datatype Tokens = Tokens(resultId: Option<ResultId>, length: nat, content: nat)

  datatype Snapshot = Snapshot(parsedVersion: nat, incarnation: nat, generation: nat)

  datatype CachedTokens = CachedTokens(tokens: Tokens, language: string, snapshot: Snapshot, cacheKey: nat)

  function TokenBytes(tokens: Tokens): nat {
    tokens.length * TOKEN_SIZE
  }

  // ---------------------------------------------------------------- the abstract document

  /** A retained baseline. A document is, abstractly, its current entry and its
      baselines from least to most recently used. */
  datatype Baseline = Baseline(id: ResultId, tokens: Tokens)

  datatype View = View(current: Option<CachedTokens>, baselines: seq<Baseline>)

  const EMPTY_VIEW := View(None, [])

  function Bytes(bs: seq<Baseline>): nat {
    if bs == [] then 0 else TokenBytes(bs[0].tokens) + Bytes(bs[1..])
  }

  predicate Fits(bs: seq<Baseline>) {
    |bs| <= BASELINE_HISTORY && Bytes(bs) <= BASELINE_BYTES_PER_DOCUMENT
  }

  /** The longest suffix with at least one entry that fits both limits. */
  function Trim(bs: seq<Baseline>): (r: seq<Baseline>) {
    if |bs| > 1 && !Fits(bs) then Trim(bs[1..]) else bs
  }

  function Without(bs: seq<Baseline>, id: ResultId): (r: seq<Baseline>)
    ensures forall b :: b in r <==> b in bs && b.id != id
  {
    if bs == [] then []
    else if bs[0].id == id then Without(bs[1..], id)
    else [bs[0]] + Without(bs[1..], id)
  }

  function Lookup(bs: seq<Baseline>, id: ResultId): (r: Option<Tokens>)
    ensures r.Some? ==> Baseline(id, r.value) in bs
    ensures r.None? <==> forall b :: b in bs ==> b.id != id
  {
    if bs == [] then None
    else if bs[0].id == id then Some(bs[0].tokens)
    else Lookup(bs[1..], id)
  }

  predicate DistinctIds(bs: seq<Baseline>) {
    forall j, k | 0 <= j < k < |bs| :: bs[j].id != bs[k].id
  }

  function Remember(bs: seq<Baseline>, id: ResultId, tokens: Tokens): seq<Baseline> {
    Without(bs, id) + [Baseline(id, tokens)]
  }

  function Stored(v: View, entry: CachedTokens): View {
    View(Some(entry),
         if entry.tokens.resultId.Some? then Trim(Remember(v.baselines, entry.tokens.resultId.value, entry.tokens))
         else v.baselines)
  }

  predicate CurrentAnswers(v: View, id: ResultId) {
    v.current.Some? && v.current.value.tokens.resultId == Some(id)
  }

  /** The first step of a read, under one guard: the current entry, if it has the id. */
  function FastAnswer(v: View, id: ResultId): Option<Tokens> {
    if CurrentAnswers(v, id) then Some(v.current.value.tokens) else None
  }

  /** The second step, under another guard: whatever is current by now, an entry
      found among the baselines becomes the most recent one. */
  function Touched(v: View, id: ResultId): View {
    match Lookup(v.baselines, id)
    case None => v
    case Some(tokens) => v.(baselines := Remember(v.baselines, id, tokens))
  }

  /** What `get_if_valid` answers when nothing comes between its steps. */
  function Answer(v: View, id: ResultId): Option<Tokens> {
    if FastAnswer(v, id).Some? then FastAnswer(v, id) else Lookup(v.baselines, id)
  }

  // ---------------------------------------------------------------- the concrete document

  predicate Lists(order: seq<ResultId>, baselines: map<ResultId, Tokens>) {
    && (forall id | id in order :: id in baselines)
    && (forall id | id in baselines :: id in order)
    && Distinct(order)
  }

  /** The baselines in the order the deque lists them. */
  function Entries(order: seq<ResultId>, baselines: map<ResultId, Tokens>): (r: seq<Baseline>)
    requires forall id | id in order :: id in baselines
    ensures |r| == |order|
    ensures forall k :: 0 <= k < |r| ==> r[k] == Baseline(order[k], baselines[order[k]])
  {
    if order == [] then [] else [Baseline(order[0], baselines[order[0]])] + Entries(order[1..], baselines)
  }

  /** `VecDeque::retain(|other| other != id)`. */
  function Retained(order: seq<ResultId>, id: ResultId): (r: seq<ResultId>)
    ensures forall x :: x in r <==> x in order && x != id
    ensures id !in order ==> r == order
  {
    if order == [] then []
    else if order[0] == id then Retained(order[1..], id)
    else [order[0]] + Retained(order[1..], id)
  }

  lemma {:induction false} RetainedDistinct(order: seq<ResultId>, id: ResultId)
    requires Distinct(order)
    ensures Distinct(Retained(order, id))
  {
    if order != [] {
      RetainedDistinct(order[1..], id);
      var r := Retained(order[1..], id);
      assert order[0] !in order[1..] && order[0] !in r;
      if order[0] != id {
        DistinctCons(order[0], r);
      }
    }
  }

  lemma DistinctCons<T>(x: T, r: seq<T>)
    requires x !in r && Distinct(r)
    ensures Distinct([x] + r)
  {
  }

  lemma {:induction false} EntriesRetained(order: seq<ResultId>, id: ResultId, before: map<ResultId, Tokens>,
                                           after: map<ResultId, Tokens>)
    requires forall x | x in order :: x in before
    requires forall x | x in order && x != id :: x in after && after[x] == before[x]
    ensures Entries(Retained(order, id), after) == Without(Entries(order, before), id)
  {
    if order != [] {
      assert Entries(order, before)[1..] == Entries(order[1..], before);
      EntriesRetained(order[1..], id, before, after);
      if order[0] != id {
        assert Retained(order, id)[1..] == Retained(order[1..], id);
      }
    }
  }

  lemma {:induction false} BytesAppend(a: seq<Baseline>, b: seq<Baseline>)
    ensures Bytes(a + b) == Bytes(a) + Bytes(b)
  {
    if a == [] {
      assert a + b == b;
    } else {
      assert (a + b)[1..] == a[1..] + b;
      BytesAppend(a[1..], b);
    }
  }

  /** Dropping the one entry of `id` takes exactly its size off the total. */
  lemma {:induction false} BytesWithout(bs: seq<Baseline>, id: ResultId)
    requires DistinctIds(bs)
    ensures Bytes(bs) == Bytes(Without(bs, id)) + match Lookup(bs, id) case None => 0 case Some(t) => TokenBytes(t)
  {
    if bs != [] {
      BytesWithout(bs[1..], id);
      if bs[0].id == id {
        forall b | b in bs[1..]
          ensures b.id != id
        {
          var k :| 0 <= k < |bs[1..]| && bs[1..][k] == b;
          assert bs[0].id != bs[k + 1].id;
        }
        WithoutAbsent(bs[1..], id);
      } else {
        assert ([bs[0]] + Without(bs[1..], id))[1..] == Without(bs[1..], id);
      }
    }
  }

  lemma {:induction false} WithoutAbsent(bs: seq<Baseline>, id: ResultId)
    requires forall b :: b in bs ==> b.id != id
    ensures Without(bs, id) == bs
  {
    if bs != [] {
      WithoutAbsent(bs[1..], id);
    }
  }

  lemma {:induction false} LookupInEntries(order: seq<ResultId>, baselines: map<ResultId, Tokens>, id: ResultId)
    requires forall x | x in order :: x in baselines
    ensures Lookup(Entries(order, baselines), id) == if id in order then Some(baselines[id]) else None
  {
    if order != [] {
      assert Entries(order, baselines)[1..] == Entries(order[1..], baselines);
      LookupInEntries(order[1..], baselines, id);
    }
  }

  lemma EntriesDistinct(order: seq<ResultId>, baselines: map<ResultId, Tokens>)
    requires Lists(order, baselines)
    ensures DistinctIds(Entries(order, baselines))
  {
  }

  /** Remembering an entry changes the bytes by exactly the difference. */
  lemma BytesOfRemember(bs: seq<Baseline>, id: ResultId, tokens: Tokens)
    requires DistinctIds(bs)
    ensures var freed := match Lookup(bs, id) case None => 0 case Some(t) => TokenBytes(t);
            freed <= Bytes(bs) && Bytes(Remember(bs, id, tokens)) == Bytes(bs) - freed + TokenBytes(tokens)
  {
    BytesWithout(bs, id);
    BytesAppend(Without(bs, id), [Baseline(id, tokens)]);
    assert [Baseline(id, tokens)][1..] == [];
  }

  lemma ListsInserted(order: seq<ResultId>, baselines: map<ResultId, Tokens>, id: ResultId, tokens: Tokens)
    requires Lists(order, baselines)
    ensures Lists(Retained(order, id) + [id], baselines[id := tokens])
  {
    RetainedDistinct(order, id);
    DistinctSnoc(Retained(order, id), id);
    forall x | x in baselines[id := tokens]
      ensures x in Retained(order, id) + [id]
    {
      assert x != id ==> x in Retained(order, id);
    }
  }

  lemma DistinctSnoc<T>(r: seq<T>, x: T)
    requires x !in r && Distinct(r)
    ensures Distinct(r + [x])
  {
  }

  /** Inserting a baseline: the order stays a listing, and the bytes change by exactly the difference. */
  lemma InsertStep(order: seq<ResultId>, baselines: map<ResultId, Tokens>, id: ResultId, tokens: Tokens)
    requires Lists(order, baselines)
    ensures var order', baselines' := Retained(order, id) + [id], baselines[id := tokens];
            && Lists(order', baselines')
            && Entries(order', baselines') == Remember(Entries(order, baselines), id, tokens)
            && FreedBytes(baselines, id) <= Bytes(Entries(order, baselines))
            && Bytes(Entries(order', baselines')) ==
               Bytes(Entries(order, baselines)) - FreedBytes(baselines, id) + TokenBytes(tokens)
  {
    var before := Entries(order, baselines);
    ListsInserted(order, baselines, id, tokens);
    EntriesDistinct(order, baselines);
    LookupInEntries(order, baselines, id);
    BytesOfRemember(before, id, tokens);
    EntriesRetained(order, id, baselines, baselines[id := tokens]);
    EntriesAppend(Retained(order, id), id, baselines[id := tokens]);
  }

  lemma ListsRest(order: seq<ResultId>, baselines: map<ResultId, Tokens>)
    requires Lists(order, baselines) && order != []
    ensures order[0] !in order[1..] && Lists(order[1..], baselines - {order[0]})
  {
    assert order == [order[0]] + order[1..];
  }

  /** Evicting the oldest baseline takes exactly its size off the total. */
  lemma EvictStep(order: seq<ResultId>, baselines: map<ResultId, Tokens>)
    requires Lists(order, baselines) && order != []
    ensures var baselines' := baselines - {order[0]};
            && order[0] in baselines && Lists(order[1..], baselines')
            && Entries(order[1..], baselines') == Entries(order, baselines)[1..]
            && Bytes(Entries(order, baselines)) ==
               TokenBytes(baselines[order[0]]) + Bytes(Entries(order[1..], baselines'))
  {
    ListsRest(order, baselines);
    EntriesRestrict(order[1..], baselines, baselines - {order[0]});
    assert Entries(order, baselines)[1..] == Entries(order[1..], baselines);
    assert order == [order[0]] + order[1..];
  }

  // ---------------------------------------------------------------- one document

  /** One document's record, as the cache keeps it. */
  datatype Document = Document(
    current: Option<CachedTokens>,
    baselines: map<ResultId, Tokens>,
    baselineOrder: seq<ResultId>,
    baselineBytes: nat)
  {
    /** The order lists every key of the map once, and the byte count is exact. */
    ghost predicate Valid() {
      Lists(baselineOrder, baselines) && baselineBytes == Bytes(Entries(baselineOrder, baselines))
    }

    ghost function Contents(): View
      requires Valid()
    {
      View(current, Entries(baselineOrder, baselines))
    }
  }

  const EMPTY_DOCUMENT := Document(None, map[], [], 0)

  /** Record a response in a document; `saturated` says whether a byte
      subtraction ever fell short. */
  method StoreInDocument(document: Document, entry: CachedTokens) returns (after: Document, ghost saturated: bool)
    requires document.Valid()
    ensures after.Valid() && after.Contents() == Stored(document.Contents(), entry) && !saturated
  {
    after := document.(current := Some(entry));
    saturated := false;
    if entry.tokens.resultId.Some? {
      after, saturated := StoreBaseline(after, entry.tokens.resultId.value, entry.tokens);
    }
  }

  function FreedBytes(baselines: map<ResultId, Tokens>, id: ResultId): nat {
    if id in baselines then TokenBytes(baselines[id]) else 0
  }

  /** A document right after inserting a baseline, before any eviction. */
  function InsertedInto(document: Document, id: ResultId, tokens: Tokens): Document {
    Document(document.current, document.baselines[id := tokens], Retained(document.baselineOrder, id) + [id],
             SaturatingSub(document.baselineBytes, FreedBytes(document.baselines, id)) + TokenBytes(tokens))
  }

  lemma InsertedFields(document: Document, id: ResultId, tokens: Tokens, after: Document)
    requires after.current == document.current && after.baselines == document.baselines[id := tokens]
    requires after.baselineOrder == Retained(document.baselineOrder, id) + [id]
    requires after.baselineBytes ==
             SaturatingSub(document.baselineBytes, FreedBytes(document.baselines, id)) + TokenBytes(tokens)
    ensures after == InsertedInto(document, id, tokens)
  {
  }

  lemma FreedIsCounted(document: Document, id: ResultId)
    requires document.Valid()
    ensures FreedBytes(document.baselines, id) <= document.baselineBytes
  {
    InsertStep(document.baselineOrder, document.baselines, id, Tokens(None, 0, 0));
  }

  lemma InsertedDocument(document: Document, id: ResultId, tokens: Tokens)
    requires document.Valid()
    ensures InsertedInto(document, id, tokens).Valid()
    ensures InsertedInto(document, id, tokens).Contents() ==
            View(document.current, Remember(document.Contents().baselines, id, tokens))
  {
    InsertStep(document.baselineOrder, document.baselines, id, tokens);
  }

  /** The newest baseline goes to the back, replacing any of the same id; then
      the oldest are evicted until both limits hold, but never the newest. */
  method StoreBaseline(document: Document, id: ResultId, tokens: Tokens)
    returns (after: Document, ghost saturated: bool)
    requires document.Valid()
    ensures after.Valid() && !saturated
    ensures after.Contents() == View(document.current, Trim(Remember(document.Contents().baselines, id, tokens)))
  {
    after, saturated := InsertBaseline(document, id, tokens);
    ghost var again;
    after, again := EvictOldest(after);
    saturated := saturated || again;
  }

  method InsertBaseline(document: Document, id: ResultId, tokens: Tokens)
    returns (after: Document, ghost saturated: bool)
    requires document.Valid()
    ensures after.Valid() && !saturated
    ensures after.Contents() == View(document.current, Remember(document.Contents().baselines, id, tokens))
  {
    after, saturated := document, false;
    FreedIsCounted(document, id);
    if id in after.baselines {
      var previous := after.baselines[id];
      saturated := after.baselineBytes < TokenBytes(previous);
      after := after.(baselineBytes := SaturatingSub(after.baselineBytes, TokenBytes(previous)));
    }
    after := after.(baselines := after.baselines[id := tokens],
                    baselineBytes := after.baselineBytes + TokenBytes(tokens),
                    baselineOrder := Retained(after.baselineOrder, id) + [id]);
    InsertedFields(document, id, tokens, after);
    InsertedDocument(document, id, tokens);
  }

  /** A document without its least recently used baseline. */
  function EvictedFrom(document: Document): Document
    requires document.baselineOrder != []
  {
    var oldest := document.baselineOrder[0];
    Document(document.current, document.baselines - {oldest}, document.baselineOrder[1..],
             SaturatingSub(document.baselineBytes, FreedBytes(document.baselines, oldest)))
  }

  lemma EvictedDocument(document: Document)
    requires document.Valid() && document.baselineOrder != []
    ensures var oldest := document.baselineOrder[0];
            oldest in document.baselines && TokenBytes(document.baselines[oldest]) <= document.baselineBytes
    ensures EvictedFrom(document).Valid()
    ensures EvictedFrom(document).Contents() == View(document.current, document.Contents().baselines[1..])
    ensures |document.Contents().baselines| == |document.baselineOrder|
    ensures document.baselineBytes == Bytes(document.Contents().baselines)
  {
    EvictStep(document.baselineOrder, document.baselines);
  }

  method EvictOldest(document: Document) returns (after: Document, ghost saturated: bool)
    requires document.Valid()
    ensures after.Valid() && !saturated
    ensures after.Contents() == View(document.current, Trim(document.Contents().baselines))
  {
    after, saturated := document, false;
    while |after.baselineOrder| > 1
       && (|after.baselineOrder| > BASELINE_HISTORY || after.baselineBytes > BASELINE_BYTES_PER_DOCUMENT)
      invariant after.Valid() && !saturated && after.current == document.current
      invariant Trim(after.Contents().baselines) == Trim(document.Contents().baselines)
      decreases |after.baselineOrder|
    {
      var evicted := after.baselineOrder[0];
      EvictedDocument(after);
      ghost var before := after;
      after := after.(baselineOrder := after.baselineOrder[1..]);
      if evicted in after.baselines {
        var dropped := after.baselines[evicted];
        saturated := saturated || after.baselineBytes < TokenBytes(dropped);
        after := after.(baselines := after.baselines - {evicted},
                        baselineBytes := SaturatingSub(after.baselineBytes, TokenBytes(dropped)));
      }
      assert after == EvictedFrom(before);
    }
  }

  /** Move an id to the back of the order, if it is listed at all. */
  method TouchBaseline(document: Document, id: ResultId) returns (after: Document)
    requires document.Valid()
    ensures after.Valid()
    ensures after == document.(baselineOrder :=
                                 if id in document.baselineOrder then Retained(document.baselineOrder, id) + [id]
                                 else document.baselineOrder)
  {
    after := document;
    var index := Position(document.baselineOrder, id);
    if index == |document.baselineOrder| {
      return;
    }
    TouchAt(document.baselineOrder, document.baselines, index);
    if index + 1 == |document.baselineOrder| {
      return;
    }
    after := after.(baselineOrder := document.baselineOrder[..index] + document.baselineOrder[index + 1..] + [id]);
  }

  /** `VecDeque::iter().position(..)`, with the length standing for `None`. */
  method Position(order: seq<ResultId>, id: ResultId) returns (index: nat)
    ensures index <= |order| && id !in order[..index]
    ensures index < |order| ==> order[index] == id
    ensures index == |order| <==> id !in order
  {
    index := 0;
    while index < |order| && order[index] != id
      invariant index <= |order| && id !in order[..index]
    {
      index := index + 1;
    }
    assert index == |order| ==> order[..index] == order;
  }

  lemma RetainedCons(x: ResultId, rest: seq<ResultId>, id: ResultId)
    ensures Retained([x] + rest, id) == (if x == id then [] else [x]) + Retained(rest, id)
  {
    assert ([x] + rest)[1..] == rest;
  }

  lemma {:induction false} RetainedAround(front: seq<ResultId>, id: ResultId, back: seq<ResultId>)
    requires id !in front && id !in back
    ensures Retained(front + ([id] + back), id) == front + back
  {
    if front == [] {
      assert front + ([id] + back) == [id] + back && front + back == back;
      RetainedCons(id, back, id);
    } else {
      var rest := front[1..] + ([id] + back);
      assert front + ([id] + back) == [front[0]] + rest && front[0] in front;
      RetainedCons(front[0], rest, id);
      RetainedAround(front[1..], id, back);
      assert [front[0]] + (front[1..] + back) == front + back;
    }
  }

  /** In a list without duplicates, removing by value and by position agree. */
  lemma RetainedAt(order: seq<ResultId>, index: nat)
    requires index < |order| && Distinct(order)
    ensures Retained(order, order[index]) == order[..index] + order[index + 1..]
  {
    AroundIndex(order, index);
    OnlyAtIndex(order, index);
    RetainedAround(order[..index], order[index], order[index + 1..]);
  }

  lemma AroundIndex(order: seq<ResultId>, index: nat)
    requires index < |order|
    ensures order == order[..index] + ([order[index]] + order[index + 1..])
  {
  }

  lemma OnlyAtIndex(order: seq<ResultId>, index: nat)
    requires index < |order| && Distinct(order)
    ensures order[index] !in order[..index] && order[index] !in order[index + 1..]
  {
  }

  /** The reordering the source does by position is the one stated by value. */
  lemma TouchAt(order: seq<ResultId>, baselines: map<ResultId, Tokens>, index: nat)
    requires Lists(order, baselines) && index < |order|
    ensures var id := order[index];
            var order' := Retained(order, id) + [id];
            && order' == order[..index] + order[index + 1..] + [id]
            && (index + 1 == |order| ==> order' == order)
            && Lists(order', baselines) && Bytes(Entries(order', baselines)) == Bytes(Entries(order, baselines))
  {
    RetainedAt(order, index);
    LastStays(order, index);
    assert order[index] in order;
    TouchStep(order, baselines, order[index]);
  }

  lemma LastStays(order: seq<ResultId>, index: nat)
    requires index < |order|
    ensures index + 1 == |order| ==> order[..index] + order[index + 1..] + [order[index]] == order
  {
  }

  /** Touching only reorders: the listing and the byte count stay right. */
  lemma TouchStep(order: seq<ResultId>, baselines: map<ResultId, Tokens>, id: ResultId)
    requires Lists(order, baselines) && id in baselines
    ensures var order' := Retained(order, id) + [id];
            && Lists(order', baselines)
            && Entries(order', baselines) == Remember(Entries(order, baselines), id, baselines[id])
            && Bytes(Entries(order', baselines)) == Bytes(Entries(order, baselines))
  {
    InsertStep(order, baselines, id, baselines[id]);
    assert baselines[id := baselines[id]] == baselines;
  }

  lemma {:induction false} EntriesAppend(order: seq<ResultId>, id: ResultId, baselines: map<ResultId, Tokens>)
    requires (forall x | x in order :: x in baselines) && id in baselines
    ensures Entries(order + [id], baselines) == Entries(order, baselines) + [Baseline(id, baselines[id])]
  {
  }

  lemma {:induction false} EntriesRestrict(order: seq<ResultId>, before: map<ResultId, Tokens>,
                                           after: map<ResultId, Tokens>)
    requires forall x | x in order :: x in before && x in after && after[x] == before[x]
    ensures Entries(order, after) == Entries(order, before)
  {
  }

  datatype Event =
    | StoreEvent(uri: Uri, entry: CachedTokens)
    | FallbackEvent(uri: Uri, id: ResultId)
    | RemoveEvent(uri: Uri)
    | ClearEvent

  function ViewOf(views: map<Uri, View>, uri: Uri): View {
    if uri in views then views[uri] else EMPTY_VIEW
  }

  function CacheAnswer(views: map<Uri, View>, uri: Uri, id: ResultId): Option<Tokens> {
    Answer(ViewOf(views, uri), id)
  }

  function After(views: map<Uri, View>, event: Event): map<Uri, View> {
    match event
    case StoreEvent(u, entry) => views[u := Stored(ViewOf(views, u), entry)]
    case FallbackEvent(u, id) => if u in views then views[u := Touched(views[u], id)] else views
    case RemoveEvent(u) => views - {u}
    case ClearEvent => map[]
  }

  function Run(events: seq<Event>): map<Uri, View> {
    if events == [] then map[] else After(Run(events[..|events| - 1]), events[|events| - 1])
  }

  // ---------------------------------------------------------------- every document

  ghost predicate AllValid(documents: map<Uri, Document>) {
    forall u | u in documents :: documents[u].Valid()
  }

  ghost function AllContents(documents: map<Uri, Document>): map<Uri, View>
    requires AllValid(documents)
  {
    map u | u in documents :: documents[u].Contents()
  }

  lemma ContentsAfterWrite(documents: map<Uri, Document>, uri: Uri, document: Document)
    requires AllValid(documents) && document.Valid()
    ensures AllValid(documents[uri := document])
    ensures AllContents(documents[uri := document]) == AllContents(documents)[uri := document.Contents()]
  {
  }

  /** A read past the current entry, on the record and on its view. */
  lemma TouchedContents(document: Document, id: ResultId)
    requires document.Valid()
    ensures Lookup(document.Contents().baselines, id) ==
            if id in document.baselines then Some(document.baselines[id]) else None
    ensures id !in document.baselines ==> Touched(document.Contents(), id) == document.Contents()
    ensures id in document.baselines ==>
              var after := document.(baselineOrder := Retained(document.baselineOrder, id) + [id]);
              after.Valid() && after.Contents() == Touched(document.Contents(), id)
  {
    LookupInEntries(document.baselineOrder, document.baselines, id);
    if id in document.baselines {
      TouchStep(document.baselineOrder, document.baselines, id);
    }
  }

  /** The whole cache: one record per document, updated in place. */
  class SemanticTokenCache {
    var documents: map<Uri, Document>

    constructor ()
      ensures Valid() && Contents() == map[]
    {
      documents := map[];
    }

    ghost predicate Valid()
      reads this
    {
      AllValid(documents)
    }

    ghost function Contents(): map<Uri, View>
      requires Valid()
      reads this
    {
      AllContents(documents)
    }

    method Store(uri: Uri, entry: CachedTokens) returns (ghost saturated: bool)
      requires Valid()
      modifies this
      ensures Valid() && !saturated && Contents() == After(old(Contents()), StoreEvent(uri, entry))
    {
      var document;
      document, saturated := StoreInDocument(if uri in documents then documents[uri] else EMPTY_DOCUMENT, entry);
      ContentsAfterWrite(documents, uri, document);
      documents := documents[uri := document];
    }

    /** The fast path: answered by the current entry, it leaves the order alone. */
    method FastPath(uri: Uri, id: ResultId) returns (tokens: Option<Tokens>)
      requires Valid()
      ensures tokens == FastAnswer(ViewOf(Contents(), uri), id)
    {
      if uri in documents {
        var document := documents[uri];
        if document.current.Some? && document.current.value.tokens.resultId == Some(id) {
          return Some(document.current.value.tokens);
        }
      }
      return None;
    }

    /** The way past it: look in the baselines, and make what is found recent. */
    method Fallback(uri: Uri, id: ResultId) returns (tokens: Option<Tokens>)
      requires Valid()
      modifies this
      ensures Valid()
      ensures tokens == Lookup(ViewOf(old(Contents()), uri).baselines, id)
      ensures Contents() == After(old(Contents()), FallbackEvent(uri, id))
    {
      if uri !in documents {
        return None;
      }
      var document := documents[uri];
      ContentsAfterWrite(documents, uri, document);
      assert documents[uri := document] == documents;
      TouchedContents(document, id);
      if id !in document.baselines {
        return None;
      }
      var touched := TouchBaseline(document, id);
      ContentsAfterWrite(documents, uri, touched);
      documents := documents[uri := touched];
      return Some(document.baselines[id]);
    }

    /** The tokens of a result id, if they are still known. */
    method GetIfValid(uri: Uri, id: ResultId) returns (tokens: Option<Tokens>)
      requires Valid()
      modifies this
      ensures Valid()
      ensures tokens == CacheAnswer(old(Contents()), uri, id)
      ensures Contents() == if FastAnswer(ViewOf(old(Contents()), uri), id).Some? then old(Contents())
                            else After(old(Contents()), FallbackEvent(uri, id))
    {
      tokens := FastPath(uri, id);
      if tokens.None? {
        tokens := Fallback(uri, id);
      }
    }

    method Remove(uri: Uri)
      requires Valid()
      modifies this
      ensures Valid() && Contents() == After(old(Contents()), RemoveEvent(uri))
    {
      documents := documents - {uri};
    }

    method Clear()
      requires Valid()
      modifies this
      ensures Valid() && Contents() == After(old(Contents()), ClearEvent)
    {
      documents := map[];
    }
  }
}
