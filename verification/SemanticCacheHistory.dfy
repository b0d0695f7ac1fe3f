/**
 What the semantic-token cache answers over whole runs, against an unbounded
 history of what was stored and read.
 */
module SemanticCacheHistory {
  import opened SemanticCache
  import opened Wrappers

  // ---------------------------------------------------------------- trimming

  /** Trimming keeps the longest suffix, of at least one entry, that fits both limits. */
  lemma {:induction false} TrimIsLongestFit(bs: seq<Baseline>)
    ensures exists cut :: 0 <= cut <= |bs| && Trim(bs) == bs[cut..]
              && (bs != [] ==> cut < |bs|)
              && (Fits(bs[cut..]) || |bs[cut..]| == 1)
              && forall longer :: 0 <= longer < cut ==> !Fits(bs[longer..])
  {
    if |bs| > 1 && !Fits(bs) {
      TrimIsLongestFit(bs[1..]);
      var cut :| 0 <= cut <= |bs[1..]| && Trim(bs[1..]) == bs[1..][cut..] && cut < |bs[1..]|
              && (Fits(bs[1..][cut..]) || |bs[1..][cut..]| == 1)
              && forall longer :: 0 <= longer < cut ==> !Fits(bs[1..][longer..]);
      assert bs[1..][cut..] == bs[cut + 1..];
      forall longer | 0 <= longer < cut + 1
        ensures !Fits(bs[longer..])
      {
        if longer == 0 {
          assert bs[0..] == bs;
        } else {
          assert bs[longer..] == bs[1..][longer - 1..];
        }
      }
    } else {
      assert bs[0..] == bs;
    }
  }

  /** Adding a newest entry never revives one already evicted. */
  lemma {:induction false} TrimThenAppend(bs: seq<Baseline>, x: Baseline)
    ensures Trim(Trim(bs) + [x]) == Trim(bs + [x])
  {
    if |bs| > 1 && !Fits(bs) {
      TrimThenAppend(bs[1..], x);
      assert (bs + [x])[1..] == bs[1..] + [x];
      if Fits(bs + [x]) {
        BytesAppend(bs, [x]);
        assert false;
      }
    }
  }

  // ---------------------------------------------------------------- remembering

  lemma {:induction false} WithoutDistinct(bs: seq<Baseline>, id: ResultId)
    requires DistinctIds(bs)
    ensures DistinctIds(Without(bs, id))
  {
    if bs != [] {
      WithoutDistinct(bs[1..], id);
      var rest := Without(bs[1..], id);
      if bs[0].id != id {
        forall j, k | 0 <= j < k < |[bs[0]] + rest|
          ensures ([bs[0]] + rest)[j].id != ([bs[0]] + rest)[k].id
        {
          assert ([bs[0]] + rest)[k] == rest[k - 1];
          if j == 0 {
            assert rest[k - 1] in bs[1..];
            var m :| 0 <= m < |bs[1..]| && bs[1..][m] == rest[k - 1];
            assert bs[0].id != bs[m + 1].id;
          } else {
            assert ([bs[0]] + rest)[j] == rest[j - 1];
          }
        }
      }
    }
  }

  lemma RememberDistinct(bs: seq<Baseline>, id: ResultId, tokens: Tokens)
    requires DistinctIds(bs)
    ensures DistinctIds(Remember(bs, id, tokens))
  {
    WithoutDistinct(bs, id);
  }

  lemma {:induction false} TrimDistinct(bs: seq<Baseline>)
    requires DistinctIds(bs)
    ensures DistinctIds(Trim(bs)) && (forall b :: b in Trim(bs) ==> b in bs)
    ensures bs != [] ==> Trim(bs) != [] && Trim(bs)[|Trim(bs)| - 1] == bs[|bs| - 1]
  {
    if |bs| > 1 && !Fits(bs) {
      TrimDistinct(bs[1..]);
    }
  }

  lemma {:induction false} LookupMember(bs: seq<Baseline>, b: Baseline)
    requires DistinctIds(bs) && b in bs
    ensures Lookup(bs, b.id) == Some(b.tokens)
  {
    if bs[0] != b {
      assert b in bs[1..];
      var k :| 0 <= k < |bs[1..]| && bs[1..][k] == b;
      assert bs[0].id != bs[k + 1].id;
      LookupMember(bs[1..], b);
    }
  }

  /** Reordering changes no answer. */
  lemma RememberKeepsLookup(bs: seq<Baseline>, id: ResultId, tokens: Tokens, other: ResultId)
    requires DistinctIds(bs) && Lookup(bs, id) == Some(tokens)
    ensures Lookup(Remember(bs, id, tokens), other) == Lookup(bs, other)
  {
    RememberDistinct(bs, id, tokens);
    var after := Remember(bs, id, tokens);
    assert forall b :: b in after ==> b in bs;
    if Lookup(bs, other).Some? {
      LookupMember(after, Baseline(other, Lookup(bs, other).value));
    }
  }

  // ---------------------------------------------------------------- the fast path changes no answer

  /** The current entry is also the baseline of its id. */
  predicate Coherent(v: View) {
    && DistinctIds(v.baselines)
    && (v.current.Some? && v.current.value.tokens.resultId.Some? ==>
          Lookup(v.baselines, v.current.value.tokens.resultId.value) == Some(v.current.value.tokens))
  }

  lemma StoredCoherent(v: View, entry: CachedTokens)
    requires Coherent(v)
    ensures Coherent(Stored(v, entry))
  {
    if entry.tokens.resultId.Some? {
      var id := entry.tokens.resultId.value;
      var remembered := Remember(v.baselines, id, entry.tokens);
      RememberDistinct(v.baselines, id, entry.tokens);
      TrimDistinct(remembered);
      LookupMember(Trim(remembered), Baseline(id, entry.tokens));
    }
  }

  lemma TouchedCoherent(v: View, id: ResultId)
    requires Coherent(v)
    ensures Coherent(Touched(v, id))
    ensures forall other :: Lookup(Touched(v, id).baselines, other) == Lookup(v.baselines, other)
  {
    if Lookup(v.baselines, id).Some? {
      var tokens := Lookup(v.baselines, id).value;
      RememberDistinct(v.baselines, id, tokens);
      forall other
        ensures Lookup(Touched(v, id).baselines, other) == Lookup(v.baselines, other)
      {
        RememberKeepsLookup(v.baselines, id, tokens, other);
      }
    }
  }

  lemma {:induction false} RunCoherent(events: seq<Event>, uri: Uri)
    ensures Coherent(ViewOf(Run(events), uri))
  {
    if events != [] {
      var before, last := events[..|events| - 1], events[|events| - 1];
      RunCoherent(before, uri);
      match last
      case StoreEvent(u, entry) => StoredCoherent(ViewOf(Run(before), uri), entry);
      case FallbackEvent(u, id) => TouchedCoherent(ViewOf(Run(before), uri), id);
      case _ =>
    }
  }

  /** In every reachable state, `get_if_valid` answers exactly what a plain
      lookup in the baselines would: the fast path never changes the answer. */
  lemma AnswerIsPlainLookup(events: seq<Event>, uri: Uri, id: ResultId)
    ensures CacheAnswer(Run(events), uri, id) == Lookup(ViewOf(Run(events), uri).baselines, id)
  {
    RunCoherent(events, uri);
  }

  // ---------------------------------------------------------------- answers are the last value stored

  /** The tokens last stored under this document and id since it was last removed or cleared. */
  function LastStored(events: seq<Event>, uri: Uri, id: ResultId): Option<Tokens> {
    if events == [] then None
    else
      var before, last := events[..|events| - 1], events[|events| - 1];
      match last
      case StoreEvent(u, entry) =>
        if u == uri && entry.tokens.resultId == Some(id) then Some(entry.tokens) else LastStored(before, uri, id)
      case FallbackEvent(_, _) => LastStored(before, uri, id)
      case RemoveEvent(u) => if u == uri then None else LastStored(before, uri, id)
      case ClearEvent => None
  }

  lemma {:induction false} BaselinesAreLastStored(events: seq<Event>, uri: Uri)
    ensures forall b :: b in ViewOf(Run(events), uri).baselines ==> LastStored(events, uri, b.id) == Some(b.tokens)
  {
    if events != [] {
      var before, last := events[..|events| - 1], events[|events| - 1];
      BaselinesAreLastStored(before, uri);
      RunCoherent(before, uri);
      var v := ViewOf(Run(before), uri);
      match last
      case StoreEvent(u, entry) =>
        if u == uri && entry.tokens.resultId.Some? {
          RememberDistinct(v.baselines, entry.tokens.resultId.value, entry.tokens);
          TrimDistinct(Remember(v.baselines, entry.tokens.resultId.value, entry.tokens));
        }
      case FallbackEvent(u, id) =>
        if u == uri && Lookup(v.baselines, id).Some? {
          assert Baseline(id, Lookup(v.baselines, id).value) in v.baselines;
        }
      case _ =>
    }
  }

  /** Any answer is the value last stored under that document and id. */
  lemma AnswerIsLastStored(events: seq<Event>, uri: Uri, id: ResultId)
    ensures var answer := CacheAnswer(Run(events), uri, id);
            answer.Some? ==> answer == LastStored(events, uri, id)
  {
    AnswerIsPlainLookup(events, uri, id);
    BaselinesAreLastStored(events, uri);
    var v := ViewOf(Run(events), uri);
    if Lookup(v.baselines, id).Some? {
      assert Baseline(id, Lookup(v.baselines, id).value) in v.baselines;
    }
  }

  /** The tokens stored last are always still answered, however large they are. */
  lemma NewestAlwaysAnswered(events: seq<Event>, uri: Uri, entry: CachedTokens)
    requires entry.tokens.resultId.Some?
    ensures CacheAnswer(Run(events + [StoreEvent(uri, entry)]), uri, entry.tokens.resultId.value) == Some(entry.tokens)
  {
    assert (events + [StoreEvent(uri, entry)])[..|events|] == events;
  }

  // ---------------------------------------------------------------- reads in two steps

  /** What a read answers when `between` happens after its fast path and before its fallback. */
  function AnswerAround(events: seq<Event>, between: seq<Event>, uri: Uri, id: ResultId): Option<Tokens> {
    var fast := FastAnswer(ViewOf(Run(events), uri), id);
    if fast.Some? then fast else Lookup(ViewOf(Run(events + between), uri).baselines, id)
  }

  /** Whatever comes between its steps, a read answers a plain lookup in the
      baselines at the step that answers, and that is the value last stored by then. */
  lemma InterleavedReadIsLastStored(events: seq<Event>, between: seq<Event>, uri: Uri, id: ResultId)
    ensures var answer := AnswerAround(events, between, uri, id);
            var seen := if FastAnswer(ViewOf(Run(events), uri), id).Some? then events else events + between;
            && answer == Lookup(ViewOf(Run(seen), uri).baselines, id)
            && (answer.Some? ==> answer == LastStored(seen, uri, id))
  {
    AnswerIsPlainLookup(events, uri, id);
    AnswerIsLastStored(events, uri, id);
    AnswerIsPlainLookup(events + between, uri, id);
    AnswerIsLastStored(events + between, uri, id);
  }

  /** Other reads that come between change nothing about the answer. */
  lemma {:induction false} ReadsDoNotDisturbReads(events: seq<Event>, between: seq<Event>, uri: Uri, id: ResultId)
    requires forall k | 0 <= k < |between| :: between[k].FallbackEvent?
    ensures Lookup(ViewOf(Run(events + between), uri).baselines, id) == Lookup(ViewOf(Run(events), uri).baselines, id)
    ensures AnswerAround(events, between, uri, id) == CacheAnswer(Run(events), uri, id)
    decreases |between|
  {
    if between == [] {
      assert events + between == events;
    } else {
      var n := |between| - 1;
      var before := events + between[..n];
      ReadsDoNotDisturbReads(events, between[..n], uri, id);
      assert events + between == before + [between[n]];
      assert (events + between)[..|before|] == before;
      RunCoherent(before, uri);
      TouchedCoherent(ViewOf(Run(before), uri), between[n].id);
    }
  }

  // ---------------------------------------------------------------- the bounded list is the unbounded one, trimmed

  /** A history without limits. Stores append; so does a read that gets past the
      current entry, when the entry it asks for is among the retained ones. */
  datatype History = History(current: Option<CachedTokens>, recency: seq<Baseline>)

  function HistoryAfter(h: History, uri: Uri, event: Event): History {
    match event
    case StoreEvent(u, entry) =>
      if u != uri then h
      else History(Some(entry),
                   if entry.tokens.resultId.Some? then Remember(h.recency, entry.tokens.resultId.value, entry.tokens)
                   else h.recency)
    case FallbackEvent(u, id) =>
      if u != uri || Lookup(Trim(h.recency), id).None? then h
      else h.(recency := Remember(h.recency, id, Lookup(Trim(h.recency), id).value))
    case RemoveEvent(u) => if u == uri then History(None, []) else h
    case ClearEvent => History(None, [])
  }

  function HistoryOf(events: seq<Event>, uri: Uri): History {
    if events == [] then History(None, [])
    else HistoryAfter(HistoryOf(events[..|events| - 1], uri), uri, events[|events| - 1])
  }

  /** Every stored result id is new to its document: ids come from a global counter. */
  ghost predicate FreshIds(events: seq<Event>) {
    forall k :: 0 <= k < |events| && events[k].StoreEvent? && events[k].entry.tokens.resultId.Some? ==>
      forall b :: b in HistoryOf(events[..k], events[k].uri).recency ==> b.id != events[k].entry.tokens.resultId.value
  }

  lemma RememberTail(bs: seq<Baseline>, id: ResultId, tokens: Tokens)
    requires bs != [] && DistinctIds(bs) && Baseline(id, tokens) in bs[1..]
    ensures Remember(bs, id, tokens)[1..] == Remember(bs[1..], id, tokens)
  {
    var k :| 0 <= k < |bs[1..]| && bs[1..][k] == Baseline(id, tokens);
    assert bs[0].id != bs[k + 1].id;
    assert Without(bs, id) == [bs[0]] + Without(bs[1..], id);
  }

  /** Making a retained entry the most recent commutes with trimming. */
  lemma {:induction false} TouchCommutesWithTrim(bs: seq<Baseline>, id: ResultId, tokens: Tokens)
    requires DistinctIds(bs) && Lookup(Trim(bs), id) == Some(tokens)
    ensures Trim(Remember(bs, id, tokens)) == Remember(Trim(bs), id, tokens)
  {
    TrimDistinct(bs);
    LookupMember(bs, Baseline(id, tokens));
    SameSize(bs, id, tokens);
    if |bs| > 1 && !Fits(bs) {
      TouchCommutesWithTrim(bs[1..], id, tokens);
      TrimDistinct(bs[1..]);
      RememberTail(bs, id, tokens);
      TrimOnce(bs);
      TrimOnce(Remember(bs, id, tokens));
    } else {
      TrimNever(bs);
      TrimNever(Remember(bs, id, tokens));
    }
  }

  lemma TrimOnce(bs: seq<Baseline>)
    requires |bs| > 1 && !Fits(bs)
    ensures Trim(bs) == Trim(bs[1..])
  {
  }

  lemma TrimNever(bs: seq<Baseline>)
    requires |bs| <= 1 || Fits(bs)
    ensures Trim(bs) == bs
  {
  }

  /** Moving an entry to the back changes neither the count nor the bytes. */
  lemma SameSize(bs: seq<Baseline>, id: ResultId, tokens: Tokens)
    requires DistinctIds(bs) && Lookup(bs, id) == Some(tokens)
    ensures Bytes(Remember(bs, id, tokens)) == Bytes(bs) && |Remember(bs, id, tokens)| == |bs|
  {
    BytesWithout(bs, id);
    BytesAppend(Without(bs, id), [Baseline(id, tokens)]);
    assert [Baseline(id, tokens)][1..] == [];
    LengthWithout(bs, id);
  }

  lemma {:induction false} LengthWithout(bs: seq<Baseline>, id: ResultId)
    requires DistinctIds(bs)
    ensures |Without(bs, id)| == |bs| - (if Lookup(bs, id).Some? then 1 else 0)
  {
    if bs != [] {
      LengthWithout(bs[1..], id);
      if bs[0].id == id {
        forall b | b in bs[1..]
          ensures b.id != id
        {
          var k :| 0 <= k < |bs[1..]| && bs[1..][k] == b;
          assert bs[0].id != bs[k + 1].id;
        }
      }
    }
  }

  lemma {:induction false} HistoryDistinct(events: seq<Event>, uri: Uri)
    ensures DistinctIds(HistoryOf(events, uri).recency)
  {
    if events != [] {
      var before, last := events[..|events| - 1], events[|events| - 1];
      HistoryDistinct(before, uri);
      var h := HistoryOf(before, uri);
      match last
      case StoreEvent(u, entry) =>
        if entry.tokens.resultId.Some? { RememberDistinct(h.recency, entry.tokens.resultId.value, entry.tokens); }
      case FallbackEvent(u, id) =>
        if Lookup(Trim(h.recency), id).Some? { RememberDistinct(h.recency, id, Lookup(Trim(h.recency), id).value); }
      case _ =>
    }
  }

  /** With fresh ids, what the cache retains is exactly the longest suffix of the
      unbounded recency list that fits both limits. */
  lemma {:induction false} RetainsLongestRecentSuffix(events: seq<Event>, uri: Uri)
    requires FreshIds(events)
    ensures ViewOf(Run(events), uri) == View(HistoryOf(events, uri).current, Trim(HistoryOf(events, uri).recency))
  {
    if events != [] {
      var before, last := events[..|events| - 1], events[|events| - 1];
      assert FreshIds(before) by {
        forall k | 0 <= k < |before|
          ensures before[..k] == events[..k]
        {
        }
      }
      RetainsLongestRecentSuffix(before, uri);
      HistoryDistinct(before, uri);
      var h := HistoryOf(before, uri);
      match last
      case StoreEvent(u, entry) =>
        if u == uri && entry.tokens.resultId.Some? {
          var id := entry.tokens.resultId.value;
          WithoutAbsent(h.recency, id);
          TrimDistinct(h.recency);
          WithoutAbsent(Trim(h.recency), id);
          TrimThenAppend(h.recency, Baseline(id, entry.tokens));
        }
      case FallbackEvent(u, id) =>
        if u == uri && Lookup(Trim(h.recency), id).Some? {
          TouchCommutesWithTrim(h.recency, id, Lookup(Trim(h.recency), id).value);
        }
      case _ =>
    }
  }
}
