/**
 Recognising a configuration key that is one typo away from a known one.
 */
module UnknownKeys {

  /** A byte, as the character of its code. */
  type Byte = c: char | c as int < 0x100
  type Bytes = seq<Byte>

  const KNOWN_WORKSPACE_SETTING_KEYS: seq<Bytes> := [
    "searchPaths", "languages", "captureMappings", "autoInstall", "diagnosticsDebounceMs", "features",
    "languageServers"]

  const KNOWN_FEATURE_SETTING_KEYS: seq<Bytes> := [
    "textDocument/semanticTokens", "textDocument/publishDiagnostics", "window/logMessage",
    "workspace/diagnostic/refresh"]

  // ---------------------------------------------------------------- edit distance

  function Min3(a: nat, b: nat, c: nat): nat {
    var ab := if a < b then a else b;
    if ab < c then ab else c
  }

  /** The Levenshtein distance: insertions, deletions and substitutions. */
  function Distance(a: Bytes, b: Bytes): nat
    decreases |a| + |b|
  {
    if a == [] then |b|
    else if b == [] then |a|
    else Min3(Distance(a[1..], b) + 1, Distance(a, b[1..]) + 1,
              Distance(a[1..], b[1..]) + if a[0] == b[0] then 0 else 1)
  }

  lemma {:induction false} DistanceZero(a: Bytes, b: Bytes)
    ensures Distance(a, b) == 0 <==> a == b
    decreases |a| + |b|
  {
    if a != [] && b != [] {
      DistanceZero(a[1..], b[1..]);
      if a[1..] == b[1..] && a[0] == b[0] {
        assert a == [a[0]] + a[1..] && b == [b[0]] + b[1..];
      }
    }
  }

  /** Removing the head of either side moves the distance by at most one. */
  lemma {:induction false} DistanceStep(a: Bytes, b: Bytes)
    ensures a != [] ==> Distance(a, b) <= Distance(a[1..], b) + 1 && Distance(a[1..], b) <= Distance(a, b) + 1
    ensures b != [] ==> Distance(a, b) <= Distance(a, b[1..]) + 1 && Distance(a, b[1..]) <= Distance(a, b) + 1
    decreases |a| + |b|
  {
    if a != [] && b != [] {
      DistanceStep(a[1..], b[1..]);
      DistanceStep(a[1..], b);
      DistanceStep(a, b[1..]);
    }
  }

  /** Equal heads cost nothing. */
  lemma SameHead(a: Bytes, b: Bytes)
    requires a != [] && b != [] && a[0] == b[0]
    ensures Distance(a, b) == Distance(a[1..], b[1..])
  {
    DistanceStep(a[1..], b[1..]);
    DistanceStep(a[1..], b);
    DistanceStep(a, b[1..]);
  }

  lemma {:induction false} DistanceSymmetric(a: Bytes, b: Bytes)
    ensures Distance(a, b) == Distance(b, a)
    decreases |a| + |b|
  {
    if a != [] && b != [] {
      DistanceSymmetric(a[1..], b);
      DistanceSymmetric(a, b[1..]);
      DistanceSymmetric(a[1..], b[1..]);
    }
  }

  lemma {:induction false} LengthBound(a: Bytes, b: Bytes)
    ensures Distance(a, b) >= |a| - |b| && Distance(a, b) >= |b| - |a|
    decreases |a| + |b|
  {
    if a != [] && b != [] {
      LengthBound(a[1..], b);
      LengthBound(a, b[1..]);
      LengthBound(a[1..], b[1..]);
    }
  }

  // ---------------------------------------------------------------- the two scans, on suffixes

  function Mismatches(a: Bytes, b: Bytes): nat
    requires |a| == |b|
  {
    if a == [] then 0 else (if a[0] == b[0] then 0 else 1) + Mismatches(a[1..], b[1..])
  }

  lemma {:induction false} NoMismatch(a: Bytes, b: Bytes)
    requires |a| == |b|
    ensures Mismatches(a, b) == 0 <==> a == b
  {
    if a != [] {
      NoMismatch(a[1..], b[1..]);
      assert a == [a[0]] + a[1..] && b == [b[0]] + b[1..];
    }
  }

  /** Between words of one length, one edit is one substitution. */
  lemma {:induction false} OneMismatch(a: Bytes, b: Bytes)
    requires |a| == |b|
    ensures Mismatches(a, b) == 1 <==> Distance(a, b) == 1
  {
    if a != [] {
      if a[0] == b[0] {
        SameHead(a, b);
        OneMismatch(a[1..], b[1..]);
      } else {
        NoMismatch(a[1..], b[1..]);
        DistanceZero(a[1..], b[1..]);
        LengthBound(a[1..], b);
        LengthBound(a, b[1..]);
        DistanceZero(a, b);
      }
    }
  }

  /** The greedy scan of a word against one longer by one. */
  predicate OneInsertion(short: Bytes, long: Bytes)
    requires |long| == |short| + 1
  {
    if short == [] then true
    else if short[0] == long[0] then OneInsertion(short[1..], long[1..])
    else short == long[1..]
  }

  lemma {:induction false} OneInsertionIsDistance(short: Bytes, long: Bytes)
    requires |long| == |short| + 1
    ensures OneInsertion(short, long) <==> Distance(short, long) == 1
  {
    if short != [] {
      if short[0] == long[0] {
        SameHead(short, long);
        OneInsertionIsDistance(short[1..], long[1..]);
      } else {
        DistanceZero(short, long[1..]);
        LengthBound(short[1..], long);
        LengthBound(short[1..], long[1..]);
        LengthBound(short, long);
      }
    }
  }

  /** Count the positions at which two words of one length differ. */
  method CountMismatches(a: Bytes, b: Bytes) returns (count: nat)
    requires |a| == |b|
    ensures count == Mismatches(a, b)
  {
    count := 0;
    var k := 0;
    while k < |a|
      invariant k <= |a| && count + Mismatches(a[k..], b[k..]) == Mismatches(a, b)
    {
      assert a[k..][1..] == a[k + 1..] && b[k..][1..] == b[k + 1..];
      if a[k] != b[k] {
        count := count + 1;
      }
      k := k + 1;
    }
  }

  /** The greedy two-pointer scan neither misses nor invents an edit. */
  method IsOneEditApart(candidate: Bytes, known: Bytes) returns (apart: bool)
    ensures apart <==> Distance(candidate, known) == 1
  {
    var lenDiff := if |candidate| < |known| then |known| - |candidate| else |candidate| - |known|;
    if lenDiff > 1 {
      LengthBound(candidate, known);
      return false;
    }
    if lenDiff == 0 {
      var mismatches := CountMismatches(candidate, known);
      OneMismatch(candidate, known);
      return mismatches == 1;
    }
    var shorter, longer := if |candidate| < |known| then candidate else known,
                           if |candidate| < |known| then known else candidate;
    DistanceSymmetric(candidate, known);
    OneInsertionIsDistance(shorter, longer);
    var shortIndex, longIndex, edits := 0, 0, 0;
    while shortIndex < |shorter| && longIndex < |longer|
      invariant shortIndex <= |shorter| && longIndex <= |longer|
      invariant edits <= 1 && longIndex == shortIndex + edits
      invariant if edits == 0 then
                  OneInsertion(shorter, longer) == OneInsertion(shorter[shortIndex..], longer[longIndex..])
                else OneInsertion(shorter, longer) == (shorter[shortIndex..] == longer[longIndex..])
      decreases |longer| - longIndex
    {
      ghost var restShort, restLong := shorter[shortIndex..], longer[longIndex..];
      assert restShort[1..] == shorter[shortIndex + 1..] && restLong[1..] == longer[longIndex + 1..];
      if edits == 1 {
        assert restShort == [restShort[0]] + restShort[1..] && restLong == [restLong[0]] + restLong[1..];
      }
      if shorter[shortIndex] == longer[longIndex] {
        shortIndex := shortIndex + 1;
      } else {
        edits := edits + 1;
        if edits > 1 {
          return false;
        }
      }
      longIndex := longIndex + 1;
    }
    return true;
  }

  /** A key counts as known, or as a typo of a known one, exactly when it is at
      most one edit away from some known key. */
  method IsKeyOrTypo(key: Bytes, known: seq<Bytes>) returns (r: bool)
    ensures r <==> exists k :: k in known && Distance(key, k) <= 1
  {
    if key in known {
      DistanceZero(key, key);
      return true;
    }
    var n := 0;
    while n < |known|
      invariant n <= |known| && forall k :: k in known[..n] ==> Distance(key, k) > 1
    {
      var apart := IsOneEditApart(key, known[n]);
      DistanceZero(key, known[n]);
      if apart {
        return true;
      }
      assert known[..n + 1] == known[..n] + [known[n]];
      n := n + 1;
    }
    assert known[..n] == known;
    return false;
  }

  method IsWorkspaceSettingKeyOrTypo(key: Bytes) returns (r: bool)
    ensures r <==> exists k :: k in KNOWN_WORKSPACE_SETTING_KEYS && Distance(key, k) <= 1
  {
    r := IsKeyOrTypo(key, KNOWN_WORKSPACE_SETTING_KEYS);
  }

  method IsFeatureSettingKeyOrTypo(key: Bytes) returns (r: bool)
    ensures r <==> exists k :: k in KNOWN_FEATURE_SETTING_KEYS && Distance(key, k) <= 1
  {
    r := IsKeyOrTypo(key, KNOWN_FEATURE_SETTING_KEYS);
  }
}
