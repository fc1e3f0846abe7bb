/**
 * What header injection guarantees, proved about the functions of module
 * InjectSpec (and so, through the methods' postconditions, about the
 * methods of module InjectSpanContext).
 */
module InjectProperties {
  import opened NgxString
  import opened NgxHttp
  import opened InjectSpec

  /** The pairs used by a sequence of replacements, in order. */
  function ReplacedPairs(rs: seq<Replacement>): (ps: seq<Pair>)
    ensures |ps| == |rs|
    ensures forall m :: 0 <= m < |rs| ==> ps[m] == rs[m].pair
  {
    if rs == [] then [] else [rs[0].pair] + ReplacedPairs(rs[1..])
  }

  /** s is obtained from t by deleting elements, without reordering. */
  predicate IsSubsequence(s: seq<Pair>, t: seq<Pair>)
    decreases |t|
  {
    s == [] || (t != [] && ((s[0] == t[0] && IsSubsequence(s[1..], t[1..])) || IsSubsequence(s, t[1..])))
  }

  lemma {:induction false} SubsequenceReflexive(t: seq<Pair>)
    ensures IsSubsequence(t, t)
  {
    if t != [] {
      SubsequenceReflexive(t[1..]);
    }
  }

  /** A subsequence of t with one element erased is a subsequence of t. */
  lemma {:induction false} SubsequenceOfErase(s: seq<Pair>, t: seq<Pair>, i: nat)
    requires i < |t|
    requires IsSubsequence(s, Erase(t, i))
    ensures IsSubsequence(s, t)
    decreases |t|
  {
    var e := Erase(t, i);
    if s == [] {
    } else if i == 0 {
      assert e == t[1..];
    } else {
      assert e[1..] == Erase(t[1..], i - 1);
      assert e[0] == t[0];
      if s[0] == e[0] && IsSubsequence(s[1..], e[1..]) {
        SubsequenceOfErase(s[1..], t[1..], i - 1);
      } else {
        SubsequenceOfErase(s, t[1..], i - 1);
      }
    }
  }

  lemma EraseMultiset(s: seq<Pair>, i: nat)
    requires i < |s|
    ensures multiset(s) == multiset(Erase(s, i)) + multiset{s[i]}
  {
    assert s == s[..i] + [s[i]] + s[i + 1..];
  }

  /** The i-th appended element is the one insert_header builds from the i-th pair. */
  lemma {:induction false} InsertedAt(ps: seq<Pair>, i: nat)
    requires i < |ps|
    ensures Inserted(ps)[i] == NewElt(ps[i].key, ps[i].value)
  {
    if i > 0 {
      InsertedAt(ps[1..], i - 1);
    }
  }

  /** The i-th collected pair is the i-th call with its key lower-cased. */
  lemma {:induction false} LowerPairsAt(calls: seq<Call>, i: nat)
    requires i < |calls|
    ensures LowerPairs(calls)[i] == Pair(ToLower(calls[i].key), calls[i].value)
  {
    if i > 0 {
      LowerPairsAt(calls[1..], i - 1);
    }
  }

  // ---------------------------------------------------------------------
  // The replace-in-place pass
  // ---------------------------------------------------------------------

  /**
   * The scan never reorders, removes, adds or re-keys headers: every header
   * keeps its position, hash, key and lowcase_key, and only its value may
   * change; headers before the starting index are not touched at all.
   */
  lemma {:induction false} ScanKeepsPositionsAndKeys(hs: seq<TableElt>, k: nat, pending: seq<Pair>)
    requires k <= |hs|
    ensures var r := ScanFrom(hs, k, pending);
      && |r.headers| == |hs|
      && (forall j :: 0 <= j < |hs| ==> r.headers[j] == hs[j].(value := r.headers[j].value))
      && (forall j :: 0 <= j < k ==> r.headers[j] == hs[j])
    decreases |hs| - k
  {
    if k < |hs| {
      var i := FirstMatch(pending, hs[k]);
      if i == |pending| {
        ScanKeepsPositionsAndKeys(hs, k + 1, pending);
      } else {
        ScanKeepsPositionsAndKeys(hs[k := hs[k].(value := pending[i].value)], k + 1, Erase(pending, i));
      }
    }
  }

  /**
   * Every replacement the scan makes is sound: it concerns a header at or
   * after the starting index whose key matches the pair, and that header
   * ends up holding the pair's value. Replacements are in strictly
   * increasing header order, so no header takes two pairs.
   */
  lemma {:induction false} ScanReplacementsMatch(hs: seq<TableElt>, k: nat, pending: seq<Pair>)
    requires k <= |hs|
    ensures var r := ScanFrom(hs, k, pending);
      && |r.headers| == |hs|
      && (forall m :: 0 <= m < |r.replaced| ==>
            && k <= r.replaced[m].index < |hs|
            && KeyMatches(hs[r.replaced[m].index], r.replaced[m].pair)
            && r.headers[r.replaced[m].index].value == r.replaced[m].pair.value)
      && (forall m, n :: 0 <= m < n < |r.replaced| ==> r.replaced[m].index < r.replaced[n].index)
    decreases |hs| - k
  {
    ScanKeepsPositionsAndKeys(hs, k, pending);
    if k < |hs| {
      var i := FirstMatch(pending, hs[k]);
      if i == |pending| {
        ScanReplacementsMatch(hs, k + 1, pending);
      } else {
        var hs' := hs[k := hs[k].(value := pending[i].value)];
        ScanReplacementsMatch(hs', k + 1, Erase(pending, i));
        ScanKeepsPositionsAndKeys(hs', k + 1, Erase(pending, i));
        var r' := ScanFrom(hs', k + 1, Erase(pending, i));
        assert r'.headers[k] == hs'[k];
        var r := ScanFrom(hs, k, pending);
        assert r.replaced == [Replacement(k, pending[i])] + r'.replaced;
        forall m | 0 <= m < |r.replaced|
          ensures k <= r.replaced[m].index < |hs|
          ensures KeyMatches(hs[r.replaced[m].index], r.replaced[m].pair)
          ensures r.headers[r.replaced[m].index].value == r.replaced[m].pair.value
        {
          if m > 0 {
            assert r.replaced[m] == r'.replaced[m - 1];
            assert hs'[r.replaced[m].index] == hs[r.replaced[m].index];
          }
        }
      }
    }
  }

  /**
   * Each pending pair is used at most once: the pairs consumed by
   * replacements and the pairs left over together are exactly the pending
   * pairs, counted with multiplicity; the pairs left keep their order.
   */
  lemma {:induction false} ScanUsesEachPairOnce(hs: seq<TableElt>, k: nat, pending: seq<Pair>)
    requires k <= |hs|
    ensures var r := ScanFrom(hs, k, pending);
      && multiset(pending) == multiset(r.left) + multiset(ReplacedPairs(r.replaced))
      && IsSubsequence(r.left, pending)
      && |r.left| + |r.replaced| == |pending|
    decreases |hs| - k
  {
    if k == |hs| {
      SubsequenceReflexive(pending);
    } else {
      var i := FirstMatch(pending, hs[k]);
      if i == |pending| {
        ScanUsesEachPairOnce(hs, k + 1, pending);
      } else {
        var hs' := hs[k := hs[k].(value := pending[i].value)];
        var e := Erase(pending, i);
        ScanUsesEachPairOnce(hs', k + 1, e);
        var r' := ScanFrom(hs', k + 1, e);
        var r := ScanFrom(hs, k, pending);
        assert r.replaced == [Replacement(k, pending[i])] + r'.replaced;
        assert ReplacedPairs(r.replaced) == [pending[i]] + ReplacedPairs(r'.replaced);
        EraseMultiset(pending, i);
        SubsequenceOfErase(r.left, pending, i);
      }
    }
  }

  /** No pending pair matches header h. */
  predicate NoPairMatches(h: TableElt, pending: seq<Pair>) {
    forall q :: 0 <= q < |pending| ==> !KeyMatches(h, pending[q])
  }

  /** No replacement in rs wrote to header number j. */
  predicate NotReplaced(rs: seq<Replacement>, j: nat) {
    forall m :: 0 <= m < |rs| ==> rs[m].index != j
  }

  /** A header that the scan finds no pair for keeps its value, and no pair left over matches it. */
  lemma ScanSkippedHeader(hs: seq<TableElt>, k: nat, pending: seq<Pair>)
    requires k < |hs|
    requires FirstMatch(pending, hs[k]) == |pending|
    ensures ScanFrom(hs, k, pending).headers[k] == hs[k]
    ensures NoPairMatches(hs[k], ScanFrom(hs, k, pending).left)
  {
    var r := ScanFrom(hs, k + 1, pending);
    assert ScanFrom(hs, k, pending) == r;
    ScanKeepsPositionsAndKeys(hs, k + 1, pending);
    ScanUsesEachPairOnce(hs, k + 1, pending);
    forall q | 0 <= q < |r.left| ensures !KeyMatches(hs[k], r.left[q]) {
      assert r.left[q] in multiset(pending);
    }
  }

  /**
   * A header from the starting index on that no replacement wrote to keeps
   * its value, and no pair left over matches it: the pairs appended later
   * are never ones this header could have taken.
   */
  lemma {:induction false} ScanUntouchedHeader(hs: seq<TableElt>, k: nat, pending: seq<Pair>, j: nat)
    requires k <= j < |hs|
    requires NotReplaced(ScanFrom(hs, k, pending).replaced, j)
    ensures ScanFrom(hs, k, pending).headers[j] == hs[j]
    ensures NoPairMatches(hs[j], ScanFrom(hs, k, pending).left)
    decreases |hs| - k
  {
    var r := ScanFrom(hs, k, pending);
    var i := FirstMatch(pending, hs[k]);
    if i == |pending| {
      if j == k {
        ScanSkippedHeader(hs, k, pending);
      } else {
        assert r == ScanFrom(hs, k + 1, pending);
        ScanUntouchedHeader(hs, k + 1, pending, j);
      }
    } else {
      var hs' := hs[k := hs[k].(value := pending[i].value)];
      var e := Erase(pending, i);
      var r' := ScanFrom(hs', k + 1, e);
      assert r.replaced == [Replacement(k, pending[i])] + r'.replaced;
      assert r.headers == r'.headers && r.left == r'.left;
      assert r.replaced[0].index == k;
      assert NotReplaced(r'.replaced, j) by {
        forall m | 0 <= m < |r'.replaced| ensures r'.replaced[m].index != j {
          assert r.replaced[m + 1] == r'.replaced[m];
        }
      }
      ScanUntouchedHeader(hs', k + 1, e, j);
    }
  }

  /** A header that no pending pair matches keeps its value. */
  lemma {:induction false} ScanUnmatchedHeaderKept(hs: seq<TableElt>, k: nat, pending: seq<Pair>, j: nat)
    requires k <= j < |hs|
    requires forall q :: 0 <= q < |pending| ==> !KeyMatches(hs[j], pending[q])
    ensures ScanFrom(hs, k, pending).headers[j] == hs[j]
    decreases |hs| - k
  {
    ScanKeepsPositionsAndKeys(hs, k, pending);
    var i := FirstMatch(pending, hs[k]);
    if j == k {
      assert i == |pending|;
      ScanKeepsPositionsAndKeys(hs, k + 1, pending);
    } else if i == |pending| {
      ScanUnmatchedHeaderKept(hs, k + 1, pending, j);
    } else {
      var hs' := hs[k := hs[k].(value := pending[i].value)];
      ScanUnmatchedHeaderKept(hs', k + 1, Erase(pending, i), j);
    }
  }

  /** The scan passes over headers that no pending pair matches without changing anything. */
  lemma {:induction false} ScanSkipsUnmatched(hs: seq<TableElt>, k: nat, m: nat, pending: seq<Pair>)
    requires k <= m <= |hs|
    requires forall j :: k <= j < m ==> NoPairMatches(hs[j], pending)
    ensures ScanFrom(hs, k, pending) == ScanFrom(hs, m, pending)
    decreases m - k
  {
    if k < m {
      var i := FirstMatch(pending, hs[k]);
      if i < |pending| {
        assert false;
      }
      assert ScanFrom(hs, k, pending) == ScanFrom(hs, k + 1, pending);
      ScanSkipsUnmatched(hs, k + 1, m, pending);
    }
  }

  // ---------------------------------------------------------------------
  // The append pass
  // ---------------------------------------------------------------------

  /**
   * The append pass appends the remaining pairs in order, as many as the
   * pool lets it push before the first failed push: a failure keeps the
   * entries appended so far and appends nothing after it.
   */
  lemma {:induction false} AppendPrefix(hs: seq<TableElt>, left: seq<Pair>, j: nat, pool: seq<bool>)
    requires j <= |left|
    ensures AppendFrom(hs, left, j, pool).headers == hs + Inserted(left[j..j + Successes(pool, |left| - j)])
    decreases |left| - j
  {
    if j == |left| || !AllocOk(pool) {
      assert hs + Inserted(left[j..j]) == hs;
    } else {
      var e := NewElt(left[j].key, left[j].value);
      AppendPrefix(hs + [e], left, j + 1, Consume(pool));
      var s := Successes(pool, |left| - j);
      var s' := Successes(Consume(pool), |left| - (j + 1));
      assert s == 1 + s';
      assert left[j..j + s][1..] == left[j + 1..j + 1 + s'];
      InsertedFirst(hs, left[j..j + s]);
    }
  }

  /** Appending the first pair's entry, then the entries of the rest, is appending the entries of all. */
  lemma InsertedFirst(hs: seq<TableElt>, t: seq<Pair>)
    requires t != []
    ensures (hs + [NewElt(t[0].key, t[0].value)]) + Inserted(t[1..]) == hs + Inserted(t)
  {
    var e := NewElt(t[0].key, t[0].value);
    assert Inserted(t) == [e] + Inserted(t[1..]);
    assert (hs + [e]) + Inserted(t[1..]) == hs + ([e] + Inserted(t[1..]));
  }

  /**
   * The append pass succeeds exactly when every push succeeds, and it stops
   * allocating at the first failed push.
   */
  lemma {:induction false} AppendOutcome(hs: seq<TableElt>, left: seq<Pair>, j: nat, pool: seq<bool>)
    requires j <= |left|
    ensures var a := AppendFrom(hs, left, j, pool);
      var s := Successes(pool, |left| - j);
      && (a.ok <==> s == |left| - j)
      && a.pool == Skip(pool, if a.ok then s else s + 1)
    decreases |left| - j
  {
    if j < |left| && AllocOk(pool) {
      var e := NewElt(left[j].key, left[j].value);
      AppendOutcome(hs + [e], left, j + 1, Consume(pool));
      var s := Successes(pool, |left| - j);
      var s' := Successes(Consume(pool), |left| - (j + 1));
      assert s == 1 + s';
      assert Skip(pool, s) == Skip(Consume(pool), s');
      assert Skip(pool, s + 1) == Skip(Consume(pool), s' + 1);
    }
  }

  // ---------------------------------------------------------------------
  // set_headers as a whole
  // ---------------------------------------------------------------------

  /**
   * set_headers keeps every pre-existing header at its position with its
   * hash, key and lowcase_key; a header that no pending pair matches keeps
   * its value too.
   */
  lemma MergeKeepsExisting(hs: seq<TableElt>, pending: seq<Pair>, pool: seq<bool>)
    ensures var r := Merge(hs, pending, pool);
      && |hs| <= |r.headers|
      && (forall j :: 0 <= j < |hs| ==> r.headers[j] == hs[j].(value := r.headers[j].value))
      && (forall j :: 0 <= j < |hs| && (forall q :: 0 <= q < |pending| ==> !KeyMatches(hs[j], pending[q])) ==>
            r.headers[j] == hs[j])
  {
    if pending != [] {
      var s := ScanFrom(hs, 0, pending);
      ScanKeepsPositionsAndKeys(hs, 0, pending);
      AppendPrefix(s.headers, s.left, 0, pool);
      var r := Merge(hs, pending, pool);
      assert r.headers[..|hs|] == s.headers;
      forall j | 0 <= j < |hs| && (forall q :: 0 <= q < |pending| ==> !KeyMatches(hs[j], pending[q]))
        ensures r.headers[j] == hs[j]
      {
        ScanUnmatchedHeaderKept(hs, 0, pending, j);
        assert r.headers[j] == r.headers[..|hs|][j];
      }
    }
  }

  /**
   * After the pre-existing headers, set_headers appends the pairs the scan
   * left unmatched, in their pending order, up to the first failed push;
   * it returns true exactly when all of them were appended.
   */
  lemma MergeAppendsLeftovers(hs: seq<TableElt>, pending: seq<Pair>, pool: seq<bool>)
    ensures var r := Merge(hs, pending, pool);
      var s := Successes(pool, |r.left|);
      && |hs| + s == |r.headers|
      && r.headers[|hs|..] == Inserted(r.left[..s])
      && (r.ok <==> s == |r.left|)
      && r.pool == Skip(pool, if r.ok then s else s + 1)
  {
    var r := Merge(hs, pending, pool);
    if pending == [] {
      assert r.headers[|hs|..] == [];
    } else {
      var sc := ScanFrom(hs, 0, pending);
      ScanKeepsPositionsAndKeys(hs, 0, pending);
      AppendPrefix(sc.headers, sc.left, 0, pool);
      AppendOutcome(sc.headers, sc.left, 0, pool);
      var s := Successes(pool, |r.left|);
      assert r.left[0..0 + s] == r.left[..s];
      assert r.headers[|hs|..] == Inserted(r.left[..s]);
    }
  }

  /** Every header set_headers appends is the entry insert_header builds from one of the pending pairs. */
  lemma MergeAppendedFromPending(hs: seq<TableElt>, pending: seq<Pair>, pool: seq<bool>)
    ensures var r := Merge(hs, pending, pool);
      && |hs| <= |r.headers|
      && forall j :: |hs| <= j < |r.headers| ==>
           exists q :: 0 <= q < |pending| && r.headers[j] == NewElt(pending[q].key, pending[q].value)
  {
    var r := Merge(hs, pending, pool);
    MergeAppendsLeftovers(hs, pending, pool);
    ScanUsesEachPairOnce(hs, 0, pending);
    var s := Successes(pool, |r.left|);
    forall j | |hs| <= j < |r.headers|
      ensures exists q :: 0 <= q < |pending| && r.headers[j] == NewElt(pending[q].key, pending[q].value)
    {
      var d := j - |hs|;
      assert r.headers[j] == r.headers[|hs|..][d];
      InsertedAt(r.left[..s], d);
      var p := r.left[d];
      assert r.headers[j] == NewElt(p.key, p.value);
      assert pending != [];
      assert p in multiset(r.left);
      assert p in multiset(pending);
      var q :| 0 <= q < |pending| && pending[q] == p;
    }
  }

  /**
   * The full picture of a successful set_headers: the header list is the
   * scanned list followed by one new entry per leftover pair, and the
   * leftovers together with the pairs used for replacements are exactly
   * the pending pairs.
   */
  lemma MergeSuccess(hs: seq<TableElt>, pending: seq<Pair>, pool: seq<bool>)
    requires Merge(hs, pending, pool).ok
    ensures var r := Merge(hs, pending, pool);
      var sc := ScanFrom(hs, 0, pending);
      && r.headers == sc.headers + Inserted(sc.left)
      && multiset(pending) == multiset(sc.left) + multiset(ReplacedPairs(sc.replaced))
  {
    var sc := ScanFrom(hs, 0, pending);
    if pending == [] {
      ScanSkipsUnmatched(hs, 0, |hs|, pending);
      assert sc == ScanResult(hs, [], []);
      assert hs + Inserted([]) == hs;
    } else {
      var a := AppendFrom(sc.headers, sc.left, 0, pool);
      assert a.headers == sc.headers + Inserted(sc.left) by {
        AppendPrefix(sc.headers, sc.left, 0, pool);
        AppendOutcome(sc.headers, sc.left, 0, pool);
        assert sc.left[0..|sc.left|] == sc.left;
      }
      ScanUsesEachPairOnce(hs, 0, pending);
    }
  }

  /**
   * Duplicate pending keys: when two pending pairs both match the only
   * existing header, the first one in vector order replaces its value and
   * the second is appended as a header of its own.
   */
  lemma DuplicatePendingKeys(h: TableElt, p1: Pair, p2: Pair, pool: seq<bool>)
    requires KeyMatches(h, p1) && KeyMatches(h, p2)
    requires AllocOk(pool)
    ensures Merge([h], [p1, p2], pool) ==
      MergeResult(true, [h.(value := p1.value), TableElt(1, p2.key, p2.key, p2.value)], [p2], Consume(pool))
  {
    var h' := h.(value := p1.value);
    assert FirstMatch([p1, p2], h) == 0;
    assert Erase([p1, p2], 0) == [p2];
    assert [h][0 := h'] == [h'];
    assert ScanFrom([h'], 1, [p2]) == ScanResult([h'], [p2], []);
    var s := ScanFrom([h], 0, [p1, p2]);
    assert s.headers == [h'] && s.left == [p2];
    var e := NewElt(p2.key, p2.value);
    assert AppendFrom([h'] + [e], [p2], 1, Consume(pool)) == AppendResult(true, [h', e], Consume(pool));
  }

  // ---------------------------------------------------------------------
  // The carrier
  // ---------------------------------------------------------------------

  /** Fail-stuck: once the flag is down, no Set call changes anything. */
  lemma {:induction false} CarrierStuck(pending: seq<Pair>, pool: seq<bool>, calls: seq<Call>)
    ensures CarrierRun(CarrierState(false, pending, pool), calls) == CarrierState(false, pending, pool)
    decreases |calls|
  {
    if calls != [] {
      CarrierStuck(pending, pool, calls[1..]);
    }
  }

  /**
   * The pairs the carrier collects: the lower-cased calls that got both of
   * their allocations (key, then value), in call order; after the first
   * failure nothing more is collected, and a flag still up means every call
   * was collected.
   */
  lemma {:induction false} CarrierCollects(pending: seq<Pair>, pool: seq<bool>, calls: seq<Call>)
    ensures CarrierRun(CarrierState(true, pending, pool), calls).pending ==
            pending + LowerPairs(calls[..CallsServed(pool, |calls|)])
    ensures CarrierRun(CarrierState(true, pending, pool), calls).ok ==> CallsServed(pool, |calls|) == |calls|
    decreases |calls|
  {
    var n := CallsServed(pool, |calls|);
    if calls == [] {
      assert calls[..0] == [];
    } else if !AllocOk(pool) || !AllocOk(Consume(pool)) {
      CarrierFirstCallFails(pending, pool, calls);
      assert calls[..n] == [];
    } else {
      var pair := Pair(ToLower(calls[0].key), calls[0].value);
      var pool2 := Consume(Consume(pool));
      assert CarrierRun(CarrierState(true, pending, pool), calls) ==
             CarrierRun(CarrierState(true, pending + [pair], pool2), calls[1..]);
      CarrierCollects(pending + [pair], pool2, calls[1..]);
      assert n == 1 + CallsServed(pool2, |calls[1..]|);
      LowerPairsFirst(calls, n);
      var rest := LowerPairs(calls[1..][..n - 1]);
      assert (pending + [pair]) + rest == pending + ([pair] + rest);
    }
  }

  /** When one of the first call's two allocations fails, the flag goes down and nothing is ever collected. */
  lemma CarrierFirstCallFails(pending: seq<Pair>, pool: seq<bool>, calls: seq<Call>)
    requires calls != [] && !(AllocOk(pool) && AllocOk(Consume(pool)))
    ensures CarrierRun(CarrierState(true, pending, pool), calls).pending == pending
    ensures !CarrierRun(CarrierState(true, pending, pool), calls).ok
  {
    var c := SetStep(CarrierState(true, pending, pool), calls[0]);
    assert !c.ok && c.pending == pending;
    CarrierStuck(pending, c.pool, calls[1..]);
  }

  /** The lower-cased pairs of a non-empty prefix of the calls start with the first call's pair. */
  lemma LowerPairsFirst(calls: seq<Call>, n: nat)
    requires 0 < n <= |calls|
    ensures LowerPairs(calls[..n]) == [Pair(ToLower(calls[0].key), calls[0].value)] + LowerPairs(calls[1..][..n - 1])
  {
    assert calls[..n][1..] == calls[1..][..n - 1];
  }

  /**
   * The carrier's flag stays up exactly when every one of its allocations
   * succeeds, and after the first failure nothing more is allocated.
   */
  lemma {:induction false} CarrierOutcome(pending: seq<Pair>, pool: seq<bool>, calls: seq<Call>)
    ensures var r := CarrierRun(CarrierState(true, pending, pool), calls);
      var s := Successes(pool, 2 * |calls|);
      && (r.ok <==> s == 2 * |calls|)
      && r.pool == Skip(pool, if r.ok then s else s + 1)
    decreases |calls|
  {
    if calls != [] {
      var c := calls[0];
      var pool1 := Consume(pool);
      var pool2 := Consume(pool1);
      assert Skip(pool, 1) == Skip(pool1, 0) == pool1;
      assert Skip(pool, 2) == Skip(pool1, 1) == Skip(pool2, 0) == pool2;
      if !AllocOk(pool) {
        CarrierStuck(pending, pool1, calls[1..]);
      } else if !AllocOk(pool1) {
        CarrierStuck(pending, pool2, calls[1..]);
      } else {
        var pair := Pair(ToLower(c.key), c.value);
        CarrierOutcome(pending + [pair], pool2, calls[1..]);
        var s := Successes(pool, 2 * |calls|);
        var s' := Successes(pool2, 2 * |calls[1..]|);
        assert s == 2 + s';
        assert Skip(pool, s) == Skip(pool1, s - 1) == Skip(pool2, s');
        assert Skip(pool, s + 1) == Skip(pool1, s) == Skip(pool2, s' + 1);
      }
    }
  }

  // ---------------------------------------------------------------------
  // inject_span_context
  // ---------------------------------------------------------------------

  /**
   * The merge is all-or-nothing with respect to the carrier: when the
   * tracer reports failure, or any of the carrier's allocations fails, the
   * request's header list is left exactly as it was and failure is logged.
   */
  lemma InjectFailureLeavesHeaders(hs: seq<TableElt>, calls: seq<Call>, tracerOk: bool, pool: seq<bool>)
    requires !tracerOk || !AllSucceed(pool, 2 * |calls|)
    ensures Inject(hs, calls, tracerOk, pool).headers == hs
    ensures !Inject(hs, calls, tracerOk, pool).ok
  {
    CarrierOutcome([], pool, calls);
  }

  /**
   * When the tracer succeeds and so does every carrier allocation, the
   * outcome is set_headers applied to the lower-cased calls, in call order,
   * with the pool as the carrier left it.
   */
  lemma InjectSuccess(hs: seq<TableElt>, calls: seq<Call>, pool: seq<bool>)
    requires AllSucceed(pool, 2 * |calls|)
    ensures var m := Merge(hs, LowerPairs(calls), Skip(pool, 2 * |calls|));
      Inject(hs, calls, true, pool) == InjectResult(m.ok, m.headers, m.pool)
  {
    var c := CarrierRun(CarrierState(true, [], pool), calls);
    assert c == CarrierState(true, LowerPairs(calls), Skip(pool, 2 * |calls|)) by {
      CarrierOutcome([], pool, calls);
      CarrierCollects([], pool, calls);
      assert calls[..|calls|] == calls;
    }
  }

  /**
   * Whatever happens, the pre-existing headers stay in place with their
   * keys, and every header the injection appends is a fresh entry with
   * hash 1, lowcase_key equal to its key, and a key with no upper-case
   * letter.
   */
  lemma InjectShape(hs: seq<TableElt>, calls: seq<Call>, tracerOk: bool, pool: seq<bool>)
    ensures var r := Inject(hs, calls, tracerOk, pool);
      && |hs| <= |r.headers|
      && (forall j :: 0 <= j < |hs| ==> r.headers[j] == hs[j].(value := r.headers[j].value))
      && (forall j :: |hs| <= j < |r.headers| ==>
            r.headers[j].hash == 1 && r.headers[j].lowcaseKey == r.headers[j].key && NoUpper(r.headers[j].key))
  {
    var r := Inject(hs, calls, tracerOk, pool);
    var c := CarrierRun(CarrierState(true, [], pool), calls);
    if c.ok && tracerOk {
      var pending := c.pending;
      assert forall q :: 0 <= q < |pending| ==> NoUpper(pending[q].key) by {
        CarrierCollects([], pool, calls);
        var served := calls[..CallsServed(pool, |calls|)];
        forall q | 0 <= q < |pending| ensures NoUpper(pending[q].key) {
          LowerPairsAt(served, q);
        }
      }
      assert r.headers == Merge(hs, pending, c.pool).headers;
      MergeKeepsExisting(hs, pending, c.pool);
      MergeAppendedFromPending(hs, pending, c.pool);
      forall j | |hs| <= j < |r.headers|
        ensures r.headers[j].hash == 1 && r.headers[j].lowcaseKey == r.headers[j].key && NoUpper(r.headers[j].key)
      {
        var q :| 0 <= q < |pending| && r.headers[j] == NewElt(pending[q].key, pending[q].value);
      }
    }
  }

  /**
   * The end-to-end case of a request carrying a header such as
   * Content-Type and a header such as X-Trace-Id (whose lowcase_key is
   * x-trace-id), and a tracer that emits x-trace-id and then x-span-id, with
   * every allocation succeeding. The three keys have different lengths (12,
   * 10 and 9 bytes), so only the trace-id key matches. The X-Trace-Id header
   * keeps its position and its key as the request spelled it and takes the
   * new value; x-span-id is appended after it.
   */
  lemma EndToEndExample(h0: TableElt, hash1: int, traceId: Bytes, traceIdLower: Bytes, oldValue: Bytes,
                        spanId: Bytes, v1: Bytes, v2: Bytes)
    requires NoUpper(traceIdLower) && NoUpper(spanId)
    requires |traceId| == |traceIdLower|
    requires |h0.key| != |traceIdLower| && |h0.key| != |spanId| && |spanId| != |traceIdLower|
    ensures
      Inject([h0, TableElt(hash1, traceId, traceIdLower, oldValue)], [Call(traceIdLower, v1), Call(spanId, v2)], true, [])
      == InjectResult(true, [h0, TableElt(hash1, traceId, traceIdLower, v1), TableElt(1, spanId, spanId, v2)], [])
  {
    var h1 := TableElt(hash1, traceId, traceIdLower, oldValue);
    var calls := [Call(traceIdLower, v1), Call(spanId, v2)];
    ToLowerOfLower(traceIdLower);
    ToLowerOfLower(spanId);
    var p1 := Pair(traceIdLower, v1);
    var p2 := Pair(spanId, v2);
    var m := Merge([h0, h1], [p1, p2], []);
    assert m == MergeResult(true, [h0, h1.(value := v1), NewElt(spanId, v2)], [p2], []) by {
      assert KeyMatches(h1, p1) by {
        StrNCmpEqualOfEqualPrefix(traceIdLower, traceIdLower, |traceIdLower|);
      }
      ReplaceThenAppend(h0, h1, p1, p2, []);
    }
    assert Inject([h0, h1], calls, true, []) == InjectResult(m.ok, m.headers, m.pool) by {
      assert LowerPairs(calls) == [p1, p2];
      assert Skip([], 4) == [];
      assert AllSucceed([], 4);
      InjectSuccess([h0, h1], calls, []);
    }
  }

  /**
   * One existing header matched by the first pending pair and a second pair
   * that matches nothing: the matched header takes the new value in place,
   * and the second pair is appended after every existing header.
   */
  lemma ReplaceThenAppend(h0: TableElt, h1: TableElt, p1: Pair, p2: Pair, pool: seq<bool>)
    requires !KeyMatches(h0, p1) && !KeyMatches(h0, p2)
    requires KeyMatches(h1, p1) && !KeyMatches(h1, p2)
    requires AllocOk(pool)
    ensures Merge([h0, h1], [p1, p2], pool) ==
      MergeResult(true, [h0, h1.(value := p1.value), TableElt(1, p2.key, p2.key, p2.value)], [p2], Consume(pool))
  {
    var h1' := h1.(value := p1.value);
    assert FirstMatch([p1, p2], h0) == 2;
    assert FirstMatch([p1, p2], h1) == 0;
    assert Erase([p1, p2], 0) == [p2];
    assert [h0, h1][1 := h1'] == [h0, h1'];
    assert ScanFrom([h0, h1'], 2, [p2]) == ScanResult([h0, h1'], [p2], []);
    var sc := ScanFrom([h0, h1], 0, [p1, p2]);
    assert sc.headers == ScanFrom([h0, h1], 1, [p1, p2]).headers == [h0, h1'];
    assert sc.left == ScanFrom([h0, h1], 1, [p1, p2]).left == [p2];
    var e := NewElt(p2.key, p2.value);
    assert AppendFrom([h0, h1'] + [e], [p2], 1, Consume(pool)) == AppendResult(true, [h0, h1', e], Consume(pool));
  }

  /** A pair that no existing header matches is appended, and the scan changes nothing. */
  lemma MergeFreshPair(hs: seq<TableElt>, p: Pair, pool: seq<bool>)
    requires forall j :: 0 <= j < |hs| ==> NoPairMatches(hs[j], [p])
    requires AllocOk(pool)
    ensures Merge(hs, [p], pool) == MergeResult(true, hs + [NewElt(p.key, p.value)], [p], Consume(pool))
  {
    ScanSkipsUnmatched(hs, 0, |hs|, [p]);
    assert ScanFrom(hs, 0, [p]) == ScanResult(hs, [p], []);
    assert AppendFrom(hs + [NewElt(p.key, p.value)], [p], 1, Consume(pool)).ok;
  }

  // ---------------------------------------------------------------------
  // Injecting twice
  // ---------------------------------------------------------------------

  /** The pair a header matches depends only on its key and lowcase_key, not on its value or hash. */
  lemma {:induction false} FirstMatchKeysOnly(pending: seq<Pair>, h1: TableElt, h2: TableElt)
    requires h1.key == h2.key && h1.lowcaseKey == h2.lowcaseKey
    ensures FirstMatch(pending, h1) == FirstMatch(pending, h2)
  {
    if pending != [] {
      FirstMatchKeysOnly(pending[1..], h1, h2);
    }
  }

  /**
   * Scanning again what a scan has already written: over the headers the
   * first scan produced (with anything appended after them), the same
   * pending pairs make the same choices at every header from k on. Each
   * value written is the one already there, and the scan reaches the end
   * of those headers holding the pairs the first scan left over.
   */
  lemma {:induction false} PrefixRescan(hs: seq<TableElt>, k: nat, pending: seq<Pair>, tail: seq<TableElt>)
    requires k <= |hs|
    ensures var s := ScanFrom(hs, k, pending);
      var g := s.headers + tail;
      && ScanFrom(g, k, pending).headers == ScanFrom(g, |hs|, s.left).headers
      && ScanFrom(g, k, pending).left == ScanFrom(g, |hs|, s.left).left
    decreases |hs| - k
  {
    var s := ScanFrom(hs, k, pending);
    var g := s.headers + tail;
    if k < |hs| {
      var i := FirstMatch(pending, hs[k]);
      if i == |pending| {
        assert s == ScanFrom(hs, k + 1, pending);
        ScanKeepsPositionsAndKeys(hs, k + 1, pending);
        assert g[k] == s.headers[k] == hs[k];
        PrefixRescan(hs, k + 1, pending, tail);
      } else {
        var hs' := hs[k := hs[k].(value := pending[i].value)];
        var e := Erase(pending, i);
        var s' := ScanFrom(hs', k + 1, e);
        assert s.headers == s'.headers && s.left == s'.left;
        ScanKeepsPositionsAndKeys(hs', k + 1, e);
        assert g[k] == hs'[k];
        FirstMatchKeysOnly(pending, g[k], hs[k]);
        assert g[k := g[k].(value := pending[i].value)] == g;
        assert ScanFrom(g, k, pending) == ScanFrom(g, k + 1, e).(replaced := [Replacement(k, pending[i])] + ScanFrom(g, k + 1, e).replaced);
        PrefixRescan(hs', k + 1, e, tail);
      }
    }
  }

  /**
   * Scanning the entries appended for the pairs left, with those pairs
   * pending: each entry takes the first remaining pair, which is its own,
   * so the values stay as they are and no pair is left over.
   */
  lemma {:induction false} TailRescan(g: seq<TableElt>, k: nat, left: seq<Pair>)
    requires k <= |g| && g[k..] == Inserted(left)
    ensures ScanFrom(g, k, left).headers == g
    ensures ScanFrom(g, k, left).left == []
    decreases |left|
  {
    if left == [] {
      assert k == |g|;
    } else {
      var p := left[0];
      assert g[k] == NewElt(p.key, p.value) by {
        assert g[k] == g[k..][0];
      }
      assert KeyMatches(g[k], p) by {
        StrNCmpEqualOfEqualPrefix(p.key, p.key, |p.key|);
      }
      assert FirstMatch(left, g[k]) == 0;
      assert g[k := g[k].(value := p.value)] == g;
      assert Erase(left, 0) == left[1..];
      assert g[k + 1..] == Inserted(left[1..]) by {
        assert g[k + 1..] == g[k..][1..];
      }
      TailRescan(g, k + 1, left[1..]);
    }
  }

  /**
   * Injecting the same span context twice: once a first injection has
   * succeeded, a second one with the same tracer calls, whose carrier
   * allocations succeed, overwrites every header the first one wrote or
   * appended with the same value, appends nothing, allocates nothing
   * beyond the carrier's copies, and leaves the header list as the first
   * injection left it.
   */
  lemma RerunIdempotent(hs: seq<TableElt>, calls: seq<Call>, pool1: seq<bool>, pool2: seq<bool>)
    requires Inject(hs, calls, true, pool1).ok
    requires AllSucceed(pool2, 2 * |calls|)
    ensures var r1 := Inject(hs, calls, true, pool1);
      var r2 := Inject(r1.headers, calls, true, pool2);
      && r2.ok
      && r2.headers == r1.headers
      && r2.pool == Skip(pool2, 2 * |calls|)
  {
    var c := CarrierRun(CarrierState(true, [], pool1), calls);
    var pending := LowerPairs(calls);
    assert c.pending == pending by {
      CarrierCollects([], pool1, calls);
      assert calls[..|calls|] == calls;
    }
    var m := Merge(hs, pending, c.pool);
    var r1 := Inject(hs, calls, true, pool1);
    assert r1.headers == m.headers && m.ok;
    InjectSuccess(r1.headers, calls, pool2);
    var q := Skip(pool2, 2 * |calls|);
    if pending != [] {
      var s := ScanFrom(hs, 0, pending);
      MergeSuccess(hs, pending, c.pool);
      var g := s.headers + Inserted(s.left);
      assert r1.headers == g;
      PrefixRescan(hs, 0, pending, Inserted(s.left));
      assert g[|hs|..] == Inserted(s.left);
      TailRescan(g, |hs|, s.left);
      assert ScanFrom(g, 0, pending).headers == g && ScanFrom(g, 0, pending).left == [];
      assert Merge(g, pending, q) == MergeResult(true, g, [], q);
    }
  }
}
