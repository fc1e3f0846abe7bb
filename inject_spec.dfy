/**
 * The meaning of trace-context header injection, as functions on values.
 *
 * The injection runs in two phases. The carrier collects the (key, value)
 * pairs the tracer emits (CarrierRun). The merge then overwrites or appends
 * them into the request's header list (Merge): one pass over the existing
 * headers replaces values in place (ScanFrom), then the pairs left over are
 * appended in order (AppendFrom).
 *
 * The methods in module InjectSpanContext are proved to compute exactly
 * these functions; the lemmas in module InjectProperties state what the
 * functions guarantee.
 */
module InjectSpec {
  import opened NgxString
  import opened NgxHttp

  /** One pending header, std::pair<ngx_str_t, ngx_str_t>: the lower-cased key and the value. */
  datatype Pair = Pair(key: Bytes, value: Bytes)

  /** One call the tracer makes on the carrier: Set(key, value). */
  datatype Call = Call(key: Bytes, value: Bytes)

  /**
   * The match test of set_headers: the existing header's key has the pair's
   * key length, and its lowcase_key compares equal to the pair's key under
   * ngx_strncmp over that many bytes. A lowcase_key shorter than the key
   * (which nginx never builds) is treated as not matching.
   */
  predicate KeyMatches(h: TableElt, p: Pair) {
    |h.key| == |p.key| && |p.key| <= |h.lowcaseKey| && StrNCmpEqual(h.lowcaseKey, p.key, |p.key|)
  }

  /**
   * std::find_if over the pending pairs: the index of the first pair matching
   * h, or |pending| when none does.
   */
  function FirstMatch(pending: seq<Pair>, h: TableElt): (i: nat)
    ensures i <= |pending|
    ensures i < |pending| ==> KeyMatches(h, pending[i])
    ensures forall j :: 0 <= j < i ==> !KeyMatches(h, pending[j])
  {
    if pending == [] then 0
    else if KeyMatches(h, pending[0]) then 0
    else 1 + FirstMatch(pending[1..], h)
  }

  /** std::vector::erase of the element at index i. */
  function Erase(s: seq<Pair>, i: nat): (r: seq<Pair>)
    requires i < |s|
    ensures |r| == |s| - 1
    ensures forall j :: 0 <= j < i ==> r[j] == s[j]
    ensures forall j :: i <= j < |r| ==> r[j] == s[j + 1]
  {
    s[..i] + s[i + 1..]
  }

  /** The element insert_header writes into a fresh list slot. */
  function NewElt(key: Bytes, value: Bytes): TableElt {
    TableElt(1, key, key, value)
  }

  /** The elements appended for the given pairs, one per pair, in order. */
  function Inserted(ps: seq<Pair>): (r: seq<TableElt>)
    ensures |r| == |ps|
  {
    if ps == [] then [] else [NewElt(ps[0].key, ps[0].value)] + Inserted(ps[1..])
  }

  /** A value replacement done by the scan: header number index took pair's value. */
  datatype Replacement = Replacement(index: nat, pair: Pair)

  /**
   * The state after the replace-in-place pass: the header list, the pairs
   * still pending, and a record of the replacements made (the ones
   * set_headers reports in its debug log), in header order.
   */
  datatype ScanResult = ScanResult(headers: seq<TableElt>, left: seq<Pair>, replaced: seq<Replacement>)

  /**
   * The replace-in-place pass of set_headers from header index k on: the
   * header at k takes the value of the first pending pair that matches it,
   * and that pair is erased; a header with no matching pair is left alone.
   */
  function ScanFrom(hs: seq<TableElt>, k: nat, pending: seq<Pair>): (r: ScanResult)
    requires k <= |hs|
    ensures |r.headers| == |hs|
    decreases |hs| - k
  {
    if k == |hs| then ScanResult(hs, pending, [])
    else
      var i := FirstMatch(pending, hs[k]);
      if i == |pending| then ScanFrom(hs, k + 1, pending)
      else
        var r := ScanFrom(hs[k := hs[k].(value := pending[i].value)], k + 1, Erase(pending, i));
        r.(replaced := [Replacement(k, pending[i])] + r.replaced)
  }

  /** The state after the append pass: whether every append succeeded, the header list and the pool. */
  datatype AppendResult = AppendResult(ok: bool, headers: seq<TableElt>, pool: seq<bool>)

  /**
   * The append pass of set_headers from pair index j on: each remaining pair
   * is pushed onto the header list; the first failed push ends the pass
   * with failure.
   */
  function AppendFrom(hs: seq<TableElt>, left: seq<Pair>, j: nat, pool: seq<bool>): AppendResult
    requires j <= |left|
    decreases |left| - j
  {
    if j == |left| then AppendResult(true, hs, pool)
    else if !AllocOk(pool) then AppendResult(false, hs, Consume(pool))
    else AppendFrom(hs + [NewElt(left[j].key, left[j].value)], left, j + 1, Consume(pool))
  }

  /** What set_headers returns and leaves behind: its result, the header list, the pending vector, the pool. */
  datatype MergeResult = MergeResult(ok: bool, headers: seq<TableElt>, left: seq<Pair>, pool: seq<bool>)

  /** set_headers: nothing to do for no pairs; otherwise the scan, then the appends. */
  function Merge(hs: seq<TableElt>, pending: seq<Pair>, pool: seq<bool>): MergeResult {
    if pending == [] then MergeResult(true, hs, pending, pool)
    else
      var s := ScanFrom(hs, 0, pending);
      var a := AppendFrom(s.headers, s.left, 0, pool);
      MergeResult(a.ok, a.headers, s.left, a.pool)
  }

  /** The state a carrier writer works on: the shared success flag, the pending vector, the pool. */
  datatype CarrierState = CarrierState(ok: bool, pending: seq<Pair>, pool: seq<bool>)

  /**
   * NgxHeaderCarrierWriter::Set: nothing once the flag is down; otherwise one
   * allocation for the lower-cased key and one for the value, and the pair
   * is appended only when both succeed.
   */
  function SetStep(c: CarrierState, call: Call): CarrierState {
    if !c.ok then c
    else if !AllocOk(c.pool) then CarrierState(false, c.pending, Consume(c.pool))
    else if !AllocOk(Consume(c.pool)) then CarrierState(false, c.pending, Consume(Consume(c.pool)))
    else CarrierState(true, c.pending + [Pair(ToLower(call.key), call.value)], Consume(Consume(c.pool)))
  }

  /** The carrier after the tracer has made the given Set calls, in order. */
  function CarrierRun(c: CarrierState, calls: seq<Call>): CarrierState
    decreases |calls|
  {
    if calls == [] then c else CarrierRun(SetStep(c, calls[0]), calls[1..])
  }

  /**
   * How many of the next n Set calls get both their key and their value
   * allocated before the first failed allocation.
   */
  function CallsServed(pool: seq<bool>, n: nat): (s: nat)
    ensures s <= n
  {
    if n == 0 || !AllocOk(pool) || !AllocOk(Consume(pool)) then 0
    else 1 + CallsServed(Consume(Consume(pool)), n - 1)
  }

  /** The pairs the carrier collects from calls when every allocation succeeds. */
  function LowerPairs(calls: seq<Call>): (r: seq<Pair>)
    ensures |r| == |calls|
  {
    if calls == [] then [] else [Pair(ToLower(calls[0].key), calls[0].value)] + LowerPairs(calls[1..])
  }

  /** What inject_span_context leaves behind: the overall outcome, the header list and the pool. */
  datatype InjectResult = InjectResult(ok: bool, headers: seq<TableElt>, pool: seq<bool>)

  /**
   * inject_span_context: the tracer's Set calls fill the carrier; the
   * carrier's flag is ANDed with the tracer's own result, and the merge runs
   * only when both are true.
   */
  function Inject(hs: seq<TableElt>, calls: seq<Call>, tracerOk: bool, pool: seq<bool>): InjectResult {
    var c := CarrierRun(CarrierState(true, [], pool), calls);
    if c.ok && tracerOk then
      var m := Merge(hs, c.pending, c.pool);
      InjectResult(m.ok, m.headers, m.pool)
    else InjectResult(false, hs, c.pool)
  }
}
