/**
 * The header injection as nginx runs it: insert_header, set_headers, the
 * carrier writer NgxHeaderCarrierWriter and inject_span_context. Each
 * method is proved to compute the matching function of module InjectSpec.
 *
 * The std::vector of pending pairs and the bool that the writer holds by
 * reference are objects (PairVector, SuccessFlag) shared between the writer
 * and inject_span_context, as the references share them in the source.
 */
module InjectSpanContext {
  import opened Wrappers
  import opened NgxString
  import opened NgxHttp
  import opened InjectSpec

  /** std::vector<std::pair<ngx_str_t, ngx_str_t>>: the pending pairs. */
  class PairVector {
    var items: seq<Pair>

    constructor ()
      ensures items == []
    {
      items := [];
    }
  }

  /** The bool that inject_span_context owns and the writer updates through a reference. */
  class SuccessFlag {
    var value: bool

    constructor (value: bool)
      ensures this.value == value
    {
      this.value := value;
    }
  }

  /**
   * insert_header: pushes one element onto the request's header list and
   * fills it with hash 1, the key, the key again as lowcase_key, and the
   * value. When the push fails nothing is added and the result is false.
   */
  method InsertHeader(request: Request, key: Bytes, value: Bytes) returns (ok: bool)
    modifies request, request.pool
    ensures ok == AllocOk(old(request.pool.outcomes))
    ensures ok ==> request.headers == old(request.headers) + [TableElt(1, key, key, value)]
    ensures !ok ==> request.headers == old(request.headers)
    ensures request.pool.outcomes == Consume(old(request.pool.outcomes))
  {
    var slot := ListPush(request);
    if slot.None? {
      return false;
    }
    var i := slot.value;
    request.headers := request.headers[i := request.headers[i].(hash := 1)];
    request.headers := request.headers[i := request.headers[i].(key := key)];
    request.headers := request.headers[i := request.headers[i].(lowcaseKey := key)];
    request.headers := request.headers[i := request.headers[i].(value := value)];
    return true;
  }

  /**
   * The std::find_if of set_headers: the index of the first pending pair
   * whose key matches header h, or the vector's length when none does.
   */
  method FindIf(headers: PairVector, h: TableElt) returns (i: nat)
    ensures i <= |headers.items|
    ensures i < |headers.items| ==> KeyMatches(h, headers.items[i])
    ensures forall j :: 0 <= j < i ==> !KeyMatches(h, headers.items[j])
  {
    i := 0;
    while i < |headers.items| && !KeyMatches(h, headers.items[i])
      invariant i <= |headers.items|
      invariant forall j :: 0 <= j < i ==> !KeyMatches(h, headers.items[j])
    {
      i := i + 1;
    }
  }

  /**
   * set_headers: for each existing header in list order, the first pending
   * pair with a matching key overwrites the header's value in place and is
   * erased from the vector; then every pair still pending is appended, and
   * the first failed append ends the call with false.
   */
  method SetHeaders(request: Request, headers: PairVector) returns (ok: bool)
    modifies request, request.pool, headers
    ensures old(headers.items) == [] ==>
      ok && request.headers == old(request.headers) && headers.items == [] &&
      request.pool.outcomes == old(request.pool.outcomes)
    ensures var m := Merge(old(request.headers), old(headers.items), old(request.pool.outcomes));
      ok == m.ok && request.headers == m.headers && headers.items == m.left &&
      request.pool.outcomes == m.pool
  {
    if |headers.items| == 0 {
      return true;
    }

    ghost var scan := ScanFrom(request.headers, 0, headers.items);
    ghost var n := |request.headers|;
    var k := 0;
    while k < |request.headers|
      invariant |request.headers| == n && k <= n
      invariant ScanFrom(request.headers, k, headers.items).headers == scan.headers
      invariant ScanFrom(request.headers, k, headers.items).left == scan.left
      invariant request.pool.outcomes == old(request.pool.outcomes)
    {
      var i := FindIf(headers, request.headers[k]);
      assert i == FirstMatch(headers.items, request.headers[k]);
      if i < |headers.items| {
        request.headers := request.headers[k := request.headers[k].(value := headers.items[i].value)];
        headers.items := headers.items[..i] + headers.items[i + 1..];
      }
      k := k + 1;
    }

    ghost var pool := request.pool.outcomes;
    var j := 0;
    while j < |headers.items|
      invariant j <= |headers.items|
      invariant headers.items == scan.left
      invariant AppendFrom(request.headers, headers.items, j, request.pool.outcomes) ==
                AppendFrom(scan.headers, scan.left, 0, pool)
    {
      var inserted := InsertHeader(request, headers.items[j].key, headers.items[j].value);
      if !inserted {
        return false;
      }
      j := j + 1;
    }
    return true;
  }

  /**
   * NgxHeaderCarrierWriter: the sink the tracer writes its headers into. It
   * shares the request, the pending vector and the success flag with
   * inject_span_context.
   */
  class NgxHeaderCarrierWriter {
    const request: Request
    const headers: PairVector
    const wasSuccessful: SuccessFlag

    /** The constructor binds the references and raises the success flag. */
    constructor (request: Request, headers: PairVector, wasSuccessful: SuccessFlag)
      modifies wasSuccessful
      ensures this.request == request && this.headers == headers && this.wasSuccessful == wasSuccessful
      ensures wasSuccessful.value
    {
      this.request := request;
      this.headers := headers;
      this.wasSuccessful := wasSuccessful;
      new;
      wasSuccessful.value := true;
    }

    /** The state the writer works on, as a value. */
    function State(): CarrierState
      reads wasSuccessful, headers, request.pool
    {
      CarrierState(wasSuccessful.value, headers.items, request.pool.outcomes)
    }

    /**
     * Set: once the flag is down it does nothing; otherwise it copies the
     * lower-cased key and the value into the pool and appends the pair, or,
     * when either copy fails, lowers the flag and appends nothing.
     */
    method Set(key: Bytes, value: Bytes)
      modifies wasSuccessful, headers, request.pool
      ensures State() == SetStep(old(State()), Call(key, value))
      ensures !old(wasSuccessful.value) ==> unchanged(wasSuccessful, headers, request.pool)
      ensures old(wasSuccessful.value) && wasSuccessful.value ==>
        headers.items == old(headers.items) + [Pair(ToLower(key), value)]
      ensures !wasSuccessful.value ==> headers.items == old(headers.items)
    {
      if !wasSuccessful.value {
        return;
      }
      var ngxKey := ToLowerNgxStr(request.pool, key);
      if ngxKey.None? {
        wasSuccessful.value := false;
        return;
      }
      var ngxValue := ToNgxStr(request.pool, value);
      if ngxValue.None? {
        wasSuccessful.value := false;
        return;
      }
      headers.items := headers.items + [Pair(ngxKey.value, ngxValue.value)];
    }
  }

  /**
   * lightstep::Tracer::Inject, which is not part of this model, seen from the
   * carrier: some finite sequence of Set calls, then the tracer's own result.
   */
  method TracerInject(writer: NgxHeaderCarrierWriter, calls: seq<Call>, result: bool) returns (ok: bool)
    modifies writer.wasSuccessful, writer.headers, writer.request.pool
    ensures ok == result
    ensures writer.State() == CarrierRun(old(writer.State()), calls)
  {
    var n := 0;
    while n < |calls|
      invariant n <= |calls|
      invariant CarrierRun(writer.State(), calls[n..]) == CarrierRun(old(writer.State()), calls)
    {
      assert calls[n..][1..] == calls[n + 1..];
      writer.Set(calls[n].key, calls[n].value);
      n := n + 1;
    }
    ok := result;
  }

  /**
   * inject_span_context: runs the tracer against a fresh carrier, ANDs the
   * carrier's flag with the tracer's result, and merges the collected pairs
   * into the request's headers only when both succeeded. The outcome is
   * only logged; failureLogged stands for the "Tracer.inject() failed" entry.
   */
  method InjectSpanContext(tracerCalls: seq<Call>, tracerResult: bool, request: Request) returns (failureLogged: bool)
    modifies request, request.pool
    ensures var r := Inject(old(request.headers), tracerCalls, tracerResult, old(request.pool.outcomes));
      request.headers == r.headers && request.pool.outcomes == r.pool && failureLogged == !r.ok
  {
    var headers := new PairVector();
    var wasSuccessful := new SuccessFlag(true);
    var carrierWriter := new NgxHeaderCarrierWriter(request, headers, wasSuccessful);
    var successfullyInjected := TracerInject(carrierWriter, tracerCalls, tracerResult);
    wasSuccessful.value := wasSuccessful.value && successfullyInjected;
    if wasSuccessful.value {
      wasSuccessful.value := SetHeaders(request, headers);
    }
    failureLogged := !wasSuccessful.value;
  }
}
