/**
 * The part of nginx the header injection touches: the request's memory pool,
 * whose allocations may fail, and the request's list of incoming headers
 * (headers_in.headers, a list of ngx_table_elt_t records).
 *
 * A pool is modelled by the outcomes of its future allocations: each
 * allocation consumes the next outcome, and once the scripted outcomes are
 * used up every further allocation succeeds. Any pattern of failures can be
 * written this way.
 */
module NgxHttp {
  import opened Wrappers
  import opened NgxString

  /** ngx_table_elt_t: one entry of a header list. */
  datatype TableElt = TableElt(hash: int, key: Bytes, lowcaseKey: Bytes, value: Bytes)

  /** Whether the next allocation from a pool with these scripted outcomes succeeds. */
  function AllocOk(outcomes: seq<bool>): bool {
    outcomes == [] || outcomes[0]
  }

  /** The scripted outcomes left after one allocation. */
  function Consume(outcomes: seq<bool>): (rest: seq<bool>)
    ensures |rest| == if outcomes == [] then 0 else |outcomes| - 1
  {
    if outcomes == [] then [] else outcomes[1..]
  }

  /** The scripted outcomes left after n allocations. */
  function Skip(outcomes: seq<bool>, n: nat): seq<bool> {
    if n == 0 then outcomes else Skip(Consume(outcomes), n - 1)
  }

  /** How many of the next n allocations succeed before the first one that fails. */
  function Successes(outcomes: seq<bool>, n: nat): (s: nat)
    ensures s <= n
  {
    if n == 0 || !AllocOk(outcomes) then 0 else 1 + Successes(Consume(outcomes), n - 1)
  }

  /** The next n allocations all succeed. */
  predicate AllSucceed(outcomes: seq<bool>, n: nat) {
    Successes(outcomes, n) == n
  }

  /** An ngx_pool_t, reduced to whether its allocations succeed. */
  class Pool {
    var outcomes: seq<bool>

    constructor (outcomes: seq<bool>)
      ensures this.outcomes == outcomes
    {
      this.outcomes := outcomes;
    }

    /** One allocation (ngx_palloc/ngx_pnalloc): reports whether it succeeded. */
    method Alloc() returns (ok: bool)
      modifies this
      ensures ok == AllocOk(old(outcomes))
      ensures outcomes == Consume(old(outcomes))
    {
      ok := AllocOk(outcomes);
      outcomes := Consume(outcomes);
    }
  }

  /** An ngx_http_request_t, reduced to its pool and its incoming header list. */
  class Request {
    const pool: Pool
    var headers: seq<TableElt>

    constructor (pool: Pool, headers: seq<TableElt>)
      ensures this.pool == pool && this.headers == headers
    {
      this.pool := pool;
      this.headers := headers;
    }
  }

  /**
   * to_lower_ngx_str: one pool allocation holding the lower-cased copy of s;
   * None stands for the null data pointer returned when the allocation fails.
   */
  method ToLowerNgxStr(pool: Pool, s: Bytes) returns (r: Option<Bytes>)
    modifies pool
    ensures r == if AllocOk(old(pool.outcomes)) then Some(ToLower(s)) else None
    ensures pool.outcomes == Consume(old(pool.outcomes))
  {
    var ok := pool.Alloc();
    r := if ok then Some(ToLower(s)) else None;
  }

  /** to_ngx_str: one pool allocation holding a copy of s, or None when it fails. */
  method ToNgxStr(pool: Pool, s: Bytes) returns (r: Option<Bytes>)
    modifies pool
    ensures r == if AllocOk(old(pool.outcomes)) then Some(s) else None
    ensures pool.outcomes == Consume(old(pool.outcomes))
  {
    var ok := pool.Alloc();
    r := if ok then Some(s) else None;
  }

  /**
   * ngx_list_push on the request's header list: adds one uninitialised
   * element at the end and returns its index, or None (the null pointer),
   * adding nothing, when the allocation fails.
   */
  method ListPush(request: Request) returns (slot: Option<nat>)
    modifies request, request.pool
    ensures AllocOk(old(request.pool.outcomes)) ==>
      slot == Some(|old(request.headers)|) &&
      |request.headers| == |old(request.headers)| + 1 &&
      request.headers[..|old(request.headers)|] == old(request.headers)
    ensures !AllocOk(old(request.pool.outcomes)) ==>
      slot == None && request.headers == old(request.headers)
    ensures request.pool.outcomes == Consume(old(request.pool.outcomes))
  {
    var ok := request.pool.Alloc();
    if ok {
      slot := Some(|request.headers|);
      request.headers := request.headers + [TableElt(0, [], [], [])];
    } else {
      slot := None;
    }
  }
}
