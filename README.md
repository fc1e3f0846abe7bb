# Trace-context header injection for nginx, modelled in Dafny

This project models how the nginx OpenTracing module writes a span context
into the headers of an in-flight request (`module/src/inject_span_context.cpp`).
The model has three parts:

- **The carrier writer.** `NgxHeaderCarrierWriter` receives `Set(key, value)`
  calls from the tracer. For each call it copies the lower-cased key and the
  value into the request pool and appends the pair to a pending vector. A
  shared success flag stops all further work once a copy fails.
- **The merge.** `set_headers` walks the request's header list once. Each
  header takes the value of the first pending pair whose key matches it, and
  that pair is erased. The pairs still pending are then appended in order. The
  first failed append stops the merge.
- **The orchestration.** `inject_span_context` runs the tracer against the
  writer. It ANDs the writer's flag with the tracer's own result, and merges
  only when both succeeded.

Files:

- `ngx_string.dfy`: byte strings (module `NgxString`). It defines ASCII
  lower-casing and `ngx_strncmp` with C `strncmp` semantics.
  It also holds the `Option` type (module `Wrappers`).
- `ngx_http.dfy`: the parts of nginx that are used (module `NgxHttp`). These
  are the request pool, the request's header list of `ngx_table_elt_t`
  records, and the allocating helpers `to_lower_ngx_str`, `to_ngx_str` and
  `ngx_list_push`.
- `inject_spec.dfy`: the meaning of each operation as a function on values
  (module `InjectSpec`).
- `inject_span_context.dfy`: the operations in the source's imperative form
  (module `InjectSpanContext`). These are classes for the pending vector, the
  referenced flag and the writer, plus methods with loops and `modifies`
  clauses. Each method is proved to compute the matching `InjectSpec`
  function.
- `inject_properties.dfy`: the guarantees, proved about those functions
  (module `InjectProperties`).

External inputs become explicit parameters:

- **Pool allocations.** Every allocation may fail. A pool is modelled by the
  outcomes of its future allocations, one consumed per allocation. Once the
  scripted outcomes run out, every allocation succeeds.
- **The tracer.** `lightstep::Tracer::Inject` is modelled as an arbitrary
  finite sequence of `Set` calls followed by an arbitrary boolean result.

## Model

| member | source | states |
|---|---|---|
| `NgxString.ToLower` | module/src/inject_span_context.cpp:94 | the lower-cased key has the same length and, byte by byte, the ASCII lower case of the key, so it contains no upper-case letter |
| `NgxString.ToLowerOfLower` | module/src/inject_span_context.cpp:94 | lower-casing leaves a key that has no upper-case letter unchanged, so lower-casing twice is lower-casing once |
| `NgxString.StrNCmpEqual` | module/src/inject_span_context.cpp:49-51 | defines `ngx_strncmp(a, b, n) == 0` as C `strncmp` does: bytes compared in order, and the comparison stops, equal, at a NUL byte both strings share |
| `NgxString.StrNCmpEqualOfEqualPrefix` | module/src/inject_span_context.cpp:48-51 | two strings whose first n bytes are equal compare equal under `ngx_strncmp` over n bytes |
| `NgxString.StrNCmpEqualIffPrefix` | module/src/inject_span_context.cpp:48-51 | when the first n bytes hold no NUL, `ngx_strncmp` equality is exactly equality of the n-byte prefixes |
| `NgxString.StrNCmpStopsAtNul` | module/src/inject_span_context.cpp:49-51 | two strings that agree up to and including a shared NUL byte compare equal under `ngx_strncmp`, whatever follows it, so two different keys can match |
| `NgxHttp.ToLowerNgxStr` | module/src/inject_span_context.cpp:94-100 | one pool allocation; on success the lower-cased copy of the key, on failure no data |
| `NgxHttp.ToNgxStr` | module/src/inject_span_context.cpp:101-107 | one pool allocation; on success a copy of the value, on failure no data |
| `NgxHttp.ListPush` | module/src/inject_span_context.cpp:18-20 | on success one new slot at the end of the header list, with the old entries kept; on failure no slot and the list unchanged |
| `InjectSpec.KeyMatches` | module/src/inject_span_context.cpp:46-52 | defines the find_if test: the header's key length equals the pair's key length, and its lowcase_key equals the pair's key under `ngx_strncmp` over that length |
| `InjectSpec.Erase` | module/src/inject_span_context.cpp:61 | `headers.erase(i)`: one element fewer, the elements before i kept, the elements after i shifted down by one |
| `InjectSpec.FirstMatch` | module/src/inject_span_context.cpp:44-54 | the result is the index of the first pending pair whose key matches the header, or the vector's length when no pair matches |
| `InjectSpec.ScanFrom` | module/src/inject_span_context.cpp:42-62 | the replace pass neither adds nor removes headers |
| `InjectSpec.AppendFrom` | module/src/inject_span_context.cpp:66-76 | defines the append loop: each remaining pair is pushed in order, and the first failed push ends the loop with false |
| `InjectSpec.Merge` | module/src/inject_span_context.cpp:31-77 | defines set_headers: true and nothing changed for no pairs, otherwise the replace pass followed by the append pass |
| `InjectSpec.SetStep` | module/src/inject_span_context.cpp:92-109 | defines one `Set` call: nothing once the flag is down, a key allocation then a value allocation, and the lower-cased pair appended only when both succeed |
| `InjectSpec.CarrierRun` | module/src/inject_span_context.cpp:131-132 | defines the effect of the tracer's `Set` calls on the carrier, one after the other in call order |
| `InjectSpec.Inject` | module/src/inject_span_context.cpp:121-138 | defines inject_span_context: the carrier run, its flag ANDed with the tracer's result, and set_headers only when both are true |
| `InjectSpanContext.InsertHeader` | module/src/inject_span_context.cpp:16-26 | on a successful push, exactly one entry is added at the end, with hash 1, the key, lowcase_key equal to the key, and the value; on a failed push it returns false and adds nothing |
| `InjectSpanContext.FindIf` | module/src/inject_span_context.cpp:44-53 | the returned index is the first pair in vector order with a matching key, or the vector's end when no pair matches |
| `InjectSpanContext.SetHeaders` | module/src/inject_span_context.cpp:31-77 | with no pending pairs it returns true and changes nothing; otherwise the result, the header list, the pending vector and the pool are exactly those of the replace pass followed by the append pass |
| `InjectSpanContext.NgxHeaderCarrierWriter.constructor` | module/src/inject_span_context.cpp:85-90 | binds the request, the vector and the flag, and raises the flag |
| `InjectSpanContext.NgxHeaderCarrierWriter.Set` | module/src/inject_span_context.cpp:92-109 | once the flag is down it changes nothing; if both copies succeed it appends exactly one pair, with the lower-cased key; if either copy fails it lowers the flag and appends nothing |
| `InjectSpanContext.TracerInject` | module/src/inject_span_context.cpp:131-132 | the writer's state after the tracer is the carrier run over the tracer's calls in order, and the tracer's result is returned |
| `InjectSpanContext.InjectSpanContext` | module/src/inject_span_context.cpp:121-138 | the header list and the pool end as the specification of injection says, and failure is logged exactly when the carrier, the tracer or the merge failed |
| `InjectProperties.ScanKeepsPositionsAndKeys` | module/src/inject_span_context.cpp:42-62 | the scan never reorders, removes or re-keys headers: each keeps its position, hash, key and lowcase_key, and only its value may change |
| `InjectProperties.ScanReplacementsMatch` | module/src/inject_span_context.cpp:44-61 | every replacement puts the value of a matching pair into that header, and replacements go in strictly increasing header order, so no header takes two pairs |
| `InjectProperties.ScanUsesEachPairOnce` | module/src/inject_span_context.cpp:54-61 | the pairs used by replacements plus the pairs left over are exactly the pending pairs, counted with multiplicity, so no pair serves two headers; the leftovers keep their pending order |
| `InjectProperties.ScanUntouchedHeader` | module/src/inject_span_context.cpp:54 | a header that no replacement wrote to keeps its value, and no leftover pair matches it |
| `InjectProperties.ScanUnmatchedHeaderKept` | module/src/inject_span_context.cpp:44-54 | a header that no pending pair matches keeps its value |
| `InjectProperties.ScanSkipsUnmatched` | module/src/inject_span_context.cpp:44-54 | the scan passes over a run of headers that no pending pair matches without changing anything |
| `InjectProperties.AppendPrefix` | module/src/inject_span_context.cpp:66-75 | the append pass appends the leftover pairs in order, up to the first failed push, and none after it |
| `InjectProperties.AppendOutcome` | module/src/inject_span_context.cpp:66-76 | the append pass returns true exactly when every push succeeds, and it stops allocating at the first failure |
| `InjectProperties.MergeKeepsExisting` | module/src/inject_span_context.cpp:42-62 | every pre-existing header keeps its place, hash, key and lowcase_key; one that no pending pair matches also keeps its value |
| `InjectProperties.MergeAppendsLeftovers` | module/src/inject_span_context.cpp:64-76 | after all the pre-existing headers come the unmatched pairs, in pending order, up to the first failed push; entries already appended or replaced stay; the result is true exactly when all were appended |
| `InjectProperties.MergeAppendedFromPending` | module/src/inject_span_context.cpp:64-75 | every appended header is the entry `insert_header` builds from one of the pending pairs |
| `InjectProperties.MergeSuccess` | module/src/inject_span_context.cpp:31-77 | a successful merge is the scanned list followed by one new entry per leftover pair, and the pending pairs are split exactly into used and appended ones |
| `InjectProperties.DuplicatePendingKeys` | module/src/inject_span_context.cpp:44-75 | for a request with exactly one header and two pending pairs that both match it, with the push succeeding: the first pair in vector order replaces the header's value, and the second is appended as a duplicate header |
| `InjectProperties.ReplaceThenAppend` | module/src/inject_span_context.cpp:42-76 | for a request with exactly two headers and two pending pairs, where the second header matches the first pair and no other header and pair match, with the push succeeding: that header takes the first pair's value in its own position, and the second pair is appended after both headers |
| `InjectProperties.MergeFreshPair` | module/src/inject_span_context.cpp:31-77 | for a single pending pair that no existing header matches, when the push succeeds: the headers are kept as they were, one new entry is appended for the pair, and set_headers returns true |
| `InjectProperties.CarrierStuck` | module/src/inject_span_context.cpp:93 | once the flag is down, no later `Set` call changes the vector, the flag or the pool |
| `InjectProperties.CarrierCollects` | module/src/inject_span_context.cpp:92-109 | the carrier holds the lower-cased calls that got both of their allocations, in call order, and nothing after the first failure; a flag still up means every call was collected |
| `InjectProperties.CarrierOutcome` | module/src/inject_span_context.cpp:93-107 | the flag stays up exactly when every key and value copy succeeds, and no allocation happens after the first failure |
| `InjectProperties.InjectFailureLeavesHeaders` | module/src/inject_span_context.cpp:127-134 | when the tracer fails or any carrier allocation fails, the request's header list is untouched and failure is logged |
| `InjectProperties.InjectSuccess` | module/src/inject_span_context.cpp:127-134 | when the tracer and every carrier allocation succeed, the outcome is the merge of the lower-cased calls, in call order |
| `InjectProperties.InjectShape` | module/src/inject_span_context.cpp:121-138 | pre-existing headers keep their place and keys; every appended header has hash 1, lowcase_key equal to its key, and a key with no upper-case letter |
| `InjectProperties.FirstMatchKeysOnly` | module/src/inject_span_context.cpp:44-53 | which pending pair a header matches depends only on its key and lowcase_key, not on its value or hash |
| `InjectProperties.PrefixRescan` | module/src/inject_span_context.cpp:42-62 | scanning again the headers a scan produced, with the same pending pairs, makes the same choice at every header, writes only the values already there, and reaches the end of them with the same leftover pairs |
| `InjectProperties.TailRescan` | module/src/inject_span_context.cpp:42-62 | scanning the entries appended for the leftover pairs, with those pairs pending, matches each entry with its own pair, keeps every value, and leaves no pair over |
| `InjectProperties.RerunIdempotent` | module/src/inject_span_context.cpp:121-138 | after a successful injection, a second injection with the same tracer calls, whose carrier allocations succeed, succeeds too, leaves the header list exactly as the first left it (no duplicate appended), and makes no allocation beyond the carrier's copies |
| `InjectProperties.EndToEndExample` | module/src/inject_span_context.cpp:121-138 | with headers Content-Type and X-Trace-Id and a tracer that emits x-trace-id then x-span-id, X-Trace-Id takes the new value in place and x-span-id is appended last |

## Left out

- Logging: every `ngx_log_*` call is left out. They are write-only and never
  affect control flow. The only exception is the final "Tracer.inject()
  failed" entry, which `InjectSpanContext` reports as its result
  `failureLogged`.
- Pool memory: memory itself is not modelled, only whether each allocation
  succeeds. `to_lower_ngx_str`, `to_ngx_str` and `ngx_list_push` each cost one
  allocation. Their implementations are not part of this model.
- Empty strings: the model assumes a null data pointer means only an
  allocation failure. So a zero-length key or value is handled like any other.
- `ngx_list_push`: the list's chunk layout is not modelled. A push is
  modelled as one allocation that may fail every time, whether or not the
  current chunk still has room. This covers every failure pattern the real
  list can produce.
- The `for_each` helper: it is modelled as an in-order walk over the header
  sequence. Its own source is not part of this model.
- Tracer: `lightstep::Tracer::Inject` and its wire format are external. Only
  their effect on the carrier is modelled: a call sequence and a result.
- Header hash: `hash` means nothing here beyond the value 1 that
  `insert_header` stores.
- `KeyMatches`: a header whose stored `lowcase_key` is shorter than its key is
  treated as not matching. nginx never builds such an entry, and in C the
  comparison would read past the stored bytes.
- `InjectSpanContext.InjectSpanContext`: the source returns nothing. Its
  outcome is visible only in the log. The model still returns `failureLogged`
  so that this outcome can be stated.
- `InjectProperties.EndToEndExample`: it is stated for arbitrary keys with the
  example's key lengths (12, 10 and 9 bytes), not for the literal byte
  strings. The replaced header keeps its key as the request spelled it
  (`X-Trace-Id`), and only its value changes, because source line 60 assigns
  only `header.value`.
- "Exactly one entry per key" is not claimed after a successful injection.
  The code does not guarantee it. A request that already carries a key twice
  keeps both entries, and with one pending pair for that key only the first
  is replaced. Two pending pairs with
  the same key that only one existing header matches give an appended
  duplicate (see `InjectProperties.DuplicatePendingKeys`).
