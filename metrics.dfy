/** The process-wide metrics aggregate: the counter proxy_requests_total,
    labelled by method, path and status, and the histogram
    proxy_request_duration_seconds, labelled by method and path, of which
    only the number of observations is kept. */
module Observability {

  datatype CounterKey = CounterKey(verb: string, path: string, status: string)

  datatype HistogramKey = HistogramKey(verb: string, path: string)

  /** The value of a counter or observation count; absent labels read as zero. */
  function Count<K>(m: map<K, nat>, k: K): nat {
    if k in m then m[k] else 0
  }

  /** One increment (Inc or Observe) of the entry k. */
  function Bump<K>(m: map<K, nat>, k: K): map<K, nat> {
    m[k := Count(m, k) + 1]
  }

  /** An increment raises its own entry by exactly one, leaves every other
      entry as it was and adds no entry but its own; so no count ever falls. */
  lemma BumpExactlyOne<K(!new)>(m: map<K, nat>, k: K)
    ensures Count(Bump(m, k), k) == Count(m, k) + 1
    ensures forall j :: j != k ==> Count(Bump(m, k), j) == Count(m, j)
    ensures forall j :: Count(Bump(m, k), j) >= Count(m, j)
    ensures Bump(m, k).Keys == m.Keys + {k}
  {
  }

  class Metrics {
    var requests: map<CounterKey, nat>
    var observations: map<HistogramKey, nat>

    constructor ()
      ensures requests == map[] && observations == map[]
    {
      requests := map[];
      observations := map[];
    }

    /** requestCount.WithLabelValues(verb, path, status).Inc() */
    method Inc(verb: string, path: string, status: string)
      modifies this
      ensures requests == Bump(old(requests), CounterKey(verb, path, status))
      ensures observations == old(observations)
    {
      requests := Bump(requests, CounterKey(verb, path, status));
    }

    /** requestDuration.WithLabelValues(verb, path).Observe(duration); the
        duration itself is not kept. */
    method Observe(verb: string, path: string)
      modifies this
      ensures observations == Bump(old(observations), HistogramKey(verb, path))
      ensures requests == old(requests)
    {
      observations := Bump(observations, HistogramKey(verb, path));
    }
  }
}
