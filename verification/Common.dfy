module Common {
  datatype Option<+T> = None | Some(value: T)

  /** A map of maps, as Go code keeps them: an inner map is made when first needed. */
  type Nested<T> = map<string, map<string, T>>

  function Lookup<T>(m: Nested<T>, outer: string, inner: string): (v: Option<T>) {
    if outer in m && inner in m[outer] then Some(m[outer][inner]) else None
  }

  function Put<T>(m: Nested<T>, outer: string, inner: string, v: T): (m': Nested<T>) {
    m[outer := (if outer in m then m[outer] else map[])[inner := v]]
  }

  lemma LookupPut<T>(m: Nested<T>, outer: string, inner: string, v: T, a: string, b: string)
    ensures Lookup(Put(m, outer, inner, v), a, b) == if a == outer && b == inner then Some(v) else Lookup(m, a, b)
  {
  }

  /** The states of a run of `next` over these inputs, one more than there are inputs. */
  ghost predicate Trace<S, I>(next: (S, I) -> S, states: seq<S>, inputs: seq<I>) {
    |states| == |inputs| + 1 && forall k | 0 < k < |states| :: states[k] == next(states[k - 1], inputs[k - 1])
  }

  lemma TraceAdd<S, I>(next: (S, I) -> S, states: seq<S>, inputs: seq<I>, i: nat, s: S)
    requires i < |inputs| && Trace(next, states, inputs[..i]) && s == next(states[i], inputs[i])
    ensures Trace(next, states + [s], inputs[..i + 1])
  {
  }
}
