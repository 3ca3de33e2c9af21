/** The driver's lock registry: one mutex per collection name, created the
    first time the name is asked for and kept for the driver's lifetime.
    A mutex is represented by its identity; blocking is not modelled. */
module Locks {

  /** The identity of one mutex: distinct values are distinct mutexes. */
  type Lock = nat

  /** `mutexes` maps collection names to their mutex; `created` counts the
      mutexes created so far, so the next one gets a fresh identity. */
  datatype Registry = Registry(mutexes: map<string, Lock>, created: nat)

  predicate WellFormed(reg: Registry)
  {
    && (forall c :: c in reg.mutexes ==> reg.mutexes[c] < reg.created)
    && (forall a, b :: a in reg.mutexes && b in reg.mutexes && a != b ==> reg.mutexes[a] != reg.mutexes[b])
  }

  /** A registry in which no two collections share a mutex. */
  type Table = reg: Registry | WellFormed(reg) witness Registry(map[], 0)

  /** The registry a new driver starts with. */
  function Empty(): (t: Table)
    ensures t.mutexes == map[]
  {
    Registry(map[], 0)
  }

  /** The mutex of `c`, creating and registering one when `c` has none. */
  function GetOrCreateMutex(t: Table, c: string): (out: (Table, Lock))
    ensures c in out.0.mutexes && out.0.mutexes[c] == out.1
    ensures out.0.mutexes.Keys == t.mutexes.Keys + {c}
    ensures forall k :: k in t.mutexes ==> out.0.mutexes[k] == t.mutexes[k]
    ensures c in t.mutexes ==> out == (t, t.mutexes[c])
    ensures c !in t.mutexes ==> forall k :: k in t.mutexes ==> t.mutexes[k] != out.1
  {
    if c in t.mutexes then (t, t.mutexes[c])
    else
      var m := t.created;
      (Registry(t.mutexes[c := m], t.created + 1), m)
  }

  /** Asking again for the same collection returns the same mutex and
      leaves the registry as it is. */
  lemma GetOrCreateMutexIdempotent(t: Table, c: string)
    ensures var (t1, m1) := GetOrCreateMutex(t, c);
      GetOrCreateMutex(t1, c) == (t1, m1)
  {
  }
}
