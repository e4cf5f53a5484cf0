/** Go's `for k := range m` visits every key of a map once, in an order the
    program does not control. A loop over a map is modelled by picking any
    key still to visit; these facts keep such loops' bookkeeping short. */
module Sets {

  /** Moving one key from the keys still to visit to the visited ones keeps
      the two a partition of all keys, and fewer keys remain. */
  lemma MoveKey<K>(todo: set<K>, done: set<K>, all: set<K>, k: K)
    requires todo !! done && todo + done == all && k in todo
    ensures (todo - {k}) !! (done + {k}) && (todo - {k}) + (done + {k}) == all
    ensures |todo - {k}| < |todo|
  {
  }
}
