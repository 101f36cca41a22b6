/** Vocabulary shared by every module of the model. */
module Common {

  /** Row ids. The database uses UUID strings; the model needs only equality and a total order. */
  type Id = nat

  datatype Option<+T> = None | Some(value: T)

  datatype Result<+T, +E> = Ok(value: T) | Err(error: E)

  /** The rows of `m` whose key is in `keys`. */
  function Restrict<K, V>(m: map<K, V>, keys: set<K>): map<K, V>
  {
    map k | k in m && k in keys :: m[k]
  }

  lemma RestrictAndRest<K, V>(m: map<K, V>, keys: set<K>)
    ensures Restrict(m, keys) + (m - keys) == m
    ensures Restrict(m, keys).Keys !! (m - keys).Keys
  {
  }
}
