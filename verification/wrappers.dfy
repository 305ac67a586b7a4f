/** Option and panic-carrying results shared by every module of the model. */
module Wrappers {
  datatype Option<T> = None | Some(value: T)

  /** The outcome of an operation that panics in some cases: `Panic` carries the panic message. */
  datatype Result<T> = Ok(value: T) | Panic(message: string)

  /** `HashMap::get`: the stored value when the key is present, `None` otherwise. */
  function Lookup<K, V>(m: map<K, V>, k: K): (r: Option<V>)
    ensures r.Some? <==> k in m
    ensures r.Some? ==> r.value == m[k]
  {
    if k in m then Some(m[k]) else None
  }
}
