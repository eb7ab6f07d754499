/** Notions shared by the modules. */
module Common {
  datatype Option<T> = None | Some(value: T)

  predicate Distinct<T(==)>(s: seq<T>) { forall i, j | 0 <= i < j < |s| :: s[i] != s[j] }

  /** The sequence without its element k. */
  function Without<T>(s: seq<T>, k: nat): seq<T>
    requires k < |s|
  {
    s[..k] + s[k + 1..]
  }

  /** Position of the first key equal to id, or |keys|. */
  function First(keys: seq<int>, id: int): (k: nat)
    ensures k <= |keys|
    ensures k < |keys| ==> keys[k] == id
    ensures forall i | 0 <= i < k :: keys[i] != id
  {
    if keys == [] || keys[0] == id then 0 else 1 + First(keys[1..], id)
  }
}
