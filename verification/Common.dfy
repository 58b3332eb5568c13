/** What several of the models need. */
module Common {

  datatype Option<+T> = None | Some(value: T)

  function Max(a: int, b: int): int {
    if a >= b then a else b
  }

  function Min(a: int, b: int): int {
    if a <= b then a else b
  }

  /** Where an insertion-ordered map holds a key, or its size if it does not. */
  function Position<V>(entries: seq<(string, V)>, key: string): (k: nat)
    ensures k <= |entries|
    ensures forall i :: 0 <= i < k ==> entries[i].0 != key
    ensures k < |entries| ==> entries[k].0 == key
  {
    if entries != [] && entries[0].0 != key then 1 + Position(entries[1..], key) else 0
  }
}
