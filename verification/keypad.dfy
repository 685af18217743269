/** The key scan of the wait-for-key instruction: the lowest key whose
    current state differs from the snapshot taken when waiting began. */
module Keypad {

  /** Number of keys on the pad (`KEYPAD_SIZE`). */
  const KEYPAD_SIZE := 16

  datatype Option<T> = None | Some(value: T)

  /** The first index at or after `from` where `keys` and `snapshot`
      disagree, or None when they agree from `from` on. */
  function FirstChange(keys: seq<bool>, snapshot: seq<bool>, from: nat): (r: Option<nat>)
    requires |keys| == |snapshot|
    ensures r.Some? ==> from <= r.value < |keys| && keys[r.value] != snapshot[r.value]
    ensures r.Some? ==> forall j :: from <= j < r.value ==> keys[j] == snapshot[j]
    ensures r.None? <==> forall j :: from <= j < |keys| ==> keys[j] == snapshot[j]
    decreases |keys| - from
  {
    if from >= |keys| then None
    else if keys[from] != snapshot[from] then Some(from)
    else FirstChange(keys, snapshot, from + 1)
  }
}
