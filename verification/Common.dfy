/** Shared by several modules. */
module Common {
  datatype Option<T> = None | Some(value: T)

  function OrNothing(s: string): seq<string> {
    if s == "" then [] else [s]
  }

  lemma {:induction false} AppendAssociates<E>(a: seq<E>, b: seq<E>, c: seq<E>)
    ensures (a + b) + c == a + (b + c)
  {}
}
