/** A way to keep a definition folded. What hangs on `Inspected`, as in
    `forall depth: nat {:trigger Inspected(depth)} :: Body`, is looked into only where some
    member mentions it. A predicate defined as a truth value that is chosen to agree with
    its body in this way stays folded where it is assumed and where it is proved. */
module Folded {
  ghost predicate Inspected(depth: nat) {
    true
  }

  ghost predicate Agree<T(!new)>(a: T, b: T) {
    a == b
  }

  lemma Agrees<T(!new)>(a: T)
    ensures Agree(a, a)
  {
  }
}
