/** Marks that open a guarded fact. A predicate of the form `forall z :: Look(z) ==> body` stays closed for the verifier
    until a proof mentions Look; the marks differ so that opening one kind of fact leaves the others closed. */
module Guards {
  predicate Look(z: int) { true }

  predicate LookPair(z: int) { true }

  predicate LookTable(z: int) { true }

  predicate Tick(z: int) { true }
}
