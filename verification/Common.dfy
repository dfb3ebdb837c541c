/** Small shared vocabulary: optional values, duplicate-free sequences and request contexts. */
module Common {
  const MAX_UINT64: nat := 0xffff_ffff_ffff_ffff

  datatype Option<+T> = None | Some(value: T)

  ghost predicate NoDup<T>(s: seq<T>) {
    forall i, j :: 0 <= i < j < |s| ==> s[i] != s[j]
  }

  function Elems<T>(s: seq<T>): set<T> {
    set x | x in s
  }

  /** Handing a transaction to ordering: acknowledged, possibly delivered, or certainly not delivered. */
  datatype SendResult = Acknowledged | Uncertain | NotDelivered

  /**
   * A request context as the code observes it: Err() is polled, and from some
   * poll on it may report cancellation. Every timing of a cancellation relative
   * to the polls is some value of expiresAt; None is a context never canceled.
   */
  class Context {
    const expiresAt: Option<nat>
    var polls: nat

    constructor (expiresAt: Option<nat>)
      ensures this.expiresAt == expiresAt && polls == 0
    {
      this.expiresAt := expiresAt;
      polls := 0;
    }

    predicate Expired()
      reads this
    {
      expiresAt.Some? && expiresAt.value <= polls
    }

    method Err() returns (canceled: bool)
      modifies this
      ensures canceled == old(Expired())
      ensures polls == old(polls) + 1
    {
      canceled := Expired();
      polls := polls + 1;
    }
  }
}
