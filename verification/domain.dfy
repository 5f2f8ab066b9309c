/** Domain records shared by the commit and index components
    (`crates/statechronicle-domain/src`). */
module Domain {
  import opened Bytes
  import opened Options
  import opened Amounts
  import opened Ordering

  /** A string identifier, as its UTF-8 bytes. */
  datatype Id = Id(utf8: Text)

  predicate IsEmpty(id: Id) { id.utf8 == [] }

  /** `str` order: lexicographic on the UTF-8 bytes. */
  predicate IdLe(a: Id, b: Id) { LexLe(ByteLt, a.utf8, b.utf8) }

  lemma IdLeIsTotalOrder()
    ensures TotalOrder(IdLe)
  {
    assert StrictOrder(ByteLt);
    forall a: Id, b: Id ensures IdLe(a, b) || IdLe(b, a)
      ensures IdLe(a, b) && IdLe(b, a) ==> a == b
    {
      LexTotal(ByteLt, a.utf8, b.utf8);
    }
    forall a: Id, b: Id, c: Id | IdLe(a, b) && IdLe(b, c) ensures IdLe(a, c) {
      LexTransitive(ByteLt, a.utf8, b.utf8, c.utf8);
    }
  }

  /** Typed resource payloads. */
  datatype ResourceState =
    | UniqueAsset(owner: Id, status: Id, tradeId: Option<Id>)
    | ConsumableStack(subject: Id, quantity: ValidAmount, unit: Id)
    | FungibleBalance(subject: Id, balance: ValidAmount, unit: Id)
    | Entitlement(subject: Id, status: Id, transferable: bool)
    | MeteredResource(subject: Id, remaining: ValidAmount, maximum: ValidAmount)
    | Listing(seller: Id, status: Id)
    | Escrow(buyer: Id, seller: Id, status: Id)
    | Custom(domain: Id, schemaVersion: nat, payload: Id)
  {
    function Subject(): Option<Id> {
      if ConsumableStack? || FungibleBalance? || Entitlement? || MeteredResource? then Some(subject) else None
    }

    /** `amount("balance")`, a missing field reading as zero. */
    function Balance(): ValidAmount { if FungibleBalance? then balance else Amount(0, 0) }

    function Owner(): Option<Id> { if UniqueAsset? then Some(owner) else None }

    /** Whether two payloads have the same `StateType`. */
    predicate SameType(other: ResourceState) {
      match this
      case UniqueAsset(_, _, _) => other.UniqueAsset?
      case ConsumableStack(_, _, _) => other.ConsumableStack?
      case FungibleBalance(_, _, _) => other.FungibleBalance?
      case Entitlement(_, _, _) => other.Entitlement?
      case MeteredResource(_, _, _) => other.MeteredResource?
      case Listing(_, _) => other.Listing?
      case Escrow(_, _, _) => other.Escrow?
      case Custom(_, _, _) => other.Custom?
    }
  }

  datatype StateCommitment = StateCommitment(version: nat, stateHash: Digest, state: ResourceState)

  /** The projected current state of a resource. */
  datatype Projection = Projection(
    tenantId: Id,
    resourceId: Id,
    version: nat,
    lastEventId: Id,
    lastCommitId: Id,
    stateHash: Digest,
    state: ResourceState)

  datatype Event = Event(
    schema: Id,
    tenantId: Id,
    eventId: Id,
    intentId: Id,
    operation: Id,
    resourceId: Id,
    before: StateCommitment,
    after: StateCommitment)
}
