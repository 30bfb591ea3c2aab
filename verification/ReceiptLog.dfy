/** The receipt and effect-intent tables of one workspace. */
module ReceiptLog {
  import opened Wrappers

  /** What a committed command left behind. */
  datatype Receipt = Receipt(request: string, facts: seq<string>, observedHead: nat)

  type Receipts = map<string, Receipt>

  type Intents = map<string, string>

  datatype Reservation = Reserved(intents: Intents) | AlreadyReserved | EffectConflict

  /** One immediate transaction: bind the scope to the digest unless it is bound. */
  function Reserve(intents: Intents, scope: string, digest: string): (r: Reservation)
    ensures r.Reserved? <==> scope !in intents
    ensures r.Reserved? ==> r.intents == intents[scope := digest]
    ensures r.EffectConflict? <==> scope in intents && intents[scope] != digest
  {
    if scope !in intents then Reserved(intents[scope := digest])
    else if intents[scope] != digest then EffectConflict
    else AlreadyReserved
  }

  /** Rows are inserted and never changed or removed. */
  class ReceiptTables {
    var receipts: Receipts
    var intents: Intents

    constructor ()
      ensures receipts == map[] && intents == map[]
    {
      receipts := map[];
      intents := map[];
    }

    method Lookup(commandId: string) returns (r: Option<Receipt>)
      ensures r == if commandId in receipts then Some(receipts[commandId]) else None
    {
      if commandId in receipts {
        return Some(receipts[commandId]);
      }
      r := None;
    }

    /** True when this call made the reservation; an error when other material is bound. */
    method ReserveEffect(scope: string, digest: string) returns (r: Option<bool>)
      modifies this`intents
      ensures match Reserve(old(intents), scope, digest)
              case Reserved(next) => r == Some(true) && intents == next
              case AlreadyReserved => r == Some(false) && intents == old(intents)
              case EffectConflict => r == None && intents == old(intents)
      ensures forall s :: s in old(intents) ==> s in intents && intents[s] == old(intents)[s]
    {
      if scope in intents {
        if intents[scope] != digest {
          return None;
        }
        return Some(false);
      }
      intents := intents[scope := digest];
      r := Some(true);
    }

    /** False is the primary-key conflict: the command was already committed. */
    method Append(commandId: string, receipt: Receipt) returns (ok: bool)
      modifies this`receipts
      ensures ok <==> commandId !in old(receipts)
      ensures receipts == if ok then old(receipts)[commandId := receipt] else old(receipts)
      ensures forall c :: c in old(receipts) ==> c in receipts && receipts[c] == old(receipts)[c]
    {
      if commandId in receipts {
        return false;
      }
      receipts := receipts[commandId := receipt];
      ok := true;
    }
  }
}
