/**
 * The hash-store contract the dashboards talk to through a wallet, seen as
 * a table of hashes per contract address and trial id: `storeHash` writes
 * an entry and `getHash` reads one back. The two dashboards are wired to
 * different contract addresses.
 */
module Ledger {

  /** The contract the hospital dashboard publishes to. */
  const PublishAddress := "0xCf3cC873C988eb635712C8AB7c9a4F6A2376EFc7"

  /** The contract the regulator dashboard reads from. */
  const FetchAddress := "0xabF669AB56DE36eCb6112113C52d74936BBde580"

  /** The entry for `id` at `address`; an id never stored reads as the empty string. */
  function Lookup(hashes: map<(string, string), string>, address: string, id: string): (h: string)
    ensures (address, id) !in hashes ==> h == ""
    ensures (address, id) in hashes ==> h == hashes[(address, id)]
  {
    if (address, id) in hashes then hashes[(address, id)] else ""
  }

  /** Reading back what was just stored gives it back; no other entry moves. */
  lemma StoreThenLookup(hashes: map<(string, string), string>, address: string, id: string, hash: string,
                        address': string, id': string)
    ensures Lookup(hashes[(address, id) := hash], address', id')
         == if (address', id') == (address, id) then hash else Lookup(hashes, address', id')
  {
  }

  class Chain {
    var hashes: map<(string, string), string>

    constructor ()
      ensures hashes == map[]
    {
      hashes := map[];
    }

    /** `contract.getHash(id)` on the contract at `address`. */
    function GetHash(address: string, id: string): string
      reads this
    {
      Lookup(hashes, address, id)
    }

    /** `contract.storeHash(id, hash)` on the contract at `address`; a later store for the same id overwrites. */
    method StoreHash(address: string, id: string, hash: string)
      modifies this
      ensures hashes == old(hashes)[(address, id) := hash]
      ensures GetHash(address, id) == hash
      ensures forall a, i :: (a, i) != (address, id) ==> GetHash(a, i) == old(GetHash(a, i))
    {
      hashes := hashes[(address, id) := hash];
    }
  }
}
