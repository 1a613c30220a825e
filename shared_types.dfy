/**
 * The server-side copy of the contract tier table (src/shared/types/types.ts).
 * Labels, colours and the last icon differ from the client copy; the economy does not.
 */
module SharedTypes {
  import ClientTypes

  datatype Icon = Shield | Briefcase | Warning | Fire | Skull

  datatype ContractTier = ContractTier(
    id: string,
    name: string,
    guesses: nat,
    multiplierTenths: nat,
    color: string,
    icon: Icon)

  const WordLength: nat := 5

  function Contracts(): (r: seq<ContractTier>)
    ensures |r| == 5
    ensures forall i :: 0 <= i < |r| ==> r[i].guesses >= 2 && r[i].multiplierTenths >= 10
    ensures forall i, j :: 0 <= i < j < |r| ==> r[i].id != r[j].id
    ensures forall i, j :: 0 <= i < j < |r| ==>
              r[i].guesses > r[j].guesses && r[i].multiplierTenths < r[j].multiplierTenths
  {
    [ ContractTier("safe", "Safe", 6, 11, "bg-green-500", Shield),
      ContractTier("standard", "Standard", 5, 15, "bg-tech-blue", Briefcase),
      ContractTier("risky", "Risky", 4, 30, "bg-caution-amber", Warning),
      ContractTier("hard", "Hard", 3, 50, "bg-orange-500", Fire),
      ContractTier("extreme", "EXTREME", 2, 100, "bg-red-600", Skull) ]
  }

  /** Both tables list the same tiers in the same order with the same economy. */
  lemma AgreesWithClientTable()
    ensures WordLength == ClientTypes.WordLength
    ensures |Contracts()| == |ClientTypes.Contracts()|
    ensures forall i :: 0 <= i < |Contracts()| ==>
              && Contracts()[i].id == ClientTypes.Contracts()[i].id
              && Contracts()[i].guesses == ClientTypes.Contracts()[i].guesses
              && Contracts()[i].multiplierTenths == ClientTypes.Contracts()[i].multiplierTenths
  {
  }
}
