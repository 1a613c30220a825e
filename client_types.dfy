/**
 * The client's enums and the contract tier table (src/client/types.ts).
 * Multipliers are kept as exact tenths: 1.1 is 11, 3.0 is 30.
 */
module ClientTypes {
  datatype TileStatus = Initial | Correct | Present | Absent

  datatype GamePhase = Setup | Playing | Won | Lost

  datatype Icon = Shield | Briefcase | Warning | Fire | Octagon

  datatype ContractTier = ContractTier(
    id: string,
    name: string,
    guesses: nat,
    multiplierTenths: nat,
    color: string,
    icon: Icon)

  const WordLength: nat := 5

  /** The five tiers offered in the contract menu, safest first. */
  function Contracts(): (r: seq<ContractTier>)
    ensures |r| == 5
    ensures forall i :: 0 <= i < |r| ==> r[i].guesses >= 2 && r[i].multiplierTenths >= 10
    ensures forall i, j :: 0 <= i < j < |r| ==> r[i].id != r[j].id
    ensures forall i, j :: 0 <= i < j < |r| ==>
              r[i].guesses > r[j].guesses && r[i].multiplierTenths < r[j].multiplierTenths
  {
    [ ContractTier("safe", "SAFE", 6, 11, "bg-[#4CAF50]", Shield),
      ContractTier("standard", "STANDARD", 5, 15, "bg-[#2196F3]", Briefcase),
      ContractTier("risky", "RISKY", 4, 30, "bg-[#FFC107]", Warning),
      ContractTier("hard", "HARD", 3, 50, "bg-[#FF9800]", Fire),
      ContractTier("extreme", "EXTREME", 2, 100, "bg-[#F44336]", Octagon) ]
  }

  /** The table's rows, in menu order, with their guess budgets and multipliers. */
  lemma ContractTable()
    ensures WordLength == 5
    ensures [Contracts()[0].id, Contracts()[1].id, Contracts()[2].id, Contracts()[3].id, Contracts()[4].id]
         == ["safe", "standard", "risky", "hard", "extreme"]
    ensures [Contracts()[0].guesses, Contracts()[1].guesses, Contracts()[2].guesses,
             Contracts()[3].guesses, Contracts()[4].guesses] == [6, 5, 4, 3, 2]
    ensures [Contracts()[0].multiplierTenths, Contracts()[1].multiplierTenths, Contracts()[2].multiplierTenths,
             Contracts()[3].multiplierTenths, Contracts()[4].multiplierTenths] == [11, 15, 30, 50, 100]
  {
  }
}
