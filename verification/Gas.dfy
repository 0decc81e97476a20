/** The gas a transaction costs before any code runs (kernel/state_transition.go). */
module Intrinsic {
  import opened Wrappers
  import opened Transactions

  const TX_GAS := 21000
  const TX_GAS_CONTRACT_CREATION := 53000
  const TX_DATA_ZERO_GAS := 4
  const TX_DATA_NON_ZERO_GAS := 68

  /** The number of non-zero bytes. */
  ghost function NonZeros(data: seq<nat>): (n: nat)
    ensures n <= |data|
  {
    if data == [] then 0 else NonZeros(data[..|data| - 1]) + if data[|data| - 1] != 0 then 1 else 0
  }

  /** The gas in unbounded arithmetic. */
  ghost function ExactGas(data: seq<nat>, create: bool, homestead: bool): nat {
    (if create && homestead then TX_GAS_CONTRACT_CREATION else TX_GAS)
    + NonZeros(data) * TX_DATA_NON_ZERO_GAS + (|data| - NonZeros(data)) * TX_DATA_ZERO_GAS
  }

  lemma {:induction false} ZerosCount(data: seq<nat>)
    ensures multiset(data)[0] + NonZeros(data) == |data|
  {
    if data != [] {
      ZerosCount(data[..|data| - 1]);
      assert data == data[..|data| - 1] + [data[|data| - 1]];
    }
  }

  /** What is charged: 4 for every zero byte, 68 for every other, on top of 53000 for a creation under
      homestead rules and 21000 for everything else. */
  lemma ExactGasMeans(data: seq<nat>, create: bool, homestead: bool)
    ensures ExactGas(data, create, homestead) ==
              (if create && homestead then 53000 else 21000)
              + 4 * multiset(data)[0] + 68 * (|data| - multiset(data)[0])
  {
    ZerosCount(data);
  }

  /** The 64-bit computation fails exactly when the exact gas does not fit into 64 bits. */
  method IntrinsicGas(data: seq<nat>, create: bool, homestead: bool) returns (gas: Option<nat>)
    ensures gas == if ExactGas(data, create, homestead) < TWO_64 then Some(ExactGas(data, create, homestead)) else None
  {
    var sum := if create && homestead then TX_GAS_CONTRACT_CREATION else TX_GAS;
    if |data| > 0 {
      var nz := 0;
      for i := 0 to |data|
        invariant nz == NonZeros(data[..i])
      {
        assert data[..i + 1][..i] == data[..i];
        if data[i] != 0 {
          nz := nz + 1;
        }
      }
      assert data[..|data|] == data;
      if (TWO_64 - 1 - sum) / TX_DATA_NON_ZERO_GAS < nz {
        return None;
      }
      sum := sum + nz * TX_DATA_NON_ZERO_GAS;
      var z := |data| - nz;
      if (TWO_64 - 1 - sum) / TX_DATA_ZERO_GAS < z {
        return None;
      }
      sum := sum + z * TX_DATA_ZERO_GAS;
    }
    gas := Some(sum);
  }
}
