/** Intrinsic gas of a message (l2geth/core/state_transition.go). */
module Gas {
  import opened Wrappers
  import opened Transactions

  const TX_GAS := 21000
  const TX_GAS_CONTRACT_CREATION := 53000
  const TX_DATA_ZERO_GAS := 4
  const TX_DATA_NON_ZERO_GAS_FRONTIER := 68
  const TX_DATA_NON_ZERO_GAS_EIP2028 := 16
  const MAX_UINT64 := 0xffff_ffff_ffff_ffff

  function NonZeros(data: seq<Byte>): (n: nat)
    ensures n <= |data|
  {
    if data == [] then 0
    else NonZeros(data[..|data| - 1]) + (if data[|data| - 1] != 0 then 1 else 0)
  }

  /** The charge in unbounded arithmetic. */
  function ExactIntrinsic(data: seq<Byte>, creation: bool, homestead: bool, eip2028: bool): nat {
    (if creation && homestead then TX_GAS_CONTRACT_CREATION else TX_GAS)
    + NonZeros(data) * (if eip2028 then TX_DATA_NON_ZERO_GAS_EIP2028 else TX_DATA_NON_ZERO_GAS_FRONTIER)
    + (|data| - NonZeros(data)) * TX_DATA_ZERO_GAS
  }

  /** The charge as the source reports it: an out-of-gas error exactly when it does not fit in 64 bits. */
  function Intrinsic(data: seq<Byte>, creation: bool, homestead: bool, eip2028: bool): (gas: Option<Uint64>) {
    var exact := ExactIntrinsic(data, creation, homestead, eip2028);
    if exact <= MAX_UINT64 then Some(exact) else None
  }

  /** The base charge, and what each further byte of data adds to it. */
  lemma ChargeByByte(data: seq<Byte>, b: Byte, creation: bool, homestead: bool, eip2028: bool)
    ensures ExactIntrinsic([], creation, homestead, eip2028) == if creation && homestead then 53000 else 21000
    ensures ExactIntrinsic(data + [b], creation, homestead, eip2028) ==
            ExactIntrinsic(data, creation, homestead, eip2028) + if b == 0 then 4 else if eip2028 then 16 else 68
  {
    assert (data + [b])[..|data|] == data;
  }

  /** The guards divide before they multiply, so no intermediate value wraps around. */
  lemma DivisionGuard(gas: nat, unit: nat, count: nat)
    requires gas <= MAX_UINT64 && unit > 0
    ensures (MAX_UINT64 - gas) / unit < count <==> gas + count * unit > MAX_UINT64
  {
    var q := (MAX_UINT64 - gas) / unit;
    assert q * unit <= MAX_UINT64 - gas < (q + 1) * unit;
    if q < count {
      assert (q + 1) * unit <= count * unit;
    } else {
      assert count * unit <= q * unit;
    }
  }

  method IntrinsicGas(data: seq<Byte>, creation: bool, homestead: bool, eip2028: bool) returns (r: Option<Uint64>)
    ensures r == Intrinsic(data, creation, homestead, eip2028)
  {
    var gas: nat := if creation && homestead then TX_GAS_CONTRACT_CREATION else TX_GAS;
    if |data| > 0 {
      var nz := 0;
      for i := 0 to |data|
        invariant nz == NonZeros(data[..i])
      {
        assert data[..i + 1][..i] == data[..i];
        if data[i] != 0 {
          nz := nz + 1;
        }
      }
      assert data[..|data|] == data;
      var unit := if eip2028 then TX_DATA_NON_ZERO_GAS_EIP2028 else TX_DATA_NON_ZERO_GAS_FRONTIER;
      DivisionGuard(gas, unit, nz);
      if (MAX_UINT64 - gas) / unit < nz {
        return None;
      }
      gas := gas + nz * unit;
      var z := |data| - nz;
      DivisionGuard(gas, TX_DATA_ZERO_GAS, z);
      if (MAX_UINT64 - gas) / TX_DATA_ZERO_GAS < z {
        return None;
      }
      gas := gas + z * TX_DATA_ZERO_GAS;
    }
    r := Some(gas);
  }
}
