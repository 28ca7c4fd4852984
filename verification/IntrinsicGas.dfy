/**
 The gas a message is charged before it runs, on 64-bit words: the base price,
 the data bytes (EIP-2028) and the access list (EIP-2930).
 */
module IntrinsicGas {
  import opened Prelude
  import opened Transactions

  const TX_GAS: int := 21000
  const TX_GAS_CREATION: int := 53000
  const ZERO_BYTE_GAS: int := 4
  const NON_ZERO_BYTE_GAS_FRONTIER: int := 68
  const NON_ZERO_BYTE_GAS_EIP2028: int := 16
  const ACCESS_ADDRESS_GAS: int := 2400
  const ACCESS_KEY_GAS: int := 1900

  function BaseGas(p: Payload, homestead: bool): int {
    if p.creation && homestead then TX_GAS_CREATION else TX_GAS
  }

  function NonZeroByteGas(eip2028: bool): int {
    if eip2028 then NON_ZERO_BYTE_GAS_EIP2028 else NON_ZERO_BYTE_GAS_FRONTIER
  }

  /** Base price and data price, exactly. */
  function DataGas(p: Payload, homestead: bool, eip2028: bool): int {
    BaseGas(p, homestead) + p.nonZeros * NonZeroByteGas(eip2028) + p.zeros * ZERO_BYTE_GAS
  }

  function AccessGas(p: Payload): int {
    if p.accessList then p.addresses * ACCESS_ADDRESS_GAS + p.keys * ACCESS_KEY_GAS else 0
  }

  /** The charge, or nothing on an overflow by the data; the access list's share wraps around. */
  function Charge(p: Payload, homestead: bool, eip2028: bool): (r: Option<u64>) {
    if DataGas(p, homestead, eip2028) > MAX_U64 then None
    else Some(Wrap(DataGas(p, homestead, eip2028) + AccessGas(p)))
  }

  function Wrap(x: nat): u64 {
    x % (MAX_U64 + 1)
  }

  /** A byte string's share of zero and other bytes. */
  function CountZeros(data: seq<bv8>): (r: nat)
    ensures r <= |data|
  {
    if data == [] then 0 else CountZeros(data[..|data| - 1]) + (if data[|data| - 1] == 0 then 1 else 0)
  }

  /**
   Computes the charge with the guards of the 64-bit computation: the division
   guards refuse exactly the data whose price does not fit a word.
   */
  method ComputeCharge(data: seq<bv8>, accessList: bool, addresses: u64, keys: u64, creation: bool,
                       homestead: bool, eip2028: bool) returns (r: Option<u64>)
    requires |data| <= MAX_U64
    ensures var zeros := CountZeros(data);
      r == Charge(Payload(zeros, |data| - zeros, accessList, addresses, keys, creation), homestead, eip2028)
  {
    hide Wrap;
    var gas: u64 := if creation && homestead then TX_GAS_CREATION else TX_GAS;
    ghost var p := Payload(CountZeros(data), |data| - CountZeros(data), accessList, addresses, keys, creation);
    if |data| > 0 {
      var nz := CountNonZeros(data);
      var nonZeroGas := NonZeroByteGas(eip2028);
      if (MAX_U64 - gas) / nonZeroGas < nz {
        DivisionGuard(MAX_U64 - gas, nonZeroGas, nz);
        return None;
      }
      DivisionGuard(MAX_U64 - gas, nonZeroGas, nz);
      gas := gas + nz * nonZeroGas;
      var z: u64 := |data| - nz;
      if (MAX_U64 - gas) / ZERO_BYTE_GAS < z {
        return None;
      }
      gas := gas + z * ZERO_BYTE_GAS;
    }
    assert gas == DataGas(p, homestead, eip2028);
    if accessList {
      gas := Wrap(gas + Wrap(addresses * ACCESS_ADDRESS_GAS));
      gas := Wrap(gas + Wrap(keys * ACCESS_KEY_GAS));
      WrapsOnce(DataGas(p, homestead, eip2028), addresses * ACCESS_ADDRESS_GAS, keys * ACCESS_KEY_GAS);
    } else {
      NoWrap(gas);
    }
    r := Some(gas);
  }

  method CountNonZeros(data: seq<bv8>) returns (nz: u64)
    requires |data| <= MAX_U64
    ensures nz == |data| - CountZeros(data)
  {
    nz := 0;
    for i := 0 to |data|
      invariant nz == i - CountZeros(data[..i])
    {
      assert data[..i + 1][..i] == data[..i];
      if data[i] != 0 {
        nz := nz + 1;
      }
    }
    assert data[..|data|] == data;
  }

  lemma DivisionGuard(room: nat, price: int, count: nat)
    requires price == NON_ZERO_BYTE_GAS_EIP2028 || price == NON_ZERO_BYTE_GAS_FRONTIER
    ensures room / price < count <==> room < count * price
  {
  }

  /** Wrapping after every addition is wrapping once at the end. */
  lemma WrapsOnce(a: nat, b: nat, c: nat)
    ensures Wrap(Wrap(a + Wrap(b)) + Wrap(c)) == Wrap(a + b + c)
  {
  }

  lemma NoWrap(a: u64)
    ensures Wrap(a) == a
  {
  }

  /** The charge is the exact price unless the access list alone carries it past a word. */
  lemma ChargeIsExactIff(p: Payload, homestead: bool, eip2028: bool)
    requires Charge(p, homestead, eip2028).Some?
    ensures Charge(p, homestead, eip2028).value == DataGas(p, homestead, eip2028) + AccessGas(p)
       <==> DataGas(p, homestead, eip2028) + AccessGas(p) <= MAX_U64
  {
  }

  /** Base, data and access list together, were a word without bound. */
  function Price(p: Payload, homestead: bool, eip2028: bool): int {
    DataGas(p, homestead, eip2028) + AccessGas(p)
  }

  /**
   The prices of section "Specification" of EIP-2028 and EIP-2930 as numbers: what
   a plain transfer, one more byte of either kind, one more listed address or
   key and a creation cost.
   */
  lemma PricesAre(p: Payload, homestead: bool, eip2028: bool)
    ensures Price(Payload(0, 0, false, p.addresses, p.keys, false), homestead, eip2028) == 21000
    ensures Price(p.(zeros := p.zeros + 1), homestead, eip2028) == Price(p, homestead, eip2028) + 4
    ensures Price(p.(nonZeros := p.nonZeros + 1), homestead, eip2028)
      == Price(p, homestead, eip2028) + if eip2028 then 16 else 68
    ensures Price(p.(addresses := p.addresses + 1), homestead, eip2028)
      == Price(p, homestead, eip2028) + if p.accessList then 2400 else 0
    ensures Price(p.(keys := p.keys + 1), homestead, eip2028)
      == Price(p, homestead, eip2028) + if p.accessList then 1900 else 0
    ensures Price(p.(creation := true), homestead, eip2028)
      == Price(p.(creation := false), homestead, eip2028) + if homestead then 32000 else 0
  {
  }

  /** Up to a word the charge is that price, and beyond it by the data there is none. */
  lemma ChargeIsPrice(p: Payload, homestead: bool, eip2028: bool)
    ensures Price(p, homestead, eip2028) <= MAX_U64 ==>
      Charge(p, homestead, eip2028) == Some(Price(p, homestead, eip2028))
    ensures Charge(p, homestead, eip2028).None? <==>
      Price(p.(accessList := false), homestead, eip2028) > MAX_U64
  {
  }

  /** An access list of this many addresses, more than any memory holds, is charged next to nothing. */
  const WRAPPING_ADDRESSES: u64 := 7686143364045647

  method AccessListWraps() returns (r: Option<u64>)
    ensures r == Some(22184) && TX_GAS + WRAPPING_ADDRESSES * ACCESS_ADDRESS_GAS > MAX_U64
  {
    r := ComputeCharge([], true, WRAPPING_ADDRESSES, 0, false, true, true);
  }
}
