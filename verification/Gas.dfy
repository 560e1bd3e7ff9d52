/**
 Gas arithmetic on 64-bit words: the block gas pool and the intrinsic gas of a message.

 `uint64` values never wrap silently here: every operation on them is proved to stay in range.  The
 one place where the source can wrap, the access-list part of the intrinsic gas, is written out.
 */
module Gas {
  import opened Options

  newtype uint64 = x: int | 0 <= x < 0x1_0000_0000_0000_0000
  newtype byte = x: int | 0 <= x < 256

  const MAX_UINT64: int := 0xFFFF_FFFF_FFFF_FFFF

  const TX_GAS: int := 21000
  const TX_GAS_CONTRACT_CREATION: int := 53000
  const TX_DATA_ZERO_GAS: int := 4
  const TX_DATA_NON_ZERO_GAS_FRONTIER: int := 68
  const TX_DATA_NON_ZERO_GAS_EIP2028: int := 16
  const INIT_CODE_WORD_GAS: int := 2
  const TX_ACCESS_LIST_ADDRESS_GAS: int := 2400
  const TX_ACCESS_LIST_STORAGE_KEY_GAS: int := 1900

  /** The gas still available in a block. */
  class GasPool {
    var gas: uint64

    constructor (gas: uint64)
      ensures this.gas == gas
    {
      this.gas := gas;
    }

    /** Gives gas back.  Pushing the pool above 64 bits is a panic, which callers must exclude. */
    method AddGas(amount: uint64)
      requires gas as int + amount as int <= MAX_UINT64
      modifies this
      ensures gas as int == old(gas) as int + amount as int
    {
      gas := gas + amount;
    }

    /** Takes gas out, or reports that there is not enough and takes nothing. */
    method SubGas(amount: uint64) returns (ok: bool)
      modifies this
      ensures ok <==> amount <= old(gas)
      ensures !ok ==> gas == old(gas)
      ensures gas as int == old(gas) as int - if ok then amount as int else 0
    {
      if gas < amount { return false; }
      gas := gas - amount;
      ok := true;
    }
  }

  // ----- intrinsic gas -----

  datatype AccessTuple = AccessTuple(address: nat, storageKeys: seq<nat>)

  datatype IntrinsicRules = IntrinsicRules(create: bool, homestead: bool, eip2028: bool, eip3860: bool)

  ghost function NonZeroBytes(data: seq<byte>): nat {
    if data == [] then 0 else (if data[|data| - 1] != 0 then 1 else 0) + NonZeroBytes(data[..|data| - 1])
  }

  function StorageKeys(list: seq<AccessTuple>): nat {
    if list == [] then 0 else |list[0].storageKeys| + StorageKeys(list[1..])
  }

  function NonZeroGas(r: IntrinsicRules): int {
    if r.eip2028 then TX_DATA_NON_ZERO_GAS_EIP2028 else TX_DATA_NON_ZERO_GAS_FRONTIER
  }

  /** The price list: base cost, bytes by kind and, for created contracts, words of init code. */
  ghost function DataCost(data: seq<byte>, r: IntrinsicRules): int {
    (if r.create && r.homestead then TX_GAS_CONTRACT_CREATION else TX_GAS)
    + NonZeroBytes(data) * NonZeroGas(r) + (|data| - NonZeroBytes(data)) * TX_DATA_ZERO_GAS
    + (if r.create && r.eip3860 then (|data| + 31) / 32 * INIT_CODE_WORD_GAS else 0)
  }

  function ListCost(list: seq<AccessTuple>): int {
    |list| * TX_ACCESS_LIST_ADDRESS_GAS + StorageKeys(list) * TX_ACCESS_LIST_STORAGE_KEY_GAS
  }

  /** The number of 32-byte words, computed without overflow. */
  method ToWordSize(size: uint64) returns (words: uint64)
    ensures words as int == (size as int + 31) / 32
  {
    if size as int > MAX_UINT64 - 31 { return (MAX_UINT64 / 32 + 1) as uint64; }
    return (size + 31) / 32;
  }

  /** The overflow guard: a division decides whether a product still fits. */
  lemma GuardIff(room: int, price: int, count: int)
    requires room >= 0 && price > 0 && count >= 0
    ensures room / price < count <==> room < count * price
  {
    var q := room / price;
    assert q * price <= room < (q + 1) * price;
    if q < count { MulMonotone(q + 1, count, price); } else { MulMonotone(count, q, price); }
  }

  lemma MulMonotone(a: int, b: int, p: int)
    requires a <= b && p >= 0
    ensures a * p <= b * p
  {
    assert (b - a) * p >= 0;
  }

  lemma {:induction false} NonZeroBound(data: seq<byte>)
    ensures NonZeroBytes(data) <= |data|
    decreases |data|
  {
    if data != [] { NonZeroBound(data[..|data| - 1]); }
  }

  method CountNonZero(data: seq<byte>) returns (nz: nat)
    ensures nz == NonZeroBytes(data)
  {
    nz := 0;
    assert data[..|data|] == data;
    for i := 0 to |data|
      invariant nz == NonZeroBytes(data[..i])
    {
      assert data[..i + 1][..i] == data[..i];
      if data[i] != 0 { nz := nz + 1; }
    }
  }

  /** Adds `count` units at `price`, guarded against overflow by a division. */
  method Charge(gas: int, price: int, count: int) returns (r: Result<int, ()>)
    requires 0 <= gas <= MAX_UINT64 && price > 0 && count >= 0
    ensures r.Fail? <==> gas + count * price > MAX_UINT64
    ensures r.Ok? ==> r.value == gas + count * price && gas <= r.value
  {
    GuardIff(MAX_UINT64 - gas, price, count);
    MulMonotone(0, count, price);
    if (MAX_UINT64 - gas) / price < count { return Fail(()); }
    return Ok(gas + count * price);
  }

  /** The base cost, bytes by kind and words of init code, each charge guarded. */
  method DataGas(data: seq<byte>, r: IntrinsicRules) returns (gas: Result<int, ()>)
    requires |data| <= MAX_UINT64
    ensures gas.Fail? <==> DataCost(data, r) > MAX_UINT64
    ensures gas.Ok? ==> gas.value == DataCost(data, r) && gas.value >= 0
  {
    gas := Ok(if r.create && r.homestead then TX_GAS_CONTRACT_CREATION else TX_GAS);
    if |data| == 0 { return; }
    NonZeroBound(data);
    var nz := CountNonZero(data);
    ghost var words0 := if r.create && r.eip3860 then (|data| + 31) / 32 * INIT_CODE_WORD_GAS else 0;
    assert words0 >= 0;
    gas := Charge(gas.value, NonZeroGas(r), nz);
    if gas.Fail? { return; }
    gas := Charge(gas.value, TX_DATA_ZERO_GAS, |data| - nz);
    if gas.Fail? { return; }
    if r.create && r.eip3860 {
      var words := ToWordSize(|data| as uint64);
      gas := Charge(gas.value, INIT_CODE_WORD_GAS, words as int);
    }
  }

  /** The gas charged before execution.  It overflows exactly when the data part does not fit into 64
      bits; the access-list part is added without a guard and wraps around. */
  method IntrinsicGas(data: seq<byte>, list: seq<AccessTuple>, r: IntrinsicRules) returns (gas: Result<uint64, ()>)
    requires |data| <= MAX_UINT64
    ensures gas.Fail? <==> DataCost(data, r) > MAX_UINT64
    ensures gas.Ok? ==> gas.value as int == (DataCost(data, r) + ListCost(list)) % (MAX_UINT64 + 1)
    ensures gas.Ok? ==> (gas.value as int == DataCost(data, r) + ListCost(list) <==> DataCost(data, r) + ListCost(list) <= MAX_UINT64)
  {
    var g := DataGas(data, r);
    if g.Fail? { return Fail(()); }
    return Ok(((g.value + ListCost(list)) % (MAX_UINT64 + 1)) as uint64);
  }

  // ----- the price list, independently -----

  /** The positions of the bytes that are not zero. */
  ghost function NonZeroAt(data: seq<byte>): set<nat> {
    set i: nat | i < |data| && data[i] != 0
  }

  lemma {:induction false} NonZeroIsCount(data: seq<byte>)
    ensures NonZeroBytes(data) == |NonZeroAt(data)|
    decreases |data|
  {
    if data != [] {
      var n := |data| - 1;
      NonZeroIsCount(data[..n]);
      if data[n] != 0 {
        assert NonZeroAt(data) == NonZeroAt(data[..n]) + {n};
      } else {
        assert NonZeroAt(data) == NonZeroAt(data[..n]);
      }
    }
  }

  /** Keys of lists add up, and a tuple has as many as it lists. */
  lemma {:induction false} StorageKeysAddUp(a: seq<AccessTuple>, b: seq<AccessTuple>, t: AccessTuple)
    ensures StorageKeys(a + b) == StorageKeys(a) + StorageKeys(b)
    ensures StorageKeys([t]) == |t.storageKeys|
    decreases |a|
  {
    if a == [] {
      assert a + b == b;
    } else {
      assert (a + b)[1..] == a[1..] + b;
      StorageKeysAddUp(a[1..], b, t);
    }
    assert [t][1..] == [];
  }

  /** What one byte more costs: 4 gas if it is zero, else 68, or 16 from Istanbul on; and for a created
      contract from Shanghai on 2 gas at every 32nd byte, starting with the first. */
  lemma {:induction false} ByteCosts(data: seq<byte>, b: byte, r: IntrinsicRules)
    ensures DataCost([], r) == if r.create && r.homestead then 53000 else 21000
    ensures DataCost(data + [b], r) == DataCost(data, r)
      + (if b == 0 then 4 else if r.eip2028 then 16 else 68)
      + (if r.create && r.eip3860 && |data| % 32 == 0 then 2 else 0)
  {
    assert (data + [b])[..|data|] == data;
    WordBoundary(|data|);
    if r.eip2028 {
      OneByteMore(data, b, 16);
    } else {
      OneByteMore(data, b, 68);
    }
  }

  lemma WordBoundary(n: nat)
    ensures (n + 1 + 31) / 32 == (n + 31) / 32 + if n % 32 == 0 then 1 else 0
  {
  }

  lemma {:induction false} OneByteMore(data: seq<byte>, b: byte, price: int)
    ensures NonZeroBytes(data + [b]) == NonZeroBytes(data) + if b == 0 then 0 else 1
    ensures (NonZeroBytes(data) + 1) * price == NonZeroBytes(data) * price + price
  {
    assert (data + [b])[..|data|] == data;
  }

  /** What one more tuple of an access list costs: 2400 gas and 1900 for each of its keys. */
  lemma TupleCosts(list: seq<AccessTuple>, t: AccessTuple)
    ensures ListCost([]) == 0 && ListCost(list + [t]) == ListCost(list) + 2400 + 1900 * |t.storageKeys|
  {
    StorageKeysAddUp(list, [t], t);
  }
}
