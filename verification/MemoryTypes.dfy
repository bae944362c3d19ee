// Choosing a memory type and asking the device for memory of it.
module MemoryTypes {
  import opened Machine
  import opened Text
  import opened Bits

  const INVALID_INDEX: UInt32 := 0xffff_ffff
  const MAX_TYPES := 32

  // The property flags of each memory type of the physical device.
  type TypeTable = t: seq<UInt32> | |t| <= MAX_TYPES

  datatype Requirements = Requirements(size: UInt64, memoryTypeBits: UInt32)

  // What the caller asks for: size 0 and index INVALID_INDEX leave the choice
  // to the allocator.
  datatype AllocateInfo = AllocateInfo(size: UInt64, index: UInt32, properties: UInt32)

  datatype Request = Request(size: UInt64, index: UInt32)

  // bits & (1 << i)
  predicate BitSet(bits: UInt32, i: nat)
    requires i < 32
  {
    And(bits, Pow2(i)) != 0
  }

  predicate Includes(flags: UInt32, properties: UInt32) {
    And(flags, properties) == properties
  }

  // The two masks, bit by bit.
  lemma MasksAre(flags: UInt32, properties: UInt32, bits: UInt32, i: nat)
    requires i < 32
    ensures Includes(flags, properties) <==> forall k :: 0 <= k < 32 && Bit(properties, k) ==> Bit(flags, k)
    ensures BitSet(bits, i) <==> bits / Pow2(i) % 2 == 1
  {
    assert Pow2(8) == 0x100;
    Pow2Sum(8, 8);
    Pow2Sum(16, 16);
    AndKeepsAll(flags, properties, 32);
    OneBit(bits, i);
  }

  // Type i is among those the bits allow, and has every property.
  ghost predicate Suits(types: TypeTable, bits: UInt32, properties: UInt32, i: nat)
    requires i < |types|
  {
    Bit(bits, i) && forall k :: 0 <= k < 32 && Bit(properties, k) ==> Bit(types[i], k)
  }

  // i is the least type that suits, or INVALID_INDEX when none does.
  ghost predicate IsLeast(types: TypeTable, bits: UInt32, properties: UInt32, i: UInt32) {
    (forall j {:trigger Suits(types, bits, properties, j)} :: 0 <= j < |types| && j < i ==>
      !Suits(types, bits, properties, j)) &&
    (i == 0xffff_ffff || (i < |types| && Suits(types, bits, properties, i)))
  }

  method FindWithProperties(types: TypeTable, bits: UInt32, properties: UInt32) returns (r: UInt32)
    ensures IsLeast(types, bits, properties, r)
  {
    var i: UInt32 := 0;
    while i < |types|
      invariant i <= |types|
      invariant forall j {:trigger Suits(types, bits, properties, j)} :: 0 <= j < i ==>
        !Suits(types, bits, properties, j)
    {
      MasksAre(types[i], properties, bits, i);
      if BitSet(bits, i) {
        if Includes(types[i], properties) {
          return i;
        }
      }
      i := i + 1;
    }
    return INVALID_INDEX;
  }

  // ----- the request -----

  // The size and index the device is asked for satisfy the requirements and,
  // if the caller left the index open, the index is the least allowed one.
  ghost predicate Sound(types: TypeTable, req: Requirements, info: AllocateInfo, request: Request) {
    request.size >= req.size && request.size == (if info.size == 0 then req.size else info.size) &&
    request.index < 32 && Bit(req.memoryTypeBits, request.index) &&
    if info.index == INVALID_INDEX then IsLeast(types, req.memoryTypeBits, info.properties, request.index)
    else request.index == info.index
  }

  // What the caller can check before the call: an explicit size is large
  // enough, an explicit index has its bit set, and an open one can be chosen.
  ghost predicate Satisfiable(types: TypeTable, req: Requirements, info: AllocateInfo)
    requires info.index < 32 || info.index == INVALID_INDEX
  {
    (info.size == 0 || info.size >= req.size) &&
    if info.index == INVALID_INDEX then
      exists k {:trigger Suits(types, req.memoryTypeBits, info.properties, k)} ::
        0 <= k < |types| && Suits(types, req.memoryTypeBits, info.properties, k)
    else Bit(req.memoryTypeBits, info.index)
  }

  // Check a condition; the test may also end here although it holds, when its
  // result is already final and it has other threads.
  predicate Passes(cond: bool, cancelled: bool) {
    cond && !cancelled
  }

  // The request that reaches the device, if the test does not end first. The
  // four assertions on the way may each find the thread cancelled. An explicit
  // index is below 32, so that the shift is defined.
  method FromRequirements(types: TypeTable, req: Requirements, info: AllocateInfo, cancelled: seq<bool>)
    returns (request: Option<Request>)
    requires |cancelled| == 4
    requires info.index < 32 || info.index == INVALID_INDEX
    ensures request.Some? ==> Sound(types, req, info, request.value)
    ensures request.Some? <==> Satisfiable(types, req, info) && true !in cancelled
  {
    var size, index := info.size, info.index;
    if size == 0 {
      size := req.size;
    }
    if !Passes(size >= req.size, cancelled[0]) {
      return None;
    }
    if index == INVALID_INDEX {
      index := FindWithProperties(types, req.memoryTypeBits, info.properties);
    }
    if !Passes(index != INVALID_INDEX, cancelled[1]) {
      return None;
    }
    MasksAre(0, 0, req.memoryTypeBits, index);
    if !Passes(BitSet(req.memoryTypeBits, index), cancelled[2]) {
      return None;
    }
    request := CanFail(size, index, cancelled[3]);
  }

  // Ask the device, unless the index is invalid.
  method CanFail(size: UInt64, index: UInt32, cancelled: bool) returns (request: Option<Request>)
    ensures request == if index != INVALID_INDEX && !cancelled then Some(Request(size, index)) else None
  {
    if !Passes(index != INVALID_INDEX, cancelled) {
      return None;
    }
    return Some(Request(size, index));
  }
}
