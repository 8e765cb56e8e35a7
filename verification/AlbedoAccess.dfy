/**
  What batch selection can see of the engine (src/rr_albedo_prepare.h:16-51, 125-133):
  its memory, as partial functions from an address to the value of each type that
  is read there, the shader lookup of a technique, and the two validators.  All
  are pure functions.
*/
module AlbedoAccess {
  import opened ShaderBytes
  import opened KeyBits

  const MAX_ADDRESS := 0xFFFF_FFFF_FFFF_FFFF

  /** An unsigned 64-bit address; 0 is null. */
  type Address = x: int | 0 <= x <= MAX_ADDRESS

  const BATCH_BYTES := 0x28

  datatype Batch = Batch(
    shader: Address, mesh: Address, material: Address, instanceByteOffset: int, instanceCount: int,
    tessellated: Byte, instanceBufferIndex: Word)

  /** The fields of a draw manager that are used. */
  datatype Manager = Manager(batches: Address, count: Word, instances: Address, instanceBuffers: Word)

  datatype Access = Access(
    byteAt: Address -> Option<Byte>,
    wordAt: Address -> Option<Word>,
    addressAt: Address -> Option<Address>,
    batchAt: Address -> Option<Batch>,
    managerAt: Address -> Option<Manager>,
    getShader: (Address, Key) -> Option<Address>,
    validateShader: Option<(Address, Address) -> bool>,
    validateEyeCandidate: Option<(Address, Address) -> bool>)

  /** `size` bytes at `p + offset` are inside the address space. */
  predicate InSpace(p: Address, offset: nat, size: nat)
  {
    p != 0 && offset <= MAX_ADDRESS - p && size - 1 <= MAX_ADDRESS - (p + offset)
  }

  function ReadByte(a: Access, p: Address, offset: nat): Option<Byte>
  {
    if InSpace(p, offset, 1) then a.byteAt(p + offset) else None
  }

  function ReadWord(a: Access, p: Address, offset: nat): Option<Word>
  {
    if InSpace(p, offset, 4) then a.wordAt(p + offset) else None
  }

  function ReadAddress(a: Access, p: Address, offset: nat): Option<Address>
  {
    if InSpace(p, offset, 8) then a.addressAt(p + offset) else None
  }

  /** Element `i` of the batch array at `p`. */
  function ReadBatch(a: Access, p: Address, i: nat): Option<Batch>
  {
    if InSpace(p, i * BATCH_BYTES, BATCH_BYTES) then a.batchAt(p + i * BATCH_BYTES) else None
  }
}
