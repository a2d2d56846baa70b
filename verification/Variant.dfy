/** The shred variant byte (src/variant.rs). */
module Variant {
  import opened Bytes

  const PROOF_NODE_SIZE: nat := 20
  const RESIGNED_EXTRA: nat := 64
  const MERKLE_ROOT_SIZE: nat := 32

  /** The low half of a variant byte. */
  type nibble = x: int | 0 <= x < 16

  datatype VariantKind =
    | DataLegacy
    | CodeLegacy
    | DataMerkle(proofSize: nibble, resigned: bool)
    | CodeMerkle(proofSize: nibble, resigned: bool)
  {
    predicate IsData()
    {
      DataLegacy? || DataMerkle?
    }

    predicate IsCode()
    {
      CodeLegacy? || CodeMerkle?
    }

    function MerkleSuffix(): nat
    {
      if DataLegacy? || CodeLegacy? then 0
      else proofSize * PROOF_NODE_SIZE + MERKLE_ROOT_SIZE + (if resigned then RESIGNED_EXTRA else 0)
    }
  }

  function Classify(b: byte): Option<VariantKind>
  {
    if b == 0xA5 then Some(DataLegacy)
    else if b == 0x5A then Some(CodeLegacy)
    else if 0x60 <= b <= 0x6F then Some(CodeMerkle(b % 16, false))
    else if 0x70 <= b <= 0x7F then Some(CodeMerkle(b % 16, true))
    else if 0x90 <= b <= 0x9F then Some(DataMerkle(b % 16, false))
    else if 0xB0 <= b <= 0xBF then Some(DataMerkle(b % 16, true))
    else None
  }

  /** The byte a sender writes for a variant. */
  function VariantByte(k: VariantKind): byte
  {
    match k
    case DataLegacy => 0xA5
    case CodeLegacy => 0x5A
    case CodeMerkle(p, resigned) => (if resigned then 0x70 else 0x60) + p
    case DataMerkle(p, resigned) => (if resigned then 0xB0 else 0x90) + p
  }

  /** Classification inverts the sender's encoding, on both sides. */
  lemma ClassifyRoundTrip(k: VariantKind, b: byte)
    ensures Classify(VariantByte(k)) == Some(k)
    ensures Classify(b) == Some(k) <==> b == VariantByte(k)
  {
    match k
    case DataLegacy =>
    case CodeLegacy =>
    case CodeMerkle(p, resigned) =>
      assert VariantByte(k) % 16 == p;
    case DataMerkle(p, resigned) =>
      assert VariantByte(k) % 16 == p;
  }
}
