/** lazer-assembly.ts and lazer-tx.ts: the ed25519 instruction whose offsets point into another
    instruction of the same transaction, and what those offsets select. */
module LazerAssembly {
  import opened Wrappers
  import opened Ints
  import opened LazerWire

  const SOLANA_FORMAT_MAGIC: u32 := 2_182_742_457
  const MAGIC_LEN := 4
  const SIGNATURE_LEN := 64
  const PUBKEY_LEN := 32
  const MESSAGE_SIZE_LEN := 2
  const ENVELOPE_HEADER_LEN := MAGIC_LEN + SIGNATURE_LEN + PUBKEY_LEN + MESSAGE_SIZE_LEN
  const OFFSETS_LEN := 14
  const ED25519_HEADER_LEN := 2

  datatype AssemblyError = EnvelopeTooShort | MagicMismatch | PayloadTruncated | EnvelopeNotFound | OutOfRange

  datatype SolanaMessage = SolanaMessage(signature: seq<byte>, publicKey: seq<byte>, payload: seq<byte>)

  /** magic (4) | signature (64) | public key (32) | payload length (2) | payload, and anything after. */
  function ParseSolanaMessage(envelope: seq<byte>): Result<SolanaMessage, AssemblyError> {
    if |envelope| < ENVELOPE_HEADER_LEN then Err(EnvelopeTooShort)
    else if FromLe(envelope[0..4]) != SOLANA_FORMAT_MAGIC then Err(MagicMismatch)
    else
      var payloadLen := FromLe(envelope[100..102]);
      if |envelope| < 102 + payloadLen then Err(PayloadTruncated)
      else Ok(SolanaMessage(envelope[4..68], envelope[68..100], envelope[102..102 + payloadLen]))
  }

  /** An envelope as the publisher writes it. */
  function EnvelopeBytes(m: SolanaMessage): seq<byte> {
    ToLe(2_182_742_457, 4) + (m.signature + (m.publicKey + (ToLe(|m.payload|, 2) + m.payload)))
  }

  predicate Printable(m: SolanaMessage) { |m.signature| == 64 && |m.publicKey| == 32 && |m.payload| <= U16_MAX }

  /** A message is parsed exactly from the bytes that begin with its printing; each refusal has its own
      cause. */
  lemma ParseExactly(envelope: seq<byte>, m: SolanaMessage)
    ensures ParseSolanaMessage(envelope) == Ok(m) <==> Printable(m) && EnvelopeBytes(m) <= envelope
    ensures ParseSolanaMessage(envelope) == Err(EnvelopeTooShort) <==> |envelope| < 102
    ensures ParseSolanaMessage(envelope) == Err(MagicMismatch) <==> |envelope| >= 102 && FromLe(envelope[0..4]) != 2_182_742_457
    ensures ParseSolanaMessage(envelope) == Err(PayloadTruncated) <==>
            102 <= |envelope| < 102 + FromLe(envelope[100..102]) && FromLe(envelope[0..4]) == 2_182_742_457
  {
    Widths();
    if ParseSolanaMessage(envelope) == Ok(m) {
      ParsedIsPrinted(envelope, m);
    }
    if Printable(m) && EnvelopeBytes(m) <= envelope {
      PrintedIsParsed(envelope, m);
    }
  }

  lemma ParsedIsPrinted(envelope: seq<byte>, m: SolanaMessage)
    requires ParseSolanaMessage(envelope) == Ok(m)
    ensures Printable(m) && EnvelopeBytes(m) <= envelope
  {
    Widths();
    ToLeFromLe(envelope[0..4]);
    ToLeFromLe(envelope[100..102]);
    hide ToLe, FromLe, Pow256;
    assert EnvelopeBytes(m) == envelope[0..4] + (envelope[4..68] + (envelope[68..100] + (envelope[100..102] + m.payload)));
    assert EnvelopeBytes(m) == envelope[..102 + |m.payload|];
  }

  lemma PrintedIsParsed(envelope: seq<byte>, m: SolanaMessage)
    requires Printable(m) && EnvelopeBytes(m) <= envelope
    ensures ParseSolanaMessage(envelope) == Ok(m)
  {
    Widths();
    FromLeToLe(2_182_742_457, 4);
    FromLeToLe(|m.payload|, 2);
    hide ToLe, FromLe, Pow256;
    var bs := EnvelopeBytes(m);
    assert |bs| == 102 + |m.payload|;
    assert forall i | 0 <= i < |bs| :: envelope[i] == bs[i];
    assert envelope[0..4] == ToLe(2_182_742_457, 4);
    assert envelope[4..68] == m.signature;
    assert envelope[68..100] == m.publicKey;
    assert envelope[100..102] == ToLe(|m.payload|, 2);
    assert envelope[102..102 + |m.payload|] == m.payload;
  }

  /** The needle stands at position i of the haystack. */
  predicate Occurs(haystack: seq<byte>, needle: seq<byte>, i: int) {
    0 <= i <= |haystack| - |needle| && haystack[i..i + |needle|] == needle
  }

  /** The first index of the needle, or -1; an empty needle is never found. */
  method IndexOfSubarray(haystack: seq<byte>, needle: seq<byte>) returns (index: int)
    ensures index == -1 || (needle != [] && Occurs(haystack, needle, index) && forall i | 0 <= i < index :: !Occurs(haystack, needle, i))
    ensures index == -1 <==> needle == [] || forall i | 0 <= i < |haystack| :: !Occurs(haystack, needle, i)
  {
    if |needle| == 0 || |needle| > |haystack| {
      return -1;
    }
    var i := 0;
    while i <= |haystack| - |needle|
      invariant 0 <= i <= |haystack| - |needle| + 1
      invariant forall k | 0 <= k < i :: !Occurs(haystack, needle, k)
    {
      var j := 0;
      while j < |needle| && haystack[i + j] == needle[j]
        invariant 0 <= j <= |needle|
        invariant forall m | 0 <= m < j :: haystack[i + m] == needle[m]
      {
        j := j + 1;
      }
      if j == |needle| {
        assert haystack[i..i + |needle|] == needle;
        return i;
      }
      assert haystack[i..i + |needle|][j] == haystack[i + j];
      i := i + 1;
    }
    index := -1;
  }

  /** A transaction instruction: the program it names and its data. */
  datatype Instruction = Instruction(programId: nat, data: seq<byte>)

  const ED25519_PROGRAM_ID: nat := 1

  /** The seven u16 offsets, as the precompile declares them. */
  datatype Offsets = Offsets(
    signatureOffset: nat, signatureInstructionIndex: nat, publicKeyOffset: nat, publicKeyInstructionIndex: nat,
    messageDataOffset: nat, messageDataSize: nat, messageInstructionIndex: nat)

  /** What the precompile reads back: one signature, no padding value, then seven little-endian u16. */
  function ReadOffsets(data: seq<byte>): Option<Offsets> {
    if |data| != ED25519_HEADER_LEN + OFFSETS_LEN || data[0] != 1 || data[1] != 0 then None
    else Some(Offsets(FromLe(data[2..4]), FromLe(data[4..6]), FromLe(data[6..8]), FromLe(data[8..10]),
                      FromLe(data[10..12]), FromLe(data[12..14]), FromLe(data[14..16])))
  }

  /** The bytes an offset selects from one instruction of the transaction. */
  function Select(ixs: seq<Instruction>, index: nat, offset: nat, len: nat): Option<seq<byte>> {
    if index < |ixs| && offset + len <= |ixs[index].data| then Some(ixs[index].data[offset..offset + len]) else None
  }

  /** Buffer.writeUInt16LE of a value in range. */
  method WriteUint16Le(data: array<byte>, value: u16, pos: nat) returns (next: nat)
    requires pos + 2 <= data.Length
    modifies data
    ensures next == pos + 2
    ensures data[pos] == value % 256 && data[pos + 1] == value / 256
    ensures forall i | 0 <= i < data.Length && (i < pos || i >= pos + 2) :: data[i] == old(data[i])
  {
    data[pos] := value % 256;
    data[pos + 1] := value / 256;
    next := pos + 2;
  }

  lemma TwoBytes(x: byte, y: byte)
    ensures FromLe([x, y]) == x + 256 * y
  {
    assert [x, y][1..] == [y] && [y][1..] == [];
    assert FromLe([y]) == y;
  }

  /** The two bytes of a u16 at a position. */
  predicate Stands(data: seq<byte>, pos: nat, value: nat) {
    pos + 2 <= |data| && value <= U16_MAX && data[pos] as int == value % 256 && data[pos + 1] as int == value / 256
  }

  /** What was written at a position reads back as the value. */
  lemma ReadsBack(data: seq<byte>, pos: nat, value: nat)
    requires Stands(data, pos, value)
    ensures FromLe(data[pos..pos + 2]) == value
  {
    assert data[pos..pos + 2] == [data[pos], data[pos + 1]];
    TwoBytes(data[pos], data[pos + 1]);
  }

  lemma OffsetsReadBack(data: seq<byte>, o: Offsets)
    requires |data| == ED25519_HEADER_LEN + OFFSETS_LEN && data[0] == 1 && data[1] == 0
    requires Stands(data, 2, o.signatureOffset) && Stands(data, 4, o.signatureInstructionIndex)
    requires Stands(data, 6, o.publicKeyOffset) && Stands(data, 8, o.publicKeyInstructionIndex)
    requires Stands(data, 10, o.messageDataOffset) && Stands(data, 12, o.messageDataSize)
    requires Stands(data, 14, o.messageInstructionIndex)
    ensures ReadOffsets(data) == Some(o)
  {
    ReadsBack(data, 2, o.signatureOffset);
    ReadsBack(data, 4, o.signatureInstructionIndex);
    ReadsBack(data, 6, o.publicKeyOffset);
    ReadsBack(data, 8, o.publicKeyInstructionIndex);
    ReadsBack(data, 10, o.messageDataOffset);
    ReadsBack(data, 12, o.messageDataSize);
    ReadsBack(data, 14, o.messageInstructionIndex);
  }

  function OffsetsAt(start: nat, size: nat, index: nat): Offsets {
    Offsets(start + 4, index, start + 68, index, start + 102, size, index)
  }

  /** The data of the ed25519 instruction for an envelope inside another instruction's data. It fails
      exactly when the envelope is malformed, absent, or too far into the data for a u16 offset. */
  method BuildLazerEd25519Instruction(dominionIxData: seq<byte>, envelope: seq<byte>, dominionInstructionIndex: nat)
    returns (r: Result<Instruction, AssemblyError>, ghost start: int)
    ensures ParseSolanaMessage(envelope).Err? ==> r == Err(ParseSolanaMessage(envelope).error)
    ensures ParseSolanaMessage(envelope).Ok? && (forall i :: !Occurs(dominionIxData, envelope, i)) ==> r == Err(EnvelopeNotFound)
    ensures ParseSolanaMessage(envelope).Ok? && (exists i :: Occurs(dominionIxData, envelope, i)) ==>
              && Occurs(dominionIxData, envelope, start) && (forall i | 0 <= i < start :: !Occurs(dominionIxData, envelope, i))
              && (r.Ok? <==> start + 102 <= U16_MAX && dominionInstructionIndex <= U16_MAX)
              && (r.Err? ==> r == Err(OutOfRange))
    ensures r.Ok? ==> r.value.programId == ED25519_PROGRAM_ID && ParseSolanaMessage(envelope).Ok? && start >= 0
                      && ReadOffsets(r.value.data) == Some(OffsetsAt(start, |ParseSolanaMessage(envelope).value.payload|, dominionInstructionIndex))
  {
    start := -1;
    var parsed := ParseSolanaMessage(envelope);
    if parsed.Err? {
      return Err(parsed.error), start;
    }
    var startingOffset := IndexOfSubarray(dominionIxData, envelope);
    start := startingOffset;
    if startingOffset < 0 {
      return Err(EnvelopeNotFound), start;
    }
    assert Occurs(dominionIxData, envelope, start);
    var signatureOffset := startingOffset + MAGIC_LEN;
    var publicKeyOffset := signatureOffset + SIGNATURE_LEN;
    var messageDataSizeOffset := publicKeyOffset + PUBKEY_LEN;
    var messageDataOffset := messageDataSizeOffset + MESSAGE_SIZE_LEN;
    var messageDataSize := |parsed.value.payload|;
    PayloadFitsU16(envelope);

    var data := new byte[ED25519_HEADER_LEN + OFFSETS_LEN];
    var written := WriteOffsets(data, signatureOffset, publicKeyOffset, messageDataOffset, messageDataSize, dominionInstructionIndex);
    if written.Err? {
      return Err(written.error), start;
    }
    r := Ok(Instruction(ED25519_PROGRAM_ID, data[..]));
  }

  lemma PayloadFitsU16(envelope: seq<byte>)
    requires ParseSolanaMessage(envelope).Ok?
    ensures |ParseSolanaMessage(envelope).value.payload| <= U16_MAX
  {
    Widths();
  }

  /** The header and the seven offsets, written at an advancing position. A write of a value that is not
      a u16 throws, and nothing of the buffer is kept. */
  method WriteOffsets(data: array<byte>, signatureOffset: nat, publicKeyOffset: nat, messageDataOffset: nat, messageDataSize: nat, index: nat)
    returns (r: Result<(), AssemblyError>)
    requires data.Length == ED25519_HEADER_LEN + OFFSETS_LEN
    modifies data
    ensures r == if signatureOffset <= U16_MAX && publicKeyOffset <= U16_MAX && messageDataOffset <= U16_MAX
                    && messageDataSize <= U16_MAX && index <= U16_MAX then Ok(()) else Err(OutOfRange)
    ensures r.Ok? ==>
              ReadOffsets(data[..]) == Some(Offsets(signatureOffset, index, publicKeyOffset, index, messageDataOffset, messageDataSize, index))
  {
    hide ReadOffsets;
    if signatureOffset > U16_MAX || index > U16_MAX || publicKeyOffset > U16_MAX || messageDataOffset > U16_MAX || messageDataSize > U16_MAX {
      return Err(OutOfRange);
    }
    data[0] := 1;
    data[1] := 0;
    var p := 2;
    p := WriteUint16Le(data, signatureOffset, p);
    p := WriteUint16Le(data, index, p);
    p := WriteUint16Le(data, publicKeyOffset, p);
    p := WriteUint16Le(data, index, p);
    p := WriteUint16Le(data, messageDataOffset, p);
    p := WriteUint16Le(data, messageDataSize, p);
    p := WriteUint16Le(data, index, p);
    OffsetsReadBack(data[..], Offsets(signatureOffset, index, publicKeyOffset, index, messageDataOffset, messageDataSize, index));
    r := Ok(());
  }

  /** The transaction: two compute-budget instructions, the ed25519 one, any number of account creations,
      and the consumer last. The offsets, read back, select from the consumer's data exactly the
      signature, the key and the payload that the envelope holds. */
  method AssembleLazerOracleIxs(cbLimit: Instruction, cbPrice: Instruction, dominionIx: Instruction, envelope: seq<byte>, ataIxs: seq<Instruction>)
    returns (r: Result<seq<Instruction>, AssemblyError>)
    ensures r.Ok? <==>
            && ParseSolanaMessage(envelope).Ok? && |ataIxs| + 3 <= U16_MAX
            && exists i :: i + 102 <= U16_MAX && Occurs(dominionIx.data, envelope, i)
    ensures r.Ok? ==>
              var ixs := r.value;
              && |ixs| == |ataIxs| + 4 && ixs[..2] == [cbLimit, cbPrice] && ixs[3..3 + |ataIxs|] == ataIxs
              && ixs[2].programId == ED25519_PROGRAM_ID && ixs[|ixs| - 1] == dominionIx
              && PointsAtEnvelope(ixs, envelope)
  {
    var cbIxs := [cbLimit, cbPrice];
    var dominionInstructionIndex := |cbIxs| + 1 + |ataIxs|;
    ghost var start;
    var ed25519Ix;
    ed25519Ix, start := BuildLazerEd25519Instruction(dominionIx.data, envelope, dominionInstructionIndex);
    if ed25519Ix.Err? {
      return Err(ed25519Ix.error);
    }
    var ixs := cbIxs + [ed25519Ix.value] + ataIxs + [dominionIx];
    OffsetsSelectEnvelope(ixs, dominionInstructionIndex, envelope, start);
    r := Ok(ixs);
  }

  /** The third instruction's offsets select the fields of the envelope out of the last instruction. */
  ghost predicate PointsAtEnvelope(ixs: seq<Instruction>, envelope: seq<byte>) {
    && |ixs| > 2 && ReadOffsets(ixs[2].data).Some? && ParseSolanaMessage(envelope).Ok?
    && var o := ReadOffsets(ixs[2].data).value;
    && var m := ParseSolanaMessage(envelope).value;
    && o.signatureInstructionIndex == o.publicKeyInstructionIndex == o.messageInstructionIndex == |ixs| - 1
    && Select(ixs, o.signatureInstructionIndex, o.signatureOffset, SIGNATURE_LEN) == Some(m.signature)
    && Select(ixs, o.publicKeyInstructionIndex, o.publicKeyOffset, PUBKEY_LEN) == Some(m.publicKey)
    && Select(ixs, o.messageInstructionIndex, o.messageDataOffset, o.messageDataSize) == Some(m.payload)
  }

  lemma SelectInside(data: seq<byte>, envelope: seq<byte>, start: nat, lo: nat, hi: nat)
    requires Occurs(data, envelope, start) && lo <= hi <= |envelope|
    ensures data[start + lo..start + hi] == envelope[lo..hi]
  {
    forall k | lo <= k < hi
      ensures data[start + k] == envelope[k]
    {
      assert data[start..start + |envelope|][k] == data[start + k];
    }
  }

  lemma OffsetsSelectEnvelope(ixs: seq<Instruction>, index: nat, envelope: seq<byte>, start: nat)
    requires |ixs| == index + 1 && index > 2 && ParseSolanaMessage(envelope).Ok?
    requires Occurs(ixs[index].data, envelope, start)
    requires ReadOffsets(ixs[2].data) == Some(OffsetsAt(start, |ParseSolanaMessage(envelope).value.payload|, index))
    ensures PointsAtEnvelope(ixs, envelope)
  {
    var data := ixs[index].data;
    var n := |ParseSolanaMessage(envelope).value.payload|;
    SelectInside(data, envelope, start, 4, 68);
    SelectInside(data, envelope, start, 68, 100);
    SelectInside(data, envelope, start, 102, 102 + n);
    hide FromLe, ReadOffsets;
  }
}
