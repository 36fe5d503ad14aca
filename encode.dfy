/** The encoders of the transaction codec. The writer is always an in-memory
    byte vector, so a write is an append that cannot fail; each encoder
    returns the number of bytes it appended.

    Each encoding is a function giving the bytes; the encoders that
    accumulate a count or loop are also methods, written as the source writes
    them, and proved to append exactly those bytes and to count them. */
module Encode {
  import opened Bytes
  import opened Hex
  import opened Types

  function U16Bytes(v: u16): (b: seq<u8>)
    ensures |b| == 2 && FromLe(b) == v as nat
  {
    assert Pow256(2) == 0x1_0000;
    ToLe(v as nat, 2)
  }

  function U32Bytes(v: u32): (b: seq<u8>)
    ensures |b| == 4 && FromLe(b) == v as nat
  {
    assert Pow256(4) == 0x1_0000_0000;
    ToLe(v as nat, 4)
  }

  function U64Bytes(v: u64): (b: seq<u8>)
    ensures |b| == 8 && FromLe(b) == v as nat
  {
    assert Pow256(8) == U64Bound;
    ToLe(v as nat, 8)
  }

  // ---------------------------------------------------------------------
  // CompactSize

  /** The narrowest form: one byte up to 0xFC, else a 0xFD, 0xFE or 0xFF
      prefix and 2, 4 or 8 little-endian bytes. */
  function CompactSizeBytes(c: CompactSize): (b: seq<u8>)
    ensures c.value <= 0xFC ==> b == [c.value as u8]
    ensures 0xFC < c.value <= 0xFFFF ==> |b| == 3 && b[0] == 0xFD && FromLe(b[1..]) == c.value as nat
    ensures 0xFFFF < c.value <= 0xFFFF_FFFF ==> |b| == 5 && b[0] == 0xFE && FromLe(b[1..]) == c.value as nat
    ensures 0xFFFF_FFFF < c.value ==> |b| == 9 && b[0] == 0xFF && FromLe(b[1..]) == c.value as nat
  {
    if c.value <= 0xFC then [c.value as u8]
    else if c.value <= 0xFFFF then [0xFD] + U16Bytes(c.value as u16)
    else if c.value <= 0xFFFF_FFFF then [0xFE] + U32Bytes(c.value as u32)
    else [0xFF] + U64Bytes(c.value)
  }

  /** Appends the CompactSize form of `c`; the count returned is written
      out per range (1, 3, 5 or 9), not measured. */
  method WriteCompactSize(w: seq<u8>, c: CompactSize) returns (w': seq<u8>, n: nat)
    ensures w' == w + CompactSizeBytes(c)
    ensures n == |w'| - |w|
    ensures n == if c.value <= 0xFC then 1 else if c.value <= 0xFFFF then 3
                 else if c.value <= 0xFFFF_FFFF then 5 else 9
  {
    if c.value <= 0xFC {
      w' := w + [c.value as u8];
      n := 1;
    } else if c.value <= 0xFFFF {
      w' := w + [0xFD];
      w' := w' + U16Bytes(c.value as u16);
      n := 3;
    } else if c.value <= 0xFFFF_FFFF {
      w' := w + [0xFE];
      w' := w' + U32Bytes(c.value as u32);
      n := 5;
    } else {
      w' := w + [0xFF];
      w' := w' + U64Bytes(c.value);
      n := 9;
    }
  }

  // ---------------------------------------------------------------------
  // Scripts

  /** Script text that `hex::decode` accepts, of fewer than 2^64 bytes.
      Encoding any other text panics. */
  predicate ValidScript(script: string) {
    HexDecode(script).Some? && |HexDecode(script).value| < U64Bound
  }

  /** The script's raw bytes behind their CompactSize length. */
  function ScriptBytes(script: string): (b: seq<u8>)
    requires ValidScript(script)
  {
    var raw := HexDecode(script).value;
    CompactSizeBytes(CompactSize(|raw| as u64)) + raw
  }

  method WriteScript(w: seq<u8>, script: string) returns (w': seq<u8>, n: nat)
    requires ValidScript(script)
    ensures w' == w + ScriptBytes(script)
    ensures n == |w'| - |w|
  {
    var raw := HexDecode(script).value;
    var prefixLen;
    w', prefixLen := WriteCompactSize(w, CompactSize(|raw| as u64));
    w' := w' + raw;
    n := prefixLen + |raw|;
  }

  // ---------------------------------------------------------------------
  // Inputs and outputs

  /** An input whose script can be encoded. */
  predicate ValidInput(i: TxIn) {
    ValidScript(i.scriptSig)
  }

  /** Identifier, output index, script, sequence; never the witness. */
  function InputBytes(i: TxIn): (b: seq<u8>)
    requires ValidInput(i)
  {
    i.txId.bytes + U32Bytes(i.outputIndex) + ScriptBytes(i.scriptSig) + U32Bytes(i.sequence)
  }

  method WriteInput(w: seq<u8>, i: TxIn) returns (w': seq<u8>, n: nat)
    requires ValidInput(i)
    ensures w' == w + InputBytes(i)
    ensures n == |w'| - |w|
  {
    var k;
    n := 0;
    w' := w + i.txId.bytes;
    n := n + 32;
    w' := w' + U32Bytes(i.outputIndex);
    n := n + 4;
    w', k := WriteScript(w', i.scriptSig);
    n := n + k;
    w' := w' + U32Bytes(i.sequence);
    n := n + 4;
  }

  predicate ValidInputs(inputs: seq<TxIn>) {
    |inputs| < U64Bound && forall i {:trigger ValidInput(inputs[i])} :: 0 <= i < |inputs| ==> ValidInput(inputs[i])
  }

  function InputListBytes(inputs: seq<TxIn>): (b: seq<u8>)
    requires forall i {:trigger ValidInput(inputs[i])} :: 0 <= i < |inputs| ==> ValidInput(inputs[i])
  {
    if inputs == [] then [] else InputBytes(inputs[0]) + InputListBytes(inputs[1..])
  }

  /** One turn of the encoding loop: appending element `j` leaves the same
      total once the elements after it follow. */
  lemma InputListStep(w: seq<u8>, inputs: seq<TxIn>, j: nat)
    requires forall i {:trigger ValidInput(inputs[i])} :: 0 <= i < |inputs| ==> ValidInput(inputs[i])
    requires j < |inputs|
    ensures w + InputListBytes(inputs[j..]) == (w + InputBytes(inputs[j])) + InputListBytes(inputs[j + 1..])
  {
    assert inputs[j..][1..] == inputs[j + 1..];
  }

  /** `Vec<TxIn>`: the count, then each input. */
  function InputsBytes(inputs: seq<TxIn>): (b: seq<u8>)
    requires ValidInputs(inputs)
  {
    CompactSizeBytes(CompactSize(|inputs| as u64)) + InputListBytes(inputs)
  }

  method WriteInputs(w: seq<u8>, inputs: seq<TxIn>) returns (w': seq<u8>, n: nat)
    requires ValidInputs(inputs)
    ensures w' == w + InputsBytes(inputs)
    ensures n == |w'| - |w|
  {
    n, w' := 0, w;
    var k;
    w', k := WriteCompactSize(w', CompactSize(|inputs| as u64));
    n := n + k;
    Reassociate(w, CompactSizeBytes(CompactSize(|inputs| as u64)), InputListBytes(inputs));
    assert inputs[0..] == inputs;
    var j := 0;
    while j < |inputs|
      invariant j <= |inputs|
      invariant w' + InputListBytes(inputs[j..]) == w + InputsBytes(inputs)
      invariant n == |w'| - |w|
    {
      ghost var before := w';
      w', k := WriteInput(w', inputs[j]);
      InputListStep(before, inputs, j);
      n := n + k;
      j := j + 1;
    }
    assert inputs[j..] == [] && w' + [] == w';
  }

  predicate ValidOutput(o: TxOut) {
    ValidScript(o.scriptPubkey)
  }

  /** Amount in satoshis, then the script. */
  function OutputBytes(o: TxOut): (b: seq<u8>)
    requires ValidOutput(o)
  {
    U64Bytes(o.amount.sat) + ScriptBytes(o.scriptPubkey)
  }

  method WriteOutput(w: seq<u8>, o: TxOut) returns (w': seq<u8>, n: nat)
    requires ValidOutput(o)
    ensures w' == w + OutputBytes(o)
    ensures n == |w'| - |w|
  {
    var k;
    n := 0;
    w' := w + U64Bytes(o.amount.sat);
    n := n + 8;
    w', k := WriteScript(w', o.scriptPubkey);
    n := n + k;
  }

  predicate ValidOutputs(outputs: seq<TxOut>) {
    |outputs| < U64Bound && forall i {:trigger ValidOutput(outputs[i])} :: 0 <= i < |outputs| ==> ValidOutput(outputs[i])
  }

  function OutputListBytes(outputs: seq<TxOut>): (b: seq<u8>)
    requires forall i {:trigger ValidOutput(outputs[i])} :: 0 <= i < |outputs| ==> ValidOutput(outputs[i])
  {
    if outputs == [] then [] else OutputBytes(outputs[0]) + OutputListBytes(outputs[1..])
  }

  /** One turn of the encoding loop: appending element `j` leaves the same
      total once the elements after it follow. */
  lemma OutputListStep(w: seq<u8>, outputs: seq<TxOut>, j: nat)
    requires forall i {:trigger ValidOutput(outputs[i])} :: 0 <= i < |outputs| ==> ValidOutput(outputs[i])
    requires j < |outputs|
    ensures w + OutputListBytes(outputs[j..]) == (w + OutputBytes(outputs[j])) + OutputListBytes(outputs[j + 1..])
  {
    assert outputs[j..][1..] == outputs[j + 1..];
  }

  /** `Vec<TxOut>`: the count, then each output. */
  function OutputsBytes(outputs: seq<TxOut>): (b: seq<u8>)
    requires ValidOutputs(outputs)
  {
    CompactSizeBytes(CompactSize(|outputs| as u64)) + OutputListBytes(outputs)
  }

  method WriteOutputs(w: seq<u8>, outputs: seq<TxOut>) returns (w': seq<u8>, n: nat)
    requires ValidOutputs(outputs)
    ensures w' == w + OutputsBytes(outputs)
    ensures n == |w'| - |w|
  {
    n, w' := 0, w;
    var k;
    w', k := WriteCompactSize(w', CompactSize(|outputs| as u64));
    n := n + k;
    Reassociate(w, CompactSizeBytes(CompactSize(|outputs| as u64)), OutputListBytes(outputs));
    assert outputs[0..] == outputs;
    var j := 0;
    while j < |outputs|
      invariant j <= |outputs|
      invariant w' + OutputListBytes(outputs[j..]) == w + OutputsBytes(outputs)
      invariant n == |w'| - |w|
    {
      ghost var before := w';
      w', k := WriteOutput(w', outputs[j]);
      OutputListStep(before, outputs, j);
      n := n + k;
      j := j + 1;
    }
    assert outputs[j..] == [] && w' + [] == w';
  }
}
