/** The transaction identifier: SHA-256 applied twice to the legacy
    serialisation (version, inputs, outputs, lock time), so that witness data
    never changes the identifier.

    SHA-256 itself is not modelled: it is a parameter, any function from
    bytes to 32 bytes. */
module Txid {
  import opened Bytes
  import opened Types
  import opened Encode

  /** A transaction `compute_txid` can serialise without panicking: every
      script is valid hex and both lists fit a CompactSize count. */
  predicate Encodable(tx: Transaction) {
    ValidInputs(tx.inputs) && ValidOutputs(tx.outputs)
  }

  /** The bytes that are hashed, in the legacy layout; no marker, flag or witness. */
  function Preimage(tx: Transaction): seq<u8>
    requires Encodable(tx)
  {
    U32Bytes(tx.version) + InputsBytes(tx.inputs) + OutputsBytes(tx.outputs) + U32Bytes(tx.lockTime)
  }

  /** Wraps a digest as an identifier, keeping the byte order the hash produced. */
  function FromHash(bytes: Bytes32): (id: TxId)
    ensures id.bytes == bytes
  {
    TxId(bytes)
  }

  /** Hashes `tx` with `sha256`, then hashes the 32-byte digest again. */
  function FromRawTransaction(tx: seq<u8>, sha256: seq<u8> -> Bytes32): (id: TxId)
    ensures id.bytes == sha256(sha256(tx))
  {
    var first := sha256(tx);
    FromHash(sha256(first))
  }

  /** Serialises the four fields one after the other into a fresh buffer and
      identifies the result. */
  method ComputeTxid(tx: Transaction, sha256: seq<u8> -> Bytes32) returns (id: TxId)
    requires Encodable(tx)
    ensures id == FromRawTransaction(Preimage(tx), sha256)
  {
    var data: seq<u8> := [];
    var n;
    data := data + U32Bytes(tx.version);
    data, n := WriteInputs(data, tx.inputs);
    data, n := WriteOutputs(data, tx.outputs);
    data := data + U32Bytes(tx.lockTime);
    assert [] + U32Bytes(tx.version) == U32Bytes(tx.version);
    id := FromRawTransaction(data, sha256);
  }

  /** Every input with its witness cleared. */
  function Stripped(inputs: seq<TxIn>): (r: seq<TxIn>)
    ensures |r| == |inputs| && NoWitnesses(r)
    ensures forall i :: 0 <= i < |r| ==> r[i] == WithoutWitness(inputs[i])
  {
    seq(|inputs|, i requires 0 <= i < |inputs| => WithoutWitness(inputs[i]))
  }

  /** Two input lists that differ only in their witnesses encode alike. */
  lemma {:induction false} InputListIgnoresWitness(a: seq<TxIn>, b: seq<TxIn>)
    requires |a| == |b|
    requires forall i :: 0 <= i < |a| ==> WithoutWitness(a[i]) == WithoutWitness(b[i])
    requires forall i {:trigger ValidInput(a[i])} :: 0 <= i < |a| ==> ValidInput(a[i])
    ensures forall i {:trigger ValidInput(b[i])} :: 0 <= i < |b| ==> ValidInput(b[i])
    ensures InputListBytes(a) == InputListBytes(b)
  {
    forall i | 0 <= i < |b| ensures ValidInput(b[i]) {
      assert ValidInput(a[i]);
      assert a[i].scriptSig == WithoutWitness(a[i]).scriptSig == b[i].scriptSig;
    }
    if a != [] {
      InputListIgnoresWitness(a[1..], b[1..]);
      assert InputBytes(a[0]) == InputBytes(b[0]) by {
        assert WithoutWitness(a[0]) == WithoutWitness(b[0]);
      }
    }
  }

  /** The identifier does not depend on witnesses: transactions that differ
      only in them have the same preimage, hence the same identifier. */
  lemma PreimageIgnoresWitness(tx: Transaction, other: Transaction)
    requires Encodable(tx)
    requires other.version == tx.version && other.outputs == tx.outputs && other.lockTime == tx.lockTime
    requires Stripped(other.inputs) == Stripped(tx.inputs)
    ensures Encodable(other)
    ensures Preimage(other) == Preimage(tx)
  {
    assert |other.inputs| == |Stripped(other.inputs)| == |tx.inputs|;
    forall i | 0 <= i < |tx.inputs| ensures WithoutWitness(tx.inputs[i]) == WithoutWitness(other.inputs[i]) {
      assert Stripped(tx.inputs)[i] == Stripped(other.inputs)[i];
    }
    InputListIgnoresWitness(tx.inputs, other.inputs);
  }
}
