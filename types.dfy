/** The records the codec builds: a transaction, its inputs and outputs, the
    witness stack of an input, amounts and transaction identifiers. */
module Types {
  import opened Bytes

  /** A 32-byte array (`[u8; 32]`): identifiers and SHA-256 digests. */
  type Bytes32 = b: seq<u8> | |b| == 32 witness seq(32, _ => 0)

  datatype TxId = TxId(bytes: Bytes32)

  /** An amount in satoshis; unsigned 64-bit, so never negative. */
  datatype Amount = Amount(sat: u64) {
    static function FromSat(satoshi: u64): (a: Amount)
      ensures a.sat == satoshi
    {
      Amount(satoshi)
    }
  }

  /** The stack items attached to one input. */
  datatype Witness = Witness(content: seq<seq<u8>>) {
    static function New(): (w: Witness)
      ensures w.IsEmpty()
    {
      Witness([])
    }

    predicate IsEmpty() {
      content == []
    }

    /** What the decoder can read back: fewer than 256 items, each shorter
        than 2^64 bytes. */
    predicate Fits() {
      |content| < 0x100 && forall k :: 0 <= k < |content| ==> ShortItem(content[k])
    }
  }

  /** An item length a `u64` count can state. */
  predicate ShortItem(b: seq<u8>) {
    |b| < U64Bound
  }

  /** One input; `scriptSig` is hex text of the script bytes. */
  datatype TxIn = TxIn(txId: TxId, outputIndex: u32, scriptSig: string, witnessStack: Witness, sequence: u32)

  /** One output; `scriptPubkey` is hex text of the script bytes. */
  datatype TxOut = TxOut(amount: Amount, scriptPubkey: string)

  datatype Transaction = Transaction(version: u32, inputs: seq<TxIn>, outputs: seq<TxOut>, lockTime: u32)

  /** A CompactSize variable-length integer. */
  datatype CompactSize = CompactSize(value: u64)

  /** An input with its witness cleared: the fields that are serialised. */
  function WithoutWitness(i: TxIn): TxIn {
    i.(witnessStack := Witness.New())
  }

  /** Every input's witness is empty, as after the legacy layout. */
  predicate NoWitnesses(inputs: seq<TxIn>) {
    forall i {:trigger inputs[i].witnessStack.IsEmpty()} :: 0 <= i < |inputs| ==> inputs[i].witnessStack.IsEmpty()
  }

  /** A witness with one zero-length item is not empty: emptiness counts items, not bytes. */
  lemma EmptyItemIsAnItem()
    ensures !Witness([[]]).IsEmpty()
    ensures Witness.New().IsEmpty()
  {
  }
}
