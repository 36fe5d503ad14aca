/** The two layouts a transaction is read from, written out with the
    encoders, and the properties that tie them to the decoder and to the
    transaction identifier. */
module Layouts {
  import opened Bytes
  import opened Errors
  import opened Types
  import opened Decode
  import opened Encode
  import opened Txid
  import opened RoundTrip
  import opened WitnessLayout

  /** Script text as decode leaves it and both lists countable by a CompactSize. */
  predicate PlainParts(tx: Transaction) {
    && InputScripts(tx.inputs) && OutputScripts(tx.outputs)
    && |tx.inputs| < U64Bound && |tx.outputs| < U64Bound
  }

  lemma PlainPartsEncodable(tx: Transaction)
    requires PlainParts(tx)
    ensures Encodable(tx)
  {
    PlainInputsAreValid(tx.inputs);
    PlainOutputsAreValid(tx.outputs);
  }

  /** Regrouping the preimage with what follows it, field by field. */
  lemma RegroupFour(a: seq<u8>, b: seq<u8>, c: seq<u8>, d: seq<u8>, rest: seq<u8>)
    ensures a + b + c + d + rest == a + (b + (c + (d + rest)))
  {
    Reassociate(a + b + c, d, rest);
    Reassociate(a + b, c, d + rest);
    Reassociate(a, b, c + (d + rest));
  }

  // ---------------------------------------------------------------------
  // Legacy layout

  lemma LegacyFrom(s: seq<u8>, v: u32, t1: seq<u8>, xs: seq<TxIn>, t2: seq<u8>,
                   ys: seq<TxOut>, t3: seq<u8>, lockTime: u32, rest: seq<u8>)
    requires DecodeU32(s) == Ok(Decoded(v, t1))
    requires DecodeInputs(t1) == Ok(Decoded(xs, t2)) && xs != []
    requires DecodeOutputs(t2) == Ok(Decoded(ys, t3))
    requires DecodeU32(t3) == Ok(Decoded(lockTime, rest))
    ensures DecodeTransaction(s) == Ok(Decoded(Transaction(v, xs, ys, lockTime), rest))
  {
  }

  /** The bytes hashed for the identifier are the legacy layout: with at least
      one input and no witness they decode back to the transaction, and
      whatever follows them is left unread. */
  lemma PreimageRoundTrip(tx: Transaction, rest: seq<u8>)
    requires tx.inputs != [] && NoWitnesses(tx.inputs) && PlainParts(tx)
    ensures Encodable(tx)
    ensures DecodeTransaction(Preimage(tx) + rest) == Ok(Decoded(tx, rest))
  {
    PlainPartsEncodable(tx);
    var afterOutputs := U32Bytes(tx.lockTime) + rest;
    var afterInputs := OutputsBytes(tx.outputs) + afterOutputs;
    var afterVersion := InputsBytes(tx.inputs) + afterInputs;
    U32RoundTrip(tx.version, afterVersion);
    InputsRoundTrip(tx.inputs, afterInputs);
    OutputsRoundTrip(tx.outputs, afterOutputs);
    U32RoundTrip(tx.lockTime, rest);
    RegroupFour(U32Bytes(tx.version), InputsBytes(tx.inputs), OutputsBytes(tx.outputs), U32Bytes(tx.lockTime), rest);
    LegacyFrom(Preimage(tx) + rest, tx.version, afterVersion, tx.inputs, afterInputs,
               tx.outputs, afterOutputs, tx.lockTime, rest);
  }

  // ---------------------------------------------------------------------
  // Witness layout

  /** Version, the marker 0x00 and flag 0x01, inputs, outputs, one witness
      per input, lock time. */
  function SegwitBytes(tx: Transaction): seq<u8>
    requires Encodable(tx) && EncodableWitnesses(tx.inputs)
  {
    U32Bytes(tx.version) + ([0, 1] + (InputsBytes(tx.inputs) + (OutputsBytes(tx.outputs)
      + (WitnessListBytes(tx.inputs) + U32Bytes(tx.lockTime)))))
  }

  lemma SegwitFrom(s: seq<u8>, v: u32, t1: seq<u8>, xs: seq<TxIn>, t2: seq<u8>, ys: seq<TxOut>,
                   t3: seq<u8>, ws: seq<TxIn>, t4: seq<u8>, lockTime: u32, rest: seq<u8>)
    requires DecodeU32(s) == Ok(Decoded(v, [0, 1] + t1))
    requires DecodeInputs(t1) == Ok(Decoded(xs, t2))
    requires DecodeOutputs(t2) == Ok(Decoded(ys, t3))
    requires DecodeWitnesses(t3, xs) == Ok(Decoded(ws, t4))
    requires ws == [] || !NoWitnesses(ws)
    requires DecodeU32(t4) == Ok(Decoded(lockTime, rest))
    ensures DecodeTransaction(s) == Ok(Decoded(Transaction(v, ws, ys, lockTime), rest))
  {
    MarkerAndFlag(t1, 1);
  }

  /** After the version, a zero count reads as no inputs and the next byte as the flag. */
  lemma MarkerAndFlag(t: seq<u8>, flag: u8)
    ensures DecodeInputs([0, flag] + t) == Ok(Decoded([], [flag] + t))
    ensures DecodeU8([flag] + t) == Ok(Decoded(flag, t))
  {
    assert ([0, flag] + t)[1..] == [flag] + t;
    assert ([flag] + t)[1..] == t;
  }

  lemma SegwitRegroup(tx: Transaction, rest: seq<u8>)
    requires Encodable(tx) && EncodableWitnesses(tx.inputs)
    ensures SegwitBytes(tx) + rest
         == U32Bytes(tx.version) + ([0, 1] + (InputsBytes(tx.inputs) + (OutputsBytes(tx.outputs)
              + (WitnessListBytes(tx.inputs) + (U32Bytes(tx.lockTime) + rest)))))
  {
    var e := WitnessListBytes(tx.inputs) + U32Bytes(tx.lockTime);
    var d := OutputsBytes(tx.outputs) + e;
    var c := InputsBytes(tx.inputs) + d;
    var b := [0, 1] + c;
    Reassociate(U32Bytes(tx.version), b, rest);
    Reassociate([0, 1], c, rest);
    Reassociate(InputsBytes(tx.inputs), d, rest);
    Reassociate(OutputsBytes(tx.outputs), e, rest);
    Reassociate(WitnessListBytes(tx.inputs), U32Bytes(tx.lockTime), rest);
  }

  /** The witness layout decodes back to the transaction, witnesses
      included, unless it has inputs and none of them carries a witness. */
  lemma SegwitRoundTrip(tx: Transaction, rest: seq<u8>)
    requires PlainParts(tx) && EncodableWitnesses(tx.inputs)
    requires tx.inputs == [] || !NoWitnesses(tx.inputs)
    ensures Encodable(tx)
    ensures DecodeTransaction(SegwitBytes(tx) + rest) == Ok(Decoded(tx, rest))
  {
    PlainPartsEncodable(tx);
    var bare := Stripped(tx.inputs);
    assert SameButWitness(bare, tx.inputs);
    assert InputScripts(bare) by {
      forall i | 0 <= i < |bare| ensures ScriptText(bare[i].scriptSig) {
        assert bare[i].scriptSig == tx.inputs[i].scriptSig;
      }
    }
    PlainInputsAreValid(tx.inputs);
    InputListIgnoresWitness(tx.inputs, bare);
    var afterWitnesses := U32Bytes(tx.lockTime) + rest;
    var afterOutputs := WitnessListBytes(tx.inputs) + afterWitnesses;
    var afterInputs := OutputsBytes(tx.outputs) + afterOutputs;
    var afterFlag := InputsBytes(tx.inputs) + afterInputs;
    SegwitRegroup(tx, rest);
    U32RoundTrip(tx.version, [0, 1] + afterFlag);
    InputsRoundTrip(bare, afterInputs);
    OutputsRoundTrip(tx.outputs, afterOutputs);
    WitnessListRoundTrip(bare, tx.inputs, afterWitnesses);
    U32RoundTrip(tx.lockTime, rest);
    SegwitFrom(SegwitBytes(tx) + rest, tx.version, afterFlag, bare, afterInputs, tx.outputs,
               afterOutputs, tx.inputs, afterWitnesses, tx.lockTime, rest);
  }

  // ---------------------------------------------------------------------
  // Errors

  lemma MissingFrom(s: seq<u8>, v: u32, t1: seq<u8>, xs: seq<TxIn>, t2: seq<u8>, ys: seq<TxOut>,
                    t3: seq<u8>, ws: seq<TxIn>, t4: seq<u8>)
    requires DecodeU32(s) == Ok(Decoded(v, [0, 1] + t1))
    requires DecodeInputs(t1) == Ok(Decoded(xs, t2))
    requires DecodeOutputs(t2) == Ok(Decoded(ys, t3))
    requires DecodeWitnesses(t3, xs) == Ok(Decoded(ws, t4))
    requires ws != [] && NoWitnesses(ws)
    ensures DecodeTransaction(s) == Err(ParseFailed(WitnessMissing))
  {
    MarkerAndFlag(t1, 1);
  }

  /** With the flag set, inputs present and every witness empty, decoding
      fails with the parse error before the lock time is read: whatever
      follows the witnesses, even nothing, gives the same error. */
  lemma MissingWitnesses(tx: Transaction, tail: seq<u8>)
    requires tx.inputs != [] && NoWitnesses(tx.inputs) && PlainParts(tx)
    ensures Encodable(tx) && EncodableWitnesses(tx.inputs)
    ensures DecodeTransaction(U32Bytes(tx.version) + ([0, 1] + (InputsBytes(tx.inputs)
              + (OutputsBytes(tx.outputs) + (WitnessListBytes(tx.inputs) + tail)))))
            == Err(ParseFailed(WitnessMissing))
  {
    PlainPartsEncodable(tx);
    forall i | 0 <= i < |tx.inputs| ensures tx.inputs[i].witnessStack.Fits() {
      assert tx.inputs[i].witnessStack.IsEmpty();
    }
    var afterOutputs := WitnessListBytes(tx.inputs) + tail;
    var afterInputs := OutputsBytes(tx.outputs) + afterOutputs;
    var afterFlag := InputsBytes(tx.inputs) + afterInputs;
    U32RoundTrip(tx.version, [0, 1] + afterFlag);
    InputsRoundTrip(tx.inputs, afterInputs);
    OutputsRoundTrip(tx.outputs, afterOutputs);
    WitnessListRoundTrip(tx.inputs, tx.inputs, tail);
    MissingFrom(U32Bytes(tx.version) + ([0, 1] + afterFlag), tx.version, afterFlag, tx.inputs,
                afterInputs, tx.outputs, afterOutputs, tx.inputs, tail);
  }

  /** A zero input count followed by any flag byte other than 1 is rejected
      with that byte. */
  lemma UnsupportedFlag(v: u32, flag: u8, rest: seq<u8>)
    requires flag != 1
    ensures DecodeTransaction(U32Bytes(v) + ([0, flag] + rest)) == Err(UnsupportedSegwitFlag(flag))
  {
    U32RoundTrip(v, [0, flag] + rest);
    MarkerAndFlag(rest, flag);
  }

  /** The marker is any encoding of a zero input count: whatever form the
      CompactSize 0 takes, the byte after it is the flag, and a flag other
      than 1 is rejected with that byte. */
  lemma ZeroCountIsMarker(s: seq<u8>, v: u32, t1: seq<u8>, t2: seq<u8>, flag: u8, t3: seq<u8>)
    requires DecodeU32(s) == Ok(Decoded(v, t1))
    requires DecodeCompactSize(t1) == Ok(Decoded(CompactSize(0), t2))
    requires DecodeU8(t2) == Ok(Decoded(flag, t3))
    ensures DecodeInputs(t1) == Ok(Decoded([], t2))
    ensures flag != 1 ==> DecodeTransaction(s) == Err(UnsupportedSegwitFlag(flag))
  {
    assert DecodeList(DecodeInput, t2, 0) == Ok(Decoded([], t2));
  }

  /** The marker is any encoding of a zero count, not only the byte 0x00:
      `FD 00 00` is read as a marker too. */
  lemma LongMarker(v: u32, flag: u8, rest: seq<u8>)
    requires flag != 1
    ensures DecodeTransaction(U32Bytes(v) + ([0xFD, 0, 0, flag] + rest)) == Err(UnsupportedSegwitFlag(flag))
  {
    var t := [0xFD, 0, 0, flag] + rest;
    U32RoundTrip(v, t);
    assert t[1..3] == [0, 0] && t[3..] == [flag] + rest;
    assert FromLe(t[1..3]) == 0 by {
      assert [0 as u8, 0][1..] == [0];
      assert FromLe([0 as u8]) == 0 by { assert [0 as u8][1..] == []; }
    }
    assert ([flag] + rest)[1..] == rest;
  }

  /** A transaction with no inputs and any output count up to 252 but 1 has
      a preimage that does not decode: its zero input count reads as the
      marker and its output count as the flag. */
  lemma EmptyInputsPreimage(tx: Transaction)
    requires tx.inputs == [] && Encodable(tx) && |tx.outputs| != 1 && |tx.outputs| <= 0xFC
    ensures DecodeTransaction(Preimage(tx)) == Err(UnsupportedSegwitFlag(|tx.outputs| as u8))
  {
    var n := |tx.outputs| as u8;
    var outs := OutputListBytes(tx.outputs);
    assert InputsBytes(tx.inputs) == [0];
    assert OutputsBytes(tx.outputs) == [n] + outs;
    MarkerThenCount(U32Bytes(tx.version), n, outs, U32Bytes(tx.lockTime));
    UnsupportedFlag(tx.version, n, outs + U32Bytes(tx.lockTime));
  }

  lemma MarkerThenCount(v: seq<u8>, n: u8, outs: seq<u8>, lock: seq<u8>)
    ensures v + [0] + ([n] + outs) + lock == v + ([0, n] + (outs + lock))
  {
    RegroupFour(v, [0], [n], outs, lock);
    assert [0 as u8] + ([n] + (outs + lock)) == [0, n] + (outs + lock);
  }

  // ---------------------------------------------------------------------
  // What decode produces

  /** Every transaction decode returns can be serialised again: its scripts
      are hex text, its lists are countable and its witnesses can be laid
      out. In particular `compute_txid` never panics on it. */
  lemma DecodedIsEncodable(s: seq<u8>)
    requires DecodeTransaction(s).Ok?
    ensures PlainParts(DecodeTransaction(s).value.item)
    ensures EncodableWitnesses(DecodeTransaction(s).value.item.inputs)
    ensures Encodable(DecodeTransaction(s).value.item)
  {
    var tx := DecodeTransaction(s).value.item;
    var version := DecodeU32(s).value;
    var inputs := DecodeInputs(version.rest).value;
    if inputs.item == [] {
      var flag := DecodeU8(inputs.rest).value;
      var realInputs := DecodeInputs(flag.rest).value;
      var outputs := DecodeOutputs(realInputs.rest).value;
      var witnessed := DecodeWitnesses(outputs.rest, realInputs.item).value;
      assert tx.inputs == witnessed.item && tx.outputs == outputs.item;
      forall i | 0 <= i < |tx.inputs| ensures ScriptText(tx.inputs[i].scriptSig) {
        assert WithoutWitness(tx.inputs[i]) == WithoutWitness(realInputs.item[i]);
      }
    } else {
      forall i | 0 <= i < |tx.inputs| ensures tx.inputs[i].witnessStack.Fits() {
        assert tx.inputs[i].witnessStack.IsEmpty();
      }
    }
    PlainPartsEncodable(tx);
  }
}
