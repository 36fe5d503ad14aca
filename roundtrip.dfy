/** Decoding what the encoders wrote gives back the value and leaves the
    bytes that followed unread. */
module RoundTrip {
  import opened Bytes
  import opened Hex
  import opened Errors
  import opened Types
  import opened Decode
  import opened Encode

  // ---------------------------------------------------------------------
  // Integers and CompactSize

  lemma U16RoundTrip(v: u16, rest: seq<u8>)
    ensures DecodeU16(U16Bytes(v) + rest) == Ok(Decoded(v, rest))
  {
    var s := U16Bytes(v) + rest;
    assert s[..2] == U16Bytes(v) && s[2..] == rest;
  }

  lemma U32RoundTrip(v: u32, rest: seq<u8>)
    ensures DecodeU32(U32Bytes(v) + rest) == Ok(Decoded(v, rest))
  {
    var s := U32Bytes(v) + rest;
    assert s[..4] == U32Bytes(v) && s[4..] == rest;
  }

  lemma U64RoundTrip(v: u64, rest: seq<u8>)
    ensures DecodeU64(U64Bytes(v) + rest) == Ok(Decoded(v, rest))
  {
    var s := U64Bytes(v) + rest;
    assert s[..8] == U64Bytes(v) && s[8..] == rest;
  }

  lemma CompactSizeRoundTrip(c: CompactSize, rest: seq<u8>)
    ensures DecodeCompactSize(CompactSizeBytes(c) + rest) == Ok(Decoded(c, rest))
  {
    var b := CompactSizeBytes(c);
    var s := b + rest;
    assert s[..|b|] == b && s[|b|..] == rest;
    if c.value > 0xFC {
      assert s[1..|b|] == b[1..];
    }
  }

  /** Decoding accepts a longer form than the encoder writes: `FD 05 00`
      reads as 5, which is written back as the single byte `05`. */
  lemma NonMinimalCompactSize()
    ensures DecodeCompactSize([0xFD, 5, 0]) == Ok(Decoded(CompactSize(5), []))
    ensures CompactSizeBytes(CompactSize(5)) == [5]
  {
    var s: seq<u8> := [0xFD, 5, 0];
    assert FromLe(s[1..3]) == 5 by {
      assert s[1..3] == [5, 0];
      assert FromLe([0 as u8]) == 0 by { assert [0 as u8][1..] == []; }
      assert [5 as u8, 0][1..] == [0];
    }
  }

  // ---------------------------------------------------------------------
  // Scripts

  /** Hex text as decode produces it is text the encoder accepts. */
  lemma ScriptTextIsValid(script: string)
    requires ScriptText(script)
    ensures ValidScript(script)
    ensures HexEncode(HexDecode(script).value) == script
  {
    EncodeDecode(script);
  }

  /** A length-prefixed byte string: its CompactSize length, then the bytes. */
  lemma ByteStringRoundTrip(b: seq<u8>, rest: seq<u8>)
    requires |b| < U64Bound
    ensures DecodeByteString(CompactSizeBytes(CompactSize(|b| as u64)) + b + rest) == Ok(Decoded(b, rest))
  {
    var c := CompactSize(|b| as u64);
    CompactSizeRoundTrip(c, b + rest);
    Reassociate(CompactSizeBytes(c), b, rest);
    assert (b + rest)[..|b|] == b && (b + rest)[|b|..] == rest;
  }

  lemma ScriptRoundTrip(script: string, rest: seq<u8>)
    requires ScriptText(script)
    ensures ValidScript(script)
    ensures DecodeScript(ScriptBytes(script) + rest) == Ok(Decoded(script, rest))
  {
    ScriptTextIsValid(script);
    ByteStringRoundTrip(HexDecode(script).value, rest);
  }


  // ---------------------------------------------------------------------
  // Inputs and outputs

  lemma InputRoundTrip(i: TxIn, rest: seq<u8>)
    requires PlainInput(i)
    ensures ValidInput(i)
    ensures DecodeInput(InputBytes(i) + rest) == Ok(Decoded(i, rest))
  {
    ScriptTextIsValid(i.scriptSig);
    var script := ScriptBytes(i.scriptSig);
    var afterScript := U32Bytes(i.sequence) + rest;
    var afterIndex := script + afterScript;
    var afterId := U32Bytes(i.outputIndex) + afterIndex;
    InputBytesSplit(i, rest);
    assert DecodeTxId(i.txId.bytes + afterId) == Ok(Decoded(i.txId, afterId)) by {
      var s := i.txId.bytes + afterId;
      assert s[..32] == i.txId.bytes && s[32..] == afterId;
    }
    U32RoundTrip(i.outputIndex, afterIndex);
    ScriptRoundTrip(i.scriptSig, afterScript);
    U32RoundTrip(i.sequence, rest);
  }

  /** The encoded input followed by `rest`, grouped field by field. */
  lemma InputBytesSplit(i: TxIn, rest: seq<u8>)
    requires ValidInput(i)
    ensures InputBytes(i) + rest
         == i.txId.bytes + (U32Bytes(i.outputIndex) + (ScriptBytes(i.scriptSig) + (U32Bytes(i.sequence) + rest)))
  {
  }

  lemma OutputRoundTrip(o: TxOut, rest: seq<u8>)
    requires ScriptText(o.scriptPubkey)
    ensures ValidOutput(o)
    ensures DecodeOutput(OutputBytes(o) + rest) == Ok(Decoded(o, rest))
  {
    ScriptRoundTrip(o.scriptPubkey, rest);
    U64RoundTrip(o.amount.sat, ScriptBytes(o.scriptPubkey) + rest);
    Reassociate(U64Bytes(o.amount.sat), ScriptBytes(o.scriptPubkey), rest);
  }

  // ---------------------------------------------------------------------
  // Input and output lists

  lemma PlainInputsAreValid(xs: seq<TxIn>)
    requires InputScripts(xs)
    ensures forall i {:trigger ValidInput(xs[i])} :: 0 <= i < |xs| ==> ValidInput(xs[i])
  {
    forall i | 0 <= i < |xs| ensures ValidInput(xs[i]) {
      ScriptTextIsValid(xs[i].scriptSig);
    }
  }

  /** A count followed by that many inputs is a `Vec`. */
  lemma InputsFrom(s: seq<u8>, c: CompactSize, t: seq<u8>, xs: seq<TxIn>, rest: seq<u8>)
    requires DecodeCompactSize(s) == Ok(Decoded(c, t))
    requires c.value as nat == |xs| && DecodeList(DecodeInput, t, |xs|) == Ok(Decoded(xs, rest))
    ensures DecodeInputs(s) == Ok(Decoded(xs, rest))
  {
  }

  lemma {:induction false} InputListRoundTrip(xs: seq<TxIn>, rest: seq<u8>)
    requires InputScripts(xs) && NoWitnesses(xs)
    ensures forall i {:trigger ValidInput(xs[i])} :: 0 <= i < |xs| ==> ValidInput(xs[i])
    ensures DecodeList(DecodeInput, InputListBytes(xs) + rest, |xs|) == Ok(Decoded(xs, rest))
  {
    PlainInputsAreValid(xs);
    if xs != [] {
      var tail := xs[1..];
      assert InputScripts(tail) && NoWitnesses(tail) by {
        forall i | 0 <= i < |tail| ensures PlainInput(tail[i]) {
          assert tail[i] == xs[i + 1];
        }
      }
      var later := InputListBytes(tail) + rest;
      assert PlainInput(xs[0]);
      InputRoundTrip(xs[0], later);
      InputListRoundTrip(tail, rest);
      Reassociate(InputBytes(xs[0]), InputListBytes(tail), rest);
      DecodeListCons(DecodeInput, InputListBytes(xs) + rest, later, xs, rest);
    } else {
      assert InputListBytes(xs) + rest == rest;
    }
  }

  lemma InputsRoundTrip(xs: seq<TxIn>, rest: seq<u8>)
    requires InputScripts(xs) && NoWitnesses(xs) && |xs| < U64Bound
    ensures ValidInputs(xs)
    ensures DecodeInputs(InputsBytes(xs) + rest) == Ok(Decoded(xs, rest))
  {
    InputListRoundTrip(xs, rest);
    CompactSizeRoundTrip(CompactSize(|xs| as u64), InputListBytes(xs) + rest);
    Reassociate(CompactSizeBytes(CompactSize(|xs| as u64)), InputListBytes(xs), rest);
    InputsFrom(InputsBytes(xs) + rest, CompactSize(|xs| as u64), InputListBytes(xs) + rest, xs, rest);
  }

  lemma PlainOutputsAreValid(ys: seq<TxOut>)
    requires OutputScripts(ys)
    ensures forall i {:trigger ValidOutput(ys[i])} :: 0 <= i < |ys| ==> ValidOutput(ys[i])
  {
    forall i | 0 <= i < |ys| ensures ValidOutput(ys[i]) {
      ScriptTextIsValid(ys[i].scriptPubkey);
    }
  }

  /** A count followed by that many outputs is a `Vec`. */
  lemma OutputsFrom(s: seq<u8>, c: CompactSize, t: seq<u8>, ys: seq<TxOut>, rest: seq<u8>)
    requires DecodeCompactSize(s) == Ok(Decoded(c, t))
    requires c.value as nat == |ys| && DecodeList(DecodeOutput, t, |ys|) == Ok(Decoded(ys, rest))
    ensures DecodeOutputs(s) == Ok(Decoded(ys, rest))
  {
  }

  lemma {:induction false} OutputListRoundTrip(ys: seq<TxOut>, rest: seq<u8>)
    requires OutputScripts(ys)
    ensures forall i {:trigger ValidOutput(ys[i])} :: 0 <= i < |ys| ==> ValidOutput(ys[i])
    ensures DecodeList(DecodeOutput, OutputListBytes(ys) + rest, |ys|) == Ok(Decoded(ys, rest))
  {
    PlainOutputsAreValid(ys);
    if ys != [] {
      var tail := ys[1..];
      assert OutputScripts(tail) by {
        forall i | 0 <= i < |tail| ensures ScriptText(tail[i].scriptPubkey) {
          assert tail[i] == ys[i + 1];
        }
      }
      var later := OutputListBytes(tail) + rest;
      OutputRoundTrip(ys[0], later);
      OutputListRoundTrip(tail, rest);
      Reassociate(OutputBytes(ys[0]), OutputListBytes(tail), rest);
      DecodeListCons(DecodeOutput, OutputListBytes(ys) + rest, later, ys, rest);
    } else {
      assert OutputListBytes(ys) + rest == rest;
    }
  }

  lemma OutputsRoundTrip(ys: seq<TxOut>, rest: seq<u8>)
    requires OutputScripts(ys) && |ys| < U64Bound
    ensures ValidOutputs(ys)
    ensures DecodeOutputs(OutputsBytes(ys) + rest) == Ok(Decoded(ys, rest))
  {
    OutputListRoundTrip(ys, rest);
    CompactSizeRoundTrip(CompactSize(|ys| as u64), OutputListBytes(ys) + rest);
    Reassociate(CompactSizeBytes(CompactSize(|ys| as u64)), OutputListBytes(ys), rest);
    OutputsFrom(OutputsBytes(ys) + rest, CompactSize(|ys| as u64), OutputListBytes(ys) + rest, ys, rest);
  }
}
