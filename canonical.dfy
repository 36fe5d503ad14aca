/** The other direction of the round trip: re-encoding what decode read gives
    back exactly the bytes it consumed, as long as every CompactSize it read
    was in its narrowest form. Decode accepts wider forms too (`FD 05 00`
    for 5), and then the re-encoding is shorter than the input. */
module Canonical {
  import opened Bytes
  import opened Hex
  import opened Errors
  import opened Types
  import opened Decode
  import opened Encode
  import opened Txid
  import opened RoundTrip
  import opened Layouts

  // ---------------------------------------------------------------------
  // Minimal CompactSize forms

  /** A 0xFD, 0xFE or 0xFF prefix is used only for a value the narrower forms
      cannot hold. Text that does not decode is not constrained. */
  predicate MinimalCompactSize(s: seq<u8>) {
    match DecodeCompactSize(s)
    case Err(_) => true
    case Ok(d) =>
      && (s[0] == 0xFD ==> d.item.value > 0xFC)
      && (s[0] == 0xFE ==> d.item.value > 0xFFFF)
      && (s[0] == 0xFF ==> d.item.value > 0xFFFF_FFFF)
  }

  /** Re-encoding a fixed-width integer restores its bytes. */
  lemma U32Reencode(s: seq<u8>)
    requires DecodeU32(s).Ok?
    ensures U32Bytes(DecodeU32(s).value.item) + DecodeU32(s).value.rest == s
  {
    FromLeInjective(U32Bytes(DecodeU32(s).value.item), s[..4]);
    assert s[..4] + s[4..] == s;
  }

  lemma U64Reencode(s: seq<u8>)
    requires DecodeU64(s).Ok?
    ensures U64Bytes(DecodeU64(s).value.item) + DecodeU64(s).value.rest == s
  {
    FromLeInjective(U64Bytes(DecodeU64(s).value.item), s[..8]);
    assert s[..8] + s[8..] == s;
  }

  /** A prefixed form is determined by its prefix byte, its width and its value. */
  lemma WideReencode(s: seq<u8>, b: seq<u8>, w: nat)
    requires 1 < w <= |s| && |b| == w && b[0] == s[0]
    requires FromLe(b[1..]) == FromLe(s[1..w])
    ensures b + s[w..] == s
  {
    FromLeInjective(b[1..], s[1..w]);
    assert b == [b[0]] + b[1..];
    assert s == [s[0]] + s[1..w] + s[w..];
  }

  /** A CompactSize re-encodes to the bytes it was read from exactly when it
      was read from its narrowest form. */
  lemma CompactSizeReencode(s: seq<u8>)
    requires DecodeCompactSize(s).Ok?
    ensures MinimalCompactSize(s) <==>
              CompactSizeBytes(DecodeCompactSize(s).value.item) + DecodeCompactSize(s).value.rest == s
  {
    var d := DecodeCompactSize(s).value;
    var w := EncodedWidth(s[0]);
    var b := CompactSizeBytes(d.item);
    if s[0] < 0xFD {
      assert b + d.rest == [s[0]] + s[1..] == s;
    } else {
      if MinimalCompactSize(s) {
        WideReencode(s, b, w);
      }
      if b + d.rest == s {
        assert |b| == w && b[0] == s[0];
      }
    }
  }

  // ---------------------------------------------------------------------
  // Scripts, inputs and outputs

  /** A script whose length is minimal re-encodes to its bytes. */
  lemma ScriptReencode(s: seq<u8>)
    requires DecodeScript(s).Ok? && MinimalCompactSize(s)
    ensures ValidScript(DecodeScript(s).value.item)
    ensures ScriptBytes(DecodeScript(s).value.item) + DecodeScript(s).value.rest == s
  {
    var len := DecodeCompactSize(s).value;
    var raw := DecodeByteString(s).value.item;
    var script := DecodeScript(s).value.item;
    var rest := DecodeScript(s).value.rest;
    CompactSizeReencode(s);
    assert HexDecode(script) == Some(raw);
    assert CompactSize(|raw| as u64) == len.item;
    Reassociate(CompactSizeBytes(len.item), raw, rest);
  }

  /** The script length of an input sits after the identifier and the output index. */
  predicate MinimalInput(s: seq<u8>) {
    36 <= |s| ==> MinimalCompactSize(s[36..])
  }

  lemma InputReencode(s: seq<u8>)
    requires DecodeInput(s).Ok? && MinimalInput(s)
    ensures ValidInput(DecodeInput(s).value.item)
    ensures InputBytes(DecodeInput(s).value.item) + DecodeInput(s).value.rest == s
  {
    var id := DecodeTxId(s).value;
    var index := DecodeU32(id.rest).value;
    var script := DecodeScript(index.rest).value;
    var sequence := DecodeU32(script.rest).value;
    var x := TxIn(id.item, index.item, script.item, Witness.New(), sequence.item);
    assert DecodeInput(s) == Ok(Decoded(x, sequence.rest));
    assert index.rest == s[36..] by {
      assert id.rest[4..] == s[36..];
    }
    U32Reencode(id.rest);
    ScriptReencode(index.rest);
    U32Reencode(script.rest);
    assert s[..32] + s[32..] == s;
    InputBytesSplit(x, sequence.rest);
  }

  /** The script length of an output sits after the amount. */
  predicate MinimalOutput(s: seq<u8>) {
    8 <= |s| ==> MinimalCompactSize(s[8..])
  }

  lemma OutputReencode(s: seq<u8>)
    requires DecodeOutput(s).Ok? && MinimalOutput(s)
    ensures ValidOutput(DecodeOutput(s).value.item)
    ensures OutputBytes(DecodeOutput(s).value.item) + DecodeOutput(s).value.rest == s
  {
    var y := DecodeOutput(s).value.item;
    var rest := DecodeOutput(s).value.rest;
    U64Reencode(s);
    ScriptReencode(s[8..]);
    Reassociate(U64Bytes(y.amount.sat), ScriptBytes(y.scriptPubkey), rest);
  }

  // ---------------------------------------------------------------------
  // Lists

  /** `minimal` holds at the start of each of the `n` elements a list decode reads. */
  predicate MinimalList<T>(item: seq<u8> -> Result<Decoded<T>>, minimal: seq<u8> -> bool, s: seq<u8>, n: nat)
    decreases n
  {
    n == 0 || (minimal(s) && (item(s).Ok? ==> MinimalList(item, minimal, item(s).value.rest, n - 1)))
  }

  lemma {:induction false} InputListReencode(s: seq<u8>, n: nat)
    requires DecodeList(DecodeInput, s, n).Ok? && MinimalList(DecodeInput, MinimalInput, s, n)
    ensures forall i {:trigger ValidInput(DecodeList(DecodeInput, s, n).value.item[i])} ::
              0 <= i < n ==> ValidInput(DecodeList(DecodeInput, s, n).value.item[i])
    ensures InputListBytes(DecodeList(DecodeInput, s, n).value.item) + DecodeList(DecodeInput, s, n).value.rest == s
    decreases n
  {
    var d := DecodeList(DecodeInput, s, n).value;
    if n == 0 {
      assert InputListBytes(d.item) + d.rest == s;
    } else {
      var x := DecodeInput(s).value;
      var tail := DecodeList(DecodeInput, x.rest, n - 1).value;
      InputReencode(s);
      InputListReencode(x.rest, n - 1);
      assert d.item == [x.item] + tail.item && d.rest == tail.rest;
      assert d.item[1..] == tail.item;
      forall i | 0 <= i < n ensures ValidInput(d.item[i]) {
        if i > 0 {
          assert d.item[i] == tail.item[i - 1];
        }
      }
      Reassociate(InputBytes(x.item), InputListBytes(tail.item), tail.rest);
    }
  }

  lemma {:induction false} OutputListReencode(s: seq<u8>, n: nat)
    requires DecodeList(DecodeOutput, s, n).Ok? && MinimalList(DecodeOutput, MinimalOutput, s, n)
    ensures forall i {:trigger ValidOutput(DecodeList(DecodeOutput, s, n).value.item[i])} ::
              0 <= i < n ==> ValidOutput(DecodeList(DecodeOutput, s, n).value.item[i])
    ensures OutputListBytes(DecodeList(DecodeOutput, s, n).value.item) + DecodeList(DecodeOutput, s, n).value.rest == s
    decreases n
  {
    var d := DecodeList(DecodeOutput, s, n).value;
    if n == 0 {
      assert OutputListBytes(d.item) + d.rest == s;
    } else {
      var y := DecodeOutput(s).value;
      var tail := DecodeList(DecodeOutput, y.rest, n - 1).value;
      OutputReencode(s);
      OutputListReencode(y.rest, n - 1);
      assert d.item == [y.item] + tail.item && d.rest == tail.rest;
      assert d.item[1..] == tail.item;
      forall i | 0 <= i < n ensures ValidOutput(d.item[i]) {
        if i > 0 {
          assert d.item[i] == tail.item[i - 1];
        }
      }
      Reassociate(OutputBytes(y.item), OutputListBytes(tail.item), tail.rest);
    }
  }

  /** The count and every script length of a `Vec<TxIn>` are minimal. */
  predicate MinimalInputs(s: seq<u8>) {
    && MinimalCompactSize(s)
    && (DecodeCompactSize(s).Ok? ==>
          MinimalList(DecodeInput, MinimalInput, DecodeCompactSize(s).value.rest,
                      DecodeCompactSize(s).value.item.value as nat))
  }

  lemma InputsReencode(s: seq<u8>)
    requires DecodeInputs(s).Ok? && MinimalInputs(s)
    ensures ValidInputs(DecodeInputs(s).value.item)
    ensures InputsBytes(DecodeInputs(s).value.item) + DecodeInputs(s).value.rest == s
  {
    var count := DecodeCompactSize(s).value;
    var d := DecodeInputs(s).value;
    CompactSizeReencode(s);
    InputListReencode(count.rest, count.item.value as nat);
    assert CompactSize(|d.item| as u64) == count.item;
    Reassociate(CompactSizeBytes(count.item), InputListBytes(d.item), d.rest);
  }

  /** The count and every script length of a `Vec<TxOut>` are minimal. */
  predicate MinimalOutputs(s: seq<u8>) {
    && MinimalCompactSize(s)
    && (DecodeCompactSize(s).Ok? ==>
          MinimalList(DecodeOutput, MinimalOutput, DecodeCompactSize(s).value.rest,
                      DecodeCompactSize(s).value.item.value as nat))
  }

  lemma OutputsReencode(s: seq<u8>)
    requires DecodeOutputs(s).Ok? && MinimalOutputs(s)
    ensures ValidOutputs(DecodeOutputs(s).value.item)
    ensures OutputsBytes(DecodeOutputs(s).value.item) + DecodeOutputs(s).value.rest == s
  {
    var count := DecodeCompactSize(s).value;
    var d := DecodeOutputs(s).value;
    CompactSizeReencode(s);
    OutputListReencode(count.rest, count.item.value as nat);
    assert CompactSize(|d.item| as u64) == count.item;
    Reassociate(CompactSizeBytes(count.item), OutputListBytes(d.item), d.rest);
  }

  // ---------------------------------------------------------------------
  // Legacy transactions

  /** Every CompactSize read from a legacy transaction (the two counts and
      each script length) is in its narrowest form. */
  predicate MinimalLegacy(s: seq<u8>) {
    4 <= |s| ==>
      && MinimalInputs(s[4..])
      && (DecodeInputs(s[4..]).Ok? ==> MinimalOutputs(DecodeInputs(s[4..]).value.rest))
  }

  /** The layout a transaction was read in shows in the result: the legacy
      layout gives inputs without witnesses; the witness layout gives no
      inputs or at least one witness. */
  lemma LayoutOfResult(s: seq<u8>)
    requires DecodeTransaction(s).Ok?
    ensures DecodeU32(s).Ok? && DecodeInputs(DecodeU32(s).value.rest).Ok?
    ensures DecodeInputs(DecodeU32(s).value.rest).value.item != [] <==>
              DecodeTransaction(s).value.item.inputs != [] && NoWitnesses(DecodeTransaction(s).value.item.inputs)
  {
    var inputs := DecodeInputs(DecodeU32(s).value.rest).value;
    if inputs.item == [] {
      var flag := DecodeU8(inputs.rest).value;
      var realInputs := DecodeInputs(flag.rest).value;
      var outputs := DecodeOutputs(realInputs.rest).value;
      var witnessed := DecodeWitnesses(outputs.rest, realInputs.item).value;
      assert DecodeTransaction(s).value.item.inputs == witnessed.item;
    }
  }

  /** If the CompactSizes of a legacy transaction were minimal, its preimage
      is exactly the bytes decode consumed. */
  lemma ConsumedIsPreimage(s: seq<u8>)
    requires DecodeTransaction(s).Ok?
    requires DecodeTransaction(s).value.item.inputs != []
    requires NoWitnesses(DecodeTransaction(s).value.item.inputs)
    requires MinimalLegacy(s)
    ensures Encodable(DecodeTransaction(s).value.item)
    ensures Preimage(DecodeTransaction(s).value.item) + DecodeTransaction(s).value.rest == s
  {
    LayoutOfResult(s);
    var version := DecodeU32(s).value;
    var inputs := DecodeInputs(version.rest).value;
    var outputs := DecodeOutputs(inputs.rest).value;
    var lockTime := DecodeU32(outputs.rest).value;
    var tx := Transaction(version.item, inputs.item, outputs.item, lockTime.item);
    assert DecodeTransaction(s) == Ok(Decoded(tx, lockTime.rest));
    U32Reencode(s);
    InputsReencode(version.rest);
    OutputsReencode(inputs.rest);
    U32Reencode(outputs.rest);
    RegroupFour(U32Bytes(tx.version), InputsBytes(tx.inputs), OutputsBytes(tx.outputs), U32Bytes(tx.lockTime), lockTime.rest);
  }

  /** The identifier of such a transaction is the double hash of the bytes
      up to and including its lock time. */
  lemma TxidOfConsumedBytes(s: seq<u8>, sha256: seq<u8> -> Bytes32)
    requires DecodeTransaction(s).Ok?
    requires DecodeTransaction(s).value.item.inputs != []
    requires NoWitnesses(DecodeTransaction(s).value.item.inputs)
    requires MinimalLegacy(s)
    ensures Encodable(DecodeTransaction(s).value.item)
    ensures |Preimage(DecodeTransaction(s).value.item)| <= |s|
    ensures FromRawTransaction(Preimage(DecodeTransaction(s).value.item), sha256)
         == FromRawTransaction(s[..|Preimage(DecodeTransaction(s).value.item)|], sha256)
  {
    ConsumedIsPreimage(s);
    var p := Preimage(DecodeTransaction(s).value.item);
    assert s[..|p|] == p;
  }
}
