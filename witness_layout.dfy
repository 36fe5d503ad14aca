/** The witness section as the decoder reads it. The source has no witness
    encoder; these functions are the reference layout the decoder accepts:
    a one-byte item count, then each item behind its CompactSize length. */
module WitnessLayout {
  import opened Bytes
  import opened Errors
  import opened Types
  import opened Decode
  import opened Encode
  import opened RoundTrip

  function ItemsBytes(items: seq<seq<u8>>): seq<u8>
    requires forall k :: 0 <= k < |items| ==> |items[k]| < U64Bound
  {
    if items == [] then []
    else CompactSizeBytes(CompactSize(|items[0]| as u64)) + items[0] + ItemsBytes(items[1..])
  }

  function WitnessBytes(w: Witness): seq<u8>
    requires w.Fits()
  {
    [|w.content| as u8] + ItemsBytes(w.content)
  }

  /** Every input's witness can be laid out. */
  predicate EncodableWitnesses(inputs: seq<TxIn>) {
    forall i :: 0 <= i < |inputs| ==> inputs[i].witnessStack.Fits()
  }

  /** One witness per input, in input order. */
  function WitnessListBytes(inputs: seq<TxIn>): seq<u8>
    requires EncodableWitnesses(inputs)
  {
    if inputs == [] then [] else WitnessBytes(inputs[0].witnessStack) + WitnessListBytes(inputs[1..])
  }

  lemma {:induction false} ItemsRoundTrip(items: seq<seq<u8>>, rest: seq<u8>)
    requires forall k :: 0 <= k < |items| ==> |items[k]| < U64Bound
    ensures DecodeList(DecodeByteString, ItemsBytes(items) + rest, |items|) == Ok(Decoded(items, rest))
  {
    if items != [] {
      var head := CompactSizeBytes(CompactSize(|items[0]| as u64)) + items[0];
      var later := ItemsBytes(items[1..]) + rest;
      ByteStringRoundTrip(items[0], later);
      ItemsRoundTrip(items[1..], rest);
      Reassociate(head, ItemsBytes(items[1..]), rest);
      DecodeListCons(DecodeByteString, ItemsBytes(items) + rest, later, items, rest);
    } else {
      assert ItemsBytes(items) + rest == rest;
    }
  }

  lemma WitnessFrom(s: seq<u8>, t: seq<u8>, w: Witness, rest: seq<u8>)
    requires 1 <= |s| && s[0] as nat == |w.content| && t == s[1..]
    requires DecodeList(DecodeByteString, t, |w.content|) == Ok(Decoded(w.content, rest))
    ensures DecodeWitness(s) == Ok(Decoded(w, rest))
  {
  }

  lemma WitnessRoundTrip(w: Witness, rest: seq<u8>)
    requires w.Fits()
    ensures DecodeWitness(WitnessBytes(w) + rest) == Ok(Decoded(w, rest))
  {
    ItemsRoundTrip(w.content, rest);
    Reassociate([|w.content| as u8], ItemsBytes(w.content), rest);
    var s := WitnessBytes(w) + rest;
    assert s[1..] == ItemsBytes(w.content) + rest;
    WitnessFrom(s, s[1..], w, rest);
  }

  /** `inputs` and `bare` agree on everything but the witnesses. */
  predicate SameButWitness(bare: seq<TxIn>, inputs: seq<TxIn>) {
    |bare| == |inputs| && forall i :: 0 <= i < |inputs| ==> WithoutWitness(bare[i]) == WithoutWitness(inputs[i])
  }

  lemma WitnessesCons(s: seq<u8>, t: seq<u8>, bare: seq<TxIn>, inputs: seq<TxIn>, rest: seq<u8>)
    requires inputs != [] && SameButWitness(bare, inputs)
    requires DecodeWitness(s) == Ok(Decoded(inputs[0].witnessStack, t))
    requires DecodeWitnesses(t, bare[1..]) == Ok(Decoded(inputs[1..], rest))
    ensures DecodeWitnesses(s, bare) == Ok(Decoded(inputs, rest))
  {
    assert WithoutWitness(bare[0]) == WithoutWitness(inputs[0]);
    assert bare[0].(witnessStack := inputs[0].witnessStack) == inputs[0];
    assert [inputs[0]] + inputs[1..] == inputs;
  }

  /** Reading the witness section for inputs that lack their witnesses
      restores every witness, in order. */
  lemma {:induction false} WitnessListRoundTrip(bare: seq<TxIn>, inputs: seq<TxIn>, rest: seq<u8>)
    requires SameButWitness(bare, inputs) && EncodableWitnesses(inputs)
    ensures DecodeWitnesses(WitnessListBytes(inputs) + rest, bare) == Ok(Decoded(inputs, rest))
  {
    if inputs != [] {
      var later := WitnessListBytes(inputs[1..]) + rest;
      WitnessRoundTrip(inputs[0].witnessStack, later);
      assert SameButWitness(bare[1..], inputs[1..]) by {
        forall i | 0 <= i < |inputs| - 1
          ensures WithoutWitness(bare[1..][i]) == WithoutWitness(inputs[1..][i])
        {
          assert bare[1..][i] == bare[i + 1] && inputs[1..][i] == inputs[i + 1];
        }
      }
      assert EncodableWitnesses(inputs[1..]) by {
        forall i | 0 <= i < |inputs| - 1 ensures inputs[1..][i].witnessStack.Fits() {
          assert inputs[1..][i] == inputs[i + 1];
        }
      }
      WitnessListRoundTrip(bare[1..], inputs[1..], rest);
      Reassociate(WitnessBytes(inputs[0].witnessStack), WitnessListBytes(inputs[1..]), rest);
      WitnessesCons(WitnessListBytes(inputs) + rest, later, bare, inputs, rest);
    } else {
      assert WitnessListBytes(inputs) + rest == rest;
    }
  }
}
