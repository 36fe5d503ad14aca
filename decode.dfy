/** The decoders of the transaction codec. A reader is the slice of bytes not
    yet read; every read is `read_exact`, so a decoder either returns its value
    with the reader advanced past exactly the bytes it used, or fails with `Io`
    and no partial value.

    Each decoder is a function (the specification); the decoders that loop
    are also methods, written as the source writes them, and proved equal to
    their function. */
module Decode {
  import opened Bytes
  import opened Hex
  import opened Errors
  import opened Types

  const WitnessMissing: string := "witness flag set but no witnesses present"

  /** `read_exact` into an `n`-byte buffer. */
  function ReadExact(s: seq<u8>, n: nat): (r: Result<Decoded<seq<u8>>>)
    ensures r.Ok? <==> n <= |s|
    ensures r.Ok? ==> |r.value.item| == n && r.value.item + r.value.rest == s
    ensures r.Err? ==> r.error == Io
  {
    if |s| < n then Err(Io) else Ok(Decoded(s[..n], s[n..]))
  }

  // ---------------------------------------------------------------------
  // Fixed-width integers and identifiers

  function DecodeU8(s: seq<u8>): (r: Result<Decoded<u8>>)
    ensures r.Ok? <==> 1 <= |s|
    ensures r.Ok? ==> r.value == Decoded(s[0], s[1..])
    ensures r.Err? ==> r.error == Io
  {
    var b :- ReadExact(s, 1);
    Ok(Decoded(b.item[0], b.rest))
  }

  function DecodeU16(s: seq<u8>): (r: Result<Decoded<u16>>)
    ensures r.Ok? <==> 2 <= |s|
    ensures r.Ok? ==> r.value.item as nat == FromLe(s[..2]) && r.value.rest == s[2..]
    ensures r.Err? ==> r.error == Io
  {
    var b :- ReadExact(s, 2);
    assert Pow256(2) == 0x1_0000;
    Ok(Decoded(FromLe(b.item) as u16, b.rest))
  }

  function DecodeU32(s: seq<u8>): (r: Result<Decoded<u32>>)
    ensures r.Ok? <==> 4 <= |s|
    ensures r.Ok? ==> r.value.item as nat == FromLe(s[..4]) && r.value.rest == s[4..]
    ensures r.Err? ==> r.error == Io
  {
    var b :- ReadExact(s, 4);
    assert Pow256(4) == 0x1_0000_0000;
    Ok(Decoded(FromLe(b.item) as u32, b.rest))
  }

  function DecodeU64(s: seq<u8>): (r: Result<Decoded<u64>>)
    ensures r.Ok? <==> 8 <= |s|
    ensures r.Ok? ==> r.value.item as nat == FromLe(s[..8]) && r.value.rest == s[8..]
    ensures r.Err? ==> r.error == Io
  {
    var b :- ReadExact(s, 8);
    assert Pow256(8) == U64Bound;
    Ok(Decoded(FromLe(b.item) as u64, b.rest))
  }

  /** A previous-transaction identifier: 32 bytes, kept in wire order. */
  function DecodeTxId(s: seq<u8>): (r: Result<Decoded<TxId>>)
    ensures r.Ok? <==> 32 <= |s|
    ensures r.Ok? ==> r.value.item.bytes == s[..32] && r.value.rest == s[32..]
    ensures r.Err? ==> r.error == Io
  {
    var b :- ReadExact(s, 32);
    Ok(Decoded(TxId(b.item), b.rest))
  }

  // ---------------------------------------------------------------------
  // CompactSize

  /** How many bytes a CompactSize whose first byte is `n` occupies. */
  function EncodedWidth(n: u8): nat {
    if n == 0xFF then 9 else if n == 0xFE then 5 else if n == 0xFD then 3 else 1
  }

  /** A first byte below 0xFD is the value; 0xFD, 0xFE and 0xFF announce 2, 4
      or 8 little-endian bytes. Non-minimal forms (`FD 05 00`) are accepted. */
  function DecodeCompactSize(s: seq<u8>): (r: Result<Decoded<CompactSize>>)
    ensures r.Ok? <==> 1 <= |s| && EncodedWidth(s[0]) <= |s|
    ensures r.Ok? ==> r.value.rest == s[EncodedWidth(s[0])..]
    ensures r.Ok? && s[0] < 0xFD ==> r.value.item.value == s[0] as u64
    ensures r.Ok? && s[0] >= 0xFD ==> r.value.item.value as nat == FromLe(s[1..EncodedWidth(s[0])])
    ensures r.Err? ==> r.error == Io
  {
    var n :- DecodeU8(s);
    if n.item == 0xFF then
      var x :- DecodeU64(n.rest);
      assert n.rest[..8] == s[1..9];
      Ok(Decoded(CompactSize(x.item), x.rest))
    else if n.item == 0xFE then
      var x :- DecodeU32(n.rest);
      assert n.rest[..4] == s[1..5];
      Ok(Decoded(CompactSize(x.item as u64), x.rest))
    else if n.item == 0xFD then
      var x :- DecodeU16(n.rest);
      assert n.rest[..2] == s[1..3];
      Ok(Decoded(CompactSize(x.item as u64), x.rest))
    else
      Ok(Decoded(CompactSize(n.item as u64), n.rest))
  }

  // ---------------------------------------------------------------------
  // Length-prefixed byte strings: scripts and witness items

  /** A CompactSize length L, then exactly L bytes. */
  function DecodeByteString(s: seq<u8>): (r: Result<Decoded<seq<u8>>>)
    ensures r.Ok? <==> DecodeCompactSize(s).Ok? &&
                       DecodeCompactSize(s).value.item.value as nat <= |DecodeCompactSize(s).value.rest|
    ensures r.Ok? ==> |r.value.item| == DecodeCompactSize(s).value.item.value as nat
    ensures r.Ok? ==> r.value.item + r.value.rest == DecodeCompactSize(s).value.rest
    ensures r.Err? ==> r.error == Io
  {
    var len :- DecodeCompactSize(s);
    ReadExact(len.rest, len.item.value as nat)
  }

  /** A script: the bytes of a length-prefixed string, held as hex text. */
  function DecodeScript(s: seq<u8>): (r: Result<Decoded<string>>)
    ensures r.Ok? <==> DecodeByteString(s).Ok?
    ensures r.Ok? ==> IsLowerHex(r.value.item) && r.value.rest == DecodeByteString(s).value.rest
    ensures r.Ok? ==> HexDecode(r.value.item) == Some(DecodeByteString(s).value.item)
    ensures r.Err? ==> r.error == Io
  {
    var b :- DecodeByteString(s);
    DecodeEncode(b.item);
    Ok(Decoded(HexEncode(b.item), b.rest))
  }

  /** A script as decode leaves it: hex text of fewer than 2^64 bytes. */
  predicate ScriptText(script: string) {
    IsLowerHex(script) && |script| < 0x2_0000_0000_0000_0000
  }

  // ---------------------------------------------------------------------
  // Counted lists

  /** `n` values read one after the other by `item`, stopping at the first
      failure: the shape shared by `Vec<TxIn>`, `Vec<TxOut>` and the items
      of a witness. */
  function DecodeList<T>(item: seq<u8> -> Result<Decoded<T>>, s: seq<u8>, n: nat): (r: Result<Decoded<seq<T>>>)
    ensures r.Ok? ==> |r.value.item| == n
    decreases n
  {
    if n == 0 then Ok(Decoded([], s))
    else
      var x :- item(s);
      var xs :- DecodeList(item, x.rest, n - 1);
      Ok(Decoded([x.item] + xs.item, xs.rest))
  }

  lemma DecodeListStep<T>(item: seq<u8> -> Result<Decoded<T>>, s: seq<u8>, n: nat)
    requires n > 0
    ensures item(s).Err? ==> DecodeList(item, s, n) == Err(item(s).error)
    ensures item(s).Ok? ==>
      DecodeList(item, s, n) == Prefixed([item(s).value.item], DecodeList(item, item(s).value.rest, n - 1))
  {
  }

  /** A value read in front of a list read is a list one longer. */
  lemma DecodeListCons<T>(item: seq<u8> -> Result<Decoded<T>>, s: seq<u8>, t: seq<u8>, xs: seq<T>, rest: seq<u8>)
    requires xs != []
    requires item(s) == Ok(Decoded(xs[0], t))
    requires DecodeList(item, t, |xs| - 1) == Ok(Decoded(xs[1..], rest))
    ensures DecodeList(item, s, |xs|) == Ok(Decoded(xs, rest))
  {
    assert [xs[0]] + xs[1..] == xs;
  }

  /** The decoding loop of a counted list: push each value read, return the
      first error. */
  method ReadList<T>(item: seq<u8> -> Result<Decoded<T>>, s: seq<u8>, n: nat) returns (r: Result<Decoded<seq<T>>>)
    ensures r == DecodeList(item, s, n)
  {
    var values: seq<T> := [];
    var cur := s;
    var i := 0;
    PrefixedNothing(DecodeList(item, s, n));
    while i < n
      invariant i <= n
      invariant DecodeList(item, s, n) == Prefixed(values, DecodeList(item, cur, n - i))
    {
      var x := item(cur);
      DecodeListStep(item, cur, n - i);
      if x.Err? {
        return Err(x.error);
      }
      PrefixedAdvance(DecodeList(item, s, n), values, x.value.item,
                      DecodeList(item, cur, n - i), DecodeList(item, x.value.rest, n - i - 1));
      values := values + [x.value.item];
      cur := x.value.rest;
      i := i + 1;
    }
    assert values + [] == values;
    return Ok(Decoded(values, cur));
  }

  /** A list decode fails only as its element decoder fails. */
  lemma {:induction false} DecodeListIo<T>(item: seq<u8> -> Result<Decoded<T>>, s: seq<u8>, n: nat)
    requires forall t :: item(t).Err? ==> item(t).error == Io
    ensures DecodeList(item, s, n).Err? ==> DecodeList(item, s, n).error == Io
    decreases n
  {
    if n > 0 && item(s).Ok? {
      DecodeListIo(item, item(s).value.rest, n - 1);
    }
  }

  /** A property every decoded element has holds of every element of the list. */
  lemma {:induction false} DecodeListAll<T>(item: seq<u8> -> Result<Decoded<T>>, p: T -> bool, s: seq<u8>, n: nat)
    requires forall t :: item(t).Ok? ==> p(item(t).value.item)
    ensures DecodeList(item, s, n).Ok? ==>
              forall k :: 0 <= k < n ==> p(DecodeList(item, s, n).value.item[k])
    decreases n
  {
    if n > 0 && item(s).Ok? && DecodeList(item, s, n).Ok? {
      var x := item(s).value;
      var xs := DecodeList(item, x.rest, n - 1).value;
      DecodeListAll(item, p, x.rest, n - 1);
      assert DecodeList(item, s, n).value.item == [x.item] + xs.item;
      forall k | 0 <= k < n ensures p(([x.item] + xs.item)[k]) {
        if k > 0 {
          assert ([x.item] + xs.item)[k] == xs.item[k - 1];
        }
      }
    }
  }

  // ---------------------------------------------------------------------
  // Inputs

  /** Identifier, output index, script, sequence; the witness starts empty. */
  function DecodeInput(s: seq<u8>): (r: Result<Decoded<TxIn>>)
    ensures r.Ok? ==> r.value.item.witnessStack.IsEmpty() && ScriptText(r.value.item.scriptSig)
    ensures r.Ok? ==> |r.value.rest| + 41 <= |s|
    ensures r.Err? ==> r.error == Io
  {
    var id :- DecodeTxId(s);
    var index :- DecodeU32(id.rest);
    var script :- DecodeScript(index.rest);
    var sequence :- DecodeU32(script.rest);
    Ok(Decoded(TxIn(id.item, index.item, script.item, Witness.New(), sequence.item), sequence.rest))
  }

  /** An input as decode leaves it: script text, no witness yet. */
  predicate PlainInput(x: TxIn) {
    ScriptText(x.scriptSig) && x.witnessStack.IsEmpty()
  }

  /** Every script of the inputs is as decode leaves it. */
  predicate InputScripts(inputs: seq<TxIn>) {
    forall i {:trigger ScriptText(inputs[i].scriptSig)} :: 0 <= i < |inputs| ==> ScriptText(inputs[i].scriptSig)
  }

  /** `Vec<TxIn>`: a CompactSize count, then that many inputs. */
  function DecodeInputs(s: seq<u8>): (r: Result<Decoded<seq<TxIn>>>)
    ensures r.Ok? ==> DecodeCompactSize(s).Ok? && |r.value.item| == DecodeCompactSize(s).value.item.value as nat
    ensures r.Ok? ==> InputScripts(r.value.item) && NoWitnesses(r.value.item)
    ensures r.Err? ==> r.error == Io
  {
    var count :- DecodeCompactSize(s);
    var n := count.item.value as nat;
    DecodeListIo(DecodeInput, count.rest, n);
    DecodeListAll(DecodeInput, PlainInput, count.rest, n);
    DecodeList(DecodeInput, count.rest, n)
  }

  method ReadInputs(s: seq<u8>) returns (r: Result<Decoded<seq<TxIn>>>)
    ensures r == DecodeInputs(s)
  {
    var count :- DecodeCompactSize(s);
    r := ReadList(DecodeInput, count.rest, count.item.value as nat);
  }

  // ---------------------------------------------------------------------
  // Outputs

  /** An amount in satoshis, then a script. */
  function DecodeOutput(s: seq<u8>): (r: Result<Decoded<TxOut>>)
    ensures r.Ok? ==> ScriptText(r.value.item.scriptPubkey)
    ensures r.Ok? ==> |r.value.rest| + 9 <= |s|
    ensures r.Err? ==> r.error == Io
  {
    var amount :- DecodeU64(s);
    var script :- DecodeScript(amount.rest);
    Ok(Decoded(TxOut(Amount.FromSat(amount.item), script.item), script.rest))
  }

  /** Every script of the outputs is as decode leaves it. */
  predicate OutputScripts(outputs: seq<TxOut>) {
    forall i {:trigger ScriptText(outputs[i].scriptPubkey)} :: 0 <= i < |outputs| ==> ScriptText(outputs[i].scriptPubkey)
  }

  /** `Vec<TxOut>`: a CompactSize count, then that many outputs. */
  function DecodeOutputs(s: seq<u8>): (r: Result<Decoded<seq<TxOut>>>)
    ensures r.Ok? ==> DecodeCompactSize(s).Ok? && |r.value.item| == DecodeCompactSize(s).value.item.value as nat
    ensures r.Ok? ==> OutputScripts(r.value.item)
    ensures r.Err? ==> r.error == Io
  {
    var count :- DecodeCompactSize(s);
    var n := count.item.value as nat;
    DecodeListIo(DecodeOutput, count.rest, n);
    DecodeListAll(DecodeOutput, (y: TxOut) => ScriptText(y.scriptPubkey), count.rest, n);
    DecodeList(DecodeOutput, count.rest, n)
  }

  method ReadOutputs(s: seq<u8>) returns (r: Result<Decoded<seq<TxOut>>>)
    ensures r == DecodeOutputs(s)
  {
    var count :- DecodeCompactSize(s);
    r := ReadList(DecodeOutput, count.rest, count.item.value as nat);
  }

  // ---------------------------------------------------------------------
  // Witnesses

  /** A one-byte item count (not a CompactSize), then that many
      length-prefixed items. */
  function DecodeWitness(s: seq<u8>): (r: Result<Decoded<Witness>>)
    ensures r.Ok? ==> 1 <= |s| && |r.value.item.content| == s[0] as nat
    ensures r.Ok? ==> r.value.item.Fits()
    ensures r.Err? ==> r.error == Io
  {
    var count :- DecodeU8(s);
    var n := count.item as nat;
    DecodeListIo(DecodeByteString, count.rest, n);
    DecodeListAll(DecodeByteString, ShortItem, count.rest, n);
    var items :- DecodeList(DecodeByteString, count.rest, n);
    Ok(Decoded(Witness(items.item), items.rest))
  }

  method ReadWitness(s: seq<u8>) returns (r: Result<Decoded<Witness>>)
    ensures r == DecodeWitness(s)
  {
    var count :- DecodeU8(s);
    var items :- ReadList(DecodeByteString, count.rest, count.item as nat);
    return Ok(Decoded(Witness(items.item), items.rest));
  }

  /** One witness per input, in order, each attached to its input. */
  function DecodeWitnesses(s: seq<u8>, inputs: seq<TxIn>): (r: Result<Decoded<seq<TxIn>>>)
    ensures r.Ok? ==> |r.value.item| == |inputs|
    ensures r.Ok? ==> forall i :: 0 <= i < |inputs| ==>
                        WithoutWitness(r.value.item[i]) == WithoutWitness(inputs[i]) &&
                        r.value.item[i].witnessStack.Fits()
    ensures r.Err? ==> r.error == Io
    decreases |inputs|
  {
    if inputs == [] then Ok(Decoded([], s))
    else
      var w :- DecodeWitness(s);
      var ws :- DecodeWitnesses(w.rest, inputs[1..]);
      Ok(Decoded([inputs[0].(witnessStack := w.item)] + ws.item, ws.rest))
  }
  lemma DecodeWitnessesStep(s: seq<u8>, inputs: seq<TxIn>)
    requires inputs != []
    ensures DecodeWitness(s).Err? ==> DecodeWitnesses(s, inputs) == Err(DecodeWitness(s).error)
    ensures DecodeWitness(s).Ok? ==>
      DecodeWitnesses(s, inputs)
      == Prefixed([inputs[0].(witnessStack := DecodeWitness(s).value.item)],
                  DecodeWitnesses(DecodeWitness(s).value.rest, inputs[1..]))
  {
  }

  lemma DropFirst<T>(a: seq<T>, i: nat)
    requires i < |a|
    ensures a[i..][0] == a[i] && a[i..][1..] == a[i + 1..]
  {
  }

  /** Overwriting element `i` extends the done prefix and keeps the tail. */
  lemma UpdateSplit<T>(a: seq<T>, i: nat, v: T)
    requires i < |a|
    ensures a[i := v][..i + 1] == a[..i] + [v]
    ensures a[i := v][i + 1..] == a[i + 1..]
  {
  }

  /** Decodes one witness per input and assigns it into that input, in place. */
  method ReadWitnesses(s: seq<u8>, inputs: seq<TxIn>) returns (r: Result<Decoded<seq<TxIn>>>)
    ensures r == DecodeWitnesses(s, inputs)
  {
    var txins := inputs;
    var cur := s;
    var i := 0;
    PrefixedNothing(DecodeWitnesses(s, inputs));
    while i < |txins|
      invariant i <= |txins| == |inputs|
      invariant txins[i..] == inputs[i..]
      invariant DecodeWitnesses(s, inputs) == Prefixed(txins[..i], DecodeWitnesses(cur, inputs[i..]))
    {
      var w := ReadWitness(cur);
      DecodeWitnessesStep(cur, inputs[i..]);
      if w.Err? {
        return Err(w.error);
      }
      DropFirst(inputs, i);
      var attached := txins[i].(witnessStack := w.value.item);
      PrefixedAdvance(DecodeWitnesses(s, inputs), txins[..i], attached,
                      DecodeWitnesses(cur, inputs[i..]), DecodeWitnesses(w.value.rest, inputs[i + 1..]));
      UpdateSplit(txins, i, attached);
      txins := txins[i := attached];
      cur := w.value.rest;
      i := i + 1;
    }
    assert txins[..i] + [] == txins;
    return Ok(Decoded(txins, cur));
  }


  // ---------------------------------------------------------------------
  // Transactions

  /** Version, then inputs. A non-empty input list means the legacy layout:
      outputs and lock time follow. An empty one is the witness marker: a
      flag byte that must be 1, the real inputs, the outputs, one witness per
      input, and the lock time, which is not read when inputs exist and every
      witness is empty. */
  function DecodeTransaction(s: seq<u8>): (r: Result<Decoded<Transaction>>)
    ensures r.Err? ==> || r.error == Io
                       || (r.error.UnsupportedSegwitFlag? && r.error.flag != 1)
                       || r.error == ParseFailed(WitnessMissing)
  {
    var version :- DecodeU32(s);
    var inputs :- DecodeInputs(version.rest);
    if inputs.item == [] then
      var flag :- DecodeU8(inputs.rest);
      if flag.item == 1 then
        var realInputs :- DecodeInputs(flag.rest);
        var outputs :- DecodeOutputs(realInputs.rest);
        var witnessed :- DecodeWitnesses(outputs.rest, realInputs.item);
        if witnessed.item != [] && NoWitnesses(witnessed.item) then
          Err(ParseFailed(WitnessMissing))
        else
          var lockTime :- DecodeU32(witnessed.rest);
          Ok(Decoded(Transaction(version.item, witnessed.item, outputs.item, lockTime.item), lockTime.rest))
      else
        Err(UnsupportedSegwitFlag(flag.item))
    else
      var outputs :- DecodeOutputs(inputs.rest);
      var lockTime :- DecodeU32(outputs.rest);
      Ok(Decoded(Transaction(version.item, inputs.item, outputs.item, lockTime.item), lockTime.rest))
  }

  method ReadTransaction(s: seq<u8>) returns (r: Result<Decoded<Transaction>>)
    ensures r == DecodeTransaction(s)
  {
    var version :- DecodeU32(s);
    var inputs :- ReadInputs(version.rest);
    if inputs.item != [] {
      var outputs :- ReadOutputs(inputs.rest);
      var lockTime :- DecodeU32(outputs.rest);
      return Ok(Decoded(Transaction(version.item, inputs.item, outputs.item, lockTime.item), lockTime.rest));
    }
    var flag :- DecodeU8(inputs.rest);
    if flag.item != 1 {
      return Err(UnsupportedSegwitFlag(flag.item));
    }
    var realInputs :- ReadInputs(flag.rest);
    var outputs :- ReadOutputs(realInputs.rest);
    var witnessed :- ReadWitnesses(outputs.rest, realInputs.item);
    if witnessed.item != [] && NoWitnesses(witnessed.item) {
      return Err(ParseFailed(WitnessMissing));
    }
    var lockTime :- DecodeU32(witnessed.rest);
    return Ok(Decoded(Transaction(version.item, witnessed.item, outputs.item, lockTime.item), lockTime.rest));
  }

  /** `Transaction::new`: decode the whole buffer; bytes after the lock time
      are left unread. */
  function TransactionNew(raw: seq<u8>): (r: Result<Transaction>)
    ensures r.Ok? <==> DecodeTransaction(raw).Ok?
    ensures r.Ok? ==> r.value == DecodeTransaction(raw).value.item
    ensures r.Err? ==> r.error == DecodeTransaction(raw).error
  {
    var d :- DecodeTransaction(raw);
    Ok(d.item)
  }
}
