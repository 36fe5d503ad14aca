/** Every decoder reads a prefix of its input and nothing beyond it: what it
    leaves unread is a suffix of the input, and appending bytes to the input
    changes nothing but what is left unread. In particular the bytes after a
    transaction's lock time are never read and never rejected. */
module Extension {
  import opened Bytes
  import opened Errors
  import opened Types
  import opened Decode
  import opened Layouts

  /** `a` is what is left of `b` once a prefix is read. */
  predicate IsSuffix(a: seq<u8>, b: seq<u8>) {
    |a| <= |b| && b[|b| - |a|..] == a
  }

  lemma SuffixTrans(a: seq<u8>, b: seq<u8>, c: seq<u8>)
    requires IsSuffix(a, b) && IsSuffix(b, c)
    ensures IsSuffix(a, c)
  {
    assert c[|c| - |a|..] == c[|c| - |b|..][|b| - |a|..];
  }

  /** The result `r` read from `s`, with `e` appended to what it left unread. */
  function Shift<T>(r: Result<Decoded<T>>, e: seq<u8>): (p: Result<Decoded<T>>)
    ensures p.Ok? <==> r.Ok?
    ensures p.Err? ==> p.error == r.error
  {
    match r
    case Ok(d) => Ok(Decoded(d.item, d.rest + e))
    case Err(x) => Err(x)
  }

  /** `r` was read from `s` and `r2` from `s + e`: if the first succeeded, it
      left a suffix of `s` unread and the second read the same value,
      leaving that suffix followed by `e`. */
  ghost predicate Extends<T>(s: seq<u8>, e: seq<u8>, r: Result<Decoded<T>>, r2: Result<Decoded<T>>) {
    r.Ok? ==> IsSuffix(r.value.rest, s) && r2 == Shift(r, e)
  }

  /** An element decoder for which `Extends` holds on every input. */
  ghost predicate Extensible<T>(item: seq<u8> -> Result<Decoded<T>>) {
    forall t, e {:trigger Extends(t, e, item(t), item(t + e))} :: Extends(t, e, item(t), item(t + e))
  }

  // ---------------------------------------------------------------------
  // Fixed-width reads

  lemma ReadExactExtends(s: seq<u8>, n: nat, e: seq<u8>)
    ensures Extends(s, e, ReadExact(s, n), ReadExact(s + e, n))
  {
    if n <= |s| {
      assert (s + e)[..n] == s[..n];
      assert (s + e)[n..] == s[n..] + e;
    }
  }

  lemma U8Extends(s: seq<u8>, e: seq<u8>)
    ensures Extends(s, e, DecodeU8(s), DecodeU8(s + e))
  {
    ReadExactExtends(s, 1, e);
  }

  lemma U16Extends(s: seq<u8>, e: seq<u8>)
    ensures Extends(s, e, DecodeU16(s), DecodeU16(s + e))
  {
    ReadExactExtends(s, 2, e);
  }

  lemma U32Extends(s: seq<u8>, e: seq<u8>)
    ensures Extends(s, e, DecodeU32(s), DecodeU32(s + e))
  {
    ReadExactExtends(s, 4, e);
  }

  lemma U64Extends(s: seq<u8>, e: seq<u8>)
    ensures Extends(s, e, DecodeU64(s), DecodeU64(s + e))
  {
    ReadExactExtends(s, 8, e);
  }

  lemma TxIdExtends(s: seq<u8>, e: seq<u8>)
    ensures Extends(s, e, DecodeTxId(s), DecodeTxId(s + e))
  {
    ReadExactExtends(s, 32, e);
  }

  lemma CompactSizeExtends(s: seq<u8>, e: seq<u8>)
    ensures Extends(s, e, DecodeCompactSize(s), DecodeCompactSize(s + e))
  {
    U8Extends(s, e);
    if DecodeU8(s).Ok? {
      var n := DecodeU8(s).value;
      if n.item == 0xFF {
        U64Extends(n.rest, e);
        if DecodeU64(n.rest).Ok? { SuffixTrans(DecodeU64(n.rest).value.rest, n.rest, s); }
      } else if n.item == 0xFE {
        U32Extends(n.rest, e);
        if DecodeU32(n.rest).Ok? { SuffixTrans(DecodeU32(n.rest).value.rest, n.rest, s); }
      } else if n.item == 0xFD {
        U16Extends(n.rest, e);
        if DecodeU16(n.rest).Ok? { SuffixTrans(DecodeU16(n.rest).value.rest, n.rest, s); }
      }
    }
  }

  // ---------------------------------------------------------------------
  // Byte strings, scripts, inputs and outputs

  lemma ByteStringExtends(s: seq<u8>, e: seq<u8>)
    ensures Extends(s, e, DecodeByteString(s), DecodeByteString(s + e))
  {
    CompactSizeExtends(s, e);
    if DecodeCompactSize(s).Ok? {
      var len := DecodeCompactSize(s).value;
      ReadExactExtends(len.rest, len.item.value as nat, e);
      if ReadExact(len.rest, len.item.value as nat).Ok? {
        SuffixTrans(ReadExact(len.rest, len.item.value as nat).value.rest, len.rest, s);
      }
    }
  }

  lemma ScriptExtends(s: seq<u8>, e: seq<u8>)
    ensures Extends(s, e, DecodeScript(s), DecodeScript(s + e))
  {
    ByteStringExtends(s, e);
  }

  lemma InputExtends(s: seq<u8>, e: seq<u8>)
    ensures Extends(s, e, DecodeInput(s), DecodeInput(s + e))
  {
    if DecodeInput(s).Ok? {
      var id := DecodeTxId(s).value;
      var index := DecodeU32(id.rest).value;
      var script := DecodeScript(index.rest).value;
      var sequence := DecodeU32(script.rest).value;
      TxIdExtends(s, e);
      U32Extends(id.rest, e);
      ScriptExtends(index.rest, e);
      U32Extends(script.rest, e);
      SuffixTrans(index.rest, id.rest, s);
      SuffixTrans(script.rest, index.rest, s);
      SuffixTrans(sequence.rest, script.rest, s);
    }
  }

  lemma OutputExtends(s: seq<u8>, e: seq<u8>)
    ensures Extends(s, e, DecodeOutput(s), DecodeOutput(s + e))
  {
    if DecodeOutput(s).Ok? {
      var amount := DecodeU64(s).value;
      U64Extends(s, e);
      ScriptExtends(amount.rest, e);
      SuffixTrans(DecodeScript(amount.rest).value.rest, amount.rest, s);
    }
  }

  // ---------------------------------------------------------------------
  // Lists

  /** A counted list of an extensible element decoder is extensible. */
  lemma {:induction false} ListExtends<T>(item: seq<u8> -> Result<Decoded<T>>, s: seq<u8>, e: seq<u8>, n: nat)
    requires Extensible(item)
    ensures Extends(s, e, DecodeList(item, s, n), DecodeList(item, s + e, n))
    decreases n
  {
    if n == 0 {
      assert s[|s| - |s|..] == s;
    } else if item(s).Ok? {
      var x := item(s).value;
      assert Extends(s, e, item(s), item(s + e));
      ListExtends(item, x.rest, e, n - 1);
      if DecodeList(item, x.rest, n - 1).Ok? {
        SuffixTrans(DecodeList(item, x.rest, n - 1).value.rest, x.rest, s);
      }
    }
  }

  lemma InputsExtend(s: seq<u8>, e: seq<u8>)
    ensures Extends(s, e, DecodeInputs(s), DecodeInputs(s + e))
  {
    CompactSizeExtends(s, e);
    if DecodeCompactSize(s).Ok? {
      var count := DecodeCompactSize(s).value;
      forall t, f ensures Extends(t, f, DecodeInput(t), DecodeInput(t + f)) {
        InputExtends(t, f);
      }
      ListExtends(DecodeInput, count.rest, e, count.item.value as nat);
      if DecodeList(DecodeInput, count.rest, count.item.value as nat).Ok? {
        SuffixTrans(DecodeList(DecodeInput, count.rest, count.item.value as nat).value.rest, count.rest, s);
      }
    }
  }

  lemma OutputsExtend(s: seq<u8>, e: seq<u8>)
    ensures Extends(s, e, DecodeOutputs(s), DecodeOutputs(s + e))
  {
    CompactSizeExtends(s, e);
    if DecodeCompactSize(s).Ok? {
      var count := DecodeCompactSize(s).value;
      forall t, f ensures Extends(t, f, DecodeOutput(t), DecodeOutput(t + f)) {
        OutputExtends(t, f);
      }
      ListExtends(DecodeOutput, count.rest, e, count.item.value as nat);
      if DecodeList(DecodeOutput, count.rest, count.item.value as nat).Ok? {
        SuffixTrans(DecodeList(DecodeOutput, count.rest, count.item.value as nat).value.rest, count.rest, s);
      }
    }
  }

  // ---------------------------------------------------------------------
  // Witnesses

  lemma WitnessExtends(s: seq<u8>, e: seq<u8>)
    ensures Extends(s, e, DecodeWitness(s), DecodeWitness(s + e))
  {
    U8Extends(s, e);
    if DecodeU8(s).Ok? {
      var count := DecodeU8(s).value;
      forall t, f ensures Extends(t, f, DecodeByteString(t), DecodeByteString(t + f)) {
        ByteStringExtends(t, f);
      }
      ListExtends(DecodeByteString, count.rest, e, count.item as nat);
      if DecodeList(DecodeByteString, count.rest, count.item as nat).Ok? {
        SuffixTrans(DecodeList(DecodeByteString, count.rest, count.item as nat).value.rest, count.rest, s);
      }
    }
  }

  lemma {:induction false} WitnessesExtend(s: seq<u8>, inputs: seq<TxIn>, e: seq<u8>)
    ensures Extends(s, e, DecodeWitnesses(s, inputs), DecodeWitnesses(s + e, inputs))
    decreases |inputs|
  {
    if inputs == [] {
      assert s[|s| - |s|..] == s;
    } else if DecodeWitness(s).Ok? {
      var w := DecodeWitness(s).value;
      WitnessExtends(s, e);
      WitnessesExtend(w.rest, inputs[1..], e);
      if DecodeWitnesses(w.rest, inputs[1..]).Ok? {
        SuffixTrans(DecodeWitnesses(w.rest, inputs[1..]).value.rest, w.rest, s);
      }
    }
  }

  // ---------------------------------------------------------------------
  // Transactions

  /** The witness layout read step by step, as the decoder reads it. */
  lemma SegwitOf(s: seq<u8>, v: u32, t1: seq<u8>, t2: seq<u8>, t3: seq<u8>, xs: seq<TxIn>, t4: seq<u8>,
                 ys: seq<TxOut>, t5: seq<u8>, ws: seq<TxIn>, t6: seq<u8>, lockTime: u32, rest: seq<u8>)
    requires DecodeU32(s) == Ok(Decoded(v, t1))
    requires DecodeInputs(t1) == Ok(Decoded([], t2))
    requires DecodeU8(t2) == Ok(Decoded(1, t3))
    requires DecodeInputs(t3) == Ok(Decoded(xs, t4))
    requires DecodeOutputs(t4) == Ok(Decoded(ys, t5))
    requires DecodeWitnesses(t5, xs) == Ok(Decoded(ws, t6))
    requires ws == [] || !NoWitnesses(ws)
    requires DecodeU32(t6) == Ok(Decoded(lockTime, rest))
    ensures DecodeTransaction(s) == Ok(Decoded(Transaction(v, ws, ys, lockTime), rest))
  {
  }

  lemma LegacyExtends(s: seq<u8>, e: seq<u8>)
    requires DecodeTransaction(s).Ok? && DecodeU32(s).Ok?
    requires DecodeInputs(DecodeU32(s).value.rest).Ok? && DecodeInputs(DecodeU32(s).value.rest).value.item != []
    ensures Extends(s, e, DecodeTransaction(s), DecodeTransaction(s + e))
  {
    var v := DecodeU32(s).value;
    var i := DecodeInputs(v.rest).value;
    var o := DecodeOutputs(i.rest).value;
    var l := DecodeU32(o.rest).value;
    LegacyFrom(s, v.item, v.rest, i.item, i.rest, o.item, o.rest, l.item, l.rest);
    U32Extends(s, e);
    InputsExtend(v.rest, e);
    OutputsExtend(i.rest, e);
    U32Extends(o.rest, e);
    SuffixTrans(i.rest, v.rest, s);
    SuffixTrans(o.rest, i.rest, s);
    SuffixTrans(l.rest, o.rest, s);
    LegacyFrom(s + e, v.item, v.rest + e, i.item, i.rest + e, o.item, o.rest + e, l.item, l.rest + e);
  }

  lemma SegwitExtends(s: seq<u8>, e: seq<u8>)
    requires DecodeTransaction(s).Ok? && DecodeU32(s).Ok?
    requires DecodeInputs(DecodeU32(s).value.rest).Ok? && DecodeInputs(DecodeU32(s).value.rest).value.item == []
    ensures Extends(s, e, DecodeTransaction(s), DecodeTransaction(s + e))
  {
    var v := DecodeU32(s).value;
    var i := DecodeInputs(v.rest).value;
    var f := DecodeU8(i.rest).value;
    var xs := DecodeInputs(f.rest).value;
    var o := DecodeOutputs(xs.rest).value;
    var w := DecodeWitnesses(o.rest, xs.item).value;
    var l := DecodeU32(w.rest).value;
    assert f.item == 1 && (w.item == [] || !NoWitnesses(w.item));
    SegwitOf(s, v.item, v.rest, i.rest, f.rest, xs.item, xs.rest, o.item, o.rest, w.item, w.rest, l.item, l.rest);
    U32Extends(s, e);
    InputsExtend(v.rest, e);
    U8Extends(i.rest, e);
    InputsExtend(f.rest, e);
    OutputsExtend(xs.rest, e);
    WitnessesExtend(o.rest, xs.item, e);
    U32Extends(w.rest, e);
    SuffixTrans(i.rest, v.rest, s);
    SuffixTrans(f.rest, i.rest, s);
    SuffixTrans(xs.rest, f.rest, s);
    SuffixTrans(o.rest, xs.rest, s);
    SuffixTrans(w.rest, o.rest, s);
    SuffixTrans(l.rest, w.rest, s);
    SegwitOf(s + e, v.item, v.rest + e, i.rest + e, f.rest + e, xs.item, xs.rest + e, o.item, o.rest + e,
             w.item, w.rest + e, l.item, l.rest + e);
  }

  /** A transaction is read from a prefix of its input, and appending bytes
      changes nothing but what is left unread. */
  lemma TransactionExtends(s: seq<u8>, e: seq<u8>)
    ensures Extends(s, e, DecodeTransaction(s), DecodeTransaction(s + e))
  {
    if DecodeTransaction(s).Ok? {
      if DecodeInputs(DecodeU32(s).value.rest).value.item == [] {
        SegwitExtends(s, e);
      } else {
        LegacyExtends(s, e);
      }
    }
  }

  /** `Transaction::new` ignores whatever follows a transaction it accepts. */
  lemma TransactionNewIgnoresTrailing(raw: seq<u8>, e: seq<u8>)
    requires TransactionNew(raw).Ok?
    ensures TransactionNew(raw + e) == TransactionNew(raw)
  {
    TransactionExtends(raw, e);
  }

  // ---------------------------------------------------------------------
  // Truncation

  /** An error other than `Io` is decided by bytes already read: appending
      bytes leaves it as it was. */
  ghost predicate KeepsError<T>(r: Result<Decoded<T>>, r2: Result<Decoded<T>>) {
    r.Err? && r.error != Io ==> r2 == r
  }

  /** The flag read after a zero input count, as the decoder reads it. */
  lemma FlagOf(s: seq<u8>, v: u32, t1: seq<u8>, t2: seq<u8>, flag: u8, t3: seq<u8>)
    requires DecodeU32(s) == Ok(Decoded(v, t1))
    requires DecodeInputs(t1) == Ok(Decoded([], t2))
    requires DecodeU8(t2) == Ok(Decoded(flag, t3)) && flag != 1
    ensures DecodeTransaction(s) == Err(UnsupportedSegwitFlag(flag))
  {
  }

  /** The witness layout up to the witnesses, all of them empty. */
  lemma MissingOf(s: seq<u8>, v: u32, t1: seq<u8>, t2: seq<u8>, t3: seq<u8>, xs: seq<TxIn>, t4: seq<u8>,
                  ys: seq<TxOut>, t5: seq<u8>, ws: seq<TxIn>, t6: seq<u8>)
    requires DecodeU32(s) == Ok(Decoded(v, t1))
    requires DecodeInputs(t1) == Ok(Decoded([], t2))
    requires DecodeU8(t2) == Ok(Decoded(1, t3))
    requires DecodeInputs(t3) == Ok(Decoded(xs, t4))
    requires DecodeOutputs(t4) == Ok(Decoded(ys, t5))
    requires DecodeWitnesses(t5, xs) == Ok(Decoded(ws, t6))
    requires ws != [] && NoWitnesses(ws)
    ensures DecodeTransaction(s) == Err(ParseFailed(WitnessMissing))
  {
  }

  lemma FlagKeeps(s: seq<u8>, e: seq<u8>, v: u32, t1: seq<u8>, t2: seq<u8>, flag: u8, t3: seq<u8>)
    requires DecodeU32(s) == Ok(Decoded(v, t1))
    requires DecodeInputs(t1) == Ok(Decoded([], t2))
    requires DecodeU8(t2) == Ok(Decoded(flag, t3)) && flag != 1
    ensures DecodeTransaction(s + e) == Err(UnsupportedSegwitFlag(flag))
  {
    U32Extends(s, e);
    InputsExtend(t1, e);
    U8Extends(t2, e);
    FlagOf(s + e, v, t1 + e, t2 + e, flag, t3 + e);
  }

  lemma MissingKeeps(s: seq<u8>, e: seq<u8>, v: u32, t1: seq<u8>, t2: seq<u8>, t3: seq<u8>, xs: seq<TxIn>,
                     t4: seq<u8>, ys: seq<TxOut>, t5: seq<u8>, ws: seq<TxIn>, t6: seq<u8>)
    requires DecodeU32(s) == Ok(Decoded(v, t1))
    requires DecodeInputs(t1) == Ok(Decoded([], t2))
    requires DecodeU8(t2) == Ok(Decoded(1, t3))
    requires DecodeInputs(t3) == Ok(Decoded(xs, t4))
    requires DecodeOutputs(t4) == Ok(Decoded(ys, t5))
    requires DecodeWitnesses(t5, xs) == Ok(Decoded(ws, t6))
    requires ws != [] && NoWitnesses(ws)
    ensures DecodeTransaction(s + e) == Err(ParseFailed(WitnessMissing))
  {
    U32Extends(s, e);
    InputsExtend(t1, e);
    U8Extends(t2, e);
    InputsExtend(t3, e);
    OutputsExtend(t4, e);
    WitnessesExtend(t5, xs, e);
    MissingOf(s + e, v, t1 + e, t2 + e, t3 + e, xs, t4 + e, ys, t5 + e, ws, t6 + e);
  }

  /** The flag error and the missing-witness error survive any appended bytes. */
  lemma TransactionKeepsError(s: seq<u8>, e: seq<u8>)
    ensures KeepsError(DecodeTransaction(s), DecodeTransaction(s + e))
  {
    var r := DecodeTransaction(s);
    if r.Err? && r.error != Io {
      var v := DecodeU32(s).value;
      var i := DecodeInputs(v.rest).value;
      var f := DecodeU8(i.rest).value;
      if f.item != 1 {
        FlagKeeps(s, e, v.item, v.rest, i.rest, f.item, f.rest);
      } else {
        var xs := DecodeInputs(f.rest).value;
        var o := DecodeOutputs(xs.rest).value;
        var w := DecodeWitnesses(o.rest, xs.item).value;
        MissingKeeps(s, e, v.item, v.rest, i.rest, f.rest, xs.item, xs.rest, o.item, o.rest, w.item, w.rest);
      }
    }
  }

  /** A transaction cut anywhere before the end of its lock time fails with
      `Io`: never with a shorter transaction, a flag error or a parse error. */
  lemma TruncatedIsIo(s: seq<u8>, k: nat)
    requires DecodeTransaction(s).Ok? && k < |s| - |DecodeTransaction(s).value.rest|
    ensures DecodeTransaction(s[..k]) == Err(Io)
  {
    var e := s[k..];
    assert s[..k] + e == s;
    TransactionExtends(s[..k], e);
    TransactionKeepsError(s[..k], e);
  }
}
