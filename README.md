# Bitcoin transaction codec and transaction identifier, in Dafny

This project models the core of `transaction-decoder`, a small Rust program
that reads a raw Bitcoin transaction, decodes it into records, and computes
its transaction identifier (txid). The model covers three things.

- **The binary codec.** Decoders and encoders exist for:
  - little-endian `u8`/`u16`/`u32`/`u64`;
  - the CompactSize variable-length integer;
  - length-prefixed scripts, which the program holds in memory as lower-case hex text;
  - inputs, outputs, the per-input witness stacks, and whole transactions.
- **The txid.** The transaction is re-serialised in the legacy (no-witness) layout and hashed twice with SHA-256.
- **The records** the codec builds.

A reader is the slice of bytes not yet read, threaded through the decoders
as a value. Every read is `read_exact`, so a decoder either returns its value
together with the rest of the slice, or fails with `Io` and yields nothing.

Each decoder is specified by a function. Where the source loops, the
decoder is also a method that loops as the source does and is proved equal
to its function:
- the counted lists of inputs, outputs and witness items;
- the assignment of one witness per input.

Each encoder is a function giving its bytes. The CompactSize, script, input
and output encoders and both list encoders also have a method that appends
to the writer and counts what it appended. The fixed-width integer encoders
have no method of their own: the methods above append their bytes and add
their width to the count inline. The writer is an in-memory vector, so
writes cannot fail.

The transaction decoder accepts two layouts, and the model keeps the
program's choices between them exactly as written:
- **Legacy:** a non-empty input list follows the version.
- **Witness:** loosely the layout of BIP 144, with three quirks.
  - The marker is an input count of zero in any CompactSize form (`00`, but also `FD 00 00` and the wider forms); it must be followed by a flag byte equal to 1.
  - A witness stack's item count is a single byte, not a CompactSize.
  - If inputs exist and all their witnesses are empty, decoding fails with `ParseFailed` before the lock time is read.

The main results are these:
- Round trips from value to bytes and back, for every encoder. The witness section has no encoder in the source, so a reference layout (`WitnessLayout`) stands in for one.
- The converse, bytes to value to bytes, for a legacy transaction whose CompactSizes are minimal. With a non-minimal CompactSize the converse fails. The model shows that for a single CompactSize (`Canonical.CompactSizeReencode`, `RoundTrip.NonMinimalCompactSize`), not for a whole transaction.
- The exact error each malformed marker, flag or witness section produces. A transaction cut anywhere before the end of its lock time fails with `Io`, never with a shorter transaction or another error.
- Every decoder reads a prefix of its input: what it leaves unread is a suffix of the input, and appending bytes to the input changes only what is left unread. So bytes after the lock time are never read and never rejected.
- The txid is the same for transactions that differ only in their witnesses.
- Anything the decoder returns can be serialised again, so computing its txid never panics.

Files and modules:

| file | module | contents |
|---|---|---|
| bytes.dfy | `Bytes` | fixed-width integers, little-endian conversion |
| hex.dfy | `Hex` | hex text encoding and decoding |
| errors.dfy | `Errors` | the error kinds, decoder results |
| types.dfy | `Types` | the records |
| decode.dfy | `Decode` | decoders (functions and loop methods) |
| encode.dfy | `Encode` | encoders (functions and counting methods) |
| roundtrip.dfy | `RoundTrip` | decode after encode, field by field |
| witness_layout.dfy | `WitnessLayout` | the witness section layout and its round trip |
| txid.dfy | `Txid` | preimage, double hash, witness invariance |
| layouts.dfy | `Layouts` | both transaction layouts, error cases |
| canonical.dfy | `Canonical` | encode after decode for minimal CompactSizes |
| extension.dfy | `Extension` | decoders read a prefix and ignore what follows |

## Model

| member | source | states |
|---|---|---|
| `Bytes.ToLe` | src/encode_decode.rs:232-254 | the `n` little-endian bytes of a value below 256^n: there are exactly `n` of them and they read back as that value |
| `Bytes.ToLeFromLe` | src/encode_decode.rs:27-58 | writing back the value read from any byte string restores that byte string (little-endian is a bijection) |
| `Hex.HexEncode` | src/encode_decode.rs:93 | `hex::encode` gives two lower-case digits per byte |
| `Hex.HexDecode` | src/encode_decode.rs:265 | `hex::decode` succeeds only on even-length text, giving half as many bytes |
| `Hex.DecodeEncode` | src/encode_decode.rs:85-95 | hex-decoding the text a script decode produced gives back the script bytes |
| `Hex.EncodeDecode` | src/encode_decode.rs:263-269 | lower-case hex text decodes, and encoding the bytes gives back the same text |
| `Types.Amount.FromSat` | src/types.rs:57-59 | the amount holds the satoshi count unchanged |
| `Types.Witness.New` | src/types.rs:66-68 | a new witness is empty |
| `Types.EmptyItemIsAnItem` | src/types.rs:70-72 | emptiness counts items: a witness with one zero-length item is not empty, a new one is |
| `Decode.ReadExact` | src/encode_decode.rs:91-92 | succeeds exactly when `n` bytes remain; then it splits off exactly `n` bytes; otherwise `Io` |
| `Decode.DecodeU8` | src/encode_decode.rs:16-25 | succeeds iff a byte remains, yields it and advances by one; otherwise `Io` |
| `Decode.DecodeU16` | src/encode_decode.rs:27-36 | succeeds iff 2 bytes remain; value is their little-endian reading; advances by 2; otherwise `Io` |
| `Decode.DecodeU32` | src/encode_decode.rs:38-47 | as for `u16`, with 4 bytes |
| `Decode.DecodeU64` | src/encode_decode.rs:49-58 | as for `u16`, with 8 bytes |
| `Decode.DecodeTxId` | src/encode_decode.rs:145-154 | succeeds iff 32 bytes remain; the identifier is those 32 bytes in wire order; otherwise `Io` |
| `Decode.DecodeCompactSize` | src/encode_decode.rs:60-83 | succeeds iff the first byte and the 0, 2, 4 or 8 bytes it announces are present. A first byte below 0xFD is the value. 0xFD/0xFE/0xFF give the little-endian value of the next 2/4/8 bytes. It consumes 1/3/5/9 bytes. Otherwise `Io` |
| `Decode.DecodeByteString` | src/encode_decode.rs:134-137 | succeeds iff the CompactSize length decodes and that many bytes follow it; yields exactly those bytes; otherwise `Io` |
| `Decode.DecodeScript` | src/encode_decode.rs:85-95 | succeeds iff the byte string does; yields lower-case hex text that decodes back to exactly those bytes; otherwise `Io` |
| `Decode.DecodeList` | src/encode_decode.rs:104-106 | a counted list decode that succeeds holds exactly the announced number of elements |
| `Decode.ReadList` | src/encode_decode.rs:103-107 | the push loop returns what `DecodeList` specifies: every element in order, or the first element error |
| `Decode.DecodeListIo` | src/encode_decode.rs:105 | a list decode fails only with the errors its element decoder fails with (here `Io`) |
| `Decode.DecodeListAll` | src/encode_decode.rs:97-168 | a property every decoded element has holds of every element of the decoded list |
| `Decode.DecodeListCons` | src/encode_decode.rs:104-106 | an element read in front of a list of `n - 1` is a list of `n` |
| `Decode.DecodeInput` | src/encode_decode.rs:111-124 | a decoded input has an empty witness and hex script text; it consumes at least 41 bytes; failures are `Io` |
| `Decode.DecodeInputs` | src/encode_decode.rs:97-109 | a decoded input list holds exactly the count read first. Its inputs all have empty witnesses and hex scripts. Failures are `Io` |
| `Decode.ReadInputs` | src/encode_decode.rs:97-109 | the loop decodes exactly what `DecodeInputs` specifies |
| `Decode.DecodeOutput` | src/encode_decode.rs:170-180 | a decoded output has hex script text; it consumes at least 9 bytes; failures are `Io` |
| `Decode.DecodeOutputs` | src/encode_decode.rs:156-168 | a decoded output list holds exactly the count read first; its scripts are hex text; failures are `Io` |
| `Decode.ReadOutputs` | src/encode_decode.rs:156-168 | the loop decodes exactly what `DecodeOutputs` specifies |
| `Decode.DecodeWitness` | src/encode_decode.rs:126-143 | the item count is the single first byte, so at most 255 items; each item is shorter than 2^64; failures are `Io` |
| `Decode.ReadWitness` | src/encode_decode.rs:126-143 | the loop decodes exactly what `DecodeWitness` specifies |
| `Decode.DecodeWitnesses` | src/encode_decode.rs:195-197 | one witness is attached per input, in order, and everything else about each input is unchanged; failures are `Io` |
| `Decode.ReadWitnesses` | src/encode_decode.rs:193-197 | the in-place assignment loop gives exactly what `DecodeWitnesses` specifies |
| `Decode.DecodeTransaction` | src/encode_decode.rs:182-223 | the only failures are: `Io`; `UnsupportedSegwitFlag(x)` with `x != 1`; `ParseFailed` with the witness-missing message |
| `Decode.ReadTransaction` | src/encode_decode.rs:182-223 | the decoding steps give exactly what `DecodeTransaction` specifies, in both layouts and on every error path |
| `Decode.TransactionNew` | src/types.rs:50-54 | `Transaction::new` succeeds exactly when decoding the whole buffer does, with the same transaction or the same error; that trailing bytes are ignored is `Extension.TransactionNewIgnoresTrailing` |
| `Encode.U16Bytes` | src/encode_decode.rs:232-238 | two bytes whose little-endian reading is the value |
| `Encode.U32Bytes` | src/encode_decode.rs:240-246 | four bytes whose little-endian reading is the value |
| `Encode.U64Bytes` | src/encode_decode.rs:248-254 | eight bytes whose little-endian reading is the value |
| `Encode.CompactSizeBytes` | src/encode_decode.rs:272-296 | the narrowest form: one byte for values up to 0xFC; otherwise 0xFD + 2, 0xFE + 4 or 0xFF + 8 bytes holding the value by range |
| `Encode.WriteCompactSize` | src/encode_decode.rs:272-296 | appends exactly the CompactSize bytes; the count it returns (1, 3, 5 or 9 by range) is the number of bytes appended |
| `Encode.WriteScript` | src/encode_decode.rs:263-270 | for valid hex, appends the CompactSize length of the decoded bytes then the bytes; returns the number appended |
| `Encode.WriteInput` | src/encode_decode.rs:315-324 | appends identifier, output index, script and sequence and never the witness; the running count is the number appended |
| `Encode.WriteInputs` | src/encode_decode.rs:298-307 | appends the CompactSize count then each input in order; the accumulated count is the number appended |
| `Encode.WriteOutput` | src/encode_decode.rs:344-351 | appends the amount then the script; the running count is the number appended |
| `Encode.WriteOutputs` | src/encode_decode.rs:326-335 | appends the CompactSize count then each output in order; the accumulated count is the number appended |
| `RoundTrip.U16RoundTrip` | src/encode_decode.rs:27-36 | decoding an encoded `u16` gives it back and leaves what followed |
| `RoundTrip.U32RoundTrip` | src/encode_decode.rs:38-47 | the same for `u32` |
| `RoundTrip.U64RoundTrip` | src/encode_decode.rs:49-58 | the same for `u64` |
| `RoundTrip.CompactSizeRoundTrip` | src/encode_decode.rs:60-83 | decoding an encoded CompactSize gives it back and leaves what followed |
| `RoundTrip.NonMinimalCompactSize` | src/encode_decode.rs:76-79 | decode accepts the non-minimal `FD 05 00` as 5, which the encoder writes as the single byte `05` |
| `RoundTrip.ScriptTextIsValid` | src/encode_decode.rs:265 | script text as decode produces it never makes the encoder panic, and re-encodes unchanged |
| `RoundTrip.ByteStringRoundTrip` | src/encode_decode.rs:134-137 | a CompactSize length followed by that many bytes decodes to those bytes |
| `RoundTrip.ScriptRoundTrip` | src/encode_decode.rs:85-95 | decoding an encoded script gives back the same hex text |
| `RoundTrip.InputRoundTrip` | src/encode_decode.rs:111-124 | decoding an encoded input (hex script, empty witness) gives it back |
| `RoundTrip.OutputRoundTrip` | src/encode_decode.rs:170-180 | decoding an encoded output gives it back |
| `RoundTrip.InputListRoundTrip` | src/encode_decode.rs:302-304 | the encoded inputs, read back as a counted list, are the same inputs in the same order |
| `RoundTrip.InputsRoundTrip` | src/encode_decode.rs:298-307 | decoding an encoded `Vec<TxIn>` gives it back |
| `RoundTrip.OutputListRoundTrip` | src/encode_decode.rs:330-332 | the encoded outputs, read back as a counted list, are the same outputs in the same order |
| `RoundTrip.OutputsRoundTrip` | src/encode_decode.rs:326-335 | decoding an encoded `Vec<TxOut>` gives it back |
| `WitnessLayout.ItemsRoundTrip` | src/encode_decode.rs:133-138 | length-prefixed items, read back as a counted list, are the same items |
| `WitnessLayout.WitnessRoundTrip` | src/encode_decode.rs:126-143 | a witness of fewer than 256 items, laid out with a one-byte count, decodes back to itself |
| `WitnessLayout.WitnessListRoundTrip` | src/encode_decode.rs:195-197 | reading one witness per input restores every witness, in order, onto inputs that lacked them |
| `Txid.FromHash` | src/transaction.rs:25-27 | the identifier holds the digest bytes unchanged, without reversal |
| `Txid.FromRawTransaction` | src/transaction.rs:29-39 | the identifier is SHA-256 applied to the SHA-256 digest of the bytes |
| `Txid.ComputeTxid` | src/transaction.rs:6-21 | the identifier is the double hash of version, inputs, outputs and lock time in the legacy layout |
| `Txid.InputListIgnoresWitness` | src/encode_decode.rs:315-324 | two input lists that differ only in witnesses encode to the same bytes |
| `Txid.PreimageIgnoresWitness` | src/transaction.rs:11-13 | two transactions that differ only in witnesses have the same preimage, hence the same txid |
| `Layouts.PreimageRoundTrip` | src/encode_decode.rs:214-221 | a witness-free transaction with inputs decodes back from its preimage, and what follows the lock time is left unread |
| `Layouts.SegwitRoundTrip` | src/encode_decode.rs:189-209 | the witness layout decodes back to the transaction with all witnesses, if it has no inputs or at least one witness |
| `Layouts.MissingWitnesses` | src/encode_decode.rs:198-201 | flag 1, inputs present and every witness empty fail with `ParseFailed` whatever follows, so the lock time is never read |
| `Layouts.UnsupportedFlag` | src/encode_decode.rs:211-212 | a zero input count followed by a flag byte other than 1 fails with `UnsupportedSegwitFlag` carrying that byte |
| `Layouts.ZeroCountIsMarker` | src/encode_decode.rs:187-190 | a zero input count in any CompactSize form reads as no inputs, and a following flag byte other than 1 fails with `UnsupportedSegwitFlag` carrying that byte |
| `Layouts.LongMarker` | src/encode_decode.rs:188-190 | the non-minimal zero count `FD 00 00` is taken as the marker too |
| `Layouts.EmptyInputsPreimage` | src/encode_decode.rs:187-190 | a transaction with no inputs and any output count up to 252 other than 1 has a preimage that does not decode: its output count is read as the flag |
| `Layouts.DecodedIsEncodable` | src/transaction.rs:6-21 | everything decode returns has valid hex scripts, countable lists and witnesses that fit the layout, so its txid can be computed without a panic |
| `Extension.ReadExactExtends` | src/encode_decode.rs:91-92 | a successful `read_exact` leaves a suffix of its input unread; on a longer input it reads the same bytes and leaves that suffix followed by the extra bytes |
| `Extension.CompactSizeExtends` | src/encode_decode.rs:60-83 | the same for a CompactSize |
| `Extension.ByteStringExtends` | src/encode_decode.rs:134-137 | the same for a length-prefixed byte string |
| `Extension.InputExtends` | src/encode_decode.rs:111-124 | the same for an input |
| `Extension.OutputExtends` | src/encode_decode.rs:170-180 | the same for an output |
| `Extension.ListExtends` | src/encode_decode.rs:97-168 | if every element read has this property, a counted list of them has it too |
| `Extension.InputsExtend` | src/encode_decode.rs:97-109 | the same for a `Vec<TxIn>` |
| `Extension.OutputsExtend` | src/encode_decode.rs:156-168 | the same for a `Vec<TxOut>` |
| `Extension.WitnessExtends` | src/encode_decode.rs:126-143 | the same for a witness |
| `Extension.WitnessesExtend` | src/encode_decode.rs:195-197 | the same for one witness per input |
| `Extension.TransactionExtends` | src/encode_decode.rs:182-223 | a decoded transaction, in either layout, is read from a prefix of the input: the rest is a suffix, and appending bytes gives the same transaction with those bytes left unread |
| `Extension.TransactionNewIgnoresTrailing` | src/types.rs:50-54 | bytes appended to a buffer that `Transaction::new` accepts do not change its result |
| `Extension.FlagKeeps` | src/encode_decode.rs:189-212 | a zero input count followed by a flag other than 1 gives `UnsupportedSegwitFlag` with that byte whatever bytes are appended |
| `Extension.MissingKeeps` | src/encode_decode.rs:193-202 | with flag 1, inputs present and every witness empty, the `ParseFailed` error stays the same whatever bytes are appended |
| `Extension.TransactionKeepsError` | src/encode_decode.rs:182-223 | an error other than `Io` is decided by bytes already read: the same input with bytes appended fails with the same error |
| `Extension.TruncatedIsIo` | src/encode_decode.rs:182-223 | a valid transaction cut at any byte before the end of its lock time fails to decode with `Io`, never with a shorter result, a flag error or a parse error |
| `Canonical.U32Reencode` | src/encode_decode.rs:38-47 | re-encoding a decoded `u32` restores exactly the bytes it was read from |
| `Canonical.U64Reencode` | src/encode_decode.rs:49-58 | the same for `u64` |
| `Canonical.CompactSizeReencode` | src/encode_decode.rs:60-83 | a decoded CompactSize re-encodes to its bytes if and only if it was in its narrowest form |
| `Canonical.ScriptReencode` | src/encode_decode.rs:85-95 | a decoded script with a minimal length re-encodes to the bytes it was read from |
| `Canonical.InputReencode` | src/encode_decode.rs:111-124 | the same for an input |
| `Canonical.OutputReencode` | src/encode_decode.rs:170-180 | the same for an output |
| `Canonical.InputListReencode` | src/encode_decode.rs:104-106 | the same for a counted list of inputs |
| `Canonical.OutputListReencode` | src/encode_decode.rs:163-166 | the same for a counted list of outputs |
| `Canonical.InputsReencode` | src/encode_decode.rs:97-109 | a decoded `Vec<TxIn>` with minimal CompactSizes re-encodes to its bytes |
| `Canonical.OutputsReencode` | src/encode_decode.rs:156-168 | a decoded `Vec<TxOut>` with minimal CompactSizes re-encodes to its bytes |
| `Canonical.LayoutOfResult` | src/encode_decode.rs:187-221 | a transaction was read in the legacy layout if and only if the result has inputs and none of them has a witness |
| `Canonical.ConsumedIsPreimage` | src/transaction.rs:7-19 | for a legacy transaction with minimal CompactSizes, the preimage is exactly the bytes decode consumed |
| `Canonical.TxidOfConsumedBytes` | src/transaction.rs:6-21 | the txid of such a transaction is the double hash of the input bytes up to and including its lock time |

## Left out

- SHA-256 is not modelled. The hash is a parameter of the txid functions: any function from bytes to 32 bytes.
- Only one I/O failure is modelled: a `read_exact` that runs out of bytes. On an in-memory slice no other read error exists.
- Writes are plain appends. The writer is always an in-memory `Vec`, so a `write` takes every byte. For that reason the ignored return values of the prefix writes (src/encode_decode.rs:280, 285, 290) lose nothing.
- The encoders' `.expect` on write results is not modelled (src/transaction.rs:10-19), because appends cannot fail.
- The `u8`, `[u8; 32]`, `TxID` and `Amount` encoders (src/encode_decode.rs:225-230, 256-261, 309-313, 337-342) have no members of their own. Each is a single append, written inline where it is used.
- The `u16`, `u32` and `u64` encoders are modelled by their bytes only (`Encode.U16Bytes`, `Encode.U32Bytes`, `Encode.U64Bytes`). They have no appending method: `Encode.WriteCompactSize`, `Encode.WriteInput` and `Encode.WriteOutput` append those bytes and add their width to the count inline, and `Txid.ComputeTxid` appends them for the version and lock time.
- `Encode.WriteScript`: the `hex::decode(...).expect` panic on text that is not valid hex becomes a precondition (`ValidScript`). `Layouts.DecodedIsEncodable` shows that decoded transactions always meet it.
- The `usize` to `u64` casts of lengths (src/encode_decode.rs:266, 301, 329) are modelled as preconditions that lengths are below 2^64.
- The `u64` to `usize` casts in the decoders (src/encode_decode.rs:91, 135) are not modelled. Lengths are unbounded integers here, as on a 64-bit target.
- Allocation is not modelled: `Vec::with_capacity` and `vec![0; len]` sizing, and failure on huge announced counts.
- The source has no witness encoder. `WitnessLayout.WitnessBytes` is a reference layout for stating the witness round trip, not a model of source code.
- `RawTransaction::new` (src/types.rs:44-48) is a call into the `hex` crate and is not part of this model.
- `Amount::to_btc` is floating-point division and is not part of this model.
- src/serialization.rs (JSON rendering, displayed txid byte reversal), src/lib.rs and src/main.rs are plumbing around the core and are not part of this model.
- The `Display` text of errors is not modelled. `ParseFailed` keeps its message as a string constant.
- Witness assignment through `iter_mut` (src/encode_decode.rs:195-197) is modelled as an element update of a sequence held in a local variable. Aliasing of the vector is not modelled.
