# Transaction integrity demo — a verified model

The app builds a toy transaction record, serializes it into canonical JSON bytes and gives it
an identifier, the hex of its double SHA-256. It signs the bytes with HMAC-SHA-256 under a
session key. It then checks the signature again after the user alters the memo: the stored
bytes are read back, the memo is replaced, and the record is serialized anew.

This project models that core in Dafny and proves what it promises.

- `Tx` models the record (`TxInput`, `TxOutput`, `Transaction`) and `Transaction.serialize`.
  - `SerializeText` is the text `serialize` writes and `Serialize` its UTF-8 bytes.
  - `DumpText` is the reference: `json.dumps` of the dict `serialize` builds, with sorted keys
    and compact separators. It is built from `Json` and `KeyOrder` and proved equal to
    `SerializeText`.
  - `Loads` reads the bytes back, as `json.loads` does for this output. `ReplaceMemo` is the
    read / replace memo / re-serialize step of verification.
- `Json` models the pieces of `json.dumps(..., ensure_ascii=False, separators=(",", ":"))` that
  the record uses, and their readers:
  - string literals with the escapes of RFC 8259 section 7 (only `"`, `\` and control
    characters are escaped; every other character is written as it is);
  - integers;
  - arrays and objects.
- `KeyOrder` models `sort_keys=True`: Python's string order, and the members of a dict sorted
  by key.
- `Utf8` models `str.encode("utf-8")` and strict decoding.
- `Hex` models `bytes.hex()`.
- `Crypto` models `sha256d`, `hmac_sha256` (RFC 2104 over a block of 64 bytes) and
  `Transaction.txid`. SHA-256 itself (FIPS 180-4) is a parameter `h: Bytes -> Digest`, so every
  result holds for any hash function. Where the app relies on SHA-256 being collision-free, the
  lemmas exhibit the collision that a failure would need.
- `Workflow` models the session state and its three actions.
  - The state is `priv_key`, `orig_signature` and `orig_serialization`, held in the class
    `Session`.
  - The actions are generate key, build & sign, and verify with the memo altered.
  - The random key and the clock become parameters.
  - `Session.Valid()` is the invariant the actions keep: the stored signature and serialization
    come together, and the signature is the HMAC of the stored bytes under the current key.

## Model

| member | source | states |
|---|---|---|
| Tx.Serialize | streamlit_app.py:45-53 | The bytes `serialize` returns: the UTF-8 encoding of `SerializeText`. Its properties are stated by `SerializeInjective`, `LoadsSerialize`, `DumpIsSerializeText`, `Compact` and `WsCountExact`. |
| Tx.Loads | streamlit_app.py:124 | `json.loads` of stored bytes: strict UTF-8 decoding, then `ParseText`. `LoadsSerialize` states that it inverts `Serialize`. |
| Tx.ReplaceMemo | streamlit_app.py:124-126 | Read back, replace the memo, dump again. `ReplaceMemoSerialize` states what it gives, and `DumpAnyInsertionOrder` shows that the dump of the dict read back is `Serialize` of the altered record. |
| Tx.SerializeInjective | streamlit_app.py:45-53 | Two records have the same serialization exactly when every field is equal. Changing any field, the memo included, changes the bytes. |
| Tx.LoadsSerialize | streamlit_app.py:124 | `json.loads` of `serialize`'s bytes gives back every field of the record. |
| Tx.ParseSerializeText | streamlit_app.py:53 | The JSON text that `serialize` writes reads back as the record. |
| Tx.DumpIsSerializeText | streamlit_app.py:45-53 | `json.dumps` of the dict `serialize` builds, with keys sorted at every level and compact separators, is exactly the layout `SerializeText` writes. |
| Tx.TopKeyOrder | streamlit_app.py:46-53 | The dict as `serialize` inserts its keys (`version`, `timestamp`, `vin`, `vout`, `memo`) comes out sorted as `memo`, `timestamp`, `version`, `vin`, `vout`. |
| Tx.DumpAnyInsertionOrder | streamlit_app.py:124-126 | A dict with the same members inserted in any order, such as the dict `json.loads` returns, comes out in that same sorted order and is written exactly as `SerializeText`. |
| Tx.InputDumpAnyOrder | streamlit_app.py:124-126 | An input's dict, with its two members inserted in either order, is written as `InputText`. |
| Tx.OutputDumpAnyOrder | streamlit_app.py:124-126 | An output's dict, with its two members inserted in either order, is written as `OutputText`. |
| Tx.InputKeyOrder | streamlit_app.py:49 | Each input's keys come out as `index`, then `prev_txid`. |
| Tx.OutputKeyOrder | streamlit_app.py:50 | Each output's keys come out as `address`, then `amount`. |
| Tx.Compact | streamlit_app.py:53 | Every whitespace character in the text is a space, never a tab, line feed or carriage return, and some text field (the memo, a `prev_txid` or an address) holds a space. |
| Tx.WsCountExact | streamlit_app.py:53 | The text holds exactly as many whitespace characters as the memo, the `prev_txid`s and the addresses hold spaces, all together. So the encoding writes no whitespace of its own, even when a field holds spaces. |
| Tx.ReplaceMemoSerialize | streamlit_app.py:124-126 | Reading back stored bytes, replacing the memo and dumping again gives the serialization of the record with the new memo. This reproduces the stored bytes exactly when the memo is unchanged. |
| Tx.InputTextWhitespace | streamlit_app.py:49 | Every whitespace character of an input's text is a space, and its `prev_txid` holds a space. |
| Tx.OutputTextWhitespace | streamlit_app.py:50 | Every whitespace character of an output's text is a space, and its address holds a space. |
| Tx.InputTextWsCount | streamlit_app.py:49 | An input's text holds exactly as many whitespace characters as its `prev_txid` holds spaces. |
| Tx.OutputTextWsCount | streamlit_app.py:50 | An output's text holds exactly as many whitespace characters as its address holds spaces. |
| Tx.ParseInputText | streamlit_app.py:49 | An input's text reads back as the input. |
| Tx.ParseOutputText | streamlit_app.py:50 | An output's text reads back as the output. |
| KeyOrder.SortByKey | streamlit_app.py:53 | `sort_keys=True`: the members come out as a rearrangement of the dict's members. `SortByKeySorted` states the order. |
| KeyOrder.SortIgnoresInsertionOrder | streamlit_app.py:53 | Two dicts with the same members in different insertion orders are written identically. |
| KeyOrder.SortByKeySorted | streamlit_app.py:53 | With distinct keys, the members come out in strictly ascending key order. |
| KeyOrder.SortedUnique | streamlit_app.py:53 | Two strictly sorted arrangements of the same members are the same sequence, so the sorted output is unique. |
| KeyOrder.LessTotal | streamlit_app.py:53 | Python's string order ranks any two different keys one way and never both ways. |
| Json.ParseStringQuote | streamlit_app.py:124 | A string literal as `json.dumps` writes it, escapes included, reads back as the original text. |
| Json.ParseIntText | streamlit_app.py:124 | An integer as `json.dumps` writes it, negative or not, reads back as itself. |
| Json.EscapeWhitespace | streamlit_app.py:53 | Escaping writes no tab, line feed or carriage return: every whitespace character of an escaped text is a space, and the text holds one. |
| Json.EscapeWsCount | streamlit_app.py:53 | An escaped text holds exactly as many whitespace characters as the text holds spaces. |
| Json.EscapeChar | streamlit_app.py:53 | With `ensure_ascii=False`, a character is written as itself exactly when it is not `"`, `\` or a control character; otherwise a backslash escape is written. |
| Utf8.DecodeEncode | streamlit_app.py:124 | Decoding the UTF-8 bytes of a text gives back the text. |
| Utf8.EncodeInjective | streamlit_app.py:53 | Two texts have the same UTF-8 bytes exactly when they are equal. |
| Hex.ToHex | streamlit_app.py:56 | `bytes.hex()` writes two lower-case hexadecimal digits per byte. |
| Hex.FromToHex | streamlit_app.py:56 | `bytes.hex()` can be read back into the bytes it renders. |
| Hex.ToHexInjective | streamlit_app.py:128 | Two hex renderings are equal exactly when the bytes are. |
| Crypto.Sha256d | streamlit_app.py:21-22 | `sha256d`: the hash of the hash. `TxidDigest` and `TxidClash` state its role in the txid. |
| Crypto.Hmac | streamlit_app.py:24-25 | `hmac_sha256` as RFC 2104 defines it: the outer hash over the outer key pad and the inner hash over the inner key pad and the message. `SignatureHexCompare`, `HmacClash` and `HmacKeyClash` state its properties. |
| Crypto.Txid | streamlit_app.py:55-56 | A txid is always 64 lower-case hexadecimal characters. |
| Crypto.TxidDigest | streamlit_app.py:21-22 | A txid reads back as the double hash of the serialization. |
| Crypto.SignatureHex | streamlit_app.py:24-25 | A signature is always 64 lower-case hexadecimal characters. |
| Crypto.KeyBlock | streamlit_app.py:25 | HMAC's key block is 64 bytes. A key of up to 64 bytes is zero-filled to the block; a longer one is hashed first, and its 32-byte digest is zero-filled. |
| Crypto.SignatureHexCompare | streamlit_app.py:128 | Comparing signatures as hex strings is comparing the HMAC digests. |
| Crypto.KeyPadsInjective | streamlit_app.py:24-25 | For keys of one length up to a block, such as the 32-byte session keys, the inner and outer key pads are equal exactly when the keys are. |
| Crypto.TxidClash | streamlit_app.py:21-22 | Two different records with one txid exhibit a SHA-256 collision. |
| Crypto.HmacClash | streamlit_app.py:24-25 | Two different messages with one HMAC under one key exhibit a SHA-256 collision. |
| Crypto.HmacKeyClash | streamlit_app.py:24-25 | One message with one HMAC under two different keys of one length up to a block, such as two session keys, exhibits a SHA-256 collision. So a signature made under one key does not check under another. |
| Workflow.BuildTransaction | streamlit_app.py:96-102 | The form's record has version 1, the clock's timestamp and the memo. `vin` always holds exactly one input. `vout` holds the first output, plus the second exactly when `addr_2` is non-empty and `amt_2 > 0`. |
| Workflow.Session.constructor | streamlit_app.py:59-64 | A new session has no key and nothing signed, and satisfies the invariant. |
| Workflow.Session.GenerateKey | streamlit_app.py:68-71 | The new 32-byte key replaces the old one. The stored signature and serialization are both cleared, so no signature survives a key change. |
| Workflow.Session.BuildAndSign | streamlit_app.py:95-108 | Without a key nothing changes. With one, the stored serialization becomes `serialize(tx)` and the stored signature its HMAC hex under the key. The key is unchanged, the invariant holds, and the shown txid is the record's. |
| Workflow.Session.Sign | streamlit_app.py:103-108 | The record's bytes and their signature under the current key replace the stored ones, and the invariant holds. |
| Workflow.Session.Verify | streamlit_app.py:121-128 | The step runs exactly when a serialization is stored, and fails exactly when the bytes do not read back or there is no key. Otherwise it gives the record with the altered memo, its bytes and txid, and `ok` exactly when the HMAC hex of the new bytes equals the stored signature. From a valid state: with the memo unchanged the check succeeds on the very bytes that were signed; with a changed memo the bytes differ, and the check succeeds only if SHA-256 has a collision. |

## Left out

- The Streamlit page is not modelled: layout, widgets, the key and JSON displays, and the messages shown.
- The random key (`secrets.token_bytes(32)`) is a parameter of `GenerateKey`, and the clock (`time.time()`) is a parameter of `BuildAndSign`.
- SHA-256 is not modelled; every definition takes the hash function as a parameter. Collision resistance cannot be proved, so properties that rely on it are stated as "otherwise here is a collision".
- Python's `json.loads` accepts any JSON. `Tx.Loads` reads only objects whose members, keys and separators are laid out as `serialize` lays them out. It answers None for whitespace between tokens, other key orders, missing or extra keys, duplicate keys, floats, and `\u` escapes of surrogates (including surrogate pairs). Inside string literals it reads every other JSON escape: `\/`, the short escapes, and `\u` followed by four hex digits of either case for any Unicode scalar value. So it accepts some texts `serialize` never writes. The stored bytes always come from `serialize`, so the workflow cannot tell the difference.
- A dict is modelled as the sequence of its members in insertion order. That a dict holds each key once is a precondition (`DistinctKeys`) of the lemmas about insertion order.
- `json.loads` on bytes also detects UTF-16 and UTF-32 and decodes with `surrogatepass`. The model decodes strict UTF-8 only, which is what `serialize` writes.
- Python strings may hold lone surrogates, which `encode("utf-8")` refuses. Dafny characters are Unicode scalar values, so the model has no such strings.
- The `except` branch that shows the error becomes the `Failed` outcome, with no message.
- The disabled buttons are modelled as follows:
  - Build & sign without a key returns None and changes nothing.
  - The verify button's own guard on `orig_signature` is not separate from the code's check of `orig_serialization`. The invariant keeps the two set together.
- `original["memo"] = alter_memo` updates the parsed dict in place. The model updates the record as a value: the dict read back is this one record, and nothing else refers to it.
- Each button press is one method call on a `Session` that persists. Streamlit's re-run of the whole script on every interaction is not modelled.
- Integers are unbounded in the model, as Python's are, and nothing wraps. Since Python 3.11, `json.dumps` and `json.loads` raise `ValueError` on an integer of more than 4300 digits. That limit is not modelled. The form's fields (indices, amounts, the clock) cannot produce such values.

## Notes on the code

- The signature check compares the two hex strings with `==`. It is not a constant-time comparison of bytes, and the model compares the strings as values.
- No key length is checked. The key is always the 32 bytes `GenerateKey` receives. Verifying without a key raises inside the `try` and shows an error, which is the model's `Failed` outcome.
- Verification does not keep the signed record. It parses the stored bytes back and replaces the memo in the dict it gets, and the model does the same (`Tx.ReplaceMemo`).
