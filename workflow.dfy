/** The session state of the app (`st.session_state.priv_key`, `orig_signature`,
    `orig_serialization`) and its three actions: generate a key, build & sign a transaction,
    and verify the stored signature against the stored transaction with its memo altered.
    The random key and the clock are parameters of the actions that use them. */
module Workflow {
  import opened Octets
  import Hex
  import opened Tx
  import opened Crypto

  /** The transaction the form describes: one input, the first output, and the second output
      only when its address is non-empty and its amount positive. */
  function BuildTransaction(now: int, prevTxid: string, index: nat, addr1: string, amt1: nat,
                            addr2: string, amt2: nat, memo: string): (tx: Transaction)
    ensures tx.version == 1 && tx.timestamp == now && tx.memo == memo
    ensures tx.vin == [TxInput(prevTxid, index)]
    ensures 1 <= |tx.vout| <= 2 && tx.vout[0] == TxOutput(addr1, amt1)
    ensures |tx.vout| == 2 <==> addr2 != "" && amt2 > 0
    ensures |tx.vout| == 2 ==> tx.vout[1] == TxOutput(addr2, amt2)
  {
    Transaction(1, now, [TxInput(prevTxid, index)],
      [TxOutput(addr1, amt1)] + (if addr2 != "" && amt2 > 0 then [TxOutput(addr2, amt2)] else []),
      memo)
  }

  /** What build & sign shows: the transaction, its bytes, its txid and the signature. */
  datatype Signed = Signed(tx: Transaction, serialization: Bytes, txid: string, signature: string)

  /** What verification shows: nothing (no stored transaction), an error (the stored bytes do
      not read back, or there is no key to sign with), or the altered record, its bytes, its
      txid, and whether the stored signature still matches. */
  datatype Outcome =
    | NotRun
    | Failed
    | Checked(record: Transaction, serialization: Bytes, txid: string, ok: bool)

  class Session {
    const hash: HashFn
    var privKey: Option<Bytes>
    var origSignature: Option<string>
    var origSerialization: Option<Bytes>
    /** The transaction whose bytes are stored, when there is one. */
    ghost var signed: Option<Transaction>

    /** The signature and the serialization are stored together, and the signature is the
        HMAC of the stored bytes under the current key. */
    ghost predicate Valid()
      reads this
    {
      && (origSignature.Some? <==> origSerialization.Some?)
      && (origSerialization.Some? <==> signed.Some?)
      && (signed.Some? ==>
            && privKey.Some?
            && origSerialization.value == Serialize(signed.value)
            && origSignature.value == SignatureHex(hash, privKey.value, origSerialization.value))
    }

    /** A fresh session: no key, nothing signed. */
    constructor (h: HashFn)
      ensures hash == h
      ensures privKey.None? && origSignature.None? && origSerialization.None?
      ensures Valid()
    {
      hash := h;
      privKey := None;
      origSignature := None;
      origSerialization := None;
      signed := None;
    }

    /** Generate a key: the new key replaces the old one and whatever was signed is forgotten. */
    method GenerateKey(key: Bytes)
      requires |key| == 32
      modifies this
      ensures privKey == Some(key)
      ensures origSignature.None? && origSerialization.None? && signed.None?
      ensures Valid()
    {
      privKey := Some(key);
      origSignature := None;
      origSerialization := None;
      signed := None;
    }

    /** Build & sign. Without a key the button is disabled and nothing happens; with one, the
        transaction's bytes and their signature replace the stored ones and the key stays. */
    method BuildAndSign(now: int, prevTxid: string, index: nat, addr1: string, amt1: nat,
                        addr2: string, amt2: nat, memo: string) returns (r: Option<Signed>)
      modifies this
      ensures privKey == old(privKey)
      ensures old(privKey).None? ==> r.None? && unchanged(this)
      ensures old(privKey).Some? ==>
        var tx := BuildTransaction(now, prevTxid, index, addr1, amt1, addr2, amt2, memo);
        && Valid()
        && signed == Some(tx)
        && origSerialization == Some(Serialize(tx))
        && origSignature == Some(SignatureHex(hash, privKey.value, Serialize(tx)))
        && r == Some(Signed(tx, Serialize(tx), Txid(hash, tx), origSignature.value))
    {
      if privKey.None? {
        return None;
      }
      var tx := BuildTransaction(now, prevTxid, index, addr1, amt1, addr2, amt2, memo);
      var s := Sign(tx);
      r := Some(s);
    }

    /** The signing half of build & sign: `tx`'s bytes and their signature under the current
        key replace the stored ones. */
    method Sign(tx: Transaction) returns (s: Signed)
      requires privKey.Some?
      modifies this
      ensures privKey == old(privKey)
      ensures Valid() && signed == Some(tx)
      ensures origSerialization == Some(Serialize(tx))
      ensures origSignature == Some(SignatureHex(hash, privKey.value, Serialize(tx)))
      ensures s == Signed(tx, Serialize(tx), Txid(hash, tx), origSignature.value)
    {
      var ser := Serialize(tx);
      var txid := Txid(hash, tx);
      var signature := SignatureHex(hash, privKey.value, ser);
      origSignature := Some(signature);
      origSerialization := Some(ser);
      signed := Some(tx);
      s := Signed(tx, ser, txid, signature);
    }

    /** Verify with the original signature, after replacing the memo by `alterMemo`.
        The stored bytes are read back, the memo replaced, the record encoded again, and the
        HMAC of the new bytes compared with the stored signature. With the memo unchanged the
        check succeeds; with a changed memo it fails unless SHA-256 has a collision. */
    method Verify(alterMemo: string) returns (outcome: Outcome)
      ensures outcome == NotRun <==> origSerialization.None?
      ensures outcome == Failed <==>
        origSerialization.Some? && (Loads(origSerialization.value).None? || privKey.None?)
      ensures outcome.Checked? ==>
        && origSerialization.Some?
        && privKey.Some?
        && ReplaceMemo(origSerialization.value, alterMemo) == Some(outcome.serialization)
        && outcome.serialization == Serialize(outcome.record)
        && outcome.record.memo == alterMemo
        && outcome.txid == Txid(hash, outcome.record)
        && (outcome.ok <==> origSignature == Some(SignatureHex(hash, privKey.value, outcome.serialization)))
      ensures Valid() && signed.Some? ==>
        && outcome.Checked?
        && outcome.record == signed.value.(memo := alterMemo)
        && (outcome.ok <==> Hmac(hash, privKey.value, outcome.serialization)
                            == Hmac(hash, privKey.value, origSerialization.value))
      ensures Valid() && signed.Some? && alterMemo == signed.value.memo ==>
        outcome.Checked? && outcome.ok && outcome.serialization == origSerialization.value
      ensures Valid() && signed.Some? && alterMemo != signed.value.memo ==>
        outcome.Checked? && outcome.serialization != origSerialization.value
        && (outcome.ok ==> exists x, y :: Collision(hash, x, y))
    {
      if origSerialization.None? {
        return NotRun;
      }
      if Valid() && signed.Some? {
        LoadsSerialize(signed.value);
      }
      var parsed := Loads(origSerialization.value);
      if parsed.None? {
        return Failed;
      }
      var original := parsed.value;
      original := original.(memo := alterMemo);
      var ser2 := Serialize(original);
      var txid2 := Txid(hash, original);
      if privKey.None? {
        return Failed;
      }
      var ok := origSignature == Some(SignatureHex(hash, privKey.value, ser2));
      outcome := Checked(original, ser2, txid2, ok);
      if Valid() && signed.Some? {
        var tx := signed.value;
        ReplaceMemoSerialize(tx, alterMemo);
        SignatureHexCompare(hash, privKey.value, ser2, origSerialization.value);
        if alterMemo != tx.memo && ok {
          var x, y := HmacClash(hash, privKey.value, ser2, origSerialization.value);
        }
      }
    }
  }
}
