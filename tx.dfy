/** The transaction record and its canonical encoding (`Transaction.serialize`), with the
    parser that reads the encoding back (`json.loads` on that output). */
module Tx {
  import opened Octets
  import opened KeyOrder
  import opened Json
  import Utf8

  /** `TxInput`: a reference to an output of an earlier transaction. */
  datatype TxInput = TxInput(prevTxid: string, index: int)

  /** `TxOutput`: an amount, in whole units, paid to an address. */
  datatype TxOutput = TxOutput(address: string, amount: int)

  /** `Transaction`. */
  datatype Transaction = Transaction(version: int, timestamp: int, vin: seq<TxInput>, vout: seq<TxOutput>, memo: string)

  // ---------------------------------------------------------------- encoding

  /** `asdict(i)`: the dataclass fields in declaration order. */
  function InputMembers(i: TxInput): seq<Member>
  {
    [Member("prev_txid", Quote(i.prevTxid)), Member("index", IntText(i.index))]
  }

  /** `asdict(o)`. */
  function OutputMembers(o: TxOutput): seq<Member>
  {
    [Member("address", Quote(o.address)), Member("amount", IntText(o.amount))]
  }

  /** `"<key>":`, how `json.dumps` writes a key with nothing to escape, as every key of the
      record is (`RecordKeyLabels`). */
  function Label(key: string): string
  {
    "\"" + key + "\":"
  }

  /** An input as `serialize` writes it: `{"index":<int>,"prev_txid":<string>}`. */
  function InputText(i: TxInput): string
  {
    "{" + (Label("index") + IntText(i.index) + "," + (Label("prev_txid") + Quote(i.prevTxid))) + "}"
  }

  /** An output as `serialize` writes it: `{"address":<string>,"amount":<int>}`. */
  function OutputText(o: TxOutput): string
  {
    "{" + (Label("address") + Quote(o.address) + "," + (Label("amount") + IntText(o.amount))) + "}"
  }

  /** The inputs as `serialize` writes them, in order. */
  function InputTexts(vin: seq<TxInput>): seq<string>
  {
    seq(|vin|, k requires 0 <= k < |vin| => InputText(vin[k]))
  }

  /** The outputs as `serialize` writes them, in order. */
  function OutputTexts(vout: seq<TxOutput>): seq<string>
  {
    seq(|vout|, k requires 0 <= k < |vout| => OutputText(vout[k]))
  }

  /** The JSON text of `serialize`, before UTF-8 encoding:
      `{"memo":<string>,"timestamp":<int>,"version":<int>,"vin":[...],"vout":[...]}`.
      `DumpIsSerializeText` shows this is what `json.dumps` writes for the dict `serialize`
      builds, with sorted keys and compact separators. */
  function SerializeText(tx: Transaction): string
  {
    "{" + (Label("memo") + Quote(tx.memo) + "," +
          (Label("timestamp") + IntText(tx.timestamp) + "," +
          (Label("version") + IntText(tx.version) + "," +
          (Label("vin") + ArrayText(InputTexts(tx.vin)) + "," +
          (Label("vout") + ArrayText(OutputTexts(tx.vout))))))) + "}"
  }

  /** `Transaction.serialize`: the JSON text encoded as UTF-8. */
  function Serialize(tx: Transaction): Bytes
  {
    Utf8.Encode(SerializeText(tx))
  }

  // ---------------------------------------------------------------- the dict and json.dumps

  /** `json.dumps` of `asdict(i)`, whose members are the dataclass fields in declaration order. */
  function InputDumps(vin: seq<TxInput>): seq<string>
  {
    seq(|vin|, k requires 0 <= k < |vin| => ObjectText(InputMembers(vin[k])))
  }

  /** `json.dumps` of `asdict(o)` for each output. */
  function OutputDumps(vout: seq<TxOutput>): seq<string>
  {
    seq(|vout|, k requires 0 <= k < |vout| => ObjectText(OutputMembers(vout[k])))
  }

  /** The dict `serialize` builds, in the order it inserts the keys. */
  function TopMembers(tx: Transaction): seq<Member>
  {
    [ Member("version", IntText(tx.version)),
      Member("timestamp", IntText(tx.timestamp)),
      Member("vin", ArrayText(InputDumps(tx.vin))),
      Member("vout", ArrayText(OutputDumps(tx.vout))),
      Member("memo", Quote(tx.memo)) ]
  }

  /** `json.dumps(obj, ensure_ascii=False, separators=(",", ":"), sort_keys=True)` of that dict. */
  function DumpText(tx: Transaction): string
  {
    ObjectText(TopMembers(tx))
  }

  // ---------------------------------------------------------------- key order and layout

  /** The members of an input come out as `index`, then `prev_txid`. */
  lemma InputKeyOrder(i: TxInput)
    ensures SortByKey(InputMembers(i)) == [Member("index", IntText(i.index)), Member("prev_txid", Quote(i.prevTxid))]
  {
    var ms := InputMembers(i);
    var sorted := [Member("index", IntText(i.index)), Member("prev_txid", Quote(i.prevTxid))];
    assert Less("index", "prev_txid");
    SortedFromAdjacent(sorted);
    SortByKeySorted(ms);
    assert multiset(sorted) == multiset(ms);
    SortedUnique(SortByKey(ms), sorted);
  }

  /** The members of an output come out as `address`, then `amount`. */
  lemma OutputKeyOrder(o: TxOutput)
    ensures SortByKey(OutputMembers(o)) == [Member("address", Quote(o.address)), Member("amount", IntText(o.amount))]
  {
    var ms := OutputMembers(o);
    var sorted := [Member("address", Quote(o.address)), Member("amount", IntText(o.amount))];
    assert Less("address", "amount") by {
      assert Less("ddress", "mount");
    }
    SortedFromAdjacent(sorted);
    SortByKeySorted(ms);
    assert multiset(sorted) == multiset(ms);
    SortedUnique(SortByKey(ms), sorted);
  }

  /** The top-level members in the order `json.dumps` writes them. */
  function SortedTopMembers(tx: Transaction): seq<Member>
  {
    [ Member("memo", Quote(tx.memo)),
      Member("timestamp", IntText(tx.timestamp)),
      Member("version", IntText(tx.version)),
      Member("vin", ArrayText(InputDumps(tx.vin))),
      Member("vout", ArrayText(OutputDumps(tx.vout))) ]
  }

  lemma TopKeysAscend(tx: Transaction)
    ensures forall i :: 0 <= i < 4 ==> Less(SortedTopMembers(tx)[i].key, SortedTopMembers(tx)[i + 1].key)
  {
    FiveKeysAscend(SortedTopMembers(tx));
  }

  /** Five members keyed as the record's top level in sorted order, in any values: each key is
      below the next. */
  lemma FiveKeysAscend(ms: seq<Member>)
    requires |ms| == 5
    requires ms[0].key == "memo" && ms[1].key == "timestamp" && ms[2].key == "version"
    requires ms[3].key == "vin" && ms[4].key == "vout"
    ensures forall i :: 0 <= i < 4 ==> Less(ms[i].key, ms[i + 1].key)
  {
    assert Less("memo", "timestamp");
    assert Less("timestamp", "version");
    assert Less("version", "vin") by {
      assert Less("ersion", "in");
    }
    assert Less("vin", "vout") by {
      assert Less("in", "out");
    }
    forall i | 0 <= i < 4 ensures Less(ms[i].key, ms[i + 1].key) {
      assert i == 0 || i == 1 || i == 2 || i == 3;
    }
  }

  lemma TopKeysDistinct(tx: Transaction)
    ensures DistinctKeys(TopMembers(tx))
  {
    FiveKeysDistinct(TopMembers(tx));
  }

  /** Five members keyed as the record's top level, in any values: no key twice. */
  lemma FiveKeysDistinct(ms: seq<Member>)
    requires |ms| == 5
    requires ms[0].key == "version" && ms[1].key == "timestamp" && ms[2].key == "vin"
    requires ms[3].key == "vout" && ms[4].key == "memo"
    ensures DistinctKeys(ms)
  {
    assert ms[3].key[0] != ms[4].key[0];
    forall i, j | 0 <= i < j < 5 ensures ms[i].key != ms[j].key {
      assert i == 0 || i == 1 || i == 2 || i == 3;
      assert j == 1 || j == 2 || j == 3 || j == 4;
    }
  }

  lemma TopMembersRearranged(tx: Transaction)
    ensures multiset(SortedTopMembers(tx)) == multiset(TopMembers(tx))
  {
  }

  /** The top-level members come out as `memo`, `timestamp`, `version`, `vin`, `vout`. */
  lemma TopKeyOrder(tx: Transaction)
    ensures SortByKey(TopMembers(tx)) ==
      [ Member("memo", Quote(tx.memo)),
        Member("timestamp", IntText(tx.timestamp)),
        Member("version", IntText(tx.version)),
        Member("vin", ArrayText(InputDumps(tx.vin))),
        Member("vout", ArrayText(OutputDumps(tx.vout))) ]
  {
    TopKeysAscend(tx);
    TopKeysDistinct(tx);
    TopMembersRearranged(tx);
    SortsTo(TopMembers(tx), SortedTopMembers(tx));
  }

  /** A key made of lower-case letters and underscores, as every key of the record is. */
  predicate Word(key: string)
  {
    forall i :: 0 <= i < |key| ==> 'a' <= key[i] <= 'z' || key[i] == '_'
  }

  /** A key with nothing to escape is written between quotes as it is, followed by the colon. */
  lemma KeyTextPlain(key: string)
    requires Word(key)
    ensures KeyText(key) == Label(key)
  {
    EscapePlain(key);
  }

  lemma RecordKeysAreWords()
    ensures Word("memo") && Word("timestamp") && Word("version") && Word("vin") && Word("vout")
    ensures Word("index") && Word("prev_txid") && Word("address") && Word("amount")
  {
  }

  /** `json.dumps` writes each key of the record as its `Label`. */
  lemma RecordKeyLabels()
    ensures KeyText("memo") == Label("memo") && KeyText("timestamp") == Label("timestamp")
    ensures KeyText("version") == Label("version") && KeyText("vin") == Label("vin")
    ensures KeyText("vout") == Label("vout")
    ensures KeyText("index") == Label("index") && KeyText("prev_txid") == Label("prev_txid")
    ensures KeyText("address") == Label("address") && KeyText("amount") == Label("amount")
  {
    RecordKeysAreWords();
    KeyTextPlain("memo");
    KeyTextPlain("timestamp");
    KeyTextPlain("version");
    KeyTextPlain("vin");
    KeyTextPlain("vout");
    KeyTextPlain("index");
    KeyTextPlain("prev_txid");
    KeyTextPlain("address");
    KeyTextPlain("amount");
  }

  /** `json.dumps` writes an input's dict as `InputText` does. */
  lemma InputLayout(i: TxInput)
    ensures ObjectText(InputMembers(i)) == InputText(i)
  {
    InputKeyOrder(i);
    RecordKeyLabels();
    ObjectTextOfTwo(InputMembers(i), Member("index", IntText(i.index)), Member("prev_txid", Quote(i.prevTxid)));
  }

  /** `json.dumps` writes an output's dict as `OutputText` does. */
  lemma OutputLayout(o: TxOutput)
    ensures ObjectText(OutputMembers(o)) == OutputText(o)
  {
    OutputKeyOrder(o);
    RecordKeyLabels();
    ObjectTextOfTwo(OutputMembers(o), Member("address", Quote(o.address)), Member("amount", IntText(o.amount)));
  }

  lemma InputDumpsAreTexts(vin: seq<TxInput>)
    ensures InputDumps(vin) == InputTexts(vin)
  {
    forall k | 0 <= k < |vin| ensures InputDumps(vin)[k] == InputTexts(vin)[k] {
      InputLayout(vin[k]);
    }
  }

  lemma OutputDumpsAreTexts(vout: seq<TxOutput>)
    ensures OutputDumps(vout) == OutputTexts(vout)
  {
    forall k | 0 <= k < |vout| ensures OutputDumps(vout)[k] == OutputTexts(vout)[k] {
      OutputLayout(vout[k]);
    }
  }

  /** What `json.dumps` writes for the dict `serialize` builds, with its keys sorted at every
      level and compact separators, is exactly `SerializeText`. */
  lemma DumpIsSerializeText(tx: Transaction)
    ensures DumpText(tx) == SerializeText(tx)
  {
    TopKeyOrder(tx);
    ObjectTextOfFive(TopMembers(tx),
      Member("memo", Quote(tx.memo)),
      Member("timestamp", IntText(tx.timestamp)),
      Member("version", IntText(tx.version)),
      Member("vin", ArrayText(InputDumps(tx.vin))),
      Member("vout", ArrayText(OutputDumps(tx.vout))));
    InputDumpsAreTexts(tx.vin);
    OutputDumpsAreTexts(tx.vout);
    RecordKeyLabels();
  }

  /** An input's dict with its members inserted in any order is written as `InputText`. */
  lemma InputDumpAnyOrder(i: TxInput, ms: seq<Member>)
    requires DistinctKeys(ms) && multiset(ms) == multiset(InputMembers(i))
    ensures ObjectText(ms) == InputText(i)
  {
    assert "prev_txid"[0] != "index"[0];
    SortIgnoresInsertionOrder(ms, InputMembers(i));
    InputLayout(i);
  }

  /** An output's dict with its members inserted in any order is written as `OutputText`. */
  lemma OutputDumpAnyOrder(o: TxOutput, ms: seq<Member>)
    requires DistinctKeys(ms) && multiset(ms) == multiset(OutputMembers(o))
    ensures ObjectText(ms) == OutputText(o)
  {
    assert "address"[1] != "amount"[1];
    SortIgnoresInsertionOrder(ms, OutputMembers(o));
    OutputLayout(o);
  }

  /** A dict with the members of the one `serialize` builds, inserted in any order (a dict
      never holds a key twice), is written as `SerializeText`. The dict `json.loads` gives back
      from the stored bytes, whose keys come in the stored order, is one such dict. */
  lemma DumpAnyInsertionOrder(tx: Transaction, ms: seq<Member>)
    requires DistinctKeys(ms) && multiset(ms) == multiset(TopMembers(tx))
    ensures SortByKey(ms) == SortedTopMembers(tx)
    ensures ObjectText(ms) == SerializeText(tx)
  {
    TopKeysDistinct(tx);
    SortIgnoresInsertionOrder(ms, TopMembers(tx));
    TopKeyOrder(tx);
    assert ObjectText(ms) == DumpText(tx);
    DumpIsSerializeText(tx);
  }

  // ---------------------------------------------------------------- compactness

  /** Some text field of the record holds a space. */
  predicate HasSpace(tx: Transaction)
  {
    || ' ' in tx.memo
    || (exists k :: 0 <= k < |tx.vin| && ' ' in tx.vin[k].prevTxid)
    || (exists k :: 0 <= k < |tx.vout| && ' ' in tx.vout[k].address)
  }

  /** Whitespace in a member written as `"key":value` lies in the value. */
  lemma LabelWhitespace(key: string, v: string, c: char)
    requires Word(key) && c in Label(key) + v && IsWhitespace(c)
    ensures c in v
  {
  }

  lemma InputTextWhitespace(i: TxInput, c: char)
    requires c in InputText(i) && IsWhitespace(c)
    ensures c == ' ' && ' ' in i.prevTxid
  {
    RecordKeysAreWords();
    var a := Label("index") + IntText(i.index);
    if c in a {
      LabelWhitespace("index", IntText(i.index), c);
      IntTextNoWhitespace(i.index, c);
    } else {
      LabelWhitespace("prev_txid", Quote(i.prevTxid), c);
      QuoteWhitespace(i.prevTxid, c);
    }
  }

  lemma OutputTextWhitespace(o: TxOutput, c: char)
    requires c in OutputText(o) && IsWhitespace(c)
    ensures c == ' ' && ' ' in o.address
  {
    RecordKeysAreWords();
    var a := Label("address") + Quote(o.address);
    if c in a {
      LabelWhitespace("address", Quote(o.address), c);
      QuoteWhitespace(o.address, c);
    } else {
      LabelWhitespace("amount", IntText(o.amount), c);
      IntTextNoWhitespace(o.amount, c);
    }
  }

  lemma InputsWhitespace(vin: seq<TxInput>, c: char)
    requires c in ArrayText(InputTexts(vin)) && IsWhitespace(c)
    ensures c == ' ' && exists k :: 0 <= k < |vin| && ' ' in vin[k].prevTxid
  {
    ArrayWhitespace(InputTexts(vin), c);
    var k :| 0 <= k < |vin| && c in InputTexts(vin)[k];
    InputTextWhitespace(vin[k], c);
  }

  lemma OutputsWhitespace(vout: seq<TxOutput>, c: char)
    requires c in ArrayText(OutputTexts(vout)) && IsWhitespace(c)
    ensures c == ' ' && exists k :: 0 <= k < |vout| && ' ' in vout[k].address
  {
    ArrayWhitespace(OutputTexts(vout), c);
    var k :| 0 <= k < |vout| && c in OutputTexts(vout)[k];
    OutputTextWhitespace(vout[k], c);
  }

  /** `separators=(",", ":")`: the encoding adds no whitespace of its own. Its only tab, line
      feed or carriage return would come from a text field, and those are escaped; a space in
      the output is a space of the memo, of a `prev_txid` or of an address. */
  lemma Compact(tx: Transaction, c: char)
    requires c in SerializeText(tx) && IsWhitespace(c)
    ensures c == ' ' && HasSpace(tx)
  {
    RecordKeysAreWords();
    if c in Label("memo") + Quote(tx.memo) {
      LabelWhitespace("memo", Quote(tx.memo), c);
      QuoteWhitespace(tx.memo, c);
    } else if c in Label("timestamp") + IntText(tx.timestamp) {
      LabelWhitespace("timestamp", IntText(tx.timestamp), c);
      IntTextNoWhitespace(tx.timestamp, c);
    } else if c in Label("version") + IntText(tx.version) {
      LabelWhitespace("version", IntText(tx.version), c);
      IntTextNoWhitespace(tx.version, c);
    } else if c in Label("vin") + ArrayText(InputTexts(tx.vin)) {
      LabelWhitespace("vin", ArrayText(InputTexts(tx.vin)), c);
      InputsWhitespace(tx.vin, c);
    } else {
      LabelWhitespace("vout", ArrayText(OutputTexts(tx.vout)), c);
      OutputsWhitespace(tx.vout, c);
    }
  }

  /** The spaces of all the inputs' `prev_txid`s. */
  function InputSpaces(vin: seq<TxInput>): nat
  {
    if vin == [] then 0 else SpaceCount(vin[0].prevTxid) + InputSpaces(vin[1..])
  }

  /** The spaces of all the outputs' addresses. */
  function OutputSpaces(vout: seq<TxOutput>): nat
  {
    if vout == [] then 0 else SpaceCount(vout[0].address) + OutputSpaces(vout[1..])
  }

  lemma LabelWsCount(key: string)
    requires Word(key)
    ensures WsCount(Label(key)) == 0
  {
    WsCountNone(key);
    WsCountConcat("\"", key);
    WsCountConcat("\"" + key, "\":");
  }

  /** An input's text holds as many whitespace characters as its `prev_txid` holds spaces. */
  lemma InputTextWsCount(i: TxInput)
    ensures WsCount(InputText(i)) == SpaceCount(i.prevTxid)
  {
    var k0, v0, k1, v1 := Label("index"), IntText(i.index), Label("prev_txid"), Quote(i.prevTxid);
    RecordKeysAreWords();
    LabelWsCount("index");
    LabelWsCount("prev_txid");
    IntTextWsCount(i.index);
    QuoteWsCount(i.prevTxid);
    MemberWsCount(k0, v0);
    MemberWsCount(k1, v1);
    CommaWsCount(k0 + v0, k1 + v1);
    ObjectWsCount(k0 + v0 + "," + (k1 + v1));
  }

  /** An output's text holds as many whitespace characters as its address holds spaces. */
  lemma OutputTextWsCount(o: TxOutput)
    ensures WsCount(OutputText(o)) == SpaceCount(o.address)
  {
    var k0, v0, k1, v1 := Label("address"), Quote(o.address), Label("amount"), IntText(o.amount);
    RecordKeysAreWords();
    LabelWsCount("address");
    LabelWsCount("amount");
    QuoteWsCount(o.address);
    IntTextWsCount(o.amount);
    MemberWsCount(k0, v0);
    MemberWsCount(k1, v1);
    CommaWsCount(k0 + v0, k1 + v1);
    ObjectWsCount(k0 + v0 + "," + (k1 + v1));
  }

  lemma InputsWsCount(vin: seq<TxInput>)
    ensures WsTotal(InputTexts(vin)) == InputSpaces(vin)
  {
    InputsWsCountFrom(vin, 0);
    assert InputTexts(vin)[0..] == InputTexts(vin) && vin[0..] == vin;
  }

  lemma {:induction false} InputsWsCountFrom(vin: seq<TxInput>, j: nat)
    requires j <= |vin|
    ensures WsTotal(InputTexts(vin)[j..]) == InputSpaces(vin[j..])
    decreases |vin| - j
  {
    if j < |vin| {
      var ts := InputTexts(vin);
      InputTextWsCount(vin[j]);
      InputsWsCountFrom(vin, j + 1);
      assert ts[j..][0] == ts[j] && ts[j..][1..] == ts[j + 1..];
      assert vin[j..][0] == vin[j] && vin[j..][1..] == vin[j + 1..];
    }
  }

  lemma OutputsWsCount(vout: seq<TxOutput>)
    ensures WsTotal(OutputTexts(vout)) == OutputSpaces(vout)
  {
    OutputsWsCountFrom(vout, 0);
    assert OutputTexts(vout)[0..] == OutputTexts(vout) && vout[0..] == vout;
  }

  lemma {:induction false} OutputsWsCountFrom(vout: seq<TxOutput>, j: nat)
    requires j <= |vout|
    ensures WsTotal(OutputTexts(vout)[j..]) == OutputSpaces(vout[j..])
    decreases |vout| - j
  {
    if j < |vout| {
      var ts := OutputTexts(vout);
      OutputTextWsCount(vout[j]);
      OutputsWsCountFrom(vout, j + 1);
      assert ts[j..][0] == ts[j] && ts[j..][1..] == ts[j + 1..];
      assert vout[j..][0] == vout[j] && vout[j..][1..] == vout[j + 1..];
    }
  }

  /** `separators=(",", ":")`, counted: the text holds exactly as many whitespace characters as
      the memo, the `prev_txid`s and the addresses hold spaces, so the encoding writes none of
      its own, not even beside a field that holds one. */
  lemma WsCountExact(tx: Transaction)
    ensures WsCount(SerializeText(tx)) == SpaceCount(tx.memo) + InputSpaces(tx.vin) + OutputSpaces(tx.vout)
  {
    var a := Label("memo") + Quote(tx.memo);
    var b := Label("timestamp") + IntText(tx.timestamp);
    var c := Label("version") + IntText(tx.version);
    var d := Label("vin") + ArrayText(InputTexts(tx.vin));
    var e := Label("vout") + ArrayText(OutputTexts(tx.vout));
    RecordKeysAreWords();
    LabelWsCount("memo");
    LabelWsCount("timestamp");
    LabelWsCount("version");
    LabelWsCount("vin");
    LabelWsCount("vout");
    QuoteWsCount(tx.memo);
    IntTextWsCount(tx.timestamp);
    IntTextWsCount(tx.version);
    ArrayWsCount(InputTexts(tx.vin));
    InputsWsCount(tx.vin);
    ArrayWsCount(OutputTexts(tx.vout));
    OutputsWsCount(tx.vout);
    MemberWsCount(Label("memo"), Quote(tx.memo));
    MemberWsCount(Label("timestamp"), IntText(tx.timestamp));
    MemberWsCount(Label("version"), IntText(tx.version));
    MemberWsCount(Label("vin"), ArrayText(InputTexts(tx.vin)));
    MemberWsCount(Label("vout"), ArrayText(OutputTexts(tx.vout)));
    CommaWsCount(d, e);
    CommaWsCount(c, d + "," + e);
    CommaWsCount(b, c + "," + (d + "," + e));
    CommaWsCount(a, b + "," + (c + "," + (d + "," + e)));
    ObjectWsCount(a + "," + (b + "," + (c + "," + (d + "," + e))));
  }

  // ---------------------------------------------------------------- reading back

  /** Reads an input written as `InputText` writes it. */
  function ParseInput(s: string): Option<(TxInput, string)>
  {
    var s0 :- Expect("{", s);
    var s1 :- Expect(Label("index"), s0);
    var index :- ParseInt(s1);
    var s2 :- Expect(",", index.1);
    var s3 :- Expect(Label("prev_txid"), s2);
    var prev :- ParseString(s3);
    var s4 :- Expect("}", prev.1);
    Some((TxInput(prev.0, index.0), s4))
  }

  /** Reads an output written as `OutputText` writes it. */
  function ParseOutput(s: string): Option<(TxOutput, string)>
  {
    var s0 :- Expect("{", s);
    var s1 :- Expect(Label("address"), s0);
    var address :- ParseString(s1);
    var s2 :- Expect(",", address.1);
    var s3 :- Expect(Label("amount"), s2);
    var amount :- ParseInt(s3);
    var s4 :- Expect("}", amount.1);
    Some((TxOutput(address.0, amount.0), s4))
  }

  /** Reads `"<key>":<string>`. */
  function ParseStringField(key: string, s: string): Option<(string, string)>
  {
    var s0 :- Expect(Label(key), s);
    ParseString(s0)
  }

  /** Reads `"<key>":<int>`. */
  function ParseIntField(key: string, s: string): Option<(int, string)>
  {
    var s0 :- Expect(Label(key), s);
    ParseInt(s0)
  }

  /** Reads `"<key>":[...]`, each item with `item`. */
  function ParseArrayField<T>(key: string, s: string, item: string -> Option<(T, string)>): Option<(seq<T>, string)>
  {
    var s0 :- Expect(Label(key), s);
    ParseArray(s0, item)
  }

  /** `json.loads` of the record's text, as a `Transaction`: None where the members, their
      keys and separators are not laid out as `SerializeText` lays them out, with nothing after
      the object. Inside string literals every JSON escape is read, not only those `Escape` writes. The reader takes the members one
      at a time; each `ParseFrom...` reads the rest of the object from the member it names on. */
  function ParseText(s: string): Option<Transaction>
  {
    var s0 :- Expect("{", s);
    var memo :- ParseStringField("memo", s0);
    var s1 :- Expect(",", memo.1);
    ParseFromTimestamp(memo.0, s1)
  }

  function ParseFromTimestamp(memo: string, s: string): Option<Transaction>
  {
    var timestamp :- ParseIntField("timestamp", s);
    var s1 :- Expect(",", timestamp.1);
    ParseFromVersion(memo, timestamp.0, s1)
  }

  function ParseFromVersion(memo: string, timestamp: int, s: string): Option<Transaction>
  {
    var version :- ParseIntField("version", s);
    var s1 :- Expect(",", version.1);
    ParseFromVin(memo, timestamp, version.0, s1)
  }

  function ParseFromVin(memo: string, timestamp: int, version: int, s: string): Option<Transaction>
  {
    var vin :- ParseArrayField("vin", s, ParseInput);
    var s1 :- Expect(",", vin.1);
    ParseFromVout(memo, timestamp, version, vin.0, s1)
  }

  function ParseFromVout(memo: string, timestamp: int, version: int, vin: seq<TxInput>, s: string): Option<Transaction>
  {
    var vout :- ParseArrayField("vout", s, ParseOutput);
    var s1 :- Expect("}", vout.1);
    if s1 == [] then Some(Transaction(version, timestamp, vin, vout.0, memo)) else None
  }

  /** `json.loads` of the stored bytes: UTF-8 decoding, then `ParseText`. */
  function Loads(bs: Bytes): Option<Transaction>
  {
    var text :- Utf8.Decode(bs);
    ParseText(text)
  }

  lemma ParseInputText(i: TxInput, rest: string)
    requires rest != [] && (rest[0] == ',' || rest[0] == ']')
    ensures ParseInput(InputText(i) + rest) == Some((i, rest))
  {
    var k0, v0, k1, v1 := Label("index"), IntText(i.index), Label("prev_txid"), Quote(i.prevTxid);
    var t := "}" + rest;
    RegroupObject(k0 + v0 + "," + (k1 + v1), rest);
    RegroupMember(k0, v0, k1 + v1, t);
    RegroupLastMember(k1, v1, t);
    ExpectLit("{", k0 + v0 + "," + (k1 + v1) + t);
    ExpectLit(k0, v0 + ("," + (k1 + (v1 + t))));
    ParseIntText(i.index, "," + (k1 + (v1 + t)));
    ExpectLit(",", k1 + (v1 + t));
    ExpectLit(k1, v1 + t);
    ParseStringQuote(i.prevTxid, t);
    ExpectLit("}", rest);
  }

  lemma ParseOutputText(o: TxOutput, rest: string)
    requires rest != [] && (rest[0] == ',' || rest[0] == ']')
    ensures ParseOutput(OutputText(o) + rest) == Some((o, rest))
  {
    var k0, v0, k1, v1 := Label("address"), Quote(o.address), Label("amount"), IntText(o.amount);
    var t := "}" + rest;
    RegroupObject(k0 + v0 + "," + (k1 + v1), rest);
    RegroupMember(k0, v0, k1 + v1, t);
    RegroupLastMember(k1, v1, t);
    ExpectLit("{", k0 + v0 + "," + (k1 + v1) + t);
    ExpectLit(k0, v0 + ("," + (k1 + (v1 + t))));
    ParseStringQuote(o.address, "," + (k1 + (v1 + t)));
    ExpectLit(",", k1 + (v1 + t));
    ExpectLit(k1, v1 + t);
    ParseIntText(o.amount, t);
    ExpectLit("}", rest);
  }

  lemma InputsReadBack(vin: seq<TxInput>)
    ensures ReadsBack(vin, InputTexts(vin), ParseInput)
  {
    var texts := InputTexts(vin);
    forall k | 0 <= k < |texts| ensures texts[k] != [] && texts[k][0] != ']' {
      assert texts[k] == InputText(vin[k]);
    }
    forall k, r | 0 <= k < |vin| && r != [] && (r[0] == ',' || r[0] == ']')
      ensures ParseInput(texts[k] + r) == Some((vin[k], r))
    {
      ParseInputText(vin[k], r);
    }
  }

  lemma OutputsReadBack(vout: seq<TxOutput>)
    ensures ReadsBack(vout, OutputTexts(vout), ParseOutput)
  {
    var texts := OutputTexts(vout);
    forall k | 0 <= k < |texts| ensures texts[k] != [] && texts[k][0] != ']' {
      assert texts[k] == OutputText(vout[k]);
    }
    forall k, r | 0 <= k < |vout| && r != [] && (r[0] == ',' || r[0] == ']')
      ensures ParseOutput(texts[k] + r) == Some((vout[k], r))
    {
      ParseOutputText(vout[k], r);
    }
  }

  lemma ParseStringFieldText(key: string, x: string, rest: string)
    ensures ParseStringField(key, Label(key) + Quote(x) + rest) == Some((x, rest))
  {
    assert Label(key) + Quote(x) + rest == Label(key) + (Quote(x) + rest);
    ExpectLit(Label(key), Quote(x) + rest);
    ParseStringQuote(x, rest);
  }

  lemma ParseIntFieldText(key: string, i: int, rest: string)
    requires rest == [] || !IsDigit(rest[0])
    ensures ParseIntField(key, Label(key) + IntText(i) + rest) == Some((i, rest))
  {
    assert Label(key) + IntText(i) + rest == Label(key) + (IntText(i) + rest);
    ExpectLit(Label(key), IntText(i) + rest);
    ParseIntText(i, rest);
  }

  lemma ParseInputsFieldText(key: string, vin: seq<TxInput>, rest: string)
    requires rest != [] && (rest[0] == ',' || rest[0] == '}')
    ensures ParseArrayField(key, Label(key) + ArrayText(InputTexts(vin)) + rest, ParseInput) == Some((vin, rest))
  {
    var v := ArrayText(InputTexts(vin));
    assert Label(key) + v + rest == Label(key) + (v + rest);
    ExpectLit(Label(key), v + rest);
    InputsReadBack(vin);
    ParseArrayText(vin, InputTexts(vin), ParseInput, rest);
  }

  lemma ParseOutputsFieldText(key: string, vout: seq<TxOutput>, rest: string)
    requires rest != [] && (rest[0] == ',' || rest[0] == '}')
    ensures ParseArrayField(key, Label(key) + ArrayText(OutputTexts(vout)) + rest, ParseOutput) == Some((vout, rest))
  {
    var v := ArrayText(OutputTexts(vout));
    assert Label(key) + v + rest == Label(key) + (v + rest);
    ExpectLit(Label(key), v + rest);
    OutputsReadBack(vout);
    ParseArrayText(vout, OutputTexts(vout), ParseOutput, rest);
  }

  lemma ParseFromVoutText(tx: Transaction)
    ensures ParseFromVout(tx.memo, tx.timestamp, tx.version, tx.vin,
                          Label("vout") + ArrayText(OutputTexts(tx.vout)) + "}") == Some(tx)
  {
    ParseOutputsFieldText("vout", tx.vout, "}");
    ExpectLit("}", []);
    assert "}" + [] == "}";
  }

  lemma ParseFromVinText(tx: Transaction, e: string)
    requires e == Label("vout") + ArrayText(OutputTexts(tx.vout))
    ensures ParseFromVin(tx.memo, tx.timestamp, tx.version,
                         Label("vin") + ArrayText(InputTexts(tx.vin)) + ("," + (e + "}"))) == Some(tx)
  {
    ParseInputsFieldText("vin", tx.vin, "," + (e + "}"));
    ExpectLit(",", e + "}");
    ParseFromVoutText(tx);
  }

  lemma ParseFromVersionText(tx: Transaction, t: string)
    requires t == Label("vin") + ArrayText(InputTexts(tx.vin)) + ("," + (Label("vout") + ArrayText(OutputTexts(tx.vout)) + "}"))
    ensures ParseFromVersion(tx.memo, tx.timestamp, Label("version") + IntText(tx.version) + ("," + t)) == Some(tx)
  {
    ParseIntFieldText("version", tx.version, "," + t);
    ExpectLit(",", t);
    ParseFromVinText(tx, Label("vout") + ArrayText(OutputTexts(tx.vout)));
  }

  lemma ParseFromTimestampText(tx: Transaction, t: string)
    requires ParseFromVersion(tx.memo, tx.timestamp, t) == Some(tx)
    ensures ParseFromTimestamp(tx.memo, Label("timestamp") + IntText(tx.timestamp) + ("," + t)) == Some(tx)
  {
    ParseIntFieldText("timestamp", tx.timestamp, "," + t);
    ExpectLit(",", t);
  }

  lemma ParseTextOf(tx: Transaction, t: string)
    requires ParseFromTimestamp(tx.memo, t) == Some(tx)
    ensures ParseText("{" + (Label("memo") + Quote(tx.memo) + ("," + t))) == Some(tx)
  {
    var a := Label("memo") + Quote(tx.memo);
    ExpectLit("{", a + ("," + t));
    ParseStringFieldText("memo", tx.memo, "," + t);
    ExpectLit(",", t);
  }

  /** The record's text, cut into its pieces with every separator in front of what follows it. */
  lemma RegroupRecord(a: string, b: string, c: string, d: string, e: string)
    ensures "{" + (a + "," + (b + "," + (c + "," + (d + "," + e)))) + "}"
         == "{" + (a + ("," + (b + ("," + (c + ("," + (d + ("," + (e + "}")))))))))
  {
  }

  /** Parsing the record's text gives back the record. */
  lemma ParseSerializeText(tx: Transaction)
    ensures ParseText(SerializeText(tx)) == Some(tx)
  {
    var a := Label("memo") + Quote(tx.memo);
    var b := Label("timestamp") + IntText(tx.timestamp);
    var c := Label("version") + IntText(tx.version);
    var d := Label("vin") + ArrayText(InputTexts(tx.vin));
    var e := Label("vout") + ArrayText(OutputTexts(tx.vout));
    var t3 := d + ("," + (e + "}"));
    var t2 := c + ("," + t3);
    var t1 := b + ("," + t2);
    assert SerializeText(tx) == "{" + (a + ("," + t1)) by {
      RegroupRecord(a, b, c, d, e);
    }
    ParseFromVersionText(tx, t3);
    ParseFromTimestampText(tx, t2);
    ParseTextOf(tx, t1);
  }

  /** Round trip: `json.loads(tx.serialize())` gives back every field of `tx`. */
  lemma LoadsSerialize(tx: Transaction)
    ensures Loads(Serialize(tx)) == Some(tx)
  {
    Utf8.DecodeEncode(SerializeText(tx));
    ParseSerializeText(tx);
  }

  /** The encoding is injective: two records have the same bytes exactly when every field is equal. */
  lemma SerializeInjective(a: Transaction, b: Transaction)
    ensures Serialize(a) == Serialize(b) <==> a == b
  {
    if Serialize(a) == Serialize(b) {
      LoadsSerialize(a);
      LoadsSerialize(b);
    }
  }

  // ---------------------------------------------------------------- altering the memo

  /** What verification re-signs: the stored bytes read back, the memo replaced
      (`original["memo"] = alter_memo`), and the dict dumped again. The dict read back holds its
      keys in the stored order, not in `serialize`'s; `DumpAnyInsertionOrder` shows the dump does
      not depend on that order, so it is `Serialize` of the altered record. */
  function ReplaceMemo(bs: Bytes, memo: string): Option<Bytes>
  {
    var original :- Loads(bs);
    Some(Serialize(original.(memo := memo)))
  }

  /** Re-encoding with the memo unchanged gives back exactly the stored bytes; with a different
      memo it gives different bytes. Every other field is carried over unchanged. */
  lemma ReplaceMemoSerialize(tx: Transaction, memo: string)
    ensures ReplaceMemo(Serialize(tx), memo) == Some(Serialize(tx.(memo := memo)))
    ensures ReplaceMemo(Serialize(tx), memo) == Some(Serialize(tx)) <==> memo == tx.memo
  {
    LoadsSerialize(tx);
    SerializeInjective(tx, tx.(memo := memo));
  }
}
