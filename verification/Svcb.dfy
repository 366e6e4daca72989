/** The RDATA of an SVCB record: the layout of section 2.2 of RFC 9460, and `rr::SVCB::parse`
    of src/dns/dns.cc. The format written here is the one the parser accepts; it is laxer than
    the standard's, with labels of up to 255 octets and empty ALPN values. */
module Svcb {
  import opened Text

  type Octet = x: int | 0 <= x < 256
  type Octets = seq<Octet>

  const WORD := 65536
  const DOT: Octet := 46

  /** A service parameter as it stands in the RDATA. */
  datatype Field = Alpn(values: seq<Octets>) | Port(port: nat) | Other(key: nat, value: Octets)

  /** What `parse` returns. */
  datatype Record = Record(priority: nat, hostname: Octets, alpn: set<Octets>, port: nat, params: map<nat, Octets>)

  // ---- Reading -------------------------------------------------------------

  function BigEndian(high: int, low: int): int {
    high * 256 + low
  }

  /** `read_uint<uint16_t>`: `None` is the exception at the end of the data. */
  function U16(s: Octets): (r: Option<(nat, Octets)>)
    ensures r.Some? ==> r.value.0 < WORD && |r.value.1| + 2 == |s| && s[2..] == r.value.1
    ensures r.Some? <==> |s| >= 2
  {
    if |s| < 2 then None else Some((BigEndian(s[0], s[1]), s[2..]))
  }

  function Take(s: Octets, n: nat): (r: Option<(Octets, Octets)>)
    ensures r.Some? ==> |r.value.0| == n && s == r.value.0 + r.value.1
  {
    if |s| < n then None else Some((s[..n], s[n..]))
  }

  /** `read_pf_string<uint8_t>` */
  function String8(s: Octets): (r: Option<(Octets, Octets)>)
    ensures r.Some? ==> |r.value.0| < 256 && s == [|r.value.0| as Octet] + r.value.0 + r.value.1
  {
    if s == [] then None
    else
      assert s == [s[0]] + s[1..];
      Take(s[1..], s[0])
  }

  /** `read_pf_string<uint16_t>` */
  function String16(s: Octets): (r: Option<(Octets, Octets)>)
    ensures r.Some? ==> |r.value.1| < |s|
  {
    match U16(s)
    case None => None
    case Some((n, rest)) => Take(rest, n)
  }

  /** `read_hostname`: the labels up to the empty one. */
  function Labels(s: Octets): (r: Option<(seq<Octets>, Octets)>)
    ensures r.Some? ==> |r.value.1| < |s|
    decreases |s|
  {
    match String8(s)
    case None => None
    case Some((name, rest)) =>
      if name == [] then Some(([], rest))
      else
        match Labels(rest)
        case None => None
        case Some((labels, end)) => Some(([name] + labels, end))
  }

  /** Every label with a dot behind it; a lone dot for the root. */
  function Hostname(labels: seq<Octets>): Octets {
    if labels == [] then [DOT] else Dotted(labels)
  }

  function Dotted(labels: seq<Octets>): Octets {
    if labels == [] then [] else labels[0] + [DOT] + Dotted(labels[1..])
  }

  /** The ALPN loop: values until exactly `len` octets are used up. */
  function AlpnValues(s: Octets, len: nat): (r: Option<(seq<Octets>, Octets)>)
    ensures r.Some? ==> |r.value.1| + len == |s|
    decreases len
  {
    if len == 0 then Some(([], s))
    else
      match String8(s)
      case None => None
      case Some((value, rest)) =>
        if |value| + 1 > len then None
        else
          match AlpnValues(rest, len - |value| - 1)
          case None => None
          case Some((values, end)) => Some(([value] + values, end))
  }

  /** One parameter behind its key. */
  function FieldBody(key: nat, s: Octets): (r: Option<(Field, Octets)>)
    ensures r.Some? ==> |r.value.1| < |s|
  {
    if key == 1 then
      match U16(s)
      case None => None
      case Some((len, rest)) =>
        match AlpnValues(rest, len)
        case None => None
        case Some((values, end)) => Some((Alpn(values), end))
    else if key == 3 then
      match U16(s)
      case None => None
      case Some((len, rest)) =>
        if len != 2 then None
        else match U16(rest)
             case None => None
             case Some((port, end)) => Some((Port(port), end))
    else
      match String16(s)
      case None => None
      case Some((value, end)) => Some((Other(key, value), end))
  }

  /** The parameters: keys must increase; fewer than two octets at the end are dropped. */
  function Fields(s: Octets, last: int): Option<seq<Field>>
    decreases |s|
  {
    match U16(s)
    case None => Some([])
    case Some((key, rest)) =>
      if key <= last then None
      else
        match FieldBody(key, rest)
        case None => None
        case Some((field, end)) =>
          match Fields(end, key)
          case None => None
          case Some(fields) => Some([field] + fields)
  }

  function Stored(r: Record, f: Field): Record {
    match f
    case Alpn(values) => r.(alpn := r.alpn + (set v <- values))
    case Port(port) => r.(port := port)
    case Other(key, value) => r.(params := r.params[key := value])
  }

  function StoredAll(r: Record, fields: seq<Field>): Record
    decreases |fields|
  {
    if fields == [] then r else StoredAll(Stored(r, fields[0]), fields[1..])
  }

  function Bare(priority: nat, labels: seq<Octets>): Record {
    Record(priority, Hostname(labels), {}, 0, map[])
  }

  function Parse(s: Octets): Option<Record> {
    match U16(s)
    case None => None
    case Some((priority, rest)) =>
      match Labels(rest)
      case None => None
      case Some((labels, params)) =>
        match Fields(params, -1)
        case None => None
        case Some(fields) => Some(StoredAll(Bare(priority, labels), fields))
  }

  // ---- The wire format -----------------------------------------------------

  function Word(n: nat): (s: Octets)
    requires n < WORD
    ensures |s| == 2
  {
    [n / 256, n % 256]
  }

  predicate Short(s: Octets) {
    |s| < 256
  }

  function Prefixed8(s: Octets): (r: Octets)
    requires Short(s)
    ensures |r| == |s| + 1
  {
    [|s| as Octet] + s
  }

  predicate ValidLabels(labels: seq<Octets>) {
    forall i :: 0 <= i < |labels| ==> Short(labels[i]) && labels[i] != []
  }

  function Name(labels: seq<Octets>): Octets
    requires ValidLabels(labels)
  {
    if labels == [] then [0] else Prefixed8(labels[0]) + Name(labels[1..])
  }

  predicate AllShort(values: seq<Octets>) {
    forall i :: 0 <= i < |values| ==> Short(values[i])
  }

  function Values(values: seq<Octets>): Octets
    requires AllShort(values)
  {
    if values == [] then [] else Prefixed8(values[0]) + Values(values[1..])
  }

  function Key(f: Field): nat {
    match f
    case Alpn(_) => 1
    case Port(_) => 3
    case Other(key, _) => key
  }

  predicate ValidField(f: Field) {
    match f
    case Alpn(values) => AllShort(values) && |Values(values)| < WORD
    case Port(port) => port < WORD
    case Other(key, value) => key < WORD && key != 1 && key != 3 && |value| < WORD
  }

  function Body(f: Field): Octets
    requires ValidField(f)
  {
    match f
    case Alpn(values) => Word(|Values(values)|) + Values(values)
    case Port(port) => Word(2) + Word(port)
    case Other(_, value) => Word(|value|) + value
  }

  /** Valid parameters whose keys increase from above `last`. */
  predicate Ascending(fields: seq<Field>, last: int) {
    fields == [] || (ValidField(fields[0]) && Key(fields[0]) > last && Ascending(fields[1..], Key(fields[0])))
  }

  function Params(fields: seq<Field>, last: int): Octets
    requires Ascending(fields, last)
  {
    if fields == [] then []
    else Word(Key(fields[0])) + Body(fields[0]) + Params(fields[1..], Key(fields[0]))
  }

  predicate ValidRdata(priority: nat, labels: seq<Octets>, fields: seq<Field>) {
    priority < WORD && ValidLabels(labels) && Ascending(fields, -1)
  }

  function Rdata(priority: nat, labels: seq<Octets>, fields: seq<Field>): Octets
    requires ValidRdata(priority, labels, fields)
  {
    Word(priority) + Name(labels) + Params(fields, -1)
  }

  // ---- Reading what was written --------------------------------------------

  lemma ReadWord(n: nat, rest: Octets)
    requires n < WORD
    ensures U16(Word(n) + rest) == Some((n, rest))
  {
    assert (Word(n) + rest)[2..] == rest;
  }

  lemma ReadPrefixed8(s: Octets, rest: Octets)
    requires Short(s)
    ensures String8(Prefixed8(s) + rest) == Some((s, rest))
  {
    var all := Prefixed8(s) + rest;
    assert all[1..] == s + rest;
    assert (s + rest)[..|s|] == s && (s + rest)[|s|..] == rest;
  }

  lemma {:induction false} ReadOneLabel(name: Octets, tail: Octets)
    requires Short(name) && name != [] && Labels(tail).Some?
    ensures Labels(Prefixed8(name) + tail) == Some(([name] + Labels(tail).value.0, Labels(tail).value.1))
  {
    ReadPrefixed8(name, tail);
    hide String8, Prefixed8;
  }

  lemma {:induction false} ReadName(labels: seq<Octets>, rest: Octets)
    requires ValidLabels(labels)
    ensures Labels(Name(labels) + rest) == Some((labels, rest))
    decreases |labels|
  {
    hide String8;
    if labels == [] {
      assert Name(labels) + rest == Prefixed8([]) + rest;
      ReadPrefixed8([], rest);
    } else {
      hide Labels, Prefixed8;
      var tail := Name(labels[1..]) + rest;
      assert Name(labels) + rest == Prefixed8(labels[0]) + tail;
      ReadName(labels[1..], rest);
      ReadOneLabel(labels[0], tail);
      assert [labels[0]] + labels[1..] == labels;
    }
  }

  lemma ReadOneValue(value: Octets, tail: Octets, n: nat)
    requires Short(value) && AlpnValues(tail, n).Some?
    ensures AlpnValues(Prefixed8(value) + tail, |value| + 1 + n)
         == Some(([value] + AlpnValues(tail, n).value.0, AlpnValues(tail, n).value.1))
  {
    ReadPrefixed8(value, tail);
    hide String8, Prefixed8;
  }

  lemma {:induction false} ReadValues(values: seq<Octets>, rest: Octets)
    requires AllShort(values)
    ensures AlpnValues(Values(values) + rest, |Values(values)|) == Some((values, rest))
    decreases |values|
  {
    hide String8, Prefixed8;
    if values == [] {
      assert [] + rest == rest;
    } else {
      hide AlpnValues;
      var tail := Values(values[1..]) + rest;
      assert Values(values) + rest == Prefixed8(values[0]) + tail;
      assert |Values(values)| == |values[0]| + 1 + |Values(values[1..])|;
      ReadValues(values[1..], rest);
      ReadOneValue(values[0], tail, |Values(values[1..])|);
      assert [values[0]] + values[1..] == values;
    }
  }

  lemma ReadBody(f: Field, rest: Octets)
    requires ValidField(f)
    ensures FieldBody(Key(f), Body(f) + rest) == Some((f, rest))
  {
    match f
    case Alpn(values) =>
      assert Body(f) + rest == Word(|Values(values)|) + (Values(values) + rest);
      ReadWord(|Values(values)|, Values(values) + rest);
      ReadValues(values, rest);
    case Port(port) =>
      assert Body(f) + rest == Word(2) + (Word(port) + rest);
      ReadWord(2, Word(port) + rest);
      ReadWord(port, rest);
    case Other(key, value) =>
      assert Body(f) + rest == Word(|value|) + (value + rest);
      ReadWord(|value|, value + rest);
      assert (value + rest)[..|value|] == value && (value + rest)[|value|..] == rest;
  }

  lemma {:induction false} ReadParams(fields: seq<Field>, last: int, tail: Octets)
    requires Ascending(fields, last) && |tail| < 2
    ensures Fields(Params(fields, last) + tail, last) == Some(fields)
    decreases |fields|
  {
    hide FieldBody, Body;
    if fields == [] {
      assert [] + tail == tail;
    } else {
      var key := Key(fields[0]);
      var rest := Params(fields[1..], key) + tail;
      assert Params(fields, last) + tail == Word(key) + (Body(fields[0]) + rest);
      ReadWord(key, Body(fields[0]) + rest);
      ReadBody(fields[0], rest);
      ReadParams(fields[1..], key, tail);
      assert [fields[0]] + fields[1..] == fields;
    }
  }

  /** Everything written in the wire format is accepted and read back, even with one stray
      octet behind it. */
  lemma RoundTrip(priority: nat, labels: seq<Octets>, fields: seq<Field>, tail: Octets)
    requires ValidRdata(priority, labels, fields) && |tail| < 2
    ensures Parse(Rdata(priority, labels, fields) + tail) == Some(StoredAll(Bare(priority, labels), fields))
  {
    hide Fields, Labels, Ascending;
    var params := Params(fields, -1) + tail;
    assert Rdata(priority, labels, fields) + tail == Word(priority) + (Name(labels) + params);
    ReadWord(priority, Name(labels) + params);
    ReadName(labels, params);
    ReadParams(fields, -1, tail);
  }

  // ---- Nothing else is accepted --------------------------------------------

  lemma WordRead(s: Octets)
    requires U16(s).Some?
    ensures s == Word(U16(s).value.0) + U16(s).value.1
  {
    var n := U16(s).value.0;
    assert n / 256 == s[0] && n % 256 == s[1];
  }

  lemma StringRead(s: Octets)
    requires String8(s).Some?
    ensures Short(String8(s).value.0) && |Prefixed8(String8(s).value.0)| == |String8(s).value.0| + 1
    ensures s == Prefixed8(String8(s).value.0) + String8(s).value.1
  {
  }

  lemma NoLabels()
    ensures ValidLabels([]) && Name([]) == Prefixed8([])
  {
  }

  lemma OneMoreLabel(name: Octets, labels: seq<Octets>)
    requires Short(name) && name != [] && ValidLabels(labels)
    ensures ValidLabels([name] + labels) && Name([name] + labels) == Prefixed8(name) + Name(labels)
  {
    assert ([name] + labels)[1..] == labels;
  }

  lemma {:induction false} NameRead(s: Octets)
    requires Labels(s).Some?
    ensures ValidLabels(Labels(s).value.0)
    ensures s == Name(Labels(s).value.0) + Labels(s).value.1
    decreases |s|
  {
    hide Name, ValidLabels, Prefixed8, Take;
    var (name, rest) := String8(s).value;
    StringRead(s);
    if name == [] {
      NoLabels();
    } else {
      NameRead(rest);
      OneMoreLabel(name, Labels(rest).value.0);
    }
  }

  lemma OneMoreValue(value: Octets, values: seq<Octets>)
    requires Short(value) && AllShort(values)
    ensures AllShort([value] + values) && Values([value] + values) == Prefixed8(value) + Values(values)
  {
    assert ([value] + values)[1..] == values;
  }

  lemma {:induction false} ValuesRead(s: Octets, len: nat)
    requires AlpnValues(s, len).Some?
    ensures AllShort(AlpnValues(s, len).value.0) && |Values(AlpnValues(s, len).value.0)| == len
    ensures s == Values(AlpnValues(s, len).value.0) + AlpnValues(s, len).value.1
    decreases len
  {
    hide Prefixed8, Take;
    if len > 0 {
      var (value, rest) := String8(s).value;
      StringRead(s);
      ValuesRead(rest, len - |value| - 1);
      OneMoreValue(value, AlpnValues(rest, len - |value| - 1).value.0);
    }
  }

  /** `f` stands at the front of `s`. */
  predicate StandsFor(key: nat, s: Octets, f: Field, rest: Octets) {
    ValidField(f) && Key(f) == key && s == Body(f) + rest
  }

  lemma {:induction false} AlpnRead(s: Octets)
    requires FieldBody(1, s).Some?
    ensures StandsFor(1, s, FieldBody(1, s).value.0, FieldBody(1, s).value.1)
  {
    hide Word, Values, AllShort, AlpnValues;
    WordRead(s);
    ValuesRead(U16(s).value.1, U16(s).value.0);
  }

  lemma PortRead(s: Octets)
    requires FieldBody(3, s).Some?
    ensures StandsFor(3, s, FieldBody(3, s).value.0, FieldBody(3, s).value.1)
  {
    hide Word;
    WordRead(s);
    WordRead(U16(s).value.1);
  }

  lemma OtherRead(key: nat, s: Octets)
    requires key < WORD && key != 1 && key != 3 && FieldBody(key, s).Some?
    ensures StandsFor(key, s, FieldBody(key, s).value.0, FieldBody(key, s).value.1)
  {
    hide Word;
    WordRead(s);
  }

  lemma BodyRead(key: nat, s: Octets)
    requires key < WORD && FieldBody(key, s).Some?
    ensures StandsFor(key, s, FieldBody(key, s).value.0, FieldBody(key, s).value.1)
  {
    hide FieldBody, StandsFor;
    if key == 1 {
      AlpnRead(s);
    } else if key == 3 {
      PortRead(s);
    } else {
      OtherRead(key, s);
    }
  }

  lemma {:induction false} ParamsRead(s: Octets, last: int) returns (tail: Octets)
    requires Fields(s, last).Some?
    ensures var fields := Fields(s, last).value;
            Ascending(fields, last) && |tail| < 2 && s == Params(fields, last) + tail
    decreases |s|
  {
    hide FieldBody, Body;
    if |s| < 2 {
      tail := s;
    } else {
      WordRead(s);
      var (key, rest) := U16(s).value;
      BodyRead(key, rest);
      var (field, end) := FieldBody(key, rest).value;
      tail := ParamsRead(end, key);
      var fields := Fields(end, key).value;
      assert ([field] + fields)[1..] == fields;
      assert s == Word(key) + Body(field) + Params(fields, key) + tail;
    }
  }

  /** Some valid content, with at most one stray octet behind it, is what `s` encodes. */
  ghost predicate Encodes(s: Octets, r: Record) {
    exists priority, labels, fields, tail :: EncodesAs(s, r, priority, labels, fields, tail)
  }

  predicate EncodesAs(s: Octets, r: Record, priority: nat, labels: seq<Octets>, fields: seq<Field>, tail: Octets) {
    && ValidRdata(priority, labels, fields) && |tail| < 2
    && s == Rdata(priority, labels, fields) + tail
    && r == StoredAll(Bare(priority, labels), fields)
  }

  /** Exactly the format above is accepted: keys strictly increasing, every length filled
      exactly, at most one octet left over; and the record is what it says. */
  lemma ParseExactly(s: Octets, r: Record)
    ensures Parse(s) == Some(r) <==> Encodes(s, r)
  {
    hide Fields, Labels, Ascending, StoredAll;
    if Parse(s) == Some(r) {
      WordRead(s);
      var (priority, rest) := U16(s).value;
      NameRead(rest);
      var (labels, params) := Labels(rest).value;
      var tail := ParamsRead(params, -1);
      var fields := Fields(params, -1).value;
      assert s == Rdata(priority, labels, fields) + tail;
      assert EncodesAs(s, r, priority, labels, fields, tail);
    }
    if Encodes(s, r) {
      var priority, labels, fields, tail :| EncodesAs(s, r, priority, labels, fields, tail);
      RoundTrip(priority, labels, fields, tail);
    }
  }

  /** The keys an accepted RDATA holds, and so its fields, come in strictly increasing order. */
  lemma {:induction false} KeysIncrease(fields: seq<Field>, last: int, i: nat)
    requires Ascending(fields, last) && i < |fields|
    ensures last < Key(fields[i]) < WORD
    ensures forall j :: 0 <= j < i ==> Key(fields[j]) < Key(fields[i])
    decreases |fields|
  {
    if i > 0 {
      KeysIncrease(fields[1..], Key(fields[0]), i - 1);
      forall j | 0 <= j < i
        ensures Key(fields[j]) < Key(fields[i])
      {
        assert fields[1..][i - 1] == fields[i];
        if j > 0 {
          assert fields[1..][j - 1] == fields[j];
        }
      }
    }
  }

  /** Octet by octet: priority 1, the host a.bc, ALPN (key 1) with h2, port (key 3) 443, and a
      parameter with key 5. */
  lemma EveryOctet()
    ensures Parse([0, 1] + ([1, 97, 2, 98, 99, 0]
                            + [0, 1, 0, 3, 2, 104, 50, 0, 3, 0, 2, 1, 187, 0, 5, 0, 1, 9]))
         == Some(Record(1, [97, 46, 98, 99, 46], {[104, 50]}, 443, map[5 := [9]]))
  {
    hide Parse, Fields, Labels, StoredAll, Hostname, FieldBody;
    var a: Octets, bc: Octets := [97], [98, 99];
    var params: Octets := [0, 1, 0, 3, 2, 104, 50, 0, 3, 0, 2, 1, 187, 0, 5, 0, 1, 9];
    EveryLabel(params);
    EveryField();
    var fields := [Alpn([[104, 50]]), Port(443), Other(5, [9])];
    ParsedAs([1, 97, 2, 98, 99, 0] + params, [a, bc], params, fields);
    StoredThree(Bare(1, [a, bc]), [104, 50], 443, 5, [9]);
    EveryDot();
    var r := Bare(1, [a, bc]);
    assert r.alpn + {[104, 50]} == {[104, 50]} && r.params[5 := [9]] == map[5 := [9]];
    assert r.hostname == [97, 46, 98, 99, 46];
  }

  lemma ParsedAs(rest: Octets, labels: seq<Octets>, params: Octets, fields: seq<Field>)
    requires Labels(rest) == Some((labels, params)) && Fields(params, -1) == Some(fields)
    ensures Parse([0, 1] + rest) == Some(StoredAll(Bare(1, labels), fields))
  {
    hide Fields, Labels;
    assert ([0, 1] + rest)[2..] == rest;
  }

  lemma EveryLabel(params: Octets)
    ensures Labels([1, 97, 2, 98, 99, 0] + params) == Some(([[97], [98, 99]], params))
  {
    var a: Octets, bc: Octets := [97], [98, 99];
    assert [a, bc][1..] == [bc] && [bc][1..] == [];
    assert Name([]) == [0] && Name([bc]) == [2, 98, 99, 0] && Name([a, bc]) == [1, 97, 2, 98, 99, 0];
    ReadName([a, bc], params);
  }

  lemma EveryDot()
    ensures Hostname([[97], [98, 99]]) == [97, 46, 98, 99, 46]
  {
    var a: Octets, bc: Octets := [97], [98, 99];
    assert [a, bc][1..] == [bc] && [bc][1..] == [];
    assert Dotted([bc]) == [98, 99, 46];
  }

  lemma EveryField()
    ensures Fields([0, 1, 0, 3, 2, 104, 50, 0, 3, 0, 2, 1, 187, 0, 5, 0, 1, 9], -1)
         == Some([Alpn([[104, 50]]), Port(443), Other(5, [9])])
  {
    hide Fields, Ascending;
    var h2: Octets, nine: Octets := [104, 50], [9];
    var alpn, port, other := Alpn([h2]), Port(443), Other(5, nine);
    assert [h2][1..] == [] && Values([h2]) == [2, 104, 50];
    assert [other] + [] == [other] && [port] + [other] == [port, other];
    var all := [alpn] + [port, other];
    LastField(5);
    FirstField(other, [], 3);
    FirstField(port, [other], 1);
    FirstField(alpn, [port, other], -1);
    assert Word(1) + Body(alpn) == [0, 1, 0, 3, 2, 104, 50];
    assert Word(3) + Body(port) == [0, 3, 0, 2, 1, 187];
    assert Word(5) + Body(other) == [0, 5, 0, 1, 9];
    ReadParams(all, -1, []);
    assert all == [Alpn([[104, 50]]), Port(443), Other(5, [9])];
    assert Params(all, -1) + [] == [0, 1, 0, 3, 2, 104, 50, 0, 3, 0, 2, 1, 187, 0, 5, 0, 1, 9];
  }

  lemma LastField(last: int)
    ensures Ascending([], last) && Params([], last) == []
  {
  }

  lemma FirstField(f: Field, rest: seq<Field>, last: int)
    requires ValidField(f) && Key(f) > last && Ascending(rest, Key(f))
    ensures Ascending([f] + rest, last)
    ensures Params([f] + rest, last) == Word(Key(f)) + Body(f) + Params(rest, Key(f))
  {
    assert ([f] + rest)[1..] == rest;
  }

  lemma StoredThree(r: Record, value: Octets, port: nat, key: nat, other: Octets)
    ensures StoredAll(r, [Alpn([value]), Port(port), Other(key, other)])
         == r.(alpn := r.alpn + {value}, port := port, params := r.params[key := other])
  {
    var a, p, o := Alpn([value]), Port(port), Other(key, other);
    assert [a, p, o][1..] == [p, o] && [p, o][1..] == [o] && [o][1..] == [];
    assert Stored(r, a).alpn == r.alpn + {value};
    assert StoredAll(Stored(Stored(r, a), p), [o]) == Stored(Stored(Stored(r, a), p), o);
  }

  /** Priority 1, the root, no parameters, and one octet too many. */
  lemma StrayOctetHappens()
    ensures Parse([0, 1, 0, 7]) == Some(Record(1, [DOT], {}, 0, map[]))
  {
    hide Parse;
    RoundTrip(1, [], [], [7]);
    assert Name([]) == [0] && Params([], -1) == [];
    assert Rdata(1, [], []) + [7] == [0, 1, 0, 7];
  }

  /** The parser is laxer than the standard: it takes a label of more than 63 octets and an
      empty ALPN value. */
  lemma LaxerThanTheStandard(name: Octets)
    requires 63 < |name| < 256
    ensures ValidRdata(1, [name], [Alpn([[]])])
    ensures Parse(Rdata(1, [name], [Alpn([[]])])) == Some(Record(1, name + [DOT], {[]}, 0, map[]))
  {
    hide Parse, Rdata;
    var empty: Octets := [];
    assert [name][1..] == [] && Dotted([name]) == name + [DOT];
    assert [empty][1..] == [] && Values([empty]) == [0];
    assert [Alpn([empty])][1..] == [] && Ascending([Alpn([empty])], -1);
    RoundTrip(1, [name], [Alpn([empty])], []);
    var all := Rdata(1, [name], [Alpn([empty])]);
    assert all + [] == all;
    var bare := Bare(1, [name]);
    assert Stored(bare, Alpn([empty])).alpn == {empty};
    assert StoredAll(bare, [Alpn([empty])]) == StoredAll(Stored(bare, Alpn([empty])), []);
  }

  // ---- Every record has an encoding ----------------------------------------

  /** A record the wire format can hold, with its host name cut into labels and its ALPN
      values in some order. */
  predicate Holds(r: Record, labels: seq<Octets>, values: seq<Octets>) {
    && r.priority < WORD && r.port < WORD
    && ValidLabels(labels) && r.hostname == Hostname(labels)
    && AllShort(values) && |Values(values)| < WORD && r.alpn == (set v <- values)
    && (forall k <- r.params :: k < WORD && k != 1 && k != 3 && |r.params[k]| < WORD)
  }

  function FieldAt(r: Record, values: seq<Octets>, key: nat): (here: seq<Field>)
    ensures |here| <= 1
  {
    if key == 1 then if values == [] then [] else [Alpn(values)]
    else if key == 3 then if r.port == 0 then [] else [Port(r.port)]
    else if key in r.params then [Other(key, r.params[key])]
    else []
  }

  /** The parameters of `r` from `key` on, by ascending key. */
  function FieldsFrom(r: Record, values: seq<Octets>, key: nat): seq<Field>
    decreases WORD - key
  {
    if key >= WORD then [] else FieldAt(r, values, key) + FieldsFrom(r, values, key + 1)
  }

  /** `part` holds what `r` holds under the keys below `key`, and nothing else. */
  predicate UpTo(part: Record, r: Record, key: nat) {
    && part.priority == r.priority && part.hostname == r.hostname
    && part.alpn == (if key > 1 then r.alpn else {})
    && part.port == (if key > 3 then r.port else 0)
    && part.params == map k | k in r.params && k < key :: r.params[k]
  }

  lemma FieldAdds(part: Record, r: Record, labels: seq<Octets>, values: seq<Octets>, key: nat)
    requires Holds(r, labels, values) && UpTo(part, r, key) && key < WORD
    ensures var here := FieldAt(r, values, key);
            if here == [] then UpTo(part, r, key + 1)
            else ValidField(here[0]) && Key(here[0]) == key && UpTo(Stored(part, here[0]), r, key + 1)
  {
    hide Values, Hostname, ValidLabels;
  }

  lemma {:induction false} FieldsRebuild(part: Record, r: Record, labels: seq<Octets>, values: seq<Octets>, key: nat,
                                         last: int)
    requires Holds(r, labels, values) && UpTo(part, r, key) && key <= WORD && last < key
    ensures Ascending(FieldsFrom(r, values, key), last)
    ensures StoredAll(part, FieldsFrom(r, values, key)) == r
    decreases WORD - key
  {
    if key == WORD {
      assert part.params == r.params;
    } else {
      hide Holds, UpTo, FieldAt, Stored, ValidField;
      var rest := FieldsFrom(r, values, key + 1);
      var here := FieldAt(r, values, key);
      FieldAdds(part, r, labels, values, key);
      if here == [] {
        assert here + rest == rest;
        FieldsRebuild(part, r, labels, values, key + 1, last);
      } else {
        assert (here + rest)[1..] == rest;
        FieldsRebuild(Stored(part, here[0]), r, labels, values, key + 1, key);
      }
    }
  }

  /** Writing any record by ascending key and parsing it returns the record. */
  lemma RecordReadsBack(r: Record, labels: seq<Octets>, values: seq<Octets>)
    requires Holds(r, labels, values)
    ensures ValidRdata(r.priority, labels, FieldsFrom(r, values, 0))
    ensures Parse(Rdata(r.priority, labels, FieldsFrom(r, values, 0))) == Some(r)
  {
    hide Parse, StoredAll, FieldsFrom, Rdata, Ascending;
    FieldsRebuild(Bare(r.priority, labels), r, labels, values, 0, -1);
    var all := Rdata(r.priority, labels, FieldsFrom(r, values, 0));
    RoundTrip(r.priority, labels, FieldsFrom(r, values, 0), []);
    assert all + [] == all;
  }

  // ---- The stream the parser reads -----------------------------------------

  function Prepended<T>(front: seq<T>, r: Option<(seq<T>, Octets)>): Option<(seq<T>, Octets)> {
    if r.None? then None else Some((front + r.value.0, r.value.1))
  }

  lemma PrependedNothing<T>(r: Option<(seq<T>, Octets)>)
    ensures Prepended([], r) == r
  {
    if r.Some? {
      assert [] + r.value.0 == r.value.0;
    }
  }

  lemma PrependedTwice<T>(a: seq<T>, b: seq<T>, r: Option<(seq<T>, Octets)>)
    ensures Prepended(a, Prepended(b, r)) == Prepended(a + b, r)
  {
    if r.Some? {
      assert a + (b + r.value.0) == a + b + r.value.0;
    }
  }

  /** The body of `Labels` behind its first string. */
  function NameThenLabels(name: Octets, rest: Octets): Option<(seq<Octets>, Octets)> {
    if name == [] then Some(([], rest)) else Prepended([name], Labels(rest))
  }

  function StoredFields(r: Record, fields: Option<seq<Field>>): Option<Record> {
    if fields.None? then None else Some(StoredAll(r, fields.value))
  }

  /** One turn of the parameter loop. */
  lemma FieldsTurn(r: Record, s: Octets, last: int)
    requires U16(s).Some?
    ensures var (key, rest) := U16(s).value;
            var body := FieldBody(key, rest);
            if key <= last || body.None? then Fields(s, last).None?
            else StoredFields(r, Fields(s, last)) == StoredFields(Stored(r, body.value.0), Fields(body.value.1, key))
  {
    hide FieldBody, Stored;
    var (key, rest) := U16(s).value;
    var body := FieldBody(key, rest);
    if key > last && body.Some? && Fields(body.value.1, key).Some? {
      var fields := Fields(body.value.1, key).value;
      assert ([body.value.0] + fields)[1..] == fields;
    }
  }

  lemma {:induction false} OneMoreDot(labels: seq<Octets>, name: Octets)
    ensures Dotted(labels + [name]) == Dotted(labels) + name + [DOT]
    decreases |labels|
  {
    if labels == [] {
      assert [name][1..] == [];
    } else {
      assert (labels + [name])[1..] == labels[1..] + [name];
      OneMoreDot(labels[1..], name);
    }
  }

  /** `std::istringstream` as the parser uses it; `None` stands for the exception. */
  class Stream {
    const data: Octets
    var pos: nat
    var eof: bool

    ghost predicate Valid()
      reads this
    {
      pos <= |data| && (eof ==> pos == |data|)
    }

    ghost function Unread(): Octets
      reads this
      requires Valid()
    {
      data[pos..]
    }

    /** What a successful reading leaves, and that a failed one yields nothing. */
    ghost predicate Delivers<T>(expected: Option<(T, Octets)>, r: Option<T>)
      reads this
    {
      && Valid()
      && (if expected.None? then r.None? else r == Some(expected.value.0) && Unread() == expected.value.1)
    }

    constructor (s: Octets)
      ensures Valid() && Unread() == s && !eof
    {
      data, pos, eof := s, 0, false;
    }

    method ReadUint16() returns (r: Option<nat>)
      requires Valid()
      modifies this
      ensures Delivers(U16(old(Unread())), r)
      ensures r.None? ==> eof
      ensures r.Some? ==> eof == old(eof)
    {
      if |data| - pos < 2 {
        pos, eof := |data|, true;
        return None;
      }
      r := Some(BigEndian(data[pos], data[pos + 1]));
      pos := pos + 2;
    }

    method ReadOctets(n: nat) returns (r: Option<Octets>)
      requires Valid()
      modifies this
      ensures Delivers(Take(old(Unread()), n), r)
    {
      if |data| - pos < n {
        pos, eof := |data|, true;
        return None;
      }
      assert data[pos..pos + n] == Unread()[..n];
      r := Some(data[pos..pos + n]);
      pos := pos + n;
    }

    /** `read_pf_string<uint8_t>` */
    method ReadString8() returns (r: Option<Octets>)
      requires Valid()
      modifies this
      ensures Delivers(String8(old(Unread())), r)
    {
      if pos == |data| {
        eof := true;
        return None;
      }
      var len := data[pos];
      pos := pos + 1;
      if len == 0 {
        return Some([]);
      }
      r := ReadOctets(len);
    }

    /** `read_pf_string<uint16_t>` */
    method ReadString16() returns (r: Option<Octets>)
      requires Valid()
      modifies this
      ensures Delivers(String16(old(Unread())), r)
    {
      var len := ReadUint16();
      if len.None? {
        return None;
      }
      if len.value == 0 {
        return Some([]);
      }
      r := ReadOctets(len.value);
    }

    /** `read_hostname` */
    method ReadHostname() returns (r: Option<Octets>)
      requires Valid()
      modifies this
      ensures Valid()
      ensures Labels(old(Unread())).None? ==> r.None?
      ensures Labels(old(Unread())).Some? ==>
                && r == Some(Hostname(Labels(old(Unread())).value.0))
                && Unread() == Labels(old(Unread())).value.1
    {
      ghost var was := Unread();
      var hostname: Octets := [];
      ghost var before: seq<Octets> := [];
      var name := ReadString8();
      if name.None? {
        return None;
      }
      PrependedNothing(NameThenLabels(name.value, Unread()));
      while name.value != []
        invariant Valid() && name.Some?
        invariant hostname == Dotted(before)
        invariant Labels(was) == Prepended(before, NameThenLabels(name.value, Unread()))
        decreases |Unread()|, |name.value|
      {
        hostname := hostname + name.value;
        hostname := hostname + [DOT];
        OneMoreDot(before, name.value);
        PrependedTwice(before, [name.value], Labels(Unread()));
        before := before + [name.value];
        name := ReadString8();
        if name.None? {
          return None;
        }
      }
      assert before + [] == before;
      if hostname == [] {
        return Some([DOT]);
      }
      return Some(hostname);
    }

    /** The body of `case 1`: the ALPN values, put into `alpn`. */
    method ReadAlpn(alpn: set<Octets>) returns (r: Option<set<Octets>>)
      requires Valid()
      modifies this
      ensures Valid()
      ensures FieldBody(1, old(Unread())).None? ==> r.None?
      ensures FieldBody(1, old(Unread())).Some? ==>
                && r == Some(alpn + (set v <- FieldBody(1, old(Unread())).value.0.values))
                && Unread() == FieldBody(1, old(Unread())).value.1
    {
      hide String8, U16, Take;
      var length := ReadUint16();
      if length.None? {
        return None;
      }
      ghost var was := Unread();
      var len: int := length.value;
      ghost var before: seq<Octets> := [];
      var all := alpn;
      PrependedNothing(AlpnValues(was, len));
      while len > 0
        invariant Valid() && len >= 0
        invariant all == alpn + (set v <- before)
        invariant AlpnValues(was, length.value) == Prepended(before, AlpnValues(Unread(), len))
      {
        var value := ReadString8();
        if value.None? || |value.value| + 1 > len {
          return None;
        }
        len := len - |value.value|;
        len := len - 1;
        PrependedTwice(before, [value.value], AlpnValues(Unread(), len));
        all := all + {value.value};
        before := before + [value.value];
      }
      assert before + [] == before;
      r := Some(all);
    }

    /** One turn of the loop's `switch`. */
    method ReadField(rr: Record, param: nat) returns (r: Option<Record>)
      requires Valid()
      modifies this
      ensures Valid()
      ensures FieldBody(param, old(Unread())).None? ==> r.None?
      ensures FieldBody(param, old(Unread())).Some? ==>
                && r == Some(Stored(rr, FieldBody(param, old(Unread())).value.0))
                && Unread() == FieldBody(param, old(Unread())).value.1
    {
      if param == 1 {
        var alpn := ReadAlpn(rr.alpn);
        return if alpn.None? then None else Some(rr.(alpn := alpn.value));
      } else if param == 3 {
        var two := ReadUint16();
        if two != Some(2) {
          return None;
        }
        var port := ReadUint16();
        return if port.None? then None else Some(rr.(port := port.value));
      } else {
        var value := ReadString16();
        return if value.None? then None else Some(rr.(params := rr.params[param := value.value]));
      }
    }

    /** The parameter loop of `rr::SVCB::parse`. */
    method ReadParams(bare: Record) returns (r: Option<Record>)
      requires Valid()
      modifies this
      ensures r == StoredFields(bare, Fields(old(Unread()), -1))
    {
      hide FieldBody, Stored;
      var rr := bare;
      var last: int := -1;
      ghost var was := Unread();
      while !eof
        invariant Valid()
        invariant StoredFields(bare, Fields(was, -1)) == StoredFields(rr, Fields(Unread(), last))
        decreases |Unread()|, !eof
      {
        ghost var at := Unread();
        var param := ReadUint16();
        if param.None? {
          break;
        }
        FieldsTurn(rr, at, last);
        if param.value <= last {
          return None;
        }
        last := param.value;
        var stored := ReadField(rr, param.value);
        if stored.None? {
          return None;
        }
        rr := stored.value;
      }
      r := Some(rr);
    }
  }

  /** `rr::SVCB::parse` */
  method ParseRdata(s: Octets) returns (r: Option<Record>)
    ensures r == Parse(s)
  {
    var ss := new Stream(s);
    var priority := ss.ReadUint16();
    if priority.None? {
      return None;
    }
    var hostname := ss.ReadHostname();
    if hostname.None? {
      return None;
    }
    r := ss.ReadParams(Record(priority.value, hostname.value, {}, 0, map[]));
  }
}
