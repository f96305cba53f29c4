// IPFIX messages as a collector reads them (RFC 7011 sections 3.1, 3.3, 3.4 and 7): sets,
// templates, template-driven data records and variable-length values.
module Ipfix {
  import opened Basics
  import opened Octets

  datatype Parsed<T> = Failed | Parsed(value: T, rest: Octets)

  // ---- templates ------------------------------------------------------------------------

  const VARIABLE: u16 := 65535

  // An information element of an enterprise has bit 15 of its identifier set on the wire.
  type u15 = x: int | 0 <= x < 0x8000

  datatype FieldSpec = FieldSpec(enterprise: Option<u32>, id: u15, length: u16)

  function EncodeSpec(f: FieldSpec): Octets
  {
    if f.enterprise.Some? then Be16(0x8000 + f.id) + (Be16(f.length) + Be32(f.enterprise.value))
    else Be16(f.id) + Be16(f.length)
  }

  function ParseSpec(bytes: Octets): (r: Parsed<FieldSpec>)
    ensures r.Parsed? ==> |r.rest| < |bytes|
  {
    if |bytes| < 4 then Failed
    else if Get16(bytes) < 0x8000 then
      Parsed(FieldSpec(None, Get16(bytes), Get16(bytes[2..])), bytes[4..])
    else if |bytes| < 8 then Failed
    else Parsed(FieldSpec(Some(Get32(bytes[4..])), Get16(bytes) - 0x8000, Get16(bytes[2..])), bytes[8..])
  }

  lemma SpecReadBack(f: FieldSpec, rest: Octets)
    ensures ParseSpec(EncodeSpec(f) + rest) == Parsed(f, rest)
  {
    if f.enterprise.Some? {
      var tail2 := Be32(f.enterprise.value) + rest;
      var tail1 := Be16(f.length) + tail2;
      assert EncodeSpec(f) + rest == Be16(0x8000 + f.id) + tail1;
      Get16Front(0x8000 + f.id, tail1);
      Get16Front(f.length, tail2);
      Get32Front(f.enterprise.value, rest);
      var all := Be16(0x8000 + f.id) + tail1;
      assert all[4..] == all[2..][2..] && all[8..] == all[4..][4..];
    } else {
      var tail1 := Be16(f.length) + rest;
      assert EncodeSpec(f) + rest == Be16(f.id) + tail1;
      Get16Front(f.id, tail1);
      Get16Front(f.length, rest);
      assert (Be16(f.id) + tail1)[4..] == tail1[2..];
    }
  }

  function EncodeSpecs(specs: seq<FieldSpec>): Octets
  {
    if specs == [] then [] else EncodeSpec(specs[0]) + EncodeSpecs(specs[1..])
  }

  function ParseSpecs(bytes: Octets, count: nat): (r: Parsed<seq<FieldSpec>>)
    ensures r.Parsed? ==> |r.rest| <= |bytes|
    decreases count
  {
    if count == 0 then Parsed([], bytes)
    else
      match ParseSpec(bytes)
      case Failed => Failed
      case Parsed(f, rest) =>
        match ParseSpecs(rest, count - 1)
        case Failed => Failed
        case Parsed(fs, end) => Parsed([f] + fs, end)
  }

  lemma {:induction false} SpecsReadBack(specs: seq<FieldSpec>, rest: Octets)
    ensures ParseSpecs(EncodeSpecs(specs) + rest, |specs|) == Parsed(specs, rest)
  {
    if specs == [] {
      assert EncodeSpecs(specs) + rest == rest;
    } else {
      Assoc(EncodeSpec(specs[0]), EncodeSpecs(specs[1..]), rest);
      SpecReadBack(specs[0], EncodeSpecs(specs[1..]) + rest);
      SpecsReadBack(specs[1..], rest);
      assert [specs[0]] + specs[1..] == specs;
    }
  }

  type Templates = map<u16, seq<FieldSpec>>

  // Template records (and options template records, which also carry a scope count) until
  // what is left is too short to be another one: the padding.
  function ParseTemplates(bytes: Octets, options: bool, known: Templates): Option<Templates>
    decreases |bytes|
  {
    if |bytes| < 4 then Some(known)
    else
      var id, count := Get16(bytes), Get16(bytes[2..]);
      var header := if options then 6 else 4;
      if |bytes| < header then None
      else
        var specs := ParseSpecs(bytes[header..], count);
        if specs.Failed? then None else ParseTemplates(specs.rest, options, known[id := specs.value])
  }

  function EncodeTemplate(id: u16, specs: seq<FieldSpec>): Octets
    requires |specs| < U16
  {
    Be16(id) + (Be16(|specs|) + EncodeSpecs(specs))
  }

  function EncodeOptionsTemplate(id: u16, scope: u16, specs: seq<FieldSpec>): Octets
    requires |specs| < U16
  {
    Be16(id) + (Be16(|specs|) + (Be16(scope) + EncodeSpecs(specs)))
  }

  lemma TemplateReadBack(id: u16, specs: seq<FieldSpec>, padding: Octets, known: Templates)
    requires |specs| < U16 && |padding| < 4
    ensures ParseTemplates(EncodeTemplate(id, specs) + padding, false, known) == Some(known[id := specs])
  {
    var t2 := EncodeSpecs(specs) + padding;
    var t1 := Be16(|specs|) + t2;
    var all := EncodeTemplate(id, specs) + padding;
    assert all == Be16(id) + t1;
    Get16Front(id, t1);
    Get16Front(|specs|, t2);
    assert all[4..] == all[2..][2..];
    SpecsReadBack(specs, padding);
  }

  lemma OptionsTemplateReadBack(id: u16, scope: u16, specs: seq<FieldSpec>, padding: Octets, known: Templates)
    requires |specs| < U16 && |padding| < 4
    ensures ParseTemplates(EncodeOptionsTemplate(id, scope, specs) + padding, true, known) == Some(known[id := specs])
  {
    var t3 := EncodeSpecs(specs) + padding;
    var t2 := Be16(scope) + t3;
    var t1 := Be16(|specs|) + t2;
    var all := EncodeOptionsTemplate(id, scope, specs) + padding;
    assert all == Be16(id) + t1;
    Get16Front(id, t1);
    Get16Front(|specs|, t2);
    Get16Front(scope, t3);
    assert all[6..] == all[2..][2..][2..];
    SpecsReadBack(specs, padding);
  }

  // ---- data records -------------------------------------------------------------------------

  predicate Fits(f: FieldSpec, value: Octets) {
    if f.length == VARIABLE then |value| < 255 else |value| == f.length
  }

  // A variable-length value below 255 octets has one length octet before it.
  function EncodeValue(f: FieldSpec, value: Octets): Octets
    requires Fits(f, value)
  {
    if f.length == VARIABLE then [|value|] + value else value
  }

  function ParseValue(bytes: Octets, f: FieldSpec): (r: Parsed<Octets>)
    ensures r.Parsed? ==> |r.rest| + MinLength(f) <= |bytes|
  {
    if f.length != VARIABLE then
      if |bytes| < f.length then Failed else Parsed(bytes[..f.length], bytes[f.length..])
    else if bytes == [] then Failed
    else if bytes[0] < 255 then
      var n := bytes[0];
      if |bytes| < 1 + n then Failed else Parsed(bytes[1..1 + n], bytes[1 + n..])
    else if |bytes| < 3 then Failed
    else
      var n := Get16(bytes[1..]);
      if |bytes| < 3 + n then Failed else Parsed(bytes[3..3 + n], bytes[3 + n..])
  }

  function MinLength(f: FieldSpec): nat {
    if f.length == VARIABLE then 1 else f.length
  }

  function MinRecord(specs: seq<FieldSpec>): nat {
    if specs == [] then 0 else MinLength(specs[0]) + MinRecord(specs[1..])
  }

  lemma ValueReadBack(f: FieldSpec, value: Octets, rest: Octets)
    requires Fits(f, value)
    ensures ParseValue(EncodeValue(f, value) + rest, f) == Parsed(value, rest)
  {
    var all := EncodeValue(f, value) + rest;
    if f.length == VARIABLE {
      assert all[1..1 + |value|] == value && all[1 + |value|..] == rest;
    } else {
      Front(value, rest);
    }
  }

  ghost predicate AllFit(specs: seq<FieldSpec>, values: seq<Octets>) {
    |values| == |specs| && forall i :: 0 <= i < |specs| ==> Fits(specs[i], values[i])
  }

  function EncodeRecord(specs: seq<FieldSpec>, values: seq<Octets>): Octets
    requires AllFit(specs, values)
  {
    if specs == [] then [] else EncodeValue(specs[0], values[0]) + EncodeRecord(specs[1..], values[1..])
  }

  function ParseRecord(bytes: Octets, specs: seq<FieldSpec>): (r: Parsed<seq<Octets>>)
    ensures r.Parsed? ==> |r.rest| + MinRecord(specs) <= |bytes|
    decreases |specs|
  {
    if specs == [] then Parsed([], bytes)
    else
      match ParseValue(bytes, specs[0])
      case Failed => Failed
      case Parsed(v, rest) =>
        match ParseRecord(rest, specs[1..])
        case Failed => Failed
        case Parsed(vs, end) => Parsed([v] + vs, end)
  }

  lemma {:induction false} RecordReadBack(specs: seq<FieldSpec>, values: seq<Octets>, rest: Octets)
    requires AllFit(specs, values)
    ensures ParseRecord(EncodeRecord(specs, values) + rest, specs) == Parsed(values, rest)
    decreases |specs|
  {
    if specs == [] {
      assert EncodeRecord(specs, values) + rest == rest;
    } else {
      Assoc(EncodeValue(specs[0], values[0]), EncodeRecord(specs[1..], values[1..]), rest);
      ValueReadBack(specs[0], values[0], EncodeRecord(specs[1..], values[1..]) + rest);
      RecordReadBack(specs[1..], values[1..], rest);
      assert [values[0]] + values[1..] == values;
    }
  }

  // Records until what is left is shorter than any record of the template: the padding.
  function ParseRecords(bytes: Octets, specs: seq<FieldSpec>): Option<seq<seq<Octets>>>
    decreases |bytes|
  {
    if MinRecord(specs) == 0 then None
    else if |bytes| < MinRecord(specs) then Some([])
    else
      var first := ParseRecord(bytes, specs);
      if first.Failed? then None
      else
        var others := ParseRecords(first.rest, specs);
        if others.None? then None else Some([first.value] + others.value)
  }

  function EncodeRecords(specs: seq<FieldSpec>, records: seq<seq<Octets>>): Octets
    requires forall r :: r in records ==> AllFit(specs, r)
  {
    if records == [] then [] else EncodeRecord(specs, records[0]) + EncodeRecords(specs, records[1..])
  }

  lemma {:induction false} EncodedRecordLength(specs: seq<FieldSpec>, values: seq<Octets>)
    requires AllFit(specs, values)
    ensures |EncodeRecord(specs, values)| >= MinRecord(specs)
  {
    if specs == [] {
    } else {
      EncodedRecordLength(specs[1..], values[1..]);
    }
  }

  // The records come back in order, whatever is behind them.
  lemma {:induction false} RecordsReadBack(specs: seq<FieldSpec>, records: seq<seq<Octets>>, rest: Octets)
    requires MinRecord(specs) > 0 && forall r :: r in records ==> AllFit(specs, r)
    ensures var more := ParseRecords(rest, specs);
            ParseRecords(EncodeRecords(specs, records) + rest, specs)
            == if more.None? then None else Some(records + more.value)
    decreases |records|
  {
    if records == [] {
      assert EncodeRecords(specs, records) + rest == rest;
      var more := ParseRecords(rest, specs);
      assert more.Some? ==> records + more.value == more.value;
    } else {
      var tail := EncodeRecords(specs, records[1..]) + rest;
      Assoc(EncodeRecord(specs, records[0]), EncodeRecords(specs, records[1..]), rest);
      RecordReadBack(specs, records[0], tail);
      EncodedRecordLength(specs, records[0]);
      RecordsReadBack(specs, records[1..], rest);
      var more := ParseRecords(rest, specs);
      if more.Some? {
        HeadAppend(records, more.value);
      }
    }
  }

  // ---- sets and messages ------------------------------------------------------------------------

  datatype Record = Record(template: u16, values: seq<Octets>)

  function Tagged(id: u16, records: seq<seq<Octets>>): seq<Record> {
    if records == [] then [] else [Record(id, records[0])] + Tagged(id, records[1..])
  }

  datatype Decoded = Decoded(templates: Templates, records: seq<Record>)

  // One set: set 2 holds templates, set 3 options templates, from 256 on data records; data
  // without a known template are passed over.
  function ParseSet(id: u16, content: Octets, known: Templates): Option<Decoded> {
    if id == 2 || id == 3 then
      var t := ParseTemplates(content, id == 3, known);
      if t.None? then None else Some(Decoded(t.value, []))
    else if id >= 256 && id in known then
      var r := ParseRecords(content, known[id]);
      if r.None? then None else Some(Decoded(known, Tagged(id, r.value)))
    else Some(Decoded(known, []))
  }

  function ParseSets(bytes: Octets, known: Templates): Option<Decoded>
    decreases |bytes|
  {
    if bytes == [] then Some(Decoded(known, []))
    else if |bytes| < 4 then None
    else
      var id, len := Get16(bytes), Get16(bytes[2..]);
      if len < 4 || len > |bytes| then None
      else
        var first := ParseSet(id, bytes[4..len], known);
        if first.None? then None
        else
          var others := ParseSets(bytes[len..], first.value.templates);
          if others.None? then None
          else Some(Decoded(others.value.templates, first.value.records + others.value.records))
  }

  function SetOf(id: u16, content: Octets): Octets
    requires |content| + 4 < U16
  {
    Be16(id) + (Be16(|content| + 4) + content)
  }

  lemma SetReadBack(id: u16, content: Octets, rest: Octets, known: Templates)
    requires |content| + 4 < U16
    ensures ParseSets(SetOf(id, content) + rest, known)
            == var first := ParseSet(id, content, known);
               if first.None? then None
               else
                 var others := ParseSets(rest, first.value.templates);
                 if others.None? then None
                 else Some(Decoded(others.value.templates, first.value.records + others.value.records))
  {
    var len := |content| + 4;
    var tail := Be16(len) + (content + rest);
    var all := SetOf(id, content) + rest;
    assert all == Be16(id) + tail;
    Get16Front(id, tail);
    Get16Front(len, content + rest);
    assert all[4..] == all[2..][2..];
    assert all[4..len] == content && all[len..] == rest;
  }

  datatype Message = Message(exportTime: u32, sequence: u32, domain: u32, content: Decoded)

  // Version 10, and a length that covers the whole message.
  function ParseMessage(bytes: Octets, known: Templates): Option<Message> {
    if |bytes| < 16 || Get16(bytes) != 10 || Get16(bytes[2..]) != |bytes| then None
    else
      var content := ParseSets(bytes[16..], known);
      if content.None? then None
      else Some(Message(Get32(bytes[4..]), Get32(bytes[8..]), Get32(bytes[12..]), content.value))
  }

  function Header(length: u16, exportTime: u32, sequence: u32, domain: u32): (r: Octets)
    ensures |r| == 16
  {
    Be16(10) + (Be16(length) + (Be32(exportTime) + (Be32(sequence) + Be32(domain))))
  }

  lemma HeaderReadBack(length: u16, exportTime: u32, sequence: u32, domain: u32, sets: Octets, known: Templates)
    requires length == 16 + |sets|
    ensures ParseMessage(Header(length, exportTime, sequence, domain) + sets, known)
            == var content := ParseSets(sets, known);
               if content.None? then None else Some(Message(exportTime, sequence, domain, content.value))
  {
    var t4 := Be32(domain) + sets;
    var t3 := Be32(sequence) + t4;
    var t2 := Be32(exportTime) + t3;
    var t1 := Be16(length) + t2;
    var all := Header(length, exportTime, sequence, domain) + sets;
    assert all == Be16(10) + t1;
    Get16Front(10, t1);
    Get16Front(length, t2);
    Get32Front(exportTime, t3);
    Get32Front(sequence, t4);
    Get32Front(domain, sets);
    assert all[4..] == all[2..][2..] && all[8..] == all[4..][4..] && all[12..] == all[8..][4..]
           && all[16..] == all[12..][4..];
  }
}
