// The history blob that a server sends to a new audio client
// (src/trx-server/src/audio.rs:3405-3418) and the client's loop over it
// (src/trx-client/src/audio_client.rs:538-559).
module HistoryReplay {
  import opened Basics
  import opened Octets
  import Framing

  // One entry: the type of its decoder and its JSON text.
  datatype Item = Item(kind: octet, json: Octets)

  function Encode(item: Item): Octets {
    [item.kind] + (Be32(|item.json| % U32) + item.json)
  }

  function Blob(items: seq<Item>): Octets {
    if items == [] then [] else Encode(items[0]) + Blob(items[1..])
  }

  // The server's writer: messages that cannot be serialised are left out.
  method PushHistory<M>(blob: Octets, msgs: seq<M>, kind: octet, serialise: M -> Option<Octets>) returns (r: Octets)
    ensures r == blob + Blob(Items(msgs, kind, serialise))
  {
    hide Encode;
    r := blob;
    var i := 0;
    assert blob + [] == blob;
    assert msgs[..0] == [];
    while i < |msgs|
      invariant 0 <= i <= |msgs|
      invariant r == blob + Blob(Items(msgs[..i], kind, serialise))
    {
      var json := serialise(msgs[i]);
      ItemsSnoc(msgs, i, kind, serialise);
      if json.Some? {
        BlobSnoc(Items(msgs[..i], kind, serialise), Item(kind, json.value));
        ghost var before := r;
        var len := |json.value| % U32;
        r := r + [kind];
        r := r + Be32(len);
        r := r + json.value;
        EncodedInOrder(before, kind, json.value, r);
        Assoc(blob, Blob(Items(msgs[..i], kind, serialise)), Encode(Item(kind, json.value)));
      }
      i := i + 1;
    }
    assert msgs[..|msgs|] == msgs;
  }

  function Items<M>(msgs: seq<M>, kind: octet, serialise: M -> Option<Octets>): seq<Item> {
    if msgs == [] then []
    else
      var json := serialise(msgs[|msgs| - 1]);
      Items(msgs[..|msgs| - 1], kind, serialise) + if json.Some? then [Item(kind, json.value)] else []
  }

  lemma ItemsSnoc<M>(msgs: seq<M>, i: nat, kind: octet, serialise: M -> Option<Octets>)
    requires i < |msgs|
    ensures Items(msgs[..i + 1], kind, serialise)
            == if serialise(msgs[i]).Some? then
                 Items(msgs[..i], kind, serialise) + [Item(kind, serialise(msgs[i]).value)]
               else Items(msgs[..i], kind, serialise)
  {
    assert Items(msgs[..i], kind, serialise) + [] == Items(msgs[..i], kind, serialise);
    assert msgs[..i + 1][..i] == msgs[..i];
  }

  lemma EncodedInOrder(before: Octets, kind: octet, json: Octets, r: Octets)
    requires r == before + [kind] + Be32(|json| % U32) + json
    ensures r == before + Encode(Item(kind, json))
  {
    hide Be32;
  }

  lemma {:induction false} BlobSnoc(items: seq<Item>, last: Item)
    ensures Blob(items + [last]) == Blob(items) + Encode(last)
  {
    hide Encode;
    if items == [] {
      assert items + [last] == [last] && [last][1..] == [];
      assert Encode(last) + [] == Encode(last) == [] + Encode(last);
    } else {
      assert (items + [last])[1..] == items[1..] + [last];
      BlobSnoc(items[1..], last);
      Assoc(Encode(items[0]), Blob(items[1..]), Encode(last));
    }
  }

  // The history of one decoder.
  datatype Part<M> = Part(msgs: seq<M>, kind: octet)

  function AllItems<M>(parts: seq<Part<M>>, serialise: M -> Option<Octets>): seq<Item> {
    if parts == [] then []
    else
      var last := parts[|parts| - 1];
      AllItems(parts[..|parts| - 1], serialise) + Items(last.msgs, last.kind, serialise)
  }

  lemma {:induction false} BlobAppend(a: seq<Item>, b: seq<Item>)
    ensures Blob(a + b) == Blob(a) + Blob(b)
  {
    hide Encode;
    if a == [] {
      assert a + b == b;
    } else {
      assert (a + b)[1..] == a[1..] + b;
      BlobAppend(a[1..], b);
      Assoc(Encode(a[0]), Blob(a[1..]), Blob(b));
    }
  }

  // The histories of all decoders, one behind the other.
  method BuildBlob<M>(parts: seq<Part<M>>, serialise: M -> Option<Octets>) returns (blob: Octets)
    ensures blob == Blob(AllItems(parts, serialise))
  {
    hide Blob, Items;
    blob := [];
    NothingInBlob();
    var i := 0;
    while i < |parts|
      invariant 0 <= i <= |parts|
      invariant blob == Blob(AllItems(parts[..i], serialise))
    {
      assert parts[..i + 1][..i] == parts[..i];
      BlobAppend(AllItems(parts[..i], serialise), Items(parts[i].msgs, parts[i].kind, serialise));
      blob := PushHistory(blob, parts[i].msgs, parts[i].kind, serialise);
      i := i + 1;
    }
    assert parts[..|parts|] == parts;
  }

  lemma NothingInBlob()
    ensures Blob([]) == []
  {
  }

  // ---- the client's loop ------------------------------------------------------------------

  // The entries that are there in full, and those of them that can be parsed.
  function Whole(data: Octets): seq<Octets>
    decreases |data|
  {
    if |data| < 5 then []
    else
      var len := Get32(data[1..]);
      if 5 + len > |data| then [] else [data[5..5 + len]] + Whole(data[5 + len..])
  }

  function Parsed<M>(jsons: seq<Octets>, parse: Octets -> Option<M>): seq<M> {
    if jsons == [] then []
    else (if parse(jsons[0]).Some? then [parse(jsons[0]).value] else []) + Parsed(jsons[1..], parse)
  }

  method ParseHistory<M>(data: Octets, parse: Octets -> Option<M>) returns (msgs: seq<M>)
    ensures msgs == Parsed(Whole(data), parse)
  {
    hide Get32, Whole, Parsed, FromBe32;
    msgs := [];
    var pos := 0;
    assert data[0..] == data;
    while pos + 5 <= |data|
      invariant 0 <= pos <= |data|
      invariant msgs + Parsed(Whole(data[pos..]), parse) == Parsed(Whole(data), parse)
      decreases |data| - pos
    {
      WholeAt(data, pos);
      var len := FromBe32(data[pos + 1], data[pos + 2], data[pos + 3], data[pos + 4]);
      pos := pos + 5;
      if pos + len > |data| {
        NoneLeft(msgs, parse);
        return;
      }
      var json := data[pos..pos + len];
      ParsedNext(msgs, json, Whole(data[pos + len..]), parse);
      if parse(json).Some? {
        msgs := msgs + [parse(json).value];
      }
      pos := pos + len;
    }
    WholeShort(data[pos..]);
    NoneLeft(msgs, parse);
  }

  lemma ParsedNext<M>(msgs: seq<M>, json: Octets, rest: seq<Octets>, parse: Octets -> Option<M>)
    ensures msgs + Parsed([json] + rest, parse)
            == (if parse(json).Some? then msgs + [parse(json).value] else msgs) + Parsed(rest, parse)
  {
    hide Parsed;
    ParsedHead(json, rest, parse);
  }

  lemma WholeShort(data: Octets)
    requires |data| < 5
    ensures Whole(data) == []
  {
  }

  lemma NoneLeft<M>(msgs: seq<M>, parse: Octets -> Option<M>)
    ensures msgs + Parsed([], parse) == msgs
  {
  }

  lemma WholeAt(data: Octets, pos: nat)
    requires pos + 5 <= |data|
    ensures var len := FromBe32(data[pos + 1], data[pos + 2], data[pos + 3], data[pos + 4]);
            Whole(data[pos..])
            == if pos + 5 + len > |data| then []
               else [data[pos + 5..pos + 5 + len]] + Whole(data[pos + 5 + len..])
  {
    var d := data[pos..];
    var len := FromBe32(data[pos + 1], data[pos + 2], data[pos + 3], data[pos + 4]);
    assert Get32(d[1..]) == len;
    if pos + 5 + len <= |data| {
      assert d[5..5 + len] == data[pos + 5..pos + 5 + len] && d[5 + len..] == data[pos + 5 + len..];
    }
  }

  lemma ParsedHead<M>(json: Octets, rest: seq<Octets>, parse: Octets -> Option<M>)
    ensures Parsed([json] + rest, parse)
            == (if parse(json).Some? then [parse(json).value] else []) + Parsed(rest, parse)
  {
    assert ([json] + rest)[1..] == rest;
  }

  // ---- a blob that is cut off ---------------------------------------------------------------

  function Jsons(items: seq<Item>): seq<Octets> {
    if items == [] then [] else [items[0].json] + Jsons(items[1..])
  }

  // `n` entries are wholly inside the first `k` octets, and no more.
  ghost predicate Contains(items: seq<Item>, k: nat, n: nat) {
    && n <= |items|
    && |Blob(items[..n])| <= k
    && (n < |items| ==> k < |Blob(items[..n + 1])|)
  }

  lemma HeadParsed(item: Item, rest: Octets)
    requires |item.json| < U32
    ensures Whole(Encode(item) + rest) == [item.json] + Whole(rest)
  {
    var all := Encode(item) + rest;
    HeaderAt(item, rest, all);
    assert all[5..5 + |item.json|] == item.json && all[5 + |item.json|..] == rest;
  }

  lemma HeaderAt(item: Item, rest: Octets, all: Octets)
    requires |item.json| < U32 && all == Encode(item) + rest
    ensures |all| >= 5 && Get32(all[1..]) == |item.json| && all[5..] == item.json + rest
  {
    hide Be32, Get32;
    var tail := item.json + rest;
    assert |item.json| % U32 == |item.json|;
    assert all == [item.kind] + (Be32(|item.json|) + tail);
    assert all[1..] == Be32(|item.json|) + tail;
    Get32Front(|item.json|, tail);
    assert all[5..] == all[1..][4..];
  }

  lemma HeadCutOff(item: Item, k: nat)
    requires |item.json| < U32 && k < |Encode(item)|
    ensures Whole(Encode(item)[..k]) == []
  {
    HeaderAt(item, [], Encode(item) + []);
    assert Encode(item) + [] == Encode(item);
    var cut := Encode(item)[..k];
    if k >= 5 {
      assert cut[1] == Encode(item)[1..][0] && cut[2] == Encode(item)[1..][1] && cut[3] == Encode(item)[1..][2]
             && cut[4] == Encode(item)[1..][3];
      assert Get32(cut[1..]) == |item.json|;
    }
  }

  lemma BlobHead(items: seq<Item>, n: nat)
    requires 0 < n <= |items|
    ensures Blob(items[..n]) == Encode(items[0]) + Blob(items[1..][..n - 1])
  {
    assert items[..n][1..] == items[1..][..n - 1];
  }

  // However a blob is cut off, the client gets exactly the entries that are wholly inside.
  lemma {:induction false} CutOffBlob(items: seq<Item>, k: nat, n: nat)
    requires (forall i :: i in items ==> |i.json| < U32) && k <= |Blob(items)| && Contains(items, k, n)
    ensures Whole(Blob(items)[..k]) == Jsons(items[..n])
    decreases |items|
  {
    hide Encode, Whole;
    if items == [] {
      WholeShort([]);
    } else if n == 0 {
      BlobHead(items, 1);
      assert |Blob(items[1..][..0])| == 0;
      assert Blob(items)[..k] == Encode(items[0])[..k];
      HeadCutOff(items[0], k);
    } else {
      var first := Encode(items[0]);
      BlobHead(items, n);
      if n < |items| {
        BlobHead(items, n + 1);
      }
      assert Blob(items)[..k] == first + Blob(items[1..])[..k - |first|];
      HeadParsed(items[0], Blob(items[1..])[..k - |first|]);
      CutOffBlob(items[1..], k - |first|, n - 1);
      assert items[..n][1..] == items[1..][..n - 1];
    }
  }

  // Entries and the messages that they parse to.
  ghost predicate Match<M>(items: seq<Item>, msgs: seq<M>, parse: Octets -> Option<M>) {
    && |items| == |msgs|
    && forall i :: 0 <= i < |items| ==> |items[i].json| < U32 && parse(items[i].json) == Some(msgs[i])
  }

  lemma {:induction false} MatchParsed<M>(items: seq<Item>, msgs: seq<M>, parse: Octets -> Option<M>, n: nat)
    requires Match(items, msgs, parse) && n <= |items|
    ensures Parsed(Jsons(items[..n]), parse) == msgs[..n]
    decreases n
  {
    hide Parsed;
    if n == 0 {
      NoneLeft<M>([], parse);
    } else {
      MatchParsed(items[1..], msgs[1..], parse, n - 1);
      assert items[..n][1..] == items[1..][..n - 1];
      ParsedHead(items[0].json, Jsons(items[1..][..n - 1]), parse);
      assert msgs[..n] == [msgs[0]] + msgs[1..][..n - 1];
    }
  }

  // The messages that can be serialised.
  function Sendable<M>(msgs: seq<M>, serialise: M -> Option<Octets>): seq<M> {
    if msgs == [] then []
    else
      var last := msgs[|msgs| - 1];
      Sendable(msgs[..|msgs| - 1], serialise) + if serialise(last).Some? then [last] else []
  }

  function AllSendable<M>(parts: seq<Part<M>>, serialise: M -> Option<Octets>): seq<M> {
    if parts == [] then []
    else AllSendable(parts[..|parts| - 1], serialise) + Sendable(parts[|parts| - 1].msgs, serialise)
  }

  // What is serialised is parsed back.
  ghost predicate RoundTrips<M>(msgs: seq<M>, serialise: M -> Option<Octets>, parse: Octets -> Option<M>) {
    forall m :: m in msgs && serialise(m).Some? ==> |serialise(m).value| < U32 && parse(serialise(m).value) == Some(m)
  }

  ghost predicate AllRoundTrip<M>(parts: seq<Part<M>>, serialise: M -> Option<Octets>, parse: Octets -> Option<M>) {
    forall i :: 0 <= i < |parts| ==> RoundTrips(parts[i].msgs, serialise, parse)
  }

  lemma {:induction false} SendableMatch<M>(msgs: seq<M>, kind: octet, serialise: M -> Option<Octets>,
                                            parse: Octets -> Option<M>)
    requires RoundTrips(msgs, serialise, parse)
    ensures Match(Items(msgs, kind, serialise), Sendable(msgs, serialise), parse)
  {
    if msgs == [] {
    } else {
      SendableMatch(msgs[..|msgs| - 1], kind, serialise, parse);
    }
  }

  lemma {:induction false} AllMatch<M>(parts: seq<Part<M>>, serialise: M -> Option<Octets>, parse: Octets -> Option<M>)
    requires AllRoundTrip(parts, serialise, parse)
    ensures Match(AllItems(parts, serialise), AllSendable(parts, serialise), parse)
  {
    hide RoundTrips, Items, Sendable;
    if parts == [] {
    } else {
      var last := parts[|parts| - 1];
      AllMatch(parts[..|parts| - 1], serialise, parse);
      SendableMatch(last.msgs, last.kind, serialise, parse);
    }
  }

  // End to end: whatever part of the blob arrives, the client gets exactly the messages, of all
  // histories in order and leaving out those that cannot be serialised, whose entries arrived
  // in full.
  lemma ReplayedMessages<M>(parts: seq<Part<M>>, serialise: M -> Option<Octets>, parse: Octets -> Option<M>, k: nat,
                            n: nat)
    requires AllRoundTrip(parts, serialise, parse)
    requires k <= |Blob(AllItems(parts, serialise))| && Contains(AllItems(parts, serialise), k, n)
    ensures n <= |AllSendable(parts, serialise)|
    ensures Parsed(Whole(Blob(AllItems(parts, serialise))[..k]), parse) == AllSendable(parts, serialise)[..n]
  {
    hide AllRoundTrip, Contains, Blob, Parsed, Whole, Jsons, AllItems, AllSendable;
    var items := AllItems(parts, serialise);
    AllMatch(parts, serialise, parse);
    ContainsCount(items, k, n);
    CutOffBlob(items, k, n);
    MatchParsed(items, AllSendable(parts, serialise), parse, n);
  }

  lemma ContainsCount(items: seq<Item>, k: nat, n: nat)
    requires Contains(items, k, n)
    ensures n <= |items|
  {
  }

  // ---- what the entries are -------------------------------------------------------------------

  // The decoder of every message that can be serialised.
  function Kinds<M>(parts: seq<Part<M>>, serialise: M -> Option<Octets>): seq<octet> {
    if parts == [] then []
    else
      var last := parts[|parts| - 1];
      Kinds(parts[..|parts| - 1], serialise) + seq(|Sendable(last.msgs, serialise)|, _ => last.kind)
  }

  ghost predicate Entries<M>(items: seq<Item>, kinds: seq<octet>, msgs: seq<M>, serialise: M -> Option<Octets>) {
    && |items| == |kinds| == |msgs|
    && forall i :: 0 <= i < |items| ==> Some(items[i].json) == serialise(msgs[i]) && items[i].kind == kinds[i]
  }

  lemma {:induction false} PartEntries<M>(msgs: seq<M>, kind: octet, serialise: M -> Option<Octets>)
    ensures var sendable := Sendable(msgs, serialise);
            Entries(Items(msgs, kind, serialise), seq(|sendable|, _ => kind), sendable, serialise)
  {
    if msgs == [] {
    } else {
      PartEntries(msgs[..|msgs| - 1], kind, serialise);
    }
  }

  // The blob has one entry for each message that can be serialised, in order, with its JSON text and
  // the type of its decoder.
  lemma {:induction false} AllEntries<M>(parts: seq<Part<M>>, serialise: M -> Option<Octets>)
    ensures Entries(AllItems(parts, serialise), Kinds(parts, serialise), AllSendable(parts, serialise), serialise)
  {
    hide Sendable, Items;
    if parts == [] {
    } else {
      var last := parts[|parts| - 1];
      AllEntries(parts[..|parts| - 1], serialise);
      PartEntries(last.msgs, last.kind, serialise);
    }
  }

  function AsMessages(items: seq<Item>): seq<Framing.Msg> {
    if items == [] then [] else [Framing.Msg(items[0].kind, items[0].json)] + AsMessages(items[1..])
  }

  // An entry is written as an audio message is: the blob is a stream of them, and so reads back as
  // one, types included, when every text is within the limit of an audio message.
  lemma {:induction false} BlobIsStream(items: seq<Item>)
    ensures Blob(items) == Framing.Stream(AsMessages(items))
  {
    if items == [] {
    } else {
      BlobIsStream(items[1..]);
      assert AsMessages(items)[1..] == AsMessages(items[1..]);
    }
  }

  lemma BlobReadsBack(items: seq<Item>)
    requires forall m :: m in AsMessages(items) ==> Framing.WithinLimit(m)
    ensures Framing.ReadAll(Blob(items)) == (AsMessages(items), Framing.UnexpectedEof)
  {
    BlobIsStream(items);
    Framing.StreamReadBack(AsMessages(items));
  }
}
