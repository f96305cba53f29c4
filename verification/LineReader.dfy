// Reading one line of bounded length from a buffered stream
// (src/trx-server/src/listener.rs:185-235, src/trx-client/src/remote_client.rs:1146-1196).
module LineReader {
  import opened Basics
  import opened Octets

  const NEWLINE: octet := 10

  datatype Error = TooLong | NotUtf8

  // What a read yields: nothing at the end of the stream, or a line.
  type Line = Result<Option<Octets>, Error>

  function Flatten(chunks: seq<Octets>): Octets {
    if chunks == [] then [] else chunks[0] + Flatten(chunks[1..])
  }

  // A stream cut into buffer fills in some way; an empty fill means its end.
  class Reader {
    var fills: seq<Octets>

    ghost predicate Valid()
      reads this
    {
      forall i :: 0 <= i < |fills| ==> |fills[i]| > 0
    }

    ghost function Rest(): Octets
      reads this
    {
      Flatten(fills)
    }

    constructor (fills: seq<Octets>)
      requires forall i :: 0 <= i < |fills| ==> |fills[i]| > 0
      ensures Valid() && Rest() == Flatten(fills)
    {
      this.fills := fills;
    }

    method FillBuf() returns (available: Octets)
      requires Valid()
      ensures available == [] ==> Rest() == []
      ensures available != []
              ==> fills != [] && available == fills[0] && |available| <= |Rest()| && available == Rest()[..|available|]
    {
      if fills == [] {
        return [];
      }
      return fills[0];
    }

    method Consume(n: nat)
      requires Valid() && fills != [] && n <= |fills[0]|
      modifies this
      ensures Valid() && n <= |old(Rest())| && Rest() == old(Rest())[n..]
      ensures n == |old(fills)[0]| ==> fills == old(fills)[1..]
    {
      var first, others := fills[0], fills[1..];
      Dropped(first, Flatten(others), n);
      if n == |first| {
        fills := others;
      } else {
        fills := [first[n..]] + others;
        assert fills[1..] == others;
      }
    }
  }

  lemma Dropped(first: Octets, others: Octets, n: nat)
    requires n <= |first|
    ensures (first + others)[n..] == first[n..] + others
    ensures n == |first| ==> (first + others)[n..] == others
  {
  }

  // ---- what a read means ----------------------------------------------------------------

  // The length of the first line, with its newline if it has one.
  function LineLength(bytes: Octets): (r: nat)
    ensures r <= |bytes| && (bytes != [] ==> r > 0)
    ensures NEWLINE !in bytes ==> r == |bytes|
  {
    if bytes == [] then 0 else if bytes[0] == NEWLINE then 1 else 1 + LineLength(bytes[1..])
  }

  // The first line of a stream, however it is cut into fills.
  function FirstLine(bytes: Octets, max: nat, utf8: Octets -> bool): Line {
    if bytes == [] then Ok(None)
    else if LineLength(bytes) > max then Err(TooLong)
    else if !utf8(bytes[..LineLength(bytes)]) then Err(NotUtf8)
    else Ok(Some(bytes[..LineLength(bytes)]))
  }

  function Position(bytes: Octets): (r: Option<nat>)
    ensures r.Some? ==> r.value < |bytes|
  {
    if bytes == [] then None
    else if bytes[0] == NEWLINE then Some(0)
    else
      var p := Position(bytes[1..]);
      if p.None? then None else Some(1 + p.value)
  }

  lemma {:induction false} LineFound(front: Octets, available: Octets, tail: Octets)
    requires NEWLINE !in front && Position(available).Some?
    ensures LineLength(front + (available + tail)) == |front| + Position(available).value + 1
    decreases |front| + |available|
  {
    if front != [] {
      assert (front + (available + tail))[1..] == front[1..] + (available + tail);
      LineFound(front[1..], available, tail);
    } else if available[0] != NEWLINE {
      assert (front + (available + tail))[1..] == [] + (available[1..] + tail);
      LineFound([], available[1..], tail);
    }
  }

  lemma {:induction false} NoLineFound(available: Octets)
    ensures Position(available).None? ==> NEWLINE !in available
  {
    if available == [] {
    } else {
      NoLineFound(available[1..]);
      assert available == [available[0]] + available[1..];
    }
  }

  lemma {:induction false} LineBehind(front: Octets, tail: Octets)
    requires NEWLINE !in front
    ensures LineLength(front + tail) == |front| + LineLength(tail)
  {
    if front == [] {
      assert front + tail == tail;
    } else {
      assert (front + tail)[1..] == front[1..] + tail;
      LineBehind(front[1..], tail);
    }
  }

  // The fills that a read takes before it finds the line too long: as long as they hold no
  // newline and fit. The fill that shows it is left where it is.
  function Swallowed(fills: seq<Octets>, max: nat): (r: nat)
    ensures r <= |fills|
  {
    if fills == [] || Position(fills[0]).Some? || |fills[0]| > max then 0
    else 1 + Swallowed(fills[1..], max - |fills[0]|)
  }

  // What a read does to a stream: the answer depends only on the stream, not on how it is cut
  // into fills, and exactly the line is taken, unless it is too long.
  ghost predicate Outcome(before: Octets, after: Octets, max: nat, utf8: Octets -> bool, r: Line) {
    && r == FirstLine(before, max, utf8)
    && (r != Err(TooLong) ==> after == before[LineLength(before)..])
    && (r == Err(TooLong) ==> exists k :: 0 <= k <= max && k < LineLength(before) && after == before[k..])
  }

  method ReadLimitedLine(reader: Reader, max: nat, utf8: Octets -> bool) returns (r: Line)
    requires reader.Valid()
    modifies reader
    ensures reader.Valid()
    ensures Outcome(old(reader.Rest()), reader.Rest(), max, utf8, r)
    ensures r == Err(TooLong) ==> reader.fills == old(reader.fills)[Swallowed(old(reader.fills), max)..]
  {
    hide Outcome, Flatten, Position, Swallowed;
    ghost var stream := reader.Rest();
    ghost var taken := 0;
    var line: Octets := [];
    assert [] + stream == stream;
    while true
      invariant reader.Valid()
      invariant stream == line + reader.Rest()
      invariant NEWLINE !in line && |line| <= max
      invariant taken <= |old(reader.fills)| && reader.fills == old(reader.fills)[taken..]
      invariant Swallowed(old(reader.fills), max) == taken + Swallowed(reader.fills, max - |line|)
      decreases |reader.Rest()|
    {
      ghost var rest := reader.Rest();
      ghost var fills := reader.fills;
      var available := reader.FillBuf();
      if available == [] {
        AtEnd(line, max, utf8, stream);
        if line == [] {
          return Ok(None);
        }
        if !utf8(line) {
          return Err(NotUtf8);
        }
        return Ok(Some(line));
      }
      OneSwallowed(fills, max - |line|);
      var pos := Position(available);
      NoLineFound(available);
      if pos.Some? {
        var chunk := available[..pos.value + 1];
        InThisFill(stream, line, rest, available, max, utf8, line + chunk, pos.value + 1);
        if |line| + |chunk| > max {
          return Err(TooLong);
        }
        line := line + chunk;
        reader.Consume(pos.value + 1);
        if !utf8(line) {
          return Err(NotUtf8);
        }
        return Ok(Some(line));
      }
      NotInThisFill(stream, line, rest, available, max, utf8);
      if |line| + |available| > max {
        return Err(TooLong);
      }
      line := line + available;
      reader.Consume(|available|);
      taken := taken + 1;
    }
  }

  lemma OneSwallowed(fills: seq<Octets>, max: nat)
    requires fills != []
    ensures Swallowed(fills, max)
            == if Position(fills[0]).Some? || |fills[0]| > max then 0 else 1 + Swallowed(fills[1..], max - |fills[0]|)
  {
  }

  // The stream ends here.
  lemma AtEnd(line: Octets, max: nat, utf8: Octets -> bool, stream: Octets)
    requires NEWLINE !in line && |line| <= max && stream == line + []
    ensures Outcome(stream, [], max, utf8,
                    if line == [] then Ok(None) else if !utf8(line) then Err(NotUtf8) else Ok(Some(line)))
  {
    assert stream == line && line[..|line|] == line;
  }

  // The line ends in this fill.
  lemma InThisFill(stream: Octets, line: Octets, rest: Octets, available: Octets, max: nat, utf8: Octets -> bool,
                   whole: Octets, n: nat)
    requires stream == line + rest && NEWLINE !in line && available <= rest && |line| <= max
    requires Position(available) == Some(n - 1) && n <= |available| && whole == line + available[..n]
    ensures |whole| > max ==> Outcome(stream, rest, max, utf8, Err(TooLong))
    ensures |whole| <= max
            ==> Outcome(stream, rest[n..], max, utf8, if !utf8(whole) then Err(NotUtf8) else Ok(Some(whole)))
  {
    hide Position, LineLength;
    assert rest == available + rest[|available|..];
    LineFound(line, available, rest[|available|..]);
    Regroup(line, rest, n);
    assert available[..n] == rest[..n];
    Front(line, rest);
    Front(whole, rest[n..]);
  }

  // The line goes on behind this fill.
  lemma NotInThisFill(stream: Octets, line: Octets, rest: Octets, available: Octets, max: nat, utf8: Octets -> bool)
    requires stream == line + rest && NEWLINE !in line && available <= rest && NEWLINE !in available && available != []
             && |line| <= max
    ensures stream == (line + available) + rest[|available|..]
    ensures |line| + |available| > max ==> Outcome(stream, rest, max, utf8, Err(TooLong))
  {
    hide LineLength;
    assert available == rest[..|available|];
    Regroup(line, rest, |available|);
    LineBehind(line + available, rest[|available|..]);
    Front(line, rest);
  }

  lemma Regroup(line: Octets, rest: Octets, n: nat)
    requires n <= |rest|
    ensures line + rest == (line + rest[..n]) + rest[n..]
  {
  }

  // ---- all lines of a stream -----------------------------------------------------------------

  // Repeated reads, until the end of the stream or an error.
  function AllLines(bytes: Octets, max: nat, utf8: Octets -> bool): (seq<Octets>, Option<Error>)
    decreases |bytes|
  {
    match FirstLine(bytes, max, utf8)
    case Err(e) => ([], Some(e))
    case Ok(None) => ([], None)
    case Ok(Some(line)) =>
      var (others, error) := AllLines(bytes[LineLength(bytes)..], max, utf8);
      ([line] + others, error)
  }

  // The lines of a stream, each with its newline.
  function LinesOf(bytes: Octets): seq<Octets>
    decreases |bytes|
  {
    if bytes == [] then [] else [bytes[..LineLength(bytes)]] + LinesOf(bytes[LineLength(bytes)..])
  }

  predicate IsLine(line: Octets) {
    line != [] && line[|line| - 1] == 10 && 10 !in line[..|line| - 1]
  }

  lemma {:induction false} FirstLineIs(bytes: Octets)
    requires bytes != []
    ensures var n := LineLength(bytes);
            IsLine(bytes[..n]) || (n == |bytes| && NEWLINE !in bytes)
  {
    var n := LineLength(bytes);
    if bytes[0] == NEWLINE {
      assert bytes[..1][..0] == [];
    } else if |bytes| == 1 {
    } else {
      FirstLineIs(bytes[1..]);
      assert bytes[..n] == [bytes[0]] + bytes[1..][..n - 1];
      assert bytes == [bytes[0]] + bytes[1..];
      if IsLine(bytes[1..][..n - 1]) {
        assert bytes[..n][..n - 1] == [bytes[0]] + bytes[1..][..n - 1][..n - 2];
      }
    }
  }

  // The lines put together are the stream, and each ends with its only newline; the last one
  // may lack it.
  lemma {:induction false} LinesAreTheStream(bytes: Octets)
    ensures Flatten(LinesOf(bytes)) == bytes
    ensures var lines := LinesOf(bytes);
            forall i :: 0 <= i < |lines|
                        ==> IsLine(lines[i]) || (i == |lines| - 1 && lines[i] != [] && NEWLINE !in lines[i])
    decreases |bytes|
  {
    hide LineLength, IsLine;
    if bytes == [] {
    } else {
      var n := LineLength(bytes);
      var rest := LinesOf(bytes[n..]);
      LinesAreTheStream(bytes[n..]);
      FirstLineIs(bytes);
      assert bytes == bytes[..n] + bytes[n..];
      assert LinesOf(bytes) == [bytes[..n]] + rest && LinesOf(bytes)[1..] == rest;
      assert n == |bytes| ==> rest == [] && bytes[..n] == bytes;
    }
  }

  predicate Good(line: Octets, max: nat, utf8: Octets -> bool) {
    |line| <= max && utf8(line)
  }

  lemma GoodIs(line: Octets, max: nat, utf8: Octets -> bool)
    ensures Good(line, max, utf8) <==> |line| <= max && utf8(line)
  {
  }

  // Reads return the lines in order, up to the first one that is too long (its newline
  // counted) or not text; there is no error exactly when there is no such line.
  lemma {:induction false} ReadsAreLines(bytes: Octets, max: nat, utf8: Octets -> bool)
    ensures var (lines, error) := AllLines(bytes, max, utf8);
            var all := LinesOf(bytes);
            && |lines| <= |all| && lines == all[..|lines|]
            && (forall i :: 0 <= i < |lines| ==> Good(lines[i], max, utf8))
            && (error.None? <==> |lines| == |all|)
            && (error.Some? ==> error.value == if |all[|lines|]| > max then TooLong else NotUtf8)
            && (error.Some? ==> !Good(all[|lines|], max, utf8))
    decreases |bytes|
  {
    hide LineLength, Good;
    if bytes == [] {
    } else {
      var n := LineLength(bytes);
      ReadsAreLines(bytes[n..], max, utf8);
      GoodIs(bytes[..n], max, utf8);
      var (others, error) := AllLines(bytes[n..], max, utf8);
      var all := LinesOf(bytes);
      assert all == [bytes[..n]] + LinesOf(bytes[n..]);
      assert ([bytes[..n]] + others) == all[..1 + |others|];
    }
  }
}
