// The sliding window and the duplicate suppression of the FT2 decoder task
// (src/trx-server/src/audio.rs:69-73, 86-135, 2191-2201).
module Ft2 {

  const BUFFER_SAMPLES := 45_000
  const TRIGGER_SAMPLES := 9_000

  type Samples = seq<real>

  function Last(s: Samples, n: nat): Samples {
    if |s| > n then s[|s| - n..] else s
  }

  function Zeros(n: nat): Samples {
    seq(n, _ => 0.0)
  }

  function Flatten(blocks: seq<Samples>): Samples {
    if blocks == [] then [] else Flatten(blocks[..|blocks| - 1]) + blocks[|blocks| - 1]
  }

  // ---- feeding a decoder ---------------------------------------------------------------

  // The decoder itself is not modelled, only what it has been fed since its last reset, and
  // what it had been fed each time it was asked for results.
  class Decoder {
    const blockSize: nat
    const windowSamples: nat
    var fed: seq<Samples>
    var decoded: seq<seq<Samples>>

    constructor (blockSize: nat, windowSamples: nat)
      requires blockSize > 0
      ensures this.blockSize == blockSize && this.windowSamples == windowSamples && fed == [] && decoded == []
    {
      this.blockSize := blockSize;
      this.windowSamples := windowSamples;
      fed, decoded := [], [];
    }

    method Reset()
      modifies this`fed
      ensures fed == []
    {
      fed := [];
    }

    method ProcessBlock(block: Samples)
      requires |block| == blockSize
      modifies this`fed
      ensures fed == old(fed) + [block]
    {
      fed := fed + [block];
    }

    method DecodeIfReady()
      modifies this`decoded
      ensures decoded == old(decoded) + [fed]
    {
      decoded := decoded + [fed];
    }
  }

  // `fed` is the window in blocks of the decoder's size, zeros filling up the last one.
  ghost predicate InBlocks(fed: seq<Samples>, window: Samples, size: nat) {
    && (forall b :: b in fed ==> |b| == size)
    && |window| <= |Flatten(fed)| < |window| + size && Flatten(fed)[..|window|] == window
    && forall k :: |window| <= k < |Flatten(fed)| ==> Flatten(fed)[k] == 0.0
  }

  lemma FlattenSnoc(blocks: seq<Samples>, last: Samples)
    ensures Flatten(blocks + [last]) == Flatten(blocks) + last
  {
    assert (blocks + [last])[..|blocks + [last]| - 1] == blocks;
  }

  lemma NextBlock(window: Samples, at: nat, next: nat)
    requires at <= next <= |window|
    ensures window[..at] + window[at..next] == window[..next]
  {
  }

  method FeedWindow(decoder: Decoder, window: Samples)
    requires decoder.blockSize > 0
    modifies decoder`fed
    ensures InBlocks(decoder.fed, window, decoder.blockSize)
  {
    hide InBlocks, Flatten;
    NothingFed();
    decoder.Reset();
    var size := decoder.blockSize;
    var at := 0;
    while at + size <= |window|
      invariant 0 <= at <= |window|
      invariant forall b :: b in decoder.fed ==> |b| == size
      invariant Flatten(decoder.fed) == window[..at]
      decreases |window| - at
    {
      FlattenSnoc(decoder.fed, window[at..at + size]);
      NextBlock(window, at, at + size);
      decoder.ProcessBlock(window[at..at + size]);
      at := at + size;
    }
    var remainder := window[at..];
    assert window[..at] + remainder == window;
    if remainder != [] {
      var tail := remainder + Zeros(size - |remainder|);
      FlattenSnoc(decoder.fed, tail);
      FullBlock(window[..at], remainder, size - |remainder|, window);
      decoder.ProcessBlock(tail);
      Filled(decoder.fed, window, size, size - |remainder|);
    } else {
      assert window + Zeros(0) == window;
      Filled(decoder.fed, window, size, 0);
    }
  }

  method DecodeWindow(decoder: Decoder, samples: Samples)
    requires decoder.blockSize > 0
    modifies decoder
    ensures |samples| < decoder.windowSamples
            ==> decoder.fed == old(decoder.fed) && decoder.decoded == old(decoder.decoded)
    ensures |samples| >= decoder.windowSamples ==>
              && decoder.decoded == old(decoder.decoded) + [decoder.fed]
              && InBlocks(decoder.fed, Last(samples, decoder.windowSamples), decoder.blockSize)
  {
    hide InBlocks, Last;
    if |samples| < decoder.windowSamples {
      return;
    }
    LastIs(samples, decoder.windowSamples);
    FeedWindow(decoder, samples[|samples| - decoder.windowSamples..]);
    decoder.DecodeIfReady();
  }

  lemma NothingFed()
    ensures Flatten([]) == []
  {
  }

  lemma LastIs(s: Samples, n: nat)
    ensures n <= |s| ==> Last(s, n) == s[|s| - n..]
    ensures n >= |s| ==> Last(s, n) == s
  {
  }

  lemma Filled(fed: seq<Samples>, window: Samples, size: nat, zeros: nat)
    requires (forall b :: b in fed ==> |b| == size) && zeros < size && Flatten(fed) == window + Zeros(zeros)
    ensures InBlocks(fed, window, size)
  {
  }

  lemma FullBlock(front: Samples, remainder: Samples, zeros: nat, window: Samples)
    requires front + remainder == window
    ensures front + (remainder + Zeros(zeros)) == window + Zeros(zeros)
  {
  }

  // ---- the window ----------------------------------------------------------------------------

  method RetainWindow(buf: Samples) returns (r: Samples)
    ensures r == Last(buf, BUFFER_SAMPLES)
  {
    r := buf;
    if |r| > BUFFER_SAMPLES {
      var excess := |r| - BUFFER_SAMPLES;
      r := r[excess..];
    }
  }

  lemma LastAppend(input: Samples, more: Samples, n: nat)
    ensures Last(Last(input, n) + more, n) == Last(input + more, n)
  {
    if |input| > n {
      assert Last(input, n) + more == (input + more)[|input| - n..];
    }
  }

  // Decodes due after a number of samples: none before the buffer is full, and then one for
  // every 9,000 samples since the reset.
  function Due(n: nat): nat {
    if n < 45_000 then 0 else n / 9_000
  }

  class Window {
    const decoder: Decoder
    var buf: Samples
    var pending: nat
    // The samples since the last reset, and the number of decodes there had been before.
    ghost var input: Samples
    ghost var before: nat

    // The decodes that have run when so many were due; a decoder that wants a longer window
    // than the buffer holds never runs.
    ghost function Ran(due: nat): nat {
      if decoder.windowSamples <= BUFFER_SAMPLES then due else 0
    }

    ghost predicate Valid()
      reads this, decoder
    {
      && decoder.blockSize > 0
      && buf == Last(input, BUFFER_SAMPLES)
      && pending == |input| - TRIGGER_SAMPLES * Due(|input|)
      && |decoder.decoded| == before + Ran(Due(|input|))
    }

    constructor (decoder: Decoder)
      requires decoder.blockSize > 0
      ensures Valid() && this.decoder == decoder && input == [] && before == |decoder.decoded|
    {
      this.decoder := decoder;
      buf, pending := [], 0;
      input, before := [], |decoder.decoded|;
    }

    method Reset()
      requires decoder.blockSize > 0
      modifies this, decoder
      ensures Valid() && input == [] && decoder.decoded == old(decoder.decoded) && before == |decoder.decoded|
    {
      decoder.Reset();
      buf, pending := [], 0;
      input, before := [], |decoder.decoded|;
    }

    // One frame of resampled audio. Every decode it triggers sees, in blocks, the end of the
    // buffer as it is after the frame. After each decode the published reset sequence is read
    // again: `moved(k)` says whether it has moved after the k-th one. The first time it has,
    // that decode's results are dropped and everything starts anew. `used` is the number of
    // decodes whose results were used, `runs` what the decoder had been fed for each decode.
    method Frame(resampled: Samples, moved: nat -> bool) returns (used: nat, ghost runs: seq<seq<Samples>>)
      requires Valid()
      modifies this, decoder
      ensures Valid()
      ensures var triggered := Due(|old(input)| + |resampled|) - Due(|old(input)|);
              && used == Undisturbed(moved, triggered)
              && if used == triggered then
                   input == old(input) + resampled && before == old(before)
                 else
                   input == [] && before == |decoder.decoded| == |old(decoder.decoded)| + Ran(used + 1)
      ensures decoder.decoded == old(decoder.decoded) + runs
      ensures var window := Last(Last(old(input) + resampled, BUFFER_SAMPLES), decoder.windowSamples);
              AllSee(runs, window, decoder.blockSize)
    {
      hide Last, InBlocks, Due, Undisturbed, AllSee;
      LastAppend(input, resampled, BUFFER_SAMPLES);
      LastLength(input + resampled, BUFFER_SAMPLES);
      buf := buf + resampled;
      pending := pending + |resampled|;
      buf := RetainWindow(buf);
      input := input + resampled;
      DueDecodes(|old(input)|, |resampled|, |buf|, pending);
      var disturbed;
      pending, disturbed, used, runs := RunDecodes(decoder, buf, pending, moved);
      if disturbed {
        Reset();
      }
    }
  }

  // The decodes that are due, until the published sequence has moved.
  method RunDecodes(decoder: Decoder, buf: Samples, pending: nat, moved: nat -> bool)
    returns (left: nat, disturbed: bool, used: nat, ghost runs: seq<seq<Samples>>)
    requires decoder.blockSize > 0
    modifies decoder
    ensures used == Undisturbed(moved, Triggered(|buf|, pending)) && disturbed == (used < Triggered(|buf|, pending))
    ensures !disturbed ==> left == pending - TRIGGER_SAMPLES * used
    ensures decoder.decoded == old(decoder.decoded) + runs
            && AllSee(runs, Last(buf, decoder.windowSamples), decoder.blockSize)
    ensures |runs| == if |buf| < decoder.windowSamples then 0 else if disturbed then used + 1 else used
  {
    hide Last, InBlocks, Undisturbed, AllSee;
    runs := [];
    NoneSee(Last(buf, decoder.windowSamples), decoder.blockSize);
    left, used := pending, 0;
    while left >= TRIGGER_SAMPLES && |buf| >= BUFFER_SAMPLES
      invariant left == pending - TRIGGER_SAMPLES * used && (|buf| < BUFFER_SAMPLES ==> used == 0)
      invariant decoder.decoded == old(decoder.decoded) + runs
                && AllSee(runs, Last(buf, decoder.windowSamples), decoder.blockSize)
      invariant |runs| == if |buf| < decoder.windowSamples then 0 else used
      invariant forall k :: 0 <= k < used ==> !moved(k)
    {
      left := left - TRIGGER_SAMPLES;
      DecodeWindow(decoder, buf);
      if |buf| >= decoder.windowSamples {
        OneSees(runs, decoder.fed, Last(buf, decoder.windowSamples), decoder.blockSize);
        runs := runs + [decoder.fed];
      }
      if moved(used) {
        UndisturbedIs(moved, Triggered(|buf|, pending), used);
        return left, true, used, runs;
      }
      used := used + 1;
    }
    UndisturbedIs(moved, Triggered(|buf|, pending), used);
    disturbed := false;
  }

  // How many decodes a full buffer and the pending samples allow.
  function Triggered(held: nat, pending: nat): nat {
    if held < BUFFER_SAMPLES then 0 else pending / TRIGGER_SAMPLES
  }

  // They are those that become due with the new samples.
  lemma DueDecodes(n: nat, more: nat, held: nat, pending: nat)
    requires held == if n + more > BUFFER_SAMPLES then BUFFER_SAMPLES else n + more
    requires pending == n - TRIGGER_SAMPLES * Due(n) + more
    ensures Triggered(held, pending) == Due(n + more) - Due(n)
  {
  }

  ghost predicate AllSee(runs: seq<seq<Samples>>, window: Samples, size: nat) {
    forall i :: 0 <= i < |runs| ==> InBlocks(runs[i], window, size)
  }

  lemma NoneSee(window: Samples, size: nat)
    ensures AllSee([], window, size)
  {
  }

  lemma OneSees(runs: seq<seq<Samples>>, fed: seq<Samples>, window: Samples, size: nat)
    requires AllSee(runs, window, size) && InBlocks(fed, window, size)
    ensures AllSee(runs + [fed], window, size)
  {
    hide InBlocks;
  }

  // The number of decodes before the first one after which the sequence has moved.
  function Undisturbed(moved: nat -> bool, triggered: nat): (r: nat)
    ensures r <= triggered && (forall k :: 0 <= k < r ==> !moved(k)) && (r < triggered ==> moved(r))
  {
    if triggered == 0 then 0
    else
      var r := Undisturbed(moved, triggered - 1);
      if r == triggered - 1 && !moved(r) then triggered else r
  }

  lemma UndisturbedIs(moved: nat -> bool, triggered: nat, r: nat)
    requires r <= triggered && (forall k :: 0 <= k < r ==> !moved(k)) && (r < triggered ==> moved(r))
    ensures Undisturbed(moved, triggered) == r
  {
  }

  lemma LastLength(s: Samples, n: nat)
    ensures |Last(s, n)| == if |s| > n then n else |s|
  {
  }
}
