// Duplicate suppression of the FT2 decoder task (src/trx-server/src/audio.rs:73, 94-108).
module Ft2Dedupe {

  const RETENTION := 8 * 1_000_000_000

  // The program joins text and number with a bar; a number has no bar in it, so the pair can
  // be told from the string.
  datatype Key = Key(text: string, hz: int)

  datatype Emission = Emission(key: Key, at: int)

  // Rounds half away from zero, and saturates to 32 bits.
  function RoundToI32(x: real): int {
    var n := if x >= 0.0 then (x + 0.5).Floor else -((0.5 - x).Floor);
    if n < -0x8000_0000 then -0x8000_0000 else if n > 0x7FFF_FFFF then 0x7FFF_FFFF else n
  }

  // The number in a key is the nearest one, halves away from zero, or the end of the range.
  lemma RoundIs(x: real)
    ensures var n := RoundToI32(x);
            && (x >= 2147483647.0 ==> n == 2147483647)
            && (x <= -2147483648.0 ==> n == -2147483648)
            && (0.0 <= x < 2147483647.0 ==> n as real - 0.5 <= x < n as real + 0.5)
            && (-2147483648.0 < x < 0.0 ==> n as real - 0.5 < x <= n as real + 0.5)
  {
  }

  // Whether the key went out within the last eight seconds, by the whole log.
  ghost predicate Recent(log: seq<Emission>, key: Key, now: int) {
    exists i :: 0 <= i < |log| && log[i].key == key && now - log[i].at <= 8_000_000_000
  }

  // Any two emissions of the same message are more than eight seconds apart.
  ghost predicate Spaced(log: seq<Emission>) {
    forall i, j :: 0 <= i < j < |log| && log[i].key == log[j].key ==> log[j].at - log[i].at > 8_000_000_000
  }

  // The map has the last emission of every key that is recent, and may have older ones.
  ghost predicate Tracks(recent: map<Key, int>, log: seq<Emission>, clock: int) {
    && (forall i :: 0 <= i < |log| ==> log[i].at <= clock)
    && (forall k :: k in recent ==> Emission(k, recent[k]) in log)
    && (forall i :: 0 <= i < |log|
                    ==> clock - log[i].at > RETENTION || (log[i].key in recent && log[i].at <= recent[log[i].key]))
  }

  lemma TracksTells(recent: map<Key, int>, log: seq<Emission>, clock: int, key: Key)
    requires Tracks(recent, log, clock) && forall k :: k in recent ==> clock - recent[k] <= RETENTION
    ensures key in recent <==> Recent(log, key, clock)
  {
    assert key in recent ==> Emission(key, recent[key]) in log;
  }

  lemma TracksSnoc(recent: map<Key, int>, log: seq<Emission>, clock: int, key: Key)
    requires Tracks(recent, log, clock) && Spaced(log) && !Recent(log, key, clock)
    ensures Tracks(recent[key := clock], log + [Emission(key, clock)], clock) && Spaced(log + [Emission(key, clock)])
  {
    var now, after := log + [Emission(key, clock)], recent[key := clock];
    assert now[|log|] == Emission(key, clock);
    forall k | k in after ensures Emission(k, after[k]) in now {
      assert k != key ==> k in recent && Emission(k, recent[k]) in log;
    }
  }

  class RecentDecodes {
    var recent: map<Key, int>
    // Everything emitted since the last reset, and the last instant read.
    ghost var log: seq<Emission>
    ghost var clock: int

    ghost predicate Valid()
      reads this
    {
      Tracks(recent, log, clock) && Spaced(log)
    }

    constructor (now: int)
      ensures Valid() && log == [] && clock == now
    {
      recent, log, clock := map[], [], now;
    }

    method Clear()
      requires Valid()
      modifies this`recent, this`log
      ensures Valid() && log == []
    {
      recent, log := map[], [];
    }

    method Prune(now: int)
      requires Valid() && clock <= now
      modifies this`recent, this`clock
      ensures Valid() && clock == now && log == old(log)
      ensures forall k :: k in recent ==> now - recent[k] <= RETENTION
    {
      recent := map k | k in recent && now - recent[k] <= RETENTION :: recent[k];
      clock := now;
    }

    // The pruned map answers as the whole log would: a message goes out if and only if the
    // same one did not within the last eight seconds.
    method ShouldEmit(text: string, freqHz: real, now: int) returns (emit: bool)
      requires Valid() && clock <= now
      modifies this
      ensures Valid() && clock == now
      ensures emit <==> !Recent(old(log), Key(text, RoundToI32(freqHz)), now)
      ensures log == old(log) + if emit then [Emission(Key(text, RoundToI32(freqHz)), now)] else []
    {
      hide Tracks, Spaced, Recent, RoundToI32;
      Prune(now);
      var key := Key(text, RoundToI32(freqHz));
      TracksTells(recent, log, now, key);
      if key in recent {
        return false;
      }
      TracksSnoc(recent, log, now, key);
      recent := recent[key := now];
      log := log + [Emission(key, now)];
      return true;
    }
  }
}
