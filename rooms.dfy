/** Parameter sets for the Moorer reverberator: the tapped delay line that
    shapes the early echoes and the comb delays that fill out the decay. */
module Rooms {
  import opened Types

  /** Tapped delays (in samples) with one gain each, and comb delays. */
  datatype Room = Room(tappedDelays: seq<Time>, tappedGains: seq<real>, combDelays: seq<Time>)

  /** Strictly increasing. */
  ghost predicate Increasing(s: seq<Time>)
  {
    forall i, j :: 0 <= i < j < |s| ==> s[i] < s[j]
  }

  /** What the reverberator relies on: one gain per tapped delay, a last
      tapped delay that is the longest, and at least one comb delay, all of
      them positive and increasing, so that the comb count can divide. */
  ghost predicate Usable(r: Room)
  {
    && |r.tappedDelays| == |r.tappedGains| >= 1
    && Increasing(r.tappedDelays)
    && |r.combDelays| >= 1
    && (forall i :: 0 <= i < |r.combDelays| ==> r.combDelays[i] > 0)
    && Increasing(r.combDelays)
  }

  /** Every tap attenuates: its gain lies strictly between 0 and 1. */
  ghost predicate Attenuating(r: Room)
  {
    forall i :: 0 <= i < |r.tappedGains| ==> 0.0 < r.tappedGains[i] < 1.0
  }

  /** The start of the reverberator's set-up: it asserts one gain per tap and
      then takes the last tapped delay as the longest one. `None` stands for
      the failed assertion or the out-of-range index of an empty list. */
  function LongestTap(r: Room): (o: Option<Time>)
    ensures o.Some? <==> |r.tappedDelays| == |r.tappedGains| >= 1
    ensures o.Some? && Increasing(r.tappedDelays) ==>
      o.value in r.tappedDelays && forall d :: d in r.tappedDelays ==> d <= o.value
  {
    if |r.tappedDelays| != |r.tappedGains| || |r.tappedDelays| == 0 then None
    else Some(r.tappedDelays[|r.tappedDelays| - 1])
  }

  /** The concert hall as listed: 17 tapped delays but 18 gains, and a
      ninth gain of 192. */
  function HallAsWritten(): Room
  {
    Room(
      [190, 948, 992, 1182, 1191, 1314, 2020, 2523, 2589,
       2624, 2699, 3118, 3122, 3202, 3268, 3321, 3515],
      [0.841, 0.504, 0.491, 0.379, 0.380, 0.346, 0.289, 0.272,
       192.0, 0.193, 0.217, 0.181, 0.180, 0.181, 0.176, 0.142, 0.167, 0.134],
      [2205, 2470, 2690, 2999, 3175, 3440])
  }

  /** The listed hall cannot be used: the counts differ, so the
      reverberator's assertion fails, and its ninth tap amplifies. */
  lemma HallAsWrittenRejected()
    ensures |HallAsWritten().tappedDelays| == 17 && |HallAsWritten().tappedGains| == 18
    ensures LongestTap(HallAsWritten()) == None && !Usable(HallAsWritten())
    ensures HallAsWritten().tappedGains[8] == 192.0 && !Attenuating(HallAsWritten())
  {
  }

  /** The hall with the tap missing between 2020 and 2523 samples restored
      (48.5 ms at 44100 Hz, 2139 samples) and the ninth gain read as 0.192. */
  function Hall(): (r: Room)
    ensures Usable(r) && Attenuating(r)
    ensures LongestTap(r) == Some(3515)
  {
    var r := Room(
      [190, 948, 992, 1182, 1191, 1314, 2020, 2139, 2523, 2589,
       2624, 2699, 3118, 3122, 3202, 3268, 3321, 3515],
      [0.841, 0.504, 0.491, 0.379, 0.380, 0.346, 0.289, 0.272,
       0.192, 0.193, 0.217, 0.181, 0.180, 0.181, 0.176, 0.142, 0.167, 0.134],
      [2205, 2470, 2690, 2999, 3175, 3440]);
    IncreasingByNeighbours(r.tappedDelays);
    IncreasingByNeighbours(r.combDelays);
    r
  }

  /** A list whose neighbours increase is increasing throughout. */
  lemma {:induction false} IncreasingByNeighbours(s: seq<Time>)
    requires forall i :: 0 <= i < |s| - 1 ==> s[i] < s[i + 1]
    ensures Increasing(s)
    decreases |s|
  {
    if |s| > 1 {
      var p := s[..|s| - 1];
      assert forall i :: 0 <= i < |p| - 1 ==> p[i] < p[i + 1];
      IncreasingByNeighbours(p);
      forall i, j | 0 <= i < j < |s|
        ensures s[i] < s[j]
      {
        if j < |s| - 1 {
          assert p[i] < p[j];
        } else if i < j - 1 {
          assert p[i] < p[j - 1];
        }
      }
    }
  }
}
