/** The hero avatar's animation set-up (frontend/src/js/avatar.js): which clip of the
    loaded model plays, and `normalizeClipStart`, which shifts a copy of a clip so
    that its earliest keyframe is at 0 s. Durations and keyframe times are reals; the
    floating-point rounding of the browser is left out. */
module Avatar {
  import opened Wrappers
  import opened Text

  // ---------------------------------------------------------------------------
  // Choosing the clip

  /** An animation clip: its name and its `duration`, which may be missing. */
  datatype Clip = Clip(name: string, duration: Option<real>)

  /** `c.duration || 0`. */
  function Dur(c: Clip): real {
    c.duration.GetOr(0.0)
  }

  /** `/typing|type|idle/i.test(c.name)`. */
  predicate PreferredName(name: string) {
    var n := LowerStr(name);
    Contains(n, "typing") || Contains(n, "type") || Contains(n, "idle")
  }

  /** `/typing|type|idle/i.test(c.name) && c.duration > 0`. */
  predicate Preferred(c: Clip) {
    PreferredName(c.name) && Dur(c) > 0.0
  }

  /** `clips.find(...)`: the index of the first preferred clip. */
  function FindPreferred(clips: seq<Clip>): (r: Option<nat>)
    ensures r.None? <==> forall j :: 0 <= j < |clips| ==> !Preferred(clips[j])
    ensures r.Some? ==>
      && r.value < |clips| && Preferred(clips[r.value])
      && (forall j :: 0 <= j < r.value ==> !Preferred(clips[j]))
  {
    if clips == [] then None
    else if Preferred(clips[0]) then Some(0)
    else
      var r := FindPreferred(clips[1..]);
      assert forall j :: 1 <= j < |clips| ==> clips[j] == clips[1..][j - 1];
      if r.None? then None else Some(r.value + 1)
  }

  /** `clips.reduce((best, c) => !best || dur(c) > dur(best) ? c : best, null)`: the
      index of the best clip among the first `n`. */
  function Longest(clips: seq<Clip>, n: nat): (r: nat)
    requires 0 < n <= |clips|
    ensures r < n
    ensures forall j :: 0 <= j < n ==> Dur(clips[j]) <= Dur(clips[r])
    ensures forall j :: 0 <= j < r ==> Dur(clips[j]) < Dur(clips[r])
  {
    if n == 1 then 0
    else
      var best := Longest(clips, n - 1);
      if Dur(clips[n - 1]) > Dur(clips[best]) then n - 1 else best
  }

  /** The clip the load callback picks: none for a model without clips, else the
      preferred clip, else the longest. */
  function ChooseClip(clips: seq<Clip>): (r: Option<nat>)
    ensures r.None? <==> clips == []
    ensures r.Some? ==> r.value < |clips|
  {
    if clips == [] then None
    else
      var p := FindPreferred(clips);
      if p.Some? then p else Some(Longest(clips, |clips|))
  }

  /** `clip && clip.duration > 0`: the chosen clip is played, else a warning is
      logged. */
  predicate Plays(clips: seq<Clip>) {
    var r := ChooseClip(clips);
    r.Some? && Dur(clips[r.value]) > 0.0
  }

  /** The first clip with the longest duration, defined without a fold. */
  predicate IsFirstLongest(clips: seq<Clip>, r: nat) {
    && r < |clips|
    && (forall j :: 0 <= j < |clips| ==> Dur(clips[j]) <= Dur(clips[r]))
    && (forall j :: 0 <= j < r ==> Dur(clips[j]) < Dur(clips[r]))
  }

  /** The choice: the first preferred clip if there is one, else the first of the
      longest clips. */
  lemma {:induction false} ChooseClipIs(clips: seq<Clip>)
    requires clips != []
    ensures FindPreferred(clips).Some? ==> ChooseClip(clips) == FindPreferred(clips)
    ensures FindPreferred(clips).None? ==> IsFirstLongest(clips, ChooseClip(clips).value)
  {
  }

  /** There is only one first longest clip. */
  lemma {:induction false} FirstLongestUnique(clips: seq<Clip>, r: nat, q: nat)
    requires IsFirstLongest(clips, r) && IsFirstLongest(clips, q)
    ensures r == q
  {
    assert Dur(clips[r]) <= Dur(clips[q]) && Dur(clips[q]) <= Dur(clips[r]);
  }

  /** An animation plays exactly when some clip has a positive duration. */
  lemma {:induction false} PlaysIff(clips: seq<Clip>)
    ensures Plays(clips) <==> exists j :: 0 <= j < |clips| && Dur(clips[j]) > 0.0
  {
    if clips != [] {
      var r := ChooseClip(clips).value;
      if exists j :: 0 <= j < |clips| && Dur(clips[j]) > 0.0 {
        var j :| 0 <= j < |clips| && Dur(clips[j]) > 0.0;
        if FindPreferred(clips).None? {
          assert Dur(clips[j]) <= Dur(clips[r]);
        }
      }
    }
  }

  // ---------------------------------------------------------------------------
  // Shifting the keyframes

  /** `t0 = min(t0, tr.times[0])` over the tracks with keyframes, the first `n`
      tracks in order; None stands for `Infinity`, the value when no track has one. */
  function Start(tracks: seq<seq<real>>): Option<real>
    decreases |tracks|
  {
    if tracks == [] then None
    else MinFirst(Start(tracks[..|tracks| - 1]), tracks[|tracks| - 1])
  }

  function MinFirst(t0: Option<real>, times: seq<real>): Option<real> {
    if times == [] then t0
    else if t0.None? || times[0] < t0.value then Some(times[0])
    else t0
  }

  /** `times[i] -= t0` for every keyframe of a track. */
  function Shift(times: seq<real>, d: real): (r: seq<real>)
    ensures |r| == |times|
    ensures forall i, j :: 0 <= i < |r| && 0 <= j < |r| ==> r[j] - r[i] == times[j] - times[i]
  {
    seq(|times|, i requires 0 <= i < |times| => times[i] - d)
  }

  function ShiftAll(tracks: seq<seq<real>>, d: real): (r: seq<seq<real>>)
    ensures |r| == |tracks|
  {
    seq(|tracks|, k requires 0 <= k < |tracks| => Shift(tracks[k], d))
  }

  /** The keyframe times of the copy `normalizeClipStart` returns: shifted when some
      track starts after 0 s, else unchanged. */
  function Normalized(tracks: seq<seq<real>>): seq<seq<real>> {
    var t0 := Start(tracks);
    if t0.Some? && t0.value > 0.0 then ShiftAll(tracks, t0.value) else tracks
  }

  /** The start is the smallest first keyframe time, and none exactly when no track
      has a keyframe. */
  lemma {:induction false} StartIsMin(tracks: seq<seq<real>>)
    ensures Start(tracks).None? <==> forall k :: 0 <= k < |tracks| ==> tracks[k] == []
    ensures Start(tracks).Some? ==>
      && (forall k :: 0 <= k < |tracks| && tracks[k] != [] ==> Start(tracks).value <= tracks[k][0])
      && (exists k :: 0 <= k < |tracks| && tracks[k] != [] && tracks[k][0] == Start(tracks).value)
    decreases |tracks|
  {
    if tracks != [] {
      var n := |tracks| - 1;
      var front := tracks[..n];
      StartIsMin(front);
      assert forall k :: 0 <= k < n ==> front[k] == tracks[k];
      if Start(tracks).Some? && Start(front).Some? && Start(tracks) == Start(front) {
        var k :| 0 <= k < n && front[k] != [] && front[k][0] == Start(front).value;
        assert tracks[k] == front[k];
      }
    }
  }

  /** Shifting every track by d shifts the start by d. */
  lemma {:induction false} StartShift(tracks: seq<seq<real>>, d: real)
    ensures Start(ShiftAll(tracks, d)) == if Start(tracks).None? then None else Some(Start(tracks).value - d)
    decreases |tracks|
  {
    if tracks != [] {
      var n := |tracks| - 1;
      assert ShiftAll(tracks, d)[..n] == ShiftAll(tracks[..n], d);
      StartShift(tracks[..n], d);
    }
  }

  /** After normalising, a clip whose keyframes started late starts at 0 s; any other
      clip keeps its times. */
  lemma {:induction false} NormalizedStart(tracks: seq<seq<real>>)
    ensures var t0 := Start(tracks);
      && (t0.Some? && t0.value > 0.0 ==> Start(Normalized(tracks)) == Some(0.0))
      && (t0.None? || t0.value <= 0.0 ==> Normalized(tracks) == tracks)
  {
    var t0 := Start(tracks);
    if t0.Some? && t0.value > 0.0 {
      StartShift(tracks, t0.value);
    }
  }

  /** Normalising twice is normalising once. */
  lemma {:induction false} NormalizedIdempotent(tracks: seq<seq<real>>)
    ensures Normalized(Normalized(tracks)) == Normalized(tracks)
  {
    NormalizedStart(tracks);
    var t0 := Start(tracks);
    if t0.Some? && t0.value > 0.0 {
      NormalizedStart(Normalized(tracks));
    }
  }

  /** Every track keeps its keyframe count and the gaps between its keyframes. */
  lemma {:induction false} NormalizedKeepsGaps(tracks: seq<seq<real>>)
    ensures |Normalized(tracks)| == |tracks|
    ensures forall k :: 0 <= k < |tracks| ==> |Normalized(tracks)[k]| == |tracks[k]|
    ensures forall k, i, j :: 0 <= k < |tracks| && 0 <= i < |tracks[k]| && 0 <= j < |tracks[k]| ==>
      Normalized(tracks)[k][j] - Normalized(tracks)[k][i] == tracks[k][j] - tracks[k][i]
  {
    var t0 := Start(tracks);
    if t0.Some? && t0.value > 0.0 {
      forall k | 0 <= k < |tracks| ensures Normalized(tracks)[k] == Shift(tracks[k], t0.value) {
      }
    }
  }

  /** An animation track of a clip: its keyframe times. */
  class Track {
    const times: array<real>

    constructor (times: array<real>)
      ensures this.times == times
    {
      this.times := times;
    }
  }

  /** The keyframe times of some tracks. */
  ghost function Times(tracks: seq<Track>): (r: seq<seq<real>>)
    reads set k | 0 <= k < |tracks| :: tracks[k].times
    ensures |r| == |tracks|
    ensures forall k :: 0 <= k < |tracks| ==> r[k] == tracks[k].times[..]
  {
    if tracks == [] then [] else [tracks[0].times[..]] + Times(tracks[1..])
  }

  /** No two tracks share a times array. */
  predicate Separate(tracks: seq<Track>) {
    forall j, k :: 0 <= j < k < |tracks| ==> tracks[j].times != tracks[k].times
  }

  /** `srcClip.clone()`: fresh tracks with the same keyframe times. */
  method CloneTracks(src: seq<Track>) returns (tracks: seq<Track>)
    ensures |tracks| == |src| && Separate(tracks)
    ensures forall k :: 0 <= k < |tracks| ==> fresh(tracks[k]) && fresh(tracks[k].times)
    ensures Times(tracks) == Times(src)
  {
    tracks := [];
    var k := 0;
    while k < |src|
      invariant 0 <= k <= |src| && |tracks| == k && Separate(tracks)
      invariant forall j :: 0 <= j < k ==> fresh(tracks[j]) && fresh(tracks[j].times)
      invariant forall j :: 0 <= j < k ==> tracks[j].times[..] == src[j].times[..]
    {
      var from := src[k].times;
      var a := new real[from.Length](i requires 0 <= i < from.Length reads from => from[i]);
      var t := new Track(a);
      tracks := tracks + [t];
      k := k + 1;
    }
  }

  /** `normalizeClipStart(srcClip)`: clone the clip, find the earliest first keyframe
      of its tracks, and if it is after 0 s subtract it from every keyframe of the
      copy. The source clip is not written to: the method modifies nothing that
      existed before it ran. */
  method NormalizeClipStart(src: seq<Track>) returns (tracks: seq<Track>)
    ensures |tracks| == |src| && Separate(tracks)
    ensures forall k :: 0 <= k < |tracks| ==> fresh(tracks[k].times)
    ensures Times(tracks) == Normalized(old(Times(src)))
  {
    ghost var orig := Times(src);
    tracks := CloneTracks(src);
    ghost var cloned := Times(tracks);
    assert cloned == orig;
    var t0 := EarliestKey(tracks);
    if t0.Some? && t0.value > 0.0 {
      ShiftTracks(tracks, t0.value);
      assert Times(tracks) == ShiftAll(cloned, t0.value);
    }
  }

  /** The first loop: the smallest first keyframe time, `Infinity` (None) when no
      track has a keyframe. */
  method EarliestKey(tracks: seq<Track>) returns (t0: Option<real>)
    ensures t0 == Start(Times(tracks))
  {
    ghost var times := Times(tracks);
    t0 := None;
    var k := 0;
    while k < |tracks|
      invariant 0 <= k <= |tracks|
      invariant t0 == Start(times[..k])
    {
      assert times[..k + 1][..k] == times[..k];
      t0 := MinFirst(t0, tracks[k].times[..]);
      k := k + 1;
    }
    assert times[..|tracks|] == times;
  }

  /** The second loop: every keyframe of every track moves back by d. */
  method ShiftTracks(tracks: seq<Track>, d: real)
    requires Separate(tracks)
    modifies set k | 0 <= k < |tracks| :: tracks[k].times
    ensures Times(tracks) == ShiftAll(old(Times(tracks)), d)
  {
    ghost var before := Times(tracks);
    var k := 0;
    while k < |tracks|
      invariant 0 <= k <= |tracks|
      invariant forall j :: 0 <= j < k ==> tracks[j].times[..] == Shift(before[j], d)
      invariant forall j :: k <= j < |tracks| ==> tracks[j].times[..] == before[j]
    {
      ShiftTrack(tracks[k].times, d);
      k := k + 1;
    }
    assert forall j :: 0 <= j < |tracks| ==> Times(tracks)[j] == ShiftAll(before, d)[j];
  }

  /** The inner loop: `for (let i = 0; i < tr.times.length; i++) tr.times[i] -= t0`. */
  method ShiftTrack(a: array<real>, d: real)
    modifies a
    ensures a[..] == Shift(old(a[..]), d)
  {
    var i := 0;
    while i < a.Length
      invariant 0 <= i <= a.Length
      invariant forall j :: 0 <= j < i ==> a[j] == old(a[j]) - d
      invariant forall j :: i <= j < a.Length ==> a[j] == old(a[j])
    {
      a[i] := a[i] - d;
      i := i + 1;
    }
  }
}
