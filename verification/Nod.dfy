/** The nod stamp: a greedy recorder of nose movements, which finds the longest alternation on each axis. */
module Nod {
  import opened Bytes

  datatype Axis = X | Y

  /** What the detector finds in a frame; a frame without exactly one face is skipped. */
  datatype Frame = NoFace | Face(reldist: int, x: int, y: int)

  datatype Options = Options(minDistance: int, minDirections: int, failsafe: bool)

  function PointOf(f: Frame, axis: Axis): int
    requires f.Face?
  {
    if axis == X then f.x else f.y
  }

  /** The last frame with a face. */
  function LastFace(frames: seq<Frame>): (f: Frame) {
    if frames == [] then NoFace
    else if frames[|frames| - 1].Face? then frames[|frames| - 1]
    else LastFace(frames[..|frames| - 1])
  }

  /** The stored values start as -1 and afterwards are those of the last face. */
  function LastReldist(frames: seq<Frame>): int {
    if LastFace(frames).Face? then LastFace(frames).reldist else -1
  }

  function LastPoint(frames: seq<Frame>, axis: Axis): int {
    if LastFace(frames).Face? then PointOf(LastFace(frames), axis) else -1
  }

  /** Where a movement starts: a stored -1 counts as no position yet. */
  function StartOf(last: int, point: int): int {
    if last == -1 then point else last
  }

  function Movement(start: int, point: int, avgReldist: real): real {
    (point - start) as real * 100.0 / (if avgReldist > 1.0 then avgReldist else 1.0)
  }

  function Average(last: int, now: int): real {
    (last + now) as real / 2.0
  }

  predicate IsMove(movement: real, minDistance: int) {
    movement < -(minDistance as real) || movement > minDistance as real
  }

  /** The movements over the threshold on one axis, as "is negative". */
  function Moves(frames: seq<Frame>, axis: Axis, minDistance: int): seq<bool> {
    if frames == [] then []
    else
      var before, f := frames[..|frames| - 1], frames[|frames| - 1];
      if f.NoFace? then Moves(before, axis, minDistance)
      else
        var point := PointOf(f, axis);
        var m := Movement(StartOf(LastPoint(before, axis), point), point, Average(LastReldist(before), f.reldist));
        Moves(before, axis, minDistance) + if IsMove(m, minDistance) then [m < 0.0] else []
  }

  predicate Alternating(signs: seq<bool>) {
    forall i :: 0 < i < |signs| ==> signs[i] != signs[i - 1]
  }

  predicate IsSubsequence(a: seq<bool>, b: seq<bool>) {
    a == [] ||
    (b != [] &&
     ((a[|a| - 1] == b[|b| - 1] && IsSubsequence(a[..|a| - 1], b[..|b| - 1])) || IsSubsequence(a, b[..|b| - 1])))
  }

  /** Some alternation at least k long can be picked out of the movements. */
  ghost predicate HasAlternation(moves: seq<bool>, k: int) {
    exists s :: IsSubsequence(s, moves) && Alternating(s) && |s| >= k
  }

  /** What the recorder keeps of the movements. */
  function Recorded(moves: seq<bool>): seq<bool> {
    if moves == [] then []
    else Record(Recorded(moves[..|moves| - 1]), moves[|moves| - 1])
  }

  function Record(recorded: seq<bool>, sign: bool): seq<bool> {
    if recorded == [] || recorded[|recorded| - 1] != sign then recorded + [sign] else recorded
  }

  /** The recorded signs are themselves such an alternation, and end with the last movement. */
  lemma {:induction false} RecordedIsAlternation(moves: seq<bool>)
    ensures IsSubsequence(Recorded(moves), moves) && Alternating(Recorded(moves))
    ensures forall i :: 0 < i < |Recorded(moves)| ==> Recorded(moves)[i] != Recorded(moves)[i - 1]
    ensures moves != [] ==> Recorded(moves) != [] && Recorded(moves)[|Recorded(moves)| - 1] == moves[|moves| - 1]
  {
    if moves != [] {
      var init := moves[..|moves| - 1];
      RecordedIsAlternation(init);
      var r, r' := Recorded(init), Recorded(moves);
      if r' != r { assert r'[..|r'| - 1] == r; }
    }
  }

  /** No alternation is longer, and one that ends with the other sign is shorter. */
  lemma {:induction false} RecordedIsLongest(moves: seq<bool>, s: seq<bool>)
    requires IsSubsequence(s, moves) && Alternating(s)
    ensures |s| <= |Recorded(moves)|
    ensures s != [] && s[|s| - 1] != moves[|moves| - 1] ==> |s| < |Recorded(moves)|
    decreases |moves|
  {
    if s != [] {
      var init, m := moves[..|moves| - 1], moves[|moves| - 1];
      RecordedIsAlternation(init);
      if IsSubsequence(s, init) {
        RecordedIsLongest(init, s);
      } else {
        RecordedIsLongest(init, s[..|s| - 1]);
      }
    }
  }

  /** The greedy record is as long as any alternation: reaching a length means that one of that length exists. */
  lemma RecordedIsOptimal(moves: seq<bool>, k: int)
    ensures |Recorded(moves)| >= k <==> HasAlternation(moves, k)
  {
    RecordedIsAlternation(moves);
    if s :| IsSubsequence(s, moves) && Alternating(s) && |s| >= k {
      RecordedIsLongest(moves, s);
    }
  }

  /** The axis has alternated often enough by the end of frame n, which shows a face. */
  ghost predicate Reached(frames: seq<Frame>, o: Options, axis: Axis, n: nat) {
    n < |frames| && frames[n].Face? && HasAlternation(Moves(frames[..n + 1], axis, o.minDistance), o.minDirections)
  }

  ghost predicate Decides(frames: seq<Frame>, o: Options, n: nat) {
    Reached(frames, o, X, n) || Reached(frames, o, Y, n)
  }

  ghost predicate Undecided(frames: seq<Frame>, o: Options, n: nat) {
    forall i :: 0 <= i < n ==> !Decides(frames, o, i)
  }

  /** One axis of one face: the new record, and whether it is long enough. */
  method Track(point: int, last: int, avgReldist: real, recorded: seq<bool>, o: Options)
    returns (recorded': seq<bool>, enough: bool)
    ensures var m := Movement(StartOf(last, point), point, avgReldist);
            recorded' == if IsMove(m, o.minDistance) then Record(recorded, m < 0.0) else recorded
    ensures enough <==> |recorded'| >= o.minDirections
  {
    var start := last;
    if start == -1 { start := point; }
    var movement := Movement(start, point, avgReldist);
    recorded' := recorded;
    if IsMove(movement, o.minDistance) {
      if |recorded'| == 0 {
        recorded' := recorded' + [movement < 0.0];
      } else if recorded'[|recorded'| - 1] != (movement < 0.0) {
        recorded' := recorded' + [movement < 0.0];
      }
    }
    enough := |recorded'| >= o.minDirections;
  }

  /** The variables of the loop hold what the frames so far call for on this axis. */
  ghost predicate Tracks(
    nosepoint: map<Axis, int>, nods: map<Axis, seq<bool>>, frames: seq<Frame>, o: Options, axis: Axis)
  {
    && axis in nosepoint && nosepoint[axis] == LastPoint(frames, axis)
    && axis in nods && nods[axis] == Recorded(Moves(frames, axis, o.minDistance))
  }

  /** The loop over the axes for a frame with a face: an answer if an axis has alternated often enough. */
  method TrackFace(
    ghost before: seq<Frame>, f: Frame, o: Options, avgReldist: real,
    nosepoint: map<Axis, int>, nods: map<Axis, seq<bool>>)
    returns (nosepoint': map<Axis, int>, nods': map<Axis, seq<bool>>, answer: Option<bool>)
    requires f.Face? && avgReldist == Average(LastReldist(before), f.reldist)
    requires Tracks(nosepoint, nods, before, o, X) && Tracks(nosepoint, nods, before, o, Y)
    ensures answer == if Reached(before + [f], o, X, |before|) then Some(false)
                      else if Reached(before + [f], o, Y, |before|) then Some(true) else None
    ensures answer == None ==>
              Tracks(nosepoint', nods', before + [f], o, X) && Tracks(nosepoint', nods', before + [f], o, Y)
  {
    hide Recorded, Moves, HasAlternation, Movement, Record, LastReldist;
    ghost var seen := before + [f];
    assert seen[..|before| + 1] == seen;
    var axes := [X, Y];
    nosepoint', nods' := nosepoint, nods;
    for k := 0 to 2
      invariant forall j :: 0 <= j < k ==> Tracks(nosepoint', nods', seen, o, axes[j])
      invariant forall j :: 0 <= j < k ==> !Reached(seen, o, axes[j], |before|)
      invariant forall j :: k <= j < 2 ==> Tracks(nosepoint', nods', before, o, axes[j])
    {
      var axis := axes[k];
      var recorded, enough := Track(PointOf(f, axis), nosepoint'[axis], avgReldist, nods'[axis], o);
      RecordedStep(before, f, axis, o.minDistance);
      RecordedIsOptimal(Moves(seen, axis, o.minDistance), o.minDirections);
      nods' := nods'[axis := recorded];
      if enough {
        assert axes[0] == X;
        return nosepoint', nods', Some(axis == Y);
      }
      nosepoint' := nosepoint'[axis := PointOf(f, axis)];
    }
    assert axes[0] == X && axes[1] == Y;
    answer := None;
  }

  /**
   The frames are those read before the timeout. The stamp ends at the first face by which some axis has
   alternated often enough, with a yes exactly if the shaking axis has not; otherwise it fails safe or not.
   */
  method Run(frames: seq<Frame>, o: Options) returns (confirmed: bool)
    ensures (exists n: nat :: Decides(frames, o, n)) ==>
              exists n: nat ::
                Decides(frames, o, n) && Undecided(frames, o, n) && confirmed == !Reached(frames, o, X, n)
    ensures Undecided(frames, o, |frames|) ==> confirmed == !o.failsafe
  {
    hide Recorded, Moves, HasAlternation, Reached;
    var lastReldist := -1;
    var lastNosepoint := map[X := -1, Y := -1];
    var recordedNods: map<Axis, seq<bool>> := map[X := [], Y := []];
    NothingTracked(o);
    for i := 0 to |frames|
      invariant Undecided(frames, o, i)
      invariant lastReldist == LastReldist(frames[..i])
      invariant Tracks(lastNosepoint, recordedNods, frames[..i], o, X)
      invariant Tracks(lastNosepoint, recordedNods, frames[..i], o, Y)
    {
      var f := frames[i];
      assert frames[..i + 1] == frames[..i] + [f] && frames[..i + 1][..i] == frames[..i];
      SameReach(frames, o, i);
      if f.NoFace? {
        SkippedFrame(frames[..i], o);
        continue;
      }
      var answer;
      lastNosepoint, recordedNods, answer :=
        TrackFace(frames[..i], f, o, Average(lastReldist, f.reldist), lastNosepoint, recordedNods);
      if answer.Some? {
        assert Decides(frames, o, i);
        return answer.value;
      }
      lastReldist := f.reldist;
    }
    assert frames[..|frames|] == frames;
    NothingLater(frames, o);
    confirmed := !o.failsafe;
  }

  lemma NothingTracked(o: Options)
    ensures Tracks(map[X := -1, Y := -1], map[X := [], Y := []], [], o, X)
    ensures Tracks(map[X := -1, Y := -1], map[X := [], Y := []], [], o, Y)
  {
  }

  lemma SameReach(frames: seq<Frame>, o: Options, i: nat)
    requires i < |frames|
    ensures forall axis :: Reached(frames[..i + 1], o, axis, i) <==> Reached(frames, o, axis, i)
    ensures frames[i].NoFace? ==> !Decides(frames, o, i)
  {
    assert frames[..i + 1][..i + 1] == frames[..i + 1];
  }

  lemma SkippedFrame(before: seq<Frame>, o: Options)
    ensures LastFace(before + [NoFace]) == LastFace(before)
    ensures forall axis :: Moves(before + [NoFace], axis, o.minDistance) == Moves(before, axis, o.minDistance)
  {
    assert (before + [NoFace])[..|before|] == before;
  }

  lemma NothingLater(frames: seq<Frame>, o: Options)
    requires Undecided(frames, o, |frames|)
    ensures !exists n: nat :: Decides(frames, o, n)
  {
    assert forall n: nat :: Decides(frames, o, n) ==> n < |frames|;
  }

  lemma RecordedStep(before: seq<Frame>, f: Frame, axis: Axis, minDistance: int)
    requires f.Face?
    ensures var point := PointOf(f, axis);
            var m := Movement(StartOf(LastPoint(before, axis), point), point, Average(LastReldist(before), f.reldist));
            Recorded(Moves(before + [f], axis, minDistance))
            == if IsMove(m, minDistance) then Record(Recorded(Moves(before, axis, minDistance)), m < 0.0)
               else Recorded(Moves(before, axis, minDistance))
  {
    var point := PointOf(f, axis);
    var m := Movement(StartOf(LastPoint(before, axis), point), point, Average(LastReldist(before), f.reldist));
    assert (before + [f])[..|before|] == before;
    var moves := Moves(before, axis, minDistance);
    assert (moves + [m < 0.0])[..|moves|] == moves;
    assert moves + [] == moves;
  }

  /**
   The movement from one face to the next: along x for shaking, along y for nodding, in percent of the average distance
   of the eyes. It is recorded if it is over the minimal distance in either direction.
   */
  lemma MovesExactly(before: seq<Frame>, g: Frame, f: Frame, d: int)
    requires f.Face? && g.Face? && before != [] && before[|before| - 1] == g
    ensures var eyes := (g.reldist + f.reldist) as real / 2.0;
            var scale := if eyes > 1.0 then eyes else 1.0;
            var shake := (f.x - if g.x == -1 then f.x else g.x) as real * 100.0 / scale;
            var nod := (f.y - if g.y == -1 then f.y else g.y) as real * 100.0 / scale;
            && Moves(before + [f], X, d)
               == Moves(before, X, d) + (if shake > d as real || -shake > d as real then [shake < 0.0] else [])
            && Moves(before + [f], Y, d)
               == Moves(before, Y, d) + (if nod > d as real || -nod > d as real then [nod < 0.0] else [])
  {
    assert (before + [f])[..|before|] == before;
  }
}
