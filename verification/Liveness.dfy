/** Presentation attack detection over a stream of frames, and the decision loop around it. */
module Liveness {
  import opened Bytes
  import V = FaceVerifier

  const MOTION_FLOOR := 0.010
  const PARALLAX_RATIO := 0.05
  const MIN_MOTION_PAIRS := 3
  const WINDOW := 16

  type Landmarks = seq<(real, real)>

  /** What the geometry of two faces in a row gives: no rigid fit, or motion and nose residual in eye distances. */
  datatype Pair = NoFit | Fit(motion: real, residual: real)
  type Geometry = (Landmarks, Landmarks) -> Pair

  /** A face that was found: its likeness to the models, the vote of the texture engine, its landmarks. */
  datatype Face = Face(similarity: real, live: bool, kps: Landmarks)

  /** One turn of the loop before the deadline: a cancel, no picture, or a picture with its darkest bin. */
  datatype Turn = CancelRequested | NoPicture | Picture(darkest: real, total: real, face: Option<Face>)

  datatype Settings = Settings(certainty: real, darkThreshold: real, pad: bool)

  // ---------- the analyzer ----------

  datatype Analyzer = Analyzer(kpsHistory: seq<Landmarks>, textureVotes: seq<bool>, parallaxRatios: seq<real>)

  /** Append to a deque with a maximal length. */
  function Push<T>(q: seq<T>, x: T): seq<T> {
    if |q| < WINDOW then q + [x] else q[1..] + [x]
  }

  function RatioOf(pair: Pair): seq<real> {
    if pair.NoFit? || pair.motion < MOTION_FLOOR then [] else [pair.residual / pair.motion]
  }

  function Updated(a: Analyzer, f: Face, geometry: Geometry): Analyzer {
    var history := Push(a.kpsHistory, f.kps);
    var votes := Push(a.textureVotes, f.live);
    if |history| < 2 then Analyzer(history, votes, a.parallaxRatios)
    else
      Analyzer(history, votes, a.parallaxRatios + RatioOf(geometry(history[|history| - 2], history[|history| - 1])))
  }

  function Trues(votes: seq<bool>): (n: nat)
    ensures n <= |votes|
  {
    if votes == [] then 0 else Trues(votes[..|votes| - 1]) + if votes[|votes| - 1] then 1 else 0
  }

  predicate TextureOk(a: Analyzer) {
    |a.textureVotes| >= 3 && Trues(a.textureVotes) as real > |a.textureVotes| as real / 2.0
  }

  function Ascending(s: seq<real>): (r: seq<real>)
    ensures |r| == |s|
  {
    if s == [] then [] else InsertReal(s[0], Ascending(s[1..]))
  }

  function InsertReal(x: real, s: seq<real>): (r: seq<real>)
    ensures |r| == |s| + 1
  {
    if s == [] || x <= s[0] then [x] + s else [s[0]] + InsertReal(x, s[1..])
  }

  function Median(s: seq<real>): real
    requires s != []
  {
    var sorted, half := Ascending(s), |s| / 2;
    if |s| % 2 == 1 then sorted[half] else (sorted[half - 1] + sorted[half]) / 2.0
  }

  function ParallaxOk(a: Analyzer): Option<bool> {
    if |a.parallaxRatios| < MIN_MOTION_PAIRS then None else Some(Median(a.parallaxRatios) >= PARALLAX_RATIO)
  }

  predicate Verdict(a: Analyzer) {
    TextureOk(a) && ParallaxOk(a) == Some(true)
  }

  class LivenessAnalyzer {
    var kpsHistory: seq<Landmarks>
    var textureVotes: seq<bool>
    var parallaxRatios: seq<real>

    function State(): Analyzer
      reads this
    {
      Analyzer(kpsHistory, textureVotes, parallaxRatios)
    }

    constructor ()
      ensures State() == Analyzer([], [], [])
    {
      kpsHistory, textureVotes, parallaxRatios := [], [], [];
    }

    method Update(f: Face, geometry: Geometry)
      modifies this
      ensures State() == Updated(old(State()), f, geometry)
    {
      textureVotes := Push(textureVotes, f.live);
      kpsHistory := Push(kpsHistory, f.kps);
      if |kpsHistory| < 2 {
        return;
      }
      var pair := geometry(kpsHistory[|kpsHistory| - 2], kpsHistory[|kpsHistory| - 1]);
      if pair.NoFit? || pair.motion < MOTION_FLOOR {
        assert parallaxRatios + [] == parallaxRatios;
        return;
      }
      parallaxRatios := parallaxRatios + [pair.residual / pair.motion];
    }
  }

  // ---------- what the analyzer holds after some faces ----------

  function Analyzed(faces: seq<Face>, geometry: Geometry): Analyzer {
    if faces == [] then Analyzer([], [], [])
    else Updated(Analyzed(faces[..|faces| - 1], geometry), faces[|faces| - 1], geometry)
  }

  function LastOnes<T>(s: seq<T>): seq<T> {
    if |s| <= WINDOW then s else s[|s| - WINDOW..]
  }

  function Votes(faces: seq<Face>): (votes: seq<bool>)
    ensures |votes| == |faces| && forall i :: 0 <= i < |faces| ==> votes[i] == faces[i].live
  {
    if faces == [] then [] else Votes(faces[..|faces| - 1]) + [faces[|faces| - 1].live]
  }

  function AllKps(faces: seq<Face>): (kps: seq<Landmarks>)
    ensures |kps| == |faces| && forall i :: 0 <= i < |faces| ==> kps[i] == faces[i].kps
  {
    if faces == [] then [] else AllKps(faces[..|faces| - 1]) + [faces[|faces| - 1].kps]
  }

  /** The ratios of the pairs of consecutive faces that move enough. */
  function Ratios(faces: seq<Face>, geometry: Geometry): (ratios: seq<real>)
    ensures faces != [] ==> |ratios| <= |faces| - 1
  {
    if |faces| < 2 then []
    else Ratios(faces[..|faces| - 1], geometry) + RatioOf(geometry(faces[|faces| - 2].kps, faces[|faces| - 1].kps))
  }

  lemma PushLastOnes<T>(s: seq<T>, x: T)
    ensures Push(LastOnes(s), x) == LastOnes(s + [x])
  {
  }

  /** The last two that the deque holds are the last two of all. */
  lemma LastTwo<T>(s: seq<T>)
    requires |s| >= 2
    ensures var q := LastOnes(s); |q| >= 2 && q[|q| - 2] == s[|s| - 2] && q[|q| - 1] == s[|s| - 1]
  {
  }

  /** The deques hold the last sixteen, and the ratios are never dropped. */
  lemma {:induction false} AnalyzedCharacterized(faces: seq<Face>, geometry: Geometry)
    ensures Analyzed(faces, geometry)
            == Analyzer(LastOnes(AllKps(faces)), LastOnes(Votes(faces)), Ratios(faces, geometry))
  {
    if faces != [] {
      var init, f := faces[..|faces| - 1], faces[|faces| - 1];
      AnalyzedCharacterized(init, geometry);
      PushLastOnes(AllKps(init), f.kps);
      PushLastOnes(Votes(init), f.live);
      assert AllKps(faces) == AllKps(init) + [f.kps] && Votes(faces) == Votes(init) + [f.live];
      if |faces| >= 2 {
        LastTwo(AllKps(faces));
        hide LastOnes, AllKps, Votes, RatioOf, Push;
        assert Analyzed(faces, geometry) == Updated(Analyzed(init, geometry), f, geometry);
      }
    }
  }

  /** The faces seen pass both checks. */
  ghost predicate Live(faces: seq<Face>, geometry: Geometry) {
    Verdict(Analyzed(faces, geometry))
  }

  function CountAtLeast(s: seq<real>, t: real): (n: nat)
    ensures n <= |s|
  {
    if s == [] then 0 else (if s[0] >= t then 1 else 0) + CountAtLeast(s[1..], t)
  }

  /**
   Faces pass exactly if a strict majority of the last sixteen or fewer votes is live, at least three pairs moved
   and their median ratio reaches the bound; then there are at least four faces, and at least half of the pairs
   that moved reach the bound.
   */
  lemma LiveCharacterized(faces: seq<Face>, geometry: Geometry)
    ensures var votes, ratios := LastOnes(Votes(faces)), Ratios(faces, geometry);
            Live(faces, geometry) <==>
            2 * Trues(votes) > |votes| && |ratios| >= 3 && Median(ratios) >= 0.05
    ensures Live(faces, geometry) ==>
              && |faces| >= 4
              && 2 * CountAtLeast(Ratios(faces, geometry), PARALLAX_RATIO) >= |Ratios(faces, geometry)|
  {
    hide Analyzed, Median, Votes, Ratios, AllKps;
    AnalyzedCharacterized(faces, geometry);
    var votes := LastOnes(Votes(faces));
    assert Trues(votes) as real > |votes| as real / 2.0 <==> 2 * Trues(votes) > |votes|;
    var ratios := Ratios(faces, geometry);
    if |ratios| >= 3 { MedianReachedByHalf(ratios, PARALLAX_RATIO); }
  }

  predicate IsAscending(s: seq<real>) {
    forall i, j :: 0 <= i < j < |s| ==> s[i] <= s[j]
  }

  lemma {:induction false} AscendingIsSorted(s: seq<real>)
    ensures IsAscending(Ascending(s)) && multiset(Ascending(s)) == multiset(s)
  {
    hide InsertReal;
    if s != [] {
      hide IsAscending;
      AscendingIsSorted(s[1..]);
      InsertKeepsSorted(s[0], Ascending(s[1..]));
      InsertPermutes(s[0], Ascending(s[1..]));
      assert s == [s[0]] + s[1..];
      assert Ascending(s) == InsertReal(s[0], Ascending(s[1..]));
    }
  }

  lemma {:induction false} InsertPermutes(x: real, s: seq<real>)
    ensures multiset(InsertReal(x, s)) == multiset(s) + multiset{x}
  {
    if s != [] && !(x <= s[0]) {
      InsertPermutes(x, s[1..]);
      assert s == [s[0]] + s[1..];
    }
  }

  lemma {:induction false} InsertKeepsSorted(x: real, s: seq<real>)
    requires IsAscending(s)
    ensures IsAscending(InsertReal(x, s))
    ensures InsertReal(x, s)[0] == if s == [] || x <= s[0] then x else s[0]
  {
    if s != [] && !(x <= s[0]) {
      InsertKeepsSorted(x, s[1..]);
      AscendingCons(s[0], InsertReal(x, s[1..]));
    }
  }

  lemma AscendingCons(x: real, s: seq<real>)
    requires IsAscending(s) && (s != [] ==> x <= s[0])
    ensures IsAscending([x] + s)
  {
  }

  lemma {:induction false} InsertCounts(x: real, s: seq<real>, t: real)
    ensures CountAtLeast(InsertReal(x, s), t) == CountAtLeast(s, t) + if x >= t then 1 else 0
  {
    if s != [] && !(x <= s[0]) {
      InsertCounts(x, s[1..], t);
    } else {
      assert ([x] + s)[1..] == s;
    }
  }

  lemma {:induction false} AscendingCounts(s: seq<real>, t: real)
    ensures CountAtLeast(Ascending(s), t) == CountAtLeast(s, t)
  {
    if s != [] {
      AscendingCounts(s[1..], t);
      InsertCounts(s[0], Ascending(s[1..]), t);
    }
  }

  lemma {:induction false} CountFrom(s: seq<real>, k: nat, t: real)
    requires k <= |s| && forall i :: k <= i < |s| ==> s[i] >= t
    ensures CountAtLeast(s, t) >= |s| - k
  {
    if s != [] { CountFrom(s[1..], if k == 0 then 0 else k - 1, t); }
  }

  /** If a median reaches a bound, at least half of the numbers do. */
  lemma MedianReachedByHalf(s: seq<real>, t: real)
    requires s != []
    ensures Median(s) >= t ==> 2 * CountAtLeast(s, t) >= |s|
  {
    if Median(s) >= t {
      AscendingIsSorted(s);
      AscendingCounts(s, t);
      var sorted, half := Ascending(s), |s| / 2;
      assert sorted[half] >= t;
      CountFrom(sorted, half, t);
    }
  }

  // ---------- the decision loop ----------

  predicate IsDark(turn: Turn, s: Settings)
    requires turn.Picture?
  {
    (if turn.total != 0.0 then turn.darkest / turn.total * 100.0 else 100.0) >= s.darkThreshold
  }

  predicate IsValid(turn: Turn, s: Settings) {
    turn.Picture? && !IsDark(turn, s)
  }

  /** The faces that were processed. */
  function Faces(turns: seq<Turn>, s: Settings): seq<Face> {
    if turns == [] then []
    else
      var last := turns[|turns| - 1];
      Faces(turns[..|turns| - 1], s) + if IsValid(last, s) && last.face.Some? then [last.face.value] else []
  }

  /** A turn that ends in success: a face that is like the models while the faces so far pass. */
  ghost predicate Accepts(turns: seq<Turn>, s: Settings, geometry: Geometry, k: nat) {
    && k < |turns| && IsValid(turns[k], s) && turns[k].face.Some?
    && turns[k].face.value.similarity >= s.certainty
    && (s.pad ==> Live(Faces(turns[..k + 1], s), geometry))
  }

  ghost predicate Ends(turns: seq<Turn>, s: Settings, geometry: Geometry, k: nat) {
    k < |turns| && (turns[k].CancelRequested? || Accepts(turns, s, geometry, k))
  }

  ghost predicate RunsOn(turns: seq<Turn>, s: Settings, geometry: Geometry, n: nat) {
    forall k :: 0 <= k < n ==> !Ends(turns, s, geometry, k)
  }

  /** Some processed face was like the models. */
  ghost predicate Resembled(faces: seq<Face>, certainty: real) {
    exists i :: 0 <= i < |faces| && faces[i].similarity >= certainty
  }

  ghost predicate AllDark(turns: seq<Turn>, s: Settings) {
    && (exists k :: 0 <= k < |turns| && turns[k].Picture?)
    && (forall k :: 0 <= k < |turns| ==> !IsValid(turns[k], s))
  }

  /**
   The status of the loop over these turns: the first one that ends it decides, by success unless it is a cancel. If
   none does, the run was too dark, an attack, or timed out.
   */
  ghost predicate Reports(turns: seq<Turn>, s: Settings, geometry: Geometry, status: V.VerificationResult) {
    && ((exists k: nat :: Ends(turns, s, geometry, k)) ==>
          exists k: nat :: Ends(turns, s, geometry, k) && RunsOn(turns, s, geometry, k)
                      && status == if turns[k].CancelRequested? then V.Abort else V.Success)
    && (RunsOn(turns, s, geometry, |turns|) ==>
          status == if AllDark(turns, s) then V.TooDark
                    else if s.pad && (s.certainty <= -1.0 || Resembled(Faces(turns, s), s.certainty))
                    then V.PresentationAttack
                    else V.TimeoutReached)
  }

  method VerifyUser(hasModels: bool, cameraOpens: bool, turns: seq<Turn>, s: Settings, geometry: Geometry)
    returns (status: V.VerificationResult)
    ensures !hasModels ==> status == V.NoFaceModel
    ensures hasModels && !cameraOpens ==> status == V.Abort
    ensures hasModels && cameraOpens ==> Reports(turns, s, geometry, status)
  {
    hide Updated, Verdict, Faces, IsDark, Accepts, Live, Resembled, Analyzed;
    if !hasModels { return V.NoFaceModel; }
    var liveness := new LivenessAnalyzer();
    if !cameraOpens { return V.Abort; }
    var frames, validFrames := 0, 0;
    var bestSimilarity := -1.0;
    NoFaces(s, geometry);
    for k := 0 to |turns|
      invariant RunsOn(turns, s, geometry, k)
      invariant liveness.State() == Analyzed(Faces(turns[..k], s), geometry)
      invariant frames > 0 <==> exists i :: 0 <= i < k && turns[i].Picture?
      invariant validFrames > 0 <==> exists i :: 0 <= i < k && IsValid(turns[i], s)
      invariant validFrames >= 0 && frames >= 0
      invariant bestSimilarity >= s.certainty <==>
                s.certainty <= -1.0 || Resembled(Faces(turns[..k], s), s.certainty)
    {
      ghost var before := Faces(turns[..k], s);
      FacesStep(turns, s, k);
      AcceptsNow(turns, s, geometry, k);
      var turn := turns[k];
      if turn.CancelRequested? {
        assert Ends(turns, s, geometry, k);
        return V.Abort;
      }
      if turn.NoPicture? { continue; }
      frames := frames + 1;
      if IsDark(turn, s) { continue; }
      validFrames := validFrames + 1;
      if turn.face.None? { continue; }
      var face := turn.face.value;
      liveness.Update(face, geometry);
      AnalyzedStep(before, face, geometry);
      if face.similarity > bestSimilarity { bestSimilarity := face.similarity; }
      ResembledStep(before, face, s.certainty);
      if face.similarity >= s.certainty && (!s.pad || Verdict(liveness.State())) {
        assert Ends(turns, s, geometry, k);
        return V.Success;
      }
    }
    assert turns[..|turns|] == turns;
    assert forall k: nat :: Ends(turns, s, geometry, k) ==> k < |turns|;
    if frames > 0 && validFrames == 0 { return V.TooDark; }
    if bestSimilarity >= s.certainty && s.pad { return V.PresentationAttack; }
    status := V.TimeoutReached;
  }

  lemma NoFaces(s: Settings, geometry: Geometry)
    ensures Faces([], s) == [] && Analyzed([], geometry) == Analyzer([], [], []) && !Resembled([], s.certainty)
  {
  }

  lemma AcceptsNow(turns: seq<Turn>, s: Settings, geometry: Geometry, k: nat)
    requires k < |turns|
    ensures Accepts(turns, s, geometry, k) <==>
            IsValid(turns[k], s) && turns[k].face.Some? && turns[k].face.value.similarity >= s.certainty
            && (!s.pad || Verdict(Analyzed(Faces(turns[..k + 1], s), geometry)))
  {
    hide Faces, Verdict, Analyzed, IsValid;
  }

  lemma FacesStep(turns: seq<Turn>, s: Settings, k: nat)
    requires k < |turns|
    ensures Faces(turns[..k + 1], s)
            == if IsValid(turns[k], s) && turns[k].face.Some? then Faces(turns[..k], s) + [turns[k].face.value]
               else Faces(turns[..k], s)
  {
    assert turns[..k + 1][..k] == turns[..k];
    assert Faces(turns[..k], s) + [] == Faces(turns[..k], s);
  }

  lemma AnalyzedStep(faces: seq<Face>, f: Face, geometry: Geometry)
    ensures Analyzed(faces + [f], geometry) == Updated(Analyzed(faces, geometry), f, geometry)
  {
    hide Updated;
    assert (faces + [f])[..|faces|] == faces;
  }

  lemma ResembledStep(faces: seq<Face>, f: Face, certainty: real)
    ensures Resembled(faces + [f], certainty) <==> Resembled(faces, certainty) || f.similarity >= certainty
  {
    var all := faces + [f];
    if i :| 0 <= i < |faces| && faces[i].similarity >= certainty { assert all[i] == faces[i]; }
    if f.similarity >= certainty { assert all[|faces|] == f; }
  }

  /** A processed face was valid, so with a certainty above -1 darkness and an attack exclude each other. */
  lemma {:induction false} DarkHasNoFaces(turns: seq<Turn>, s: Settings)
    requires AllDark(turns, s)
    ensures Faces(turns, s) == []
  {
    assert turns[..|turns|] == turns;
    for k := 0 to |turns|
      invariant Faces(turns[..k], s) == []
    {
      FacesStep(turns, s, k);
    }
  }

  lemma EndsOrRunsOn(turns: seq<Turn>, s: Settings, geometry: Geometry)
    ensures (exists k: nat :: Ends(turns, s, geometry, k)) <==> !RunsOn(turns, s, geometry, |turns|)
  {
    hide Accepts;
    assert forall k: nat :: Ends(turns, s, geometry, k) ==> k < |turns|;
  }

  /**
   With a certainty above -1, PRESENTATION_ATTACK is reported exactly if the deadline is reached, PAD is on and some
   processed face was like the models.
   */
  lemma AttackCharacterized(turns: seq<Turn>, s: Settings, geometry: Geometry, status: V.VerificationResult)
    requires s.certainty > -1.0 && Reports(turns, s, geometry, status)
    ensures status == V.PresentationAttack <==>
            && RunsOn(turns, s, geometry, |turns|) && s.pad
            && exists f :: f in Faces(turns, s) && f.similarity >= s.certainty
  {
    hide Faces, Ends;
    EndsOrRunsOn(turns, s, geometry);
    if AllDark(turns, s) { DarkHasNoFaces(turns, s); }
    var faces := Faces(turns, s);
    if f :| f in faces && f.similarity >= s.certainty {
      var i :| 0 <= i < |faces| && faces[i] == f;
      assert Resembled(faces, s.certainty);
    }
  }

  /**
   SUCCESS is reported exactly if some turn is accepted before any cancel or other end; with PAD on there were then at
   least four faces, a strict live majority of the last sixteen or fewer votes, and a median ratio that reaches
   the bound.
   */
  lemma SuccessIsLive(turns: seq<Turn>, s: Settings, geometry: Geometry, status: V.VerificationResult)
    requires Reports(turns, s, geometry, status)
    ensures status == V.Success <==>
            exists k: nat :: Accepts(turns, s, geometry, k) && RunsOn(turns, s, geometry, k)
    ensures status == V.Success && s.pad ==>
              exists k: nat :: k < |turns| &&
                var faces := Faces(turns[..k + 1], s);
                var votes, ratios := LastOnes(Votes(faces)), Ratios(faces, geometry);
                && Accepts(turns, s, geometry, k)
                && |faces| >= 4 && 2 * Trues(votes) > |votes|
                && |ratios| >= 3 && Median(ratios) >= PARALLAX_RATIO
  {
    hide Faces, Votes, Ratios, Median, Trues, LastOnes, Resembled, AllDark, Accepts;
    EndsOrRunsOn(turns, s, geometry);
    if status == V.Success {
      var k: nat :| Ends(turns, s, geometry, k) && RunsOn(turns, s, geometry, k)
                    && status == if turns[k].CancelRequested? then V.Abort else V.Success;
      assert Accepts(turns, s, geometry, k);
      AcceptedTurn(turns, s, geometry, k);
      if s.pad { AcceptedIsLive(turns, s, geometry, k); }
    }
    forall k: nat | Accepts(turns, s, geometry, k) && RunsOn(turns, s, geometry, k)
      ensures status == V.Success
    {
      AcceptedTurn(turns, s, geometry, k);
      FirstEndDecides(turns, s, geometry, status, k);
    }
  }

  lemma FirstEndDecides(turns: seq<Turn>, s: Settings, geometry: Geometry, status: V.VerificationResult, k: nat)
    requires Reports(turns, s, geometry, status) && Ends(turns, s, geometry, k) && RunsOn(turns, s, geometry, k)
    ensures status == if turns[k].CancelRequested? then V.Abort else V.Success
  {
    hide Ends, AllDark, Resembled;
    var j: nat :| Ends(turns, s, geometry, j) && RunsOn(turns, s, geometry, j)
                  && status == if j < |turns| && turns[j].CancelRequested? then V.Abort else V.Success;
    assert !(j < k) && !(k < j);
  }

  lemma AcceptedTurn(turns: seq<Turn>, s: Settings, geometry: Geometry, k: nat)
    requires Accepts(turns, s, geometry, k)
    ensures k < |turns| && turns[k].Picture?
  {
  }

  lemma AcceptedIsLive(turns: seq<Turn>, s: Settings, geometry: Geometry, k: nat)
    requires s.pad && Accepts(turns, s, geometry, k)
    ensures var faces := Faces(turns[..k + 1], s);
            var votes, ratios := LastOnes(Votes(faces)), Ratios(faces, geometry);
            && |faces| >= 4 && 2 * Trues(votes) > |votes|
            && |ratios| >= 3 && Median(ratios) >= PARALLAX_RATIO
  {
    hide Faces, Live, Votes, Ratios, Median, Trues, LastOnes;
    LiveCharacterized(Faces(turns[..k + 1], s), geometry);
  }

  // ---------- the pieces, spelled out ----------

  lemma {:induction false} TruesCounts(votes: seq<bool>)
    ensures Trues(votes) == multiset(votes)[true]
  {
    if votes != [] {
      var init := votes[..|votes| - 1];
      TruesCounts(init);
      assert votes == init + [votes[|votes| - 1]];
    }
  }

  lemma FirstIsLeast(a: seq<real>, b: seq<real>)
    requires IsAscending(a) && a != [] && multiset(a) == multiset(b)
    ensures b != [] && a[0] <= b[0]
  {
    assert a[0] in multiset(a);
    assert a[0] in b;
    assert b[0] in multiset(b);
    assert b[0] in a;
    var i :| 0 <= i < |a| && a[i] == b[0];
  }

  lemma WithoutFirst(s: seq<real>)
    requires s != []
    ensures multiset(s[1..]) == multiset(s) - multiset{s[0]}
  {
    assert s == [s[0]] + s[1..];
  }

  lemma {:induction false} AscendingIsUnique(a: seq<real>, b: seq<real>)
    requires IsAscending(a) && IsAscending(b) && multiset(a) == multiset(b)
    ensures a == b
    decreases |a|
  {
    if a == [] {
      if b != [] { FirstIsLeast(b, a); }
    } else {
      FirstIsLeast(a, b);
      FirstIsLeast(b, a);
      WithoutFirst(a);
      WithoutFirst(b);
      AscendingIsUnique(a[1..], b[1..]);
      assert a == [a[0]] + a[1..] && b == [b[0]] + b[1..];
    }
  }

  /** The median is the middle of the sorted list, or the mean of the two in the middle. */
  lemma MedianExactly(s: seq<real>, sorted: seq<real>)
    requires s != [] && multiset(sorted) == multiset(s)
    requires forall i, j :: 0 <= i < j < |sorted| ==> sorted[i] <= sorted[j]
    ensures |sorted| == |s|
    ensures Median(s) == if |s| % 2 == 1 then sorted[|s| / 2] else (sorted[|s| / 2 - 1] + sorted[|s| / 2]) / 2.0
  {
    AscendingIsSorted(s);
    AscendingIsUnique(Ascending(s), sorted);
  }

  /** What a further face adds to the ratios: the residual over the motion, if there is a fit and enough motion. */
  lemma RatiosExactly(faces: seq<Face>, f: Face, geometry: Geometry)
    ensures faces == [] ==> Ratios(faces + [f], geometry) == []
    ensures faces != [] ==>
              var pair := geometry(faces[|faces| - 1].kps, f.kps);
              Ratios(faces + [f], geometry)
              == Ratios(faces, geometry)
                 + (if pair.Fit? && pair.motion >= 0.01 then [pair.residual / pair.motion] else [])
  {
    RatioExactly(if faces == [] then NoFit else geometry(faces[|faces| - 1].kps, f.kps));
    hide RatioOf;
    var all := faces + [f];
    assert all[..|all| - 1] == faces && all[|all| - 1] == f;
    if faces != [] {
      assert all[|all| - 2] == faces[|faces| - 1];
      assert Ratios(all, geometry) == Ratios(faces, geometry) + RatioOf(geometry(faces[|faces| - 1].kps, f.kps));
    }
  }

  lemma RatioExactly(pair: Pair)
    ensures RatioOf(pair) == if pair.Fit? && pair.motion >= 0.01 then [pair.residual / pair.motion] else []
  {
  }

  /** A picture is skipped if its darkest bin has at least the threshold in percent, or if it is empty. */
  lemma FacesExactly(turns: seq<Turn>, turn: Turn, s: Settings)
    ensures Faces(turns + [turn], s)
            == Faces(turns, s)
               + if turn.Picture? && turn.face.Some?
                    && (if turn.total == 0.0 then 100.0 else turn.darkest / turn.total * 100.0) < s.darkThreshold
                 then [turn.face.value] else []
  {
    assert (turns + [turn])[..|turns|] == turns;
  }

  /** Which turns end in success. */
  lemma AcceptsExactly(turns: seq<Turn>, s: Settings, geometry: Geometry, k: nat)
    requires k < |turns|
    ensures var t, faces := turns[k], Faces(turns[..k + 1], s);
            var votes, ratios := LastOnes(Votes(faces)), Ratios(faces, geometry);
            Accepts(turns, s, geometry, k) <==>
            && t.Picture? && t.face.Some?
            && (if t.total == 0.0 then 100.0 else t.darkest / t.total * 100.0) < s.darkThreshold
            && t.face.value.similarity >= s.certainty
            && (s.pad ==> 2 * Trues(votes) > |votes| && |ratios| >= 3 && Median(ratios) >= 0.05)
  {
    hide Live, Faces, Votes, Ratios, Median, Trues, LastOnes;
    LiveCharacterized(Faces(turns[..k + 1], s), geometry);
  }

  /**
   The other answers: ABORT exactly if a cancel comes before any accepted turn; TOO_DARK exactly if no turn ends the
   loop and there were pictures, all of them dark.
   */
  lemma OtherStatuses(turns: seq<Turn>, s: Settings, geometry: Geometry, status: V.VerificationResult)
    requires Reports(turns, s, geometry, status)
    ensures status == V.Abort <==>
            exists k: nat :: k < |turns| && turns[k].CancelRequested? && RunsOn(turns, s, geometry, k)
    ensures status == V.TooDark <==>
            && RunsOn(turns, s, geometry, |turns|)
            && (exists k :: 0 <= k < |turns| && turns[k].Picture?)
            && forall k :: 0 <= k < |turns| && turns[k].Picture? ==>
                 var t := turns[k];
                 (if t.total == 0.0 then 100.0 else t.darkest / t.total * 100.0) >= s.darkThreshold
    ensures status in {V.Abort, V.Success, V.TooDark, V.PresentationAttack, V.TimeoutReached}
  {
    hide Accepts, Faces, Resembled;
    EndsOrRunsOn(turns, s, geometry);
    forall k: nat | k < |turns| && turns[k].CancelRequested? && RunsOn(turns, s, geometry, k)
      ensures status == V.Abort
    {
      FirstEndDecides(turns, s, geometry, status, k);
    }
  }

  /** A deque of sixteen holds the last sixteen, or all if there are fewer. */
  lemma LastOnesExactly<T>(s: seq<T>)
    ensures LastOnes(s) == s[if |s| <= 16 then 0 else |s| - 16..]
  {
  }
}
