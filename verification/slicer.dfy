/** The scoring state machine of the prime-slicer game: numbered circles fly up
    and fall; slicing a circle starts a 60-frame effect whose completion either
    costs a miss (the number was prime) or splits the number into two factor
    circles and scores it. Positions, physics and drawing are abstracted into
    the index sets of circles that fall off or are hit. */
module Slicer {
  import opened Common
  import opened Primes

  const MaxMisses: int := 100
  const EffectLife: int := 60

  /** A flying circle; only its number matters to the accounting. */
  datatype Circle = Circle(number: int)

  /** A slice effect counting down its frames; its completion action depends
      only on the number of the sliced circle. */
  datatype Effect = Effect(number: int, life: int)

  datatype Game = Game(
    score: int,
    misses: int,
    gameOver: bool,
    circles: seq<Circle>,
    effects: seq<Effect>,
    started: bool)

  /** The globals at page load. */
  const Initial: Game := Game(0, 0, false, [], [], false)

  /** `s` without its element at index `j`. */
  function RemoveAt<T>(s: seq<T>, j: nat): (r: seq<T>)
    requires j < |s|
    ensures |r| == |s| - 1
    ensures r[..j] == s[..j] && r[j..] == s[j + 1..]
  {
    s[..j] + s[j + 1..]
  }

  // ---------------------------------------------------------------------------
  // Spawning

  /** The number of a spawned circle: `number || Math.floor(Math.random() * 99) + 2`,
      with `draw` the value of `Math.random()` and a missing or zero number
      falling back to the random one. */
  function SpawnNumber(given: Option<int>, draw: real): (n: int)
    requires 0.0 <= draw < 1.0
    ensures given.Some? && given.value != 0 ==> n == given.value
    ensures given.None? || given.value == 0 ==> 2 <= n <= 100
  {
    if given.Some? && given.value != 0 then given.value
    else (draw * 99.0).Floor + 2
  }

  // ---------------------------------------------------------------------------
  // Misses and effect completion

  /** `misses++; if (misses >= maxMisses) gameOver = true;` */
  function Miss(g: Game): (r: Game)
    ensures r.misses == g.misses + 1
    ensures r.gameOver <==> g.gameOver || r.misses >= MaxMisses
    ensures r.score == g.score && r.circles == g.circles && r.effects == g.effects && r.started == g.started
  {
    var m := g.misses + 1;
    g.(misses := m, gameOver := g.gameOver || m >= MaxMisses)
  }

  /** The completion action of a slice effect for a circle numbered `n`: a
      prime costs a miss; a composite spawns its two largest factors as new
      circles and adds `n` to the score; anything else changes nothing. */
  function Complete(g: Game, n: int): (r: Game)
    ensures IsPrime(n) ==> r == Miss(g)
    ensures !IsPrime(n) && n > 1 ==>
      && |r.circles| == |g.circles| + 2
      && r.circles[..|g.circles|] == g.circles
      && r.circles[|g.circles|].number * r.circles[|g.circles| + 1].number == n
      && 2 <= r.circles[|g.circles| + 1].number <= r.circles[|g.circles|].number
      && r.score == g.score + n
      && r.misses == g.misses && r.gameOver == g.gameOver
    ensures !IsPrime(n) && n <= 1 ==> r == g
    ensures r.effects == g.effects && r.started == g.started
  {
    if IsPrime(n) then Miss(g)
    else
      match GetTwoLargestFactors(n)
      case None => g
      case Some((a, b)) =>
        g.(circles := g.circles + [Circle(a), Circle(b)], score := g.score + n)
  }

  /** Runs the completion actions for the numbers `ns`, first to last. */
  function CompleteAll(g: Game, ns: seq<int>): (r: Game)
    ensures r.effects == g.effects && r.started == g.started
    decreases |ns|
  {
    if |ns| == 0 then g else CompleteAll(Complete(g, ns[0]), ns[1..])
  }

  // ---------------------------------------------------------------------------
  // Reference definitions for the backward loops over circles and effects

  /** The elements of `cs` whose indices are not in `out`, in order. */
  function Kept<T>(cs: seq<T>, out: set<int>): (r: seq<T>)
    ensures |r| <= |cs|
    ensures forall c :: c in r ==> c in cs
    decreases |cs|
  {
    if |cs| == 0 then []
    else
      var j := |cs| - 1;
      Kept(cs[..j], out) + (if j in out then [] else [cs[j]])
  }

  /** How many of the fallen circles (indices in `fell`) carry a non-prime
      number: one miss each. */
  function FallenMisses(cs: seq<Circle>, fell: set<int>): nat
    decreases |cs|
  {
    if |cs| == 0 then 0
    else
      var j := |cs| - 1;
      FallenMisses(cs[..j], fell) + (if j in fell && !IsPrime(cs[j].number) then 1 else 0)
  }

  /** The effects a slice pushes for the hit circles (indices in `hits`), in
      the order the backward loop visits them: highest index first. */
  function SliceEffects(cs: seq<Circle>, hits: set<int>): (r: seq<Effect>)
    decreases |cs|
  {
    if |cs| == 0 then []
    else
      var j := |cs| - 1;
      (if j in hits then [Effect(cs[j].number, EffectLife)] else []) + SliceEffects(cs[..j], hits)
  }

  /** One frame of an effect: `life--`. */
  function Age(e: Effect): Effect {
    e.(life := e.life - 1)
  }

  /** The effects still alive after one frame, aged, in order. */
  function Survivors(es: seq<Effect>): (r: seq<Effect>)
    decreases |es|
  {
    if |es| == 0 then []
    else
      var j := |es| - 1;
      Survivors(es[..j]) + (if Age(es[j]).life > 0 then [Age(es[j])] else [])
  }

  /** The numbers of the effects that expire this frame, in the order the
      backward loop completes them: highest index first. */
  function ExpiredDesc(es: seq<Effect>): (r: seq<int>)
    ensures |r| + |Survivors(es)| == |es|
    decreases |es|
  {
    if |es| == 0 then []
    else
      var j := |es| - 1;
      (if Age(es[j]).life <= 0 then [es[j].number] else []) + ExpiredDesc(es[..j])
  }

  // ---------------------------------------------------------------------------
  // The backward loops

  /** The fall-off loop of `gameLoop`, visiting indices `i - 1` down to 0:
      every fallen circle is removed, and each non-prime one costs a miss. */
  function FallOff(g: Game, fell: set<int>, i: nat): (r: Game)
    requires i <= |g.circles|
    ensures r.circles == Kept(g.circles[..i], fell) + g.circles[i..]
    ensures r.misses == g.misses + FallenMisses(g.circles[..i], fell)
    ensures r.gameOver <==>
      g.gameOver || (FallenMisses(g.circles[..i], fell) > 0 && r.misses >= MaxMisses)
    ensures r.score == g.score && r.effects == g.effects && r.started == g.started
    decreases i
  {
    if i == 0 then g
    else
      var j := i - 1;
      var cs := g.circles;
      if j in fell then
        var dropped := g.(circles := RemoveAt(cs, j));
        var r := FallOff(if IsPrime(cs[j].number) then dropped else Miss(dropped), fell, j);
        FellStep(g, fell, i, r);
        r
      else
        var r := FallOff(g, fell, j);
        StayStep(g, fell, i, r);
        r
  }

  /** How the reference definitions grow by one index. */
  lemma FallSeqStep(cs: seq<Circle>, fell: set<int>, i: nat)
    requires 0 < i <= |cs|
    ensures Kept(cs[..i], fell) == Kept(cs[..i - 1], fell) + (if i - 1 in fell then [] else [cs[i - 1]])
    ensures FallenMisses(cs[..i], fell) ==
      FallenMisses(cs[..i - 1], fell) + (if i - 1 in fell && !IsPrime(cs[i - 1].number) then 1 else 0)
  {
    assert cs[..i][..i - 1] == cs[..i - 1];
  }

  /** The step of the fall-off loop for a circle that fell: given what the
      rest of the loop does, the whole loop meets its description. */
  lemma FellStep(g: Game, fell: set<int>, i: nat, r: Game)
    requires 0 < i <= |g.circles| && i - 1 in fell
    requires var cs := g.circles;
      var dropped := g.(circles := RemoveAt(cs, i - 1));
      var g' := if IsPrime(cs[i - 1].number) then dropped else Miss(dropped);
      && r.circles == Kept(g'.circles[..i - 1], fell) + g'.circles[i - 1..]
      && r.misses == g'.misses + FallenMisses(g'.circles[..i - 1], fell)
      && (r.gameOver <==> g'.gameOver || (FallenMisses(g'.circles[..i - 1], fell) > 0 && r.misses >= MaxMisses))
      && r.score == g'.score && r.effects == g'.effects && r.started == g'.started
    ensures r.circles == Kept(g.circles[..i], fell) + g.circles[i..]
    ensures r.misses == g.misses + FallenMisses(g.circles[..i], fell)
    ensures r.gameOver <==>
      g.gameOver || (FallenMisses(g.circles[..i], fell) > 0 && r.misses >= MaxMisses)
    ensures r.score == g.score && r.effects == g.effects && r.started == g.started
  {
    FallSeqStep(g.circles, fell, i);
  }

  /** The step of the fall-off loop for a circle still on the canvas. */
  lemma StayStep(g: Game, fell: set<int>, i: nat, r: Game)
    requires 0 < i <= |g.circles| && i - 1 !in fell
    requires r.circles == Kept(g.circles[..i - 1], fell) + g.circles[i - 1..]
    requires r.misses == g.misses + FallenMisses(g.circles[..i - 1], fell)
    requires r.gameOver <==>
      g.gameOver || (FallenMisses(g.circles[..i - 1], fell) > 0 && r.misses >= MaxMisses)
    requires r.score == g.score && r.effects == g.effects && r.started == g.started
    ensures r.circles == Kept(g.circles[..i], fell) + g.circles[i..]
    ensures r.misses == g.misses + FallenMisses(g.circles[..i], fell)
    ensures r.gameOver <==>
      g.gameOver || (FallenMisses(g.circles[..i], fell) > 0 && r.misses >= MaxMisses)
  {
    var cs := g.circles;
    FallSeqStep(cs, fell, i);
    assert cs[i - 1..] == [cs[i - 1]] + cs[i..];
  }

  /** The effect loop of `gameLoop`, visiting indices `i - 1` down to 0: each
      effect ages one frame; one whose life reaches zero runs its completion
      action and is removed. */
  function AgeEffects(g: Game, i: nat): (r: Game)
    requires i <= |g.effects|
    ensures r.effects == Survivors(g.effects[..i]) + g.effects[i..]
    ensures r == CompleteAll(g, ExpiredDesc(g.effects[..i])).(effects := r.effects)
    decreases i
  {
    if i == 0 then g
    else
      var j := i - 1;
      var es := g.effects;
      if Age(es[j]).life <= 0 then
        var r := AgeEffects(Complete(g, es[j].number).(effects := RemoveAt(es, j)), j);
        ExpiredStep(g, i, r);
        r
      else
        var r := AgeEffects(g.(effects := es[j := Age(es[j])]), j);
        SurvivorStep(g, i, r);
        r
  }

  /** The step of the effect loop for an effect that expires: given what the
      rest of the loop does, the whole loop meets its description. */
  lemma ExpiredStep(g: Game, i: nat, r: Game)
    requires 0 < i <= |g.effects| && Age(g.effects[i - 1]).life <= 0
    requires var es := g.effects;
      var g' := Complete(g, es[i - 1].number).(effects := RemoveAt(es, i - 1));
      && r.effects == Survivors(g'.effects[..i - 1]) + g'.effects[i - 1..]
      && r == CompleteAll(g', ExpiredDesc(g'.effects[..i - 1])).(effects := r.effects)
    ensures r.effects == Survivors(g.effects[..i]) + g.effects[i..]
    ensures r == CompleteAll(g, ExpiredDesc(g.effects[..i])).(effects := r.effects)
  {
    var j := i - 1;
    var es := g.effects;
    var n := es[j].number;
    var rest := ExpiredDesc(es[..j]);
    var c := Complete(g, n);
    ExpiredSeqStep(es, i);
    assert ([n] + rest)[1..] == rest;
    assert CompleteAll(g, [n] + rest) == CompleteAll(c, rest);
    CompleteAllIgnoresEffects(c, rest, RemoveAt(es, j));
  }

  lemma ExpiredSeqStep(es: seq<Effect>, i: nat)
    requires 0 < i <= |es| && Age(es[i - 1]).life <= 0
    ensures Survivors(es[..i]) == Survivors(es[..i - 1])
    ensures ExpiredDesc(es[..i]) == [es[i - 1].number] + ExpiredDesc(es[..i - 1])
  {
    assert es[..i][..i - 1] == es[..i - 1];
  }

  /** The step of the effect loop for an effect that survives the frame. */
  lemma SurvivorStep(g: Game, i: nat, r: Game)
    requires 0 < i <= |g.effects| && Age(g.effects[i - 1]).life > 0
    requires var es := g.effects;
      var g' := g.(effects := es[i - 1 := Age(es[i - 1])]);
      && r.effects == Survivors(g'.effects[..i - 1]) + g'.effects[i - 1..]
      && r == CompleteAll(g', ExpiredDesc(g'.effects[..i - 1])).(effects := r.effects)
    ensures r.effects == Survivors(g.effects[..i]) + g.effects[i..]
    ensures r == CompleteAll(g, ExpiredDesc(g.effects[..i])).(effects := r.effects)
  {
    var es := g.effects;
    SurvivorSeqStep(es, i);
    CompleteAllIgnoresEffects(g, ExpiredDesc(es[..i - 1]), es[i - 1 := Age(es[i - 1])]);
  }

  lemma SurvivorSeqStep(es: seq<Effect>, i: nat)
    requires 0 < i <= |es| && Age(es[i - 1]).life > 0
    ensures var after := es[i - 1 := Age(es[i - 1])];
      && after[..i - 1] == es[..i - 1]
      && after[i - 1..] == [Age(es[i - 1])] + es[i..]
    ensures Survivors(es[..i]) == Survivors(es[..i - 1]) + [Age(es[i - 1])]
    ensures ExpiredDesc(es[..i]) == ExpiredDesc(es[..i - 1])
  {
    var j := i - 1;
    var after := es[j := Age(es[j])];
    assert es[..i][..j] == es[..j];
    assert after[j..] == [after[j]] + after[i..];
    assert after[i..] == es[i..];
  }

  /** Completion actions never read or write the effect list. */
  lemma {:induction false} CompleteAllIgnoresEffects(g: Game, ns: seq<int>, es: seq<Effect>)
    ensures CompleteAll(g.(effects := es), ns) == CompleteAll(g, ns).(effects := es)
    decreases |ns|
  {
    if |ns| > 0 {
      assert Complete(g.(effects := es), ns[0]) == Complete(g, ns[0]).(effects := es);
      CompleteAllIgnoresEffects(Complete(g, ns[0]), ns[1..], es);
    }
  }

  // ---------------------------------------------------------------------------
  // Event handlers

  /** One call of `gameLoop`: nothing once the game is over; otherwise an
      optional spawn (`spawn` is the draw of `Math.random()` for the number,
      present when the spawn-rate test passed), the fall-off loop (`fell` holds
      the indices of the circles below the canvas after this frame's motion)
      and the effect loop. */
  function Tick(g: Game, spawn: Option<real>, fell: set<int>): (r: Game)
    requires spawn.Some? ==> 0.0 <= spawn.value < 1.0
    ensures g.gameOver ==> r == g
    ensures r.misses >= g.misses && r.score >= g.score
    ensures r.started == g.started
  {
    if g.gameOver then g
    else
      var g1 := if spawn.Some? then g.(circles := g.circles + [Circle(SpawnNumber(None, spawn.value))]) else g;
      var g2 := FallOff(g1, fell, |g1.circles|);
      var r := AgeEffects(g2, |g2.effects|);
      CompleteAllMonotone(g2, ExpiredDesc(g2.effects));
      assert g2.effects[..|g2.effects|] == g2.effects;
      r
  }

  /** The `mousemove` handler: visits the circles from the last to the first
      and, for each hit one (index in `hits`), pushes a 60-frame effect and
      removes the circle at once. It runs whether or not the game is over. */
  function Slice(g: Game, hits: set<int>, i: nat): (r: Game)
    requires i <= |g.circles|
    ensures r.circles == Kept(g.circles[..i], hits) + g.circles[i..]
    ensures r.effects == g.effects + SliceEffects(g.circles[..i], hits)
    ensures r.score == g.score && r.misses == g.misses && r.gameOver == g.gameOver && r.started == g.started
    decreases i
  {
    if i == 0 then g
    else
      var j := i - 1;
      var cs := g.circles;
      if j in hits then
        var e := Effect(cs[j].number, EffectLife);
        var r := Slice(g.(effects := g.effects + [e], circles := RemoveAt(cs, j)), hits, j);
        HitStep(g, hits, i, r);
        r
      else
        var r := Slice(g, hits, j);
        MissStep(g, hits, i, r);
        r
  }

  /** How the reference definitions grow by one index. */
  lemma SliceSeqStep(cs: seq<Circle>, hits: set<int>, i: nat)
    requires 0 < i <= |cs|
    ensures Kept(cs[..i], hits) == Kept(cs[..i - 1], hits) + (if i - 1 in hits then [] else [cs[i - 1]])
    ensures SliceEffects(cs[..i], hits) ==
      (if i - 1 in hits then [Effect(cs[i - 1].number, EffectLife)] else []) + SliceEffects(cs[..i - 1], hits)
  {
    assert cs[..i][..i - 1] == cs[..i - 1];
  }

  /** The step of the slice loop for a hit circle. */
  lemma HitStep(g: Game, hits: set<int>, i: nat, r: Game)
    requires 0 < i <= |g.circles| && i - 1 in hits
    requires var cs := g.circles;
      var g' := g.(effects := g.effects + [Effect(cs[i - 1].number, EffectLife)], circles := RemoveAt(cs, i - 1));
      && r.circles == Kept(g'.circles[..i - 1], hits) + g'.circles[i - 1..]
      && r.effects == g'.effects + SliceEffects(g'.circles[..i - 1], hits)
    ensures r.circles == Kept(g.circles[..i], hits) + g.circles[i..]
    ensures r.effects == g.effects + SliceEffects(g.circles[..i], hits)
  {
    var cs := g.circles;
    var e := Effect(cs[i - 1].number, EffectLife);
    SliceSeqStep(cs, hits, i);
    assert g.effects + [e] + SliceEffects(cs[..i - 1], hits) == g.effects + ([e] + SliceEffects(cs[..i - 1], hits));
  }

  /** The step of the slice loop for a circle that was not hit. */
  lemma MissStep(g: Game, hits: set<int>, i: nat, r: Game)
    requires 0 < i <= |g.circles| && i - 1 !in hits
    requires r.circles == Kept(g.circles[..i - 1], hits) + g.circles[i - 1..]
    requires r.effects == g.effects + SliceEffects(g.circles[..i - 1], hits)
    ensures r.circles == Kept(g.circles[..i], hits) + g.circles[i..]
    ensures r.effects == g.effects + SliceEffects(g.circles[..i], hits)
  {
    var cs := g.circles;
    SliceSeqStep(cs, hits, i);
    assert cs[i - 1..] == [cs[i - 1]] + cs[i..];
  }

  /** The start button: the first click starts the game loop; later clicks do
      nothing. The second component says whether this click starts the loop. */
  function StartClick(g: Game): (r: (Game, bool))
    ensures r.1 <==> !g.started
    ensures r.0.started
    ensures r.0 == g.(started := true)
  {
    if !g.started then (g.(started := true), true) else (g, false)
  }

  // ---------------------------------------------------------------------------
  // Properties

  /** Completion actions never lower the score or the misses. */
  lemma {:induction false} CompleteAllMonotone(g: Game, ns: seq<int>)
    ensures CompleteAll(g, ns).misses >= g.misses && CompleteAll(g, ns).score >= g.score
    decreases |ns|
  {
    if |ns| > 0 {
      var g' := Complete(g, ns[0]);
      CompleteAllMonotone(g', ns[1..]);
    }
  }

  /** The state every reachable game keeps: counters non-negative, the game
      over exactly when the misses reached the limit, circle numbers in
      `[2, 100]`, and effects with such numbers and between 1 and 60 frames
      of life left. */
  ghost predicate GameInv(g: Game) {
    && g.score >= 0
    && g.misses >= 0
    && (g.gameOver <==> g.misses >= MaxMisses)
    && CirclesOk(g.circles)
    && EffectsOk(g.effects)
  }

  ghost predicate CirclesOk(cs: seq<Circle>) {
    forall c :: c in cs ==> 2 <= c.number <= 100
  }

  ghost predicate EffectsOk(es: seq<Effect>) {
    forall e :: e in es ==> 2 <= e.number <= 100 && 1 <= e.life <= EffectLife
  }

  lemma InitialInv()
    ensures GameInv(Initial)
  {
  }

  /** The two factors of a number in `[2, 100]` lie in `[2, 100]` as well. */
  lemma FactorsInRange(n: int)
    requires 2 <= n <= 100 && !IsPrime(n)
    ensures GetTwoLargestFactors(n).Some?
    ensures var (a, b) := GetTwoLargestFactors(n).value; 2 <= b <= a <= 100
  {
    var (a, b) := GetTwoLargestFactors(n).value;
    MulLe(2, b, a);
  }

  /** Completing an effect keeps the invariant (the effect list is not part of
      what completion touches). */
  lemma {:induction false} CompleteAllInv(g: Game, ns: seq<int>)
    requires GameInv(g)
    requires forall n :: n in ns ==> 2 <= n <= 100
    ensures GameInv(CompleteAll(g, ns))
    decreases |ns|
  {
    if |ns| > 0 {
      var n := ns[0];
      var g' := Complete(g, n);
      assert n in ns;
      if !IsPrime(n) {
        FactorsInRange(n);
        assert forall c :: c in g'.circles ==> c in g.circles || c == g'.circles[|g.circles|] || c == g'.circles[|g.circles| + 1] by {
          assert g'.circles == g.circles + [g'.circles[|g.circles|], g'.circles[|g.circles| + 1]];
        }
      }
      assert GameInv(g');
      assert forall m :: m in ns[1..] ==> m in ns;
      CompleteAllInv(g', ns[1..]);
    }
  }

  lemma {:induction false} SurvivorsOk(es: seq<Effect>)
    requires EffectsOk(es)
    ensures EffectsOk(Survivors(es))
    ensures forall n :: n in ExpiredDesc(es) ==> 2 <= n <= 100
    decreases |es|
  {
    if |es| > 0 {
      var j := |es| - 1;
      assert forall e :: e in es[..j] ==> e in es;
      SurvivorsOk(es[..j]);
    }
  }

  lemma {:induction false} FallenMissesBound(cs: seq<Circle>, fell: set<int>)
    ensures FallenMisses(cs, fell) <= |cs|
    decreases |cs|
  {
    if |cs| > 0 {
      FallenMissesBound(cs[..|cs| - 1], fell);
    }
  }

  /** A frame keeps the invariant. */
  lemma TickInv(g: Game, spawn: Option<real>, fell: set<int>)
    requires GameInv(g)
    requires spawn.Some? ==> 0.0 <= spawn.value < 1.0
    ensures GameInv(Tick(g, spawn, fell))
  {
    if !g.gameOver {
      var g1 := if spawn.Some? then g.(circles := g.circles + [Circle(SpawnNumber(None, spawn.value))]) else g;
      assert CirclesOk(g1.circles);
      var g2 := FallOff(g1, fell, |g1.circles|);
      assert g1.circles[..|g1.circles|] == g1.circles;
      assert GameInv(g2);
      var es := g2.effects;
      assert es[..|es|] == es;
      SurvivorsOk(es);
      CompleteAllInv(g2, ExpiredDesc(es));
      var r := AgeEffects(g2, |es|);
      assert r.effects == Survivors(es) + [] by {
        assert es[|es|..] == [];
      }
    }
  }

  /** A slice keeps the invariant: removed circles' numbers move to fresh
      60-frame effects. */
  lemma SliceInv(g: Game, hits: set<int>)
    requires GameInv(g)
    ensures GameInv(Slice(g, hits, |g.circles|))
  {
    assert g.circles[..|g.circles|] == g.circles;
    var r := Slice(g, hits, |g.circles|);
    assert r.circles == Kept(g.circles, hits) + [];
    SliceEffectsOk(g.circles, hits);
  }

  lemma {:induction false} SliceEffectsOk(cs: seq<Circle>, hits: set<int>)
    requires CirclesOk(cs)
    ensures EffectsOk(SliceEffects(cs, hits))
    decreases |cs|
  {
    if |cs| > 0 {
      var j := |cs| - 1;
      assert cs[j] in cs;
      assert forall c :: c in cs[..j] ==> c in cs;
      SliceEffectsOk(cs[..j], hits);
    }
  }

  /** A click keeps the invariant, and a second click does not start another
      loop. */
  lemma StartOnce(g: Game)
    requires GameInv(g)
    ensures GameInv(StartClick(g).0)
    ensures !StartClick(StartClick(g).0).1
  {
  }

  /** Applying `Age` `k` times. */
  function AgedBy(e: Effect, k: nat): Effect
    decreases k
  {
    if k == 0 then e else Age(AgedBy(e, k - 1))
  }

  /** A fresh effect survives its first 59 frames and completes on the 60th:
      after `k < 60` frames it is still listed with `60 - k` frames left, and
      the 60th frame expires it. */
  lemma {:induction false} EffectLifetime(n: int, k: nat)
    requires k <= EffectLife
    ensures AgedBy(Effect(n, EffectLife), k) == Effect(n, EffectLife - k)
    ensures k < EffectLife - 1 ==>
      Survivors([AgedBy(Effect(n, EffectLife), k)]) == [AgedBy(Effect(n, EffectLife), k + 1)]
    ensures k == EffectLife - 1 ==>
      Survivors([AgedBy(Effect(n, EffectLife), k)]) == [] && ExpiredDesc([AgedBy(Effect(n, EffectLife), k)]) == [n]
    decreases k
  {
    if k > 0 {
      EffectLifetime(n, k - 1);
    }
    var e := AgedBy(Effect(n, EffectLife), k);
    assert [e][..0] == [];
  }
}
