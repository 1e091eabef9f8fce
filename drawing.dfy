/** The trail renderer's mutable state and its event handlers: the particle
    array, the drawing flag and the body's text-selection style, updated by the
    mouse and touch listeners and by one frame of the animation loop. */
module Drawing {
  import opened Particles

  /** The values the handlers give `document.body.style.userSelect` (and its
      WebKit twin): unset at page load, then 'none' or 'auto'. */
  datatype SelectStyle = Unset | NoneStyle | AutoStyle

  class TrailRenderer {
    var particles: seq<Particle>
    var isDrawing: bool
    var userSelect: SelectStyle
    var webkitUserSelect: SelectStyle

    /** Text selection is off exactly when the body style says 'none'. */
    predicate SelectionDisabled()
      reads this
    {
      userSelect == NoneStyle
    }

    /** The selection lock is tied one to one to the drawing state, and both
        style properties always agree. */
    ghost predicate Valid()
      reads this
    {
      userSelect == webkitUserSelect && (SelectionDisabled() <==> isDrawing)
    }

    /** The state the DOMContentLoaded listener sets up: no particles, idle,
        selection style untouched. */
    constructor ()
      ensures Valid()
      ensures particles == [] && !isDrawing && !SelectionDisabled()
      ensures userSelect == Unset && webkitUserSelect == Unset
    {
      particles := [];
      isDrawing := false;
      userSelect := Unset;
      webkitUserSelect := Unset;
    }

    /** disableSelection: both style properties become 'none'. */
    method DisableSelection()
      modifies this`userSelect, this`webkitUserSelect
      ensures userSelect == NoneStyle && webkitUserSelect == NoneStyle
      ensures SelectionDisabled()
    {
      userSelect := NoneStyle;
      webkitUserSelect := NoneStyle;
    }

    /** enableSelection: both style properties become 'auto'. */
    method EnableSelection()
      modifies this`userSelect, this`webkitUserSelect
      ensures userSelect == AutoStyle && webkitUserSelect == AutoStyle
      ensures !SelectionDisabled()
    {
      userSelect := AutoStyle;
      webkitUserSelect := AutoStyle;
    }

    /** addParticles: pushes one particle per draw onto the array; the particles
        already there keep their values and their positions. */
    method AddParticles(x: real, y: real, now: int, draws: seq<Draw>)
      requires |draws| == BATCH_SIZE
      modifies this`particles
      ensures particles == old(particles) + Batch(x, y, now, draws)
      ensures |particles| == |old(particles)| + 5
      ensures particles[..|old(particles)|] == old(particles)
      ensures ValidDraws(draws) ==>
                forall k :: |old(particles)| <= k < |particles| ==> InEmitBounds(particles[k], x, y, now)
    {
      for i := 0 to BATCH_SIZE
        invariant particles == old(particles) + Batch(x, y, now, draws[..i])
      {
        assert draws[..i + 1][..i] == draws[..i];
        particles := particles + [NewParticle(x, y, now, draws[i])];
      }
      assert draws[..BATCH_SIZE] == draws;
    }

    /** The mousedown listener: start drawing, lock selection, emit at the pointer. */
    method MouseDown(x: real, y: real, now: int, draws: seq<Draw>)
      requires Valid() && |draws| == BATCH_SIZE
      modifies this
      ensures Valid() && isDrawing && SelectionDisabled()
      ensures userSelect == NoneStyle && webkitUserSelect == NoneStyle
      ensures particles == old(particles) + Batch(x, y, now, draws)
    {
      isDrawing := true;
      DisableSelection();
      AddParticles(x, y, now, draws);
    }

    /** The mouseup listener: stop drawing and unlock selection; particles stay. */
    method MouseUp()
      requires Valid()
      modifies this
      ensures Valid() && !isDrawing && !SelectionDisabled()
      ensures userSelect == AutoStyle && webkitUserSelect == AutoStyle
      ensures particles == old(particles)
    {
      isDrawing := false;
      EnableSelection();
    }

    /** The mousemove listener: emit at the pointer only while drawing; otherwise
        nothing changes. */
    method MouseMove(x: real, y: real, now: int, draws: seq<Draw>)
      requires Valid() && |draws| == BATCH_SIZE
      modifies this`particles
      ensures Valid()
      ensures particles == if isDrawing then old(particles) + Batch(x, y, now, draws)
                           else old(particles)
    {
      if isDrawing {
        AddParticles(x, y, now, draws);
      }
    }

    /** The touchstart listener, at the first touch point: as mousedown, and the
        browser's default scrolling is always suppressed. */
    method TouchStart(x: real, y: real, now: int, draws: seq<Draw>) returns (defaultPrevented: bool)
      requires Valid() && |draws| == BATCH_SIZE
      modifies this
      ensures Valid() && isDrawing && SelectionDisabled()
      ensures userSelect == NoneStyle && webkitUserSelect == NoneStyle
      ensures particles == old(particles) + Batch(x, y, now, draws)
      ensures defaultPrevented
    {
      isDrawing := true;
      DisableSelection();
      AddParticles(x, y, now, draws);
      defaultPrevented := true;
    }

    /** The touchend listener: as mouseup. */
    method TouchEnd()
      requires Valid()
      modifies this
      ensures Valid() && !isDrawing && !SelectionDisabled()
      ensures userSelect == AutoStyle && webkitUserSelect == AutoStyle
      ensures particles == old(particles)
    {
      isDrawing := false;
      EnableSelection();
    }

    /** The touchmove listener, at the first touch point: while drawing, emit and
        suppress scrolling; otherwise nothing changes and scrolling proceeds. */
    method TouchMove(x: real, y: real, now: int, draws: seq<Draw>) returns (defaultPrevented: bool)
      requires Valid() && |draws| == BATCH_SIZE
      modifies this`particles
      ensures Valid()
      ensures defaultPrevented == isDrawing
      ensures particles == if isDrawing then old(particles) + Batch(x, y, now, draws)
                           else old(particles)
    {
      defaultPrevented := false;
      if isDrawing {
        AddParticles(x, y, now, draws);
        defaultPrevented := true;
      }
    }

    /** One frame of `animate`, without the drawing calls: a reverse index loop
        that splices out expired particles and rewrites the opacity of the rest.
        `visited` lists the indices the loop reads, in order, and `examined` the
        particle it finds at each: every original index is visited exactly once,
        from the last down to 0, and always finds the original particle there,
        because a splice at i shifts only elements the loop has already passed. */
    method Animate(now: int) returns (ghost visited: seq<int>, ghost examined: seq<Particle>)
      requires Valid()
      modifies this`particles
      ensures Valid()
      ensures particles == AnimatePass(old(particles), now)
      ensures |visited| == |old(particles)|
      ensures forall k :: 0 <= k < |visited| ==> visited[k] == |old(particles)| - 1 - k
      ensures |examined| == |visited|
      ensures forall k :: 0 <= k < |visited| ==> examined[k] == old(particles)[visited[k]]
    {
      ghost var orig := particles;
      visited, examined := [], [];
      var i := |particles| - 1;
      while i >= 0
        invariant -1 <= i < |orig|
        invariant particles == orig[..i + 1] + AnimatePass(orig[i + 1..], now)
        invariant |visited| == |orig| - 1 - i
        invariant forall k :: 0 <= k < |visited| ==> visited[k] == |orig| - 1 - k
        invariant |examined| == |visited|
        invariant forall k :: 0 <= k < |visited| ==> examined[k] == orig[visited[k]]
        decreases i
      {
        var p := particles[i];
        var age := Age(p, now);
        visited, examined := visited + [i], examined + [p];
        ghost var rest := AnimatePass(orig[i + 1..], now);
        AnimatePassStep(orig, i, now);
        if age > LIFETIME_SECONDS {
          SpliceAt(orig, rest, i);
          particles := particles[..i] + particles[i + 1..];
          i := i - 1;
          continue;
        }
        ReplaceAt(orig, rest, i, Faded(p, now));
        particles := particles[i := p.(alpha := 1.0 - age / FADE_SECONDS)];
        i := i - 1;
      }
      assert orig[0..] == orig;
    }
  }

  /** Removing index i from `orig[..i + 1] + rest` leaves `orig[..i] + rest`. */
  lemma SpliceAt(orig: seq<Particle>, rest: seq<Particle>, i: nat)
    requires i < |orig|
    ensures var s := orig[..i + 1] + rest; s[..i] + s[i + 1..] == orig[..i] + rest
  {
  }

  /** Overwriting index i of `orig[..i + 1] + rest` with q gives `orig[..i] + [q] + rest`. */
  lemma ReplaceAt(orig: seq<Particle>, rest: seq<Particle>, i: nat, q: Particle)
    requires i < |orig|
    ensures (orig[..i + 1] + rest)[i := q] == orig[..i] + ([q] + rest)
  {
  }

  /** The pointer scenario: press at (100, 100), drag to (110, 100), release,
      then a frame more than two seconds after the last emission. Returns the
      particle count and drawing flag seen after each step. */
  method PointerScenario() returns (afterDown: nat, drawingAfterDown: bool,
                                    afterMove: nat, afterUp: nat, drawingAfterUp: bool,
                                    afterLateFrame: nat)
    ensures afterDown == 5 && drawingAfterDown
    ensures afterMove == 10
    ensures afterUp == 10 && !drawingAfterUp
    ensures afterLateFrame == 0
  {
    var r := new TrailRenderer();
    var d := Draw(0.5, 0.5, 0.5);
    var draws := [d, d, d, d, d];
    r.MouseDown(100.0, 100.0, 0, draws);
    afterDown, drawingAfterDown := |r.particles|, r.isDrawing;
    r.MouseMove(110.0, 100.0, 16, draws);
    afterMove := |r.particles|;
    r.MouseUp();
    afterUp, drawingAfterUp := |r.particles|, r.isDrawing;
    ghost var before := r.particles;
    assert forall j :: 0 <= j < |before| ==> Expired(before[j], 2017);
    ghost var _, _ := r.Animate(2017);
    AnimatePassAllExpired(before, 2017);
    afterLateFrame := |r.particles|;
  }
}
