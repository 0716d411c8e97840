/**
 Shadow framebuffer: fbdev draws go to a shadow buffer, their damage is collected in a bounding box, and a worker
 copies the damaged rectangle to the scanout buffer.  The drawing callbacks and the worker run concurrently; the
 worker takes and clears the box first and copies afterwards, byte by byte.  The module proves that no update is
 ever lost, in every interleaving.
 */
module Shadow {
  import opened Arith
  import opened Options

  type byte = x: int | 0 <= x < 256

  /** The framebuffer layout; a row of `pitch` bytes holds `width` pixels of `cpp` bytes. */
  datatype Geometry = Geometry(width: nat, height: nat, pitch: nat, cpp: nat) {
    predicate Valid() { 0 < pitch && 0 < cpp && width * cpp <= pitch }

    function Size(): nat { height * pitch }
  }

  datatype Rect = Rect(x1: nat, y1: nat, x2: nat, y2: nat) {
    predicate NonEmpty() { x1 < x2 && y1 < y2 }

    predicate OnScreen(g: Geometry) { x1 <= x2 <= g.width && y1 <= y2 <= g.height }

    // Byte offset `o` of the framebuffer belongs to the rectangle.
    predicate Has(g: Geometry, o: nat)
      requires g.Valid()
    {
      y1 <= o / g.pitch < y2 && x1 * g.cpp <= o % g.pitch < x2 * g.cpp
    }
  }

  function Min(a: nat, b: nat): nat { if a < b then a else b }

  function Max(a: nat, b: nat): nat { if a < b then b else a }

  // The damage box of the helper: the bounding box of what it held and the new rectangle.
  function Grow(damage: Option<Rect>, r: Rect): Rect {
    match damage
    case None => r
    case Some(d) => Rect(Min(d.x1, r.x1), Min(d.y1, r.y1), Max(d.x2, r.x2), Max(d.y2, r.y2))
  }

  /** The worker is idle or copies `clip`, next byte `k` of row `y`. */
  datatype Worker = Idle | Copying(clip: Rect, y: nat, k: nat)

  datatype State = State(shadow: seq<byte>, scanout: seq<byte>, damage: Option<Rect>, unreported: multiset<Rect>,
                         worker: Worker)

  /** `Begin` enters a drawing callback, `Draw` is one byte of its writes, `Report` is its damage call.
      `Take` is the worker's take-and-clear, `Copy` is one byte of its row loop. */
  datatype Action = Begin(r: Rect) | Draw(r: Rect, o: nat, b: byte) | Report(r: Rect) | Take | Copy

  function RowBytes(g: Geometry, r: Rect): int { r.x2 * g.cpp - r.x1 * g.cpp }

  function Cursor(g: Geometry, w: Worker): nat
    requires w.Copying?
  {
    w.y * g.pitch + (w.clip.x1 * g.cpp + w.k)
  }

  predicate WorkerOk(g: Geometry, w: Worker) {
    w.Copying? ==>
      w.clip.OnScreen(g) && w.clip.NonEmpty() && w.clip.y1 <= w.y < w.clip.y2 && w.k < RowBytes(g, w.clip)
  }

  predicate Shaped(g: Geometry, s: State) {
    && g.Valid()
    && |s.shadow| == |s.scanout| == g.Size()
    && (s.damage.Some? ==> s.damage.value.OnScreen(g))
    && (forall r <- s.unreported :: r.OnScreen(g))
    && WorkerOk(g, s.worker)
  }

  predicate Enabled(g: Geometry, s: State, a: Action)
    requires Shaped(g, s)
  {
    match a
    case Begin(r) => r.OnScreen(g)
    case Draw(r, o, _) => r in s.unreported && o < g.Size() && r.Has(g, o)
    case Report(r) => r in s.unreported
    case Take => s.worker.Idle? && s.damage.Some?
    case Copy => s.worker.Copying?
  }

  function Advance(g: Geometry, w: Worker): Worker
    requires w.Copying?
  {
    if w.k + 1 < RowBytes(g, w.clip) then w.(k := w.k + 1)
    else if w.y + 1 < w.clip.y2 then w.(y := w.y + 1, k := 0)
    else Idle
  }

  lemma {:induction false} CursorInBounds(g: Geometry, w: Worker)
    requires g.Valid() && w.Copying? && WorkerOk(g, w)
    ensures Cursor(g, w) < g.Size() && w.clip.x1 * g.cpp + w.k < w.clip.x2 * g.cpp <= g.pitch
    ensures Cursor(g, w) / g.pitch == w.y && Cursor(g, w) % g.pitch == w.clip.x1 * g.cpp + w.k
  {
    MulMono(w.clip.x2, g.width, g.cpp);
    MulMono(w.y + 1, g.height, g.pitch);
    assert (w.y + 1) * g.pitch == w.y * g.pitch + g.pitch;
    DivModUnique(w.y, w.clip.x1 * g.cpp + w.k, g.pitch);
  }

  function Do(g: Geometry, s: State, a: Action): (s': State)
    requires Shaped(g, s) && Enabled(g, s, a)
    ensures |s'.shadow| == |s'.scanout| == g.Size()
  {
    match a
    case Begin(r) => s.(unreported := s.unreported + multiset{r})
    case Draw(_, o, b) => s.(shadow := s.shadow[o := b])
    case Report(r) => s.(unreported := s.unreported - multiset{r}, damage := Some(Grow(s.damage, r)))
    case Take =>
      var c := s.damage.value;
      s.(damage := None, worker := if c.NonEmpty() then Copying(c, c.y1, 0) else Idle)
    case Copy =>
      CursorInBounds(g, s.worker);
      var o := Cursor(g, s.worker);
      s.(scanout := s.scanout[o := s.shadow[o]], worker := Advance(g, s.worker))
  }

  // Bytes of the clip that the worker has not copied yet.
  predicate Remaining(g: Geometry, w: Worker, o: nat)
    requires g.Valid()
  {
    w.Copying? && w.clip.Has(g, o) &&
    (o / g.pitch > w.y || (o / g.pitch == w.y && o % g.pitch >= w.clip.x1 * g.cpp + w.k))
  }

  ghost predicate Covered(g: Geometry, s: State, o: nat)
    requires g.Valid()
  {
    || (s.damage.Some? && s.damage.value.Has(g, o))
    || (exists r :: r in s.unreported && r.Has(g, o))
    || Remaining(g, s.worker, o)
  }

  /** Coherence: a byte that differs between the buffers is pending damage, belongs to a draw that has not yet
      reported, or is still to be copied. */
  ghost predicate Coherent(g: Geometry, s: State) {
    Shaped(g, s) && forall o :: 0 <= o < g.Size() && s.shadow[o] != s.scanout[o] ==> Covered(g, s, o)
  }

  predicate Quiescent(s: State) { s.damage.None? && s.unreported == multiset{} && s.worker.Idle? }

  // ---------- one step ----------

  lemma {:induction false} GrowCovers(g: Geometry, damage: Option<Rect>, r: Rect, o: nat)
    requires g.Valid() && r.OnScreen(g) && (damage.Some? ==> damage.value.OnScreen(g))
    ensures Grow(damage, r).OnScreen(g)
    ensures r.Has(g, o) || (damage.Some? && damage.value.Has(g, o)) ==> Grow(damage, r).Has(g, o)
  {
    if damage.Some? {
      var d, b := damage.value, Grow(damage, r);
      MulMono(b.x1, d.x1, g.cpp);
      MulMono(b.x1, r.x1, g.cpp);
      MulMono(d.x2, b.x2, g.cpp);
      MulMono(r.x2, b.x2, g.cpp);
    }
  }

  lemma {:induction false} RowNotEmpty(g: Geometry, r: Rect)
    requires g.Valid() && r.x1 < r.x2
    ensures 0 < RowBytes(g, r)
  {
    MulMono(r.x1 + 1, r.x2, g.cpp);
    assert (r.x1 + 1) * g.cpp == r.x1 * g.cpp + g.cpp;
  }

  // A copy step shrinks what remains by exactly the byte it copies.
  lemma {:induction false} CopyRemaining(g: Geometry, w: Worker, o: nat)
    requires g.Valid() && w.Copying? && WorkerOk(g, w)
    ensures WorkerOk(g, Advance(g, w))
    ensures Remaining(g, Advance(g, w), o) <==> Remaining(g, w, o) && o != Cursor(g, w)
  {
    CursorInBounds(g, w);
    if o / g.pitch == w.y && o % g.pitch == w.clip.x1 * g.cpp + w.k {
      assert o == o / g.pitch * g.pitch + o % g.pitch;
    }
  }

  lemma {:induction false} ShapedStep(g: Geometry, s: State, a: Action)
    requires Shaped(g, s) && Enabled(g, s, a)
    ensures Shaped(g, Do(g, s, a))
  {
    match a
    case Report(r) => GrowCovers(g, s.damage, r, 0);
    case Take => if s.damage.value.NonEmpty() { RowNotEmpty(g, s.damage.value); }
    case Copy => CopyRemaining(g, s.worker, 0);
    case _ =>
  }

  lemma {:induction false} StillCovered(g: Geometry, s: State, a: Action, o: nat)
    requires Coherent(g, s) && Enabled(g, s, a) && o < g.Size()
    requires Do(g, s, a).shadow[o] != Do(g, s, a).scanout[o]
    ensures Covered(g, Do(g, s, a), o)
  {
    var s' := Do(g, s, a);
    match a
    case Begin(r) =>
      assert forall q :: q in s.unreported ==> q in s'.unreported;
    case Draw(r, o', _) =>
      assert o == o' ==> r in s'.unreported && r.Has(g, o);
    case Report(r) =>
      GrowCovers(g, s.damage, r, o);
      assert forall q :: q in s.unreported && q != r ==> q in s'.unreported;
    case Take =>
    case Copy =>
      CopyRemaining(g, s.worker, o);
  }

  lemma {:induction false} CoherentStep(g: Geometry, s: State, a: Action)
    requires Coherent(g, s) && Enabled(g, s, a)
    ensures Coherent(g, Do(g, s, a))
  {
    ShapedStep(g, s, a);
    var s' := Do(g, s, a);
    forall o | 0 <= o < g.Size() && s'.shadow[o] != s'.scanout[o]
      ensures Covered(g, s', o)
    {
      StillCovered(g, s, a, o);
    }
  }

  // ---------- runs ----------

  ghost predicate Execution(g: Geometry, s: State, acts: seq<Action>)
    decreases |acts|
  {
    Shaped(g, s) &&
    (acts == [] || (Enabled(g, s, acts[0]) && Execution(g, Do(g, s, acts[0]), acts[1..])))
  }

  ghost function Final(g: Geometry, s: State, acts: seq<Action>): State
    requires Execution(g, s, acts)
    decreases |acts|
  {
    if acts == [] then s else Final(g, Do(g, s, acts[0]), acts[1..])
  }

  lemma {:induction false} QuiescentIsEqual(g: Geometry, s: State)
    requires Coherent(g, s) && Quiescent(s)
    ensures s.shadow == s.scanout
  {
    forall o | 0 <= o < g.Size()
      ensures s.shadow[o] == s.scanout[o]
    {
      assert !Covered(g, s, o);
    }
  }

  /** Every interleaving of draws and the worker, from equal buffers, keeps coherence; whenever nothing is in
      flight the scanout shows exactly what was drawn. */
  lemma {:induction false} NoUpdateIsLost(g: Geometry, s: State, acts: seq<Action>)
    requires Coherent(g, s) && Execution(g, s, acts)
    ensures Coherent(g, Final(g, s, acts))
    ensures Quiescent(Final(g, s, acts)) ==> Final(g, s, acts).shadow == Final(g, s, acts).scanout
    decreases |acts|
  {
    if acts == [] {
      if Quiescent(s) { QuiescentIsEqual(g, s); }
    } else {
      CoherentStep(g, s, acts[0]);
      NoUpdateIsLost(g, Do(g, s, acts[0]), acts[1..]);
    }
  }

  lemma {:induction false} StartIsCoherent(g: Geometry, pixels: seq<byte>)
    requires g.Valid() && |pixels| == g.Size()
    ensures Coherent(g, State(pixels, pixels, None, multiset{}, Idle))
  {
  }

  // ---------- the worker alone ----------

  function RowsLeft(w: Worker): int { if w.Idle? then 0 else w.clip.y2 - w.y + 1 }

  function BytesLeft(g: Geometry, w: Worker): int { if w.Idle? then 0 else RowBytes(g, w.clip) - w.k }

  // The worker's steps until its clip is done.
  ghost function Finish(g: Geometry, s: State): seq<Action>
    requires Shaped(g, s)
    decreases RowsLeft(s.worker), BytesLeft(g, s.worker)
  {
    if s.worker.Idle? then [] else
      ShapedStep(g, s, Copy);
      [Copy] + Finish(g, Do(g, s, Copy))
  }

  /** A blit that is not interleaved copies exactly the remaining bytes of its clip. */
  lemma {:induction false} FinishBlits(g: Geometry, s: State)
    requires Shaped(g, s)
    ensures Execution(g, s, Finish(g, s))
    ensures var s' := Final(g, s, Finish(g, s));
            && s' == s.(scanout := s'.scanout, worker := Idle) && |s'.scanout| == g.Size()
            && forall o :: 0 <= o < g.Size() ==>
                 s'.scanout[o] == if Remaining(g, s.worker, o) then s.shadow[o] else s.scanout[o]
    decreases RowsLeft(s.worker), BytesLeft(g, s.worker)
  {
    if s.worker.Copying? {
      ShapedStep(g, s, Copy);
      var s1 := Do(g, s, Copy);
      FinishBlits(g, s1);
      assert Finish(g, s)[1..] == Finish(g, s1);
      forall o | 0 <= o < g.Size()
        ensures Remaining(g, s1.worker, o) <==> Remaining(g, s.worker, o) && o != Cursor(g, s.worker)
      {
        CopyRemaining(g, s.worker, o);
      }
      CursorInBounds(g, s.worker);
    }
  }

  lemma {:induction false} ExecutionConcat(g: Geometry, s: State, a: seq<Action>, b: seq<Action>)
    requires Execution(g, s, a) && Execution(g, Final(g, s, a), b)
    ensures Execution(g, s, a + b) && Final(g, s, a + b) == Final(g, Final(g, s, a), b)
    decreases |a|
  {
    if a == [] {
      assert a + b == b;
    } else {
      assert (a + b)[1..] == a[1..] + b;
      ExecutionConcat(g, Do(g, s, a[0]), a[1..], b);
    }
  }

  /** Once every draw has reported, the worker alone brings the scanout up to date: it finishes its clip, takes
      the box at most once more, and stops. */
  lemma {:induction false} Drains(g: Geometry, s: State) returns (acts: seq<Action>)
    requires Coherent(g, s) && s.unreported == multiset{}
    ensures Execution(g, s, acts) && forall a <- acts :: a.Take? || a.Copy?
    ensures Quiescent(Final(g, s, acts)) && Final(g, s, acts).shadow == s.shadow == Final(g, s, acts).scanout
  {
    acts := Finish(g, s);
    FinishBlits(g, s);
    OnlyCopies(g, s);
    var s1 := Final(g, s, acts);
    NoUpdateIsLost(g, s, acts);
    if s1.damage.Some? {
      CoherentStep(g, s1, Take);
      var s2 := Do(g, s1, Take);
      var rest := [Take] + Finish(g, s2);
      FinishBlits(g, s2);
      OnlyCopies(g, s2);
      assert rest[1..] == Finish(g, s2);
      ExecutionConcat(g, s, acts, rest);
      acts := acts + rest;
      NoUpdateIsLost(g, s, acts);
    }
  }

  lemma {:induction false} OnlyCopies(g: Geometry, s: State)
    requires Shaped(g, s)
    ensures forall a <- Finish(g, s) :: a.Copy?
    decreases RowsLeft(s.worker), BytesLeft(g, s.worker)
  {
    if s.worker.Copying? {
      ShapedStep(g, s, Copy);
      OnlyCopies(g, Do(g, s, Copy));
    }
  }
}
