/**
 The callbacks of the shadow framebuffer on mutable buffers: the drawing wrappers and the row loop of
 rockchip_fbdev_dirty.  Undisturbed, they do what the interleaved machine of module `Shadow` does.
 */
module ShadowDevice {
  import opened Arith
  import opened Shadow
  import opened Options

  const EINVAL := 22

  class FbDev {
    const g: Geometry
    const shadow: array<byte>
    const scanout: array<byte>
    var damage: Option<Rect>
    const mapped: bool  // the scanout object has a kernel address

    ghost predicate Valid()
      reads this
    {
      && g.Valid() && shadow.Length == scanout.Length == g.Size() && shadow != scanout
      && (damage.Some? ==> damage.value.OnScreen(g))
    }

    ghost function Abstract(): State
      reads this, shadow, scanout
    {
      State(shadow[..], scanout[..], damage, multiset{}, Idle)
    }

    constructor (g: Geometry, mapped: bool)
      requires g.Valid()
      ensures Valid() && this.g == g && this.mapped == mapped
      ensures Abstract().damage == None && shadow[..] == scanout[..]
      ensures fresh(shadow) && fresh(scanout)
    {
      this.g, this.mapped, damage := g, mapped, None;
      shadow := new byte[g.Size()](_ => 0);
      scanout := new byte[g.Size()](_ => 0);
    }

    // memcpy of one row segment.
    method CopyRow(dst: array<byte>, offset: nat, len: nat)
      requires Valid() && dst == scanout && offset + len <= g.Size()
      modifies dst
      ensures forall o :: 0 <= o < g.Size() ==>
                dst[o] == if offset <= o < offset + len then shadow[o] else old(dst[o])
    {
      for i := 0 to len
        invariant forall o :: 0 <= o < g.Size() ==>
                    dst[o] == if offset <= o < offset + i then shadow[o] else old(dst[o])
      {
        dst[offset + i] := shadow[offset + i];
      }
    }

    // The row segment at `y` is what the rectangle holds of row `y`.
    lemma {:induction false} RowSegment(r: Rect, y: nat, o: nat)
      requires g.Valid() && r.OnScreen(g) && r.y1 <= y < r.y2
      ensures var offset := y * g.pitch + r.x1 * g.cpp;
              && 0 <= RowBytes(g, r) && offset + RowBytes(g, r) <= g.Size()
              && (offset <= o < offset + RowBytes(g, r) <==> r.Has(g, o) && o / g.pitch == y)
    {
      MulMono(r.x1, r.x2, g.cpp);
      MulMono(r.x2, g.width, g.cpp);
      MulMono(y + 1, g.height, g.pitch);
      assert (y + 1) * g.pitch == y * g.pitch + g.pitch;
      var k := o - y * g.pitch;
      if 0 <= k < g.pitch {
        DivModUnique(y, k, g.pitch);
      } else {
        assert o == o / g.pitch * g.pitch + o % g.pitch;
      }
    }

    // The whole row segment at `y`, by offset.
    lemma {:induction false} RowSegments(r: Rect, y: nat)
      requires g.Valid() && r.OnScreen(g) && r.y1 <= y < r.y2
      ensures var offset := y * g.pitch + r.x1 * g.cpp;
              && 0 <= RowBytes(g, r) && offset + RowBytes(g, r) <= g.Size()
              && forall o :: 0 <= o < g.Size() ==>
                   (offset <= o < offset + RowBytes(g, r) <==> r.Has(g, o) && o / g.pitch == y)
    {
      RowSegment(r, y, 0);
      forall o | 0 <= o < g.Size()
        ensures var offset := y * g.pitch + r.x1 * g.cpp;
                offset <= o < offset + RowBytes(g, r) <==> r.Has(g, o) && o / g.pitch == y
      {
        RowSegment(r, y, o);
      }
    }

    lemma {:induction false} EmptyHasNothing(r: Rect, o: nat)
      requires g.Valid() && !r.NonEmpty()
      ensures !r.Has(g, o)
    {
      if r.x2 <= r.x1 { MulMono(r.x2, r.x1, g.cpp); }
    }

    // The row loop.
    method Blit(clip: Rect)
      requires Valid() && clip.OnScreen(g)
      modifies scanout
      ensures forall o :: 0 <= o < g.Size() ==>
                scanout[o] == if clip.Has(g, o) then shadow[o] else old(scanout[o])
    {
      var offset := clip.y1 * g.pitch + clip.x1 * g.cpp;
      var len := clip.x2 * g.cpp - clip.x1 * g.cpp;
      var y := clip.y1;
      while y < clip.y2
        invariant clip.y1 <= y <= clip.y2 && offset == y * g.pitch + clip.x1 * g.cpp
        invariant forall o :: 0 <= o < g.Size() ==>
                    scanout[o] == if clip.Has(g, o) && o / g.pitch < y then shadow[o] else old(scanout[o])
      {
        RowSegments(clip, y);
        CopyRow(scanout, offset, len);
        offset := offset + g.pitch;
        y := y + 1;
      }
    }

    /** rockchip_fbdev_dirty: copies the clip and nothing else; the result is that of the framebuffer's own dirty hook,
        which is 0 if there is none. */
    method Dirty(clip: Rect, hook: int) returns (ret: int)
      requires Valid() && clip.OnScreen(g)
      modifies scanout
      ensures ret == if !clip.NonEmpty() then 0 else if !mapped then -EINVAL else hook
      ensures forall o :: 0 <= o < g.Size() ==>
                scanout[o] == if mapped && clip.Has(g, o) then shadow[o] else old(scanout[o])
    {
      if !clip.NonEmpty() {
        forall o: nat { EmptyHasNothing(clip, o); }
        return 0;
      }
      if !mapped {
        return -EINVAL;
      }
      Blit(clip);
      return hook;
    }

    /** A drawing callback: `image` gives the new byte of every offset of the rectangle. */
    method DrawRect(r: Rect, image: nat -> byte)
      requires Valid() && r.OnScreen(g)
      modifies this`damage, shadow
      ensures Valid() && damage == Some(Grow(old(damage), r))
      ensures forall o :: 0 <= o < g.Size() ==> shadow[o] == if r.Has(g, o) then image(o) else old(shadow[o])
    {
      for o := 0 to g.Size()
        invariant Valid() && damage == old(damage)
        invariant forall q :: 0 <= q < g.Size() ==>
                    shadow[q] == if q < o && r.Has(g, q) then image(q) else old(shadow[q])
      {
        if r.Has(g, o) {
          shadow[o] := image(o);
        }
      }
      damage := Some(Grow(damage, r));
      GrowCovers(g, old(damage), r, 0);
    }

    /** The damage worker: take and clear, then copy.  On a mapped scanout it ends where the interleaved machine
        ends when nothing interferes, whatever the hook answers; otherwise the scanout stays as it was. */
    method DamageWork(hook: int) returns (ret: int)
      requires Valid() && damage.Some?
      modifies this`damage, scanout
      ensures Valid() && damage == None
      ensures ret == if !old(damage).value.NonEmpty() then 0 else if !mapped then -EINVAL else hook
      ensures if mapped then WorkerAlone(old(Abstract()), Abstract()) else scanout[..] == old(scanout[..])
    {
      var clip := damage.value;
      damage := None;
      ret := Dirty(clip, hook);
      if mapped {
        Refines(old(Abstract()), Abstract());
      }
    }

    // `t` is where the machine gets from `s` by the worker's steps alone.
    ghost predicate WorkerAlone(s: State, t: State) {
      Shaped(g, s) && Enabled(g, s, Take) && Shaped(g, Do(g, s, Take)) &&
      var run := Finish(g, Do(g, s, Take));
      Execution(g, Do(g, s, Take), run) && t == Final(g, Do(g, s, Take), run)
    }

    lemma {:induction false} Refines(s: State, t: State)
      requires Shaped(g, s) && Enabled(g, s, Take) && |t.scanout| == g.Size()
      requires t == s.(damage := None, scanout := t.scanout)
      requires forall o :: 0 <= o < g.Size() ==>
                 t.scanout[o] == if s.damage.value.Has(g, o) then s.shadow[o] else s.scanout[o]
      ensures WorkerAlone(s, t)
    {
      ShapedStep(g, s, Take);
      var s1 := Do(g, s, Take);
      FinishBlits(g, s1);
      var s2 := Final(g, s1, Finish(g, s1));
      forall o | 0 <= o < g.Size()
        ensures s2.scanout[o] == t.scanout[o]
      {
        assert Remaining(g, s1.worker, o) <==> s.damage.value.Has(g, o) by {
          if !s.damage.value.NonEmpty() && s.damage.value.Has(g, o) {
            MulMono(s.damage.value.x2, s.damage.value.x1, g.cpp);
          }
        }
      }
      assert s2.scanout == t.scanout;
    }
  }
}
