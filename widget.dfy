/** The `IPlot` widget: the editor state in fields that the pointer handlers
    and `setValue` update in place. Each handler is proved against the
    state function of the Gesture or Intake module that specifies it. */
module Widget {
  import opened Coords
  import opened Space
  import opened Labels
  import opened Gesture
  import opened Intake

  datatype Option<T> = None | Some(value: T)

  /** `getProp('rangeX') || {min:0,max:1}`: a missing range is the unit one. */
  function RangeOr(r: Option<Range>): (range: Range)
    ensures r.None? ==> range == Range(0.0, 1.0)
    ensures r.Some? ==> range == r.value
  {
    match r
    case None => Range(0.0, 1.0)
    case Some(given) => given
  }

  class IPlot {
    /** The explicit series of `[x, y]` entries. */
    var value: seq<Point>
    /** The index of the point under manipulation, or -1. */
    var hit: int
    /** The anchor: the pointer position of the last accepted step. */
    var x0: real
    var y0: real
    /** Pixel scale, padding, canvas size and ranges. */
    const geom: Geometry
    /** The corner labels built by the constructor. */
    const pips: Pips

    /** Host effects: a redraw has been requested (`batchDraw`), and the
        values handed to `sendValue` and `changed`, in order. */
    ghost var pendingDraw: bool
    ghost var sent: seq<seq<Point>>
    ghost var synced: seq<seq<Point>>

    function State(): Editor
      reads this
    {
      Editor(value, hit, x0, y0)
    }

    predicate Valid()
      reads this
    {
      HitValid(State())
    }

    /** The constructor: an empty series, no point held, the anchor at
        (-1, -1), missing ranges defaulted and the labels computed. */
    constructor (pxScale: real, padding: real, width: real, height: real,
                 rangeX: Option<Range>, rangeY: Option<Range>)
      ensures Valid()
      ensures value == [] && hit == -1 && x0 == -1.0 && y0 == -1.0
      ensures geom == Geometry(pxScale, padding, width, height, RangeOr(rangeX), RangeOr(rangeY))
      ensures pips == PipsFor(RangeOr(rangeX), RangeOr(rangeY))
      ensures !pendingDraw && sent == [] && synced == []
    {
      value := [];
      var rx := RangeOr(rangeX);
      var ry := RangeOr(rangeY);
      geom := Geometry(pxScale, padding, width, height, rx, ry);
      pips := PipsFor(rx, ry);
      hit := -1;
      x0 := -1.0;
      y0 := -1.0;
      pendingDraw := false;
      sent := [];
      synced := [];
    }

    /** `draginitHandle(e)`. A redraw is requested exactly when a point was
        inserted or deleted. */
    method DragInit(e: Pointer)
      requires Valid() && (Inserts(e) ==> Invertible(geom))
      modifies this
      ensures Valid()
      ensures State() == AfterDragInit(old(State()), geom, e)
      ensures pendingDraw == (old(pendingDraw) || |value| != |old(value)|)
      ensures sent == old(sent) && synced == old(synced)
    {
      if |value| == 0 {
        return;
      }
      var points := PixelPoints();
      HitTest(points, e.offsetX, e.offsetY);
      if e.shiftKey && !e.ctrlKey {
        ShiftInsert(points, e);
      } else if !e.shiftKey && e.ctrlKey {
        DeleteHit();
      } else {
        x0 := e.offsetX;
        y0 := e.offsetY;
      }
    }

    /** `fromLocalSpace(this.value)`: the pixel list of the series. */
    method PixelPoints() returns (points: seq<real>)
      ensures PixelsOf(geom, value, points)
    {
      points := FromLocalSpace(geom, Pairs(value));
      PixelsOfAllPairs(geom, value);
    }

    /** The hit-test loop: each pass starts again from the radius, so every
        point within it overwrites `hit` and the last one wins. */
    method HitTest(points: seq<real>, ox: real, oy: real)
      requires Valid() && PixelsOf(geom, value, points)
      modifies this`hit
      ensures Valid()
      ensures State() == AfterHitTest(old(State()), geom, ox, oy)
    {
      ghost var h0 := hit;
      var i := 0;
      while i < |points|
        invariant |points| == 2 * |value|
        invariant 0 <= i <= |points| && i % 2 == 0
        invariant hit == ScanHit(geom, value[..i / 2], ox, oy, h0)
      {
        var dmem := HitRadius2;
        var x := points[i] - ox;
        var y := points[i + 1] - oy;
        var d2 := x * x + y * y;
        assert d2 == Dist2(x, y);
        HitTestStep(geom, value, i / 2, points, ox, oy, h0);
        if d2 < dmem {
          hit := i / 2;
          dmem := d2;
        }
        i := i + 2;
      }
      assert value[..i / 2] == value;
    }

    /** The shift branch: the first point at or right of the pointer gives
        the insertion index; later entries move up one place and the
        clamped logical pointer is stored there. */
    method ShiftInsert(points: seq<real>, e: Pointer)
      requires Valid() && Invertible(geom) && |value| > 0 && PixelsOf(geom, value, points)
      modifies this
      ensures Valid()
      ensures State() == AfterInsert(old(State()), geom, e)
      ensures pendingDraw == (old(pendingDraw) || |value| != |old(value)|)
      ensures sent == old(sent) && synced == old(synced)
    {
      ghost var vs := value;
      var i := 0;
      while i < |points|
        invariant |points| == 2 * |vs| && value == vs
        invariant 0 <= i <= |points| && i % 2 == 0
        invariant FirstRight(geom, vs[..i / 2], e.offsetX) == -1
        invariant unchanged(this)
      {
        FirstWhereSnoc(RightOfPointer(geom, e.offsetX), vs, i / 2);
        assert points[i] >= e.offsetX <==> RightOfPointer(geom, e.offsetX)(vs[i / 2]);
        if points[i] >= e.offsetX {
          PlacePointer(i / 2, e);
          return;
        }
        i := i + 2;
      }
      assert vs[..i / 2] == vs;
    }

    /** The body of the shift branch once index k is found: set `hit`,
        shift, store the clamped logical pointer, move the anchor, redraw. */
    method PlacePointer(k: nat, e: Pointer)
      requires Invertible(geom) && k < |value|
      modifies this
      ensures value == InsertAt(old(value), k, Pointed(geom, e)) && hit == k
      ensures x0 == e.offsetX && y0 == e.offsetY && pendingDraw
      ensures sent == old(sent) && synced == old(synced)
    {
      ghost var vs := value;
      hit := k;
      ShiftRight(hit);
      var xy := ToLocalSpace(geom, Flat([e.offsetX, e.offsetY]));
      LogicalAt(geom, [e.offsetX, e.offsetY], 0);
      LogicalAt(geom, [e.offsetX, e.offsetY], 1);
      value := value[hit := Point(Clamp(xy[0], geom.rangeX.min, geom.rangeX.max),
                                  Clamp(xy[1], geom.rangeY.min, geom.rangeY.max))];
      InsertAfterShift(vs, hit, Pointed(geom, e));
      x0 := e.offsetX;
      y0 := e.offsetY;
      pendingDraw := true;
    }

    /** The ctrl branch: splice out the held point, release it, redraw. */
    method DeleteHit()
      requires Valid()
      modifies this
      ensures Valid()
      ensures State() == AfterDelete(old(State()))
      ensures pendingDraw == (old(pendingDraw) || |value| != |old(value)|)
      ensures sent == old(sent) && synced == old(synced)
    {
      if hit >= 0 {
        value := value[..hit] + value[hit + 1..];
        hit := -1;
        pendingDraw := true;
      }
    }

    /** `for (j = valueLength; j > hit; --j) value[j] = value[j-1]`: the
        first pass writes one past the end and so appends. */
    method ShiftRight(k: nat)
      requires k < |value|
      modifies this`value
      ensures value == old(value)[..k + 1] + old(value)[k..]
    {
      ghost var vs := value;
      var j := |value|;
      while j > k
        invariant k <= j <= |vs|
        invariant value == Shifted(vs, j)
      {
        ShiftStep(vs, j);
        if j == |value| {
          value := value + [value[j - 1]];
        } else {
          value := value[j := value[j - 1]];
        }
        j := j - 1;
      }
    }

    /** `dragHandle(e)`. A redraw is requested exactly when the move is
        accepted. */
    method Drag(e: Pointer)
      requires Valid() && (hit >= 0 ==> Invertible(geom))
      modifies this
      ensures Valid()
      ensures State() == AfterDrag(old(State()), geom, e)
      ensures pendingDraw == (old(pendingDraw) || DragAccepted(old(State()), geom, e))
      ensures sent == old(sent) && synced == old(synced)
    {
      if hit < 0 {
        return;
      }
      var x, y := MovedPoint(e);
      var xmin := if hit > 0 then value[hit - 1].x else geom.rangeX.min;
      var xmax := if hit < |value| - 1 then value[hit + 1].x else geom.rangeX.max;
      if x >= xmin && x <= xmax {
        value := value[hit := Point(Clamp(x, geom.rangeX.min, geom.rangeX.max), value[hit].y)];
        value := value[hit := Point(value[hit].x, Clamp(y, geom.rangeY.min, geom.rangeY.max))];
        x0 := e.offsetX;
        y0 := e.offsetY;
        pendingDraw := true;
      }
    }

    /** The held point moved by the pointer's offset from the anchor: to
        pixels with fromLocalSpace, shifted, and back with toLocalSpace. */
    method MovedPoint(e: Pointer) returns (x: real, y: real)
      requires 0 <= hit < |value| && Invertible(geom)
      ensures Point(x, y) == Candidate(State(), geom, e)
    {
      var dx := e.offsetX - x0;
      var dy := e.offsetY - y0;
      var p := value[hit];
      var pixel := FromLocalSpace(geom, Flat([p.x, p.y]));
      PixelsAt(geom, [p.x, p.y], 0);
      PixelsAt(geom, [p.x, p.y], 1);
      var xy := ToLocalSpace(geom, Flat([pixel[0] + dx, pixel[1] + dy]));
      LogicalAt(geom, [pixel[0] + dx, pixel[1] + dy], 0);
      LogicalAt(geom, [pixel[0] + dx, pixel[1] + dy], 1);
      x, y := xy[0], xy[1];
    }

    /** `dragendHandle()`: release the point and commit the whole series
        with both send and sync. */
    method DragEnd()
      requires Valid()
      modifies this
      ensures Valid()
      ensures State() == AfterDragEnd(old(State()))
      ensures pendingDraw && sent == old(sent) + [value] && synced == old(synced) + [value]
    {
      hit := -1;
      SetValue(Whole(value), SetOptions(true, true));
    }

    /** `setValue(v, options)` on already-parsed input. A replacement array
        must still contain the held point, and a partial update may only
        name existing entries. */
    method SetValue(v: Incoming, options: SetOptions)
      requires Valid()
      requires v.Whole? ==> hit < |v.points|
      requires v.Partial? ==> FitsWithin(v.entries, |value|)
      modifies this
      ensures Valid()
      ensures value == Applied(old(value), v)
      ensures hit == old(hit) && x0 == old(x0) && y0 == old(y0)
      ensures pendingDraw == (old(pendingDraw) || Accepted(v))
      ensures sent == if Accepted(v) && options.send then old(sent) + [value] else old(sent)
      ensures synced == if Accepted(v) && options.sync then old(synced) + [value] else old(synced)
    {
      if !v.Ignored? {
        if v.Whole? {
          value := v.points;
        } else {
          PatchAll(v.entries);
        }
        pendingDraw := true;
        if options.send {
          sent := sent + [value];
        }
        if options.sync {
          synced := synced + [value];
        }
      }
    }

    /** `for (var i in v) if (!isNaN(i)) value[i] = v[i]`, one key at a time
        in whatever order the keys come. */
    method PatchAll(m: map<Key, Point>)
      requires FitsWithin(m, |value|)
      modifies this`value
      ensures value == Patched(old(value), m)
    {
      ghost var vs := value;
      var keys := m.Keys;
      ghost var done: set<Key> := {};
      PatchedEnds(vs, m);
      while keys != {}
        invariant keys + done == m.Keys && keys !! done
        invariant value == Patched(vs, Restrict(m, done))
        decreases |keys|
      {
        var k :| k in keys;
        PatchedOneMore(vs, m, done, k, value);
        if k.Index? {
          value := value[k.n := m[k]];
        }
        keys := keys - {k};
        done := done + {k};
      }
      assert done == m.Keys;
    }
  }

  /** The series part-way through the shift loop, with `j` the next index
      to write: untouched at the start, then one longer with the entry
      before `j` doubled. */
  function Shifted(vs: seq<Point>, j: nat): seq<Point>
    requires j <= |vs|
  {
    if j == |vs| then vs else vs[..j + 1] + vs[j..]
  }

  lemma ShiftStep(vs: seq<Point>, j: nat)
    requires 0 < j <= |vs|
    ensures var cur := Shifted(vs, j);
            j <= |cur| && cur[j - 1] == vs[j - 1] &&
            (if j == |cur| then cur + [cur[j - 1]] else cur[j := cur[j - 1]]) == Shifted(vs, j - 1)
  {
  }

  lemma InsertAfterShift(vs: seq<Point>, k: nat, p: Point)
    requires k < |vs|
    ensures (vs[..k + 1] + vs[k..])[k := p] == InsertAt(vs, k, p)
  {
  }

  /** One pass of the hit-test loop: the pass moves `hit` to index k exactly
      when point k is within the radius. */
  lemma HitTestStep(g: Geometry, vs: seq<Point>, k: nat, points: seq<real>, ox: real, oy: real, h0: int)
    requires k < |vs| && PixelsOf(g, vs, points)
    ensures ScanHit(g, vs[..k + 1], ox, oy, h0)
            == if Dist2(points[2 * k] - ox, points[2 * k + 1] - oy) < HitRadius2 then k
               else ScanHit(g, vs[..k], ox, oy, h0)
  {
    LastWhereSnoc(NearPointer(g, ox, oy), vs, k);
  }
}
