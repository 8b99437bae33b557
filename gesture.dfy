/** The pointer-gesture state machine of the XY editor, as functions of the
    editor state: pointer-down (`draginitHandle`), pointer-move
    (`dragHandle`) and pointer-up (`dragendHandle`). The widget class proves
    its handlers against these functions. */
module Gesture {
  import opened Coords
  import opened Space

  /** The fields of a pointer event the handlers read: the position in
      canvas pixels and the two modifier keys. */
  datatype Pointer = Pointer(offsetX: real, offsetY: real, shiftKey: bool, ctrlKey: bool)

  /** The editor state: the explicit series `value`, the index `hit` of the
      point under manipulation (-1 for none) and the anchor `(x0, y0)`. */
  datatype Editor = Editor(value: seq<Point>, hit: int, x0: real, y0: real)

  /** The squared pixel radius of the hit test (`dmem = 16`). */
  const HitRadius2: real := 16.0

  predicate HitValid(s: Editor) {
    s.hit == -1 || 0 <= s.hit < |s.value|
  }

  /** Shift without ctrl inserts; ctrl without shift deletes. */
  predicate Inserts(e: Pointer) { e.shiftKey && !e.ctrlKey }
  predicate Deletes(e: Pointer) { !e.shiftKey && e.ctrlKey }

  /** The squared length of the offset (dx, dy). */
  function Dist2(dx: real, dy: real): real {
    dx * dx + dy * dy
  }

  /** The point's pixel position lies within the hit radius of the pointer. */
  predicate Near(g: Geometry, p: Point, ox: real, oy: real) {
    Dist2(FromLocalX(g, p.x) - ox, FromLocalY(g, p.y) - oy) < HitRadius2
  }

  /** The last index whose point passes `f`, or -1 when none does. */
  function LastWhere(f: Point -> bool, vs: seq<Point>): (r: int)
    ensures -1 <= r < |vs|
    ensures r >= 0 ==> f(vs[r]) && forall k :: r < k < |vs| ==> !f(vs[k])
    ensures r == -1 <==> forall k :: 0 <= k < |vs| ==> !f(vs[k])
  {
    if vs == [] then -1
    else if f(vs[|vs| - 1]) then |vs| - 1
    else LastWhere(f, vs[..|vs| - 1])
  }

  /** The first index whose point passes `f`, or -1 when none does. */
  function FirstWhere(f: Point -> bool, vs: seq<Point>): (r: int)
    ensures -1 <= r < |vs|
    ensures r >= 0 ==> f(vs[r]) && forall k :: 0 <= k < r ==> !f(vs[k])
    ensures r == -1 <==> forall k :: 0 <= k < |vs| ==> !f(vs[k])
  {
    if vs == [] then -1
    else
      var r := FirstWhere(f, vs[..|vs| - 1]);
      if r >= 0 then r
      else if f(vs[|vs| - 1]) then |vs| - 1
      else -1
  }

  /** Extending the scanned prefix by one entry. */
  lemma LastWhereSnoc(f: Point -> bool, vs: seq<Point>, k: nat)
    requires k < |vs|
    ensures LastWhere(f, vs[..k + 1]) == if f(vs[k]) then k else LastWhere(f, vs[..k])
  {
    assert vs[..k + 1][..k] == vs[..k];
    assert vs[..k + 1][k] == vs[k];
  }

  lemma FirstWhereSnoc(f: Point -> bool, vs: seq<Point>, k: nat)
    requires k < |vs| && FirstWhere(f, vs[..k]) == -1
    ensures FirstWhere(f, vs[..k + 1]) == if f(vs[k]) then k else -1
    ensures f(vs[k]) ==> FirstWhere(f, vs) == k
  {
    assert vs[..k + 1][..k] == vs[..k];
    assert vs[..k + 1][k] == vs[k];
    if f(vs[k]) {
      assert forall j :: 0 <= j < k ==> vs[j] == vs[..k][j];
    }
  }

  /** The hit-test condition, and the insertion condition: pixel X at or
      right of the pointer. */
  function NearPointer(g: Geometry, ox: real, oy: real): Point -> bool {
    (p: Point) => Near(g, p, ox, oy)
  }

  function RightOfPointer(g: Geometry, ox: real): Point -> bool {
    (p: Point) => FromLocalX(g, p.x) >= ox
  }

  /** The scan of the hit test: every point within the radius overwrites
      the previous candidate, so the last such index wins. */
  function LastNear(g: Geometry, vs: seq<Point>, ox: real, oy: real): int {
    LastWhere(NearPointer(g, ox, oy), vs)
  }

  /** The insertion scan: the first index whose pixel X is at or right of
      the pointer, or -1 when there is none. */
  function FirstRight(g: Geometry, vs: seq<Point>, ox: real): int {
    FirstWhere(RightOfPointer(g, ox), vs)
  }

  /** `hit` after the hit-test loop: the last index within the radius, or
      the old value when no point is that close. */
  function ScanHit(g: Geometry, vs: seq<Point>, ox: real, oy: real, hit: int): int {
    var n := LastNear(g, vs, ox, oy);
    if n >= 0 then n else hit
  }

  function InsertAt(vs: seq<Point>, k: nat, p: Point): seq<Point>
    requires k <= |vs|
  {
    vs[..k] + [p] + vs[k..]
  }

  function RemoveAt(vs: seq<Point>, k: nat): seq<Point>
    requires k < |vs|
  {
    vs[..k] + vs[k + 1..]
  }

  /** The inserted point: the pointer mapped back to logical coordinates and
      clamped to both ranges. */
  function Pointed(g: Geometry, e: Pointer): Point
    requires Invertible(g)
  {
    Point(Clamp(ToLocalX(g, e.offsetX), g.rangeX.min, g.rangeX.max),
          Clamp(ToLocalY(g, e.offsetY), g.rangeY.min, g.rangeY.max))
  }

  /** The state after the hit-test loop of `draginitHandle`. */
  function AfterHitTest(s: Editor, g: Geometry, ox: real, oy: real): (t: Editor)
    requires HitValid(s)
    ensures HitValid(t)
  {
    s.(hit := ScanHit(g, s.value, ox, oy, s.hit))
  }

  /** The shift branch: insert before the first point at or right of the
      pointer and hold the new point; with no such point, nothing. */
  function AfterInsert(t: Editor, g: Geometry, e: Pointer): (r: Editor)
    requires HitValid(t) && Invertible(g)
    ensures HitValid(r)
  {
    var k := FirstRight(g, t.value, e.offsetX);
    if k >= 0 then Editor(InsertAt(t.value, k, Pointed(g, e)), k, e.offsetX, e.offsetY) else t
  }

  /** The ctrl branch: remove the held point and release it. */
  function AfterDelete(t: Editor): (r: Editor)
    requires HitValid(t)
    ensures HitValid(r)
  {
    if t.hit >= 0 then t.(value := RemoveAt(t.value, t.hit), hit := -1) else t
  }

  /** The state after `draginitHandle(e)`: nothing for an empty series;
      otherwise the hit test, then the branch the modifier keys select. */
  function AfterDragInit(s: Editor, g: Geometry, e: Pointer): (r: Editor)
    requires HitValid(s) && (Inserts(e) ==> Invertible(g))
    ensures HitValid(r)
  {
    if |s.value| == 0 then s
    else
      var t := AfterHitTest(s, g, e.offsetX, e.offsetY);
      if Inserts(e) then AfterInsert(t, g, e)
      else if Deletes(e) then AfterDelete(t)
      else t.(x0 := e.offsetX, y0 := e.offsetY)
  }

  /** The dragged point's new coordinates before clamping: its pixel position
      moved by the pointer's offset from the anchor, mapped back. */
  function Candidate(s: Editor, g: Geometry, e: Pointer): Point
    requires 0 <= s.hit < |s.value| && Invertible(g)
  {
    var p := s.value[s.hit];
    Point(ToLocalX(g, FromLocalX(g, p.x) + (e.offsetX - s.x0)),
          ToLocalY(g, FromLocalY(g, p.y) + (e.offsetY - s.y0)))
  }

  /** The neighbour interval of the dragged point: the neighbours' X, or the
      ends of the X range at the ends of the series. */
  function LeftBound(s: Editor, g: Geometry): real
    requires 0 <= s.hit < |s.value|
  {
    if s.hit > 0 then s.value[s.hit - 1].x else g.rangeX.min
  }

  function RightBound(s: Editor, g: Geometry): real
    requires 0 <= s.hit < |s.value|
  {
    if s.hit < |s.value| - 1 then s.value[s.hit + 1].x else g.rangeX.max
  }

  /** A move changes something only when a point is held and the candidate X
      stays inside the closed neighbour interval. */
  predicate DragAccepted(s: Editor, g: Geometry, e: Pointer)
    requires HitValid(s) && (s.hit >= 0 ==> Invertible(g))
  {
    s.hit >= 0 && LeftBound(s, g) <= Candidate(s, g, e).x <= RightBound(s, g)
  }

  /** The state after `dragHandle(e)`. */
  function AfterDrag(s: Editor, g: Geometry, e: Pointer): (r: Editor)
    requires HitValid(s) && (s.hit >= 0 ==> Invertible(g))
    ensures HitValid(r)
  {
    if DragAccepted(s, g, e) then
      var c := Candidate(s, g, e);
      Editor(s.value[s.hit := Point(Clamp(c.x, g.rangeX.min, g.rangeX.max), Clamp(c.y, g.rangeY.min, g.rangeY.max))],
             s.hit, e.offsetX, e.offsetY)
    else s
  }

  /** The state after `dragendHandle()`. */
  function AfterDragEnd(s: Editor): (r: Editor)
    ensures HitValid(r)
    ensures r.hit == -1 && r.value == s.value
  {
    s.(hit := -1)
  }

  // ---------------------------------------------------------------------
  // Properties of one pointer-down

  /** The hit test leaves `hit` at the largest index within the radius, or keeps it
      when no point is that close. */
  lemma HitTestSpec(s: Editor, g: Geometry, ox: real, oy: real)
    ensures var h := ScanHit(g, s.value, ox, oy, s.hit);
            (exists k :: 0 <= k < |s.value| && Near(g, s.value[k], ox, oy)) ==>
              0 <= h < |s.value| && Near(g, s.value[h], ox, oy) &&
              forall k :: h < k < |s.value| ==> !Near(g, s.value[k], ox, oy)
    ensures (forall k :: 0 <= k < |s.value| ==> !Near(g, s.value[k], ox, oy)) ==>
              ScanHit(g, s.value, ox, oy, s.hit) == s.hit
  {
  }

  /** Pointer-down on an empty series changes nothing at all. */
  lemma EmptyPressSpec(s: Editor, g: Geometry, e: Pointer)
    requires HitValid(s) && (Inserts(e) ==> Invertible(g)) && |s.value| == 0
    ensures AfterDragInit(s, g, e) == s
  {
  }

  /** Shift-insert with some point at or right of the pointer: the series
      grows by one, `hit` is the first such index whatever the hit test
      found, the new entry is the clamped logical pointer, earlier entries
      stay, later ones shift by one, and the anchor becomes the pointer. */
  lemma ShiftInsertSpec(s: Editor, g: Geometry, e: Pointer)
    requires HitValid(s) && Invertible(g) && Inserts(e)
    requires exists k :: 0 <= k < |s.value| && FromLocalX(g, s.value[k].x) >= e.offsetX
    ensures var r := AfterDragInit(s, g, e);
            && |r.value| == |s.value| + 1
            && 0 <= r.hit < |s.value|
            && FromLocalX(g, s.value[r.hit].x) >= e.offsetX
            && (forall j :: 0 <= j < r.hit ==> FromLocalX(g, s.value[j].x) < e.offsetX)
            && r.value[r.hit] == Point(Clamp(ToLocalX(g, e.offsetX), g.rangeX.min, g.rangeX.max),
                                       Clamp(ToLocalY(g, e.offsetY), g.rangeY.min, g.rangeY.max))
            && (forall j :: 0 <= j < r.hit ==> r.value[j] == s.value[j])
            && (forall j :: r.hit < j < |r.value| ==> r.value[j] == s.value[j - 1])
            && r.x0 == e.offsetX && r.y0 == e.offsetY
  {
    var k := FirstRight(g, s.value, e.offsetX);
    assert k >= 0;
    var r := AfterDragInit(s, g, e);
    assert r.value == s.value[..k] + [Pointed(g, e)] + s.value[k..];
  }

  /** Shift-insert with every point left of the pointer inserts nothing and
      leaves the anchor alone; only the hit test's result remains. */
  lemma ShiftMissSpec(s: Editor, g: Geometry, e: Pointer)
    requires HitValid(s) && Invertible(g) && Inserts(e)
    requires forall k :: 0 <= k < |s.value| ==> FromLocalX(g, s.value[k].x) < e.offsetX
    ensures AfterDragInit(s, g, e) == s.(hit := ScanHit(g, s.value, e.offsetX, e.offsetY, s.hit))
  {
    if |s.value| > 0 {
      assert FirstRight(g, s.value, e.offsetX) == -1;
    } else {
      assert LastNear(g, s.value, e.offsetX, e.offsetY) == -1;
    }
  }

  /** Ctrl-delete with a hit removes exactly that entry and clears `hit`, so
      the next move is a no-op; without a hit nothing changes. */
  lemma CtrlDeleteSpec(s: Editor, g: Geometry, e: Pointer, next: Pointer)
    requires HitValid(s) && Deletes(e) && |s.value| > 0
    ensures var h := ScanHit(g, s.value, e.offsetX, e.offsetY, s.hit);
            var r := AfterDragInit(s, g, e);
            && (h >= 0 ==>
                  && |r.value| == |s.value| - 1
                  && (forall j :: 0 <= j < h ==> r.value[j] == s.value[j])
                  && (forall j :: h <= j < |r.value| ==> r.value[j] == s.value[j + 1])
                  && r.hit == -1 && r.x0 == s.x0 && r.y0 == s.y0
                  && AfterDrag(r, g, next) == r)
            && (h < 0 ==> r == s)
  {
    var t := AfterHitTest(s, g, e.offsetX, e.offsetY);
    assert AfterDragInit(s, g, e) == AfterDelete(t);
    if t.hit >= 0 {
      assert AfterDelete(t).value == s.value[..t.hit] + s.value[t.hit + 1..];
    }
  }

  /** A press with neither modifier (or both) keeps the series, records the
      hit test's result and moves the anchor to the pointer. */
  lemma PlainPressSpec(s: Editor, g: Geometry, e: Pointer)
    requires HitValid(s) && !Inserts(e) && !Deletes(e) && |s.value| > 0
    ensures AfterDragInit(s, g, e)
            == Editor(s.value, ScanHit(g, s.value, e.offsetX, e.offsetY, s.hit), e.offsetX, e.offsetY)
  {
  }

  // ---------------------------------------------------------------------
  // Properties of one pointer-move

  /** The candidate X is the old X plus the pixel offset divided by the
      X scale. */
  lemma CandidateX(s: Editor, g: Geometry, e: Pointer)
    requires 0 <= s.hit < |s.value| && Invertible(g)
    ensures Candidate(s, g, e).x == s.value[s.hit].x + (e.offsetX - s.x0) / TransformCoefficients(g).xa
    ensures Candidate(s, g, e).y == s.value[s.hit].y + (e.offsetY - s.y0) / TransformCoefficients(g).ya
  {
    var c := TransformCoefficients(g);
    var p := s.value[s.hit];
    MovedInverse(c.xa, c.xm, p.x, e.offsetX - s.x0);
    MovedInverse(c.ya, c.ym, p.y, e.offsetY - s.y0);
  }

  /** Moving the image of x under v |-> a*v + m by d and mapping back adds
      d / a to x. */
  lemma MovedInverse(a: real, m: real, x: real, d: real)
    requires a != 0.0
    ensures ((a * x + m + d) - m) / a == x + d / a
  {
    assert (a * x + m + d) - m == a * x + d;
    assert (a * x + d) / a == a * x / a + d / a;
  }

  /** A move touches only the held entry: the length and every other entry
      stay. An accepted move stores the clamped candidate and moves the
      anchor; a rejected one, or one with no point held, changes nothing. */
  lemma DragSpec(s: Editor, g: Geometry, e: Pointer)
    requires HitValid(s) && (s.hit >= 0 ==> Invertible(g))
    ensures var r := AfterDrag(s, g, e);
            && |r.value| == |s.value| && r.hit == s.hit
            && (forall j :: 0 <= j < |s.value| && j != s.hit ==> r.value[j] == s.value[j])
            && (DragAccepted(s, g, e) ==>
                  && r.value[s.hit] == Point(Clamp(Candidate(s, g, e).x, g.rangeX.min, g.rangeX.max),
                                             Clamp(Candidate(s, g, e).y, g.rangeY.min, g.rangeY.max))
                  && r.x0 == e.offsetX && r.y0 == e.offsetY)
            && (!DragAccepted(s, g, e) ==> r == s)
  {
  }

  // ---------------------------------------------------------------------
  // The series stays ordered by X and inside the ranges

  /** X coordinates are non-decreasing along the series. */
  predicate Ordered(vs: seq<Point>) {
    forall i, j :: 0 <= i < j < |vs| ==> vs[i].x <= vs[j].x
  }

  /** Every entry lies inside both ranges. */
  predicate InRanges(g: Geometry, vs: seq<Point>) {
    forall i :: 0 <= i < |vs| ==>
      g.rangeX.min <= vs[i].x <= g.rangeX.max && g.rangeY.min <= vs[i].y <= g.rangeY.max
  }

  lemma InsertKeepsOrder(vs: seq<Point>, k: nat, p: Point)
    requires Ordered(vs) && k <= |vs|
    requires k > 0 ==> vs[k - 1].x <= p.x
    requires k < |vs| ==> p.x <= vs[k].x
    ensures Ordered(InsertAt(vs, k, p))
  {
    var ws := InsertAt(vs, k, p);
    forall i, j | 0 <= i < j < |ws| ensures ws[i].x <= ws[j].x {
      if j < k {
        assert ws[i] == vs[i] && ws[j] == vs[j];
      } else if j == k {
        assert ws[j] == p;
        if i < k { assert ws[i] == vs[i] && vs[i].x <= vs[k - 1].x; }
      } else if i == k {
        assert ws[i] == p && ws[j] == vs[j - 1] && vs[k].x <= vs[j - 1].x;
      } else if i < k {
        assert ws[i] == vs[i] && ws[j] == vs[j - 1];
      } else {
        assert ws[i] == vs[i - 1] && ws[j] == vs[j - 1];
      }
    }
  }

  lemma RemoveKeepsOrder(g: Geometry, vs: seq<Point>, k: nat)
    requires Ordered(vs) && InRanges(g, vs) && k < |vs|
    ensures Ordered(RemoveAt(vs, k)) && InRanges(g, RemoveAt(vs, k))
  {
    var ws := RemoveAt(vs, k);
    assert forall i :: 0 <= i < |ws| ==> ws[i] == if i < k then vs[i] else vs[i + 1];
  }

  /** The clamped pointer lands between the entries around the insertion
      index, when X rises with pixel X. */
  lemma PointedBetween(g: Geometry, vs: seq<Point>, e: Pointer)
    requires Sane(g) && Invertible(g) && Ordered(vs) && InRanges(g, vs)
    requires FirstRight(g, vs, e.offsetX) >= 0
    ensures var k := FirstRight(g, vs, e.offsetX);
            && (k > 0 ==> vs[k - 1].x <= Pointed(g, e).x)
            && Pointed(g, e).x <= vs[k].x
  {
    SaneSigns(g);
    var k := FirstRight(g, vs, e.offsetX);
    var t := ToLocalX(g, e.offsetX);
    ToLocalXOrder(g, vs[k].x, e.offsetX);
    ClampMonotone(t, vs[k].x, g.rangeX.min, g.rangeX.max);
    if k > 0 {
      ToLocalXOrder(g, vs[k - 1].x, e.offsetX);
      ClampMonotone(vs[k - 1].x, t, g.rangeX.min, g.rangeX.max);
    }
  }

  /** A shift-insert keeps the series ordered by X and inside the ranges. */
  lemma InsertKeepsOrderAndRanges(g: Geometry, vs: seq<Point>, e: Pointer)
    requires Sane(g) && Invertible(g) && Ordered(vs) && InRanges(g, vs)
    requires FirstRight(g, vs, e.offsetX) >= 0
    ensures Ordered(InsertAt(vs, FirstRight(g, vs, e.offsetX), Pointed(g, e)))
    ensures InRanges(g, InsertAt(vs, FirstRight(g, vs, e.offsetX), Pointed(g, e)))
  {
    var k := FirstRight(g, vs, e.offsetX);
    var p := Pointed(g, e);
    PointedBetween(g, vs, e);
    InsertKeepsOrder(vs, k, p);
    InsertKeepsRanges(g, vs, k, p);
  }

  lemma InsertKeepsRanges(g: Geometry, vs: seq<Point>, k: nat, p: Point)
    requires InRanges(g, vs) && k <= |vs|
    requires g.rangeX.min <= p.x <= g.rangeX.max && g.rangeY.min <= p.y <= g.rangeY.max
    ensures InRanges(g, InsertAt(vs, k, p))
  {
    var ws := InsertAt(vs, k, p);
    assert forall i :: 0 <= i < |ws| ==> ws[i] == if i < k then vs[i] else if i == k then p else vs[i - 1];
  }

  /** Pointer-down keeps the series ordered by X and inside the ranges. */
  lemma DragInitKeepsOrder(s: Editor, g: Geometry, e: Pointer)
    requires HitValid(s) && Sane(g) && Invertible(g) && Ordered(s.value) && InRanges(g, s.value)
    ensures Ordered(AfterDragInit(s, g, e).value) && InRanges(g, AfterDragInit(s, g, e).value)
  {
    if |s.value| > 0 {
      var h := ScanHit(g, s.value, e.offsetX, e.offsetY, s.hit);
      if Inserts(e) && FirstRight(g, s.value, e.offsetX) >= 0 {
        InsertKeepsOrderAndRanges(g, s.value, e);
      } else if Deletes(e) && h >= 0 {
        RemoveKeepsOrder(g, s.value, h);
      }
    }
  }

  /** Pointer-move keeps the series ordered by X and inside the ranges: the
      stored X lies between the neighbours. */
  lemma DragKeepsOrder(s: Editor, g: Geometry, e: Pointer)
    requires HitValid(s) && Invertible(g) && Ordered(s.value) && InRanges(g, s.value)
    requires g.rangeX.min <= g.rangeX.max && g.rangeY.min <= g.rangeY.max
    ensures Ordered(AfterDrag(s, g, e).value) && InRanges(g, AfterDrag(s, g, e).value)
  {
    if DragAccepted(s, g, e) {
      var h := s.hit;
      var c := Candidate(s, g, e);
      var x := Clamp(c.x, g.rangeX.min, g.rangeX.max);
      ClampMonotone(LeftBound(s, g), c.x, g.rangeX.min, g.rangeX.max);
      ClampMonotone(c.x, RightBound(s, g), g.rangeX.min, g.rangeX.max);
      assert LeftBound(s, g) <= x <= RightBound(s, g);
      var vs := s.value;
      var ws := AfterDrag(s, g, e).value;
      forall i, j | 0 <= i < j < |ws| ensures ws[i].x <= ws[j].x {
        if j == h {
          assert vs[i].x <= vs[h - 1].x;
        } else if i == h {
          assert vs[h + 1].x <= vs[j].x;
        }
      }
    }
  }

  // ---------------------------------------------------------------------
  // Whole gestures

  /** One pointer event: down, move, or up. */
  datatype Event = Down(down: Pointer) | Move(move: Pointer) | Up

  function Step(s: Editor, g: Geometry, ev: Event): (r: Editor)
    requires HitValid(s) && Invertible(g)
    ensures HitValid(r)
  {
    match ev
    case Down(e) => AfterDragInit(s, g, e)
    case Move(e) => AfterDrag(s, g, e)
    case Up => AfterDragEnd(s)
  }

  /** The state after a sequence of pointer events. */
  function Replay(s: Editor, g: Geometry, evs: seq<Event>): (r: Editor)
    requires HitValid(s) && Invertible(g)
    ensures HitValid(r)
    decreases |evs|
  {
    if evs == [] then s else Replay(Step(s, g, evs[0]), g, evs[1..])
  }

  /** Any sequence of presses, moves and releases keeps an ordered in-range
      series ordered and in range, with `hit` a valid index or -1. */
  lemma {:induction false} ReplayKeepsOrder(s: Editor, g: Geometry, evs: seq<Event>)
    requires HitValid(s) && Sane(g) && Invertible(g) && Ordered(s.value) && InRanges(g, s.value)
    ensures Ordered(Replay(s, g, evs).value) && InRanges(g, Replay(s, g, evs).value)
    decreases |evs|
  {
    if evs != [] {
      StepKeepsOrder(s, g, evs[0]);
      ReplayKeepsOrder(Step(s, g, evs[0]), g, evs[1..]);
    }
  }

  lemma StepKeepsOrder(s: Editor, g: Geometry, ev: Event)
    requires HitValid(s) && Sane(g) && Invertible(g) && Ordered(s.value) && InRanges(g, s.value)
    ensures Ordered(Step(s, g, ev).value) && InRanges(g, Step(s, g, ev).value)
  {
    match ev
    case Down(e) => DragInitKeepsOrder(s, g, e);
    case Move(e) => DragKeepsOrder(s, g, e);
    case Up =>
  }

  /** Pointer-up always clears `hit` and never touches the series. */
  lemma DragEndSpec(s: Editor, g: Geometry, e: Pointer)
    requires HitValid(s) && Invertible(g)
    ensures AfterDragEnd(s).hit == -1 && AfterDragEnd(s).value == s.value
    ensures Replay(s, g, [Up, Move(e)]) == AfterDragEnd(s)
  {
    var t := AfterDragEnd(s);
    assert [Up, Move(e)][1..] == [Move(e)];
    assert AfterDrag(t, g, e) == t;
    assert Replay(t, g, [Move(e)]) == Replay(t, g, []);
  }

  lemma ScenarioCoefficients(g: Geometry)
    requires g == Geometry(1.0, 9.0, 100.0, 100.0, Range(0.0, 1.0), Range(0.0, 1.0))
    ensures TransformCoefficients(g) == Coefficients(80.0, 10.0, -76.0, 88.0)
  {
    CoefficientsClosedForm(g);
  }

  /** The series [[0,0],[0.5,0.8],[1,0.2]] on the unit ranges in a 100 by 100
      canvas with total padding 10, the middle point held with the anchor on
      it: moving 20 pixels right puts it at x = 0.75; moving 50 pixels right
      would pass the right neighbour, so the move is rejected. */
  lemma DragScenario()
    ensures var g := Geometry(1.0, 9.0, 100.0, 100.0, Range(0.0, 1.0), Range(0.0, 1.0));
            var s := Editor([Point(0.0, 0.0), Point(0.5, 0.8), Point(1.0, 0.2)], 1, 50.0, 27.2);
            && FromLocalX(g, 0.5) == 50.0
            && AfterDrag(s, g, Pointer(70.0, 27.2, false, false)).value[1] == Point(0.75, 0.8)
            && AfterDrag(s, g, Pointer(100.0, 27.2, false, false)) == s
  {
    var g := Geometry(1.0, 9.0, 100.0, 100.0, Range(0.0, 1.0), Range(0.0, 1.0));
    var s := Editor([Point(0.0, 0.0), Point(0.5, 0.8), Point(1.0, 0.2)], 1, 50.0, 27.2);
    ScenarioCoefficients(g);
    var e1 := Pointer(70.0, 27.2, false, false);
    var e2 := Pointer(100.0, 27.2, false, false);
    assert FromLocalX(g, 0.5) == 50.0 && FromLocalY(g, 0.8) == 27.2;
    assert ToLocalX(g, 70.0) == 0.75 && ToLocalX(g, 100.0) == 1.125 && ToLocalY(g, 27.2) == 0.8;
    assert Candidate(s, g, e1) == Point(0.75, 0.8);
    assert Candidate(s, g, e2).x == 1.125;
  }
}
