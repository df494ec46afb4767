/**
  The walk that both colour-grid generators perform: three nested half-open
  ranges, `a` outermost, `b` in the middle, `c` innermost, emitting one value
  per cell into a growing vector. `Cells` is the specification of that walk;
  the lemmas below say how long it is and where each cell lands.
*/
module GridWalk {

  /** The three loop ranges `0..aHi`, `bLo..bHi` and `cLo..cHi`. As with
      Rust's `lo..hi`, a range whose end is at or below its start is empty. */
  datatype Ranges = Ranges(aHi: int, bLo: int, bHi: int, cLo: int, cHi: int)

  /** Number of values in the half-open range `lo..hi`. */
  function Width(lo: int, hi: int): nat {
    if hi <= lo then 0 else hi - lo
  }

  /** Number of cells the walk visits. */
  function Count(r: Ranges): nat {
    Width(0, r.aHi) * PlaneSize(r)
  }

  /** Number of cells visited for one value of `a`. */
  function PlaneSize(r: Ranges): nat {
    Width(r.bLo, r.bHi) * Width(r.cLo, r.cHi)
  }

  /** `(a, b, c)` is a cell the walk visits. */
  predicate InRanges(r: Ranges, a: int, b: int, c: int) {
    0 <= a < r.aHi && r.bLo <= b < r.bHi && r.cLo <= c < r.cHi
  }

  /** The position of cell `(a, b, c)` in row-major order (a, then b, then c). */
  function Position(r: Ranges, a: int, b: int, c: int): int {
    (a * Width(r.bLo, r.bHi) + (b - r.bLo)) * Width(r.cLo, r.cHi) + (c - r.cLo)
  }

  /** The innermost loop: cells `(a, b, c)` for `c` in `cLo..cHi`. */
  function Line<T>(f: (int, int, int) -> T, a: int, b: int, cLo: int, cHi: int): (s: seq<T>)
    ensures |s| == Width(cLo, cHi)
    decreases cHi - cLo
  {
    if cHi <= cLo then [] else Line(f, a, b, cLo, cHi - 1) + [f(a, b, cHi - 1)]
  }

  /** The middle loop run for `b` in `r.bLo..bHi`, at a fixed `a`. */
  function Plane<T>(f: (int, int, int) -> T, a: int, r: Ranges, bHi: int): seq<T>
    decreases bHi - r.bLo
  {
    if bHi <= r.bLo then [] else Plane(f, a, r, bHi - 1) + Line(f, a, bHi - 1, r.cLo, r.cHi)
  }

  /** The outer loop run for `a` in `0..aHi`. */
  function Walk<T>(f: (int, int, int) -> T, r: Ranges, aHi: int): seq<T>
    decreases aHi
  {
    if aHi <= 0 then [] else Walk(f, r, aHi - 1) + Plane(f, aHi - 1, r, r.bHi)
  }

  /** Every value the three nested loops emit, in emission order. */
  function Cells<T>(f: (int, int, int) -> T, r: Ranges): (s: seq<T>)
    ensures |s| == Count(r)
  {
    WalkLength(f, r, r.aHi);
    Walk(f, r, r.aHi)
  }

  /** The three nested loops themselves: `for a in 0..aHi { for b in bLo..bHi
      { for c in cLo..cHi { out.push(f(a, b, c)) } } }`. */
  method Collect<T>(f: (int, int, int) -> T, r: Ranges) returns (out: seq<T>)
    ensures out == Cells(f, r)
  {
    out := [];
    var a := 0;
    while a < r.aHi
      invariant 0 <= a && (a <= r.aHi || a == 0)
      invariant out == Walk(f, r, a)
    {
      out := PushPlane(f, a, r, out);
      a := a + 1;
    }
  }

  /** The middle loop, run once for a fixed `a`, appending to `out`. */
  method PushPlane<T>(f: (int, int, int) -> T, a: int, r: Ranges, out: seq<T>) returns (out': seq<T>)
    ensures out' == out + Plane(f, a, r, r.bHi)
  {
    out' := out;
    var b := r.bLo;
    while b < r.bHi
      invariant r.bLo <= b && (b <= r.bHi || b == r.bLo)
      invariant out' == out + Plane(f, a, r, b)
    {
      AppendAssoc(out, Plane(f, a, r, b), Line(f, a, b, r.cLo, r.cHi));
      out' := PushLine(f, a, b, r, out');
      b := b + 1;
    }
  }

  /** The innermost loop, run once for a fixed `a` and `b`, appending to `out`. */
  method PushLine<T>(f: (int, int, int) -> T, a: int, b: int, r: Ranges, out: seq<T>) returns (out': seq<T>)
    ensures out' == out + Line(f, a, b, r.cLo, r.cHi)
  {
    out' := out;
    var c := r.cLo;
    while c < r.cHi
      invariant r.cLo <= c && (c <= r.cHi || c == r.cLo)
      invariant out' == out + Line(f, a, b, r.cLo, c)
    {
      var x := f(a, b, c);
      AppendAssoc(out, Line(f, a, b, r.cLo, c), [x]);
      out' := out' + [x];
      c := c + 1;
    }
  }

  lemma {:induction false} PlaneLength<T>(f: (int, int, int) -> T, a: int, r: Ranges, bHi: int)
    ensures |Plane(f, a, r, bHi)| == Width(r.bLo, bHi) * Width(r.cLo, r.cHi)
    decreases bHi - r.bLo
  {
    if bHi > r.bLo {
      PlaneLength(f, a, r, bHi - 1);
      MulSucc(bHi - 1 - r.bLo, Width(r.cLo, r.cHi));
    }
  }

  /** The walk emits exactly one value per cell. */
  lemma {:induction false} WalkLength<T>(f: (int, int, int) -> T, r: Ranges, aHi: int)
    ensures |Walk(f, r, aHi)| == Width(0, aHi) * PlaneSize(r)
    decreases aHi
  {
    if aHi > 0 {
      WalkLength(f, r, aHi - 1);
      PlaneLength(f, aHi - 1, r, r.bHi);
      MulSucc(aHi - 1, PlaneSize(r));
    }
  }

  lemma AppendAssoc<T>(x: seq<T>, y: seq<T>, z: seq<T>)
    ensures (x + y) + z == x + (y + z)
  {
  }

  lemma MulAssoc(x: int, y: int, z: int)
    ensures x * y * z == x * (y * z)
  {
  }

  lemma MulSucc(x: int, w: int)
    ensures (x + 1) * w == x * w + w
  {
  }

  lemma {:induction false} LineAt<T>(f: (int, int, int) -> T, a: int, b: int, cLo: int, cHi: int, c: int)
    requires cLo <= c < cHi
    ensures Line(f, a, b, cLo, cHi)[c - cLo] == f(a, b, c)
    decreases cHi - cLo
  {
    if c < cHi - 1 {
      LineAt(f, a, b, cLo, cHi - 1, c);
    }
  }

  lemma {:induction false} PlaneAt<T>(f: (int, int, int) -> T, a: int, r: Ranges, bHi: int, b: int, c: int)
    requires r.bLo <= b < bHi && r.cLo <= c < r.cHi
    ensures 0 <= (b - r.bLo) * Width(r.cLo, r.cHi) + (c - r.cLo) < |Plane(f, a, r, bHi)|
    ensures Plane(f, a, r, bHi)[(b - r.bLo) * Width(r.cLo, r.cHi) + (c - r.cLo)] == f(a, b, c)
    decreases bHi - r.bLo
  {
    var w := Width(r.cLo, r.cHi);
    var prefix := Plane(f, a, r, bHi - 1);
    var i := (b - r.bLo) * w + (c - r.cLo);
    var line := Line(f, a, bHi - 1, r.cLo, r.cHi);
    assert Plane(f, a, r, bHi) == prefix + line;
    PlaneLength(f, a, r, bHi - 1);
    PlaneLength(f, a, r, bHi);
    assert |prefix| == (bHi - 1 - r.bLo) * w;
    PlaneSlotBound(b - r.bLo, c - r.cLo, bHi - r.bLo, w);
    if b < bHi - 1 {
      PlaneAt(f, a, r, bHi - 1, b, c);
      PlaneSlotBound(b - r.bLo, c - r.cLo, bHi - 1 - r.bLo, w);
      assert (prefix + line)[i] == prefix[i];
      assert Plane(f, a, r, bHi)[i] == f(a, b, c);
    } else {
      LineAt(f, a, b, r.cLo, r.cHi, c);
      assert i == |prefix| + (c - r.cLo);
      assert (prefix + line)[i] == line[c - r.cLo];
      assert Plane(f, a, r, bHi)[i] == f(a, b, c);
    }
  }

  /** Cell `(a, b, c)` is emitted at `Position(r, a, b, c)`: the walk is in
      row-major order with `a` outer, `b` middle and `c` inner. */
  lemma WalkAt<T>(f: (int, int, int) -> T, r: Ranges, aHi: int, a: int, b: int, c: int)
    requires 0 <= a < aHi && r.bLo <= b < r.bHi && r.cLo <= c < r.cHi
    ensures 0 <= Position(r, a, b, c) < |Walk(f, r, aHi)|
    ensures Walk(f, r, aHi)[Position(r, a, b, c)] == f(a, b, c)
  {
    var inner := (b - r.bLo) * Width(r.cLo, r.cHi) + (c - r.cLo);
    PlaneSlotBound(b - r.bLo, c - r.cLo, Width(r.bLo, r.bHi), Width(r.cLo, r.cHi));
    PositionSplit(r, a, b, c);
    WalkSlot(f, r, aHi, a, inner);
    PlaneAt(f, a, r, r.bHi, b, c);
  }

  /** Slot `inner` of the plane for `a` sits `a` whole planes into the walk. */
  lemma {:induction false} WalkSlot<T>(f: (int, int, int) -> T, r: Ranges, aHi: int, a: int, inner: int)
    requires 0 <= a < aHi && 0 <= inner < PlaneSize(r)
    ensures 0 <= inner < |Plane(f, a, r, r.bHi)|
    ensures 0 <= a * PlaneSize(r) + inner < |Walk(f, r, aHi)|
    ensures Walk(f, r, aHi)[a * PlaneSize(r) + inner] == Plane(f, a, r, r.bHi)[inner]
    decreases aHi
  {
    var size := PlaneSize(r);
    var prefix := Walk(f, r, aHi - 1);
    var plane := Plane(f, aHi - 1, r, r.bHi);
    var i := a * size + inner;
    assert Walk(f, r, aHi) == prefix + plane;
    WalkLength(f, r, aHi - 1);
    PlaneLength(f, aHi - 1, r, r.bHi);
    PlaneLength(f, a, r, r.bHi);
    assert |prefix| == (aHi - 1) * size;
    if a < aHi - 1 {
      WalkSlot(f, r, aHi - 1, a, inner);
      MulStep(a, aHi - 1, size);
      assert (prefix + plane)[i] == prefix[i];
    } else {
      assert i == |prefix| + inner;
      assert (prefix + plane)[i] == plane[inner];
    }
  }

  lemma PositionSplit(r: Ranges, a: int, b: int, c: int)
    ensures Position(r, a, b, c) ==
              a * (Width(r.bLo, r.bHi) * Width(r.cLo, r.cHi)) + ((b - r.bLo) * Width(r.cLo, r.cHi) + (c - r.cLo))
  {
    var wb, wc := Width(r.bLo, r.bHi), Width(r.cLo, r.cHi);
    assert (a * wb + (b - r.bLo)) * wc == (a * wb) * wc + (b - r.bLo) * wc;
    assert (a * wb) * wc == a * (wb * wc);
  }

  /** Every visited cell appears in `Cells` at its row-major position. */
  lemma CellsAt<T>(f: (int, int, int) -> T, r: Ranges, a: int, b: int, c: int)
    requires InRanges(r, a, b, c)
    ensures 0 <= Position(r, a, b, c) < |Cells(f, r)|
    ensures Cells(f, r)[Position(r, a, b, c)] == f(a, b, c)
  {
    WalkAt(f, r, r.aHi, a, b, c);
  }

  /** Row-major order: cells earlier in the lexicographic order of
      `(a, b, c)` come out earlier, and distinct cells never share a slot. */
  lemma PositionOrder(r: Ranges, a: int, b: int, c: int, a': int, b': int, c': int)
    requires InRanges(r, a, b, c) && InRanges(r, a', b', c')
    ensures Position(r, a, b, c) < Position(r, a', b', c') <==>
              a < a' || (a == a' && (b < b' || (b == b' && c < c')))
  {
    var wb, wc := Width(r.bLo, r.bHi), Width(r.cLo, r.cHi);
    var inner, inner' := (b - r.bLo) * wc + (c - r.cLo), (b' - r.bLo) * wc + (c' - r.cLo);
    PlaneSlotBound(b - r.bLo, c - r.cLo, wb, wc);
    PlaneSlotBound(b' - r.bLo, c' - r.cLo, wb, wc);
    PositionSplit(r, a, b, c);
    PositionSplit(r, a', b', c');
    if a < a' {
      MulStep(a, a', wb * wc);
    } else if a' < a {
      MulStep(a', a, wb * wc);
    } else if b < b' {
      MulStep(b - r.bLo, b' - r.bLo, wc);
    } else if b' < b {
      MulStep(b' - r.bLo, b - r.bLo, wc);
    }
  }

  lemma PlaneSlotBound(i: int, j: int, wb: int, wc: int)
    requires 0 <= i < wb && 0 <= j < wc
    ensures 0 <= i * wc + j < wb * wc
  {
    MulStep(i, wb, wc);
  }

  lemma MulStep(x: int, y: int, w: int)
    requires x < y && 0 <= w
    ensures x * w + w <= y * w
  {
    var d := y - x - 1;
    assert d * w >= 0;
    assert y * w == x * w + w + d * w;
  }
}
