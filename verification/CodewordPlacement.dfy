/** Drawing the codeword bits into the modules that no function pattern occupies, and reading them back. */
module CodewordPlacement {
  import opened BitBuffer
  import opened Grids
  import opened Zigzag

  /** Column 6 holds a timing pattern. */
  ghost predicate FunctionGrid(f: Grid, n: nat) {
    Square(f, n) && ValidSize(n) && forall y :: 0 <= y < n ==> f[y][6]
  }

  /** The free modules met in the first t steps of the scan, in order. */
  function DataCoords(f: Grid, n: nat, t: nat): (cs: seq<Coord>)
    requires Square(f, n) && ValidSize(n) && t <= Steps(n)
  {
    if t == 0 then []
    else
      var c := Visit(n, t - 1);
      DataCoords(f, n, t - 1) + (if f[c.y][c.x] then [] else [c])
  }

  lemma {:induction false} DataCoordsShape(f: Grid, n: nat, t: nat)
    requires Square(f, n) && ValidSize(n) && t <= Steps(n)
    ensures AllInGrid(DataCoords(f, n, t), n) && Distinct(DataCoords(f, n, t))
    ensures forall k :: 0 <= k < |DataCoords(f, n, t)| ==>
              var c := DataCoords(f, n, t)[k]; c.x != 6 && StepOf(n, c) < t && !f[c.y][c.x]
  {
    hide Visit, StepOf, Steps;
    if t > 0 {
      DataCoordsShape(f, n, t - 1);
      StepVisit(n, t - 1);
    }
  }

  lemma {:induction false} DataCoordsPrefix(f: Grid, n: nat, t: nat, u: nat)
    requires Square(f, n) && ValidSize(n) && t <= u <= Steps(n)
    ensures DataCoords(f, n, t) <= DataCoords(f, n, u)
  {
    hide Visit, Steps;
    if t < u {
      DataCoordsPrefix(f, n, t, u - 1);
    }
  }

  /** Every free module is used for data. */
  lemma {:induction false} FreeModuleUsed(f: Grid, n: nat, c: Coord, t: nat)
    requires FunctionGrid(f, n) && InGrid(c, n) && !f[c.y][c.x]
    requires StepOf(n, c) < t <= Steps(n)
    ensures c in DataCoords(f, n, t)
  {
    hide Visit, StepOf, Steps;
    VisitStep(n, c);
    if StepOf(n, c) < t - 1 {
      FreeModuleUsed(f, n, c, t - 1);
    }
  }

  /** All the modules that carry codeword or remainder bits, in the order of the scan. */
  function AllDataCoords(f: Grid, n: nat): (cs: seq<Coord>)
    requires Square(f, n) && ValidSize(n)
    ensures AllInGrid(cs, n) && Distinct(cs)
  {
    DataCoordsShape(f, n, Steps(n));
    DataCoords(f, n, Steps(n))
  }

  /** The modules come in the order of the scan, and the first one scanned is the first of them if it is free. */
  lemma {:induction false} DataCoordsInOrder(f: Grid, n: nat, t: nat)
    requires Square(f, n) && ValidSize(n) && 0 < t <= Steps(n)
    ensures forall c :: c in DataCoords(f, n, t) ==> InGrid(c, n) && c.x != 6
    ensures forall i, j :: 0 <= i < j < |DataCoords(f, n, t)| ==>
              StepOf(n, DataCoords(f, n, t)[i]) < StepOf(n, DataCoords(f, n, t)[j])
    ensures !f[Visit(n, 0).y][Visit(n, 0).x] ==> DataCoords(f, n, t) != [] && DataCoords(f, n, t)[0] == Visit(n, 0)
  {
    hide Visit, StepOf, Steps;
    DataCoordsShape(f, n, t - 1);
    StepVisit(n, t - 1);
    if t == 1 {
      assert DataCoords(f, n, 0) == [];
    } else {
      DataCoordsInOrder(f, n, t - 1);
    }
  }

  function Min(a: nat, b: nat): nat {
    if a < b then a else b
  }

  /** The grid after t steps of drawing. */
  ghost function Drawn(f: Grid, n: nat, t: nat, bits: seq<bool>): (g: Grid)
    requires Square(f, n) && ValidSize(n) && t <= Steps(n)
    ensures Square(g, n)
  {
    DataCoordsShape(f, n, t);
    var cs := DataCoords(f, n, t);
    Write(f, n, cs, bits[..Min(|cs|, |bits|)])
  }

  /** The module about to be visited still has its initial colour ... */
  lemma NotYetDrawn(f: Grid, n: nat, t: nat, bits: seq<bool>)
    requires Square(f, n) && ValidSize(n) && t < Steps(n)
    ensures var c := Visit(n, t); Drawn(f, n, t, bits)[c.y][c.x] == f[c.y][c.x]
  {
    hide Visit, StepOf, Steps, DataCoords;
    DataCoordsShape(f, n, t);
    StepVisit(n, t);
    var cs := DataCoords(f, n, t);
    WriteElsewhere(f, n, cs, bits[..Min(|cs|, |bits|)], Visit(n, t));
  }

  /** ... and one step writes the next bit there if the module is free and bits are left. */
  lemma DrawnStep(f: Grid, n: nat, t: nat, bits: seq<bool>)
    requires Square(f, n) && ValidSize(n) && t < Steps(n)
    ensures var c, k := Visit(n, t), |DataCoords(f, n, t)|;
            Drawn(f, n, t + 1, bits)
            == if !f[c.y][c.x] && k < |bits| then Set(Drawn(f, n, t, bits), n, c.x, c.y, bits[k]) else Drawn(f, n, t, bits)
  {
    hide Visit, Steps, StepOf, Set, Write;
    DataCoordsShape(f, n, t);
    DataCoordsShape(f, n, t + 1);
    var c := Visit(n, t);
    var cs, ds := DataCoords(f, n, t), DataCoords(f, n, t + 1);
    assert ds == cs + (if f[c.y][c.x] then [] else [c]);
    hide DataCoords;
    var before, after := bits[..Min(|cs|, |bits|)], bits[..Min(|ds|, |bits|)];
    WritePrefix(f, n, cs, ds, before);
    if !f[c.y][c.x] && |cs| < |bits| {
      assert after[..|cs|] == before;
      WriteSnoc(f, n, ds, after);
    } else {
      assert after == before;
    }
  }

  lemma NextStep(n: nat, p: nat, rest: nat)
    ensures Step(n, p, rest) + 1 == Step(n, p, rest + 1)
    ensures Step(n, p, 2 * n) == Step(n, p + 1, 0)
    ensures Step(n, 0, 0) == 0
    ensures n > 0 ==> Steps(n) == Step(n, (n - 1) / 2, 0)
  {
    assert (p + 1) * (2 * n) == p * (2 * n) + 2 * n;
  }

  /** After t steps the buffer s shows the grid drawn so far, and i bits have been used. */
  ghost predicate Progress(s: seq<bv8>, f: Grid, n: nat, t: nat, bits: seq<bool>, i: nat) {
    Sized(s, n) && Square(f, n) && t <= Steps(n)
    && GridOf(s, n) == Drawn(f, n, t, bits) && i == Min(|DataCoords(f, n, t)|, |bits|)
  }

  /** The visit of one module inside the three loops. */
  method DrawModule(data: array<bv8>, dataLen: nat, q: array<bv8>, n: nat, x: nat, y: nat, i: nat,
                    ghost f: Grid, ghost t: nat, ghost bits: seq<bool>)
    returns (i': nat)
    requires data != q && dataLen <= data.Length && bits == BitsOf(data[..dataLen])
    requires Progress(q[..], f, n, t, bits, i) && t < Steps(n) && Visit(n, t) == Coord(x, y)
    modifies q
    ensures Progress(q[..], f, n, t + 1, bits, i')
  {
    hide GridOf, Set, Drawn, Visit, Steps, BitAt, BufferLen;
    i' := i;
    NotYetDrawn(f, n, t, bits);
    DrawnStep(f, n, t, bits);
    var occupied := GetModuleBounded(q, n, x, y);
    if !occupied && i < dataLen * 8 {
      var dark := BitAt(data[..], i);
      assert dark == bits[i] by { BitAtInside(data[..], dataLen, i); }
      SetModuleBounded(q, n, x, y, dark);
      i' := i + 1;
    }
  }

  lemma BitAtInside(s: seq<bv8>, len: nat, i: nat)
    requires len <= |s| && i < 8 * len
    ensures BitsOf(s[..len])[i] == BitAt(s, i)
  {
    hide Bits.Bit;
  }

  method DrawCodewords(data: array<bv8>, dataLen: nat, q: array<bv8>, n: nat)
    requires Sized(q[..], n) && data != q && dataLen <= data.Length
    requires 8 * dataLen <= |AllDataCoords(GridOf(q[..], n), n)|
    modifies q
    ensures Sized(q[..], n)
    ensures GridOf(q[..], n)
         == Write(old(GridOf(q[..], n)), n, AllDataCoords(old(GridOf(q[..], n)), n), BitsOf(data[..dataLen]))
  {
    hide GridOf, Set, Drawn, Visit, Steps, Step, BitsOf, BufferLen, Write, Row, Upward, DataCoords, Progress;
    ghost var f, bits := GridOf(q[..], n), BitsOf(data[..dataLen]);
    var i := 0;
    var right: int := n - 1;
    ghost var p := 0;
    NextStep(n, 0, 0);
    DrawnStart(q[..], f, n, bits);
    while right >= 1
      invariant 0 <= p <= (n - 1) / 2
      invariant right == if n - 1 - 2 * p >= 6 then n - 1 - 2 * p else n - 2 - 2 * p
      invariant Progress(q[..], f, n, Step(n, p, 0), bits, i)
      decreases right
    {
      if right == 6 {
        right := 5;
      }
      assert right == RightColumn(n, p);
      for vert := 0 to n
        invariant Progress(q[..], f, n, Step(n, p, 2 * vert), bits, i)
      {
        for j := 0 to 2
          invariant Progress(q[..], f, n, Step(n, p, 2 * vert + j), bits, i)
        {
          VisitParts(n, p, vert, j);
          NextStep(n, p, 2 * vert + j);
          var x := right - j;
          var y := Row(n, right, vert);
          i := DrawModule(data, dataLen, q, n, x, y, i, f, Step(n, p, 2 * vert + j), bits);
        }
      }
      NextStep(n, p, 2 * n);
      p := p + 1;
      right := right - 2;
    }
    DrawnAll(q[..], f, n, bits, i);
  }

  lemma DrawnStart(s: seq<bv8>, f: Grid, n: nat, bits: seq<bool>)
    requires Sized(s, n) && f == GridOf(s, n)
    ensures Progress(s, f, n, 0, bits, 0)
  {
    hide GridOf, BufferLen;
  }

  lemma {:induction false} DrawnAll(s: seq<bv8>, f: Grid, n: nat, bits: seq<bool>, i: nat)
    requires ValidSize(n) && Progress(s, f, n, Steps(n), bits, i) && |bits| <= |AllDataCoords(f, n)|
    ensures Sized(s, n) && GridOf(s, n) == Write(f, n, AllDataCoords(f, n), bits)
  {
    hide Visit, Steps, Write, DataCoords, GridOf, BufferLen;
    assert bits[..|bits|] == bits;
  }

  /** Reading the modules in the order of the scan recovers the codeword bits. */
  lemma ReadWritten(f: Grid, n: nat, bits: seq<bool>)
    requires Square(f, n) && ValidSize(n) && |bits| <= |AllDataCoords(f, n)|
    ensures Read(Write(f, n, AllDataCoords(f, n), bits), n, AllDataCoords(f, n)[..|bits|]) == bits
  {
    hide AllDataCoords, Write;
    var cs := AllDataCoords(f, n);
    forall k | 0 <= k < |bits| ensures Write(f, n, cs, bits)[cs[k].y][cs[k].x] == bits[k] {
      WriteThere(f, n, cs, bits, k);
    }
  }
}
