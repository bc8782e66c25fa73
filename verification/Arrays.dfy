/** Binary arrays: the recursive JSON printer of internal/types/array.go and the slice readers of
    pg2json/scan.go, both against nested lists read off the row-major element stream. */
module Arrays {
  import opened Bytes
  import opened Escape
  import opened Rows

  // ---- Nested lists ----

  datatype Nest = Item(cell: Cell) | List(items: seq<Nest>)

  function Product(dims: seq<nat>): nat { if dims == [] then 1 else dims[0] * Product(dims[1..]) }

  // The cells in row-major order, nested by the dimensions.
  function Nested(dims: seq<nat>, cells: seq<Cell>): Nest
    requires |cells| == Product(dims)
    decreases 2 * |dims|, 0
  {
    if dims == [] then Item(cells[0]) else List(Kids(dims[0], dims[1..], cells))
  }

  function Kids(n: nat, rest: seq<nat>, cells: seq<Cell>): (kids: seq<Nest>)
    requires |cells| == n * Product(rest)
    ensures |kids| == n
    decreases 2 * |rest| + 1, n
  {
    if n == 0 then []
    else
      var m := |cells| - Product(rest);
      LessOne(n, Product(rest));
      Kids(n - 1, rest, cells[..m]) + [Nested(rest, cells[m..])]
  }

  lemma LessOne(n: nat, p: nat)
    requires n > 0
    ensures n * p - p == (n - 1) * p && n * p >= p
  {
    assert n * p == (n - 1) * p + p;
  }

  // The entry at a multi-index, if there is one.
  function At(nest: Nest, index: seq<nat>): Option<Cell>
    decreases |index|
  {
    match nest
    case Item(cell) => if index == [] then Some(cell) else None
    case List(items) => if index == [] || index[0] >= |items| then None else At(items[index[0]], index[1..])
  }

  predicate InRange(dims: seq<nat>, index: seq<nat>)
  {
    |index| == |dims| && forall k :: 0 <= k < |dims| ==> index[k] < dims[k]
  }

  // The row-major position of a multi-index.
  function Flat(dims: seq<nat>, index: seq<nat>): (flat: nat)
    requires InRange(dims, index)
    ensures flat < Product(dims)
  {
    if dims == [] then 0
    else
      var p := Product(dims[1..]);
      var inner := Flat(dims[1..], index[1..]);
      Block(index[0], dims[0], p, inner);
      index[0] * p + inner
  }

  lemma Block(i: nat, n: nat, p: nat, inner: nat)
    requires i < n && inner < p
    ensures i * p + inner < n * p && i * p + p <= n * p
  {
    assert n * p == i * p + (n - i) * p;
    assert (n - i) * p == p + (n - i - 1) * p;
    assert (n - i - 1) * p >= 0;
  }

  lemma {:induction false} KidAt(n: nat, rest: seq<nat>, cells: seq<Cell>, i: nat)
    requires |cells| == n * Product(rest) && i < n
    ensures 0 <= i * Product(rest) && i * Product(rest) + Product(rest) <= |cells|
    ensures Kids(n, rest, cells)[i] == Nested(rest, cells[i * Product(rest)..i * Product(rest) + Product(rest)])
  {
    hide Product, Nested;
    var p := Product(rest);
    LessOne(n, p);
    var m := |cells| - p;
    if i == n - 1 {
      assert cells[m..] == cells[i * p..i * p + p];
    } else {
      KidAt(n - 1, rest, cells[..m], i);
      SliceOfPrefix(cells, m, i * p, i * p + p);
    }
  }

  lemma SliceOfPrefix(cells: seq<Cell>, m: nat, a: nat, b: nat)
    requires a <= b <= m <= |cells|
    ensures cells[..m][a..b] == cells[a..b]
  {
  }

  /** The nested list has an entry exactly at the indices within the dimensions, and it is the
      element at the row-major position. */
  lemma {:induction false} EntryAtIndex(dims: seq<nat>, cells: seq<Cell>, index: seq<nat>)
    requires |cells| == Product(dims)
    ensures At(Nested(dims, cells), index).Some? <==> InRange(dims, index)
    ensures InRange(dims, index) ==> At(Nested(dims, cells), index) == Some(cells[Flat(dims, index)])
    decreases |dims|
  {
    if dims != [] && index != [] {
      var rest, i := dims[1..], index[0];
      RangeStep(dims, index);
      if i < dims[0] {
        KidAt(dims[0], rest, cells, i);
        var p := Product(rest);
        var block := cells[i * p..i * p + p];
        EntryAtIndex(rest, block, index[1..]);
        hide Product, Nested, InRange;
        if InRange(dims, index) {
          FlatStep(dims, index);
          InBlock(cells, i * p, p, Flat(rest, index[1..]));
        }
      }
    }
  }

  lemma RangeStep(dims: seq<nat>, index: seq<nat>)
    requires dims != [] && index != []
    ensures InRange(dims, index) <==> index[0] < dims[0] && InRange(dims[1..], index[1..])
  {
    assert forall k :: 1 <= k < |index| ==> index[k] == index[1..][k - 1];
    assert forall k :: 1 <= k < |dims| ==> dims[k] == dims[1..][k - 1];
  }

  lemma FlatStep(dims: seq<nat>, index: seq<nat>)
    requires dims != [] && InRange(dims, index)
    ensures InRange(dims[1..], index[1..]) && Flat(dims, index) == index[0] * Product(dims[1..]) + Flat(dims[1..], index[1..])
  {
  }

  lemma InBlock(cells: seq<Cell>, a: nat, p: nat, k: nat)
    requires a + p <= |cells| && k < p
    ensures cells[a..a + p][k] == cells[a + k]
  {
  }

  // ---- Printing ----

  function CellText(c: Cell, enc: Encoder): bytes { if c.None? then NULL_TEXT else enc(c) }

  function Text(nest: Nest, enc: Encoder): bytes
    decreases nest
  {
    match nest
    case Item(cell) => CellText(cell, enc)
    case List(items) => [OPEN_BRACKET] + ItemsText(items, enc) + [CLOSE_BRACKET]
  }

  function ItemsText(items: seq<Nest>, enc: Encoder): bytes
    decreases items
  {
    if items == [] then []
    else
      var n := |items| - 1;
      (if n == 0 then [] else ItemsText(items[..n], enc) + [COMMA]) + Text(items[n], enc)
  }

  // ---- The element stream ----

  // One element, and how many bytes it takes. Any negative length is NULL here.
  function LooseCell(body: bytes): (r: Option<(Cell, nat)>)
    ensures r.Some? ==> r.value.1 <= |body|
  {
    if |body| < 4 then None
    else
      var l := I32(body);
      if l < 0 then Some((None, 4))
      else if |body| - 4 < l then None
      else Some((Some(body[4..4 + l]), 4 + l))
  }

  type Read = Option<(seq<Cell>, nat)>

  // The second part of a reading, after the first.
  function Then(first: Read, second: Read): Read
  {
    if first.None? || second.None? then None else Some((first.value.0 + second.value.0, first.value.1 + second.value.1))
  }

  function Loose(body: bytes, n: nat): (r: Read)
    ensures r.Some? ==> |r.value.0| == n && r.value.1 <= |body|
    decreases n
  {
    if n == 0 then Some(([], 0))
    else
      var first := LooseCell(body);
      if first.None? then None
      else Then(Some(([first.value.0], first.value.1)), Loose(body[first.value.1..], n - 1))
  }

  lemma ThenAssoc(a: Read, b: Read, c: Read)
    ensures Then(a, Then(b, c)) == Then(Then(a, b), c)
  {
    if a.Some? && b.Some? && c.Some? {
      assert a.value.0 + (b.value.0 + c.value.0) == a.value.0 + b.value.0 + c.value.0;
    }
  }

  lemma ThenEmpty(a: Read)
    ensures Then(Some(([], 0)), a) == a
  {
    if a.Some? { assert [] + a.value.0 == a.value.0; }
  }

  lemma {:induction false} LooseSplit(body: bytes, a: nat, b: nat)
    ensures Loose(body, a).None? ==> Loose(body, a + b).None?
    ensures Loose(body, a).Some? ==> Loose(body, a + b) == Then(Loose(body, a), Loose(body[Loose(body, a).value.1..], b))
    decreases a
  {
    hide LooseCell, Loose, Then;
    if a == 0 {
      LooseNone(body);
      assert body[0..] == body;
      ThenEmpty(Loose(body, b));
    } else {
      LooseStep(body, a);
      LooseStep(body, a + b);
      var first := LooseCell(body);
      if first.Some? {
        var k := first.value.1;
        var one := Some(([first.value.0], k));
        var more := Loose(body[k..], a - 1);
        LooseSplit(body[k..], a - 1, b);
        if more.Some? {
          assert body[k..][more.value.1..] == body[k + more.value.1..];
          ThenAssoc(one, more, Loose(body[k + more.value.1..], b));
        }
      }
    }
  }

  lemma LooseNone(body: bytes)
    ensures Loose(body, 0) == Some(([], 0))
  {
  }

  lemma LooseStep(body: bytes, n: nat)
    requires n > 0
    ensures var first := LooseCell(body);
            if first.None? then Loose(body, n).None?
            else
              var rest := Loose(body[first.value.1..], n - 1);
              && Loose(body, n) == Then(Some(([first.value.0], first.value.1)), rest)
              && (Loose(body, n).Some? <==> rest.Some?)
              && (rest.Some? ==> Loose(body, n).value.1 == first.value.1 + rest.value.1)
  {
    hide LooseCell;
  }

  // One more block of p elements.
  lemma Grow(body: bytes, i: nat, size: nat, rest: seq<nat>, done: Read)
    requires i < size && done.Some? && done == Loose(body, i * Product(rest))
    ensures var next := Loose(body[done.value.1..], Product(rest));
            && (next.None? ==> Loose(body, size * Product(rest)).None?)
            && Loose(body, (i + 1) * Product(rest)) == Then(done, next)
            && (next.Some? ==> Kids(i + 1, rest, done.value.0 + next.value.0) == Kids(i, rest, done.value.0) + [Nested(rest, next.value.0)])
  {
    hide Product, Loose, Nested;
    var p := Product(rest);
    var next := Loose(body[done.value.1..], p);
    LooseSplit(body, i * p, p);
    Blocks(i, size, p);
    LooseSplit(body, i * p + p, size * p - (i * p + p));
    if next.Some? {
      KidsGrow(i, rest, done.value.0, next.value.0);
    }
  }

  lemma Blocks(i: nat, size: nat, p: nat)
    requires i < size
    ensures (i + 1) * p == i * p + p <= size * p
  {
    assert size * p == (i + 1) * p + (size - i - 1) * p;
  }

  lemma KidsGrow(i: nat, rest: seq<nat>, before: seq<Cell>, more: seq<Cell>)
    requires |before| == i * Product(rest) && |more| == Product(rest) && |before + more| == (i + 1) * Product(rest)
    ensures Kids(i + 1, rest, before + more) == Kids(i, rest, before) + [Nested(rest, more)]
  {
    hide Product, Nested;
    var cells := before + more;
    assert cells[..|cells| - |more|] == before && cells[|cells| - |more|..] == more;
  }

  // ---- appendArrayDim ----

  // ok says whether the body holds an element for every position within dims; if so, n bytes
  // hold them and they have been printed nested by dims.
  predicate Printed(dst: bytes, body: bytes, dims: seq<nat>, enc: Encoder, out: bytes, n: nat, ok: bool)
  {
    var read := Loose(body, Product(dims));
    && (ok <==> read.Some?) && dst <= out
    && (ok ==> n == read.value.1 && out == dst + Text(Nested(dims, read.value.0), enc))
  }

  // The same, i lists into a dimension.
  predicate Partial(dst: bytes, body: bytes, i: nat, rest: seq<nat>, cells: seq<Cell>, consumed: nat, enc: Encoder, out: bytes)
  {
    && consumed <= |body| && |cells| == i * Product(rest) && Loose(body, i * Product(rest)) == Some((cells, consumed))
    && out == dst + [OPEN_BRACKET] + ItemsText(Kids(i, rest, cells), enc)
  }

  lemma PartialStarts(dst: bytes, body: bytes, rest: seq<nat>, enc: Encoder)
    ensures Partial(dst, body, 0, rest, [], 0, enc, dst + [OPEN_BRACKET])
  {
    hide Product;
    assert 0 * Product(rest) == 0;
    assert dst + [OPEN_BRACKET] + [] == dst + [OPEN_BRACKET];
  }

  lemma PartialGrows(dst: bytes, body: bytes, i: nat, size: nat, rest: seq<nat>, cells: seq<Cell>, consumed: nat, enc: Encoder,
                     out: bytes, next: bytes, n: nat, ok: bool)
    returns (more: seq<Cell>)
    requires Partial(dst, body, i, rest, cells, consumed, enc, out) && i < size
    requires Printed(if i > 0 then out + [COMMA] else out, body[consumed..], rest, enc, next, n, ok)
    ensures ok ==> Partial(dst, body, i + 1, rest, more, consumed + n, enc, next)
    ensures !ok ==> Loose(body, size * Product(rest)).None?
    ensures dst <= next
  {
    hide Product, Loose, Kids, Nested, Text, ItemsText;
    var done := Some((cells, consumed));
    Grow(body, i, size, rest, done);
    more := cells;
    if ok {
      var read := Loose(body[consumed..], Product(rest));
      more := cells + read.value.0;
      ItemsGrow(Kids(i, rest, cells), Nested(rest, read.value.0), enc);
    }
  }

  lemma ItemsGrow(items: seq<Nest>, item: Nest, enc: Encoder)
    ensures ItemsText(items + [item], enc) == (if items == [] then [] else ItemsText(items, enc) + [COMMA]) + Text(item, enc)
    ensures items == [] ==> ItemsText(items, enc) == []
  {
    hide Text;
    assert (items + [item])[..|items|] == items;
  }

  lemma PartialEnds(dst: bytes, body: bytes, dims: seq<nat>, depth: nat, cells: seq<Cell>, consumed: nat, enc: Encoder, out: bytes)
    requires depth < |dims| && Partial(dst, body, dims[depth], dims[depth + 1..], cells, consumed, enc, out)
    ensures Printed(dst, body, dims[depth..], enc, out + [CLOSE_BRACKET], consumed, true)
  {
    var below := dims[depth..];
    assert below[0] == dims[depth] && below[1..] == dims[depth + 1..];
    hide Loose, Kids, ItemsText;
    assert Product(below) == below[0] * Product(below[1..]);
  }

  lemma PartialFails(dst: bytes, body: bytes, dims: seq<nat>, depth: nat, enc: Encoder, out: bytes, n: nat)
    requires depth < |dims| && dst <= out && Loose(body, dims[depth] * Product(dims[depth + 1..])).None?
    ensures Printed(dst, body, dims[depth..], enc, out, n, false)
  {
    var below := dims[depth..];
    assert below[0] == dims[depth] && below[1..] == dims[depth + 1..];
    hide Loose, Nested, Text;
    assert Product(below) == below[0] * Product(below[1..]);
  }

  // The leaf case: read one element and print it.
  method AppendElem(dst: bytes, body: bytes, enc: Encoder) returns (out: bytes, n: nat, ok: bool)
    ensures Printed(dst, body, [], enc, out, n, ok)
  {
    LooseStep(body, 1);
    LooseNone(if LooseCell(body).Some? then body[LooseCell(body).value.1..] else body);
    if |body| < 4 { return dst, 0, false; }
    var elemLen := I32(body);
    if elemLen < 0 { return dst + NULL_TEXT, 4, true; }
    if |body| - 4 < elemLen { return dst, 4, false; }
    return dst + enc(Some(body[4..4 + elemLen])), 4 + elemLen, true;
  }

  // One entry of the dimension at depth: an element, or the list one level down.
  method AppendEntry(dst: bytes, body: bytes, dims: seq<nat>, depth: nat, enc: Encoder) returns (out: bytes, n: nat, ok: bool)
    requires depth < |dims|
    ensures Printed(dst, body, dims[depth + 1..], enc, out, n, ok)
    decreases |dims| - depth, 0
  {
    hide Printed;
    if depth == |dims| - 1 {
      assert dims[depth + 1..] == [];
      out, n, ok := AppendElem(dst, body, enc);
    } else {
      out, n, ok := AppendArrayDim(dst, body, dims, depth + 1, enc);
    }
  }

  /** appendArrayDim succeeds exactly when the body holds an element for every position below
      this dimension, consumes exactly those, and prints them nested by the dimensions. */
  method AppendArrayDim(dst: bytes, body: bytes, dims: seq<nat>, depth: nat, enc: Encoder) returns (out: bytes, consumed: nat, ok: bool)
    requires depth < |dims|
    ensures Printed(dst, body, dims[depth..], enc, out, consumed, ok)
    decreases |dims| - depth, 1
  {
    hide Printed, Partial;
    out, consumed := dst + [OPEN_BRACKET], 0;
    var size := dims[depth];
    ghost var rest := dims[depth + 1..];
    ghost var cells: seq<Cell> := [];
    PartialStarts(dst, body, rest, enc);
    PartialBound(dst, body, 0, rest, cells, consumed, enc, out);
    for i := 0 to size
      invariant consumed <= |body| && Partial(dst, body, i, rest, cells, consumed, enc, out)
    {
      ghost var before, start := out, consumed;
      if i > 0 { out := out + [COMMA]; }
      var n;
      out, n, ok := AppendEntry(out, body[consumed..], dims, depth, enc);
      cells := PartialGrows(dst, body, i, size, rest, cells, consumed, enc, before, out, n, ok);
      if !ok {
        PartialFails(dst, body, dims, depth, enc, out, consumed + n);
        return out, consumed + n, false;
      }
      consumed := consumed + n;
      PartialBound(dst, body, i + 1, rest, cells, consumed, enc, out);
    }
    PartialEnds(dst, body, dims, depth, cells, consumed, enc, out);
    out, ok := out + [CLOSE_BRACKET], true;
  }

  lemma PartialBound(dst: bytes, body: bytes, i: nat, rest: seq<nat>, cells: seq<Cell>, consumed: nat, enc: Encoder, out: bytes)
    requires Partial(dst, body, i, rest, cells, consumed, enc, out)
    ensures consumed <= |body|
  {
  }

  // ---- The whole encoder ----

  datatype Header = Malformed | Empty | Dims(dims: seq<nat>)

  function DimAt(raw: bytes, i: nat): int
    requires 16 + 8 * i <= |raw|
  {
    I32(raw[12 + 8 * i..16 + 8 * i])
  }

  function HeaderOf(raw: bytes): (h: Header)
    ensures h.Dims? ==> |h.dims| > 0 && 12 + 8 * |h.dims| <= |raw|
  {
    if |raw| < 12 then Malformed
    else
      var ndim := I32(raw);
      if ndim <= 0 then Empty
      else if |raw| < 12 + 8 * ndim || exists i :: 0 <= i < ndim && DimAt(raw, i) < 0 then Malformed
      else Dims(seq(ndim, i requires 0 <= i < ndim => DimAt(raw, i)))
  }

  /** Which cells have dimensions, and which: those whose first word counts the dimension words that
      follow the header, none of them negative. A count of zero or less is an empty array. */
  lemma HeadersAccepted(raw: bytes, dims: seq<nat>)
    ensures HeaderOf(raw).Empty? <==> |raw| >= 12 && I32(raw) <= 0
    ensures HeaderOf(raw) == Dims(dims) <==>
            dims != [] && |raw| >= 12 + 8 * |dims| && I32(raw) == |dims| && forall i :: 0 <= i < |dims| ==> I32(raw[12 + 8 * i..]) == dims[i]
  {
    hide I32, DimAt;
    if |raw| >= 12 && I32(raw) > 0 && |raw| >= 12 + 8 * I32(raw) {
      var n := I32(raw);
      forall i | 0 <= i < n ensures DimAt(raw, i) == I32(raw[12 + 8 * i..]) { DimIs(raw, i); }
      if |dims| == n && forall i :: 0 <= i < n ==> I32(raw[12 + 8 * i..]) == dims[i] {
        assert forall i :: 0 <= i < n ==> DimAt(raw, i) == dims[i];
        assert seq(n, i requires 0 <= i < n => DimAt(raw, i)) == dims;
      }
    }
  }

  lemma DimIs(raw: bytes, i: nat)
    requires 16 + 8 * i <= |raw|
    ensures DimAt(raw, i) == I32(raw[12 + 8 * i..])
  {
    var a, b := raw[12 + 8 * i..16 + 8 * i], raw[12 + 8 * i..];
    assert a[0] == b[0] && a[1] == b[1] && a[2] == b[2] && a[3] == b[3];
  }

  // The loop that fills dims; None at a negative one.
  method ReadDims(raw: bytes, ndim: nat) returns (dims: Option<seq<nat>>)
    requires 12 + 8 * ndim <= |raw|
    ensures dims.None? <==> exists i :: 0 <= i < ndim && DimAt(raw, i) < 0
    ensures dims.Some? ==> |dims.value| == ndim && forall i :: 0 <= i < ndim ==> dims.value[i] == DimAt(raw, i)
  {
    var filled: seq<nat> := [];
    for i := 0 to ndim
      invariant |filled| == i && forall k :: 0 <= k < i ==> DimAt(raw, k) == filled[k]
    {
      var d := DimAt(raw, i);
      if d < 0 { return None; }
      filled := filled + [d];
    }
    dims := Some(filled);
  }

  /** The encoder built by makeArrayBinaryEncoder: a well-formed body is printed as the nested
      list of its elements; a short body is followed by the raw bytes as a string. */
  method EncodeArray(dst: bytes, raw: Cell, enc: Encoder) returns (out: bytes)
    ensures raw.None? ==> out == dst + NULL_TEXT
    ensures raw.Some? && HeaderOf(raw.value).Malformed? ==> out == dst + Quoted(raw.value)
    ensures raw.Some? && HeaderOf(raw.value).Empty? ==> out == dst + [OPEN_BRACKET, CLOSE_BRACKET]
    ensures raw.Some? && HeaderOf(raw.value).Dims? ==>
              var dims := HeaderOf(raw.value).dims;
              var read := Loose(raw.value[12 + 8 * |dims|..], Product(dims));
              && (read.Some? ==> out == dst + Text(Nested(dims, read.value.0), enc))
              && (read.None? ==> exists partial :: dst <= partial && out == partial + Quoted(raw.value))
  {
    hide U32, Loose, Nested, Text, Quoted, Product;
    if raw.None? { return dst + NULL_TEXT; }
    var b := raw.value;
    if |b| < 12 { return dst + Quoted(b); }
    var ndim := I32(b);
    if ndim <= 0 { return dst + [OPEN_BRACKET, CLOSE_BRACKET]; }
    if |b| < 12 + 8 * ndim { return dst + Quoted(b); }
    var dims := ReadDims(b, ndim);
    if dims.None? { return dst + Quoted(b); }
    assert dims.value == HeaderOf(b).dims;
    var consumed, ok;
    out, consumed, ok := AppendArrayDim(dst, b[12 + 8 * ndim..], dims.value, 0, enc);
    assert dims.value[0..] == dims.value;
    if !ok {
      out := out + Quoted(b);
    }
  }

  // ---- Slices of structs' fields ----

  // n elements read one by one with readArrayElem, which reads what FirstCell reads.
  type Taken = Result<(seq<Cell>, bytes), RowError>

  function TakeCells(body: bytes, n: nat): (r: Taken)
    ensures r.Ok? ==> |r.value.0| == n
  {
    if n == 0 then Ok(([], body))
    else
      var before := TakeCells(body, n - 1);
      if before.Err? then before
      else
        var next := FirstCell(before.value.1);
        if next.Err? then Err(next.error) else Ok((before.value.0 + [next.value.0], next.value.1))
  }

  function Onward(first: Taken, b: nat): Taken
  {
    if first.Err? then first
    else
      var second := TakeCells(first.value.1, b);
      if second.Err? then second else Ok((first.value.0 + second.value.0, second.value.1))
  }

  lemma {:induction false} TakeSplit(body: bytes, a: nat, b: nat)
    ensures TakeCells(body, a + b) == Onward(TakeCells(body, a), b)
    decreases b
  {
    hide FirstCell;
    if b > 0 {
      TakeSplit(body, a, b - 1);
      assert a + b - 1 == a + (b - 1);
      var first := TakeCells(body, a);
      if first.Ok? {
        var second := TakeCells(first.value.1, b - 1);
        if second.Ok? && FirstCell(second.value.1).Ok? {
          var c := FirstCell(second.value.1).value.0;
          assert first.value.0 + second.value.0 + [c] == first.value.0 + (second.value.0 + [c]);
        }
      }
    } else if TakeCells(body, a).Ok? {
      assert TakeCells(body, a).value.0 + [] == TakeCells(body, a).value.0;
    }
  }

  /** Where the slice readers accept the elements, the printer reads the same ones. */
  lemma {:induction false} SameElements(body: bytes, n: nat)
    requires TakeCells(body, n).Ok?
    ensures Loose(body, n) == Some((TakeCells(body, n).value.0, |body| - |TakeCells(body, n).value.1|))
    ensures TakeCells(body, n).value.1 == body[|body| - |TakeCells(body, n).value.1|..]
  {
    hide LooseCell, FirstCell, Loose, TakeCells;
    if n == 0 {
      LooseNone(body);
      TakeNone(body);
    } else {
      TakeStep(body, n);
      SameElements(body, n - 1);
      var before := TakeCells(body, n - 1).value;
      OneElement(before.1);
      JoinOne(body, n - 1, before.0, before.1, FirstCell(before.1).value.0, FirstCell(before.1).value.1);
    }
  }

  lemma JoinOne(body: bytes, n: nat, cells: seq<Cell>, left: bytes, c: Cell, rest: bytes)
    requires |rest| <= |left| <= |body| && left == body[|body| - |left|..] && rest == left[|left| - |rest|..]
    requires Loose(body, n) == Some((cells, |body| - |left|)) && Loose(left, 1) == Some(([c], |left| - |rest|))
    ensures Loose(body, n + 1) == Some((cells + [c], |body| - |rest|)) && rest == body[|body| - |rest|..]
  {
    hide Loose;
    LooseSplit(body, n, 1);
  }

  lemma TakeNone(body: bytes)
    ensures TakeCells(body, 0) == Ok(([], body))
  {
  }

  lemma TakeStep(body: bytes, n: nat)
    requires n > 0 && TakeCells(body, n).Ok?
    ensures TakeCells(body, n - 1).Ok? && FirstCell(TakeCells(body, n - 1).value.1).Ok?
    ensures TakeCells(body, n).value.0 == TakeCells(body, n - 1).value.0 + [FirstCell(TakeCells(body, n - 1).value.1).value.0]
    ensures TakeCells(body, n).value.1 == FirstCell(TakeCells(body, n - 1).value.1).value.1
  {
    hide FirstCell;
  }

  lemma OneElement(body: bytes)
    requires FirstCell(body).Ok?
    ensures var rest := FirstCell(body).value.1;
            |rest| <= |body| && rest == body[|body| - |rest|..] && Loose(body, 1) == Some(([FirstCell(body).value.0], |body| - |rest|))
  {
    hide U32;
    LooseStep(body, 1);
    LooseNone(body[LooseCell(body).value.1..]);
    assert [LooseCell(body).value.0] + [] == [LooseCell(body).value.0];
  }

  datatype ScanError =
    | HeaderTruncated | WrongRank(ndim: int) | DimsTruncated | NegativeDim | BadElement(row: RowError) | SetterFailed

  // vs are the values that the element setter makes of the cells.
  ghost predicate Placed<V>(cells: seq<Cell>, setter: Cell -> Option<V>, vs: seq<V>)
  {
    |vs| == |cells| && forall i :: 0 <= i < |cells| ==> setter(cells[i]) == Some(vs[i])
  }

  // The setter refuses one of the n elements, or they cannot all be read.
  ghost predicate Refused<V>(body: bytes, n: nat, setter: Cell -> Option<V>)
  {
    TakeCells(body, n).Err? || exists i :: 0 <= i < n && setter(TakeCells(body, n).value.0[i]).None?
  }

  lemma {:induction false} TakeErr(body: bytes, a: nat, b: nat)
    requires a <= b && TakeCells(body, b).Ok?
    ensures TakeCells(body, a).Ok? && TakeCells(body, a).value.0 <= TakeCells(body, b).value.0
    decreases b
  {
    hide FirstCell;
    if a < b { TakeErr(body, a, b - 1); }
  }

  lemma RefusedEarly<V>(body: bytes, a: nat, b: nat, setter: Cell -> Option<V>)
    requires a <= b && Refused(body, a, setter)
    ensures Refused(body, b, setter)
  {
    hide FirstCell;
    if TakeCells(body, b).Ok? {
      TakeErr(body, a, b);
      var i :| 0 <= i < a && setter(TakeCells(body, a).value.0[i]).None?;
      assert setter(TakeCells(body, b).value.0[i]).None?;
    }
  }

  // The element loop of the 1-D closure, also the inner loop of the 2-D one.
  method FillSlice<V>(body: bytes, n: nat, setter: Cell -> Option<V>, zero: V)
    returns (r: Result<seq<V>, ScanError>, rest: bytes)
    ensures r.Ok? ==> TakeCells(body, n).Ok? && rest == TakeCells(body, n).value.1 && Placed(TakeCells(body, n).value.0, setter, r.value)
    ensures r.Err? ==> Refused(body, n, setter)
  {
    hide FirstCell;
    var slice := new V[n](_ => zero);
    rest, r := body, Ok([]);
    for i := 0 to n
      invariant TakeCells(body, i).Ok? && rest == TakeCells(body, i).value.1
      invariant Placed(TakeCells(body, i).value.0, setter, slice[..i])
    {
      var first := FirstCell(rest);
      if first.Err? {
        RefusedEarly(body, i + 1, n, setter);
        return Err(BadElement(first.error)), rest;
      }
      var v := setter(first.value.0);
      if v.None? {
        assert TakeCells(body, i + 1).value.0[i] == first.value.0;
        RefusedEarly(body, i + 1, n, setter);
        return Err(SetterFailed), rest;
      }
      slice[i], rest := v.value, first.value.1;
      assert slice[..i + 1] == slice[..i] + [v.value];
    }
    assert slice[..n] == slice[..];
    r := Ok(slice[..]);
  }

  // The n elements of body, through the setter.
  ghost predicate Fills<V>(body: bytes, n: nat, setter: Cell -> Option<V>, vs: seq<V>)
  {
    TakeCells(body, n).Ok? && Placed(TakeCells(body, n).value.0, setter, vs)
  }

  /** The 1-D closure: a nil slice for NULL, the values of the elements in order for a rank-1
      array whose elements can all be read and set, and an error for everything else. */
  method Scan1D<V>(raw: Cell, setter: Cell -> Option<V>, zero: V) returns (r: Result<Option<seq<V>>, ScanError>)
    ensures raw.None? ==> r == Ok(None)
    ensures raw.Some? && HeaderOf(raw.value).Empty? ==> r == if I32(raw.value) == 0 then Ok(Some([])) else Err(WrongRank(I32(raw.value)))
    ensures raw.Some? && (HeaderOf(raw.value).Malformed? || (HeaderOf(raw.value).Dims? && |HeaderOf(raw.value).dims| != 1)) ==> r.Err?
    ensures raw.Some? && HeaderOf(raw.value).Dims? && |HeaderOf(raw.value).dims| == 1 ==>
              var body, n := raw.value[20..], HeaderOf(raw.value).dims[0];
              if r.Ok? then r.value.Some? && Fills(body, n, setter, r.value.value) else Refused(body, n, setter)
  {
    hide U32, TakeCells, Refused, Placed;
    if raw.None? { return Ok(None); }
    var b := raw.value;
    if |b| < 12 { return Err(HeaderTruncated); }
    var ndim := I32(b);
    if ndim == 0 { return Ok(Some([])); }
    if ndim != 1 { return Err(WrongRank(ndim)); }
    if |b| < 20 { return Err(DimsTruncated); }
    var dimLen := DimAt(b, 0);
    if dimLen < 0 { return Err(NegativeDim); }
    var slice, rest := FillSlice(b[20..], dimLen, setter, zero);
    r := if slice.Ok? then Ok(Some(slice.value)) else Err(slice.error);
  }

  // vss[i][j] is the value of the cell at i * n + j.
  ghost predicate Placed2<V>(cells: seq<Cell>, n: nat, setter: Cell -> Option<V>, vss: seq<seq<V>>)
  {
    |cells| == |vss| * n && forall i :: 0 <= i < |vss| ==> RowPlaced(cells, n, i, setter, vss[i])
  }

  ghost predicate RowPlaced<V>(cells: seq<Cell>, n: nat, i: nat, setter: Cell -> Option<V>, vs: seq<V>)
  {
    |vs| == n && i * n + n <= |cells| && forall j :: 0 <= j < n ==> setter(cells[i * n + j]) == Some(vs[j])
  }

  lemma Placed2Grows<V>(cells: seq<Cell>, more: seq<Cell>, n: nat, setter: Cell -> Option<V>, vss: seq<seq<V>>, vs: seq<V>)
    requires Placed2(cells, n, setter, vss) && |more| == n && Placed(more, setter, vs)
    ensures Placed2(cells + more, n, setter, vss + [vs])
  {
    var all := vss + [vs];
    Blocks(|vss|, |vss| + 1, n);
    forall i | 0 <= i < |all| ensures RowPlaced(cells + more, n, i, setter, all[i]) {
      if i < |vss| {
        assert RowPlaced(cells, n, i, setter, vss[i]);
        RowKept(cells, more, n, i, setter, vss[i]);
      } else {
        assert forall j :: 0 <= j < n ==> (cells + more)[i * n + j] == more[j];
      }
    }
  }

  lemma RowKept<V>(cells: seq<Cell>, more: seq<Cell>, n: nat, i: nat, setter: Cell -> Option<V>, vs: seq<V>)
    requires RowPlaced(cells, n, i, setter, vs)
    ensures RowPlaced(cells + more, n, i, setter, vs)
  {
    forall j | 0 <= j < n ensures setter((cells + more)[i * n + j]) == Some(vs[j]) {
      assert (cells + more)[i * n + j] == cells[i * n + j];
    }
  }

  ghost predicate Fills2<V>(body: bytes, n: nat, m: nat, setter: Cell -> Option<V>, vss: seq<seq<V>>)
  {
    TakeCells(body, n * m).Ok? && |vss| == n && Placed2(TakeCells(body, n * m).value.0, m, setter, vss)
  }

  ghost predicate Refused2<V>(body: bytes, n: nat, m: nat, setter: Cell -> Option<V>) { Refused(body, n * m, setter) }

  // The nested loops of the 2-D closure.
  method FillRows<V>(body: bytes, outerLen: nat, innerLen: nat, setter: Cell -> Option<V>, zero: V)
    returns (r: Result<seq<seq<V>>, ScanError>)
    ensures r.Ok? ==> Fills2(body, outerLen, innerLen, setter, r.value)
    ensures r.Err? ==> Refused2(body, outerLen, innerLen, setter)
  {
    var outer: seq<seq<V>> := [];
    var rest := body;
    ghost var cells: seq<Cell> := [];
    assert 0 * innerLen == 0;
    assert TakeCells(body, 0) == Ok(([], body));
    hide TakeCells, Placed, Refused, Placed2;
    EmptyPlaced2(innerLen, setter);
    for i := 0 to outerLen
      invariant |outer| == i && TakeCells(body, i * innerLen) == Ok((cells, rest)) && Placed2(cells, innerLen, setter, outer)
    {
      Blocks(i, outerLen, innerLen);
      var inner, left := FillSlice(rest, innerLen, setter, zero);
      TakeSplit(body, i * innerLen, innerLen);
      if inner.Err? {
        RefusedOnward(body, i * innerLen, innerLen, setter);
        RefusedEarly(body, (i + 1) * innerLen, outerLen * innerLen, setter);
        return Err(inner.error);
      }
      Placed2Grows(cells, TakeCells(rest, innerLen).value.0, innerLen, setter, outer, inner.value);
      cells := cells + TakeCells(rest, innerLen).value.0;
      outer, rest := outer + [inner.value], left;
    }
    r := Ok(outer);
  }

  lemma EmptyPlaced2<V>(n: nat, setter: Cell -> Option<V>)
    ensures Placed2([], n, setter, [])
  {
  }

  lemma RefusedOnward<V>(body: bytes, a: nat, b: nat, setter: Cell -> Option<V>)
    requires TakeCells(body, a).Ok? && Refused(TakeCells(body, a).value.1, b, setter)
    ensures Refused(body, a + b, setter)
  {
    hide TakeCells;
    TakeSplit(body, a, b);
    var first := TakeCells(body, a).value;
    if TakeCells(body, a + b).Ok? {
      var i :| 0 <= i < b && setter(TakeCells(first.1, b).value.0[i]).None?;
      assert TakeCells(body, a + b).value.0[a + i] == TakeCells(first.1, b).value.0[i];
    }
  }

  /** The 2-D closure places the element at row-major position i * inner + j at [i][j]. */
  method Scan2D<V>(raw: Cell, setter: Cell -> Option<V>, zero: V) returns (r: Result<Option<seq<seq<V>>>, ScanError>)
    ensures raw.None? ==> r == Ok(None)
    ensures raw.Some? && HeaderOf(raw.value).Empty? ==> r == if I32(raw.value) == 0 then Ok(Some([])) else Err(WrongRank(I32(raw.value)))
    ensures raw.Some? && (HeaderOf(raw.value).Malformed? || (HeaderOf(raw.value).Dims? && |HeaderOf(raw.value).dims| != 2)) ==> r.Err?
    ensures raw.Some? && HeaderOf(raw.value).Dims? && |HeaderOf(raw.value).dims| == 2 ==>
              var body, n, m := raw.value[28..], HeaderOf(raw.value).dims[0], HeaderOf(raw.value).dims[1];
              if r.Ok? then r.value.Some? && Fills2(body, n, m, setter, r.value.value) else Refused2(body, n, m, setter)
  {
    hide U32, TakeCells, Refused, Placed2;
    if raw.None? { return Ok(None); }
    var b := raw.value;
    if |b| < 12 { return Err(HeaderTruncated); }
    var ndim := I32(b);
    if ndim == 0 { return Ok(Some([])); }
    if ndim != 2 { return Err(WrongRank(ndim)); }
    if |b| < 28 { return Err(DimsTruncated); }
    var outerLen, innerLen := DimAt(b, 0), DimAt(b, 1);
    if outerLen < 0 || innerLen < 0 { return Err(NegativeDim); }
    var rows := FillRows(b[28..], outerLen, innerLen, setter, zero);
    r := if rows.Ok? then Ok(Some(rows.value)) else Err(rows.error);
  }

  /** For ranks 1 and 2, the slices hold the elements that the printed nested list holds at the
      same indices. */
  lemma Scan1DMatchesText<V>(body: bytes, n: nat, setter: Cell -> Option<V>, vs: seq<V>, i: nat)
    requires Fills(body, n, setter, vs) && i < n
    ensures var read := Loose(body, Product([n]));
            && |vs| == n && read.Some?
            && At(Nested([n], read.value.0), [i]).Some?
            && setter(At(Nested([n], read.value.0), [i]).value) == Some(vs[i])
  {
    hide TakeCells, Loose, Nested, At;
    assert Product([n]) == n by { assert [n][1..] == []; }
    SameElements(body, n);
    var cells := TakeCells(body, n).value.0;
    EntryAtIndex([n], cells, [i]);
    assert Flat([n], [i]) == i by { assert [n][1..] == [] && [i][1..] == []; }
  }

  lemma Scan2DMatchesText<V>(body: bytes, n: nat, m: nat, setter: Cell -> Option<V>, vss: seq<seq<V>>, i: nat, j: nat)
    requires Fills2(body, n, m, setter, vss) && i < n && j < m
    ensures var read := Loose(body, Product([n, m]));
            && |vss| == n && |vss[i]| == m && read.Some?
            && At(Nested([n, m], read.value.0), [i, j]).Some?
            && setter(At(Nested([n, m], read.value.0), [i, j]).value) == Some(vss[i][j])
  {
    hide TakeCells, Loose, Nested, At;
    TwoDims(n, m, i, j);
    SameElements(body, n * m);
    var cells := TakeCells(body, n * m).value.0;
    EntryAtIndex([n, m], cells, [i, j]);
    assert RowPlaced(cells, m, i, setter, vss[i]);
  }

  lemma OneDim(m: nat, j: nat)
    requires j < m
    ensures Product([m]) == m && InRange([m], [j]) && Flat([m], [j]) == j
  {
    assert [m][1..] == [] && [j][1..] == [];
    assert Product([m][1..]) == 1;
    assert Product([m]) == m * 1;
    assert Flat([m][1..], [j][1..]) == 0;
    assert Flat([m], [j]) == j * 1 + 0;
  }

  lemma TwoDims(n: nat, m: nat, i: nat, j: nat)
    requires i < n && j < m
    ensures Product([n, m]) == n * m && InRange([n, m], [i, j]) && Flat([n, m], [i, j]) == i * m + j
  {
    OneDim(m, j);
    assert [n, m][1..] == [m] && [i, j][1..] == [j];
    var inner, flat := Product([m]), Flat([m], [j]);
    assert Product([n, m]) == n * inner;
    assert Flat([n, m], [i, j]) == i * inner + flat;
  }

  // ---- The server's form ----

  function DimHeaders(dims: seq<nat>, bounds: seq<int>): (b: bytes)
    requires |bounds| == |dims|
    ensures |b| == 8 * |dims|
  {
    if dims == [] then []
    else
      var n := |dims| - 1;
      DimHeaders(dims[..n], bounds[..n]) + (Put32(dims[n]) + Put32(bounds[n]))
  }

  function WireArray(flags: int, oid: int, dims: seq<nat>, bounds: seq<int>, cells: seq<Cell>): bytes
    requires |bounds| == |dims|
  {
    Put32(|dims|) + (Put32(flags) + (Put32(oid) + (DimHeaders(dims, bounds) + WireCells(cells))))
  }

  lemma {:induction false} DimHeaderAt(dims: seq<nat>, bounds: seq<int>, i: nat)
    requires |bounds| == |dims| && i < |dims|
    ensures DimHeaders(dims, bounds)[8 * i..8 * i + 4] == Put32(dims[i])
  {
    hide Put32;
    var n := |dims| - 1;
    var front := DimHeaders(dims[..n], bounds[..n]);
    if i < n {
      DimHeaderAt(dims[..n], bounds[..n], i);
      InFront(front, Put32(dims[n]) + Put32(bounds[n]), 8 * i, 8 * i + 4);
    } else {
      AtBack(front, Put32(dims[n]), Put32(bounds[n]));
    }
  }

  lemma InFront(a: bytes, b: bytes, i: nat, j: nat)
    requires i <= j <= |a|
    ensures (a + b)[i..j] == a[i..j]
  {
  }

  lemma AtBack(a: bytes, b: bytes, c: bytes)
    ensures (a + (b + c))[|a|..|a| + |b|] == b
  {
  }

  lemma SliceOfMiddle(a: bytes, b: bytes, c: bytes, i: nat, j: nat)
    requires i <= j <= |b|
    ensures (a + (b + c))[|a| + i..|a| + j] == b[i..j]
    ensures (a + (b + c))[|a| + |b|..] == c
  {
  }

  lemma {:induction false} TakeWire(cells: seq<Cell>, rest: bytes)
    requires Sendable(cells)
    ensures TakeCells(WireCells(cells) + rest, |cells|) == Ok((cells, rest))
  {
    hide FirstCell, WireCell;
    if cells == [] {
      assert WireCells(cells) + rest == rest;
    } else {
      var c, more := cells[0], cells[1..];
      var body := WireCells(cells) + rest;
      var left := WireCells(more) + rest;
      assert body == WireCell(c) + left;
      FirstCellOfWire(c, left);
      TakeWire(more, rest);
      TakeSplit(body, 1, |more|);
      assert TakeCells(body, 0) == Ok(([], body));
      assert TakeCells(body, 1) == Ok(([c], left)) by { assert [] + [c] == [c]; }
      assert [c] + more == cells;
    }
  }

  /** For any rank, dimensions and nullable elements: the header reads back, and both readers
      take exactly the elements and exactly the body. */
  lemma WireArrayReads(flags: int, oid: int, dims: seq<nat>, bounds: seq<int>, cells: seq<Cell>)
    requires |bounds| == |dims| && 0 < |dims| < 0x8000_0000 && |cells| == Product(dims) && Sendable(cells)
    requires forall i :: 0 <= i < |dims| ==> dims[i] < 0x8000_0000
    ensures var raw := WireArray(flags, oid, dims, bounds, cells);
            && HeaderOf(raw) == Dims(dims)
            && TakeCells(raw[12 + 8 * |dims|..], Product(dims)) == Ok((cells, []))
            && Loose(raw[12 + 8 * |dims|..], Product(dims)) == Some((cells, |raw| - 12 - 8 * |dims|))
  {
    hide WireArray, HeaderOf, DimHeaders, WireCells, Loose, TakeCells, Product, Put32, Sendable;
    WireHeader(flags, oid, dims, bounds, cells);
    WireParts(flags, oid, dims, bounds, cells);
    TakeWire(cells, []);
    assert WireCells(cells) + [] == WireCells(cells);
    SameElements(WireCells(cells), Product(dims));
  }

  lemma WireParts(flags: int, oid: int, dims: seq<nat>, bounds: seq<int>, cells: seq<Cell>)
    requires |bounds| == |dims|
    ensures var raw := WireArray(flags, oid, dims, bounds, cells);
            && |raw| == 12 + 8 * |dims| + |WireCells(cells)| && raw[12 + 8 * |dims|..] == WireCells(cells)
            && raw == Put32(|dims|) + raw[4..]
            && forall i :: 0 <= i < |dims| ==> raw[12 + 8 * i..16 + 8 * i] == Put32(dims[i])
  {
    var raw := WireArray(flags, oid, dims, bounds, cells);
    var fixed, heads, body := Put32(|dims|) + Put32(flags) + Put32(oid), DimHeaders(dims, bounds), WireCells(cells);
    hide Put32, DimHeaders, WireCells;
    assert raw == fixed + (heads + body);
    SliceOfMiddle(fixed, heads, body, 0, 0);
    forall i | 0 <= i < |dims| ensures raw[12 + 8 * i..16 + 8 * i] == Put32(dims[i]) {
      SliceOfMiddle(fixed, heads, body, 8 * i, 8 * i + 4);
      DimHeaderAt(dims, bounds, i);
    }
  }

  lemma WireHeader(flags: int, oid: int, dims: seq<nat>, bounds: seq<int>, cells: seq<Cell>)
    requires |bounds| == |dims| && 0 < |dims| < 0x8000_0000
    requires forall i :: 0 <= i < |dims| ==> dims[i] < 0x8000_0000
    ensures HeaderOf(WireArray(flags, oid, dims, bounds, cells)) == Dims(dims)
  {
    var raw := WireArray(flags, oid, dims, bounds, cells);
    WireParts(flags, oid, dims, bounds, cells);
    hide WireArray, Put32, U32, WireCells;
    Put32Reads(|dims|, raw[4..]);
    forall i | 0 <= i < |dims| ensures DimAt(raw, i) == dims[i] {
      Put32Reads(dims[i], []);
      assert Put32(dims[i]) + [] == Put32(dims[i]);
    }
  }
}
